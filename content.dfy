/** What goes inside the bubble, and in which order: the header (username and
    time), the parent quote, the media and text blocks and the caller's custom
    view; and the quick replies rendered beside the bubble. */
module Content {
  import opened Nullable
  import opened BubbleProps

  datatype Block =
    | HeaderBlock(username: Option<string>, time: Option<Element>)
    | ParentBlock(showsName: bool)
    | ImageBlock(image: Element)
    | VideoBlock(video: Element)
    | AudioBlock(audio: Element)
    | TextBlock(text: Element)
    | CustomBlock(custom: Node)

  /** `e` is what a block with render override `o` must show: the element
      the override returns when there is one, the bubble's default otherwise. */
  predicate Replaces(e: Element, o: Override)
  {
    (e.Supplied? <==> o.Returns?) && (e.Supplied? ==> o.result == Some(e.node))
  }

  /** The header is suppressed on same-user alone; the day is not consulted. */
  predicate IsSameThread(p: Props, u: Utils)
  {
    p.currentMessage.Some? && p.previousMessage.Some?
    && u.isSameUser(p.currentMessage.value, p.previousMessage.value)
  }

  /** The username label is built (and reads the author's name). */
  predicate UsernameShown(p: Props, u: Utils)
  {
    p.renderUsernameOnMessage && p.currentMessage.Some? && !IsSameThread(p, u)
  }

  /** The author's name can be read whenever the label is built: the message
      type declares `user` as required, and a missing one makes the label
      throw. */
  predicate NameReadable(p: Props, u: Utils)
  {
    UsernameShown(p, u) ==> p.currentMessage.value.user.Some?
  }

  /** renderUsername: the author's name, unless the flag is off, there is no
      message, or the previous message is by the same user. The caller's
      `renderUsername` override is never consulted. */
  function Username(p: Props, u: Utils): (r: Option<string>)
    requires NameReadable(p, u)
    ensures r.Some? <==> p.renderUsernameOnMessage && p.currentMessage.Some? && !IsSameThread(p, u)
    ensures r.Some? ==> r.value == p.currentMessage.value.user.value.name
  {
    if p.renderUsernameOnMessage && p.currentMessage.Some? then
      if p.previousMessage.Some? && u.isSameUser(p.currentMessage.value, p.previousMessage.value) then None
      else Some(p.currentMessage.value.user.value.name)
    else None
  }

  /** renderTime: shown when the message has a truthy `createdAt`, unless a
      `renderTime` override returns null. */
  function Time(p: Props): (r: Option<Element>)
    ensures r.Some? <==> p.currentMessage.Some? && HasTime(p.currentMessage.value.createdAt) && Yields(p.renderTime)
    ensures r.Some? ==> Replaces(r.value, p.renderTime)
  {
    if p.currentMessage.Some? && HasTime(p.currentMessage.value.createdAt) && Yields(p.renderTime) then
      Some(Chosen(p.renderTime))
    else None
  }

  /** The header: username then time, unless the thread continues. */
  function Header(p: Props, u: Utils): (r: Option<Block>)
    requires NameReadable(p, u)
    ensures r.Some? <==> !IsSameThread(p, u)
    ensures r.Some? ==> r.value.HeaderBlock? && r.value.username == Username(p, u) && r.value.time == Time(p)
  {
    if IsSameThread(p, u) then None else Some(HeaderBlock(Username(p, u), Time(p)))
  }

  /** renderParentMessage, gating only: the quote shows its author's name
      line when that name is truthy. */
  function ParentQuote(p: Props): (r: Option<Block>)
    ensures r.Some? <==> p.currentMessage.Some? && p.currentMessage.value.parent.Some?
    ensures r.Some? ==> r.value.ParentBlock? && (r.value.showsName <==> p.currentMessage.value.parent.value.name != "")
  {
    if p.currentMessage.Some? && p.currentMessage.value.parent.Some? then
      Some(ParentBlock(p.currentMessage.value.parent.value.name != ""))
    else None
  }

  function MessageImage(p: Props): (r: Option<Block>)
    ensures r.Some? <==> p.currentMessage.Some? && p.currentMessage.value.image != "" && Yields(p.renderMessageImage)
    ensures r.Some? ==> r.value.ImageBlock? && Replaces(r.value.image, p.renderMessageImage)
  {
    if p.currentMessage.Some? && p.currentMessage.value.image != "" && Yields(p.renderMessageImage) then
      Some(ImageBlock(Chosen(p.renderMessageImage)))
    else None
  }

  function MessageVideo(p: Props): (r: Option<Block>)
    ensures r.Some? <==> p.currentMessage.Some? && p.currentMessage.value.video != "" && Yields(p.renderMessageVideo)
    ensures r.Some? ==> r.value.VideoBlock? && Replaces(r.value.video, p.renderMessageVideo)
  {
    if p.currentMessage.Some? && p.currentMessage.value.video != "" && Yields(p.renderMessageVideo) then
      Some(VideoBlock(Chosen(p.renderMessageVideo)))
    else None
  }

  function MessageAudio(p: Props): (r: Option<Block>)
    ensures r.Some? <==> p.currentMessage.Some? && p.currentMessage.value.audio != "" && Yields(p.renderMessageAudio)
    ensures r.Some? ==> r.value.AudioBlock? && Replaces(r.value.audio, p.renderMessageAudio)
  {
    if p.currentMessage.Some? && p.currentMessage.value.audio != "" && Yields(p.renderMessageAudio) then
      Some(AudioBlock(Chosen(p.renderMessageAudio)))
    else None
  }

  function MessageText(p: Props): (r: Option<Block>)
    ensures r.Some? <==> p.currentMessage.Some? && p.currentMessage.value.text != "" && Yields(p.renderMessageText)
    ensures r.Some? ==> r.value.TextBlock? && Replaces(r.value.text, p.renderMessageText)
  {
    if p.currentMessage.Some? && p.currentMessage.value.text != "" && Yields(p.renderMessageText) then
      Some(TextBlock(Chosen(p.renderMessageText)))
    else None
  }

  /** renderCustomView: only the element the caller's override returns;
      there is no default. */
  function CustomView(p: Props): (r: Option<Block>)
    ensures r.Some? <==> p.renderCustomView.Returns? && p.renderCustomView.result.Some?
    ensures r.Some? ==> r.value == CustomBlock(p.renderCustomView.result.value)
  {
    if p.renderCustomView.Returns? && p.renderCustomView.result.Some? then
      Some(CustomBlock(p.renderCustomView.result.value))
    else None
  }

  datatype Kind = HeaderKind | ParentKind | ImageKind | VideoKind | AudioKind | TextKind | CustomKind

  function KindOf(b: Block): Kind
  {
    match b
    case HeaderBlock(_, _) => HeaderKind
    case ParentBlock(_) => ParentKind
    case ImageBlock(_) => ImageKind
    case VideoBlock(_) => VideoKind
    case AudioBlock(_) => AudioKind
    case TextBlock(_) => TextKind
    case CustomBlock(_) => CustomKind
  }

  /** When each kind of block is due: the header unless the thread continues;
      the parent quote when there is one; each medium and the text when the
      message's field is truthy and no override for it returns null; the
      custom view when the caller's override returns an element. */
  predicate Due(p: Props, u: Utils, k: Kind)
  {
    var m := p.currentMessage;
    match k
    case HeaderKind => !IsSameThread(p, u)
    case ParentKind => m.Some? && m.value.parent.Some?
    case ImageKind => m.Some? && m.value.image != "" && Yields(p.renderMessageImage)
    case VideoKind => m.Some? && m.value.video != "" && Yields(p.renderMessageVideo)
    case AudioKind => m.Some? && m.value.audio != "" && Yields(p.renderMessageAudio)
    case TextKind => m.Some? && m.value.text != "" && Yields(p.renderMessageText)
    case CustomKind => p.renderCustomView.Returns? && p.renderCustomView.result.Some?
  }

  /** The place of each kind of block in the two fixed orders:
      header, parent, image, video, audio, text, custom when the custom view
      goes at the bottom; header, parent, custom, image, video, audio, text
      otherwise. */
  function Rank(k: Kind, customAtBottom: bool): nat
  {
    match k
    case HeaderKind => 0
    case ParentKind => 1
    case CustomKind => if customAtBottom then 6 else 2
    case ImageKind => if customAtBottom then 2 else 3
    case VideoKind => if customAtBottom then 3 else 4
    case AudioKind => if customAtBottom then 4 else 5
    case TextKind => if customAtBottom then 5 else 6
  }

  /** The place of each kind in the bottom variant's order. */
  function Place(k: Kind): (i: nat)
    ensures i < 7
  {
    Rank(k, true)
  }

  /** Seven slots, each empty or holding a block of the kind whose place it
      is in the bottom variant's order. */
  predicate WellKinded(s: seq<Option<Block>>)
  {
    |s| == 7 && forall i :: 0 <= i < 7 && s[i].Some? ==> Place(KindOf(s[i].value)) == i
  }

  /** The two child lists of the content view: the bottom variant as given,
      the other with the custom view moved up behind header and parent. */
  function Arrange<T>(customAtBottom: bool, s: seq<T>): (r: seq<T>)
    requires |s| == 7
    ensures |r| == 7
  {
    if customAtBottom then s else s[..2] + [s[6]] + s[2..6]
  }

  /** The slot of the bottom variant's order that lands at place `j`. */
  function Source(customAtBottom: bool, j: nat): nat
  {
    if customAtBottom || j < 2 then j else if j == 2 then 6 else j - 1
  }

  lemma ArrangeAt<T>(customAtBottom: bool, s: seq<T>)
    requires |s| == 7
    ensures forall j :: 0 <= j < 7 ==> Source(customAtBottom, j) < 7 && Arrange(customAtBottom, s)[j] == s[Source(customAtBottom, j)]
  {
  }

  /** Every render call of renderBubbleContent, in the bottom variant's order. */
  function Renders(p: Props, u: Utils): (s: seq<Option<Block>>)
    requires NameReadable(p, u)
    ensures |s| == 7
  {
    [Header(p, u), ParentQuote(p), MessageImage(p), MessageVideo(p), MessageAudio(p), MessageText(p), CustomView(p)]
  }

  /** Each render call yields nothing or a block of its own kind. */
  lemma RendersWellKinded(p: Props, u: Utils)
    requires NameReadable(p, u)
    ensures WellKinded(Renders(p, u))
  {
  }

  /** renderBubbleContent: the blocks that actually render. */
  function BubbleContent(p: Props, u: Utils): (r: seq<Block>)
    requires NameReadable(p, u)
    ensures |r| <= 7
  {
    Present(Arrange(p.isCustomViewBottom, Renders(p, u)))
  }

  lemma ArrangedRanked(s: seq<Option<Block>>, customAtBottom: bool)
    requires WellKinded(s)
    ensures var c := Present(Arrange(customAtBottom, s));
      forall i, j :: 0 <= i < j < |c| ==> Rank(KindOf(c[i]), customAtBottom) < Rank(KindOf(c[j]), customAtBottom)
  {
    var a := Arrange(customAtBottom, s);
    var rank := (b: Block) => Rank(KindOf(b), customAtBottom) as int;
    ArrangeAt(customAtBottom, s);
    forall j | 0 <= j < 7 && a[j].Some?
      ensures rank(a[j].value) == 0 + j
    {
      assert Place(KindOf(a[j].value)) == Source(customAtBottom, j);
    }
    PresentRanked(a, rank, 0);
  }

  /** The rendered blocks follow the order that `isCustomViewBottom` selects,
      each kind at most once. */
  lemma ContentOrdered(p: Props, u: Utils)
    requires NameReadable(p, u)
    ensures var c := BubbleContent(p, u);
      forall i, j :: 0 <= i < j < |c| ==> Rank(KindOf(c[i]), p.isCustomViewBottom) < Rank(KindOf(c[j]), p.isCustomViewBottom)
  {
    var s := Renders(p, u);
    RendersWellKinded(p, u);
    assert BubbleContent(p, u) == Present(Arrange(p.isCustomViewBottom, s));
    ArrangedRanked(s, p.isCustomViewBottom);
  }

  /** The slot of each kind survives the rearrangement, */
  lemma ArrangedKeeps(s: seq<Option<Block>>, customAtBottom: bool, k: Kind)
    requires |s| == 7
    ensures s[Place(k)] in Arrange(customAtBottom, s)
  {
  }

  /** and it is the only slot holding a block of that kind. */
  lemma ArrangedOnly(s: seq<Option<Block>>, customAtBottom: bool, k: Kind)
    requires WellKinded(s)
    ensures forall x :: x in Arrange(customAtBottom, s) && x.Some? && KindOf(x.value) == k ==> x == s[Place(k)]
  {
  }

  lemma ArrangedPresence(s: seq<Option<Block>>, customAtBottom: bool, k: Kind)
    requires WellKinded(s)
    ensures (exists b :: b in Present(Arrange(customAtBottom, s)) && KindOf(b) == k) <==> s[Place(k)].Some?
  {
    var a := Arrange(customAtBottom, s);
    var o := s[Place(k)];
    ArrangedKeeps(s, customAtBottom, k);
    ArrangedOnly(s, customAtBottom, k);
    PresentMembers(a);
    if o.Some? {
      assert o.value in Present(a);
    }
  }

  /** A block of each kind renders exactly when that kind is due, and every
      rendered block is exactly what its own render call returned. */
  lemma BlockPresence(p: Props, u: Utils, k: Kind)
    requires NameReadable(p, u)
    ensures (exists b :: b in BubbleContent(p, u) && KindOf(b) == k) <==> Due(p, u, k)
    ensures forall b :: b in BubbleContent(p, u) ==> Renders(p, u)[Place(KindOf(b))] == Some(b)
  {
    var s := Renders(p, u);
    var a := Arrange(p.isCustomViewBottom, s);
    RendersWellKinded(p, u);
    assert BubbleContent(p, u) == Present(a);
    assert s[Place(k)].Some? <==> Due(p, u, k);
    ArrangedPresence(s, p.isCustomViewBottom, k);
    PresentMembers(a);
    forall b | b in Present(a) ensures s[Place(KindOf(b))] == Some(b) {
      ArrangedOnly(s, p.isCustomViewBottom, KindOf(b));
    }
  }

  /** The blocks other than the custom view, in order. */
  function WithoutCustom(bs: seq<Block>): (r: seq<Block>)
    ensures |r| <= |bs|
  {
    if bs == [] then []
    else (if bs[0].CustomBlock? then [] else [bs[0]]) + WithoutCustom(bs[1..])
  }

  lemma {:induction false} WithoutCustomAppend(a: seq<Block>, b: seq<Block>)
    ensures WithoutCustom(a + b) == WithoutCustom(a) + WithoutCustom(b)
  {
    if a == [] {
      assert a + b == b;
    } else {
      var head := if a[0].CustomBlock? then [] else [a[0]];
      assert (a + b)[0] == a[0] && (a + b)[1..] == a[1..] + b;
      WithoutCustomAppend(a[1..], b);
      assert WithoutCustom(a + b) == head + (WithoutCustom(a[1..]) + WithoutCustom(b));
      assert WithoutCustom(a) == head + WithoutCustom(a[1..]);
    }
  }

  lemma {:induction false} WithoutCustomKeeps(bs: seq<Block>)
    requires forall b :: b in bs ==> !b.CustomBlock?
    ensures WithoutCustom(bs) == bs
  {
    if bs != [] {
      assert bs[0] in bs;
      WithoutCustomKeeps(bs[1..]);
      assert bs == [bs[0]] + bs[1..];
    }
  }

  lemma MediaNotCustom(s: seq<Option<Block>>)
    requires WellKinded(s)
    ensures forall b :: b in Present(s[2..6]) ==> !b.CustomBlock?
  {
    PresentMembers(s[2..6]);
    forall b | b in Present(s[2..6]) ensures !b.CustomBlock? {
      var i :| 2 <= i < 6 && s[i] == Some(b);
      assert Place(KindOf(b)) == i;
    }
  }

  /** Both variants are the surviving front (header, parent), media and
      custom-view slots, concatenated in their variant's order. */
  lemma ArrangedSplit<T(!new)>(s: seq<Option<T>>)
    requires |s| == 7
    ensures Present(Arrange(true, s)) == Present(s[..2]) + Present(s[2..6]) + Present([s[6]])
    ensures Present(Arrange(false, s)) == Present(s[..2]) + Present([s[6]]) + Present(s[2..6])
  {
    var front, media, custom := s[..2], s[2..6], [s[6]];
    assert Arrange(true, s) == (front + media) + custom;
    assert Arrange(false, s) == (front + custom) + media;
    PresentAppend(front + media, custom);
    PresentAppend(front, media);
    PresentAppend(front + custom, media);
    PresentAppend(front, custom);
  }

  lemma ArrangedSameBlocks<T(!new)>(s: seq<Option<T>>)
    requires |s| == 7
    ensures multiset(Present(Arrange(true, s))) == multiset(Present(Arrange(false, s)))
  {
    ArrangedSplit(s);
    var f, m, c := Present(s[..2]), Present(s[2..6]), Present([s[6]]);
    assert multiset(f + m + c) == multiset(f) + multiset(m) + multiset(c);
    assert multiset(f + c + m) == multiset(f) + multiset(c) + multiset(m);
  }

  lemma ArrangedSameOrder(s: seq<Option<Block>>)
    requires WellKinded(s)
    ensures WithoutCustom(Present(Arrange(true, s))) == WithoutCustom(Present(Arrange(false, s)))
  {
    ArrangedSplit(s);
    var f, m, c := Present(s[..2]), Present(s[2..6]), Present([s[6]]);
    WithoutCustomAppend(f + m, c);
    WithoutCustomAppend(f, m);
    WithoutCustomAppend(f + c, m);
    WithoutCustomAppend(f, c);
    MediaNotCustom(s);
    WithoutCustomKeeps(m);
    assert s[6].Some? ==> Place(KindOf(s[6].value)) == 6;
    assert WithoutCustom(c) == [];
  }

  /** Which blocks are rendered does not depend on `isCustomViewBottom`,
      as long as the overrides' results stay the same across the toggle
      (each override is given by its result, which is held fixed here). */
  lemma RendersIgnoreOrderFlag(p: Props, u: Utils, customAtBottom: bool)
    requires NameReadable(p, u)
    ensures NameReadable(p.(isCustomViewBottom := customAtBottom), u)
    ensures Renders(p.(isCustomViewBottom := customAtBottom), u) == Renders(p, u)
  {
  }

  /** Toggling `isCustomViewBottom` moves only the custom view: the same
      blocks render, and apart from the custom view in the same order. The
      overrides' results are held fixed across the toggle. */
  lemma ToggleMovesOnlyCustom(p: Props, u: Utils)
    requires NameReadable(p, u)
    ensures var bottom := BubbleContent(p.(isCustomViewBottom := true), u);
      var top := BubbleContent(p.(isCustomViewBottom := false), u);
      multiset(bottom) == multiset(top) && WithoutCustom(bottom) == WithoutCustom(top)
  {
    RendersIgnoreOrderFlag(p, u, true);
    RendersIgnoreOrderFlag(p, u, false);
    var s := Renders(p, u);
    RendersWellKinded(p, u);
    ArrangedSameBlocks(s);
    ArrangedSameOrder(s);
  }

  /** renderQuickReplies, gating only: rendered beside the bubble when the
      message carries quick replies, unless a `renderQuickReplies` override
      returns null. */
  function QuickReplies(p: Props): (r: Option<Element>)
    ensures r.Some? <==> p.currentMessage.Some? && p.currentMessage.value.quickReplies.Some? && Yields(p.renderQuickReplies)
    ensures r.Some? ==> Replaces(r.value, p.renderQuickReplies)
  {
    if p.currentMessage.Some? && p.currentMessage.value.quickReplies.Some? && Yields(p.renderQuickReplies) then
      Some(Chosen(p.renderQuickReplies))
    else None
  }
}
