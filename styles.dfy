/** The style lists of the bubble's container, wrapper and bottom row, and the
    corner-adjacency styles that square off the corners between grouped
    messages. A style list is an array whose entries may be null or nested
    arrays; the host flattens it and lets later entries win field by field. */
module BubbleStyles {
  import opened Nullable
  import opened BubbleProps

  /** One entry of a style array: null, a style, or a nested array of
      possibly-null styles. */
  datatype StyleItem = Absent | One(style: Style) | Group(entries: seq<Option<Style>>)

  /** `override && override[position]`: the override's entry for this side,
      never the other side's; a missing override, or one without an entry for
      this side, contributes nothing. */
  function ForSide(override: Option<LeftRight>, position: Position): (r: Option<Style>)
    ensures override.None? ==> r.None?
    ensures override.Some? ==> r == (if position == Left then override.value.left else override.value.right)
  {
    if override.None? then None
    else if position == Left then override.value.left
    else override.value.right
  }

  /** The current message and a neighbour belong together: both present, and
      both `isSameUser` and `isSameDay` hold of (current, neighbour). */
  predicate Grouped(u: Utils, current: Option<Message>, neighbour: Option<Message>)
  {
    current.Some? && neighbour.Some?
    && u.isSameUser(current.value, neighbour.value) && u.isSameDay(current.value, neighbour.value)
  }

  /** styledBubbleToNext: null unless grouped with the next message; then the
      sheet's corner style for the side followed by the caller's. */
  function StyledBubbleToNext(p: Props, u: Utils): (r: Option<seq<Option<Style>>>)
    ensures r.Some? <==> Grouped(u, p.currentMessage, p.nextMessage)
    ensures r.Some? ==> Present(r.value) == [Sheet(ContainerToNext, p.position)] + Present([ForSide(p.containerToNextStyle, p.position)])
  {
    if Grouped(u, p.currentMessage, p.nextMessage) then
      var entries := [Some(Sheet(ContainerToNext, p.position)), ForSide(p.containerToNextStyle, p.position)];
      PresentAppend([entries[0]], [entries[1]]);
      assert entries == [entries[0]] + [entries[1]];
      Some(entries)
    else None
  }

  /** styledBubbleToPrevious: the same towards the previous message. */
  function StyledBubbleToPrevious(p: Props, u: Utils): (r: Option<seq<Option<Style>>>)
    ensures r.Some? <==> Grouped(u, p.currentMessage, p.previousMessage)
    ensures r.Some? ==> Present(r.value) == [Sheet(ContainerToPrevious, p.position)] + Present([ForSide(p.containerToPreviousStyle, p.position)])
  {
    if Grouped(u, p.currentMessage, p.previousMessage) then
      var entries := [Some(Sheet(ContainerToPrevious, p.position)), ForSide(p.containerToPreviousStyle, p.position)];
      PresentAppend([entries[0]], [entries[1]]);
      assert entries == [entries[0]] + [entries[1]];
      Some(entries)
    else None
  }

  function AsItem(o: Option<seq<Option<Style>>>): StyleItem
  {
    if o.Some? then Group(o.value) else Absent
  }

  /** The style array of the wrapper view: base, to-next, to-previous, the
      caller's wrapper style. */
  function WrapperStyle(p: Props, u: Utils): seq<StyleItem>
  {
    [ One(Sheet(Wrapper, p.position)),
      AsItem(StyledBubbleToNext(p, u)),
      AsItem(StyledBubbleToPrevious(p, u)),
      match ForSide(p.wrapperStyle, p.position) { case Some(s) => One(s) case None => Absent } ]
  }

  /** The style array of the outer container: base, then the caller's. */
  function ContainerStyle(p: Props): seq<StyleItem>
  {
    [ One(Sheet(Container, p.position)),
      match ForSide(p.containerStyle, p.position) { case Some(s) => One(s) case None => Absent } ]
  }

  /** The style array of the bottom row holding the ticks: base, then the caller's. */
  function BottomStyle(p: Props): seq<StyleItem>
  {
    [ One(Sheet(Bottom, p.position)),
      match ForSide(p.bottomContainerStyle, p.position) { case Some(s) => One(s) case None => Absent } ]
  }

  function ItemStyles(item: StyleItem): seq<Style>
  {
    match item
    case Absent => []
    case One(s) => [s]
    case Group(entries) => Present(entries)
  }

  /** The styles of an array in cascade order, nulls dropped and nested
      arrays spliced in. */
  function Flatten(items: seq<StyleItem>): (r: seq<Style>)
  {
    if items == [] then [] else Flatten(items[..|items| - 1]) + ItemStyles(items[|items| - 1])
  }

  /** Flattening a prefix one entry longer appends that entry's styles. */
  lemma FlattenPrefix(w: seq<StyleItem>, n: nat)
    requires 0 < n <= |w|
    ensures Flatten(w[..n]) == Flatten(w[..n - 1]) + ItemStyles(w[n - 1])
  {
    assert w[..n][..n - 1] == w[..n - 1];
  }

  /** The first one, two, three and four entries of an array flatten to
      those entries' styles in order. */
  lemma FlattenOne(w: seq<StyleItem>)
    requires 1 <= |w|
    ensures Flatten(w[..1]) == ItemStyles(w[0])
  {
    FlattenPrefix(w, 1);
    assert w[..0] == [];
  }

  lemma FlattenTwo(w: seq<StyleItem>)
    requires 2 <= |w|
    ensures Flatten(w[..2]) == ItemStyles(w[0]) + ItemStyles(w[1])
  {
    FlattenOne(w);
    FlattenPrefix(w, 2);
  }

  lemma FlattenThree(w: seq<StyleItem>)
    requires 3 <= |w|
    ensures Flatten(w[..3]) == ItemStyles(w[0]) + ItemStyles(w[1]) + ItemStyles(w[2])
  {
    FlattenTwo(w);
    FlattenPrefix(w, 3);
  }

  lemma FlattenFour(w: seq<StyleItem>)
    requires |w| == 4
    ensures Flatten(w) == ItemStyles(w[0]) + ItemStyles(w[1]) + ItemStyles(w[2]) + ItemStyles(w[3])
  {
    FlattenThree(w);
    assert Flatten(w) == Flatten(w[..3]) + ItemStyles(w[3]);
  }

  /** The wrapper's effective cascade: its base style; the to-next corner
      style and the caller's to-next style when grouped with the next
      message; the same towards the previous message; the caller's wrapper
      style last. */
  lemma WrapperCascade(p: Props, u: Utils)
    ensures Flatten(WrapperStyle(p, u)) ==
      [Sheet(Wrapper, p.position)]
      + (if Grouped(u, p.currentMessage, p.nextMessage)
         then [Sheet(ContainerToNext, p.position)] + Present([ForSide(p.containerToNextStyle, p.position)])
         else [])
      + (if Grouped(u, p.currentMessage, p.previousMessage)
         then [Sheet(ContainerToPrevious, p.position)] + Present([ForSide(p.containerToPreviousStyle, p.position)])
         else [])
      + Present([ForSide(p.wrapperStyle, p.position)])
  {
    var w := WrapperStyle(p, u);
    FlattenFour(w);
    var last := ForSide(p.wrapperStyle, p.position);
    assert ItemStyles(w[3]) == Present([last]) by {
      assert [last][1..] == [];
    }
  }

  /** The container's cascade: its base style for the side, then the caller's
      container style for that side when one is given. */
  lemma ContainerCascade(p: Props)
    ensures Flatten(ContainerStyle(p)) == [Sheet(Container, p.position)] + Present([ForSide(p.containerStyle, p.position)])
  {
    var c := ContainerStyle(p);
    FlattenOne(c);
    assert Flatten(c) == Flatten(c[..1]) + ItemStyles(c[1]);
    var last := ForSide(p.containerStyle, p.position);
    assert ItemStyles(c[1]) == Present([last]) by {
      assert [last][1..] == [];
    }
  }

  /** The bottom row's cascade: its base style for the side, then the
      caller's bottom style for that side when one is given. */
  lemma BottomCascade(p: Props)
    ensures Flatten(BottomStyle(p)) == [Sheet(Bottom, p.position)] + Present([ForSide(p.bottomContainerStyle, p.position)])
  {
    var c := BottomStyle(p);
    FlattenOne(c);
    assert Flatten(c) == Flatten(c[..1]) + ItemStyles(c[1]);
    var last := ForSide(p.bottomContainerStyle, p.position);
    assert ItemStyles(c[1]) == Present([last]) by {
      assert [last][1..] == [];
    }
  }

  /** The style record the host resolves from a cascade: each style's fields
      (given by `attrs`) applied in order, a later style overriding an earlier
      one on the fields it sets. */
  function Resolve(cascade: seq<Style>, attrs: Style -> map<string, string>): (r: map<string, string>)
    ensures forall k :: k in r <==> exists s :: s in cascade && k in attrs(s)
  {
    if cascade == [] then map[]
    else
      var init := cascade[..|cascade| - 1];
      var rest := Resolve(init, attrs);
      assert forall s :: s in cascade <==> s in init || s == cascade[|cascade| - 1] by {
        assert cascade == init + [cascade[|cascade| - 1]];
      }
      rest + attrs(cascade[|cascade| - 1])
  }

  /** A field takes its value from the last style of the cascade that sets it. */
  lemma {:induction false} LastSetterWins(cascade: seq<Style>, attrs: Style -> map<string, string>, k: string, i: nat)
    requires i < |cascade| && k in attrs(cascade[i])
    requires forall j :: i < j < |cascade| ==> k !in attrs(cascade[j])
    ensures k in Resolve(cascade, attrs) && Resolve(cascade, attrs)[k] == attrs(cascade[i])[k]
  {
    var n := |cascade| - 1;
    var init := cascade[..n];
    assert Resolve(cascade, attrs) == Resolve(init, attrs) + attrs(cascade[n]);
    if i < n {
      forall j | i < j < |init| ensures k !in attrs(init[j]) {
        assert init[j] == cascade[j];
      }
      LastSetterWins(init, attrs, k, i);
      assert init[i] == cascade[i];
    }
  }

  /** A field set by the caller's wrapper style for this side overrides the
      base and corner styles. */
  lemma WrapperOverrideWins(p: Props, u: Utils, attrs: Style -> map<string, string>, k: string)
    requires ForSide(p.wrapperStyle, p.position).Some?
    requires k in attrs(ForSide(p.wrapperStyle, p.position).value)
    ensures var fields := Resolve(Flatten(WrapperStyle(p, u)), attrs);
      k in fields && fields[k] == attrs(ForSide(p.wrapperStyle, p.position).value)[k]
  {
  }
}
