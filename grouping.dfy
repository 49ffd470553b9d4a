/** How the two ways of grouping consecutive messages relate. The header is
    dropped when the previous message has the same author; the corners
    towards a neighbour are squared off only when it has the same author and
    falls on the same day. */
module Grouping {
  import opened Nullable
  import opened BubbleProps
  import opened Content
  import opened BubbleStyles

  /** A corner squared off towards the previous message means the header is
      gone. */
  lemma CornerToPreviousDropsHeader(p: Props, u: Utils)
    requires NameReadable(p, u)
    ensures StyledBubbleToPrevious(p, u).Some? ==> Header(p, u).None?
  {
  }

  /** The header ignores the day: a message by the same author on a new day
      gets neither a header nor a squared corner towards its predecessor. */
  lemma NewDaySameAuthor(p: Props, u: Utils)
    requires NameReadable(p, u)
    requires p.currentMessage.Some? && p.previousMessage.Some?
    requires u.isSameUser(p.currentMessage.value, p.previousMessage.value)
    requires !u.isSameDay(p.currentMessage.value, p.previousMessage.value)
    ensures Header(p, u).None?
    ensures StyledBubbleToPrevious(p, u).None?
  {
  }

  /** A change of author brings the header back and rounds the corner
      towards the previous message. */
  lemma NewAuthor(p: Props, u: Utils)
    requires NameReadable(p, u)
    requires p.currentMessage.Some? && p.previousMessage.Some?
    requires !u.isSameUser(p.currentMessage.value, p.previousMessage.value)
    ensures Header(p, u).Some?
    ensures StyledBubbleToPrevious(p, u).None?
  {
  }

  /** An absent previous message defaults to `{}`, which is truthy: whether
      the header shows is then up to `isSameUser(current, {})`. */
  lemma DefaultPrevious(p: Props, u: Utils)
    requires NameReadable(p, u)
    requires p.currentMessage.Some? && p.previousMessage == Some(EmptyMessage)
    ensures Header(p, u).Some? <==> !u.isSameUser(p.currentMessage.value, EmptyMessage)
    ensures Header(p, u).Some? ==> (exists b :: b in BubbleContent(p, u) && b.HeaderBlock?)
  {
    BlockPresence(p, u, HeaderKind);
  }
}
