/** The delivery ticks in the bubble's bottom row. */
module Ticks {
  import opened Nullable
  import opened BubbleProps

  /** One delivery mark per flag. Sent and received both draw a check mark,
      pending draws a clock; the glyphs themselves are presentation. */
  datatype Mark = SentMark | ReceivedMark | PendingMark

  /** The message flag a mark stands for. */
  predicate Flagged(m: Mark, msg: Message)
  {
    match m
    case SentMark => msg.sent
    case ReceivedMark => msg.received
    case PendingMark => msg.pending
  }

  /** The order in which marks are laid out: sent, received, pending. */
  function MarkRank(m: Mark): nat
  {
    match m
    case SentMark => 0
    case ReceivedMark => 1
    case PendingMark => 2
  }

  function FlagCount(msg: Message): nat
  {
    (if msg.sent then 1 else 0) + (if msg.received then 1 else 0) + (if msg.pending then 1 else 0)
  }

  /** The marks of the tick row: one per true flag, in the order sent,
      received, pending (a false flag renders no child). */
  function Marks(msg: Message): (r: seq<Mark>)
    ensures |r| == FlagCount(msg)
  {
    (if msg.sent then [SentMark] else [])
    + (if msg.received then [ReceivedMark] else [])
    + (if msg.pending then [PendingMark] else [])
  }

  /** The row holds exactly the marks whose flags are set, each once, in the
      order sent, received, pending. */
  lemma MarksFollowFlags(msg: Message)
    ensures forall m :: m in Marks(msg) <==> Flagged(m, msg)
    ensures forall i, j :: 0 <= i < j < |Marks(msg)| ==> MarkRank(Marks(msg)[i]) < MarkRank(Marks(msg)[j])
  {
  }

  /** What renderTicks returns: null, whatever the caller's `renderTicks`
      returned (an element or null), or the bubble's own tick row. */
  datatype TicksView = NoTicks | SuppliedTicks(result: Option<Node>) | TickRow(marks: seq<Mark>)

  /** The message has an author other than the viewing user (ids compared
      with `!==`). */
  predicate ByOtherUser(p: Props)
  {
    p.currentMessage.Some? && p.user.Some? && p.currentMessage.value.user.Some?
    && p.currentMessage.value.user.value.id != p.user.value.id
  }

  /** renderTicks: the caller's override wins when there is a message; then
      nothing for another user's message; then a row with one mark per set
      flag, or nothing when no flag is set. */
  function RenderTicks(p: Props): (r: TicksView)
    ensures p.renderTicks.Some? && p.currentMessage.Some? ==>
      r == SuppliedTicks(p.renderTicks.value(p.currentMessage.value))
    ensures p.renderTicks.None? && ByOtherUser(p) ==> r == NoTicks
    ensures p.currentMessage.None? ==> r == NoTicks
    ensures r.TickRow? ==>
      && p.currentMessage.Some? && p.renderTicks.None? && !ByOtherUser(p)
      && r.marks == Marks(p.currentMessage.value) && r.marks != []
    ensures p.currentMessage.Some? && p.renderTicks.None? && !ByOtherUser(p) ==>
      r == (if FlagCount(p.currentMessage.value) > 0 then TickRow(Marks(p.currentMessage.value)) else NoTicks)
  {
    if p.renderTicks.Some? && p.currentMessage.Some? then
      SuppliedTicks(p.renderTicks.value(p.currentMessage.value))
    else if ByOtherUser(p) then
      NoTicks
    else if p.currentMessage.Some?
         && (p.currentMessage.value.sent || p.currentMessage.value.received || p.currentMessage.value.pending) then
      TickRow(Marks(p.currentMessage.value))
    else
      NoTicks
  }
}
