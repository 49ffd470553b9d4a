/** The inputs of one chat bubble: the message record, its neighbours, the
    caller's props, and the two comparison helpers the bubble imports.

    JavaScript truthiness is encoded in the types. A string field uses "" for
    null, undefined and the empty string alike (all three are falsy). An object
    field (the parent quote, the quick replies, a neighbour message, a style
    override) is an Option, None standing for null. */
module BubbleProps {
  import opened Nullable

  /** A user `_id`: a string or a number. Ids of different kinds are never
      strictly equal, as with `!==`. */
  datatype Id = StrId(s: string) | NumId(n: int)

  datatype User = User(id: Id, name: string)

  /** `createdAt`: a Date (always truthy) or a number (truthy unless 0). */
  datatype Timestamp = NoTime | DateValue(epochMs: int) | NumberValue(n: int)

  predicate HasTime(t: Timestamp)
  {
    t.DateValue? || (t.NumberValue? && t.n != 0)
  }

  /** The quoted message a reply points at. */
  datatype ParentRef = ParentRef(name: string, text: string)

  datatype Message = Message(
    user: Option<User>,
    text: string,
    createdAt: Timestamp,
    image: string,
    video: string,
    audio: string,
    parent: Option<ParentRef>,
    sent: bool,
    received: bool,
    pending: bool,
    quickReplies: Option<seq<string>>)

  /** The `{}` that stands in for an absent neighbour (and, up to its null
      fields, for an absent current message). It is an object, hence truthy. */
  const EmptyMessage := Message(None, "", NoTime, "", "", "", None, false, false, false, None)

  datatype Position = Left | Right

  /** An element produced by a caller's render function, opaque to the bubble. */
  datatype Node = Node(tag: string)

  /** The bubble's own default element, or the one a caller's override supplied. */
  datatype Element = Built | Supplied(node: Node)

  /** A caller's render override, given as what it returns for these props:
      not supplied, or supplied and returning an element or null. React
      renders nothing for a null child. */
  datatype Override = NoOverride | Returns(result: Option<Node>)

  /** A block whose default the override `o` may replace renders something:
      there is no override, or the override returns an element. */
  predicate Yields(o: Override)
  {
    o.NoOverride? || o.result.Some?
  }

  /** The element such a block renders: the bubble's default without an
      override, the override's element with one. */
  function Chosen(o: Override): Element
    requires Yields(o)
  {
    if o.Returns? then Supplied(o.result.value) else Built
  }

  /** The style regions whose base styles depend on the side of the screen. */
  datatype Region = Container | Wrapper | ContainerToNext | ContainerToPrevious | Bottom

  /** A style token: the bubble's own sheet entry for a region and side, or a
      caller-supplied style, both opaque. */
  datatype Style = Sheet(region: Region, side: Position) | Caller(token: string)

  /** A `{ left?: Style, right?: Style }` override. */
  datatype LeftRight = LeftRight(left: Option<Style>, right: Option<Style>)

  /** The props the core reads. A callback is present or absent. A render
      override that receives the props is given as what it returns for them;
      `renderTicks`, which receives the message, as that function. */
  datatype Props = Props(
    user: Option<User>,
    renderUsernameOnMessage: bool,
    isCustomViewBottom: bool,
    position: Position,
    currentMessage: Option<Message>,
    nextMessage: Option<Message>,
    previousMessage: Option<Message>,
    optionTitles: Option<seq<string>>,
    containerStyle: Option<LeftRight>,
    wrapperStyle: Option<LeftRight>,
    bottomContainerStyle: Option<LeftRight>,
    containerToNextStyle: Option<LeftRight>,
    containerToPreviousStyle: Option<LeftRight>,
    onPress: bool,
    onLongPress: bool,
    onParentMessagePress: bool,
    onSwipe: bool,
    renderMessageImage: Override,
    renderMessageVideo: Override,
    renderMessageAudio: Override,
    renderMessageText: Override,
    renderCustomView: Override,
    renderUsername: Override,
    renderTime: Override,
    renderTicks: Option<Message -> Option<Node>>,
    renderQuickReplies: Override)

  /** `isSameUser` and `isSameDay` from the utils module: uninterpreted, and in
      particular not assumed symmetric. Both are called as (current, neighbour). */
  datatype Utils = Utils(
    isSameUser: (Message, Message) -> bool,
    isSameDay: (Message, Message) -> bool)

  const DefaultOptionTitles: seq<string> := ["Copy Text", "Cancel"]

  /** The props a caller gets by passing only `user`. */
  function DefaultProps(user: Option<User>): Props
  {
    Props(
      user, false, false, Left,
      Some(EmptyMessage), Some(EmptyMessage), Some(EmptyMessage),
      Some(DefaultOptionTitles),
      Some(LeftRight(None, None)), Some(LeftRight(None, None)), Some(LeftRight(None, None)),
      Some(LeftRight(None, None)), Some(LeftRight(None, None)),
      false, false, false, false,
      NoOverride, NoOverride, NoOverride, NoOverride, NoOverride, NoOverride, NoOverride,
      None, NoOverride)
  }
}
