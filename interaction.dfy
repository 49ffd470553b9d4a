/** The bubble's touch handlers. Each one only calls out: to a caller's
    callback, to the action sheet, or to the clipboard. Each handler is
    therefore a function from the props (and the gesture's argument) to the
    single effect it performs. The context argument that onPress and
    onLongPress pass first is left abstract. */
module Interaction {
  import opened Nullable
  import opened BubbleProps

  datatype Effect =
    | NoEffect
    | CallOnPress(message: Option<Message>)
    | CallOnLongPress(message: Option<Message>)
    | CallOnParentMessagePress(message: Option<Message>)
    | CallOnSwipe(message: Option<Message>)
      /** The action sheet with its options and cancel index. `copyText` is
          the message text its selection callback has captured. */
    | ShowActionSheet(options: seq<string>, cancelButtonIndex: int, copyText: string)
    | CopyToClipboard(text: string)

  /** onPress: the caller's callback with the current message, if given. */
  function OnPress(p: Props): (e: Effect)
    ensures e.CallOnPress? <==> p.onPress
    ensures e.CallOnPress? ==> e.message == p.currentMessage
    ensures !p.onPress ==> e == NoEffect
  {
    if p.onPress then CallOnPress(p.currentMessage) else NoEffect
  }

  /** onParentMessagePress: the caller's callback with the current message
      (not the quoted one), if given. */
  function OnParentMessagePress(p: Props): (e: Effect)
    ensures e.CallOnParentMessagePress? <==> p.onParentMessagePress
    ensures e.CallOnParentMessagePress? ==> e.message == p.currentMessage
    ensures !p.onParentMessagePress ==> e == NoEffect
  {
    if p.onParentMessagePress then CallOnParentMessagePress(p.currentMessage) else NoEffect
  }

  /** onSwipe: the caller's callback, only once the swipe is activated. */
  function OnSwipe(p: Props, isActivated: bool): (e: Effect)
    ensures e.CallOnSwipe? <==> isActivated && p.onSwipe
    ensures e.CallOnSwipe? ==> e.message == p.currentMessage
    ensures !(isActivated && p.onSwipe) ==> e == NoEffect
  {
    if isActivated && p.onSwipe then CallOnSwipe(p.currentMessage) else NoEffect
  }

  function Min(a: int, b: int): int
  {
    if a < b then a else b
  }

  /** The menu's options: the first two of a non-empty `optionTitles`, and
      the default pair when the list is missing or empty. */
  function MenuOptions(titles: Option<seq<string>>): (r: seq<string>)
    ensures 1 <= |r| <= 2
    ensures titles.Some? && titles.value != [] ==> r <= titles.value && |r| == Min(2, |titles.value|)
    ensures titles.None? || titles.value == [] ==> r == DefaultOptionTitles
  {
    if titles.Some? && |titles.value| > 0 then
      titles.value[..if |titles.value| < 2 then |titles.value| else 2]
    else
      DefaultOptionTitles
  }

  /** The long press shows a menu when no callback is given and the message
      has text. */
  predicate ShowsMenu(p: Props)
  {
    !p.onLongPress && p.currentMessage.Some? && p.currentMessage.value.text != ""
  }

  /** onLongPress: the caller's callback if given; otherwise, for a message
      with text, the action sheet whose last option is the cancel button and
      whose selection copies that text; otherwise nothing. */
  function OnLongPress(p: Props): (e: Effect)
    ensures p.onLongPress ==> e == CallOnLongPress(p.currentMessage)
    ensures e.ShowActionSheet? <==> ShowsMenu(p)
    ensures !p.onLongPress && !ShowsMenu(p) ==> e == NoEffect
    ensures e.ShowActionSheet? ==>
      && e.options == MenuOptions(p.optionTitles)
      && 0 <= e.cancelButtonIndex == |e.options| - 1
      && e.copyText == p.currentMessage.value.text
  {
    if p.onLongPress then
      CallOnLongPress(p.currentMessage)
    else if p.currentMessage.Some? && p.currentMessage.value.text != "" then
      var options := MenuOptions(p.optionTitles);
      ShowActionSheet(options, |options| - 1, p.currentMessage.value.text)
    else
      NoEffect
  }

  /** The action sheet's selection callback: button 0 copies the captured
      text, every other button does nothing. */
  function OnMenuSelection(menu: Effect, buttonIndex: int): (e: Effect)
    requires menu.ShowActionSheet?
    ensures e.CopyToClipboard? <==> buttonIndex == 0
    ensures e.CopyToClipboard? ==> e.text == menu.copyText
    ensures buttonIndex != 0 ==> e == NoEffect
  {
    if buttonIndex == 0 then CopyToClipboard(menu.copyText) else NoEffect
  }

  /** Choosing the first option of the long-press menu copies exactly the
      message's text. */
  lemma FirstOptionCopiesText(p: Props)
    requires ShowsMenu(p)
    ensures OnLongPress(p).ShowActionSheet?
    ensures OnMenuSelection(OnLongPress(p), 0) == CopyToClipboard(p.currentMessage.value.text)
  {
  }

  /** With the default titles, or any list of at least two, the menu has two
      options and its cancel button (the second) does nothing. */
  lemma CancelDoesNothing(p: Props)
    requires ShowsMenu(p)
    requires p.optionTitles.None? || |p.optionTitles.value| != 1
    ensures |OnLongPress(p).options| == 2 && OnLongPress(p).cancelButtonIndex == 1
    ensures OnMenuSelection(OnLongPress(p), OnLongPress(p).cancelButtonIndex) == NoEffect
  {
  }

  /** A one-element `optionTitles` gives a one-option menu whose cancel index
      is 0, the copy index, so cancelling copies the text. */
  lemma SingleTitleCancelCopies(p: Props, title: string)
    requires ShowsMenu(p) && p.optionTitles == Some([title])
    ensures OnLongPress(p) == ShowActionSheet([title], 0, p.currentMessage.value.text)
    ensures OnMenuSelection(OnLongPress(p), OnLongPress(p).cancelButtonIndex) == CopyToClipboard(p.currentMessage.value.text)
  {
  }

  /** The default props make long press show the "Copy Text" / "Cancel"
      menu for any message with text. */
  lemma DefaultMenu(user: Option<User>, m: Message)
    requires m.text != ""
    ensures OnLongPress(DefaultProps(user).(currentMessage := Some(m))) == ShowActionSheet(["Copy Text", "Cancel"], 1, m.text)
  {
  }
}
