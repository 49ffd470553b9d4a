# Chat bubble decision logic

A model of the decision logic inside the `Bubble` component of a React Native
chat UI (`src/Bubble.tsx`). A bubble shows one message of a conversation. Given
the message, its neighbours and the caller's props, the component decides:

- which content blocks to render and in which order: header, parent quote,
  image, video, audio, text and custom view;
- whether the header shows the author's name and the time;
- which delivery ticks to draw;
- which corner styles square off the bubble against a neighbour from the same
  author on the same day, and how the style arrays of the container, the
  wrapper and the bottom row are assembled;
- what its press, long-press, parent-press and swipe handlers do, including
  the long-press copy menu.

The component holds no state of its own. Every decision is a conditional
expression over the props, so the model is a set of pure functions over an
abstract props record (`BubbleProps.Props`) and lemmas about them:

- `nullable.dfy`: JavaScript's null and the rule that React drops null children
  and React Native drops null style entries (`Nullable.Present`).
- `bubble_props.dfy`: messages, users, timestamps, the props, the `isSameUser`
  and `isSameDay` helpers, and `DEFAULT_OPTION_TITLES`.
- `content.dfy`: the block gates and `renderBubbleContent`.
- `ticks.dfy`: `renderTicks`.
- `styles.dfy`: the corner styles and the style arrays of `render`, with a
  last-setter-wins reading of a flattened style array.
- `interaction.dfy`: the handlers. Each returns the one effect it performs:
  a callback call, the action sheet, a clipboard write, or nothing.
- `grouping.dfy`: how header suppression and corner styling relate.

JavaScript truthiness is encoded in the types:

- A string field uses `""` for null, undefined and the empty string alike.
- An object field is an `Option`.
- `createdAt` is a Date (always truthy) or a number (truthy unless 0).
- A caller's render override is given by what it returns for these props:
  an element, or null. A block whose override returns null renders nothing,
  as React drops null children.
- An absent neighbour is the default `{}`, which is an object and so truthy.
  The "previous message exists" test therefore always passes for it, and
  `isSameUser(current, {})` decides.

`isSameUser` and `isSameDay` come from a utils module that is not part of this
model. They are uninterpreted functions and are not assumed symmetric.

Three behaviours of the code are easy to misread. The model follows the code
in each:

- The header is dropped when the previous message has the same author,
  whatever its day. Corner styling needs both the same author and the same day
  (`Grouping.NewDaySameAuthor`).
- `optionTitles` falls back to the default pair only when it is missing or
  empty. A one-title list gives a one-option menu whose cancel index is 0,
  which is also the copy index, so "cancel" copies the text
  (`Interaction.SingleTitleCancelCopies`).
- `renderUsername` never consults the caller's `renderUsername` override.

## Model

| member | source | states |
|---|---|---|
| Content.Username | src/Bubble.tsx:597-620 | The name label is present iff `renderUsernameOnMessage` is set, there is a message, and the previous message is not by the same user. The day is not consulted. When present it is the author's name. |
| Content.Time | src/Bubble.tsx:581-595 | The time is present iff the message has a truthy `createdAt` and no `renderTime` override returns null. When present it is the override's element if there is one, else the default. |
| Content.Header | src/Bubble.tsx:631-639 | The header is omitted iff current and previous are both present and `isSameUser(current, previous)` holds. When shown it holds the username result, then the time result. |
| Content.ParentQuote | src/Bubble.tsx:457-487 | The parent quote renders iff the message has a parent. Its name line shows iff the parent's name is truthy. |
| Content.MessageText | src/Bubble.tsx:412-426 | The text block renders iff the message text is truthy and no `renderMessageText` override returns null. It shows the override's element exactly when an override is supplied. |
| Content.MessageImage | src/Bubble.tsx:428-437 | The image block renders iff `image` is truthy and no override returns null. It shows the override's element exactly when one is supplied. |
| Content.MessageVideo | src/Bubble.tsx:525-534 | The video block renders iff `video` is truthy and no override returns null. It shows the override's element exactly when one is supplied. |
| Content.MessageAudio | src/Bubble.tsx:536-545 | The audio block renders iff `audio` is truthy and no override returns null. It shows the override's element exactly when one is supplied. |
| Content.CustomView | src/Bubble.tsx:622-627 | The custom view renders iff the caller's `renderCustomView` returns an element, and it is that element. There is no default. |
| Content.QuickReplies | src/Bubble.tsx:384-410 | Quick replies render iff the message carries `quickReplies` and no `renderQuickReplies` override returns null. The override's element replaces the default. |
| Content.ContentOrdered | src/Bubble.tsx:641-661 | The rendered blocks are strictly increasing in the order `isCustomViewBottom` selects. With the flag: header, parent, image, video, audio, text, custom. Without it: header, parent, custom, image, video, audio, text. So each kind appears at most once. |
| Content.BlockPresence | src/Bubble.tsx:629-662 | A block of each kind is in the content iff that kind is due. The header is due unless the thread continues. The parent quote is due when there is one. Image, video, audio and text are due when their field is truthy and their override does not return null. The custom view is due when its override returns an element. Every rendered block is exactly the result of its own render call. |
| Content.RendersIgnoreOrderFlag | src/Bubble.tsx:629-662 | For overrides whose result does not depend on `isCustomViewBottom`, every render call gives the same result whatever the flag is. The flag then only chooses the order. |
| Content.ToggleMovesOnlyCustom | src/Bubble.tsx:641-661 | For overrides whose result does not depend on `isCustomViewBottom`, toggling the flag renders the same multiset of blocks. With the custom view removed, both orders are the same sequence. |
| Ticks.Marks | src/Bubble.tsx:564-574 | The tick row has exactly one mark per true flag among sent, received and pending. |
| Ticks.MarksFollowFlags | src/Bubble.tsx:564-574 | A mark is in the row iff its flag is set. The marks are strictly ordered sent, received, pending. |
| Ticks.RenderTicks | src/Bubble.tsx:547-579 | With a message present, an override's result is returned verbatim, including null. Without an override, another user's message gets nothing. Otherwise the tick row renders with exactly the set flags' marks, and no set flag gives nothing. No message gives nothing. |
| BubbleStyles.ForSide | src/Bubble.tsx:356 | `override && override[position]` is null without an override. Otherwise it is the override's entry for this side, never the other side's. |
| BubbleStyles.StyledBubbleToNext | src/Bubble.tsx:340-360 | The to-next style is non-null iff current and next are present and both `isSameUser` and `isSameDay` hold of (current, next). Its non-null entries are the sheet's to-next corner style for the side, then the caller's to-next style for the side if given. |
| BubbleStyles.StyledBubbleToPrevious | src/Bubble.tsx:362-382 | The same as the to-next style, towards the previous message. |
| BubbleStyles.WrapperCascade | src/Bubble.tsx:692-698 | The wrapper's flattened style list is, in order: the base wrapper style; the to-next corner and caller styles when grouped with next; the to-previous ones when grouped with previous; the caller's wrapper style for the side. |
| BubbleStyles.ContainerCascade | src/Bubble.tsx:687-690 | The container's flattened style list is its base style for the side, then the caller's container style for that side when given. |
| BubbleStyles.BottomCascade | src/Bubble.tsx:709-712 | The bottom row's flattened style list is its base style for the side, then the caller's bottom style for that side when given. |
| BubbleStyles.WrapperOverrideWins | src/Bubble.tsx:692-698 | A field set by the caller's wrapper style for the side takes that value in the resolved wrapper style, over the base and corner styles. |
| Interaction.OnPress | src/Bubble.tsx:299-303 | Calls `onPress` with the current message iff the callback is present. Otherwise it does nothing. |
| Interaction.OnParentMessagePress | src/Bubble.tsx:305-309 | Calls `onParentMessagePress` with the current message iff the callback is present. Otherwise it does nothing. |
| Interaction.OnSwipe | src/Bubble.tsx:664-668 | Calls `onSwipe` with the current message iff the swipe is activated and the callback is present. Otherwise it does nothing. |
| Interaction.MenuOptions | src/Bubble.tsx:316-320 | A non-empty `optionTitles` gives its first min(2, length) titles, as a prefix of the list. A missing or empty list gives `['Copy Text', 'Cancel']`. There are always one or two options. |
| Interaction.OnLongPress | src/Bubble.tsx:311-338 | A supplied `onLongPress` is called with the message and no menu is shown. Otherwise the action sheet shows iff the message has truthy text. Its options come from `MenuOptions`, its cancel index is the last option's index, and it copies that message's text. Otherwise nothing happens. |
| Interaction.OnMenuSelection | src/Bubble.tsx:327-334 | Button 0 copies exactly the captured text. Every other button does nothing. |
| Interaction.FirstOptionCopiesText | src/Bubble.tsx:311-334 | When the menu shows, choosing its first option copies the message's text. |
| Interaction.CancelDoesNothing | src/Bubble.tsx:316-334 | With the default titles or a list of two or more, the menu has two options, the cancel index is 1, and cancelling does nothing. |
| Interaction.SingleTitleCancelCopies | src/Bubble.tsx:316-334 | A one-title list `[t]` gives the menu `[t]` with cancel index 0, and cancelling copies the text. |
| Interaction.DefaultMenu | src/Bubble.tsx:316-326 | Under the default props, a long press on a message with text shows `['Copy Text', 'Cancel']` with cancel index 1. |
| Grouping.CornerToPreviousDropsHeader | src/Bubble.tsx:632-634 | A squared corner towards the previous message implies the header is omitted. |
| Grouping.NewDaySameAuthor | src/Bubble.tsx:632-634 | Same author and a different day: no header and no corner towards the previous message. |
| Grouping.NewAuthor | src/Bubble.tsx:632-634 | A different author: the header shows and there is no corner towards the previous message. |
| Grouping.DefaultPrevious | src/Bubble.tsx:226-227 | With the default `{}` previous message, the header shows iff `isSameUser(current, {})` is false. When it shows it is in the content. |

## Left out

- The React element tree, the `StyleSheet` constants and the colours (`src/Bubble.tsx:42-127`). Blocks and styles are abstract tags and tokens, and a style's fields come from a caller-supplied function.
- The foreign components `SwipeRow`, `ViewMoreText`, `ParsedText`, `QuickReplies`, `Time`, `MessageText`, `MessageImage`, `MessageVideo` and `MessageAudio`. Their behaviour is not visible here.
- The mention replacement in the parent quote, and the view-more and view-less buttons. These are foreign or presentational.
- `isSameUser`, `isSameDay` and `StylePropType`. The utils module is not part of this model, and day comparison depends on the host's time zone.
- `Clipboard.setString` and `context.actionSheet()`. They are host I/O and appear only as effect values.
- The `context` argument that `onPress` and `onLongPress` pass first. It is abstract.
- `PropTypes` validation and the identity of `defaultProps` objects.
- The `position &&` tests in `styledBubbleToNext`, `styledBubbleToPrevious` and `renderParentMessage`. Position is always `left` or `right`, so they always pass.
- `NaN` as a numeric `createdAt`. It is falsy in JavaScript and not represented.
- The props that a render override receives, such as `containerStyle` and `wrapperStyle`. An override is represented by what it returns for these props: an element or null.
- `tickStyle`, `usernameStyle` and the parent quote's styles. They only style foreign views.
- `touchableProps` (`src/Bubble.tsx:700-704`). They are spread onto the touchable after `onPress` and `onLongPress`. So a `touchableProps.onPress` or `touchableProps.onLongPress` replaces the bubble's own handler. The model covers the bubble's handler functions, not this replacement.
- The wiring of `onParentMessagePress`. This file defines the handler but never attaches it to a view.
- Content.Username: requires the author to be present whenever the label is built. The message type declares `user` as required, and the code would throw a TypeError without it.
- Content.RendersIgnoreOrderFlag: covers only overrides whose result does not depend on `isCustomViewBottom`. The overrides receive props that include the flag (`src/Bubble.tsx:421`, `432`, `529`, `540`, `590`), and `renderCustomView` receives all the props (`src/Bubble.tsx:624`). The lemma keeps each override's result fixed across the toggle.
- Content.ToggleMovesOnlyCustom: covers only overrides whose result does not depend on `isCustomViewBottom`, for the same reason. A custom view that reads the flag may return a different element, or null, after the toggle.
