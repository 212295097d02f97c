# Chat box message exchange, in Dafny

This project models the message exchange of the `ChatBox` React component of
a Snapchat-styled chat widget. The component keeps a conversation log of
`MessageData` records (`id`, `text`, `isSender`, `timestamp`). The log starts
with one welcome record. The component also keeps the text of the input field.
The send handler does the following:

- It ignores input that `trim()` turns into the empty string.
- Otherwise it appends a sender record with the untrimmed text and clears the
  input.
- It starts a one-second timer. When the timer runs, it appends one
  non-sender reply, picked at random from six fixed candidates.

Pressing Enter in the input runs the same handler.

The model has three parts:

- `Text` (Text.dfy) models the JavaScript runtime pieces the handler depends
  on. It has the whitespace set of `String.prototype.trim` (sections 12.2 and
  12.3 of ECMA-262), `trim` itself, and the decimal rendering that
  `Date.now().toString()` produces for record ids.
- `Exchange` (Exchange.dfy) is the component's behaviour as a state machine
  over values. A `State` holds the log, the input and the number of reply
  timers started but not yet run. There is one step function per handler, an
  event-sequence runner, and the invariant that every reachable state keeps.
  Its `Scenarios` module runs whole event sequences.
- `ChatBoxComponent` (ChatBox.dfy) is the component as a class. Its fields
  `messages`, `input` and `pending` are updated in place by `Send`,
  `DeliverReply`, `KeyDown` and `ChangeInput`. Each method is proved to leave
  the fields exactly as the matching `Exchange` step function says, and to
  keep the invariant.

The parts of the runtime the component calls into are parameters:

- `Date.now()` becomes `now`, a natural number of milliseconds that is
  rendered as the id.
- `new Date()` becomes `at`, the timestamp in milliseconds.
- `Math.random()` becomes a real `r` with `0 <= r < 1`.
- Each firing of the timer becomes an explicit `DeliverReply` step (a `Fire`
  event). It is allowed only while a reply is pending.

The code does not guarantee some properties one might expect of a chat log,
and the model does not assume them:

- Ids are `Date.now()` renderings, so they are not guaranteed unique.
  `Scenarios.IdsMayCollide` shows a reply and a later send that share an id.
- Timestamps are whatever the clock returns. No ordering is assumed.
- The origin of a record is the boolean `isSender`, not an enumeration.
- There is no external responder, no failure path, no cancellation and no
  busy state. A second message may be sent while a reply is pending. Each
  accepted send starts its own timer, and the `pending` counter tracks them
  all.

## Model

| member | source | states |
|---|---|---|
| `Text.TrimStart` | src/components/ChatBox.tsx:34 | the result is a suffix of the input that does not start with whitespace, and every character dropped is whitespace |
| `Text.TrimEnd` | src/components/ChatBox.tsx:34 | the result is a prefix of the input that does not end with whitespace, and every character dropped is whitespace |
| `Text.Trim` | src/components/ChatBox.tsx:34 | `trim()` never lengthens the input, and if anything is left, neither its first nor its last character is whitespace |
| `Text.TrimIsInnerSlice` | src/components/ChatBox.tsx:34 | `trim()` returns the contiguous slice of the input that is left once the whitespace on both sides is cut off |
| `Text.IsBlank` | src/components/ChatBox.tsx:34 | the guard `trim() === ''` holds exactly when every character of the input is whitespace (both directions) |
| `Text.Decimal` | src/components/ChatBox.tsx:37 | an id is a non-empty string of decimal digits, with no leading zero unless the clock read 0 |
| `Text.DecimalRoundTrip` | src/components/ChatBox.tsx:37 | reading the id back as a decimal number gives the clock reading it was made from |
| `Text.DecimalInjective` | src/components/ChatBox.tsx:60 | two ids are equal exactly when their `Date.now()` readings were equal |
| `Exchange.Init` | src/components/ChatBox.tsx:17-25 | the initial log holds exactly one record, with id `'1'`, the welcome text and `isSender == false`; the input is empty and no reply is pending |
| `Exchange.ReplyIndex` | src/components/ChatBox.tsx:57 | `Math.floor(r * n)` with `0 <= r < 1` and `n > 0` is a valid index below `n`, and it is the integer part of `r * n` |
| `Exchange.ReplyIndexReachesAll` | src/components/ChatBox.tsx:48-57 | every candidate index `i < n` is drawn by some admissible random number (`i / n`) |
| `Exchange.ReplyText` | src/components/ChatBox.tsx:48-57 | the reply text is always one of the six listed candidates |
| `Exchange.AfterSend` | src/components/ChatBox.tsx:33-47 | blank input changes nothing (log, input and pending count). Otherwise the log grows by one, earlier entries are unchanged, the new last record is a sender record with the untrimmed input, the `Date.now()` id and the timestamp, the input becomes empty and one more reply is pending |
| `Exchange.AfterReply` | src/components/ChatBox.tsx:47-66 | a firing timer appends exactly one non-sender record whose text is the candidate `ReplyText(r)` picks, leaves earlier entries and the input unchanged, and lowers the pending count by one |
| `Exchange.AfterKeyDown` | src/components/ChatBox.tsx:73-77 | Enter gives exactly the state that sending gives; any other key leaves the state unchanged |
| `Exchange.AfterEdit` | src/components/ChatBox.tsx:112 | typing replaces the input with the new value and leaves the log and the pending count alone |
| `Exchange.Step` | src/components/ChatBox.tsx:47-117 | an edit (line 112), a key press (113) or a click (117) is always handled; a timer (47-70) can fire only while a reply is pending and `Math.random()` is in `[0, 1)`; every handled event keeps the earlier log and adds at most one record |
| `Exchange.Run` | src/components/ChatBox.tsx:33-117 | over any sequence of handled events the log is append-only: the old log is a prefix of the new one, which has at most one more record per event |
| `Exchange.InitInv` | src/components/ChatBox.tsx:17-25 | the initial state satisfies the invariant `Inv` |
| `Exchange.SendPreservesInv` | src/components/ChatBox.tsx:33-47 | sending keeps `Inv`: sender records still equal delivered replies plus pending ones, every prefix still has no more replies than sends, no blank text is logged as sent, and every reply is a candidate |
| `Exchange.ReplyPreservesInv` | src/components/ChatBox.tsx:47-66 | a timer firing while a reply is pending keeps `Inv` |
| `Exchange.StepPreservesInv` | src/components/ChatBox.tsx:33-77 | every event the component handles (edit, click, key, timer) keeps `Inv` |
| `Exchange.RunPreservesInv` | src/components/ChatBox.tsx:33-77 | any sequence of events keeps `Inv` |
| `Exchange.ReachableInv` | src/components/ChatBox.tsx:17-77 | every state reachable from mount satisfies `Inv`, so accepted sends always equal replies delivered plus replies pending |
| `Exchange.ReplyHasEarlierSend` | src/components/ChatBox.tsx:34-70 | in a reachable state, every reply after the welcome record has an accepted, non-blank sender record before it |
| `Scenarios.BlankSubmitIsIgnored` | src/components/ChatBox.tsx:34 | typing only whitespace into a fresh chat and sending leaves the welcome-only log, keeps the typed text and schedules no reply |
| `Scenarios.IdsMayCollide` | src/components/ChatBox.tsx:36-66 | a reply whose timer fires in the same millisecond as the next send gets the same id as that send: ids are not unique |
| `ChatBoxComponent.ChatBox.constructor` | src/components/ChatBox.tsx:17-25 | the fields start as the initial state: only the welcome record, an empty input and nothing pending |
| `ChatBoxComponent.ChatBox.ChangeInput` | src/components/ChatBox.tsx:112 | the input field takes the new value; the log and the pending count do not change |
| `ChatBoxComponent.ChatBox.Send` | src/components/ChatBox.tsx:33-71 | on blank input all fields are unchanged; otherwise exactly the sender record is appended to the old log, the input is cleared and the pending count rises by one; the invariant is kept |
| `ChatBoxComponent.ChatBox.DeliverReply` | src/components/ChatBox.tsx:47-70 | exactly one reply record, carrying the candidate `ReplyText(r)` (index `floor(r * 6)`), is appended to the old log, the input is unchanged and the pending count falls by one; the invariant is kept |
| `ChatBoxComponent.ChatBox.KeyDown` | src/components/ChatBox.tsx:73-77 | Enter moves the fields as `Send` does; any other key leaves every field unchanged |

## Left out

- Rendering, CSS classes and layout (src/components/ChatBox.tsx:79-124), the `Message` component and the page that mounts the chat box. These are presentation only.
- The auto-scroll effect (src/components/ChatBox.tsx:29-31) and the "New message received!" toast (src/components/ChatBox.tsx:69). These are DOM and notification side effects that do not change the component's state.
- Real time. The 1000 ms delay is not modelled. A timer run is the explicit `DeliverReply` step, and only the count of outstanding timers is kept, not which send started which timer.
- `Math.random()` is a real number in `[0, 1)`, and `r * 6` is exact real arithmetic rather than IEEE double arithmetic. For six candidates the rounded double product also floors into `[0, 6)`.
- `Date.now()` and `new Date()` are free natural-number parameters. The model assumes nothing about how they relate or how they advance, because the code assumes nothing either.
- Strings are sequences of Unicode scalar values, while JavaScript strings are sequences of UTF-16 code units. `trim` behaves the same on well-formed text, since every character it removes is in the Basic Multilingual Plane. The emoji in the welcome text and in two replies are one character here but two code units in JavaScript. A lone surrogate, which an input field's value can hold, cannot be represented.
- Unmounting. The code does not clear its timers on unmount. What React does with a state update after unmount is outside this model.
- React's batching and re-rendering. Each handler call is one atomic step on the current state. The functional `setMessages(prev => ...)` updates make this match the code even when several timers are pending.
