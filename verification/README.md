# Chat dashboard message store, in Dafny

A model of the state logic of the `App` component of a single-page chat
dashboard: a user types messages, each accepted message is answered by an echo
reply after a 500 ms timer, messages can be deleted one id at a time or cleared
all at once behind a confirmation dialog, a search box filters what is shown,
and the whole list is mirrored to the browser's `localStorage` entry
`"chat-messages"` after every change and read back once when the page mounts.

Modules, one per concern:

- `JsText` (`jstext.dfy`): `trim` with the exact set of code points ECMAScript
  strips, ASCII `toLowerCase`, and `includes` with its substring meaning.
- `Seqs` (`seqs.dfy`): `Array.prototype.filter` over sequences and the
  order-preserving subsequence relation it establishes.
- `Messages` (`messages.dfy`): the message record (`id`, `text`, `timestamp`,
  `sender`).
- `Storage` (`storage.dfy`): the storage slot, classified by what `JSON.parse`
  makes of it, and the load and save effects.
- `Chat` (`chat.dfy`): the component state and the handlers `sendMessage`,
  the reply-timer callback, `deleteMessage`, `clearAllMessages`,
  `filteredMessages`, export, and the button guards.
- `Session` (`session.dfy`): events, the save effect after every list change,
  mounting, and runs of events.
- `Scenarios` (`scenarios.dfy`): the component's test scenarios as lemmas, and
  the id collision the clock-derived ids allow.

Clock readings (`Date.now()`) and display times (`toLocaleTimeString()`) are
parameters of the events. The reply timer is an explicit `Reply` event: each
accepted send appends the input it captured to a queue of pending replies, and
since every timer has the same delay they fire in the order they were set.
Whether `localStorage.setItem` accepts a write is a boolean parameter, given
separately for each event of a run.

Points where the code may surprise:

- The reply's sender is the string `'ai'` (the `Ai` constructor).
- Deleting an id removes every message with that id, not only the first.
  Ids come from the clock and are not unique: a reply gets clock + 1 when its
  timer fires, so a message sent one millisecond later gets the same id
  (`Scenarios.ReplyIdCollides`), and deleting that id removes both
  (`Scenarios.DeleteSharedId`).
- Only a `JSON.parse` failure removes the stored entry. Valid JSON that is
  not an array leaves the list empty and the entry in place, and an empty
  stored string is falsy and is not parsed at all.
- On mount, the save effect of the first render writes the still-empty list
  before the loaded list is saved. A stored non-array or a corrupt entry is
  therefore replaced by `[]` immediately, and the loaded list survives in
  storage only once the re-render saves it (`Session.Mount`).

## Model

| member | source | states |
|---|---|---|
| `JsText.Trim` | src/App.js:50 | `trim` returns the slice of its input left after removing only whitespace from the front and the back, and that slice has no whitespace at either end |
| `JsText.BlankIffAllWhitespace` | src/App.js:50 | the guard `!input.trim()` holds exactly when every character of the input is whitespace |
| `JsText.ToLower` | src/App.js:109 | ASCII `toLowerCase` keeps the length and maps every character by itself, changing only `A`-`Z` to their lowercase letters |
| `JsText.Includes` | src/App.js:109 | `includes` is true exactly when the needle occurs at some index of the haystack |
| `Seqs.Filter` | src/App.js:80 | `filter` yields an order-preserving subsequence containing exactly the elements the predicate keeps, each as many times as in the input |
| `Chat.SendMessage` | src/App.js:49-61 | whitespace-only input leaves the state unchanged; other input is appended untrimmed, after an unchanged prefix, as a user message with id `now` and the display time of the click, the input is cleared, exactly one reply carrying the input is queued, and the slot is untouched until the save effect |
| `Chat.FireReply` | src/App.js:63-71 | the firing timer appends one `ai` message with id one past the clock at firing, the display time at firing, and text "Echo: " plus the captured input, after the unchanged list; it retires that timer and changes nothing else |
| `Chat.SendThenReply` | src/App.js:49-71 | send followed by its timer appends the user message and then its echo, which carries the input as it was at the click even if the box was edited in between |
| `Chat.EchoRecoversInput` | src/App.js:66 | the reply text is the prefix followed by the input, untrimmed and untruncated, so removing the prefix gives the input back |
| `Chat.Delete` | src/App.js:79-81 | after deletion no message has the id, every message with another id survives with all its copies, and survivors keep their relative order |
| `Chat.DeleteMessage` | src/App.js:79-81 | the delete handler replaces the list by its deletion and leaves input, search term, pending replies and slot alone |
| `Chat.DeleteCount` | src/App.js:80 | deletion removes exactly as many messages as carry the id, without assuming ids are unique |
| `Chat.DeleteAbsent` | src/App.js:80 | deletion leaves the list unchanged exactly when no message carries the id |
| `Chat.DeleteIdempotent` | src/App.js:80 | deleting the same id twice equals deleting it once |
| `Chat.CountIdNone` | src/App.js:80 | the number of messages carrying an id is zero exactly when none carries it |
| `Chat.ClearAll` | src/App.js:87-92 | an empty list or a declined dialog leaves the state unchanged; a confirmed clear of a non-empty list empties it and changes nothing else |
| `Chat.ClearIdempotent` | src/App.js:87-92 | clearing twice with the same answer equals clearing once, and after a confirmed clear any further clear is a no-op |
| `Chat.Visible` | src/App.js:108-110 | the view is an order-preserving subsequence of the list holding exactly the messages whose lowercased text contains the lowercased term, each as many times as it occurs in the list |
| `Chat.VisibleEmptyTerm` | src/App.js:108-110 | the empty search term shows the whole list |
| `Chat.VisibleCaseInsensitive` | src/App.js:109 | the view depends only on the lowercased term |
| `Chat.Export` | src/App.js:98-99 | the export payload read back yields the full unfiltered list |
| `Chat.SendDisabledIsNoOp` | src/App.js:184-188 | the Send button is disabled exactly on whitespace-only input, where sending would do nothing |
| `Chat.ClearDisabledIsNoOp` | src/App.js:132-136 | when the Clear button is disabled (empty list), clearing with either answer changes nothing |
| `Chat.ExportDisabledIsEmpty` | src/App.js:140-143 | the Export button is disabled exactly when the export would hold no message |
| `Storage.Load` | src/App.js:15-30 | an absent, empty, non-array or unparseable slot yields an empty list and a parsed array exactly its elements; the slot changes exactly when parsing fails, and then it is removed |
| `Storage.LoadStable` | src/App.js:25-29 | loading again from what a load left behind gives the same list and slot |
| `Storage.Save` | src/App.js:32-43 | a successful save then load returns the saved list; a refused write leaves the slot as it was |
| `Storage.LoadAfterSave` | src/App.js:32-35 | saving a list and loading it back yields that list whatever the slot held |
| `Session.SetsMessages` | src/App.js:43-92 | the save effect runs after an event exactly when its handler changes the list, and after every delete, since `filter` builds a new array even when nothing is removed |
| `Session.Apply` | src/App.js:32-43 | an event changes the state as its handler does, apart from the slot; the slot is rewritten only after events that set the list, and then by the save effect; a refused write leaves the slot unchanged |
| `Session.ApplyPersists` | src/App.js:32-43 | with working storage, every event that sets the list leaves the slot holding it, and a slot that already held the list keeps holding it |
| `Session.ApplyShape` | src/App.js:49-92 | send and reply append their message to the end of the list; every event's result is an order-preserving subsequence of the list plus what it appended |
| `Session.Run` | src/App.js:32-92 | when storage refuses every write of a run, the slot ends the run as it began |
| `Session.RunKeepsInsertionOrder` | src/App.js:49-92 | after any run of events the list is an order-preserving subsequence of the starting list followed by every appended message in insertion order |
| `Session.RunKeepsPersisted` | src/App.js:32-43 | when every write of a run is accepted, a slot that mirrors the list keeps mirroring it through the run |
| `Session.RunIgnoresWriteFailures` | src/App.js:34-42 | whichever writes storage accepts or refuses, event by event, and whatever the slot holds, a run ends with the same list, input, search term and pending replies; when every write is refused the slot is left as it was |
| `Session.Mount` | src/App.js:15-43 | mounting shows the loaded list with empty input, search and reply queue, with working storage leaves the slot holding that list, and with refused writes leaves the slot as the load left it (a corrupt entry removed, any other entry untouched) |
| `Session.ReloadRestores` | src/App.js:15-43 | when every write is accepted, remounting after any session shows the list exactly as it was left |
| `Scenarios.SendHelloThenEcho` | src/App.js:49-71 | sending "Hello!" stores one user message and queues one reply; firing it appends "Echo: Hello!" from `ai`, and storage mirrors the list |
| `Scenarios.SendSpacesIgnored` | src/App.js:49-50 | sending three spaces adds no message and queues no reply |
| `Scenarios.MountFromStorage` | src/App.js:15-30 | a stored one-message array is shown on mount; "invalid json" is removed and the page starts empty |
| `Scenarios.SearchFirst` | src/App.js:108-110 | searching "First" among "First message" and "Second message" shows only the first |
| `Scenarios.DeleteTwice` | src/App.js:79-81 | deleting the only message empties the list, and deleting its id again changes nothing |
| `Scenarios.ReplyIdCollides` | src/App.js:53-65 | a reply fired at clock t and a message sent at clock t + 1 get the same id |
| `Scenarios.DeleteSharedId` | src/App.js:80 | deleting an id shared by two appended messages removes both |

## Left out

- Rendering, CSS classes, aria labels and the dark-mode toggle: presentation with no logic beyond a boolean flip.
- The `localStorage` API, `JSON.parse` and `JSON.stringify`: the slot is represented by what parsing its string yields, and serialising then parsing is taken to be lossless.
- Storage.Load: an array whose elements are not message-shaped is loaded as is by the code; the model's array slot holds messages only.
- Exceptions from `getItem` or from `removeItem` inside the catch block: not modelled; only `JSON.parse` failures are.
- `console.error`, `console.warn` and the `QuotaExceededError` test: they only log; every refused write is `writeOk = false`.
- Session.Mount: both saves of the mount sequence share one `writeOk`, so a first write that succeeds followed by a second that fails is not modelled.
- The 500 ms delay itself: replies are explicit events, and the model assumes equal-delay timers fire in the order they were set.
- React's batching and stale closures: each event sees the state the previous event produced, as it does when the component re-renders between events; StrictMode's double effects are not modelled.
- JsText.ToLower: maps only `A`-`Z`; `toLowerCase` of other letters is not modelled.
- Export's DOM work, the data URI, `encodeURIComponent`, pretty-printing and the file name `chat-export-<ms>.json`: browser I/O; `Chat.Export` models the payload's content only.
- JavaScript numbers: ids are unbounded integers, so floating-point precision of `Date.now() + 1` is not modelled.
