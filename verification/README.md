# Chat session engine of the teleparty sample client

A Dafny model of the client-side session logic of a small realtime chat room
client (`src/App.tsx`). The client creates or joins a room through a websocket
transport. It keeps a message log, a roster and the latest typing presence.
From those it derives the nicknames shown as "typing". It debounces its own
keystrokes into `typing: true` / `typing: false` signals.

The model is functional: every handler is a pure function on an immutable state.

- `Wrappers`: `Option`, standing for `undefined` / `null`.
- `Domain`: the records exchanged with the transport (`ChatMessage`, `User`,
  `UserSettings`, `TypingPresence`) and the inbound envelope as a tagged
  variant with an optional payload. It also defines JavaScript truthiness of an
  optional string.
- `JsString`: `String.prototype.trim` (section 22.1.3.32 of ECMA-262), with the
  ECMAScript WhiteSpace and LineTerminator code points.
- `Presence`: the typing-name derivation, which is `find`, then `map`, then
  `filter(Boolean)`.
- `Dispatch`: the `onMessage` reducer over message, roster and presence.
- `Debounce`: `handleTyping` and its quiet-period timer. Timers are tokens
  issued in increasing order, and their expiry is an explicit event.
- `Indicator`: the "X, Y are typing..." line.
- `Session`: the session state, the create, join, send and close handlers, the
  enabling guards of the buttons, and one `Step` per event with runs of events.

Asynchronous results are inputs of the events that await them. These are the
room id a creation resolves to, or a rejection, and whether a join or a send
resolved. The transport calls become entries of an outgoing request log
(`Session.Request`) and of the debouncer's signal log.

The model keeps these behaviours of the code:
- The typing list does not exclude the local user's own connection id.
- Duplicate typing ids are kept.
- Every keystroke of a connected user sends `typing: true`, not only the first
  of a burst.
- The close handler clears only the connected flag, the nickname and the room
  id. Message log, roster, presence and a pending timer are kept; the page
  reload that follows is outside the model.
- `sendMessage` does not check the connected flag itself. Only the rendering
  does: the send controls exist only while connected.
- There are no separate creating/joining/terminated states. A create or join
  that the transport rejects leaves the state unchanged apart from the request
  log.
- When someone is typing, the roster is non-empty and `usersTyping` is absent,
  the stored list is `undefined` (`None`), not `[]`. No indicator is shown.

## Model

| member | source | states |
|---|---|---|
| Presence.FirstMatch | src/App.tsx:154-156 | the index found is the first roster entry whose connection id equals the typing id; `None` exactly when no entry matches |
| Presence.TypingNicknames | src/App.tsx:152-159 | the derived list is never longer than the typing ids and holds no empty nickname |
| Presence.TypingNames | src/App.tsx:150-164 | `[]` whenever `anyoneTyping` is not true or the roster is empty; `undefined` exactly when typing, non-empty roster and no `usersTyping`; otherwise exactly the first-match truthy nicknames of the ids in order (the list the lemmas on `TypingNicknames` describe) |
| Presence.TypingNicknamesAppend | src/App.tsx:152-159 | the derivation distributes over concatenation of the id list, so names come out in the input order of the ids |
| Presence.TypingNicknamesMembership | src/App.tsx:152-159 | a name is shown iff it is non-empty and is the first-match nickname of some typing id (both directions) |
| Presence.TypingNicknamesOmits | src/App.tsx:154-159 | an id with no match, no settings, or a missing or empty nickname is dropped without affecting the other names |
| Presence.TypingNicknamesKeepsDuplicates | src/App.tsx:152-159 | an id listed twice yields its nickname twice: no deduplication |
| Presence.InputOrderExample | src/App.tsx:150-160 | roster {A: alice, B: bob} with ids [B, A] shows ["bob", "alice"] |
| Dispatch.MessageOf | src/App.tsx:126-129 | a message event with data appends exactly that data's `userIcon`, `userNickname` and `body`; without data, a message with all three absent |
| Dispatch.OnMessage | src/App.tsx:120-144 | a message event appends exactly one message and keeps the earlier ones; a roster event replaces the roster by its payload or `[]`; a presence event replaces the presence by its payload or `{}`; any other type changes nothing |
| Dispatch.DeliverAppendsInOrder | src/App.tsx:125-131 | after any sequence of inbound events the log is the old log followed by the carried messages in arrival order |
| Dispatch.DeliverRosterLastWins | src/App.tsx:133-135 | after any sequence of inbound events the roster is the payload of the last roster event (or the old roster if none): no merge |
| Dispatch.ArrivalOrderExample | src/App.tsx:125-131 | messages M1, M2, M3 delivered in order are logged as [M1, M2, M3] |
| Debounce.Keystroke | src/App.tsx:90-99 | not connected: nothing is sent and the timer is untouched; connected: exactly `typing: true` is sent and a fresh timer, newer than any pending one, replaces it; well-formedness is kept |
| Debounce.TimerFires | src/App.tsx:99-104 | the pending timer sends `typing: false` once and is gone; any other token changes nothing; the token counter is untouched, so a fired token is never re-armed; well-formedness is kept |
| Debounce.StaleTimerInert | src/App.tsx:97-99 | after a keystroke no earlier timer can fire |
| Debounce.BurstSignals | src/App.tsx:90-99 | n keystrokes send n `typing: true` signals and leave only the last armed timer pending |
| Debounce.BurstThenQuiet | src/App.tsx:90-105 | a burst followed by the expiry of the last timer ends the signal log with exactly one `typing: false`; any later expiry sends nothing |
| Indicator.Join | src/App.tsx:239 | the joined text has the total length of the names plus one separator between neighbours, starts with the first name and separator, and is the name itself for one name |
| Indicator.JoinSnoc | src/App.tsx:239 | joining one more name appends the separator and that name |
| Indicator.IndicatorText | src/App.tsx:194-241 | rendered iff connected and the list exists and is non-empty; the text starts with all names joined by ", "; one name reads "<name> is typing..."; more start with the first name and ", " and end in " are typing..." |
| Indicator.IndicatorTextMore | src/App.tsx:237-241 | for two or more names the text is exactly the join of all names in order followed by " are typing..." |
| Indicator.TwoTypersExample | src/App.tsx:237-241 | ["Alice", "Bob"] reads "Alice, Bob are typing..." |
| JsString.Trim | src/App.tsx:79-82 | the trimmed text has no white space at either end and is the input with only white space removed from its ends |
| JsString.TrimUnique | src/App.tsx:79-82 | any white-space strip of the ends that leaves no white space at either end is the trimmed text |
| JsString.TrimIdempotent | src/App.tsx:82 | trimming a trimmed text changes nothing |
| JsString.TrimEmptyIff | src/App.tsx:79 | the trimmed text is empty, so falsy, iff the input is all white space |
| Session.CreateRoom | src/App.tsx:51-65 | a creation request with the current nickname is issued; connected is set iff it was set or the id is truthy, and the room id becomes that id; otherwise nothing but the request log changes |
| Session.JoinRoom | src/App.tsx:67-76 | a join request with the current nickname and room id is issued; connected is set on resolution; a rejection changes nothing else |
| Session.SendMessage | src/App.tsx:78-88 | all-white-space input sends nothing and changes nothing; otherwise exactly one request carrying the trimmed, non-empty body is issued, the input is cleared iff the send resolved, and a rejected send keeps the typed text |
| Session.EditMessage | src/App.tsx:248-251 | the input takes the new text and the debouncer sees one keystroke: no signal when not connected, one `typing: true` when connected |
| Session.Close | src/App.tsx:112-119 | connected false, nickname and room id cleared; log, roster, typing list, debouncer, input and requests untouched |
| Session.Receive | src/App.tsx:120-164 | the reducer runs and the stored typing list stays the one derived from presence and roster; a presence or roster event without data leaves it `[]` |
| Session.Step | src/App.tsx:166-258 | no event removes or rewrites a logged message, an issued request or a sent typing signal |
| Session.InitialInv | src/App.tsx:36-45 | the initial state satisfies the session invariant: consistent typing list, well-formed debouncer, not connected |
| Session.StepPreservesInv | src/App.tsx:51-164 | every event keeps the typing list equal to the derivation, the debouncer well formed, and, with create and join settling atomically, a connected session with a non-empty room id |
| Session.RunPreservesInv | src/App.tsx:150-164 | every reachable state keeps the session invariant |
| Session.StepMessages | src/App.tsx:125-131 | one event appends the carried message of a delivered message event and nothing otherwise |
| Session.RunMessages | src/App.tsx:125-131 | over any run the log grows by exactly the messages of the delivered message events, in order |
| Session.HiddenControlsInert | src/App.tsx:168-258 | a click on the create button when `CanCreate` fails (connected, or no nickname) or on the join button when `CanJoin` fails (connected, no nickname or no room id), and any control not rendered in the current connected state, changes nothing |
| Session.ClosedSessionSendsNoTyping | src/App.tsx:90-116 | after the close handler a keystroke sends no typing signal |
| Session.ClosedSessionHidesIndicator | src/App.tsx:112-116 | after the close handler no typing indicator is rendered, although the typing list is kept |
| Session.ConnectedSessionStable | src/App.tsx:112-191 | while connected, every event but the close notification keeps the session connected with the same nickname and room id; the close notification disconnects |
| Session.RunStaysInRoom | src/App.tsx:168-191 | over any run without a close notification a connected session keeps its connection, nickname and room id |
| Session.AliceCreatesRoom | src/App.tsx:51-60 | Alice enters her nickname and creates a room that resolves to "R1": connected in "R1" with one creation request under "Alice" |
| Session.AliceReceivesHello | src/App.tsx:125-135 | the roster [Alice, Bob] and Bob's "hello" arrive: the log is exactly [hello] and the roster exactly [Alice, Bob] |
| Session.AliceSeesBobTyping | src/App.tsx:137-164 | Bob's typing presence arrives: the typing list is ["Bob"] and the indicator reads "Bob is typing..." |
| Session.AliceSeesBobStop | src/App.tsx:137-164 | a presence with nobody typing arrives: the typing list is empty and no indicator is shown |

## Left out

- Rendering, styles and input widgets are not modelled. Only which controls
  exist and are enabled in each connected state is kept, as the gating in
  `Session.Step`.
- `TelepartyClient` and `SocketMessageTypes` are a foreign websocket library.
  Its calls are entries of the request and signal logs. Its results are event
  inputs. The concrete string values of the event type constants are not
  modelled; the envelope is a tagged variant.
- The random avatar choice uses `Math.random`. The avatar passed with create
  and join requests is omitted; a message's icon is an opaque string.
- Timeout durations and promise interleaving are not modelled. A create, join
  or send runs atomically with its settled result. Timer expiry is an explicit
  event carrying the timer's token.
- `alert`, `console.log`, `console.error` and `window.location.reload` are I/O
  and are not modelled. The reload is why the close handler does not clear the
  log or roster itself.
- The connection-ready callback only logs. It is the `ConnectionReady` event,
  which changes nothing.
- A payload whose `data` has the wrong type, e.g. a roster event carrying a
  non-array, is not modelled. Nor is a `null` roster entry, which behaves like
  a user without a connection id. Payloads are either well-typed or absent.
- Typing signals (`Debounce.Debouncer.signals`) and room and chat requests
  (`Session.State.requests`) are two separate logs. The code sends all of them
  through one transport call, but their relative order is not modelled.
- Session.StepPreservesInv, Session.RunPreservesInv, Session.ConnectedSessionStable,
  Session.RunStaysInRoom: the room-id part of the invariant and the stability of
  nickname and room id while connected hold only because a create or join
  settles in the same step as its click. In the code the nickname and room
  inputs and both room buttons stay enabled while a promise is pending. Two
  cases differ. First, a click on Join with room id "R1", then clearing the
  room-id input before the join resolves, ends connected with an empty room id,
  because the join handler sets only the connected flag. Second, two clicks on
  Create whose promises resolve in order connect in the first room, and the
  second resolution then changes the room id while connected, with no close.
- `Session.Step`: it states only that logs grow. Each handler's own contract
  says what it changes.
