# SpeechXText message store and reply rule, in Dafny

The server of this voice-chat demo, `index.js`, holds two pieces of logic of its
own; everything else is delegated to Express, socket.io and two cloud services.

* The **message store** behind `/api/messages`: a module-level array `messages`
  and a counter `nextId`. POST validates and trims the text, gives the new
  message the next id, appends it and, once the array holds more than ten
  entries, evicts the oldest. GET lists everything or returns one message by
  id. PUT validates the text, finds the entry by id and replaces its text in
  place. DELETE splices the entry out and answers with the removed elements.
* The **reply rule** of the chat relay: each inbound `"chat message"` is
  answered with exactly one `"bot reply"`: the intent service's fulfillment
  text, `'(no reply)'` when that text is empty or missing, or a fixed apology
  when the call fails.

Files:

* `wrappers.dfy`: `Option`.
* `js_text.dfy` (module `JsText`): `String.prototype.trim`, using the exact
  ECMAScript whitespace set (WhiteSpace and LineTerminator).
* `messages.dfy` (module `Messages`): the entities (`Message`, `TextField`
  for the request's `text`, `IdParam` for the `:id` path parameter, `Response`
  for the handler's answer), the store invariant `WellFormed`, and each route
  twice. First as a pure step function on a `Snapshot` of the store: this is
  the specification. Then as a method of the class `Store`, which updates the
  fields `messages` and `nextId` in place as the handlers do. Each mutating
  method (`Create`, `Update`, `Delete`) is proved to keep `Valid()` and to
  agree with its step function; `List` and `Get` change nothing, `Get` answers
  as `GetStep` does and `List` answers with the stored list.
* `message_traces.dfy` (module `MessageTraces`): requests handled one after
  another, and properties that span several requests: ids are never reused,
  the ten newest messages are kept, a created or updated message reads back,
  and a deleted id stays gone.
* `relay.dfy` (module `Relay`): the reply choice and the replies of one
  connection.

Responses map to HTTP as follows. `Created` is 201. `Listed`, `Fetched`,
`Updated` and `Deleted` are 200. `BadRequest` is 400 with
`{error: 'text is required'}`. `NotFound` is 404 with
`{error: 'Message not found'}`.

Inputs the model takes as parameters:

* the creation timestamp `new Date().toISOString()` is the `now: string`
  argument;
* the `:id` path parameter is the result of `Number(req.params.id)`, given
  as `Some(n)` when it is the integer `n` and as `None` when it is NaN (or
  any other value no integer id can equal);
* a request body's `text` is `Str(s)` when it is a JSON string and
  `NotString` otherwise (missing, null, a number, an object);
* the outcome of `detectIntent` is an `IntentOutcome`.

## Model

| member | source | states |
|---|---|---|
| JsText.LeadingBlanks | index.js:26 | counts exactly the longest whitespace prefix: every character before the count is whitespace and the one at the count is not |
| JsText.TrailingBlanks | index.js:26 | counts exactly the longest whitespace suffix, the mirror image of LeadingBlanks |
| JsText.Trim | index.js:26 | `trim()` leaves no whitespace at either end, and is empty exactly when every character of the text is whitespace, which is when `!text.trim()` holds |
| JsText.TrimIsInnerSlice | index.js:30 | `trim()` yields the contiguous slice left once the leading and the trailing whitespace are cut off, and everything cut off is whitespace |
| JsText.TrimmedIsFixed | index.js:30 | trimming a text that has no edge whitespace returns it unchanged, so trimming twice is trimming once |
| Messages.RequestText | index.js:25-28 | a text is rejected exactly when it is not a string or is blank; an accepted text is the trimmed string, non-empty and without edge whitespace |
| Messages.FindIndex | index.js:59-61 | `findIndex` gives -1 exactly when no entry has the id, and otherwise the first position whose entry has it |
| Messages.CreateStep | index.js:24-38 | 400 exactly for a non-string or blank text, with the store unchanged; otherwise 201 with id = old nextId, the trimmed text and the given time, nextId + 1, the message appended at the end, and the oldest entry dropped exactly when the store already held ten |
| Messages.CreateKeepsWellFormed | index.js:30-37 | POST keeps the store invariant: at most ten entries, ids strictly increasing and below nextId, every text trimmed and non-empty |
| Messages.GetStep | index.js:45-51 | 404 exactly when no entry has the id; otherwise an entry of the store with that id |
| Messages.UpdateStep | index.js:53-64 | 400 exactly for bad text, whatever the id; 404 exactly for good text and an unknown id; both leave the store unchanged; on success only the found entry changes, its id and createdAt kept and its text replaced by the trimmed text, and that entry is returned |
| Messages.DeleteStep | index.js:66-73 | 404 exactly when no entry has the id, store unchanged; otherwise the entry is cut out, the others keep their order, nextId is unchanged, and the answer is the one-element list holding it |
| Messages.UpdateKeepsWellFormed | index.js:59-62 | PUT keeps the store invariant: ids and order are untouched and the new text is trimmed and non-empty |
| Messages.DeleteKeepsWellFormed | index.js:68-71 | DELETE keeps the store invariant: removing one entry keeps the others' order and bounds |
| Messages.Store.constructor | index.js:19-20 | the store starts empty with nextId 1 |
| Messages.Store.Create | index.js:24-38 | the in-place POST handler keeps the invariant and leaves the store and response that CreateStep describes |
| Messages.Store.List | index.js:41-43 | GET answers with the whole list in insertion order and changes nothing |
| Messages.Store.Get | index.js:45-51 | answers as GetStep does and changes nothing |
| Messages.Store.Update | index.js:53-64 | the in-place PUT handler keeps the invariant and leaves the store and response that UpdateStep describes |
| Messages.Store.Delete | index.js:66-73 | the splicing DELETE handler keeps the invariant and leaves the store and response that DeleteStep describes |
| MessageTraces.Handle | index.js:22-73 | reads change nothing, and nextId advances by one exactly on a 201 whose id is the old nextId |
| MessageTraces.Run | index.js:22-73 | handling requests one at a time gives one response per request and never decreases nextId |
| MessageTraces.HandleKeepsWellFormed | index.js:22-73 | every route, whatever its input, keeps the store invariant |
| MessageTraces.RunKeepsWellFormed | index.js:19-73 | from any well-formed store, including the initial empty one, every sequence of requests keeps the invariant |
| MessageTraces.CreatedIdsFresh | index.js:20-30 | along any sequence of requests the ids of created messages strictly increase and lie between the starting and the final nextId |
| MessageTraces.CreatedIdsNeverReused | index.js:30-71 | a created message never gets the id of an entry present when the run began, even after that entry was deleted or evicted |
| MessageTraces.Entries | index.js:30 | the messages n valid POSTs create from the empty store: one per request, the i-th with id i + 1, that request's trimmed text and its time |
| MessageTraces.NewestSnoc | index.js:31-37 | pushing onto the newest ten of a list, then shifting when that gives eleven, leaves the newest ten of the extended list |
| MessageTraces.CreatedAll | index.js:32 | the 201 answers for a list of messages: one per message, in order |
| MessageTraces.PostsKeepNewest | index.js:30-37 | after n valid POSTs from the empty store the answers are 201 with ids 1..n, nextId is n + 1, and the store holds exactly the last min(n, 10) of those messages (`Newest(Entries(reqs))`) in creation order |
| MessageTraces.EleventhPostEvictsFirst | index.js:34-37 | eleven valid POSTs leave ten entries with ids 2..11 |
| MessageTraces.PostThenList | index.js:24-43 | POST `"hello"` to the empty store answers 201 with id 1 and a following GET lists exactly that message |
| MessageTraces.IdsUnique | index.js:45-47 | in a well-formed store at most one entry has a given id, so `find` and `findIndex` pick the only match |
| MessageTraces.GetAfterCreate | index.js:30-47 | a message just created is read back unchanged by its id |
| MessageTraces.GetAfterUpdate | index.js:45-64 | after a successful PUT a GET of the same id returns the updated message |
| MessageTraces.DeletedIdAbsent | index.js:68-71 | after a DELETE no remaining entry has the id, since ids are unique |
| MessageTraces.DeleteTwiceNotFound | index.js:66-73 | after a DELETE, a GET or a second DELETE of that id answers 404 and changes nothing |
| Relay.BotReply | index.js:100-109 | a failure gives the apology; a non-empty fulfillment text is replied as is; an empty or missing one gives `'(no reply)'`; the reply is never empty |
| Relay.SessionReplies | index.js:90-111 | a connection emits exactly one reply per inbound message, each the BotReply of that message's own outcome |
| Relay.FailureIsContained | index.js:106-110 | a failed intent call changes only its own message's reply, to the apology |

## Left out

- `POST /api/tts` (index.js:119-135): a call to the Google text-to-speech service and a base64 encoding of its answer; a foreign service with no logic of the server's own.
- The socket.io connection lifecycle and the `uuidv4` session id (index.js:86-88), and building the Dialogflow request (index.js:93-99): transport and foreign calls. The reply rule sees only the call's outcome.
- Express routing, middleware, static files, JSON serialisation and the status codes themselves (index.js:11-16, 76): each handler is modelled by the `Response` it chooses.
- `console.log` output (index.js:33, 87, 91, 104, 107-108): logging only.
- `Number(...)` coercion of the `:id` parameter: modelled by its result, an optional integer, so inputs such as `"0x1"` or `" 1 "` that JavaScript turns into 1 appear as `Some(1)`.
- JavaScript numbers are doubles: once `nextId` reaches 2^53, `nextId++` leaves it at 2^53 (2^53 + 1 rounds back), so every later POST would get the id 2^53 again. The model's ids are unbounded integers, and "ids are never reused" (`CreatedIdsFresh`, `CreatedIdsNeverReused`) holds only under that assumption.
- JavaScript strings are UTF-16 and may hold lone surrogates; Dafny strings here are sequences of Unicode scalar values.
- The message objects are modelled as values. The source assigns `messages[idx].text` on a shared object, but every client sees messages only as serialised JSON, so this aliasing is not observable.
- The POST handler sends its 201 before evicting (index.js:32 versus 35-37). The single-threaded runtime runs each handler to completion, so each route is modelled as atomic.
- Relay.SessionReplies: the result is indexed by inbound message. The `'chat message'` handler is `async` and awaits `detectIntent` (index.js:90, 100), so when intent calls overlap the replies are emitted in the order the calls settle, not the order the messages arrived; that emission order is not modelled.
- `script.js`, the browser client: DOM, speech-recognition and audio APIs.
