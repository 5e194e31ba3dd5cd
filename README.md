# Live speech translation hub, in Dafny

This project models the live bilingual transcript relay of
`live-speech-translation`. The **hub** (`app.py`) is a Socket.IO server. It
keeps one registry of who is connected:
- the speaker-side `master` page;
- the remote `control` page;
- a viewer count;
- the shared recognition ("listening") flag.

It also keeps the `history` of finalised lines of the current conversation. It
relays each transcript line from the master to every other page. It replays
the history to pages that join late, and relays start/stop commands between
control and master. The **browser transcript** comes in two versions of
the same `MessageManager` class, `static/js/message-manager.js` and
`static/js/message-manager-v0.2.js`. Each turns the `display_message`,
`load_history` and `clear_screen` events into rows on the page. Each row
has a French and a Spanish text and may be temporary (interim).

Modules:
- `Text` (text.dfy): substring search (`in` / `includes`), and the whitespace
  sets of Python's `str.strip` and JavaScript's `String.prototype.trim`.
  They differ: Python strips `\x1c`–`\x1f` and `\x85`, JavaScript strips
  U+FEFF.
- `Protocol` (protocol.dfy): socket ids, the JSON payloads, the events and
  their addressees. A JSON key is `Missing`, `Null` or a `Value`, because the
  hub treats an absent key and an explicit `null` differently.
- `Relay` (relay.dfy): every handler as a pure transition
  `Registry -> Step(next, emits)`, with the emits in order. It also holds
  traces of events (`Run`) and the lemmas about them.
- `Server` (hub.dfy): class `Hub`. Its fields are the entries
  of `sid_registry`, `history` and the conversation id. It has one method per
  handler, each updating the fields in place. Each method is proved to give
  the state and emits of the matching `Relay` function.
- `Transcript` (transcript.dfy): the `MessageManager` of `message-manager.js`. An accepted
  message first deletes all temporary rows (an in-place loop), then appends
  one row.
- `TranscriptV02` (transcript_v02.dfy): the `MessageManager` of `message-manager-v0.2.js`. A final
  message settles the temporary row in place. An interim message rewrites
  it. Each row also carries the two time cells.
- `Compare` (compare.dfy): the two policies side by side, and what a page
  that joins late shows of the hub's history.

The relay was designed to behave as follows. At each of these points the
code behaves differently, and the model follows the code:
- Design: a master or control page displaced by a newer one changes no
  count when it finally disconnects. Code: it no longer holds its slot, so
  its disconnect is counted as a viewer leaving, and the viewer count drops
  (app.py:413-421). A socket of unknown kind is treated the same way,
  although its connect never counted it.
- Design: the reconciliation subtracts a live master and a live control
  page from the number of sockets. Code: `sync_viewer_count` subtracts only
  a live master (app.py:458).
- Design: the reconciliation notifies the master only when the count
  changed. Code: it notifies a live master every time (app.py:462-465).
- Design: a final line is kept in memory for late joiners even when
  storing it fails. Code: it is appended to `history` only after
  `add_message` succeeds (app.py:488-503).
- Design: a final line without a timestamp is given one. Code: reading
  `data["timestamp"]` raises, so the line is stored in the database but left
  out of `history` (app.py:500, 504-505).
- `get_socket_statistics` subtracts a registered master even when that
  master is not among the connected sockets (app.py:308), unlike the
  reconciliation.

## Model

| member | source | states |
|---|---|---|
| Text.Contains | static/js/message-manager-v0.2.js:71-72 | substring test: true iff the pattern occurs at some position of the text |
| Protocol.SendTo | app.py:401-406 | an emit to a role slot: none iff the slot is empty, else one emit of that event to the slot's sid |
| Protocol.ClientAccepts | static/js/message-manager.js:43 | the check that opens `addMessage` in both versions (also message-manager-v0.2.js:65): a message passes only when fr and es are present, not null and not empty |
| Protocol.VisibleTextsAccepted | static/js/message-manager.js:43 | fr and es texts that each start with a character `trim()` keeps pass the check |
| Protocol.MarkFinal | static/js/message-manager-v0.2.js:18-19 | every entry is kept, in order, with only `is_final` set to true |
| Protocol.EntryMessage | app.py:496-503 | a history entry as a page receives it: fr, es, timestamp and source_language, with no `lang` and no `is_final` key |
| Relay.Classify | app.py:374-383 | referer patterns in a fixed order: master iff "/master" occurs; viewer iff not master and "/viewer" occurs; control iff neither and "/control" occurs; unknown otherwise |
| Relay.NotifyMaster | app.py:401-406 | the viewer-count notice: no emit iff no master is registered, otherwise only `update_viewer_count` with the current count, to the master's sid (also app.py:423-428) |
| Relay.Connect | app.py:370-406 | slot overwrite for master/control; a viewer raises the count by exactly 1; unknown changes nothing; nothing else changes; the emits are, in order: the recognition state to a master/control newcomer (and to no one else), `load_history` with the unchanged history to the newcomer (once), and the count to a registered master (last, and only there) |
| Relay.Disconnect | app.py:409-428 | the master's sid clears only the master slot; control's clears only control; any other sid lowers the count by one, floored at 0, and the registered master is sent the new count; the count never rises |
| Relay.Blank | app.py:475 | an absent, null or empty text is blank; a text whose first character `str.strip` keeps is not |
| Relay.Accepted | app.py:475 | a message that passes the hub's check has fr and es present and non-empty |
| Relay.Kept | app.py:485-505 | a line is appended to the history only when it is final, the database write succeeded and fr and es are present; never when the write failed, the line is not final or the `timestamp` key is absent |
| Relay.LangOrUnknown | app.py:480 | "unknown" only when the `lang` key is absent; an explicit null is kept |
| Relay.Broadcast | app.py:479-481 | the payload is a copy of the input with `source_language` set from `lang` and `is_final` coerced to a bool |
| Relay.HistoryEntry | app.py:496-503 | the entry keeps fr, es and timestamp, with `lang` (or "unknown") as its source language |
| Relay.NewTranslation | app.py:473-505 | a missing, null or blank fr/es gives no emit and no change; otherwise one `display_message` to everyone but the sender; only the history may change; a non-final message changes nothing; a final, persisted message with a timestamp appends exactly one entry, and any other message leaves the history as it was |
| Relay.RemoteCommand | app.py:508-543 | the flag becomes true (start) or false (stop); the emits are the command to the master iff one is registered, first, then the new state to control iff one is registered; nothing else is sent |
| Relay.UpdateRecognitionState | app.py:546-557 | the flag takes the reported value; at most one emit: the new state to control, iff it is registered |
| Relay.SyncViewerCount | app.py:437-470 | the master slot is kept iff its sid is among the participants; the count is the number of participants less one for a live master (control is not subtracted); only a live master is notified; nothing else changes |
| Relay.StartNewConversation | app.py:109-119 | after a successful create, the history is empty, the id is the new conversation's and `clear_screen` goes to everyone; after a failed create, nothing changes and nothing is sent |
| Relay.Statistics | app.py:298-316 | total is the number of participants; master fields mirror the slot; viewers are the total less one when a master is registered, floored at 0 |
| Relay.HandleSetsFlag | app.py:515-557 | only a start, a stop or a state report writes the recognition flag |
| Relay.LastWriterWins | app.py:515-557 | over any trace, the flag is the value of the latest start, stop or state report (or the initial value) |
| Relay.HandleAppends | app.py:485-505 | every event but a successful new conversation appends to the history exactly the line it keeps, and keeps the conversation id |
| Relay.HistoryAppendOnly | app.py:485-505 | within one conversation the history only grows, by exactly the kept translations in arrival order |
| Relay.LateJoinerReplay | app.py:399 | a page that joins after a trace is sent the initial history followed by every line kept since |
| Relay.FinalWithoutTimestampNotReplayed | app.py:496-505 | a final message without a `timestamp` key is broadcast but not added to the history |
| Relay.SyncAgreesWithStatistics | app.py:349-357 | after a reconciliation the statistics report the viewer count the reconciliation stored |
| Relay.ViewerVisitLeavesNoTrace | app.py:392-393 | a viewer that connects and then disconnects leaves the registry as it was |
| Relay.UnknownVisitLowersCount | app.py:417-421 | an unknown socket that connects and then disconnects lowers the count by one |
| Relay.DisplacedMasterCountsAsViewer | app.py:413-421 | after a second master displaces the first, the first one's disconnect lowers the viewer count by one and leaves the second master registered |
| Relay.RunAppend | app.py:370-557 | handling two traces in turn is handling their concatenation |
| Relay.NewConversationStartsAfresh | app.py:109-119 | after a successful new conversation, the history holds exactly the lines kept since, and the id is the new one |
| Relay.SessionKept | app.py:114 | the conversation id changes only when a new conversation is created |
| Relay.SyncCountsControl | app.py:457-459 | with master, control and one viewer connected, the reconciled count is 2 |
| Server.Hub.constructor | app.py:44-45 | the initial registry: no master, no control, no viewers, not listening, empty history, conversation 1 |
| Server.Hub.Connect | app.py:370-406 | updates the fields in place exactly as `Relay.Connect`, and returns its emits and the role |
| Server.Hub.Disconnect | app.py:409-428 | updates the fields in place exactly as `Relay.Disconnect`, and returns its emits |
| Server.Hub.NewTranslation | app.py:473-505 | updates the fields in place exactly as `Relay.NewTranslation`, and returns its emits |
| Server.Hub.RemoteStartRecognition | app.py:508-524 | updates the fields in place exactly as `Relay.RemoteCommand` with start, and returns its emits |
| Server.Hub.RemoteStopRecognition | app.py:527-543 | updates the fields in place exactly as `Relay.RemoteCommand` with stop, and returns its emits |
| Server.Hub.UpdateRecognitionState | app.py:546-557 | updates the fields in place exactly as `Relay.UpdateRecognitionState`, and returns its emits |
| Server.Hub.SyncViewerCount | app.py:437-470 | updates the fields in place exactly as `Relay.SyncViewerCount`, and returns the stored count and the emits |
| Server.Hub.StartNewConversation | app.py:109-119 | updates the fields in place exactly as `Relay.StartNewConversation`; returns success iff the create succeeded, and the current id |
| Server.Hub.GetSocketStatistics | app.py:298-316 | reads the registry only, and returns `Relay.Statistics` |
| Transcript.NonTemp | static/js/message-manager.js:46-47 | the rows left after deleting the temporary ones: exactly the non-temporary rows, in order |
| Transcript.NewRow | static/js/message-manager.js:54-63 | the appended row carries the message's fr and es, and is temporary iff `is_final` is not true (absent, null or false) |
| Transcript.Add | static/js/message-manager.js:41-69 | a missing or blank fr/es changes nothing; otherwise all temporary rows go and one row is appended, temporary iff the message is not final; the result has at most one temporary row, and it is last; non-temporary rows are never removed, and their number grows by one iff the message is final |
| Transcript.ReplayUnmarkedKeepsLast | static/js/message-manager.js:20-23 | replaying entries with no `is_final` leaves at most one row: the last acceptable entry, as a temporary row |
| Transcript.ReplayMarkedShowsAll | static/js/message-manager.js:41-69 | adding messages marked final to a page without temporary rows appends one settled row per acceptable message, in order |
| Transcript.AddMarkedToSettled | static/js/message-manager.js:41-69 | adding a final message to a page without temporary rows appends its settled row if the message passes the check, and otherwise changes nothing |
| Transcript.MessageManager.RemoveTemps | static/js/message-manager.js:46-47 | removes the temporary rows one at a time, in place, and leaves exactly `NonTemp` of the old rows |
| Transcript.MessageManager.AddMessage | static/js/message-manager.js:41-69 | the rows become `Transcript.Add` of the old rows |
| Transcript.MessageManager.LoadHistory | static/js/message-manager.js:17-23 | empties the page, then adds each entry as received: the rows are the replay of the entries |
| Transcript.MessageManager.LoadHistoryMarked | static/js/message-manager.js:17-23 | corrected listener: each entry is marked final before it is added, and the page shows one settled row per acceptable entry |
| Transcript.MessageManager.ClearScreen | static/js/message-manager.js:36-38 | the page is empty |
| TranscriptV02.SourceLanguage | static/js/message-manager-v0.2.js:70 | `source_language`, else `lang`, else "unknown", skipping absent, null and empty values |
| TranscriptV02.TimeOf | static/js/message-manager-v0.2.js:67-69 | the message's own timestamp when it has a non-empty one, else the "??:??" placeholder; never a blank cell |
| TranscriptV02.FrTime | static/js/message-manager-v0.2.js:71 | the French time cell shows the time iff the source language contains "fr" |
| TranscriptV02.EsTime | static/js/message-manager-v0.2.js:72 | the Spanish time cell shows the time iff the source language contains "es" |
| TranscriptV02.FirstTemp | static/js/message-manager-v0.2.js:74 | the position of the first temporary row, or the row count when there is none |
| TranscriptV02.FreshRow | static/js/message-manager-v0.2.js:47-62 | a row built by `_buildRowHtml` (appended at message-manager-v0.2.js:86-89 and 97-100): the message's fr and es, the given temporary flag, the French time cell shown iff the source language contains "fr" and the Spanish one iff it contains "es", each shown cell holding the message's time |
| TranscriptV02.Add | static/js/message-manager-v0.2.js:64-102 | a missing or blank fr/es changes nothing; otherwise only the first temporary row (or a new last row) is touched; it takes the new text and is temporary iff the message is not final; its time cells are rewritten except when an interim message updates an existing temporary row |
| TranscriptV02.AddKeepsWellPlaced | static/js/message-manager-v0.2.js:74-101 | at most one temporary row, and only in last position, is preserved; after a final message no row is temporary; a final message settles the last temporary row in place |
| TranscriptV02.ReplayKeepsWellPlaced | static/js/message-manager-v0.2.js:74-101 | any sequence of messages preserves "at most one temporary row, and it is last" |
| TranscriptV02.ReplayMarkedShowsAll | static/js/message-manager-v0.2.js:15-22 | adding messages marked final to a page without temporary rows appends one settled row per acceptable message, in order |
| TranscriptV02.MessageManager.AddMessage | static/js/message-manager-v0.2.js:64-102 | the rows become `TranscriptV02.Add` of the old rows |
| TranscriptV02.MessageManager.ClearConversation | static/js/message-manager-v0.2.js:36-38 | the page is empty |
| TranscriptV02.MessageManager.LoadHistory | static/js/message-manager-v0.2.js:15-22 | empties the page, marks each entry final and adds it: the page shows the acceptable entries in order, none temporary |
| Compare.PoliciesAgreeOnText | static/js/message-manager-v0.2.js:74-101 | while the temporary row is last, the two versions of `addMessage` give the same texts and temporary flags |
| Compare.PoliciesDifferOnTwoTempRows | static/js/message-manager.js:46-47 | with two temporary rows, v0.2 settles the first in place with the new text and keeps the second unchanged, while the message-manager.js version deletes both and appends one settled row |
| Compare.EntriesUnmarked | app.py:496-503 | history entries as sent to pages carry no `is_final` |
| Compare.LateJoinerSeesOnlyLastLine | static/js/message-manager.js:23 | a late joiner's message-manager.js page shows at most one line of the hub's history, as a temporary row |
| Compare.TwoLinesReplayedAsOne | static/js/message-manager.js:23 | a two-line history is shown as its second line alone, temporary |
| Compare.LateJoinerSeesWholeHistory | static/js/message-manager-v0.2.js:15-22 | with entries marked final, a late joiner sees one settled row per history entry, in order, with the entry's text |
| Compare.MarkedReplaysAgree | static/js/message-manager-v0.2.js:15-22 | with every message marked final, both versions show the same rows |
| Compare.ShownRowsAgree | static/js/message-manager-v0.2.js:85-90 | the settled rows both versions append for final messages carry the same texts |
| Compare.ShownRowsOfEntries | app.py:496-503 | the settled rows built from acceptable history entries are the entries' texts, in order |
| Compare.ByteOrderMarkKeptButNotShown | app.py:475 | a French line made only of U+FEFF passes the hub's check, is broadcast and kept, but no page shows it |

## Left out

- Authentication, session cookies and token signing: these are calls into foreign libraries.
- The Azure token fetch: an outbound HTTP call.
- The HTTP routes and template rendering.
- The startup hook that rebuilds `history` from the stored messages of the last conversation, ordered by timestamp (database.py:104-112), with the same four keys as `Relay.HistoryEntry`. A line stored without a timestamp gets the time of the write (app.py:99-101, 493), so the rebuilt order need not be the order of arrival. The model starts from `Relay.Initial`, or from any registry given to a lemma.
- The database (`add_message`, `create_conversation`): its outcome is a parameter. `persisted` says whether the write succeeded. `created` is the new conversation's id, or None when the call failed.
- `get_connected_sockets_count` and `sio.manager.get_participants`: the set of connected sids is a parameter. The reconciliation reads it twice; the model assumes both reads return the same set.
- Error paths in the reconciliation and the statistics (returning the stored count, or the zeroed dictionary): the transport's failures are not modelled.
- Failing emits: every `sio.emit` is assumed to succeed. When one raises in `disconnect`, the exception is logged (app.py:433-434). In `new_translation` the line is then not stored (app.py:482). In `start_new_conversation` the handler returns `(False, id)` after it has already cleared `history` and changed the id (app.py:114-118). The model covers none of these paths.
- Async scheduling and concurrency: handlers run one at a time. Each emit is an element of the returned sequence.
- `parse_iso` and the wall clock: timestamps are opaque strings. The statistics' `timestamp` field is left out of `Relay.Stats`.
- JSON keys other than `fr`, `es`, `lang`, `source_language`, `is_final` and `timestamp`. The hub copies them through; the model does not carry them.
- Values of the wrong JSON type: `fr`/`es` other than strings, and `is_final` other than a boolean or null. `is_final` counts as true only when it is the boolean true.
- The WSGI `environ` of a connect: only its referer header is kept, as a string that is "" when the header is absent.
- In the pages: the DOM, HTML building, scrolling, `requestAnimationFrame` and the `toLocaleTimeString` formatting. A time cell keeps the timestamp string itself.
- The `display_message` listener of both pages is `addMessage` itself (`AddMessage`).
- `update_recognition_state` stores whatever it is sent. The model only takes a boolean.

## Findings

| source | as written | input that shows it | evidently intended | confidence | as-written member | corrected member |
|---|---|---|---|---|---|---|
| static/js/message-manager.js:23 | the `load_history` listener adds each entry unchanged. The hub's entries (app.py:496-503) have no `is_final` key, so each entry is an interim message that deletes the previous entry's temporary row | history `[{fr: "Bonjour", es: "Hola", …}, {fr: "Merci", es: "Gracias", …}]` shows only "Merci / Gracias", as a temporary row | each entry is shown as a settled row, in order, as the v0.2 listener does by setting `is_final = true` (message-manager-v0.2.js:19) | medium; not executed | Compare.TwoLinesReplayedAsOne | Transcript.MessageManager.LoadHistoryMarked |
