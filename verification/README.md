# A verified model of the Huxley chat system

Huxley is a one-to-one chat system. Clients speak to a C++ server over a TCP stream. Every message on the wire is a frame: a 4-byte big-endian length, then that many bytes of compact JSON. Commands go out as `{"type": "LOGIN", ...}`. The server answers each one with a response object. It also pushes `incoming_message` notifications on the same connection. The Python clients merge those pushes with paged history fetches into one deduplicated, sorted and bounded log per peer.

This project models the core of both sides in Dafny and proves properties of the model:

- **Python clients.**
  - The conversation store: timestamp normalisation, the `better` tie-break, grouping by id or by participants and content, the fallback pops, the stable sort and the clip.
  - The framing client: `ProtocolClient` / `MessageClient` with the loop that tells notifications from replies.
  - The Qt worker session (`ChatSession`).
  - The curses client (`CursesChatApp` in `tui_app.py`, with its copy in `client.py`).
- **C++ command-line client.** Framing, reply classification and `/send` parsing.
- **Qt client.** `ProtocolClient` (chunked deframing), `MessageService` (response routing), `ClientController` and the contact and chat list models, with the proxy's filter and order.
- **Server.**
  - The worker thread's frame loop, command processing, write flushing and closing.
  - The protocol handler.
  - The client state.
  - The message router and offline delivery.
  - The authentication manager.
  - The status LED manager.
  - The listener's round-robin dispatch.

Each source component is one Dafny module in its own file:

- Code that is pure computation is modelled as datatypes, functions and lemmas.
- An object that updates its fields is a `class`. Each of its methods states the new state exactly. Where the source loops, the method has a `while` loop proved against a specification function.
- The curses client and the Qt session are classes over a value-level transition model (`TuiModel`, `QtSession`). The properties are proved as lemmas about that model (`TuiFacts`).
- `client.py` repeats `tui_app.py`'s store, protocol client and curses client, with the same refresh intervals (5.0 s and 4.0 s, `client.py:620-621`, `tui_app.py:163-164`). The model covers both copies. Where they differ in `_mark_read`, a `Variant` parameter selects the behaviour. The cited lines are those of `tui_app.py`.

How the outside world is modelled:

- **Sockets.** What a socket delivers is a sequence of chunks or receive results. What it is sent is a byte or string log.
- **Time.** Clocks are integer parameters.
- **Signals.** Qt signals become an event log.
- **Libraries.** The JSON codec, timestamp parsing, password hashing, encryption and the database are function-valued parameters. The model never re-implements them.

Facts of the code that the model keeps as they are:

- `client.cpp` writes each frame with two `::send` calls whose results it never reads (`client/client.cpp:92-94`). A partial send is therefore not retried.
- `client.cpp` tells notifications from replies by comparing `type` with `==` against lower-case names (`client/client.cpp:202-214`), and checks for `"ERROR"` the same way (`client/client.cpp:303`). Case is never folded on that side.
- Reconciling a stored conversation again changes nothing once its timestamps are fixed points of `_normalize_timestamp` (`client/store.py:74-128`, `Conversations.ReconcileIdempotent`). Normalisation leaves a timestamp unchanged exactly when it has no `T`, no `.`, no trailing `Z` and no surrounding whitespace (`Conversations.NormalizeFixedPoint`). `_normalize_timestamp` strips at most one trailing `Z` per call (`client/store.py:17-26`), so a stored `<t>Z` becomes `<t>` on the next pass (`Conversations.NormalizeStripsOneZ`).
- Merging the same history twice need not give what merging it once gives. Take two entries with distinct ids and one sort key, and `max_buffer` 1. The first merge keeps the later entry. The second merge puts the stored copy of it first, so after the stable sort and the clip the earlier entry is kept (`Conversations.MergeTwiceCanDiffer`).
- The protocol handler recognises `LIST_USERS`, `LIST_ONLINE` and `GET_HISTORY` (`src/ProtocolHandler.cpp:32-37`). The server's `processCommand` has no case for them, so its `default` branch answers all three with "Unknown command" (`src/WorkerThread.cpp:476-481`, `WorkerSessions.UnservedCommands`).

## Model

| member | source | states |
|---|---|---|
| Json.Get | client/protocol.py:13-19 | a lookup finds a value exactly when the key is present, and it is that key's value |
| Json.GetStr | client/protocol.py:13-19 | the string under a key exists exactly when the key holds a string |
| Dicts.IndexOf | client/store.py:90-107 | the position of the first pair with the key, or none when no pair has it |
| Dicts.Lookup | client/store.py:99-107 | `d.get(k)` finds a value exactly when the key is present, and in a dict with unique keys it is that key's value |
| Dicts.Assign | client/store.py:99-107 | `d[k] = v` keeps the size for a present key and appends the pair for a new one |
| Dicts.AssignFacts | client/store.py:99-107 | `d[k] = v` holds the new pair, keeps every other pair, adds no other key and keeps the keys unique |
| Dicts.LookupAssignSame | client/store.py:99-107 | after `d[k] = v`, `d.get(k)` is v |
| Dicts.LookupAssignOther | client/store.py:99-107 | after `d[k] = v`, every other key reads as before |
| Dicts.PopFacts | client/store.py:109-112 | `d.pop(k, None)` keeps every pair with another key, adds none and leaves no pair with key k |
| Dicts.PopAllFacts | client/store.py:109-112 | after popping a list of keys, what is left is exactly the pairs whose key is not in the list |
| Dicts.PopAllLoop | client/store.py:109-112 | the pop loop leaves exactly PopAll |
| Dicts.Values | client/store.py:114 | `list(d.values())` lists the values in insertion order |
| Dicts.Pop | client/store.py:109-112 | `d.pop(k, None)` on an insertion-ordered dict (PopFacts) |
| Dicts.PopAll | client/store.py:109-112 | the keys popped one after another (PopAllFacts) |
| Conversations.NormalizeClean | client/store.py:16-26 | a normalised timestamp holds no "T" and no ".", and is no longer than the stripped input |
| Conversations.NormalizeTimestamp | client/store.py:16-26 | a value that is not a string normalises to ""; the result never holds "T" or "." |
| Conversations.NormalizeFixedPoint | client/store.py:16-26 | normalisation leaves a timestamp alone exactly when it has no "T", no ".", no trailing "Z" and no surrounding whitespace |
| Conversations.NormalizeIso | client/store.py:16-26 | "<date>T<time>Z" becomes "<date> <time>" |
| Conversations.NormalizeIsoFraction | client/store.py:16-26 | fractional seconds are cut: "<date>T<time>.<fraction>Z" becomes "<date> <time>" |
| Conversations.NormalizeStripsOneZ | client/store.py:16-26 | each pass removes only one trailing "Z", so "<t>ZZ" needs two passes to settle |
| Conversations.Better | client/store.py:79-88 | the kept copy is one of the two arguments |
| Conversations.BetterPrefers | client/store.py:79-88 | the higher timestamp score wins, so an empty or unparseable timestamp (scored +inf) beats a parseable one; on equal scores the longer timestamp wins, and on equal lengths the first copy stays |
| Conversations.BetterIsMax | client/store.py:79-88 | better keeps its first argument unless the second strictly outranks it |
| Conversations.RankLessIrreflexive | client/store.py:79-88 | no copy outranks itself |
| Conversations.RankLessAsymmetric | client/store.py:79-88 | two copies never outrank each other |
| Conversations.RankLeLess | client/store.py:79-88 | a copy no better than one that is outranked is outranked too |
| Conversations.FallbackKeyParticipants | client/store.py:28-36 | the participants key holds exactly the sender and the recipient, the smaller first, with the stripped content |
| Conversations.FallbackKeyIgnoresDirection | client/store.py:28-36 | a message and its reverse-direction twin share the participants key |
| Conversations.AbsorbFacts | client/store.py:90-107 | one pass of the first loop keeps both dicts well formed and adds only the new message |
| Conversations.CollectFacts | client/store.py:90-107 | after the first loop both dicts are well formed and hold only renormalised inputs |
| Conversations.MergeApart | client/store.py:109-113 | after the pops no two merged entries clash: entries with ids differ in id, and no id-less entry shares its participants key with another |
| Conversations.MergedFacts | client/store.py:90-113 | the merged entries are pairwise apart and all come from the input |
| Conversations.ClipFacts | client/store.py:124-125 | a list within the buffer is kept; a longer one keeps its last max_buffer entries; 0 keeps everything, and a negative bound drops the first entries as a Python slice does |
| Conversations.ReconcileWellFormed | client/store.py:74-128 | the stored conversation holds no clashing entries (distinct ids; an id-less entry shares its participants key with no other), is sorted by (normalised timestamp, from, to, content) and, for a positive bound, holds at most max_buffer entries |
| Conversations.ReconcileFromInputs | client/store.py:74-128 | deduplication invents nothing: every stored entry is an input entry with its timestamp normalised once more |
| Conversations.CollectBest | client/store.py:90-107 | after the first loop the entry for an id exists exactly when some input carries it, and it is the copy better keeps |
| Conversations.ReconcileInMerged | client/store.py:109-125 | everything stored was among the merged entries |
| Conversations.ReconcileKeepsBest | client/store.py:74-128 | a stored entry with an id is the copy no other copy with that id outranks, and every earlier copy ranks below it |
| Conversations.SurvivorsKeepIds | client/store.py:90-123 | before clipping no id is lost: every input id has a survivor |
| Conversations.Normalize | client/store.py:16-26 | strip, drop one trailing Z, replace T by a space, cut at the first "." (NormalizeClean, NormalizeFixedPoint) |
| Conversations.Clip | client/store.py:124-125 | `lst[-max_buffer:]` when the list is longer than the buffer (ClipFacts) |
| Conversations.Reconcile | client/store.py:74-128 | `_dedupe_and_clip`: the survivors of deduplication, sorted and clipped (ReconcileWellFormed, ReconcileFromInputs, ReconcileKeepsBest) |
| Conversations.ReconcileStable | client/store.py:74-128 | a list that is already reconciled (no clashes, sorted, within the bound) and whose timestamps are normal comes back from `_dedupe_and_clip` unchanged: each entry is filed once, nothing is popped, the id part and the id-less part never tie, and the stable sort restores the order |
| Conversations.ReconcileIdempotent | client/store.py:74-128 | for a non-negative bound, reconciling the stored result again gives it back whenever its timestamps are normal |
| Conversations.CollectStored | client/store.py:90-107 | on a list without clashes and with normal timestamps the first loop files every entry with an id under it and every other entry under its participants key, in order |
| Conversations.MergeStored | client/store.py:109-114 | on such a list the pop removes nothing, so the merged list is the entries with ids followed by those without |
| Conversations.MergeTwiceCanDiffer | client/store.py:74-128 | two entries with distinct ids and one sort key, bound 1: the first reconcile keeps the later one, and reconciling its result with the same two entries again keeps the earlier one |
| StableSort.KeyLessTransitive | client/store.py:115-123 | the tuple order on (timestamp, from, to, content) keys is transitive |
| StableSort.KeyLessTotal | client/store.py:115-123 | any two distinct keys are ordered one way or the other |
| StableSort.KeyLeAntisymmetric | client/store.py:115-123 | keys that are each at most the other are equal |
| StableSort.InsertPermutes | client/store.py:115-123 | inserting an element into a list adds exactly that element and loses none |
| StableSort.InsertSorted | client/store.py:115-123 | inserting into a list ordered by key leaves it ordered by key |
| StableSort.SortPermutes | client/store.py:115-123 | `sorted` returns a permutation of its input |
| StableSort.SortSorted | client/store.py:115-123 | `sorted` returns its input ordered by key |
| StableSort.SortPairwise | client/store.py:115-123 | any symmetric relation that holds between every two elements of the input still holds after sorting (the deduplication survives the sort) |
| StableSort.SortSplit | client/store.py:114-123 | `sorted` is stable: a sorted list split into the elements that satisfy a test and those that do not, where no two elements from different parts have the same key, sorts back to itself |
| ConversationStore.FromHistoryDefaults | client/store.py:62-68 | a history entry keeps its id; a missing from or to becomes "?", missing content "", a missing timestamp ""; present fields are kept |
| ConversationStore.FromHistoryLoop | client/store.py:60-68 | the loop fills in the defaults of every entry, in order |
| ConversationStore.GroupLoop | client/store.py:90-107 | the grouping loop builds exactly the by-id and fallback tables of the reference grouping |
| ConversationStore.ReconcileLoop | client/store.py:74-125 | deduplicating, sorting and clipping in steps gives the reference reconciliation |
| ConversationStore.Store.constructor | client/store.py:11-14 | a new store keeps its max buffer and holds no conversation |
| ConversationStore.Store.Get | client/store.py:47-50 | no peer, an empty peer or an unknown peer gives an empty list; otherwise the peer's stored list |
| ConversationStore.Store.DedupeAndClip | client/store.py:74-128 | an empty conversation is left alone and reported unchanged; otherwise it is replaced by its reconciliation (no two messages alike, sorted by key, at most max_buffer long), only that peer changes, and "changed" says whether the list differs |
| ConversationStore.Store.Replace | client/store.py:71 | the peer's list becomes the given one and no other peer changes |
| ConversationStore.Store.Append | client/store.py:52-57 | the peer's list becomes the reconciliation of the old list plus the message with its timestamp normalised; every stored list stays reconciled; the result says whether deduplication changed the appended list |
| ConversationStore.Store.MergeHistory | client/store.py:59-72 | the peer's list becomes the reconciliation of the old list plus the history entries with defaults filled in (an empty result is still stored); every stored list stays reconciled |
| ConversationStore.MergedHistoryStable | client/store.py:59-72 | after a history merge whose stored timestamps are normal, running `_dedupe_and_clip` again changes nothing |
| ConversationStore.MergeEmptyHistoryKeeps | client/store.py:59-72 | merging an empty history into a stored conversation with normal timestamps leaves it as it is |
| PyProtocol.ExtractCommand | client/protocol.py:13-19 | a command name exists exactly when "type" or "command" is a non-empty string; "type" wins, and the name is stripped and lower-cased |
| PyProtocol.ParseError | client/protocol.py:69-72 | the object standing for a body that is not JSON has type "ERROR", code 400 and no "success" |
| PyProtocol.FrameBytes | client/protocol.py:51-56 | a frame is a 4-byte big-endian header holding the body's length, followed by exactly the body |
| PyProtocol.ReadFrame | client/protocol.py:58-72 | a frame read consumes at least its header and never more than is there |
| PyProtocol.ReadSentFrame | client/protocol.py:51-72 | reading what send_command wrote gives {} for an empty body, the decoded object for JSON, the error object otherwise, and leaves the bytes after the frame alone |
| PyProtocol.AwaitResponse | client/protocol.py:133-143 | the wait never consumes more than is there, and reads the whole stream when no reply comes |
| PyProtocol.AwaitStep | client/protocol.py:133-143 | a notification is set aside and the wait goes on after its frame; any other frame is the reply |
| PyProtocol.AwaitEnds | client/protocol.py:133-143 | a stream that ends before a complete frame ends the wait with no reply |
| PyProtocol.AwaitContinues | client/protocol.py:138-142 | the loop's step over a notification keeps the wait's invariant |
| PyProtocol.AwaitReturns | client/protocol.py:138-142 | the first frame that is not a notification is returned |
| PyProtocol.AwaitSplitsFrames | client/protocol.py:133-143 | every frame set aside is a notification; a reply returned is the first frame that is not one, after exactly the frames set aside; when the stream ends first every frame was a notification |
| PyProtocol.AwaitAfterNotifications | client/protocol.py:133-143 | a reply sent after a notification is the one returned, with the notification set aside |
| PyProtocol.ProtocolClient.constructor | client/protocol.py:25-27 | a new client is not connected and has no traffic |
| PyProtocol.ProtocolClient.Connect | client/protocol.py:29-31 | the client is connected to a new socket with the given incoming chunks and nothing written |
| PyProtocol.ProtocolClient.Close | client/protocol.py:33-38 | the client is no longer connected and the traffic is kept; closing twice is harmless |
| PyProtocol.ProtocolClient.SendCommand | client/protocol.py:40-56 | not connected: raises "ProtocolClient is not connected"; a body of 2^32 bytes or more fails in struct.pack; otherwise exactly FrameBytes of the dumped payload is written |
| PyProtocol.ProtocolClient.Recv | client/protocol.py:74-82 | at most n bytes, in stream order, and empty only at end of stream |
| PyProtocol.ProtocolClient.RecvExact | client/protocol.py:74-82 | exactly the next count bytes however they are chunked, or None once the stream ends first |
| PyProtocol.ProtocolClient.RecvResponse | client/protocol.py:58-72 | not connected: raises; otherwise exactly what ReadFrame reads, which consumes exactly its bytes, or None when the stream ends first |
| PyProtocol.MessageClient.constructor | client/protocol.py:86-89 | a new message client has handled nothing and no user is logged in |
| PyProtocol.MessageClient.ReadUntilResponse | client/protocol.py:133-143 | reads frames until one is not a notification or the stream ends: returns AwaitResponse's reply and its notifications in order, consuming exactly the bytes it used |
| PyProtocol.MessageClient.RecvCommandResponse | client/protocol.py:133-143 | returns exactly AwaitResponse's reply, consumes exactly its bytes, and hands the handler every notification in order |
| PyProtocol.MessageClient.Call | client/protocol.py:93-131 | a send that raises reads nothing; otherwise the frame is written and the reply is AwaitResponse's |
| PyProtocol.MessageClient.Register | client/protocol.py:93-95 | a REGISTER request with the name and password is sent and its reply returned; the logged-in user does not change |
| PyProtocol.MessageClient.Login | client/protocol.py:97-102 | the user is recorded exactly when the reply succeeds; otherwise the logged-in user stays as it was |
| PyProtocol.MessageClient.Logout | client/protocol.py:104-109 | the user is cleared exactly when the reply succeeds |
| PyProtocol.MessageClient.SendMessage | client/protocol.py:111-116 | refused with "You must /login before sending messages" and nothing sent unless a user is logged in; otherwise a SEND_MESSAGE with the given timestamp is sent and its reply returned |
| PyProtocol.MessageClient.SendMessageNow | client/client.py:157-164 | the client.py copy stamps the message with the current UTC time and "Z", and is refused the same way |
| PyProtocol.MessageClient.ListUsers | client/protocol.py:118-120 | a LIST_USERS request is sent and its reply returned |
| PyProtocol.MessageClient.ListOnline | client/protocol.py:122-124 | a LIST_ONLINE request is sent and its reply returned |
| PyProtocol.MessageClient.GetHistory | client/protocol.py:126-131 | an empty peer is refused with "Peer username is required" before anything is sent; otherwise a GET_HISTORY with peer, limit and offset is sent and its reply returned |
| QtSession.BaseCommand | client/qt_session.py:155 | a name ending in "_response" loses exactly that suffix; any other stays as it is |
| QtSession.ReplyText | client/qt_session.py:81-91 | no reply or an empty one reads "No response"; otherwise the reply's message, or the default when it has none |
| QtSession.HistoryPeer | client/qt_session.py:207-210 | a non-empty string "with" wins, else the selected peer when non-empty; an empty peer is never chosen |
| QtSession.IncomingMessage | client/qt_session.py:177-189 | the stored message takes the sender ("?" when absent), the logged-in user as recipient, and the message's own timestamp or, without one, the current time |
| QtSession.Bumped | client/qt_session.py:185 | the peer's unread count goes up by one from 0 or its old value; no other count changes and no other peer is added |
| QtSession.RouteOf | client/qt_session.py:153-168 | incoming messages go to the incoming route, a list_users or get_history base command (also as _response) to its handler, anything else to the failure check |
| QtSession.ListUsersReplyReachesUsersRoute | client/qt_session.py:160-163 | a pushed list_users_response reaches the users route, whose handler the class never defines |
| QtSession.NoteJobs | client/qt_session.py:184-189 | the history requests a round trip's notifications queue are never more than the notifications and all name the selected peer |
| QtSession.NoteUnreadCounts | client/qt_session.py:184-186 | after a round trip's notifications, a peer that is not selected has its old count (0 if none) plus one per incoming message it sent; the selected peer's count is untouched |
| QtSession.AsyncAllEffects | client/qt_session.py:170-189 | handling a round trip's notifications in order appends exactly NoteJobs to the queue, leaves NoteUnread as the unread counts, and only appends signals |
| QtSession.AsyncAllQuiet | client/qt_session.py:170-175 | notifications without an incoming message leave the conversations, unread counts and queue alone and add only error signals |
| QtSession.FollowUp | client/qt_session.py:113-119 | a job leaves at most one follow-up, and only a history request for the selected peer |
| QtSession.JobError | client/qt_session.py:74-78 | an empty history peer and a send while logged out give the refusals' own messages; a job raises nothing exactly when it passes those checks and its transport returns, and a transport failure reports the transport's message |
| QtSession.JobQueued | client/qt_session.py:74-78 | everything one drained job leaves queued is a history request for the selected peer |
| QtSession.FollowUps | client/qt_session.py:68-78 | the follow-ups of a drained batch are history requests for the selected peer only, and there are none without a selected peer |
| QtSession.DrainKeepsSelectedUnread | client/qt_session.py:68-78 | no drained job changes the selected peer's unread count |
| QtSession.PollStop | client/qt_session.py:133-142 | polling as written dispatches every frame before the stop point, and the stop point is the first end of stream or list_users reply |
| QtSession.FirstEnd | client/qt_session.py:133-141 | with every dispatch returning, polling stops at the first end of stream |
| QtSession.UsersReplyStopsPolling | client/qt_session.py:160-163 | a pushed list_users reply stops polling as written at that frame, while with the users route handled the poll goes past it |
| QtSession.ChatSession.constructor | client/qt_session.py:30-46 | the history limit is at least 1, the store holds at most max(4 × limit, 200) messages per peer, the session runs with no peer, no user, no unread counts and an empty command queue |
| QtSession.ChatSession.ConnectSocket | client/qt_session.py:48-54 | true and connected exactly when connect raised nothing; a failure emits "Connect failed: " and the reason |
| QtSession.ChatSession.Stop | client/qt_session.py:56-59 | the session stops running; nothing else changes |
| QtSession.ChatSession.Register | client/qt_session.py:81-85 | the notifications that arrive before the reply are handled first; a transport exception goes to the caller with no result signal; otherwise one registration_result with the reply's success and its text ("Registration failed" by default) |
| QtSession.ChatSession.Login | client/qt_session.py:87-93 | after the notifications, a raise goes to the caller; the name is recorded only on success; a login_result is emitted, followed by "Logged in" on success |
| QtSession.ChatSession.Logout | client/qt_session.py:95-99 | after the notifications, a raise goes to the caller; the name is forgotten and "Logged out" shown only on success |
| QtSession.ChatSession.SelectPeer | client/qt_session.py:101-105 | the peer is selected, its unread count set to 0 and emitted, and one history request queued |
| QtSession.ChatSession.SendMessage | client/qt_session.py:107-111 | whitespace-only content is ignored; otherwise one send job with the UTC stamp is queued |
| QtSession.ChatSession.SendMessageInternal | client/qt_session.py:113-122 | a confirmed send stores the local echo, re-emits the conversation and re-requests the history of a peer on screen; a refused one stores nothing and reports the reply's text ("Send failed" by default) |
| QtSession.ChatSession.SendRound | client/qt_session.py:113-122 | the notifications are handled before the reply; a transport exception stores no echo and goes to the caller; a confirmed send stores the echo after the notifications' messages, a refused one reports the reply's text |
| QtSession.ChatSession.NoteStored | client/qt_session.py:117-119 | the conversation is re-emitted, and a peer on screen gets its history re-requested |
| QtSession.ChatSession.HandleHistory | client/qt_session.py:204-212 | the effects are those of HistoryStep: without a successful reply or a peer nothing happens; otherwise the server's messages are merged into the peer's conversation and it is re-emitted |
| QtSession.ChatSession.RequestHistoryInternal | client/qt_session.py:199-212 | the history refresh time is now; a failed reply changes nothing else, a successful one merges the server's messages into the peer's conversation and re-emits it |
| QtSession.ChatSession.HistoryRound | client/qt_session.py:199-212 | the notifications come first; the refresh time is stamped only when the reply arrives; a raise leaves the history unmerged and goes to the caller; a reply is merged as HandleHistory merges it |
| QtSession.ChatSession.RefreshUsers | client/qt_session.py:191-197 | the users list is emitted only for a successful reply |
| QtSession.ChatSession.UsersRound | client/qt_session.py:191-197 | the notifications come first; the users list is emitted only for a successful reply; a raise goes to the caller |
| QtSession.ChatSession.HandleIncoming | client/qt_session.py:177-189 | the effects are those of IncomingStep: the message is stored in the sender's conversation; a peer not selected gets one more unread, a selected one a history request |
| QtSession.ChatSession.NoteIncoming | client/qt_session.py:184-189 | after storing, an unselected peer's unread count goes up and is emitted, a selected peer's history is requested |
| QtSession.ChatSession.HandleAsync | client/qt_session.py:170-175 | the conversations, unread counts, queue and signals become those of AsyncStep: an incoming message is stored and counted or re-requested, a timeout emits its message ("Timeout" by default), anything else changes nothing |
| QtSession.ChatSession.HandleNotes | client/qt_session.py:170-175 | a round trip's notifications are handled one by one in arrival order, leaving what AsyncAll states |
| QtSession.ChatSession.DispatchResponse | client/qt_session.py:153-168 | as written, the conversations, unread counts, queue and signals become those of DispatchStep without a users handler: an incoming message is handled as HandleIncoming handles it, a history reply merged as HandleHistory merges it; the users route raises AttributeError with no event and no stored message; every other route returns, and the failure check reports the message ("Command failed" by default) only when "success" is present and falsy |
| QtSession.ChatSession.DispatchResponseFixed | client/qt_session.py:153-168 | the effects are those of DispatchStep with a users reply emitted as `_refresh_users` would emit it; every route returns and the failure check behaves as written |
| QtSession.ChatSession.PollSocket | client/qt_session.py:129-142 | as written: without a socket nothing changes; otherwise the frames up to PollStop are read and the effects are PollAll over exactly those frames; a list_users reply there raises out of the poll, an end of stream there stops the session, and otherwise it keeps running; the refresh times are untouched |
| QtSession.ChatSession.PollReady | client/qt_session.py:133-142 | the loop reads exactly the frames up to and including the stop point, its effects are the fold PollAll of PollStep over them, and it raises exactly when the stop point is a frame |
| QtSession.ChatSession.PollFrame | client/qt_session.py:133-142 | one pass has the effects of PollStep: end of stream emits Disconnected and stops the session, a frame is dispatched as DispatchResponse dispatches it; the pass ends exactly on end of stream or on a dispatch that raises |
| QtSession.ChatSession.PollSocketFixed | client/qt_session.py:129-142 | with every dispatch returning, the frames are read up to the first end of stream, which stops the session, and the effects are PollAll over those frames with the users route handled |
| QtSession.ChatSession.PollFrameFixed | client/qt_session.py:133-142 | one pass has the effects of PollStep with the users route handled, and ends exactly on end of stream, which stops the session |
| QtSession.ChatSession.PeriodicRefresh | client/qt_session.py:144-151 | the users refresh time moves to now exactly when 2.5 s have passed; a users exception skips the history refresh; the history refresh time moves exactly when a peer is selected and 1.5 s have passed; an exception from either request goes to the caller; before either is due nothing is emitted or stored |
| QtSession.ChatSession.RunJob | client/qt_session.py:74-78 | the queue gains only the job's notification and send follow-ups; a job its checks refuse makes no round trip; a job that raises reports "Command failed: " and its message |
| QtSession.ChatSession.JobRound | client/qt_session.py:74-78 | a job that passed its checks queues its notifications' history requests and then its follow-up; a transport exception leaves only the notifications' effects |
| QtSession.ChatSession.DrainCommands | client/qt_session.py:68-78 | the whole queue is taken at once and run in order, whatever each job does, leaving only what the jobs enqueued |
| QtSession.ChatSession.RunNext | client/qt_session.py:74-78 | one pass runs the next job and keeps only what it queued |
| QtSession.ChatSession.Pass | client/qt_session.py:61-65 | a pass drains the whole queue, leaving FollowUps queued and DrainUnread counts; the poll then has the effects of PollAll over the frames up to PollStop, from the drained state, and raises exactly when the stop point is a frame; a poll exception is the pass's result and leaves the state as the poll left it, with the users refresh time unchanged; otherwise the users refresh time moves to now exactly when it is due, a users exception then makes the pass raise, and a pass raises only through one of the three; a pass never restarts a stopped session |
| QtSession.ChatSession.Run | client/qt_session.py:61-66 | a stopped session makes no pass; passes continue until the session stops or the input ends; every pass but the last returned, and the last pass's result is run's, so the first exception out of a pass ends run |
| QtSession.ChatSession.HandleNext | client/qt_session.py:170-175 | one more notification handled leaves AsyncAll of one more notification and keeps the session fields other than the unread counts and the queue |
| QtSession.ChatSession.PollNext | client/qt_session.py:133-142 | one pass of the loop as written extends the PollAll fold by one frame and stops exactly at PollStop |
| QtSession.ChatSession.PollNextFixed | client/qt_session.py:133-141 | one pass with every dispatch returning extends the fold by one frame and stops exactly at the first end of stream |
| QtSession.Sent | client/qt_session.py:133-142 | the responses a poll dispatches are never more than the frames read |
| QtSession.PollRead | client/qt_session.py:133-142 | the frames read as written are at most those ready: the stop point and the frame there, if any |
| QtSession.FixedRead | client/qt_session.py:133-141 | with every dispatch returning, the frames read are at most those ready |
| QtSession.IncomingRoute | client/qt_session.py:153-158 | a response goes to the incoming route exactly when it is an incoming message |
| QtSession.IncomingStepEffects | client/qt_session.py:177-189 | an incoming message queues a history request exactly when its sender is selected, bumps its sender's unread count exactly when not, and only appends signals |
| QtSession.HistoryStepKeeps | client/qt_session.py:204-212 | merging a history reply leaves the queue and unread counts alone and only appends signals |
| QtSession.PollStepEffects | client/qt_session.py:133-168 | one frame read changes the queue and unread counts only when it is an incoming message, as IncomingStepEffects states, on every route and with or without a users handler; signals are only appended |
| QtSession.PollAllEffects | client/qt_session.py:133-189 | polling a run of frames appends exactly NoteJobs of the dispatched responses to the queue, leaves NoteUnread of them as the unread counts, and only appends signals |
| QtSession.PollAgreesBeforeStop | client/qt_session.py:133-168 | before the stop point the as-written and the handled poll have the same effects, so the two differ only from the list_users reply on |
| QtSession.PollAllSnoc | client/qt_session.py:133-142 | reading one more frame applies PollStep once more to the fold |
| QtSession.PollAgreesWithoutUsers | client/qt_session.py:153-168 | frames with no list_users reply among them have the same effects whether or not the users route is handled |
| Text.TrimLeftFacts | client/store.py:20 | trimming on the left drops only whitespace and keeps a suffix that starts with a non-space |
| Text.TrimRightFacts | client/store.py:20 | trimming on the right drops only whitespace and keeps a prefix that ends with a non-space |
| Text.StripEnds | client/protocol.py:18 | a stripped string has no whitespace at either end |
| Text.StripIsSlice | client/protocol.py:18 | stripping yields a contiguous piece of the input |
| Text.StripFixed | client/qt_session.py:108 | a string with no whitespace at either end strips to itself |
| Text.LowerAt | client/protocol.py:18 | lower-casing maps each character on its own: A-Z to a-z, anything else unchanged |
| Text.LowerFixed | client/protocol.py:18 | a string without upper-case letters is its own lower case |
| Text.UpperAt | src/ProtocolHandler.cpp:19-22 | upper-casing maps each character on its own: a-z to A-Z, anything else unchanged |
| Text.UpperIgnoresCase | src/ProtocolHandler.cpp:19-22 | a string and its lower case upper-case alike, so the command type is matched ignoring case |
| Text.ReplaceCharAt | client/store.py:23 | replacing a character rewrites exactly its occurrences |
| Text.ReplaceCharRemoves | client/store.py:23 | after replacing "T" by " " no "T" is left |
| Text.BeforeFirst | client/store.py:25 | `split(".", 1)[0]` is the longest prefix without ".", and when shorter than the string it stops at a "." |
| Text.Find | client/client.cpp:272 | `find` gives the first position where the pattern occurs, or none when it occurs nowhere |
| Text.StrLessTransitive | client/store.py:34 | string comparison is a strict order: transitive (with irreflexive, asymmetric and total alongside) |
| Text.StrLessTotal | client/store.py:34 | any two distinct strings are ordered one way or the other |
| Text.SortedPairSymmetric | client/store.py:34 | `sorted([a, b])` does not depend on the order of a and b |
| Text.Strip | client/store.py:20 | Python's `strip()` on the ASCII whitespace; never longer than its input (StripEnds, StripIsSlice) |
| Text.Lower | client/protocol.py:18 | `lower()` on ASCII letters; the length is kept (LowerAt) |
| Text.Upper | src/ProtocolHandler.cpp:19-22 | `std::toupper` on each character; the length is kept (UpperAt) |
| Wire.EncodeU32BE | client/protocol.py:53 | a length header is 4 bytes, most significant byte first |
| Wire.DecodeEncode | client/protocol.py:53-62 | reading back a written header gives the original length |
| Wire.EncodeDecode | client/protocol.py:53-62 | every 4-byte header is the encoding of the length it reads as |
| Wire.DecodePrefix | src/WorkerThread.cpp:342-350 | only the first four bytes of the buffer decide the length read |
| Wire.WriteU32BE | src/net/ProtocolClient.cpp:16-21 | writeU32BE appends 4 bytes to what was there, and they read back as the length |
| Wire.TruncU32 | client/client.cpp:88 | the length cast to 32 bits is the size itself whenever the size fits |
| TuiModel.DictsOf | client/tui_app.py:390-391 | iterating the "users" list with `.get` succeeds exactly when every item is a dict, giving those dicts in order; a null, boolean or number raises "not iterable" |
| TuiModel.PayloadDict | client/tui_app.py:389 | a missing payload reads as {}; a dict payload is itself; a truthy payload that is not a dict raises |
| TuiModel.OtherUsers | client/tui_app.py:391 | the listed users are exactly the received ones whose name is not the session's own, in order |
| TuiModel.ClearError | client/tui_app.py:707-711 | the error box is gone and no longer modal; the status line is blanked only while logged out |
| TuiModel.Request | client/tui_app.py:316-322 | a request goes out unless its handler would be a second one waiting for the same command; then nothing changes; a sent request with a handler leaves exactly that handler waiting, and no other command's handlers change |
| TuiFacts.RequestKeepsPendingOk | client/tui_app.py:316-322 | sending a request never lets two handlers wait for one command, each filed under its own command |
| TuiFacts.HandlerFaultChangesNothing | client/tui_app.py:356-359 | a handler that raises leaves the state as it found it, apart from the status the dispatcher then writes |
| TuiFacts.RunHandlerKeepsPendingOk | client/tui_app.py:384-421 | running any handler keeps at most one handler waiting per command |
| TuiFacts.DispatchKeepsPendingOk | client/tui_app.py:348-367 | dispatching any frame keeps at most one handler waiting per command |
| TuiFacts.RunHandlerOutbox | client/tui_app.py:384-421 | only the users handler sends anything, and then only a history request; no other command's waiting handlers change |
| TuiFacts.DispatchPopsOldest | client/tui_app.py:354-362 | a frame for a command with a waiting handler consumes the oldest one, whatever the handler does |
| TuiFacts.IncomingKeepsHandlers | client/tui_app.py:351-353 | an incoming message consumes no handler and sends nothing |
| TuiFacts.UnclaimedFrames | client/tui_app.py:363-367 | with no handler waiting, a timeout sets "Session timeout: " and its message, a failed reply opens the modal warning "COMMAND: message" ("Command failed" by default), and anything else changes nothing |
| TuiFacts.IncomingEffects | client/tui_app.py:369-381 | an incoming message puts its sender on the roster (appended, online, when unlisted), adds one unread unless that sender is selected with the chat focused, touches no other count, sends nothing and sets "New message from" the sender while logged in |
| TuiFacts.ScrollStaysInRange | client/tui_app.py:730-738 | scrolling keeps the peer's offset between 0 and the last page, moves by exactly delta when that stays inside, touches no other peer and without a peer does nothing |
| TuiFacts.ChatDrawnInRange | client/tui_app.py:586-599 | drawing records height − 2 visible lines and clamps the peer's offset between 0 and the last page, touching no other peer |
| TuiFacts.MarkReadZeroesKnown | client/tui_app.py:725-728 | marking read zeroes only a count that exists and keeps the others; tui_app.py also gives the peer a scroll offset, client.py leaves offsets alone |
| TuiFacts.MoveSelectionWraps | client/tui_app.py:506-513 | with users listed the index moves by delta modulo the roster length, stays in range, and the peer is that row's name, marked read; without users nothing changes |
| TuiFacts.MoveSelectionRequestsHistory | client/tui_app.py:511-512 | moving to a named peer sends its history request with the history limit unless one is still waiting, in which case nothing is sent |
| TuiFacts.UsersReplyFilters | client/tui_app.py:389-403 | a successful users reply lists every other user and never the session's own, keeps a selection that is still listed, clears the selection when nobody is left, and clears the error box |
| TuiFacts.DispatchShowsSelection | client/tui_app.py:348-403 | after any frame the selected peer is the name on the highlighted row, if it was before |
| TuiFacts.DispatchKeepsFlags | client/tui_app.py:348-381 | dispatching never stops the session, never raises the quit prompt and only adds to what was sent |
| TuiFacts.WaitAnswers | client/tui_app.py:295-314 | the reply `_send_and_wait` returns is one of the frames that arrived and answers the expected command (or its _response form) |
| TuiFacts.WaitEndOfStream | client/tui_app.py:306-309 | an end of stream before any answer stops the session and returns no reply |
| TuiFacts.WaitKeepsFlags | client/tui_app.py:295-314 | a wait keeps the quit prompt, only adds to what was sent, and keeps the session running when the stream does not end |
| TuiFacts.WaitShowsSelection | client/tui_app.py:295-314 | a wait keeps the selected peer the name on the highlighted row |
| TuiFacts.QuitConfirmKeys | client/tui_app.py:448-454 | while the quit prompt is up, y/Y sends LOGOUT and stops, n/N/ESC cancels with "Quit canceled.", any other key changes nothing |
| TuiFacts.PeriodicRefreshOnlyWhenSent | client/tui_app.py:324-331 | before either refresh is due nothing changes; a refresh time moves to now only when its request went out; a due users refresh with no list request waiting always goes out |
| TuiFacts.SendWhilePendingDropsInput | client/tui_app.py:515-539 | as written, pressing Enter while a send is still waiting clears the typed message and sends nothing, so the message is lost |
| TuiFacts.SendKeepsUnsentInput | client/tui_app.py:515-539 | corrected, a typed message is either sent with its stripped text and stamp and its handler waiting, or left in the input line with nothing changed |
| TuiApp.ChatApp.constructor | client/tui_app.py:142-169 | the history limit is at least 1, the store holds at most max(4 × limit, 200) messages per peer, and the session starts running with no user, peer, handler, error or unread count |
| TuiApp.ChatApp.ShowError | client/tui_app.py:702-705 | the error box shows the message with the given modality and the status line is blanked; nothing else changes |
| TuiApp.ChatApp.ClearError | client/tui_app.py:707-711 | the new state is the one ClearError describes |
| TuiApp.ChatApp.SendRequest | client/tui_app.py:316-322 | the result and the new outbox are Request's, which never files a second handler for one command |
| TuiApp.ChatApp.RefreshUsers | client/tui_app.py:383-404 | a LIST_USERS request with its handler, sent unless a list request is waiting |
| TuiApp.ChatApp.RequestHistory | client/tui_app.py:406-421 | a GET_HISTORY request for the peer with the history limit and offset 0, sent unless a history request is waiting |
| TuiApp.ChatApp.MarkRead | client/tui_app.py:725-728 | the new reading state is MarkRead's: only an existing count is zeroed |
| TuiApp.ChatApp.HandleIncoming | client/tui_app.py:369-381 | the new state is Incoming's, whose effects IncomingEffects states; every stored conversation stays reconciled |
| TuiApp.ChatApp.NoteIncoming | client/tui_app.py:376-381 | the sender joins the roster if unlisted, gets one more unread unless selected with the chat focused, and the status names the sender |
| TuiApp.ChatApp.OnUsersReply | client/tui_app.py:384-403 | the new state and fault are UsersReply's, whose filtering UsersReplyFilters states |
| TuiApp.ChatApp.Reselect | client/tui_app.py:394-403 | the roster keeps the selection if still listed, else selects the first user, or none |
| TuiApp.ChatApp.OnHistoryReply | client/tui_app.py:407-416 | the new state is HistoryReply's: the history merged into the peer's conversation, the peer marked read; a failure opens the error box |
| TuiApp.ChatApp.OnSendReply | client/tui_app.py:525-533 | a confirmed send stores the local echo, scrolls the peer to the bottom and says "Message sent."; a refused one opens the error box |
| TuiApp.ChatApp.RunHandler | client/tui_app.py:356-359 | the new state and fault are the handler's, per RunHandler, which keeps one handler per command |
| TuiApp.ChatApp.RunPending | client/tui_app.py:354-362 | the oldest waiting handler is taken off, run, and a failed reply still raises the warning box |
| TuiApp.ChatApp.DispatchResponse | client/tui_app.py:348-367 | the new state is Dispatch's, which keeps one handler per command, consumes the oldest and never stops the session |
| TuiApp.ChatApp.WaitStep | client/tui_app.py:306-313 | end of stream stops the session; an answering frame is returned with nothing changed; any other frame is dispatched |
| TuiApp.ChatApp.SendAndWait | client/tui_app.py:295-314 | the payload is sent and the state and reply are Wait's over the frames that arrive, whose answer WaitAnswers characterises |
| TuiApp.ChatApp.PollStep | client/tui_app.py:341-346 | a pass ends exactly at end of stream, with "Server closed connection." and the session stopped; a frame is dispatched |
| TuiApp.ChatApp.PollSocket | client/tui_app.py:333-346 | the new state is Poll's over the frames that are ready |
| TuiApp.ChatApp.PeriodicRefresh | client/tui_app.py:324-331 | the new state is PeriodicRefresh's, which refreshes only when due and records a time only for a request that went out |
| TuiApp.ChatApp.MoveSelection | client/tui_app.py:506-513 | the new state is MoveSelection's, which wraps the index and asks for the new peer's history |
| TuiApp.ChatApp.ScrollChat | client/tui_app.py:730-738 | the new state is ScrollChat's, which keeps the offset within the last page |
| TuiApp.ChatApp.NoteChatDrawn | client/tui_app.py:594-599 | the new state is ChatDrawn's, which clamps the offset for the measured height |
| TuiApp.ChatApp.LogoutAndQuit | client/tui_app.py:713-718 | LOGOUT is sent and waited for, "Logged out." is shown on success, and the session stops |
| TuiApp.ChatApp.SendCurrentMessage | client/tui_app.py:515-539 | as written: the new state is SendCurrentMessage's, which drops the input when a send is waiting |
| TuiApp.ChatApp.SendCurrentMessageFixed | client/tui_app.py:515-539 | corrected: the typed message is sent or kept, as SendKeepsUnsentInput states |
| TuiApp.ChatApp.HandleKey | client/tui_app.py:440-504 | the new state is HandleKey's: the error box, the quit prompt, the chat keys and the list keys in that order of precedence |
| TuiApp.ChatApp.ChatKey | client/tui_app.py:456-481 | ESC leaves the chat, page and arrow keys scroll, backspace deletes, Enter runs the send as written (SendCurrentMessage), printable keys type |
| TuiApp.ChatApp.ListKey | client/tui_app.py:483-504 | q asks to quit, arrows move the selection, u refreshes users, r refreshes the history, Enter focuses the chat |
| TuiModel.SendCurrentMessage | client/tui_app.py:515-539 | as written: no peer sets "Select a user before sending."; a blank input does nothing; otherwise the input is cleared and the stripped text goes out through Request, which refuses a second waiting send (SendWhilePendingDropsInput) |
| TuiModel.SendCurrentMessageFixed | client/tui_app.py:515-539 | corrected: the input is cleared only when the request went out (SendKeepsUnsentInput) |
| TuiModel.HandleKey | client/tui_app.py:440-504 | getch's -1 does nothing; the error box takes only Enter or ESC; the quit prompt takes y/n/ESC; then the chat or the list keys (QuitConfirmKeys, EnterWhilePendingDropsInput) |
| TuiModel.ChatKey | client/tui_app.py:456-481 | ESC leaves the chat, page and arrow keys scroll, backspace deletes, Enter runs the send as written, printable keys are typed |
| TuiModel.ChatKeyFixed | client/tui_app.py:476-478 | Enter runs the corrected send; every other key is ChatKey's |
| TuiModel.HandleKeyFixed | client/tui_app.py:440-504 | the key handler with the chat keys of ChatKeyFixed; it differs from HandleKey only on Enter in the chat pane (HandleKeyFixedOnlyChangesEnter) |
| TuiModel.ListKey | client/tui_app.py:483-504 | q asks to quit, arrows move the selection, u and r refresh when a request can go out, Enter opens the chat with a peer selected |
| TuiModel.Dispatch | client/tui_app.py:348-367 | an incoming message is stored, a frame with a waiting handler runs the oldest one, a timeout sets its status, and an unclaimed failure shows its message (DispatchKeepsPendingOk, DispatchPopsOldest, UnclaimedFrames) |
| TuiModel.Wait | client/tui_app.py:295-314 | frames are dispatched until one answers the expected command or the stream ends (WaitAnswers, WaitEndOfStream) |
| TuiModel.Poll | client/tui_app.py:333-346 | every ready frame is dispatched until end of stream, which sets "Server closed connection." and stops the session |
| TuiModel.PeriodicRefresh | client/tui_app.py:324-331 | the users refresh when 5 s are up and the history refresh of a selected peer when 4 s are up (PeriodicRefreshOnlyWhenSent) |
| TuiFacts.EnterWhilePendingDropsInput | client/tui_app.py:476-478 | as written, Enter in the chat pane with a send still waiting clears the typed message and sends nothing |
| TuiFacts.EnterKeepsUnsentInput | client/tui_app.py:476-478 | corrected, Enter in the chat pane sends the typed message with its stripped text and stamp, or leaves it in the input line |
| TuiFacts.HandleKeyFixedOnlyChangesEnter | client/tui_app.py:440-504 | the corrected key handler agrees with the one as written on every key but Enter in the chat pane |
| TuiApp.ChatApp.ChatKeyFixed | client/tui_app.py:476-478 | the new state is ChatKeyFixed's: Enter runs the corrected send |
| TuiApp.ChatApp.HandleKeyFixed | client/tui_app.py:440-504 | the new state is HandleKeyFixed's, and the store stays well formed |
| CliCommand.SplitCommandLine | client/client.cpp:229-239 | the tokens read are exactly Tokens(line): whitespace skipped, each maximal run of other characters one token, in order |
| CliCommand.TokensAreWords | client/client.cpp:229-239 | every token is non-empty and holds no whitespace |
| CliCommand.SplitJoinedWords | client/client.cpp:229-239 | splitting words joined by single blanks gives the words back |
| CliCommand.RestTokens | client/client.cpp:229-239 | after reading k tokens, the tokens left to read are exactly the others |
| CliCommand.RestIsSuffix | client/client.cpp:229-239 | reading tokens only ever drops a prefix of the line |
| CliCommand.RestAfterWord | client/client.cpp:229-239 | once a token has been read, what is left is empty or starts with whitespace |
| CliCommand.TokenPosition | client/client.cpp:229-239 | token k sits in the line immediately before the text left once it has been read |
| CliCommand.SendBody | client/client.cpp:269-281 | the corrected `/send` body: splitting it gives exactly the tokens after the recipient |
| CliCommand.SendKeepsWords | client/client.cpp:241-291 | with the corrected body, a blank line does nothing, `/send` hands on the recipient token and exactly the words after it, and `/register` and `/login` take whole tokens |
| CliCommand.SendBodyAgrees | client/client.cpp:272 | the body as written equals the corrected one whenever the recipient's first occurrence in the line is the recipient token itself |
| CliCommand.SendBodyTakesEarlierOccurrence | client/client.cpp:272 | as written, "/send nd hi" sends "nd hi" to "nd", because "nd" first occurs inside "/send" |
| CliCommand.SendBodyFixedOnEarlierOccurrence | client/client.cpp:269-281 | the corrected parsing sends "hi" to "nd" for the same line |
| CliCommand.Tokens | client/client.cpp:229-239 | `iss >> tok` reads maximal runs of non-whitespace, skipping whitespace (SplitCommandLine, TokensAreWords) |
| CliCommand.SendBodyAsWritten | client/client.cpp:272 | as written, the body starts one past the first occurrence of the recipient text in the line (SendBodyTakesEarlierOccurrence) |
| CliCommand.Interpret | client/client.cpp:241-291 | a blank line, /help, /exit, /register and /login with exactly two arguments, /logout, /send with at least two, /whoami, and anything else as unknown |
| CliCommand.HandleCommand | client/client.cpp:241-291 | `handle_command` as written, with the body of SendBodyAsWritten |
| CliCommand.HandleCommandFixed | client/client.cpp:241-291 | `handle_command` with the corrected `/send` body (SendKeepsWords) |
| CppClient.SentBytes | client/client.cpp:80-95 | the frame is a 4-byte header followed by exactly the body |
| CppClient.SentBytesAsPython | client/client.cpp:80-95 | below 2^32 bytes the C++ client frames a body exactly as the Python client does |
| CppClient.SentBytesOverflow | client/client.cpp:88 | from 2^32 bytes on, the header states the length modulo 2^32, which is not the body's length |
| CppClient.Receive | client/client.cpp:97-135 | a read never consumes more than is there, and a document is read only after a header and at least one body byte |
| CppClient.ReceiveSentFrame | client/client.cpp:80-135 | reading what send_command wrote gives no reply for an empty body and the parse of any other body, and leaves the bytes after the frame alone |
| CppClient.Classify | client/client.cpp:200-227 | an object whose "type", if present, is a string is a notification or a reply, and anything else makes `value("type")` throw; it is a reply exactly when it has "success" and a type outside the asynchronous ones |
| CppClient.AwaitReply | client/client.cpp:200-227 | the wait never consumes more than is there |
| CppClient.AwaitContinues | client/client.cpp:200-227 | a notification is set aside and the wait goes on after its frame |
| CppClient.AwaitStops | client/client.cpp:200-227 | anything but a notification (no document, a reply, a type error) ends the wait with that outcome |
| CppClient.AwaitClassifies | client/client.cpp:200-227 | every frame handed to the handler lacks "success" or has an asynchronous type, and a reply returned is classified as a reply |
| CppClient.ZeroLengthFrameDiffers | client/client.cpp:114-117 | a zero-length frame ends the C++ wait with no reply, while the Python client reads it as {}, sets it aside and returns the reply after it |
| CppClient.BadJsonDiffers | client/client.cpp:132-134 | a body that does not parse ends the C++ wait with no reply, while the Python client sets the synthetic error object aside and reads on |
| CppClient.ProtocolClient.constructor | client/client.hpp:10-12 | a new client has no socket and no traffic |
| CppClient.ProtocolClient.Connect | client/client.cpp:20-69 | already connected, or no address connects: nothing changes; otherwise the client holds the connected socket with fresh traffic |
| CppClient.ProtocolClient.Close | client/client.cpp:71-78 | the socket is reset and the traffic kept; closing twice is closing once |
| CppClient.ProtocolClient.SendCommand | client/client.cpp:80-95 | without a socket nothing is written; otherwise exactly SentBytes of the dumped command is appended |
| CppClient.ProtocolClient.Recv | client/client.cpp:138-160 | at most n bytes, in stream order, and none only at end of stream |
| CppClient.ProtocolClient.RecvExactly | client/client.cpp:138-160 | without a socket nothing; with enough bytes exactly the next size bytes; a stream that ends first is drained and gives nothing |
| CppClient.ProtocolClient.ReceiveResponse | client/client.cpp:97-135 | nothing without a socket; otherwise exactly what Receive reads from the stream, which loses exactly the bytes Receive used |
| CppClient.MessageClient.constructor | client/client.hpp:31-33 | a new message client has handed nothing to the handler |
| CppClient.MessageClient.NextFrame | client/client.cpp:204-224 | one pass reads a frame; it ends the loop exactly when the frame is not a notification, with AwaitReply's outcome, and otherwise hands the notification to the handler |
| CppClient.MessageClient.RecvCommandResponse | client/client.cpp:200-227 | without a socket no reply; otherwise exactly AwaitReply's outcome, the stream loses exactly the bytes it used, and the handler has received its notifications in order |
| CppClient.MessageClient.WaitReply | client/client.cpp:204-226 | on an open socket: exactly AwaitReply's outcome, the stream loses exactly the bytes it used, and each notification reaches the handler in order |
| CppClient.MessageClient.WaitStep | client/client.cpp:205-224 | one frame of the wait: a non-notification ends it with AwaitReply's reply and remaining stream; a notification is set aside in order, and the wait goes on over strictly fewer bytes |
| CppClient.MessageClient.Call | client/client.cpp:162-198 | the command is written, then the reply is awaited as RecvCommandResponse does |
| CppClient.MessageClient.RegisterUser | client/client.cpp:162-170 | a `register` command (lower case, as `type` is set) with the name and password is sent and its reply awaited |
| CppClient.MessageClient.LoginUser | client/client.cpp:172-180 | a `login` command with the name and password is sent and its reply awaited; no name is kept |
| CppClient.MessageClient.SendMessage | client/client.cpp:182-190 | a `send_message` command with recipient and content, with no timestamp and no login check, is sent and its reply awaited |
| CppClient.MessageClient.LogoutUser | client/client.cpp:192-198 | a `logout` command is sent and its reply awaited |
| MessageService.StrOf | src/service/MessageService.cpp:47-116 | `toString()` gives the string held under the key, and "" for an absent key or any other value |
| MessageService.FieldArray | src/service/MessageService.cpp:92-116 | `toArray()` gives the array held under the key, or an empty one |
| MessageService.ObjectsOf | src/service/MessageService.cpp:92-116 | one object per array element, in order, a non-object becoming an empty object |
| MessageService.CollectObjects | src/service/MessageService.cpp:96-99 | the conversion loop builds exactly ObjectsOf |
| MessageService.LowerStripCommute | src/service/MessageService.cpp:8-14 | lower-casing then trimming equals trimming then lower-casing |
| MessageService.ExtractCommand | src/service/MessageService.cpp:8-14 | "type" decides whenever the key exists, whatever its value, otherwise "command", otherwise ""; lower-cased and trimmed |
| MessageService.ExtractCommandAgreesWithPython | src/service/MessageService.cpp:8-14 | where "type" is a non-empty string the Qt client and the Python client read the same command name |
| MessageService.EmptyTypeHidesCommand | src/service/MessageService.cpp:8-14 | an empty "type" hides "command" from the Qt client, while the Python client falls back to it |
| MessageService.ListUsersCommand | src/service/MessageService.cpp:24-28 | the request carries only its type |
| MessageService.GetHistoryCommand | src/service/MessageService.cpp:30-37 | the request carries a type, the peer under "with", the limit and offset 0 |
| MessageService.SendMessageCommand | src/service/MessageService.cpp:39-45 | the request carries a type, the recipient and the content |
| MessageService.ServerReadsListUsers | src/service/MessageService.cpp:24-28 | the server reads the request as LIST_USERS with every other field at its default |
| MessageService.ServerReadsGetHistory | src/service/MessageService.cpp:30-37 | the server reads the request as GET_HISTORY with the peer as target, the given limit and offset 0 |
| MessageService.ServerReadsSendMessage | src/service/MessageService.cpp:39-45 | the server reads the request as SEND_MESSAGE with the given recipient and content |
| MessageService.OnResponseAsWritten | src/service/MessageService.cpp:47-116 | at most two signals, and two exactly for a failed register or send response |
| MessageService.OnResponse | src/service/MessageService.cpp:47-116 | with the register branch returning, at most two signals, and two exactly for a failed send response |
| MessageService.LoginEmitsOnlyResult | src/service/MessageService.cpp:53-58 | a login response yields exactly one loginResult with its success flag and message |
| MessageService.FailedRegisterReportedTwice | src/service/MessageService.cpp:61-88 | as written, a failed register is reported by registerResult and then again by commandError |
| MessageService.FailedRegisterWitness | src/service/MessageService.cpp:61-88 | the response {"type":"register","success":false,"message":"taken"} produces both signals |
| MessageService.RegisterReportedOnce | src/service/MessageService.cpp:61-65 | with the return added, a register response yields exactly one registerResult; a successful one already did |
| MessageService.FixOnlyTouchesRegister | src/service/MessageService.cpp:47-116 | the correction changes nothing but register responses |
| MessageService.SendReportsAck | src/service/MessageService.cpp:68-75 | a send acknowledgement yields sendMessageResponse, followed by commandError exactly when it is not ok |
| MessageService.IncomingIgnoresSuccess | src/service/MessageService.cpp:79-82 | an incoming message is passed on whole, with or without "success" |
| MessageService.FailureBecomesCommandError | src/service/MessageService.cpp:85-88 | any other failed response becomes one commandError with the command name and the server's message |
| MessageService.UsersInOrder | src/service/MessageService.cpp:92-102 | a successful user list yields one usersReceived holding every element of payload.users, in order |
| MessageService.HistoryInOrder | src/service/MessageService.cpp:105-116 | a successful history yields one historyReceived with payload.with and every element of payload.messages, in order |
| MessageService.OtherSuccessIgnored | src/service/MessageService.cpp:47-116 | a successful response to anything else is dropped |
| MessageService.NumericSuccessFails | src/service/MessageService.cpp:50 | a "success" of 1 is a failure to the Qt client, though Python's truth test accepts it |
| ContactList.FirstIndex | src/model/ContactListModel.h:34-83 | the index the lookup loops stop at: the first contact with the name, or none when no contact has it |
| ContactList.UpdatesKeepRoster | src/model/ContactListModel.h:45-83 | incrementUnread, clearUnread and updateLastMessage keep every name in place and touch only the first contact with the given name |
| ContactList.AbsentUserNoChange | src/model/ContactListModel.h:34-83 | for a name not in the list the three updates change nothing and unreadCount is 0 |
| ContactList.UnreadAfterUpdates | src/model/ContactListModel.h:34-83 | for a listed name: incrementUnread adds one, clearUnread gives 0, and updateLastMessage adds one exactly when asked to |
| ContactList.OnlineByUser | src/model/ContactListModel.cpp:46-49 | every snapshot name is in the presence table |
| ContactList.UnlistedNotInTable | src/model/ContactListModel.cpp:46-49 | a name the snapshot does not mention is not in the table |
| ContactList.LastDuplicateWins | src/model/ContactListModel.cpp:46-49 | for a name the snapshot repeats, the last entry decides its flag |
| ContactList.Refresh | src/model/ContactListModel.cpp:56-67 | the update pass keeps a contact's name, unread count and preview |
| ContactList.Seen | src/model/ContactListModel.cpp:56-67 | `seen` holds exactly the listed names that the table knows |
| ContactList.Arrivals | src/model/ContactListModel.cpp:70-77 | no more appended entries than snapshot entries |
| ContactList.MergeKeepsContacts | src/model/ContactListModel.cpp:44-78 | the merge never shrinks the list, keeps every existing name in place with its count and preview, and leaves a contact the snapshot omits exactly as it was |
| ContactList.MergeTakesLastFlag | src/model/ContactListModel.cpp:44-78 | a listed contact named in the snapshot takes the flag of the last snapshot entry with its name, and nothing else about it changes |
| ContactList.ArrivalsCount | src/model/ContactListModel.cpp:70-77 | a name already seen is never appended; any other is appended as often as the snapshot holds it |
| ContactList.MergeAppendsNewUsers | src/model/ContactListModel.cpp:44-78 | what the merge appends is exactly the unseen snapshot entries, and a new name appears there as often as in the snapshot |
| ContactList.MergeSkipsListedUsers | src/model/ContactListModel.cpp:44-78 | a name already in the list is never appended again |
| ContactList.ContactListModel.constructor | src/model/ContactListModel.cpp:5-6 | a new model holds no contacts |
| ContactList.ContactListModel.UnreadCount | src/model/ContactListModel.h:34-44 | the first matching contact's counter, 0 when the name is absent |
| ContactList.ContactListModel.IncrementUnread | src/model/ContactListModel.h:45-55 | the list becomes Bumped: one more unread for the first contact with the name |
| ContactList.ContactListModel.ClearUnread | src/model/ContactListModel.h:56-65 | the list becomes Cleared: the first contact with the name has no unread messages |
| ContactList.ContactListModel.UpdateLastMessage | src/model/ContactListModel.h:66-83 | the list becomes WithPreview: the first contact with the name takes the preview and, when asked, one more unread |
| ContactList.ContactListModel.SetContacts | src/model/ContactListModel.cpp:38-42 | the list becomes exactly the given one |
| ContactList.ContactListModel.MergePresence | src/model/ContactListModel.cpp:44-78 | the list becomes Merged: existing contacts refreshed from the snapshot, then the unseen snapshot entries appended |
| ContactList.ContactListModel.OnlineTable | src/model/ContactListModel.cpp:46-49 | the first loop builds exactly OnlineByUser |
| ContactList.ContactListModel.RefreshListed | src/model/ContactListModel.cpp:56-67 | the second loop refreshes every contact in place and yields exactly Seen |
| ContactList.ContactListModel.AppendUnseen | src/model/ContactListModel.cpp:70-77 | the third loop appends exactly Arrivals |
| ContactList.ContactListModel.RowCount | src/model/ContactListModel.cpp:8-11 | 0 under a valid parent, the number of contacts under the root |
| ContactList.ContactListModel.Data | src/model/ContactListModel.cpp:13-26 | an invalid index or an unknown role gives the empty variant; each of the five roles gives its field of the contact in that row |
| ChatHistory.ChatHistoryModel.constructor | src/model/ChatHistoryModel.cpp:5-6 | a new model holds no messages |
| ChatHistory.ChatHistoryModel.ResetHistory | src/model/ChatHistoryModel.cpp:36-40 | the rows become exactly the given messages, in order |
| ChatHistory.ChatHistoryModel.AppendMessage | src/model/ChatHistoryModel.cpp:42-47 | one row more, holding the message, at the end; the earlier rows are untouched |
| ChatHistory.ChatHistoryModel.RowCount | src/model/ChatHistoryModel.cpp:8-11 | 0 under a valid parent, the number of messages under the root |
| ChatHistory.ChatHistoryModel.Data | src/model/ChatHistoryModel.cpp:13-25 | an invalid index or an unknown role gives the empty variant; each of the four roles gives its field of the message in that row |
| ItemModel.ToStr | src/model/ContactProxyModel.cpp:11-12 | `toString()` on a string variant is the string held, and on the empty variant "" |
| ContactProxy.ParseTsMs | src/model/ContactProxyModel.h:38-41 | the parsed milliseconds when the timestamp parses, 0 when it does not |
| ContactProxy.BlankFilterAcceptsAll | src/model/ContactProxyModel.cpp:7-16 | a filter of nothing but whitespace accepts every row |
| ContactProxy.FilterMatchesNameOrPreview | src/model/ContactProxyModel.cpp:7-16 | otherwise a row is shown exactly when its username or its last message contains the filter text, ignoring case |
| ContactProxy.LessThanIsBefore | src/model/ContactProxyModel.cpp:18-30 | lessThan on two rows holds exactly when their contacts are ordered by Before |
| ContactProxy.NewestFirst | src/model/ContactProxyModel.cpp:18-30 | a later timestamp sorts first, and an unparseable one sorts as the epoch |
| ContactProxy.TiesByUsername | src/model/ContactProxyModel.cpp:18-30 | equal timestamps fall back to ascending usernames |
| ContactProxy.BeforeIsStrictOrder | src/model/ContactProxyModel.cpp:18-30 | the sort order is irreflexive, asymmetric and transitive, and total on distinct usernames |
| ContactProxy.FilterAcceptsRow | src/model/ContactProxyModel.cpp:7-16 | a blank filter accepts every row, otherwise a case-insensitive match on username or preview (BlankFilterAcceptsAll, FilterMatchesNameOrPreview) |
| ContactProxy.LessThan | src/model/ContactProxyModel.cpp:18-30 | newer timestamp first, then ascending username (LessThanIsBefore, NewestFirst, TiesByUsername) |
| ClientController.LoginCommand | src/controller/ClientController.cpp:52-66 | the login request carries exactly a type, the user name and the password |
| ClientController.RegisterCommand | src/controller/ClientController.cpp:68-81 | the register request carries exactly a type, the user name and the password |
| ClientController.ServerReadsLogin | src/controller/ClientController.cpp:52-66 | the server's parseCommand reads the login request as a LOGIN with the same name and password and every other field at its default |
| ClientController.ServerReadsRegister | src/controller/ClientController.cpp:68-81 | the server reads the register request as a REGISTER with the same name and password and every other field at its default |
| ClientController.Snapshot | src/controller/ClientController.cpp:204-210 | no more contacts than user objects; each contact takes a user's name and online flag, with no unread count or preview, and never names the signed-in user |
| ClientController.SnapshotKeepsOthers | src/controller/ClientController.cpp:204-210 | every user object that does not name the signed-in user is in the snapshot |
| ClientController.ToPrefetch | src/controller/ClientController.cpp:222-228 | no more names than snapshot entries |
| ClientController.PrefetchOnce | src/controller/ClientController.cpp:222-228 | a preview is queued only for names not yet prefetched, each name at most once, and for every snapshot name not yet prefetched |
| ClientController.PrefetchedAfter | src/controller/ClientController.cpp:222-228 | afterwards the prefetch set holds the earlier names and every snapshot name |
| ClientController.HistoryRequests | src/controller/ClientController.cpp:233-235 | one getHistory request per name, in the names' order |
| ClientController.HistoryRow | src/controller/ClientController.cpp:238-270 | a row takes sender, content and normalised timestamp from the message, and is marked own exactly when the sender is the signed-in user |
| ClientController.HistoryRows | src/controller/ClientController.cpp:238-270 | one row per message, in order |
| ClientController.IncomingPeer | src/controller/ClientController.cpp:272-302 | a message I sent belongs to its recipient's conversation, any other one to its sender's |
| ClientController.IncomingPeerIsOtherParty | src/controller/ClientController.cpp:272-302 | for a message I am part of, the conversation is one of its two parties, and never mine unless I wrote to myself |
| ClientController.Notification | src/controller/ClientController.cpp:288-289 | text up to 40 characters is kept; longer text becomes its first 37 characters followed by "...", 40 characters in all |
| ClientController.Controller.constructor | src/controller/ClientController.cpp:19-44 | the controller starts disconnected, signed out and not ready, with empty contact and chat models, no peer and nothing sent or signalled |
| ClientController.Controller.BecomeReady | src/controller/ClientController.cpp:43 | the deferred callback sets only the ready flag |
| ClientController.Controller.Start | src/controller/ClientController.cpp:46-50 | while connected or connecting nothing happens; otherwise the controller is connecting and one connection is requested |
| ClientController.Controller.Login | src/controller/ClientController.cpp:52-66 | disconnected: only a "Not connected" error; connected: the name is remembered as pending and the login request is sent |
| ClientController.Controller.RegisterUser | src/controller/ClientController.cpp:68-81 | disconnected: only a "Not connected" error; connected: the register request is sent and nothing is remembered |
| ClientController.Controller.ShowRegister | src/controller/ClientController.cpp:83-87 | the register form is shown, and a change is signalled only when it was not shown before |
| ClientController.Controller.ShowLogin | src/controller/ClientController.cpp:89-93 | the login form is shown, and a change is signalled only when the register form was shown before |
| ClientController.Controller.OnConnected | src/controller/ClientController.cpp:95-103 | ignored until ready; then connected and no longer connecting, and the change is signalled |
| ClientController.Controller.OnDisconnected | src/controller/ClientController.cpp:105-136 | ignored until ready; then disconnected and signed out, the peer, pending name and prefetch set are forgotten, the chat is emptied and the contact list is kept |
| ClientController.Controller.OnError | src/controller/ClientController.cpp:138-140 | the message is passed on as one error signal, with no readiness check |
| ClientController.Controller.RefreshUsers | src/controller/ClientController.h:41 | one LIST_USERS request |
| ClientController.Controller.PresenceTick | src/controller/ClientController.cpp:23-29 | a LIST_USERS request exactly when connected and signed in, nothing otherwise |
| ClientController.Controller.CurrentPeerOnline | src/controller/ClientController.cpp:142-151 | the online flag of the first contact named like the current peer; false without a peer or such a contact |
| ClientController.Controller.OnLoginResult | src/controller/ClientController.cpp:153-178 | ignored until ready; success signs the pending name in, requests the user list and starts the timer; failure forgets the pending name and reports the error |
| ClientController.Controller.OnRegisterResult | src/controller/ClientController.cpp:180-194 | ignored until ready; success returns to the login form with a notice; failure is reported as an error |
| ClientController.Controller.SnapshotOf | src/controller/ClientController.cpp:204-210 | the first loop builds exactly Snapshot |
| ClientController.Controller.PlanPrefetch | src/controller/ClientController.cpp:222-228 | the second loop yields exactly ToPrefetch and PrefetchedAfter |
| ClientController.Controller.RequestPreviews | src/controller/ClientController.cpp:233-235 | the third loop sends exactly HistoryRequests with limit 1 |
| ClientController.Controller.OnUsersReceived | src/controller/ClientController.cpp:196-236 | ignored until ready; then the contact list is merged with the snapshot, the peer-online change signalled and one preview requested per new name |
| ClientController.Controller.RowsOf | src/controller/ClientController.cpp:238-270 | the loop builds exactly HistoryRows |
| ClientController.Controller.OnHistoryReceived | src/controller/ClientController.cpp:238-270 | ignored until ready; a non-empty history sets the peer's preview to its last row; the chat is replaced and redrawn only when the history is the current peer's |
| ClientController.Controller.OnIncomingMessage | src/controller/ClientController.cpp:272-302 | ignored until ready; the conversation's preview is updated; a message of the open conversation is appended to the chat, any other raises a toast of the shortened text |
| ClientController.Controller.OnSendMessageResponse | src/controller/ClientController.cpp:304-315 | ignored until ready; success requests the current peer's history again, failure reports "Send failed: " and the message |
| ClientController.Controller.SelectPeer | src/controller/ClientController.h:42-54 | signed out: a "Not authenticated" error; the current peer again: nothing; another peer: it becomes current, its unread count is cleared, the chat emptied and its history requested once |
| ClientController.Controller.SendMessage | src/controller/ClientController.h:55-60 | silent while signed out, "No peer selected" without a peer, otherwise one SEND_MESSAGE to the current peer |
| ClientController.Controller.SetFocusContacts | src/controller/ClientController.h:67-71 | the flag takes the value, and a change is signalled only when it differs |
| ClientController.Controller.HasPeer | src/controller/ClientController.h:76 | true exactly when a peer is selected |
| ClientController.Controller.UnreadCount | src/controller/ClientController.h:61-66 | the contact list's unread count for the user, and whether it is positive |
| QtProtocol.AsInt32 | src/net/ProtocolClient.cpp:77 | `int(m_expectedLen)` keeps a length below 2^31 and turns any larger one negative |
| QtProtocol.DeframeWaits | src/net/ProtocolClient.cpp:67-94 | tryParseFrames only stops when it must wait: for a header with fewer than 4 bytes buffered, or for a payload with fewer bytes buffered than its length |
| QtProtocol.DeframeSentFrame | src/net/ProtocolClient.cpp:41-94 | a frame in sendCommand's format gives exactly one event for its payload, then parsing goes on after it |
| QtProtocol.DeframeAppend | src/net/ProtocolClient.cpp:67-94 | parsing a buffer with more bytes appended is parsing the buffer, then what it left with the bytes appended, when every length is below 2^31 or compared unsigned |
| QtProtocol.DeframeIdle | src/net/ProtocolClient.cpp:67-94 | parsing a buffer that is already waiting changes nothing |
| QtProtocol.ChunkingInvariant | src/net/ProtocolClient.cpp:62-94 | delivering the bytes in any chunks gives the same events and state as delivering them at once, when every length is below 2^31 or compared unsigned |
| QtProtocol.ChunkingInvariantUnsigned | src/net/ProtocolClient.cpp:62-94 | with the length compared unsigned, chunking never matters |
| QtProtocol.HugeLengthBreaksChunking | src/net/ProtocolClient.cpp:77 | as written, a length of 2^31 followed by one byte gives that byte as the payload when delivered at once, but an empty payload and a byte left waiting when delivered in two chunks |
| QtProtocol.ProtocolClient.constructor | src/net/ProtocolClient.cpp:25-30 | a new client is not connected, with an empty buffer, no pending length, nothing written and no events |
| QtProtocol.ProtocolClient.ConnectToHost | src/net/ProtocolClient.cpp:32-36 | the buffer and the pending length are cleared; nothing else changes |
| QtProtocol.ProtocolClient.SendCommand | src/net/ProtocolClient.cpp:41-60 | not connected: a "Not connected" error and nothing written; otherwise the big-endian length of the compact JSON, then the JSON |
| QtProtocol.ProtocolClient.OnReadyRead | src/net/ProtocolClient.cpp:62-65 | the chunk is appended and the events and state become those of Deframe over the whole buffer |
| QtProtocol.ProtocolClient.TryParseFrames | src/net/ProtocolClient.cpp:67-94 | the loop emits exactly Deframe's events and leaves its pending length and buffer |
| QtProtocol.Deframe | src/net/ProtocolClient.cpp:67-94 | tryParseFrames with the header length compared unsigned (DeframeWaits, DeframeAppend) |
| QtProtocol.FeedAll | src/net/ProtocolClient.cpp:62-94 | chunks appended one at a time, each followed by tryParseFrames (ChunkingInvariantUnsigned, HugeLengthBreaksChunking) |
| AuthManagers.SessionsAfterLogin | src/AuthManager.cpp:86-103 | the user is active afterwards exactly when they already were or their name was found and the password verified; no other name changes |
| AuthManagers.SessionsAfterLogout | src/AuthManager.cpp:105-112 | the user is not active afterwards; every other name keeps its state |
| AuthManagers.LoginOpensSession | src/AuthManager.cpp:86-103 | a login whose name is found and whose password verifies leaves the user active |
| AuthManagers.LoginIdempotent | src/AuthManager.cpp:86-103 | logging in twice with the same credentials leaves the same active set as logging in once |
| AuthManagers.LogoutUndoesLogin | src/AuthManager.cpp:86-112 | logging out after a login gives back the active set from before, when that set did not hold the user |
| AuthManagers.AuthManager.constructor | src/AuthManager.cpp:45-49 | the manager starts with the given user table and no active session |
| AuthManagers.AuthManager.RegisterUser | src/AuthManager.cpp:73-84 | succeeds exactly when name and password are non-empty and the name is new; on success the hash of the password is stored under the name; sessions do not change |
| AuthManagers.AuthManager.LoginUser | src/AuthManager.cpp:86-103 | succeeds exactly when the name is registered and its stored hash verifies the password; the active set becomes SessionsAfterLogin; the user table does not change |
| AuthManagers.AuthManager.LogoutUser | src/AuthManager.cpp:105-112 | the active set becomes SessionsAfterLogout; the user table does not change |
| AuthManagers.AuthManager.VerifySession | src/AuthManager.cpp:114-120 | true exactly when the user holds an active session |
| ProtocolHandler.ValueStr | src/ProtocolHandler.cpp:42-46 | an absent key gives the default; a present key gives its string, and throws when it holds anything else |
| ProtocolHandler.ValueInt | src/ProtocolHandler.cpp:47-48 | an absent key gives the default; a number or boolean converts, and anything else throws |
| ProtocolHandler.ReadCommand | src/ProtocolHandler.cpp:18-48 | a command read has the kind of its upper-cased "type" and takes every string and integer field from the object or its default |
| ProtocolHandler.ParseCommand | src/ProtocolHandler.cpp:7-51 | a frame that does not parse gives the default command, a document that is not an object throws, and an object is read by ReadCommand |
| ProtocolHandler.CommandTypeIgnoresCase | src/ProtocolHandler.cpp:18-40 | the type name is matched without regard to case |
| ProtocolHandler.TargetUserFallback | src/ProtocolHandler.cpp:46 | targetUser comes from "with" when present, else from "target", else "" |
| ProtocolHandler.BadTargetThrows | src/ProtocolHandler.cpp:46 | a "target" that is not a string makes parseCommand throw even when "with" is a good string, since the fallback is evaluated first |
| ProtocolHandler.ResponseObject | src/ProtocolHandler.cpp:53-86 | the object written holds only the response's fields |
| ProtocolHandler.ResponseKeysWritten | src/ProtocolHandler.cpp:57-66 | "command" and "message" are always written; "success" and "payload" exactly when set |
| ProtocolHandler.SerializeResponse | src/ProtocolHandler.cpp:85 | the text is the dump of the response object followed by one newline |
| ProtocolHandler.ResponseRoundTrip | src/ProtocolHandler.cpp:53-86 | reading the written object back gives the response itself |
| ClientStates.Enqueue | src/ClientState.cpp:46-55 | a push keeps the queue as it was and adds the message at the back |
| ClientStates.Dequeue | src/ClientState.cpp:57-69 | an empty queue yields nothing; otherwise the front message and the rest, which together make up the queue |
| ClientStates.EnqueueAllAppends | src/ClientState.cpp:46-55 | pushing a series of messages appends them to the queue in order |
| ClientStates.DrainAllIsQueue | src/ClientState.cpp:57-69 | popping until empty returns the queue's messages front to back |
| ClientStates.QueueIsFifo | src/ClientState.cpp:46-69 | popping everything after a series of pushes returns what was queued before, then the pushed messages in order |
| ClientStates.ClientState.constructor | src/ClientState.cpp:9-19 | a new client state holds its fd, owner and activity time, with no name, not authenticated, an empty receive buffer and an empty queue |
| ClientStates.ClientState.SetAuthenticated | src/ClientState.cpp:26-29 | sets the flag and nothing else |
| ClientStates.ClientState.SetUsername | src/ClientState.cpp:31-34 | sets the name and nothing else |
| ClientStates.ClientState.UpdateActivity | src/ClientState.cpp:36-39 | sets the activity time and nothing else |
| ClientStates.ClientState.ClearRecvBuffer | src/ClientState.cpp:41-44 | empties the receive buffer and nothing else |
| ClientStates.ClientState.AppendRecv | include/ClientState.h:28 | appends the bytes to the receive buffer and changes nothing else |
| ClientStates.ClientState.EraseRecvFront | include/ClientState.h:28 | drops the first count bytes of the receive buffer and changes nothing else |
| ClientStates.ClientState.QueueResponse | src/ClientState.cpp:46-55 | the message joins the back of the queue, and the owning worker is woken with this fd when there is one |
| ClientStates.ClientState.PopQueuedResponse | src/ClientState.cpp:57-69 | an empty queue gives false and leaves the out value alone; otherwise true, the front message, and the queue loses exactly its front |
| MessageRouter.Escape | src/MessageRouter.cpp:14-23 | escaping never shortens the content |
| MessageRouter.BuildInboundMessagePayload | src/MessageRouter.cpp:8-27 | the payload is the incoming_message object text with the sender as given and the content escaped, ending in a newline |
| MessageRouter.EscapeContent | src/MessageRouter.cpp:14-23 | the character loop writes exactly Escape of the content |
| MessageRouter.Unescape | src/MessageRouter.cpp:14-23 | a JSON reader's value exists only for a valid string body (section 7 of RFC 8259) |
| MessageRouter.EscapeCharFacts | src/MessageRouter.cpp:14-23 | one escaped character keeps a body valid exactly when it is not a control character other than newline, and reads back as itself |
| MessageRouter.EscapeValid | src/MessageRouter.cpp:14-23 | the escaped content is a valid JSON string body exactly when the content has no control character other than newline |
| MessageRouter.EscapeRoundTrip | src/MessageRouter.cpp:14-23 | a JSON reader gets exactly the content back from escaped content that is valid |
| MessageRouter.PlainBody | src/MessageRouter.cpp:12 | a body of characters that need no escape reads back as itself |
| MessageRouter.SelfReadingBody | src/MessageRouter.cpp:12 | a body that reads back as itself holds no quote, backslash or control character |
| MessageRouter.EscapeShortens | src/MessageRouter.cpp:14-23 | a value read is never longer than its body |
| MessageRouter.SenderReadsBack | src/MessageRouter.cpp:12 | the unescaped sender reads back as itself exactly when it holds no quote, backslash or control character |
| MessageRouter.EscapeExamples | src/MessageRouter.cpp:14-23 | a quote comes out as `\"`, a newline as `\n` and a backslash as `\\` |
| MessageRouter.Deliveries | src/MessageRouter.cpp:115-130 | no more deliveries than stored messages |
| MessageRouter.DeliveriesSnoc | src/MessageRouter.cpp:115-130 | one more stored message adds its own delivery, if any, at the end |
| MessageRouter.PayloadsAppend | src/MessageRouter.cpp:115-130 | one more delivery adds its payload and its id at the end |
| MessageRouter.DeliveryIdsStored | src/MessageRouter.cpp:115-130 | every id marked delivered is the id of a stored message |
| MessageRouter.DeliveryIdsBounded | src/MessageRouter.cpp:115-130 | with ascending stored ids, no marked id is beyond the last stored one |
| MessageRouter.DeliveriesAscending | src/MessageRouter.cpp:115-130 | messages are pushed and marked in ascending id order when the database returns them so |
| MessageRouter.AscendingLastStep | src/MessageRouter.cpp:115-130 | the last stored message, delivered or skipped, keeps the delivered ids ascending when the stored ids ascend |
| MessageRouter.Router.constructor | src/MessageRouter.cpp:43-59 | a new router knows no active client |
| MessageRouter.Router.RegisterClient | src/MessageRouter.cpp:43-50 | the name maps to the state, replacing an earlier registration |
| MessageRouter.Router.UnregisterClient | src/MessageRouter.cpp:52-59 | the name is no longer mapped; no other entry changes |
| MessageRouter.Router.FindActiveClient | src/MessageRouter.cpp:61-68 | found exactly when the name is registered, and then it is the registered state |
| MessageRouter.Router.RouteMessage | src/MessageRouter.cpp:84-101 | succeeds exactly when both users resolve and the insert succeeds; then an online recipient gets the payload at the back of its queue; on failure no queue changes |
| MessageRouter.Router.DeliverQueuedMessages | src/MessageRouter.cpp:103-134 | an unknown user fails with nothing sent; otherwise every stored message that decrypts is pushed in order and exactly their ids are marked delivered, in order |
| MessageRouter.Router.DeliverAll | src/MessageRouter.cpp:115-130 | the loop over the queued messages pushes, in order, exactly the payloads of those that decrypt, and returns exactly their ids, in order |
| MessageRouter.Router.DeliverOne | src/MessageRouter.cpp:115-130 | a message that does not decrypt is skipped; one that does is pushed with the sender's name and its id is the one to mark |
| OfflineDelivery.AllMarkedSnoc | src/OfflineDelivery.cpp:41-47 | the result flag after one more mark holds exactly when it held before and this mark succeeded |
| OfflineDelivery.AllMarkedEvery | src/OfflineDelivery.cpp:25-47 | the result flag holds exactly when every markDelivered succeeded |
| OfflineDelivery.DeliverStored | src/OfflineDelivery.cpp:27-48 | one pass extends the queued payloads and marked ids by exactly this message's delivery, none when it does not decrypt, and updates the flag by its mark |
| OfflineDelivery.DeliverOfflineMessages | src/OfflineDelivery.cpp:9-58 | an unknown user fails with nothing queued; otherwise every stored message that decrypts is queued in order with the sender's name ("unknown" when that fails), exactly their ids are marked, and the result says whether every mark succeeded |
| OfflineDelivery.DeliverEach | src/OfflineDelivery.cpp:27-48 | the loop queues exactly the payloads of Deliveries, marks exactly their ids, and its flag says whether every mark succeeded |
| OfflineDelivery.SkippedDoNotCount | src/OfflineDelivery.cpp:30-33 | a message that does not decrypt adds no delivery and leaves the result unchanged |
| StatusManagers.ColorForState | src/StatusManager.cpp:6-15 | Operational is green, Error red, Booting and Processing yellow, and no state is off |
| StatusManagers.ColorName | src/StatusManager.cpp:17-26 | every colour prints as one of "off", "green", "yellow", "red" |
| StatusManagers.ColorNameInjective | src/StatusManager.cpp:17-26 | distinct colours print distinct names |
| StatusManagers.ColorAfter | src/StatusManager.cpp:41-64 | after a run of state changes the colour showing is the last state's colour |
| StatusManagers.DrivesNeverRepeat | src/StatusManager.cpp:57-64 | the hardware is driven only on a change: never with the colour already showing, never twice in a row with one colour, and never off |
| StatusManagers.DrivesEndsAtColor | src/StatusManager.cpp:57-64 | the last colour driven is the one left showing; with nothing driven the colour is unchanged |
| StatusManagers.StatusManager.constructor | src/StatusManager.cpp:29-34 | a new manager is Booting with the LED off and nothing driven |
| StatusManagers.StatusManager.SetState | src/StatusManager.cpp:41-47 | the state is recorded, the colour becomes its mapped colour and the hardware is driven only when that colour differs from the one showing |
| StatusManagers.StatusManager.ApplyState | src/StatusManager.cpp:57-64 | the mapped colour is shown, driven only on a change; the recorded state is left alone |
| StatusManagers.StatusManager.SetLedColor | src/StatusManager.cpp:49-55 | the colour is recorded and driven even when it is already showing |
| HuxleyServers.Step | src/HuxleyServer.cpp:238-263 | one pass takes the front fd off a non-empty queue |
| HuxleyServers.DispatchIsFifo | src/HuxleyServer.cpp:238-263 | without a -1 in the queue every fd is handled in queue order: all closed when the pool is empty (the index untouched), all assigned otherwise |
| HuxleyServers.DispatchIsRoundRobin | src/HuxleyServer.cpp:259-261 | every assignment goes to a worker of the pool, the first to the current index and each next one to the following worker modulo the pool size, and the index left behind is the one after the last worker used |
| HuxleyServers.SentinelStops | src/HuxleyServer.cpp:250-252 | a -1 ends the round: everything queued after it stays queued |
| HuxleyServers.HuxleyServer.constructor | src/HuxleyServer.cpp:32-51 | a new server is stopped, with an empty queue, no workers, index 0 and nothing assigned, closed or shown |
| HuxleyServers.HuxleyServer.Accept | src/HuxleyServer.cpp:229-232 | the accepted fd joins the back of the queue and nothing else changes |
| HuxleyServers.HuxleyServer.DispatchPendingClients | src/HuxleyServer.cpp:238-263 | the queue, the assignments, the closed fds and the index move exactly as Dispatch says; the pool and the status are untouched |
| HuxleyServers.HuxleyServer.DispatchOne | src/HuxleyServer.cpp:243-262 | one pass moves the state exactly as Step says, and stops exactly when the queue is empty or starts with -1 |
| HuxleyServers.HuxleyServer.StopWorkerPool | src/HuxleyServer.cpp:182-191 | the pool is empty and the index back at 0; nothing else changes |
| HuxleyServers.HuxleyServer.Start | src/HuxleyServer.cpp:60-84 | running: true and nothing changes; service failure: false; thread failure: false, stopped, with the pool emptied; otherwise true, running, with max(1, hardware threads) workers and the status Operational |
| HuxleyServers.HuxleyServer.Stop | src/HuxleyServer.cpp:86-112 | nothing unless running; otherwise every queued fd is closed in queue order, the pool is emptied and the server is stopped |
| HuxleyServers.Dispatch | src/HuxleyServer.cpp:238-263 | passes of Step until the queue is empty or a -1 stops it (DispatchIsFifo, DispatchIsRoundRobin, SentinelStops) |
| WorkerFrames.Frame | src/WorkerThread.cpp:342-360 | a framed payload is its 4-byte header followed by exactly the payload |
| WorkerFrames.FrameHeader | src/WorkerThread.cpp:348-350 | the header of a framed payload reads back as the payload's length |
| WorkerFrames.DeframeCons | src/WorkerThread.cpp:342-363 | a complete frame at the front of the buffer is cut off whole and the loop goes on with what follows |
| WorkerFrames.DeframeFramed | src/WorkerThread.cpp:342-363 | frames sent back to back come out as the same payloads in order, then parsing goes on with what follows |
| WorkerFrames.DeframeSplits | src/WorkerThread.cpp:342-363 | nothing is lost or reordered: the buffer is the frames cut off, re-framed, followed by what stays |
| WorkerFrames.DeframeRest | src/WorkerThread.cpp:343-357 | what stays is an incomplete frame, or starts with the oversized header the loop stopped at |
| WorkerFrames.PartialFrameStays | src/WorkerThread.cpp:344-346 | a trailing piece shorter than a header stays in the buffer |
| WorkerFrames.OversizedCloses | src/WorkerThread.cpp:351-354 | a header announcing more than 64 KiB closes the client, after the frames before it were served |
| WorkerFrames.ReceivedAppends | src/WorkerThread.cpp:320-335 | reading only appends to the receive buffer |
| WorkerFrames.SendAll | src/WorkerThread.cpp:376-390 | the bytes sent never exceed the message and all of it is sent when the loop completes |
| WorkerFrames.FlushAsWritten | src/WorkerThread.cpp:366-397 | as written: a drained queue is empty, but on EAGAIN the unsent remainder goes to the back of the queue |
| WorkerFrames.RequeueReorders | src/WorkerThread.cpp:383-386 | with "ab" and "cd" queued and only one byte sent, what went out and what is still queued spell "acdb", not "abcd" |
| WorkerFrames.FlushConserves | src/WorkerThread.cpp:366-397 | corrected (the remainder back at the front): what went out followed by what is still queued is the queue in order; a drained queue went out whole |
| WorkerFrames.EventMaskHasWrite | src/WorkerThread.cpp:30-33 | the mask asks for write readiness exactly when output is pending, always includes the base events and nothing else |
| WorkerFrames.Deframe | src/WorkerThread.cpp:342-363 | frames are cut from the buffer while a whole one is there, and an oversized header stops the loop and closes (DeframeFramed, DeframeSplits, OversizedCloses) |
| WorkerFrames.Flush | src/WorkerThread.cpp:366-397 | the corrected flush, with an unsent remainder put back at the front (FlushConserves) |
| WorkerSessions.ReplyOf | src/WorkerThread.cpp:401-484 | the response carries the command, success and message decided, and no other field |
| WorkerSessions.SessionChangesOnlyOnSuccess | src/WorkerThread.cpp:399-485 | only a successful login or logout changes the session; login opens one for the name given on a logged-out connection, logout succeeds exactly when logged in and clears it |
| WorkerSessions.LoginRule | src/WorkerThread.cpp:411-437 | login succeeds exactly on a connection not yet logged in, with good credentials, for a name not already routed |
| WorkerSessions.SendRule | src/WorkerThread.cpp:438-459 | sending succeeds exactly on a logged-in connection with a recipient, when the router stores the message |
| WorkerSessions.UnservedCommands | src/WorkerThread.cpp:476-482 | listing and history commands fall into the default branch: "unknown", failure, "Unknown command", session unchanged |
| WorkerSessions.AcceptKeepsCoherent | src/WorkerThread.cpp:187-216 | a new logged-out connection keeps the router holding exactly the logged-in connections |
| WorkerSessions.ApplyKeepsCoherent | src/WorkerThread.cpp:399-485 | every command keeps the router holding exactly the logged-in connections, each under its own name |
| WorkerSessions.CloseKeepsCoherent | src/WorkerThread.cpp:487-501 | closing a connection unroutes its user and keeps the router coherent |
| WorkerSessions.OneConnectionPerUser | src/WorkerThread.cpp:419-423 | in a coherent table a name is logged in on at most one connection |
| WorkerSessions.Decide | src/WorkerThread.cpp:399-485 | the reply and the new session `processCommand` gives each command kind (LoginRule, SendRule, UnservedCommands) |
| WorkerSessions.Apply | src/WorkerThread.cpp:399-485 | one command applied to a connection's session and the routing table (ApplyKeepsCoherent) |
| WorkerThreads.RecipientOf | src/WorkerThread.cpp:451 | the recipient's connection is found exactly when the name is routed, and is the routed one |
| WorkerThreads.RoutesAfterKeeps | src/WorkerThread.cpp:411-475 | after any command every route is either the serving connection or the one routed before |
| WorkerThreads.NoFrame | src/WorkerThread.cpp:343-357 | a buffer without a complete frame yields no frame, stays as it is, and is flagged oversized exactly when its header announces more than 64 KiB |
| WorkerThreads.SendOne | src/WorkerThread.cpp:376-390 | the inner send loop consumes send results exactly as SendAll describes and reports how far it got |
| WorkerThreads.Worker.constructor | src/WorkerThread.cpp:65-87 | a new worker keeps its router, auth manager and status manager, with no client, nothing closed or parsed |
| WorkerThreads.Worker.DoRegister | src/WorkerThread.cpp:404-410 | the decision is Decide's; on success the user is stored with the password's hash; sessions and routes are unchanged |
| WorkerThreads.Worker.DoLogin | src/WorkerThread.cpp:411-437 | the decision is Decide's; a successful login routes the connection, queues its offline messages ahead of the reply and turns the status Operational; a failed one leaves the LED alone |
| WorkerThreads.Worker.CompleteLogin | src/WorkerThread.cpp:424-431 | accepted credentials for a user not logged in elsewhere always succeed: the connection is named and routed, its offline messages are queued before the reply, and the status becomes Operational |
| WorkerThreads.Worker.DoSend | src/WorkerThread.cpp:438-459 | the decision is Decide's; a stored message is pushed to a routed recipient (to the sender's own queue when it writes to itself), and the recipient's session and input are untouched |
| WorkerThreads.Worker.DoLogout | src/WorkerThread.cpp:460-475 | the decision is Decide's; a successful logout unroutes the name and clears the session |
| WorkerThreads.Worker.ProcessCommand | src/WorkerThread.cpp:399-485 | the command is served as Decide says and its response queued last, after whatever it pushed |
| WorkerThreads.Worker.Execute | src/WorkerThread.cpp:403-482 | the switch serves each command as Decide says, with the router and the queues changed accordingly |
| WorkerThreads.Worker.ServeFrame | src/WorkerThread.cpp:359-362 | a frame is parsed and recorded; it throws exactly when parsing throws, otherwise it is answered; no other connection is routed and the receive buffer is untouched |
| WorkerThreads.Worker.ServeCommand | src/WorkerThread.cpp:362 | a parsed command is processed and replied to as Decide rules; the receive buffer is untouched and no connection other than this one joins the router |
| WorkerThreads.Worker.ServeNext | src/WorkerThread.cpp:355-362 | one pass cuts the first complete frame off the buffer and serves it, keeping the frames served so far in step with Deframe |
| WorkerThreads.Worker.ServeFrames | src/WorkerThread.cpp:342-363 | the loop serves frames in order while the buffer starts with a complete one and none has thrown; the frames served so far plus what is left deframe to what the buffer held |
| WorkerThreads.Worker.HandleFrames | src/WorkerThread.cpp:342-363 | the frames of the buffer are served in order until one throws; if none does, what stays is Deframe's rest and the client is to be closed exactly for an oversized header |
| WorkerThreads.Worker.ReadAvailable | src/WorkerThread.cpp:320-335 | the buffer and the open flag are Received's; activity is stamped exactly when bytes arrived; the session and the send queue are untouched |
| WorkerThreads.Worker.CloseClient | src/WorkerThread.cpp:487-501 | a logged-in connection's name is unrouted, the descriptor is closed and forgotten with its event mask |
| WorkerThreads.Worker.NotifyEvent | src/WorkerThread.cpp:218-239 | a known client gets write interest added to its mask; nothing else changes |
| WorkerThreads.Worker.HandleReadEvent | src/WorkerThread.cpp:309-364 | an unknown descriptor or a closed stream closes the client with nothing parsed; otherwise the frames are served in order and an oversized header closes it, leaving the rest buffered otherwise |
| WorkerThreads.Worker.Drain | src/WorkerThread.cpp:374-391 | the bytes sent and the way it ended are FlushAsWritten's, as is the queue left unless a send failed; a would-block notifies the owner |
| WorkerThreads.Worker.HandleWriteEvent | src/WorkerThread.cpp:366-397 | an unknown descriptor is closed; a drained queue drops write interest; a would-block keeps the requeued output and notifies; a failed send closes the client |

## Left out

- Sockets, `select`/`epoll`, threads, timers and mutexes: streams are chunk sequences, time is an integer parameter, and each lock-protected section is one atomic method.
- JSON parsing and serialisation are given functions. `ensure_ascii` (an ASCII-only body) is therefore not modelled.
- Timestamp parsing (`strptime`/`mktime`, `QDateTime::fromString`) is a given parser: only its success or failure and its value are used.
- Password hashing (libsodium), the `CryptoEngine` and the SQLite database are given functions and maps. History and offline queues are assumed to come back in `ORDER BY id ASC` order. The `CryptoEngine.cpp` inverted check at lines 79-85 is outside this model.
- Qt signals are an event log. `dataChanged`, `roleNames`, `setFilterText`, and the proxy's `setSourceModel` and sort calls are left out: they notify views and have no state of their own.
- `QString::localeAwareCompare` is modelled as code-point order.
- Case folding is ASCII-only and whitespace is the six ASCII spaces. A `QString`'s length is taken as its number of characters, not UTF-16 code units.
- Qt's null and empty strings are not told apart, and `QString::arg` is concatenation.
- ContactList.ContactListModel.IncrementUnread: the `int` unread counter is unbounded, so its 32-bit overflow is not modelled.
- `registerResult` is emitted by `MessageService.cpp` but not declared in `MessageService.h`. The model treats it as a declared signal.
- `client.cpp`:
  - A partial `send` is assumed to send everything.
  - A `recv` error is treated as end of stream.
  - The `ProtocolClient` constructor's optional descriptor is taken as absent.
  - The texts of nlohmann's exceptions are not modelled.
- The `CliApp` display loop (`run`, `display`, `consume_socket_events`), the curses drawing and the login forms (`_login_flow`, `_handle_login`, `_handle_register`, `_prompt_*`) are presentation. They are left out, except the offset bookkeeping in `_draw_chat`.
- Helpers the server calls but does not define (`queueFramedResponse`, `queueProtocolResponse`, `queueIncomingMessage`, `MessageRouter::isRegistered`) are modelled as queueing the payload text and as membership in the routing table.
- Python: a frame body that decodes to JSON that is not an object is not modelled, and neither is invalid UTF-8 (which raises `UnicodeDecodeError`).
- `WorkerThread::start`/`stop`/`eventLoop` and a failing `epoll_ctl` in `assignClient` are left out: they are thread and kernel plumbing.
- Where a header declares a different arity from its implementation, the implementation is modelled.
- `ClientState.cpp` calls `push` and `pop` on `sendQueue` (lines 49 and 66), while `ClientState.h:44` declares it a `std::deque`, whose members are `push_back` and `pop_front`. Both name the same FIFO queue, which is what the model keeps.
- `qt_session.py`: the GUI thread's calls into `ChatSession` interleave with `run` only at method boundaries. `_cmd_lock` is therefore not modelled, and `msleep(20)` is left out.
- `qt_session.py`: `time.monotonic()` and `time.gmtime()` are the `now` and `stamp` parameters. Each round trip's notifications and reply (or exception) are a `Trip` given as input.
- QtSession.EntriesOfItems: a history item that is not a JSON object is skipped, where `merge_history` would raise on it. The Python store models only object messages.
- QtSession.HistoryPeer: a truthy "with" that is not a string is passed over for the selected peer, where `_handle_history` (client/qt_session.py:208) would use that value as the peer key; conversations are keyed by strings only.
- QtSession.IncomingMessage: a sender, content or truthy timestamp that is present but not a string, and an id that is not a number, are replaced by "?", "", the current time and no id, where `_handle_incoming` (client/qt_session.py:178-183) stores them as they are; a message's fields are strings and its id an optional integer.
- QtSession.StrOr: a value that is present but not a string reads as the default, where `dict.get` returns it as it is; the sender and content of an incoming message inherit this.
- QtSession.IdOf: an "id" that is present but not a number reads as no id, where Python keeps the value and the store compares it as it is.
- QtSession.PayloadOf: a "payload" that is present but not an object reads as an empty one; `resp.get("payload") or {}` (client/qt_session.py:195, 207) does so only for a falsy value and raises AttributeError on a truthy non-dict one.
- QtSession.EntriesOf: a "messages" that is present but not a list reads as no messages, where `merge_history` iterates whatever it is (the characters of a string, the keys of a dict) or raises.
- QtSession.ChatSession.HandleHistory: inherits the PayloadOf, HistoryPeer and EntriesOf readings above, so a reply with a truthy non-dict payload returns quietly where the source raises.
- QtSession.ChatSession.RefreshUsers: inherits the PayloadOf reading above.
- QtSession.ChatSession.HandleIncoming: inherits the IncomingMessage readings above; HandleAsync, DispatchResponse and the poll methods reach it.
- TuiModel.UsernameOf: a "username" that is present but not a string reads as no peer, where `_move_selection` (client/tui_app.py:510) selects that value; peers are strings only.
- `client.py`'s `_handle_key` opens the blocking `_logout_screen` dialog on `q` and while a quit is pending (`client/client.py:1143-1146`, `1175-1179`). That dialog runs its own key loop and draws with curses, so it is left out. The key handler follows `tui_app.py`'s `y`/`n` prompt for both copies.

## Findings

| source | as written | input that shows it | evidently intended | confidence | as-written member | corrected member |
|---|---|---|---|---|---|---|
| client/qt_session.py:163 | a `list_users` reply calls `self._handle_users`, which `ChatSession` never defines, so dispatch raises `AttributeError`; nothing in `_poll_socket` or `run` catches it, so polling stops at that frame and the session thread ends | a pushed `{"type": "list_users_response", "success": true}` | the reply is handled like `_refresh_users`' reply, the users list is emitted and polling goes on | not executed | QtSession.UsersReplyStopsPolling | QtSession.ChatSession.PollSocketFixed |
| src/WorkerThread.cpp:383-386 | on EAGAIN the unsent remainder is queued at the back, behind messages still waiting | queue ["ab", "cd"], one byte sent, then EAGAIN: the client receives "acdb" | the remainder goes back to the front, so the stream stays in order | not executed | WorkerFrames.RequeueReorders | WorkerFrames.FlushConserves |
| client/tui_app.py:515-539 | the input line is cleared (line 522) before `_send_request` refuses a second pending send (line 535), so the typed message is lost | Enter on "hello" while an earlier send is still waiting for its reply | a refused message stays in the input line | not executed | TuiFacts.SendWhilePendingDropsInput | TuiFacts.SendKeepsUnsentInput |
| client/client.cpp:272 | the `/send` body starts one past the first occurrence of the recipient text anywhere in the line | "/send nd hi" sends "nd hi" to "nd" | the body is what follows the recipient token: "hi" | not executed | CliCommand.SendBodyTakesEarlierOccurrence | CliCommand.SendBodyFixedOnEarlierOccurrence |
| src/net/ProtocolClient.cpp:77 | `int(m_expectedLen)` turns a length of 2^31 or more negative, so the frame counts as complete at once, and the result depends on how the bytes were chunked | header 0x80000000, then one byte, delivered at once and then in two reads | lengths compared unsigned, so chunking never changes the frames | not executed | QtProtocol.HugeLengthBreaksChunking | QtProtocol.ChunkingInvariantUnsigned |
| src/service/MessageService.cpp:61-88 | the register branch emits `registerResult` without returning, so a failed register also reaches the generic failure check and emits `commandError` | `{"type": "register", "success": false, "message": "taken"}` | one `registerResult` only, like the login branch | not executed | MessageService.FailedRegisterWitness | MessageService.RegisterReportedOnce |
