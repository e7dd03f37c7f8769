/** `ChatSession` (client/qt_session.py): the Qt client's session thread.
    It keeps a FIFO queue of deferred commands, the selected peer, unread
    counters and refresh times, feeds a `ConversationStore`, and reports
    to the widgets through signals, modelled as the list of emitted
    signals. Each round trip to the server is a parameter: the reply
    `MessageClient` returns, or the exception its transport raised. */
module QtSession {
  import opened Wrappers
  import opened Json
  import opened Text
  import opened Conversations
  import opened ConversationStore
  import opened PyProtocol

  /** A deferred command in `_cmd_queue`. */
  datatype Job =
    | RequestHistory(peer: string)
    | SendInternal(peer: string, content: string, ts: string)

  datatype Signal =
    | UsersUpdated(users: Value)
    | ConversationUpdated(peer: string, messages: seq<Message>)
    | StatusChanged(status: string)
    | ErrorOccurred(text: Value)
    | Disconnected
    | UnreadUpdated(unread: map<string, int>)
    | LoginResult(ok: bool, text: Value)
    | RegisterResult(ok: bool, text: Value)

  /** What a `MessageClient` call gives back: its reply, or what the
      transport raised. */
  type Reply = Outcome<Option<Object>>

  /** `refresh_users_interval` and `refresh_history_interval`, in milliseconds. */
  const RefreshUsersInterval: int := 2500
  const RefreshHistoryInterval: int := 1500

  /** `command[:-9] if command.endswith("_response") else command`. */
  function BaseCommand(c: string): (b: string)
    ensures HasSuffix(c, "_response") ==> b + "_response" == c
    ensures !HasSuffix(c, "_response") ==> b == c
  {
    if HasSuffix(c, "_response") then c[..|c| - 9] else c
  }

  /** `bool(resp and resp.get("success"))`. */
  predicate ReplyOk(r: Option<Object>) {
    r.Some? && Succeeded(r.value)
  }

  /** `resp.get("message", default) if resp else "No response"`. */
  function ReplyText(r: Option<Object>, default: string): (t: Value)
    ensures r.None? || r == Some(map[]) ==> t == Str("No response")
    ensures r.Some? && "message" in r.value ==> t == r.value["message"]
    ensures r.Some? && r.value != map[] && "message" !in r.value ==> t == Str(default)
  {
    if r.None? || r.value == map[] then Str("No response")
    else if "message" in r.value then r.value["message"]
    else Str(default)
  }

  /** `o.get(key, default)` for a string field. */
  function StrOr(o: Object, key: string, default: string): string {
    if key in o && o[key].Str? then o[key].s else default
  }

  /** `resp.get("payload") or {}`. */
  function PayloadOf(o: Object): Object {
    if "payload" in o && o["payload"].Obj? then o["payload"].fields else map[]
  }

  /** `payload.get("users", [])`. */
  function UsersOf(payload: Object): Value {
    if "users" in payload then payload["users"] else Arr([])
  }

  /** An integer `id`, when there is one. */
  function IdOf(o: Object): Option<int> {
    if "id" in o && o["id"].Num? then Some(o["id"].n) else None
  }

  /** One element of `payload["messages"]`, as `merge_history` reads it. */
  function EntryOf(o: Object): HistoryEntry {
    HistoryEntry(IdOf(o), GetStr(o, "from"), GetStr(o, "to"), GetStr(o, "content"), GetStr(o, "timestamp"))
  }

  /** The object elements of `payload.get("messages", [])`, in order. */
  function EntriesOf(payload: Object): (es: seq<HistoryEntry>)
    ensures "messages" !in payload ==> es == []
  {
    if "messages" in payload && payload["messages"].Arr? then EntriesOfItems(payload["messages"].items) else []
  }

  function EntriesOfItems(items: seq<Value>): (es: seq<HistoryEntry>)
    ensures |es| <= |items|
  {
    if items == [] then []
    else (if items[0].Obj? then [EntryOf(items[0].fields)] else []) + EntriesOfItems(items[1..])
  }

  /** `payload.get("with") or self.selected_peer`, kept only when truthy. */
  function HistoryPeer(payload: Object, selected: Option<string>): (p: Option<string>)
    ensures p.Some? ==> p.value != ""
    ensures NonEmptyStr(payload, "with") ==> p == Some(payload["with"].s)
    ensures !NonEmptyStr(payload, "with") && selected.Some? && selected.value != "" ==> p == selected
    ensures !NonEmptyStr(payload, "with") && (selected.None? || selected == Some("")) ==> p.None?
  {
    if NonEmptyStr(payload, "with") then Some(payload["with"].s)
    else if selected.Some? && selected.value != "" then selected
    else None
  }

  /** `self.message_client.username or ""`. */
  function UserOr(u: Option<string>): string {
    if u.Some? then u.value else ""
  }

  /** The message `_handle_incoming` stores for a pushed frame. */
  function IncomingMessage(resp: Object, me: Option<string>, nowStamp: string): (m: Message)
    ensures m.sender == StrOr(resp, "sender", "?")
    ensures m.recipient == UserOr(me)
    ensures NonEmptyStr(resp, "timestamp") ==> m.timestamp == resp["timestamp"].s
    ensures !NonEmptyStr(resp, "timestamp") ==> m.timestamp == nowStamp
  {
    var ts := if NonEmptyStr(resp, "timestamp") then resp["timestamp"].s else nowStamp;
    Message(IdOf(resp), StrOr(resp, "sender", "?"), UserOr(me), StrOr(resp, "content", ""), ts)
  }

  /** `self.unread[peer] = self.unread.get(peer, 0) + 1`. */
  function Bumped(unread: map<string, int>, peer: string): (u: map<string, int>)
    ensures peer in u && u[peer] == (if peer in unread then unread[peer] else 0) + 1
    ensures forall p :: p in unread && p != peer ==> p in u && u[p] == unread[p]
    ensures forall p :: p in u ==> p in unread || p == peer
  {
    unread[peer := (if peer in unread then unread[peer] else 0) + 1]
  }

  /** Where `_dispatch_response` sends a frame. */
  datatype Route = ToIncoming | ToUsers | ToHistory | ToFailureCheck

  function RouteOf(resp: Object): (r: Route)
    ensures var c := ExtractCommand(resp).GetOr("");
      (r == ToIncoming <==> c == "incoming_message" || c == "incoming_message_response") &&
      (r == ToUsers <==> c != "incoming_message" && c != "incoming_message_response" && BaseCommand(c) == "list_users") &&
      (r == ToHistory <==> c != "incoming_message" && c != "incoming_message_response" && BaseCommand(c) == "get_history")
  {
    var c := ExtractCommand(resp).GetOr("");
    if c == "incoming_message" || c == "incoming_message_response" then ToIncoming
    else if BaseCommand(c) == "list_users" then ToUsers
    else if BaseCommand(c) == "get_history" then ToHistory
    else ToFailureCheck
  }

  /** The command a pushed `list_users` reply carries. */
  const ListUsersReply: string := "list_users_response"

  /** It survives `.strip().lower()` unchanged. */
  lemma ListUsersReplyIsClean()
    ensures Lower(Strip(ListUsersReply)) == ListUsersReply
  {
    StripFixed(ListUsersReply);
    LowerFixed(ListUsersReply);
  }

  /** It is not an incoming message and its base command is `list_users`. */
  lemma ListUsersReplyBase()
    ensures ListUsersReply != "incoming_message" && ListUsersReply != "incoming_message_response"
    ensures BaseCommand(ListUsersReply) == "list_users"
  {
    var c := ListUsersReply;
    assert c[0] == 'l';
    assert c[|c| - 9..] == "_response";
    assert c[..|c| - 9] == "list_users";
  }

  /** A `list_users` reply pushed by the server reaches the users route,
      whose handler `ChatSession` never defines. */
  lemma ListUsersReplyReachesUsersRoute()
    ensures RouteOf(map["type" := Str(ListUsersReply), "success" := Bool(true)]) == ToUsers
  {
    var o: Object := map["type" := Str(ListUsersReply), "success" := Bool(true)];
    assert NonEmptyStr(o, "type") && o["type"].s == ListUsersReply;
    ListUsersReplyIsClean();
    ListUsersReplyBase();
  }

  /** A frame `_handle_async` and `_dispatch_response` file as an incoming message. */
  predicate IsIncoming(resp: Object) {
    ExtractCommand(resp) == Some("incoming_message") || ExtractCommand(resp) == Some("incoming_message_response")
  }

  /** The peer `_handle_incoming` files a message under. */
  function SenderOf(resp: Object): string {
    StrOr(resp, "sender", "?")
  }

  /** `self._conversations.get(peer, [])` over a table of conversations. */
  function ConvIn(convs: map<string, seq<Message>>, peer: string): seq<Message> {
    if peer in convs then convs[peer] else []
  }

  /** `store.get(peer)` over a table of conversations. */
  function Shown(convs: map<string, seq<Message>>, peer: string): seq<Message> {
    if peer == "" then [] else ConvIn(convs, peer)
  }

  /** The table `store.merge_history(peer, entries)` leaves. */
  function HistoryMerged(parse: Parser, maxBuffer: int, convs: map<string, seq<Message>>, peer: string, entries: seq<HistoryEntry>): map<string, seq<Message>> {
    var combined := ConvIn(convs, peer) + FromHistoryAll(entries);
    convs[peer := if combined == [] then [] else Reconcile(parse, maxBuffer, combined)]
  }

  /** One round trip through `MessageClient`: the notifications
      `_recv_command_response` hands to `_handle_async` while it waits,
      in arrival order, then the reply or what the transport raised. */
  datatype Trip = Trip(notes: seq<Object>, reply: Reply)

  /** What `_handle_async` changes: the stored conversations, the unread
      counts, the command queue and the emitted signals. */
  datatype Effects = Effects(convs: map<string, seq<Message>>, unread: map<string, int>, queue: seq<Job>, events: seq<Signal>)

  /** What `_handle_async` reads: the store's parser and bound, the selected
      peer, the logged-in user and the stamp of a message without one. */
  datatype Context = Context(parse: Parser, maxBuffer: int, selected: Option<string>, me: Option<string>, stamp: string)

  /** `_handle_incoming(response)` on values: the message is stored under
      its sender, then counted as unread or its history re-requested. */
  function IncomingStep(ctx: Context, e: Effects, resp: Object): Effects {
    var m := IncomingMessage(resp, ctx.me, ctx.stamp);
    var peer := m.sender;
    var convs := e.convs[peer := Reconcile(ctx.parse, ctx.maxBuffer, ConvIn(e.convs, peer) + [AppendForm(m)])];
    if ctx.selected != Some(peer) then
      var u := Bumped(e.unread, peer);
      Effects(convs, u, e.queue, e.events + [UnreadUpdated(u), ConversationUpdated(peer, Shown(convs, peer))])
    else
      Effects(convs, e.unread, e.queue + [RequestHistory(peer)], e.events + [ConversationUpdated(peer, Shown(convs, peer))])
  }

  /** `_handle_async(response)` on values: an incoming message is stored
      under its sender, then counted as unread or its history re-requested;
      a timeout is reported; anything else is dropped. */
  function AsyncStep(ctx: Context, e: Effects, resp: Object): Effects {
    if IsIncoming(resp) then IncomingStep(ctx, e, resp)
    else if ExtractCommand(resp) == Some("timeout") then
      e.(events := e.events + [ErrorOccurred(if "message" in resp then resp["message"] else Str("Timeout"))])
    else e
  }

  /** A round trip's notifications handed to `_handle_async` in order. */
  function AsyncAll(ctx: Context, e: Effects, notes: seq<Object>): Effects
    decreases |notes|
  {
    if notes == [] then e else AsyncStep(ctx, AsyncAll(ctx, e, notes[..|notes| - 1]), notes[|notes| - 1])
  }

  /** The history requests a round trip's notifications queue: one per
      incoming message from the selected peer. */
  function NoteJobs(notes: seq<Object>, selected: Option<string>): (js: seq<Job>)
    ensures |js| <= |notes|
    ensures forall i :: 0 <= i < |js| ==> js[i].RequestHistory? && selected == Some(js[i].peer)
    decreases |notes|
  {
    if notes == [] then []
    else
      var o := notes[|notes| - 1];
      NoteJobs(notes[..|notes| - 1], selected) + (if IsIncoming(o) && selected == Some(SenderOf(o)) then [RequestHistory(SenderOf(o))] else [])
  }

  /** How many of the notifications are incoming messages from `peer`. */
  function IncomingFrom(notes: seq<Object>, peer: string): nat
    decreases |notes|
  {
    if notes == [] then 0
    else IncomingFrom(notes[..|notes| - 1], peer) + (if IsIncoming(notes[|notes| - 1]) && SenderOf(notes[|notes| - 1]) == peer then 1 else 0)
  }

  /** The unread counts after a round trip's notifications: each incoming
      message from a peer other than the selected one bumps that peer. */
  function NoteUnread(unread: map<string, int>, notes: seq<Object>, selected: Option<string>): map<string, int>
    decreases |notes|
  {
    if notes == [] then unread
    else
      var u := NoteUnread(unread, notes[..|notes| - 1], selected);
      var o := notes[|notes| - 1];
      if IsIncoming(o) && selected != Some(SenderOf(o)) then Bumped(u, SenderOf(o)) else u
  }

  /** A peer that is not selected gains one unread per message it sent;
      the selected peer's count is left as it was. */
  lemma {:induction false} NoteUnreadCounts(unread: map<string, int>, notes: seq<Object>, selected: Option<string>)
    ensures var u := NoteUnread(unread, notes, selected);
      forall p :: Some(p) != selected ==>
        (p in u <==> p in unread || IncomingFrom(notes, p) > 0) &&
        (p in u ==> u[p] == (if p in unread then unread[p] else 0) + IncomingFrom(notes, p))
    ensures var u := NoteUnread(unread, notes, selected);
      selected.Some? ==> (selected.value in u <==> selected.value in unread) &&
                         (selected.value in unread ==> u[selected.value] == unread[selected.value])
    decreases |notes|
  {
    if notes != [] {
      NoteUnreadCounts(unread, notes[..|notes| - 1], selected);
    }
  }

  /** The queue and the unread counts a round trip's notifications leave are
      those of NoteJobs and NoteUnread, and signals are only appended. */
  lemma {:induction false} AsyncAllEffects(ctx: Context, e: Effects, notes: seq<Object>)
    ensures AsyncAll(ctx, e, notes).queue == e.queue + NoteJobs(notes, ctx.selected)
    ensures AsyncAll(ctx, e, notes).unread == NoteUnread(e.unread, notes, ctx.selected)
    ensures e.events <= AsyncAll(ctx, e, notes).events
    decreases |notes|
  {
    if notes != [] {
      var init := notes[..|notes| - 1];
      AsyncAllEffects(ctx, e, init);
      var a := AsyncAll(ctx, e, init);
      var o := notes[|notes| - 1];
      assert AsyncAll(ctx, e, notes) == AsyncStep(ctx, a, o);
      assert IsIncoming(o) ==> IncomingMessage(o, ctx.me, ctx.stamp).sender == SenderOf(o);
      assert e.queue + NoteJobs(notes, ctx.selected) ==
             (e.queue + NoteJobs(init, ctx.selected)) + (if IsIncoming(o) && ctx.selected == Some(SenderOf(o)) then [RequestHistory(SenderOf(o))] else []);
    }
  }

  /** Without an incoming message, notifications change nothing but the
      signals, and the only signals they add are errors. */
  lemma {:induction false} AsyncAllQuiet(ctx: Context, e: Effects, notes: seq<Object>)
    requires forall i :: 0 <= i < |notes| ==> !IsIncoming(notes[i])
    ensures var a := AsyncAll(ctx, e, notes);
      a.convs == e.convs && a.unread == e.unread && a.queue == e.queue && e.events <= a.events &&
      forall k :: |e.events| <= k < |a.events| ==> a.events[k].ErrorOccurred?
    decreases |notes|
  {
    if notes != [] {
      var init := notes[..|notes| - 1];
      AsyncAllQuiet(ctx, e, init);
      assert AsyncAll(ctx, e, notes) == AsyncStep(ctx, AsyncAll(ctx, e, init), notes[|notes| - 1]);
    }
  }

  /** A job passes `MessageClient`'s own checks and makes its round trip. */
  predicate Reaches(job: Job, user: Option<string>) {
    match job
    case RequestHistory(peer) => peer != ""
    case SendInternal(_, _, _) => user.Some? && user.value != ""
  }

  /** The history request a send the server confirmed leaves behind, if any. */
  function FollowUp(job: Job, reply: Reply, selected: Option<string>): (f: seq<Job>)
    ensures |f| <= 1 && forall i :: 0 <= i < |f| ==> f[i].RequestHistory? && selected == Some(f[i].peer)
  {
    match job
    case RequestHistory(_) => []
    case SendInternal(peer, _, _) =>
      if reply.Returned? && ReplyOk(reply.value) && selected == Some(peer) then [RequestHistory(peer)] else []
  }

  /** The message of the exception a job raises, if it raises: the
      `MessageClient` checks come before the transport. */
  function JobError(job: Job, reply: Reply, user: Option<string>): (e: Option<string>)
    ensures job.RequestHistory? && job.peer == "" ==> e == Some("Peer username is required")
    ensures job.SendInternal? && (user.None? || user == Some("")) ==> e == Some("You must /login before sending messages")
    ensures e.None? <==> Reaches(job, user) && reply.Returned?
    ensures Reaches(job, user) && reply.Raised? ==> e == Some(reply.error)
  {
    match job
    case RequestHistory(peer) =>
      if peer == "" then Some("Peer username is required")
      else if reply.Raised? then Some(reply.error) else None
    case SendInternal(_, _, _) =>
      if user.None? || user == Some("") then Some("You must /login before sending messages")
      else if reply.Raised? then Some(reply.error) else None
  }

  /** What one drained job leaves queued: the history requests of its
      notifications, then its own follow-up. */
  function JobQueued(job: Job, trip: Trip, selected: Option<string>, user: Option<string>): (q: seq<Job>)
    ensures forall i :: 0 <= i < |q| ==> q[i].RequestHistory? && selected == Some(q[i].peer)
  {
    if Reaches(job, user) then
      NoteJobs(trip.notes, selected) + FollowUp(job, trip.reply, selected)
    else []
  }

  /** The unread counts after one drained job. */
  function JobUnread(unread: map<string, int>, job: Job, trip: Trip, selected: Option<string>, user: Option<string>): map<string, int> {
    if Reaches(job, user) then NoteUnread(unread, trip.notes, selected) else unread
  }

  /** What a drained batch leaves queued, in order. */
  function FollowUps(jobs: seq<Job>, trips: seq<Trip>, selected: Option<string>, user: Option<string>): (r: seq<Job>)
    requires |trips| == |jobs|
    ensures forall i :: 0 <= i < |r| ==> r[i].RequestHistory? && selected == Some(r[i].peer)
    decreases |jobs|
  {
    if jobs == [] then []
    else
      FollowUps(jobs[..|jobs| - 1], trips[..|jobs| - 1], selected, user) +
      JobQueued(jobs[|jobs| - 1], trips[|jobs| - 1], selected, user)
  }

  /** The unread counts after a drained batch. */
  function DrainUnread(unread: map<string, int>, jobs: seq<Job>, trips: seq<Trip>, selected: Option<string>, user: Option<string>): map<string, int>
    requires |trips| == |jobs|
    decreases |jobs|
  {
    if jobs == [] then unread
    else JobUnread(DrainUnread(unread, jobs[..|jobs| - 1], trips[..|jobs| - 1], selected, user), jobs[|jobs| - 1], trips[|jobs| - 1], selected, user)
  }

  /** One more job of a batch. */
  lemma FollowUpsStep(jobs: seq<Job>, trips: seq<Trip>, i: int, unread: map<string, int>, selected: Option<string>, user: Option<string>)
    requires |trips| == |jobs| && 0 <= i < |jobs|
    ensures FollowUps(jobs[..i + 1], trips[..i + 1], selected, user) ==
            FollowUps(jobs[..i], trips[..i], selected, user) + JobQueued(jobs[i], trips[i], selected, user)
    ensures DrainUnread(unread, jobs[..i + 1], trips[..i + 1], selected, user) ==
            JobUnread(DrainUnread(unread, jobs[..i], trips[..i], selected, user), jobs[i], trips[i], selected, user)
  {
    assert jobs[..i + 1][..i] == jobs[..i];
    assert trips[..i + 1][..i] == trips[..i];
  }

  /** No drained job changes the selected peer's unread count. */
  lemma {:induction false} DrainKeepsSelectedUnread(unread: map<string, int>, jobs: seq<Job>, trips: seq<Trip>, selected: Option<string>, user: Option<string>)
    requires |trips| == |jobs| && selected.Some?
    ensures var u := DrainUnread(unread, jobs, trips, selected, user);
      (selected.value in u <==> selected.value in unread) &&
      (selected.value in unread ==> u[selected.value] == unread[selected.value])
    decreases |jobs|
  {
    if jobs != [] {
      var n := |jobs| - 1;
      DrainKeepsSelectedUnread(unread, jobs[..n], trips[..n], selected, user);
      NoteUnreadCounts(DrainUnread(unread, jobs[..n], trips[..n], selected, user), trips[n].notes, selected);
    }
  }

  /** Where `_poll_socket` as written stops: at the first end of stream or
      `list_users` reply, whose dispatch raises. */
  function PollStop(frames: seq<Option<Object>>): (k: nat)
    ensures k <= |frames|
    ensures forall j :: 0 <= j < k ==> frames[j].Some? && RouteOf(frames[j].value) != ToUsers
    ensures k < |frames| ==> frames[k].None? || RouteOf(frames[k].value) == ToUsers
  {
    if frames == [] then 0
    else if frames[0].None? || RouteOf(frames[0].value) == ToUsers then 0
    else 1 + PollStop(frames[1..])
  }

  /** Where `_poll_socket` stops when every dispatch returns: the first end
      of stream. */
  function FirstEnd(frames: seq<Option<Object>>): (k: nat)
    ensures k <= |frames|
    ensures forall j :: 0 <= j < k ==> frames[j].Some?
    ensures k < |frames| ==> frames[k].None?
  {
    if frames == [] then 0
    else if frames[0].None? then 0
    else 1 + FirstEnd(frames[1..])
  }

  /** A `list_users` reply pushed first stops the polling loop as written
      at that frame; the loop with the users route handled goes past it. */
  lemma UsersReplyStopsPolling(rest: seq<Option<Object>>)
    ensures var fs := [Some(map["type" := Str(ListUsersReply), "success" := Bool(true)])] + rest;
      PollStop(fs) == 0 && FirstEnd(fs) > 0
  {
    ListUsersReplyReachesUsersRoute();
  }

  /** `_handle_history(resp)` on values: a successful reply with a peer is
      merged into that peer's conversation, which is re-emitted. */
  function HistoryStep(parse: Parser, maxBuffer: int, selected: Option<string>, e: Effects, resp: Object): Effects {
    var payload := PayloadOf(resp);
    var peer := HistoryPeer(payload, selected);
    if ReplyOk(Some(resp)) && peer.Some? then
      var convs := HistoryMerged(parse, maxBuffer, e.convs, peer.value, EntriesOf(payload));
      e.(convs := convs, events := e.events + [ConversationUpdated(peer.value, Shown(convs, peer.value))])
    else e
  }

  /** The failure check at the end of `_dispatch_response`. */
  function FailureStep(e: Effects, resp: Object): Effects {
    e.(events := e.events + (if TruthyOr(resp, "success", true) then [] else [ErrorOccurred(if "message" in resp then resp["message"] else Str("Command failed"))]))
  }

  /** A `list_users` reply handled as `_refresh_users` handles its reply. */
  function UsersStep(e: Effects, resp: Object): Effects {
    e.(events := e.events + (if ReplyOk(Some(resp)) then [UsersUpdated(UsersOf(PayloadOf(resp)))] else []))
  }

  /** `_dispatch_response(response)` on values. As written (`usersHandled`
      false) the users route raises before it changes anything. */
  function DispatchStep(ctx: Context, e: Effects, resp: Object, usersHandled: bool): Effects {
    match RouteOf(resp)
    case ToIncoming => IncomingStep(ctx, e, resp)
    case ToUsers => if usersHandled then UsersStep(e, resp) else e
    case ToHistory => HistoryStep(ctx.parse, ctx.maxBuffer, ctx.selected, e, resp)
    case ToFailureCheck => FailureStep(e, resp)
  }

  /** One `recv_response` result in `_poll_socket`'s loop: end of stream
      emits `disconnected`, a frame is dispatched. */
  function PollStep(ctx: Context, e: Effects, frame: Option<Object>, usersHandled: bool): Effects {
    match frame
    case None => e.(events := e.events + [Disconnected])
    case Some(o) => DispatchStep(ctx, e, o, usersHandled)
  }

  /** The frames `_poll_socket` reads, handled in order. */
  function PollAll(ctx: Context, e: Effects, frames: seq<Option<Object>>, usersHandled: bool): Effects
    decreases |frames|
  {
    if frames == [] then e
    else PollStep(ctx, PollAll(ctx, e, frames[..|frames| - 1], usersHandled), frames[|frames| - 1], usersHandled)
  }

  /** The frames among `recv_response`'s results, in order. */
  function Sent(frames: seq<Option<Object>>): (os: seq<Object>)
    ensures |os| <= |frames|
    decreases |frames|
  {
    if frames == [] then []
    else Sent(frames[..|frames| - 1]) + (if frames[|frames| - 1].Some? then [frames[|frames| - 1].value] else [])
  }

  /** The frames `_poll_socket` as written reads: up to and including its stop point. */
  function PollRead(frames: seq<Option<Object>>): (n: nat)
    ensures n <= |frames|
  {
    if PollStop(frames) < |frames| then PollStop(frames) + 1 else PollStop(frames)
  }

  /** The frames `_poll_socket` reads when every dispatch returns: up to and
      including the first end of stream. */
  function FixedRead(frames: seq<Option<Object>>): (n: nat)
    ensures n <= |frames|
  {
    if FirstEnd(frames) < |frames| then FirstEnd(frames) + 1 else FirstEnd(frames)
  }

  /** One more frame read. */
  lemma PollAllSnoc(ctx: Context, e: Effects, frames: seq<Option<Object>>, i: nat, usersHandled: bool)
    requires i < |frames|
    ensures frames[..i + 1] == frames[..i] + [frames[i]]
    ensures PollAll(ctx, e, frames[..i + 1], usersHandled) == PollStep(ctx, PollAll(ctx, e, frames[..i], usersHandled), frames[i], usersHandled)
  {
    assert frames[..i + 1][..i] == frames[..i];
  }

  /** An incoming message is dispatched to the incoming route, and only it. */
  lemma IncomingRoute(resp: Object)
    ensures IsIncoming(resp) <==> RouteOf(resp) == ToIncoming
  {
  }

  /** A history reply changes only the conversations and appends signals. */
  lemma HistoryStepKeeps(ctx: Context, e: Effects, resp: Object)
    ensures var h := HistoryStep(ctx.parse, ctx.maxBuffer, ctx.selected, e, resp);
      h.queue == e.queue && h.unread == e.unread && e.events <= h.events
  {
  }

  /** An incoming message queues a history request when its sender is
      selected, and bumps the sender otherwise. */
  lemma IncomingStepEffects(ctx: Context, e: Effects, o: Object)
    ensures var d := IncomingStep(ctx, e, o);
      && d.queue == e.queue + (if ctx.selected == Some(SenderOf(o)) then [RequestHistory(SenderOf(o))] else [])
      && d.unread == (if ctx.selected != Some(SenderOf(o)) then Bumped(e.unread, SenderOf(o)) else e.unread)
      && e.events <= d.events
  {
    assert IncomingMessage(o, ctx.me, ctx.stamp).sender == SenderOf(o);
  }

  /** One frame read queues a history request for an incoming message from
      the selected peer, bumps an unselected sender, and otherwise only
      appends signals. */
  lemma PollStepEffects(ctx: Context, e: Effects, f: Option<Object>, usersHandled: bool)
    ensures var d := PollStep(ctx, e, f, usersHandled);
      var incoming := f.Some? && IsIncoming(f.value);
      && d.queue == e.queue + (if incoming && ctx.selected == Some(SenderOf(f.value)) then [RequestHistory(SenderOf(f.value))] else [])
      && d.unread == (if incoming && ctx.selected != Some(SenderOf(f.value)) then Bumped(e.unread, SenderOf(f.value)) else e.unread)
      && e.events <= d.events
  {
    if f.Some? {
      var o := f.value;
      IncomingRoute(o);
      match RouteOf(o)
      case ToIncoming => IncomingStepEffects(ctx, e, o);
      case ToUsers =>
      case ToHistory => HistoryStepKeeps(ctx, e, o);
      case ToFailureCheck =>
    }
  }

  /** The incoming messages among the frames read are those of the earlier
      frames, then the last one if it is one. */
  lemma SentSnoc(frames: seq<Option<Object>>)
    requires frames != []
    ensures var f := frames[|frames| - 1];
      var os := Sent(frames);
      && os == Sent(frames[..|frames| - 1]) + (if f.Some? then [f.value] else [])
      && (f.Some? ==> os != [] && os[..|os| - 1] == Sent(frames[..|frames| - 1]) && os[|os| - 1] == f.value)
      && (f.None? ==> os == Sent(frames[..|frames| - 1]))
  {
  }

  /** The history requests of the incoming messages among the frames read. */
  lemma NoteJobsSnoc(frames: seq<Option<Object>>, selected: Option<string>)
    requires frames != []
    ensures var f := frames[|frames| - 1];
      NoteJobs(Sent(frames), selected) == NoteJobs(Sent(frames[..|frames| - 1]), selected) +
        (if f.Some? && IsIncoming(f.value) && selected == Some(SenderOf(f.value)) then [RequestHistory(SenderOf(f.value))] else [])
  {
    SentSnoc(frames);
  }

  /** Polling queues NoteJobs of the incoming messages it reads. */
  lemma {:induction false} PollAllQueue(ctx: Context, e: Effects, frames: seq<Option<Object>>, usersHandled: bool)
    ensures PollAll(ctx, e, frames, usersHandled).queue == e.queue + NoteJobs(Sent(frames), ctx.selected)
    decreases |frames|
  {
    if frames != [] {
      var init := frames[..|frames| - 1];
      PollAllQueue(ctx, e, init, usersHandled);
      PollStepEffects(ctx, PollAll(ctx, e, init, usersHandled), frames[|frames| - 1], usersHandled);
      NoteJobsSnoc(frames, ctx.selected);
    }
  }

  /** One more notification after a list of them. */
  lemma NoteUnreadAppend(unread: map<string, int>, notes: seq<Object>, o: Object, selected: Option<string>)
    ensures var u := NoteUnread(unread, notes, selected);
      NoteUnread(unread, notes + [o], selected) == if IsIncoming(o) && selected != Some(SenderOf(o)) then Bumped(u, SenderOf(o)) else u
  {
    assert (notes + [o])[..|notes|] == notes;
  }

  /** Polling leaves the unread counts NoteUnread of the incoming messages it reads. */
  lemma {:induction false} PollAllUnread(ctx: Context, e: Effects, frames: seq<Option<Object>>, usersHandled: bool)
    ensures PollAll(ctx, e, frames, usersHandled).unread == NoteUnread(e.unread, Sent(frames), ctx.selected)
    decreases |frames|
  {
    if frames != [] {
      var init := frames[..|frames| - 1];
      PollAllUnread(ctx, e, init, usersHandled);
      PollStepEffects(ctx, PollAll(ctx, e, init, usersHandled), frames[|frames| - 1], usersHandled);
      SentSnoc(frames);
      var f := frames[|frames| - 1];
      if f.Some? {
        NoteUnreadAppend(e.unread, Sent(init), f.value, ctx.selected);
      }
    }
  }

  /** Polling only appends signals. */
  lemma {:induction false} PollAllSignals(ctx: Context, e: Effects, frames: seq<Option<Object>>, usersHandled: bool)
    ensures e.events <= PollAll(ctx, e, frames, usersHandled).events
    decreases |frames|
  {
    if frames != [] {
      var init := frames[..|frames| - 1];
      PollAllSignals(ctx, e, init, usersHandled);
      PollStepEffects(ctx, PollAll(ctx, e, init, usersHandled), frames[|frames| - 1], usersHandled);
    }
  }

  /** Polling changes the queue and the unread counts only through the
      incoming messages it reads, as their notifications would, and only
      appends signals. */
  lemma PollAllEffects(ctx: Context, e: Effects, frames: seq<Option<Object>>, usersHandled: bool)
    ensures PollAll(ctx, e, frames, usersHandled).queue == e.queue + NoteJobs(Sent(frames), ctx.selected)
    ensures PollAll(ctx, e, frames, usersHandled).unread == NoteUnread(e.unread, Sent(frames), ctx.selected)
    ensures e.events <= PollAll(ctx, e, frames, usersHandled).events
  {
    PollAllQueue(ctx, e, frames, usersHandled);
    PollAllUnread(ctx, e, frames, usersHandled);
    PollAllSignals(ctx, e, frames, usersHandled);
  }

  /** Before a `list_users` reply, the poll as written and the poll with
      the users route handled have the same effects. */
  lemma {:induction false} PollAgreesWithoutUsers(ctx: Context, e: Effects, frames: seq<Option<Object>>)
    requires forall j :: 0 <= j < |frames| && frames[j].Some? ==> RouteOf(frames[j].value) != ToUsers
    ensures PollAll(ctx, e, frames, false) == PollAll(ctx, e, frames, true)
    decreases |frames|
  {
    if frames != [] {
      PollAgreesWithoutUsers(ctx, e, frames[..|frames| - 1]);
    }
  }

  /** Up to its stop point, the poll as written does what the corrected
      poll does; it only parts ways at a `list_users` reply. */
  lemma PollAgreesBeforeStop(ctx: Context, e: Effects, frames: seq<Option<Object>>)
    ensures PollAll(ctx, e, frames[..PollStop(frames)], false) == PollAll(ctx, e, frames[..PollStop(frames)], true)
  {
    PollAgreesWithoutUsers(ctx, e, frames[..PollStop(frames)]);
  }

  /** The session fields other than the signal list and the store. */
  datatype View = View(
    running: bool, connected: bool, username: Option<string>, selectedPeer: Option<string>,
    unread: map<string, int>, lastUsersRefresh: int, lastHistoryRefresh: int, queue: seq<Job>,
    ran: seq<Job>, received: seq<Option<Object>>)

  /** The inputs of one pass of `run`'s loop: the round trip of the i-th
      drained job, the frames ready on the socket, the clock, and the round
      trips of the periodic refresh. */
  datatype Round = Round(respond: nat -> Trip, frames: seq<Option<Object>>, now: int, stamp: string, users: Trip, history: Trip)

  class ChatSession {
    const historyLimit: int
    const store: Store
    var running: bool
    /** `protocol.raw_socket is not None`. */
    var connected: bool
    /** `message_client.username`. */
    var username: Option<string>
    var selectedPeer: Option<string>
    var unread: map<string, int>
    var lastUsersRefresh: int
    var lastHistoryRefresh: int
    var queue: seq<Job>
    var events: seq<Signal>
    /** Every job `_drain_commands` has started, in order. */
    ghost var ran: seq<Job>
    /** Every `recv_response` result `_poll_socket` has read, in order. */
    ghost var received: seq<Option<Object>>

    ghost predicate Valid()
      reads this, store
    {
      store.Valid()
    }

    ghost function ViewOf(): View
      reads this
    {
      View(running, connected, username, selectedPeer, unread, lastUsersRefresh, lastHistoryRefresh, queue, ran, received)
    }

    /** The state `_handle_async` changes. */
    ghost function Eff(): Effects
      reads this, store
    {
      Effects(store.conversations, unread, queue, events)
    }

    /** The state `_handle_async` reads. */
    ghost function Ctx(stamp: string): Context
      reads this
    {
      Context(store.parse, store.maxBuffer, selectedPeer, username, stamp)
    }

    constructor(historyLimit: int, parse: Parser)
      ensures this.historyLimit == if historyLimit < 1 then 1 else historyLimit
      ensures fresh(store) && store.conversations == map[] && store.parse == parse
      ensures store.maxBuffer == if this.historyLimit * 4 < 200 then 200 else this.historyLimit * 4
      ensures ViewOf() == View(true, false, None, None, map[], 0, 0, [], [], [])
      ensures events == []
      ensures Valid()
    {
      var h := if historyLimit < 1 then 1 else historyLimit;
      this.historyLimit := h;
      store := new Store(if h * 4 < 200 then 200 else h * 4, parse);
      running := true;
      connected := false;
      username := None;
      selectedPeer := None;
      unread := map[];
      lastUsersRefresh := 0;
      lastHistoryRefresh := 0;
      queue := [];
      events := [];
      ran := [];
      received := [];
    }

    /** `connect_socket()`: `failure` is the exception `connect` raised, if any. */
    method ConnectSocket(failure: Option<string>) returns (ok: bool)
      modifies this
      ensures ok == failure.None? && connected == (ok || old(connected))
      ensures ok ==> events == old(events)
      ensures !ok ==> events == old(events) + [ErrorOccurred(Str("Connect failed: " + failure.value))]
      ensures ViewOf() == old(ViewOf()).(connected := connected)
    {
      if failure.Some? {
        events := events + [ErrorOccurred(Str("Connect failed: " + failure.value))];
        return false;
      }
      connected := true;
      ok := true;
    }

    /** `stop()`. */
    method Stop()
      modifies this
      ensures ViewOf() == old(ViewOf()).(running := false) && events == old(events)
    {
      running := false;
    }

    /** `register(username, password)`: the notifications that arrive
        first, then the result signal; an exception goes to the caller. */
    method Register(trip: Trip, stamp: string) returns (r: Outcome<()>)
      modifies this, store
      requires Valid()
      ensures Valid()
      ensures ViewOf() == old(ViewOf()).(unread := unread, queue := queue)
      ensures var e := AsyncAll(old(Ctx(stamp)), old(Eff()), trip.notes);
        (trip.reply.Raised? ==> r == Raised(trip.reply.error) && Eff() == e) &&
        (trip.reply.Returned? ==> (r == Returned(()) &&
          Eff() == e.(events := e.events + [RegisterResult(ReplyOk(trip.reply.value), ReplyText(trip.reply.value, "Registration failed"))])))
    {
      HandleNotes(trip.notes, stamp);
      if trip.reply.Raised? {
        return Raised(trip.reply.error);
      }
      events := events + [RegisterResult(ReplyOk(trip.reply.value), ReplyText(trip.reply.value, "Registration failed"))];
      r := Returned(());
    }

    /** `login(username, password)`: the client records the name only on success. */
    method Login(user: string, trip: Trip, stamp: string) returns (r: Outcome<()>)
      modifies this, store
      requires Valid()
      ensures Valid()
      ensures username == if trip.reply.Returned? && ReplyOk(trip.reply.value) then Some(user) else old(username)
      ensures ViewOf() == old(ViewOf()).(username := username, unread := unread, queue := queue)
      ensures var e := AsyncAll(old(Ctx(stamp)), old(Eff()), trip.notes);
        (trip.reply.Raised? ==> r == Raised(trip.reply.error) && Eff() == e) &&
        (trip.reply.Returned? && ReplyOk(trip.reply.value) ==> (r == Returned(()) &&
          Eff() == e.(events := e.events + [LoginResult(true, ReplyText(trip.reply.value, "Login failed")), StatusChanged("Logged in")]))) &&
        (trip.reply.Returned? && !ReplyOk(trip.reply.value) ==> (r == Returned(()) &&
          Eff() == e.(events := e.events + [LoginResult(false, ReplyText(trip.reply.value, "Login failed"))])))
    {
      HandleNotes(trip.notes, stamp);
      if trip.reply.Raised? {
        return Raised(trip.reply.error);
      }
      var reply := trip.reply.value;
      if ReplyOk(reply) {
        username := Some(user);
      }
      var ok := ReplyOk(reply);
      events := events + [LoginResult(ok, ReplyText(reply, "Login failed"))];
      if ok {
        events := events + [StatusChanged("Logged in")];
      }
      r := Returned(());
    }

    /** `logout()`: the client forgets the name only on success. */
    method Logout(trip: Trip, stamp: string) returns (r: Outcome<()>)
      modifies this, store
      requires Valid()
      ensures Valid()
      ensures username == if trip.reply.Returned? && ReplyOk(trip.reply.value) then None else old(username)
      ensures ViewOf() == old(ViewOf()).(username := username, unread := unread, queue := queue)
      ensures var e := AsyncAll(old(Ctx(stamp)), old(Eff()), trip.notes);
        (trip.reply.Raised? ==> r == Raised(trip.reply.error) && Eff() == e) &&
        (trip.reply.Returned? ==> (r == Returned(()) &&
          Eff() == e.(events := e.events + if ReplyOk(trip.reply.value) then [StatusChanged("Logged out")] else [])))
    {
      HandleNotes(trip.notes, stamp);
      if trip.reply.Raised? {
        return Raised(trip.reply.error);
      }
      if ReplyOk(trip.reply.value) {
        username := None;
        events := events + [StatusChanged("Logged out")];
      }
      r := Returned(());
    }

    /** `select_peer(peer)`. */
    method SelectPeer(peer: string)
      modifies this
      ensures selectedPeer == Some(peer)
      ensures unread == old(unread)[peer := 0]
      ensures events == old(events) + [UnreadUpdated(unread)]
      ensures queue == old(queue) + [RequestHistory(peer)]
      ensures ViewOf() == old(ViewOf()).(selectedPeer := selectedPeer, unread := unread, queue := queue)
    {
      selectedPeer := Some(peer);
      unread := unread[peer := 0];
      events := events + [UnreadUpdated(unread)];
      queue := queue + [RequestHistory(peer)];
    }

    /** `send_message(peer, content)`: whitespace-only content is ignored;
        `utcStamp` is `time.strftime("%Y-%m-%dT%H:%M:%SZ", time.gmtime())`. */
    method SendMessage(peer: string, content: string, utcStamp: string)
      modifies this
      ensures Strip(content) == "" ==> queue == old(queue)
      ensures Strip(content) != "" ==> queue == old(queue) + [SendInternal(peer, content, utcStamp)]
      ensures ViewOf() == old(ViewOf()).(queue := queue) && events == old(events)
    {
      if Strip(content) == "" {
        return;
      }
      queue := queue + [SendInternal(peer, content, utcStamp)];
    }

    /** `_send_message_internal` after a reply: the local echo is stored only
        when the server confirmed the send. */
    method SendMessageInternal(peer: string, content: string, ts: string, reply: Option<Object>)
      modifies this, store
      requires Valid()
      ensures Valid()
      ensures ReplyOk(reply) ==>
                store.conversations == old(store.conversations)[peer := Reconcile(store.parse, store.maxBuffer,
                  old(store.Conv(peer)) + [AppendForm(Message(None, UserOr(username), peer, content, ts))])] &&
                events == old(events) + [ConversationUpdated(peer, store.Get(Some(peer)))] &&
                queue == old(queue) + (if selectedPeer == Some(peer) then [RequestHistory(peer)] else [])
      ensures !ReplyOk(reply) ==>
                store.conversations == old(store.conversations) &&
                events == old(events) + [ErrorOccurred(ReplyText(reply, "Send failed"))] &&
                queue == old(queue)
      ensures ViewOf() == old(ViewOf()).(queue := queue)
    {
      if ReplyOk(reply) {
        var _ := store.Append(peer, Message(None, UserOr(username), peer, content, ts));
        NoteStored(peer);
      } else {
        events := events + [ErrorOccurred(ReplyText(reply, "Send failed"))];
      }
    }

    /** `_send_message_internal(peer, content, ts)` once `send_message`'s
        login check has passed: the notifications that arrive before the
        reply, then the reply or the exception. */
    method SendRound(peer: string, content: string, ts: string, trip: Trip, stamp: string) returns (r: Outcome<()>)
      modifies this, store
      requires Valid()
      ensures Valid()
      ensures ViewOf() == old(ViewOf()).(unread := unread, queue := queue)
      ensures unread == NoteUnread(old(unread), trip.notes, selectedPeer)
      ensures queue == old(queue) + NoteJobs(trip.notes, selectedPeer) + FollowUp(SendInternal(peer, content, ts), trip.reply, selectedPeer)
      ensures var e := AsyncAll(old(Ctx(stamp)), old(Eff()), trip.notes);
        (trip.reply.Raised? ==> r == Raised(trip.reply.error) && Eff() == e) &&
        (trip.reply.Returned? && ReplyOk(trip.reply.value) ==> (r == Returned(()) &&
          store.conversations == e.convs[peer := Reconcile(store.parse, store.maxBuffer,
            ConvIn(e.convs, peer) + [AppendForm(Message(None, UserOr(username), peer, content, ts))])] &&
          events == e.events + [ConversationUpdated(peer, store.Get(Some(peer)))])) &&
        (trip.reply.Returned? && !ReplyOk(trip.reply.value) ==> (r == Returned(()) &&
          store.conversations == e.convs && events == e.events + [ErrorOccurred(ReplyText(trip.reply.value, "Send failed"))]))
    {
      HandleNotes(trip.notes, stamp);
      AsyncAllEffects(old(Ctx(stamp)), old(Eff()), trip.notes);
      if trip.reply.Raised? {
        return Raised(trip.reply.error);
      }
      SendMessageInternal(peer, content, ts, trip.reply.value);
      r := Returned(());
    }

    /** After a message for `peer` is stored: the conversation is re-emitted
        and, when `peer` is on screen, its history is re-requested. */
    method NoteStored(peer: string)
      modifies this
      ensures events == old(events) + [ConversationUpdated(peer, store.Get(Some(peer)))]
      ensures queue == old(queue) + (if selectedPeer == Some(peer) then [RequestHistory(peer)] else [])
      ensures ViewOf() == old(ViewOf()).(queue := queue)
    {
      events := events + [ConversationUpdated(peer, store.Get(Some(peer)))];
      if selectedPeer == Some(peer) {
        queue := queue + [RequestHistory(peer)];
      }
    }

    /** `_handle_history(resp)`: nothing happens without a successful reply
        or without a peer to file it under. */
    method HandleHistory(reply: Option<Object>)
      modifies this, store
      requires Valid()
      ensures Valid()
      ensures ViewOf() == old(ViewOf())
      ensures reply.Some? ==> Eff() == HistoryStep(store.parse, store.maxBuffer, selectedPeer, old(Eff()), reply.value)
      ensures !ReplyOk(reply) || HistoryPeer(PayloadOf(reply.value), selectedPeer).None? ==>
                store.conversations == old(store.conversations) && events == old(events)
      ensures ReplyOk(reply) && HistoryPeer(PayloadOf(reply.value), selectedPeer).Some? ==>
                var peer := HistoryPeer(PayloadOf(reply.value), selectedPeer).value;
                store.conversations == HistoryMerged(store.parse, store.maxBuffer, old(store.conversations), peer, EntriesOf(PayloadOf(reply.value))) &&
                events == old(events) + [ConversationUpdated(peer, store.Get(Some(peer)))]
    {
      if !ReplyOk(reply) {
        return;
      }
      var payload := PayloadOf(reply.value);
      var peer := HistoryPeer(payload, selectedPeer);
      if peer.Some? {
        store.MergeHistory(peer.value, EntriesOf(payload));
        events := events + [ConversationUpdated(peer.value, store.Get(peer))];
      }
    }

    /** `_request_history(peer)` after its reply: the refresh time is
        stamped, then the reply is merged as `_handle_history` merges it. */
    method RequestHistoryInternal(peer: string, reply: Option<Object>, now: int)
      modifies this, store
      requires Valid()
      ensures Valid()
      ensures ViewOf() == old(ViewOf()).(lastHistoryRefresh := now)
      ensures !ReplyOk(reply) || HistoryPeer(PayloadOf(reply.value), selectedPeer).None? ==>
                store.conversations == old(store.conversations) && events == old(events)
      ensures ReplyOk(reply) && HistoryPeer(PayloadOf(reply.value), selectedPeer).Some? ==>
                var hp := HistoryPeer(PayloadOf(reply.value), selectedPeer).value;
                store.conversations == HistoryMerged(store.parse, store.maxBuffer, old(store.conversations), hp, EntriesOf(PayloadOf(reply.value))) &&
                events == old(events) + [ConversationUpdated(hp, store.Get(Some(hp)))]
    {
      lastHistoryRefresh := now;
      HandleHistory(reply);
    }

    /** `_request_history(peer)` once `get_history`'s peer check has passed:
        the notifications that arrive before the reply, then the reply or
        the exception, which leaves the refresh time unstamped. */
    method HistoryRound(peer: string, trip: Trip, now: int, stamp: string) returns (r: Outcome<()>)
      modifies this, store
      requires Valid()
      ensures Valid()
      ensures ViewOf() == old(ViewOf()).(unread := unread, queue := queue, lastHistoryRefresh := lastHistoryRefresh)
      ensures unread == NoteUnread(old(unread), trip.notes, selectedPeer)
      ensures queue == old(queue) + NoteJobs(trip.notes, selectedPeer)
      ensures lastHistoryRefresh == if trip.reply.Returned? then now else old(lastHistoryRefresh)
      ensures var e := AsyncAll(old(Ctx(stamp)), old(Eff()), trip.notes);
        (trip.reply.Raised? ==> r == Raised(trip.reply.error) && Eff() == e) &&
        (trip.reply.Returned? ==> r == Returned(())) &&
        (trip.reply.Returned? && (!ReplyOk(trip.reply.value) || HistoryPeer(PayloadOf(trip.reply.value.value), selectedPeer).None?) ==>
          store.conversations == e.convs && events == e.events) &&
        (trip.reply.Returned? && ReplyOk(trip.reply.value) && HistoryPeer(PayloadOf(trip.reply.value.value), selectedPeer).Some? ==>
          var hp := HistoryPeer(PayloadOf(trip.reply.value.value), selectedPeer).value;
          store.conversations == HistoryMerged(store.parse, store.maxBuffer, e.convs, hp, EntriesOf(PayloadOf(trip.reply.value.value))) &&
          events == e.events + [ConversationUpdated(hp, store.Get(Some(hp)))])
    {
      HandleNotes(trip.notes, stamp);
      AsyncAllEffects(old(Ctx(stamp)), old(Eff()), trip.notes);
      if trip.reply.Raised? {
        return Raised(trip.reply.error);
      }
      RequestHistoryInternal(peer, trip.reply.value, now);
      r := Returned(());
    }

    /** `_refresh_users()` after its reply: the users list is emitted only
        for a successful reply. */
    method RefreshUsers(reply: Option<Object>)
      modifies this
      ensures ReplyOk(reply) ==> events == old(events) + [UsersUpdated(UsersOf(PayloadOf(reply.value)))]
      ensures !ReplyOk(reply) ==> events == old(events)
      ensures ViewOf() == old(ViewOf())
    {
      if !ReplyOk(reply) {
        return;
      }
      events := events + [UsersUpdated(UsersOf(PayloadOf(reply.value)))];
    }

    /** `_refresh_users()`: the notifications that arrive before the reply,
        then the reply or the exception. */
    method UsersRound(trip: Trip, stamp: string) returns (r: Outcome<()>)
      modifies this, store
      requires Valid()
      ensures Valid()
      ensures ViewOf() == old(ViewOf()).(unread := unread, queue := queue)
      ensures unread == NoteUnread(old(unread), trip.notes, selectedPeer)
      ensures queue == old(queue) + NoteJobs(trip.notes, selectedPeer)
      ensures var e := AsyncAll(old(Ctx(stamp)), old(Eff()), trip.notes);
        store.conversations == e.convs &&
        (trip.reply.Raised? ==> r == Raised(trip.reply.error) && events == e.events) &&
        (trip.reply.Returned? ==> (r == Returned(()) &&
          events == e.events + (if ReplyOk(trip.reply.value) then [UsersUpdated(UsersOf(PayloadOf(trip.reply.value.value)))] else [])))
    {
      HandleNotes(trip.notes, stamp);
      AsyncAllEffects(old(Ctx(stamp)), old(Eff()), trip.notes);
      if trip.reply.Raised? {
        return Raised(trip.reply.error);
      }
      RefreshUsers(trip.reply.value);
      r := Returned(());
    }

    /** `_handle_incoming(response)`: the message goes to the sender's
        conversation; unread counts only for a peer that is not selected. */
    method HandleIncoming(resp: Object, nowStamp: string)
      modifies this, store
      requires Valid()
      ensures Valid()
      ensures Eff() == IncomingStep(old(Ctx(nowStamp)), old(Eff()), resp)
      ensures var m := IncomingMessage(resp, username, nowStamp);
        store.conversations == old(store.conversations)[m.sender := Reconcile(store.parse, store.maxBuffer, old(store.Conv(m.sender)) + [AppendForm(m)])]
      ensures var peer := StrOr(resp, "sender", "?");
        (selectedPeer != Some(peer) ==>
          unread == Bumped(old(unread), peer) &&
          events == old(events) + [UnreadUpdated(unread), ConversationUpdated(peer, store.Get(Some(peer)))] &&
          queue == old(queue)) &&
        (selectedPeer == Some(peer) ==>
          unread == old(unread) &&
          events == old(events) + [ConversationUpdated(peer, store.Get(Some(peer)))] &&
          queue == old(queue) + [RequestHistory(peer)])
      ensures ViewOf() == old(ViewOf()).(unread := unread, queue := queue)
    {
      var m := IncomingMessage(resp, username, nowStamp);
      var peer := m.sender;
      assert peer == StrOr(resp, "sender", "?");
      var _ := store.Append(peer, m);
      NoteIncoming(peer);
    }

    /** The session side of `_handle_incoming`, once the message is stored. */
    method NoteIncoming(peer: string)
      modifies this
      ensures selectedPeer != Some(peer) ==>
                unread == Bumped(old(unread), peer) &&
                events == old(events) + [UnreadUpdated(unread), ConversationUpdated(peer, store.Get(Some(peer)))] &&
                queue == old(queue)
      ensures selectedPeer == Some(peer) ==>
                unread == old(unread) &&
                events == old(events) + [ConversationUpdated(peer, store.Get(Some(peer)))] &&
                queue == old(queue) + [RequestHistory(peer)]
      ensures ViewOf() == old(ViewOf()).(unread := unread, queue := queue)
    {
      if selectedPeer != Some(peer) {
        unread := Bumped(unread, peer);
        events := events + [UnreadUpdated(unread)];
      }
      NoteStored(peer);
    }

    /** `_handle_async(response)`: the notification handler given to
        `MessageClient`, as AsyncStep states it. */
    method HandleAsync(resp: Object, nowStamp: string)
      modifies this, store
      requires Valid()
      ensures Valid()
      ensures Eff() == AsyncStep(old(Ctx(nowStamp)), old(Eff()), resp)
      ensures ViewOf() == old(ViewOf()).(unread := unread, queue := queue)
    {
      if IsIncoming(resp) {
        HandleIncoming(resp, nowStamp);
      } else if ExtractCommand(resp) == Some("timeout") {
        events := events + [ErrorOccurred(if "message" in resp then resp["message"] else Str("Timeout"))];
      }
    }

    /** The notifications of one round trip, handled in arrival order. */
    method HandleNotes(notes: seq<Object>, stamp: string)
      modifies this, store
      requires Valid()
      ensures Valid()
      ensures Eff() == AsyncAll(old(Ctx(stamp)), old(Eff()), notes)
      ensures ViewOf() == old(ViewOf()).(unread := unread, queue := queue)
    {
      var i := 0;
      while i < |notes|
        invariant 0 <= i <= |notes|
        invariant Valid()
        invariant Ctx(stamp) == old(Ctx(stamp))
        invariant Eff() == AsyncAll(old(Ctx(stamp)), old(Eff()), notes[..i])
        invariant running == old(running) && connected == old(connected) && username == old(username) && selectedPeer == old(selectedPeer)
        invariant lastUsersRefresh == old(lastUsersRefresh) && lastHistoryRefresh == old(lastHistoryRefresh) && ran == old(ran) && received == old(received)
      {
        HandleNext(notes, i, old(Ctx(stamp)), old(Eff()), stamp);
        i := i + 1;
      }
      assert notes[..i] == notes;
    }

    /** One pass of the notification loop: the i-th notification is handled. */
    method HandleNext(notes: seq<Object>, i: nat, ghost ctx0: Context, ghost e0: Effects, stamp: string)
      requires Valid() && i < |notes| && Ctx(stamp) == ctx0 && Eff() == AsyncAll(ctx0, e0, notes[..i])
      modifies this, store
      ensures Valid()
      ensures Ctx(stamp) == ctx0 && Eff() == AsyncAll(ctx0, e0, notes[..i + 1])
      ensures ViewOf() == old(ViewOf()).(unread := unread, queue := queue)
    {
      assert notes[..i + 1][..i] == notes[..i];
      HandleAsync(notes[i], stamp);
    }

    /** `_dispatch_response(response)` as written: a `list_users` reply
        calls `self._handle_users`, which `ChatSession` does not define,
        so it raises. */
    method DispatchResponse(resp: Object, nowStamp: string) returns (r: Outcome<()>)
      modifies this, store
      requires Valid()
      ensures Valid()
      ensures Eff() == DispatchStep(old(Ctx(nowStamp)), old(Eff()), resp, false)
      ensures ViewOf() == old(ViewOf()).(unread := unread, queue := queue)
      ensures RouteOf(resp) == ToUsers ==> r.Raised? && Eff() == old(Eff())
      ensures RouteOf(resp) != ToUsers ==> r.Returned?
      ensures RouteOf(resp) == ToFailureCheck ==>
                store.conversations == old(store.conversations) && ViewOf() == old(ViewOf()) &&
                events == old(events) + (if TruthyOr(resp, "success", true) then [] else [ErrorOccurred(if "message" in resp then resp["message"] else Str("Command failed"))])
    {
      match RouteOf(resp)
      case ToIncoming =>
        HandleIncoming(resp, nowStamp);
        r := Returned(());
      case ToUsers =>
        r := Raised("AttributeError: 'ChatSession' object has no attribute '_handle_users'");
      case ToHistory =>
        HandleHistory(Some(resp));
        r := Returned(());
      case ToFailureCheck =>
        if !TruthyOr(resp, "success", true) {
          events := events + [ErrorOccurred(if "message" in resp then resp["message"] else Str("Command failed"))];
        }
        r := Returned(());
    }

    /** `_dispatch_response` with the users route handled as `_refresh_users`
        handles its reply. */
    method DispatchResponseFixed(resp: Object, nowStamp: string)
      modifies this, store
      requires Valid()
      ensures Valid()
      ensures Eff() == DispatchStep(old(Ctx(nowStamp)), old(Eff()), resp, true)
      ensures ViewOf() == old(ViewOf()).(unread := unread, queue := queue)
      ensures RouteOf(resp) == ToUsers ==>
                store.conversations == old(store.conversations) && ViewOf() == old(ViewOf()) &&
                events == old(events) + (if ReplyOk(Some(resp)) then [UsersUpdated(UsersOf(PayloadOf(resp)))] else [])
      ensures RouteOf(resp) == ToFailureCheck ==>
                store.conversations == old(store.conversations) && ViewOf() == old(ViewOf()) &&
                events == old(events) + (if TruthyOr(resp, "success", true) then [] else [ErrorOccurred(if "message" in resp then resp["message"] else Str("Command failed"))])
    {
      match RouteOf(resp)
      case ToIncoming =>
        HandleIncoming(resp, nowStamp);
      case ToUsers =>
        RefreshUsers(Some(resp));
      case ToHistory =>
        HandleHistory(Some(resp));
      case ToFailureCheck =>
        if !TruthyOr(resp, "success", true) {
          events := events + [ErrorOccurred(if "message" in resp then resp["message"] else Str("Command failed"))];
        }
    }

    /** `_poll_socket()` as written: `frames` are the `recv_response`
        results while the socket stays readable, None being end of stream.
        The exception a `list_users` reply raises leaves the loop at once. */
    method PollSocket(frames: seq<Option<Object>>, nowStamp: string) returns (r: Outcome<()>)
      modifies this, store
      requires Valid()
      ensures Valid()
      ensures selectedPeer == old(selectedPeer) && username == old(username) && ran == old(ran) && connected == old(connected)
      ensures lastUsersRefresh == old(lastUsersRefresh) && lastHistoryRefresh == old(lastHistoryRefresh)
      ensures !old(connected) ==> r.Returned? && ViewOf() == old(ViewOf()) && Eff() == old(Eff())
      ensures old(connected) ==> Eff() == PollAll(old(Ctx(nowStamp)), old(Eff()), frames[..PollRead(frames)], false)
      ensures old(connected) ==>
                var k := PollStop(frames);
                received == old(received) + frames[..if k < |frames| then k + 1 else k] &&
                (r.Raised? <==> k < |frames| && frames[k].Some?) &&
                (k < |frames| && frames[k].None? ==> !running && events != [] && events[|events| - 1] == Disconnected) &&
                (k == |frames| || frames[k].Some? ==> running == old(running))
    {
      if !connected {
        return Returned(());
      }
      r := PollReady(frames, nowStamp);
    }

    /** `_poll_socket`'s loop as written over the ready frames. */
    method PollReady(frames: seq<Option<Object>>, nowStamp: string) returns (r: Outcome<()>)
      modifies this, store
      requires Valid()
      ensures Valid()
      ensures selectedPeer == old(selectedPeer) && username == old(username) && ran == old(ran) && connected == old(connected)
      ensures lastUsersRefresh == old(lastUsersRefresh) && lastHistoryRefresh == old(lastHistoryRefresh)
      ensures Eff() == PollAll(old(Ctx(nowStamp)), old(Eff()), frames[..PollRead(frames)], false)
      ensures var k := PollStop(frames);
        received == old(received) + frames[..if k < |frames| then k + 1 else k] &&
        (r.Raised? <==> k < |frames| && frames[k].Some?) &&
        (k < |frames| && frames[k].None? ==> !running && events != [] && events[|events| - 1] == Disconnected) &&
        (k == |frames| || frames[k].Some? ==> running == old(running))
    {
      r := Returned(());
      ghost var k := PollStop(frames);
      var i := 0;
      var stop := false;
      while i < |frames| && !stop
        invariant 0 <= i <= |frames|
        invariant Valid()
        invariant selectedPeer == old(selectedPeer) && username == old(username) && ran == old(ran) && connected == old(connected)
        invariant lastUsersRefresh == old(lastUsersRefresh) && lastHistoryRefresh == old(lastHistoryRefresh)
        invariant received == old(received) + frames[..i]
        invariant Ctx(nowStamp) == old(Ctx(nowStamp))
        invariant Eff() == PollAll(old(Ctx(nowStamp)), old(Eff()), frames[..i], false)
        invariant !stop ==> i <= k && r.Returned? && running == old(running)
        invariant stop ==> k < |frames| && i == k + 1 && (r.Raised? <==> frames[k].Some?) &&
                           (frames[k].None? ==> !running && events != [] && events[|events| - 1] == Disconnected) &&
                           (frames[k].Some? ==> running == old(running))
      {
        stop, r := PollNext(frames, i, k, old(Ctx(nowStamp)), old(Eff()), nowStamp);
        i := i + 1;
      }
    }

    /** The i-th pass of `_poll_socket`'s loop as written, before its stop point. */
    method PollNext(frames: seq<Option<Object>>, i: nat, ghost k: nat, ghost ctx0: Context, ghost e0: Effects, nowStamp: string) returns (stop: bool, r: Outcome<()>)
      requires Valid() && i < |frames| && k == PollStop(frames) && i <= k
      requires Ctx(nowStamp) == ctx0 && Eff() == PollAll(ctx0, e0, frames[..i], false)
      modifies this, store
      ensures Valid() && Ctx(nowStamp) == ctx0 && Eff() == PollAll(ctx0, e0, frames[..i + 1], false)
      ensures selectedPeer == old(selectedPeer) && username == old(username) && ran == old(ran) && connected == old(connected)
      ensures lastUsersRefresh == old(lastUsersRefresh) && lastHistoryRefresh == old(lastHistoryRefresh)
      ensures received == old(received) + [frames[i]] && frames[..i + 1] == frames[..i] + [frames[i]]
      ensures !stop ==> i < k && r.Returned? && running == old(running)
      ensures stop ==> i == k && (r.Raised? <==> frames[k].Some?) &&
                       (frames[k].None? ==> !running && events != [] && events[|events| - 1] == Disconnected) &&
                       (frames[k].Some? ==> running == old(running))
    {
      PollAllSnoc(ctx0, e0, frames, i, false);
      stop, r := PollFrame(frames[i], nowStamp);
    }

    /** One pass of `_poll_socket`'s loop as written: end of stream stops the
        session, a frame is dispatched, and a dispatch that raises stops the
        loop. */
    method PollFrame(frame: Option<Object>, nowStamp: string) returns (stop: bool, r: Outcome<()>)
      modifies this, store
      requires Valid()
      ensures Valid()
      ensures stop <==> frame.None? || RouteOf(frame.value) == ToUsers
      ensures r.Raised? <==> frame.Some? && RouteOf(frame.value) == ToUsers
      ensures selectedPeer == old(selectedPeer) && username == old(username) && ran == old(ran) && connected == old(connected)
      ensures lastUsersRefresh == old(lastUsersRefresh) && lastHistoryRefresh == old(lastHistoryRefresh)
      ensures received == old(received) + [frame]
      ensures Eff() == PollStep(old(Ctx(nowStamp)), old(Eff()), frame, false)
      ensures frame.None? ==> !running && events == old(events) + [Disconnected]
      ensures frame.Some? ==> running == old(running)
    {
      received := received + [frame];
      if frame.None? {
        events := events + [Disconnected];
        running := false;
        return true, Returned(());
      }
      r := DispatchResponse(frame.value, nowStamp);
      stop := r.Raised?;
    }

    /** `_poll_socket()` with every dispatch returning: the loop reads every
        ready frame up to the first end of stream. */
    method PollSocketFixed(frames: seq<Option<Object>>, nowStamp: string)
      modifies this, store
      requires Valid()
      ensures Valid()
      ensures selectedPeer == old(selectedPeer) && username == old(username) && ran == old(ran) && connected == old(connected)
      ensures lastUsersRefresh == old(lastUsersRefresh) && lastHistoryRefresh == old(lastHistoryRefresh)
      ensures !old(connected) ==> ViewOf() == old(ViewOf()) && Eff() == old(Eff())
      ensures old(connected) ==> Eff() == PollAll(old(Ctx(nowStamp)), old(Eff()), frames[..FixedRead(frames)], true)
      ensures old(connected) ==>
                var k := FirstEnd(frames);
                received == old(received) + frames[..if k < |frames| then k + 1 else k] &&
                (k < |frames| ==> !running && events != [] && events[|events| - 1] == Disconnected) &&
                (k == |frames| ==> running == old(running))
    {
      if !connected {
        return;
      }
      ghost var k := FirstEnd(frames);
      var i := 0;
      var closed := false;
      while i < |frames| && !closed
        invariant 0 <= i <= |frames|
        invariant Valid()
        invariant selectedPeer == old(selectedPeer) && username == old(username) && ran == old(ran) && connected == old(connected)
        invariant lastUsersRefresh == old(lastUsersRefresh) && lastHistoryRefresh == old(lastHistoryRefresh)
        invariant received == old(received) + frames[..i]
        invariant Ctx(nowStamp) == old(Ctx(nowStamp))
        invariant Eff() == PollAll(old(Ctx(nowStamp)), old(Eff()), frames[..i], true)
        invariant !closed ==> i <= k && running == old(running)
        invariant closed ==> k < |frames| && i == k + 1 && !running && events != [] && events[|events| - 1] == Disconnected
      {
        closed := PollNextFixed(frames, i, k, old(Ctx(nowStamp)), old(Eff()), nowStamp);
        i := i + 1;
      }
    }

    /** The i-th pass of `_poll_socket`'s loop with every dispatch returning. */
    method PollNextFixed(frames: seq<Option<Object>>, i: nat, ghost k: nat, ghost ctx0: Context, ghost e0: Effects, nowStamp: string) returns (closed: bool)
      requires Valid() && i < |frames| && k == FirstEnd(frames) && i <= k
      requires Ctx(nowStamp) == ctx0 && Eff() == PollAll(ctx0, e0, frames[..i], true)
      modifies this, store
      ensures Valid() && Ctx(nowStamp) == ctx0 && Eff() == PollAll(ctx0, e0, frames[..i + 1], true)
      ensures selectedPeer == old(selectedPeer) && username == old(username) && ran == old(ran) && connected == old(connected)
      ensures lastUsersRefresh == old(lastUsersRefresh) && lastHistoryRefresh == old(lastHistoryRefresh)
      ensures received == old(received) + [frames[i]] && frames[..i + 1] == frames[..i] + [frames[i]]
      ensures !closed ==> i < k && running == old(running)
      ensures closed ==> i == k && !running && events != [] && events[|events| - 1] == Disconnected
    {
      PollAllSnoc(ctx0, e0, frames, i, true);
      closed := PollFrameFixed(frames[i], nowStamp);
    }

    /** One pass of `_poll_socket`'s loop with every dispatch returning. */
    method PollFrameFixed(frame: Option<Object>, nowStamp: string) returns (closed: bool)
      modifies this, store
      ensures closed <==> frame.None?
      requires Valid()
      ensures Valid()
      ensures selectedPeer == old(selectedPeer) && username == old(username) && ran == old(ran) && connected == old(connected)
      ensures lastUsersRefresh == old(lastUsersRefresh) && lastHistoryRefresh == old(lastHistoryRefresh)
      ensures received == old(received) + [frame]
      ensures Eff() == PollStep(old(Ctx(nowStamp)), old(Eff()), frame, true)
      ensures closed ==> !running && events == old(events) + [Disconnected]
      ensures !closed ==> running == old(running)
    {
      received := received + [frame];
      if frame.None? {
        events := events + [Disconnected];
        running := false;
        return true;
      }
      DispatchResponseFixed(frame.value, nowStamp);
      return false;
    }

    /** `_periodic_refresh()` at time `now` (milliseconds), with the round
        trips of the requests it makes. Each refresh time is stamped before
        its request; an exception from the users refresh skips the history
        refresh and, like one from the history refresh, leaves `run`. */
    method PeriodicRefresh(now: int, users: Trip, history: Trip, stamp: string) returns (r: Outcome<()>)
      modifies this, store
      requires Valid()
      ensures Valid()
      ensures ViewOf() == old(ViewOf()).(unread := unread, queue := queue, lastUsersRefresh := lastUsersRefresh, lastHistoryRefresh := lastHistoryRefresh)
      ensures var usersDue := now - old(lastUsersRefresh) >= RefreshUsersInterval;
        var stopped := usersDue && users.reply.Raised?;
        var historyDue := !stopped && old(selectedPeer).Some? && old(selectedPeer) != Some("") && now - old(lastHistoryRefresh) >= RefreshHistoryInterval;
        var u1 := if usersDue then NoteUnread(old(unread), users.notes, selectedPeer) else old(unread);
        lastUsersRefresh == (if usersDue then now else old(lastUsersRefresh)) &&
        lastHistoryRefresh == (if historyDue then now else old(lastHistoryRefresh)) &&
        (r.Raised? <==> stopped || (historyDue && history.reply.Raised?)) &&
        queue == old(queue) + (if usersDue then NoteJobs(users.notes, selectedPeer) else []) + (if historyDue then NoteJobs(history.notes, selectedPeer) else []) &&
        unread == (if historyDue then NoteUnread(u1, history.notes, selectedPeer) else u1) &&
        (!usersDue && !historyDue ==> events == old(events) && store.conversations == old(store.conversations))
    {
      r := Returned(());
      if now - lastUsersRefresh >= RefreshUsersInterval {
        lastUsersRefresh := now;
        r := UsersRound(users, stamp);
        if r.Raised? {
          return;
        }
      }
      if selectedPeer.Some? && selectedPeer.value != "" && now - lastHistoryRefresh >= RefreshHistoryInterval {
        lastHistoryRefresh := now;
        r := HistoryRound(selectedPeer.value, history, now, stamp);
      }
    }

    /** One deferred job with its round trip. What raises (`get_history`
        with an empty peer, `send_message` before login, or the transport)
        becomes a "Command failed" error. */
    method RunJob(job: Job, trip: Trip, now: int, stamp: string)
      modifies this, store
      requires Valid()
      ensures Valid()
      ensures ViewOf() == old(ViewOf()).(unread := unread, queue := queue, lastHistoryRefresh := lastHistoryRefresh)
      ensures queue == old(queue) + JobQueued(job, trip, selectedPeer, username)
      ensures unread == JobUnread(old(unread), job, trip, selectedPeer, username)
      ensures !Reaches(job, username) ==>
                Eff() == old(Eff()).(events := old(events) + [ErrorOccurred(Str("Command failed: " + JobError(job, trip.reply, username).value))])
      ensures Reaches(job, username) && trip.reply.Raised? ==>
                var e := AsyncAll(old(Ctx(stamp)), old(Eff()), trip.notes);
                Eff() == e.(events := e.events + [ErrorOccurred(Str("Command failed: " + trip.reply.error))])
    {
      if !Reaches(job, username) {
        events := events + [ErrorOccurred(Str("Command failed: " + JobError(job, trip.reply, username).value))];
        return;
      }
      var r := JobRound(job, trip, now, stamp);
      assert old(queue) + JobQueued(job, trip, selectedPeer, username) ==
             old(queue) + NoteJobs(trip.notes, selectedPeer) + FollowUp(job, trip.reply, selectedPeer);
      if r.Raised? {
        events := events + [ErrorOccurred(Str("Command failed: " + r.error))];
      }
    }

    /** The round trip of a job that passed `MessageClient`'s checks. */
    method JobRound(job: Job, trip: Trip, now: int, stamp: string) returns (r: Outcome<()>)
      requires Valid() && Reaches(job, username)
      modifies this, store
      ensures Valid()
      ensures ViewOf() == old(ViewOf()).(unread := unread, queue := queue, lastHistoryRefresh := lastHistoryRefresh)
      ensures queue == old(queue) + NoteJobs(trip.notes, selectedPeer) + FollowUp(job, trip.reply, selectedPeer)
      ensures unread == NoteUnread(old(unread), trip.notes, selectedPeer)
      ensures trip.reply.Raised? ==> r == Raised(trip.reply.error) && Eff() == AsyncAll(old(Ctx(stamp)), old(Eff()), trip.notes)
      ensures trip.reply.Returned? ==> r.Returned?
    {
      match job
      case RequestHistory(peer) =>
        r := HistoryRound(peer, trip, now, stamp);
      case SendInternal(peer, content, ts) =>
        r := SendRound(peer, content, ts, trip, stamp);
    }

    /** `_drain_commands()`: takes the whole queue at once, runs it in FIFO
        order whatever each job does, and leaves only what the jobs enqueued. */
    method DrainCommands(trips: seq<Trip>, now: int, stamp: string)
      requires |trips| == |queue|
      modifies this, store
      requires Valid()
      ensures Valid()
      ensures ran == old(ran) + old(queue)
      ensures queue == FollowUps(old(queue), trips, selectedPeer, username)
      ensures unread == DrainUnread(old(unread), old(queue), trips, selectedPeer, username)
      ensures ViewOf() == old(ViewOf()).(unread := unread, queue := queue, lastHistoryRefresh := lastHistoryRefresh, ran := ran)
    {
      var items := queue;
      queue := [];
      var i := 0;
      while i < |items|
        invariant 0 <= i <= |items|
        invariant Valid()
        invariant running == old(running) && connected == old(connected) && username == old(username) && selectedPeer == old(selectedPeer)
        invariant lastUsersRefresh == old(lastUsersRefresh) && received == old(received)
        invariant ran == old(ran) + items[..i]
        invariant queue == FollowUps(items[..i], trips[..i], selectedPeer, username)
        invariant unread == DrainUnread(old(unread), items[..i], trips[..i], selectedPeer, username)
      {
        assert items[..i + 1] == items[..i] + [items[i]];
        RunNext(items, trips, i, old(unread), now, stamp);
        i := i + 1;
      }
      assert items[..|items|] == items;
      assert trips[..|trips|] == trips;
    }

    /** One pass of `_drain_commands`'s loop: the i-th job of the batch is
        taken and run, after which the queue and the unread counts are those
        the first i + 1 jobs leave. */
    method RunNext(items: seq<Job>, trips: seq<Trip>, i: nat, ghost unread0: map<string, int>, now: int, stamp: string)
      requires Valid() && |trips| == |items| && i < |items|
      requires queue == FollowUps(items[..i], trips[..i], selectedPeer, username)
      requires unread == DrainUnread(unread0, items[..i], trips[..i], selectedPeer, username)
      modifies this, store
      ensures Valid()
      ensures ran == old(ran) + [items[i]]
      ensures queue == FollowUps(items[..i + 1], trips[..i + 1], selectedPeer, username)
      ensures unread == DrainUnread(unread0, items[..i + 1], trips[..i + 1], selectedPeer, username)
      ensures ViewOf() == old(ViewOf()).(unread := unread, queue := queue, lastHistoryRefresh := lastHistoryRefresh, ran := ran)
    {
      FollowUpsStep(items, trips, i, unread0, selectedPeer, username);
      ran := ran + [items[i]];
      RunJob(items[i], trips[i], now, stamp);
    }

    /** One pass of `run`'s loop: drain, poll, refresh. `drained` is the
        state the drain leaves, `polled` and `afterPoll` what the poll returns
        and leaves; an exception out of the poll skips the refresh. */
    method Pass(trips: seq<Trip>, frames: seq<Option<Object>>, now: int, stamp: string, users: Trip, history: Trip)
      returns (r: Outcome<()>, ghost polled: Outcome<()>, ghost drained: Effects, ghost afterPoll: Effects)
      requires |trips| == |queue|
      modifies this, store
      requires Valid()
      ensures Valid()
      ensures ran == old(ran) + old(queue)
      ensures selectedPeer == old(selectedPeer) && username == old(username) && connected == old(connected)
      ensures running ==> old(running)
      ensures drained.queue == FollowUps(old(queue), trips, old(selectedPeer), old(username))
      ensures drained.unread == DrainUnread(old(unread), old(queue), trips, old(selectedPeer), old(username))
      ensures afterPoll == if old(connected) then PollAll(old(Ctx(stamp)), drained, frames[..PollRead(frames)], false) else drained
      ensures polled.Raised? <==> old(connected) && PollStop(frames) < |frames| && frames[PollStop(frames)].Some?
      ensures polled.Raised? ==> r == polled && Eff() == afterPoll && lastUsersRefresh == old(lastUsersRefresh)
      ensures polled.Returned? ==>
                lastUsersRefresh == (if now - old(lastUsersRefresh) >= RefreshUsersInterval then now else old(lastUsersRefresh)) &&
                (now - old(lastUsersRefresh) >= RefreshUsersInterval && users.reply.Raised? ==> r.Raised?) &&
                (r.Raised? ==> users.reply.Raised? || history.reply.Raised?)
    {
      DrainCommands(trips, now, stamp);
      drained := Eff();
      r := PollSocket(frames, stamp);
      polled := r;
      afterPoll := Eff();
      if r.Raised? {
        return;
      }
      r := PeriodicRefresh(now, users, history, stamp);
    }

    /** `run()`: one pass per element of `rounds` while `running`. `run` has
        no handler of its own, so the first exception out of a pass ends it,
        and the session thread with it; `outcomes` are the passes' results. */
    method Run(rounds: seq<Round>) returns (passes: nat, r: Outcome<()>, ghost outcomes: seq<Outcome<()>>)
      modifies this, store
      requires Valid()
      ensures Valid()
      ensures passes <= |rounds| && |outcomes| == passes
      ensures selectedPeer == old(selectedPeer) && username == old(username)
      ensures old(ran) <= ran
      ensures !old(running) ==> passes == 0 && r.Returned? && ViewOf() == old(ViewOf()) && Eff() == old(Eff())
      ensures forall i :: 0 <= i < passes - 1 ==> outcomes[i].Returned?
      ensures passes > 0 ==> outcomes[passes - 1] == r
      ensures r.Raised? ==> passes >= 1
      ensures r.Returned? ==> passes == |rounds| || !running
    {
      passes := 0;
      r := Returned(());
      outcomes := [];
      while passes < |rounds| && running
        invariant passes <= |rounds| && |outcomes| == passes
        invariant Valid()
        invariant selectedPeer == old(selectedPeer) && username == old(username)
        invariant old(ran) <= ran
        invariant !old(running) ==> passes == 0
        invariant passes == 0 ==> ViewOf() == old(ViewOf()) && Eff() == old(Eff())
        invariant forall i :: 0 <= i < passes ==> outcomes[i].Returned?
        invariant passes > 0 ==> outcomes[passes - 1] == r
        invariant r.Returned?
      {
        var round := rounds[passes];
        var n := |queue|;
        var trips := seq(n, i requires 0 <= i < n => round.respond(i));
        ghost var polled, drained, afterPoll;
        r, polled, drained, afterPoll := Pass(trips, round.frames, round.now, round.stamp, round.users, round.history);
        outcomes := outcomes + [r];
        passes := passes + 1;
        if r.Raised? {
          return;
        }
      }
    }
  }
}
