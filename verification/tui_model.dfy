/** The session logic of the curses client `CursesChatApp`
    (client/tui_app.py, and the same class in client/client.py): reply
    handlers waiting per command, the users list and the selected peer,
    unread counters, chat scroll offsets and the status line.  Each
    operation is a transition of one `State`; the class in module `TuiApp`
    is proved to perform exactly these transitions. */
module TuiModel {
  import opened Wrappers
  import opened Json
  import opened Text
  import opened Conversations
  import opened ConversationStore
  import opened PyProtocol
  import QtSession

  /** The two copies of the class; they differ in `_mark_read`. */
  datatype Variant = TuiApp | ClientApp

  /** What a session fixes at construction. */
  datatype Env = Env(variant: Variant, historyLimit: int, maxBuffer: int, parse: Parser)

  /** A callback in `pending_handlers`: the closures made by
      `_refresh_users`, `_request_history(peer)` and `_send_current_message`. */
  datatype Handler =
    | UsersHandler
    | HistoryHandler(peer: string)
    | SendHandler(content: string, timestamp: string)

  /** The users list and the selection. */
  datatype Roster = Roster(username: Option<string>, users: seq<Object>, selectedIndex: int, selectedPeer: Option<string>)

  /** The handlers waiting per command, and every payload given to
      `send_command`, oldest first. */
  datatype Outbox = Outbox(pending: map<string, seq<Handler>>, sent: seq<Object>)

  /** The status line, the error box, the input line and the mode flags. */
  datatype Screen = Screen(
    status: string, errorMessage: Option<string>, errorModal: bool, inputBuffer: string,
    running: bool, focusChat: bool, awaitingQuitConfirm: bool)

  /** Unread counts and scroll offsets per peer, and the chat pane height
      last drawn. */
  datatype Reading = Reading(unread: map<string, int>, chatOffset: map<string, int>, lastChatVisible: int)

  /** When the users list and the history were last requested. */
  datatype Clock = Clock(lastUsersRefresh: int, lastHistoryRefresh: int)

  /** Every attribute the session methods read or write, with the store's
      conversations. */
  datatype State = State(roster: Roster, outbox: Outbox, screen: Screen, reading: Reading, clock: Clock,
                         conversations: map<string, seq<Message>>)

  /** `refresh_users_interval` and `refresh_history_interval` (5 s and 4 s),
      in milliseconds. */
  const UsersInterval: int := 5000
  const HistoryInterval: int := 4000

  /** The state `__init__` leaves. */
  function Initial(): State {
    State(Roster(None, [], 0, None), Outbox(map[], []), Screen("", None, false, "", true, false, false),
          Reading(map[], map[], 0), Clock(0, 0), map[])
  }

  // ---------------------------------------------------------------------
  // Reading replies

  /** `self.pending_handlers[command]` of the `defaultdict`. */
  function PendingFor(p: map<string, seq<Handler>>, command: string): seq<Handler> {
    if command in p then p[command] else []
  }

  /** The command under which each kind of handler is registered. */
  function KeyOf(h: Handler): string {
    match h
    case UsersHandler => "list_users"
    case HistoryHandler(_) => "get_history"
    case SendHandler(_, _) => "send_message"
  }

  /** At most one handler waits per command, and it is of that command's kind. */
  predicate PendingOk(p: map<string, seq<Handler>>) {
    forall k :: k in p ==> |p[k]| <= 1 && (|p[k]| == 1 ==> KeyOf(p[k][0]) == k)
  }

  /** `dict.get(key, 0)` on the offset and unread maps. */
  function CountOf(m: map<string, int>, key: string): int {
    if key in m then m[key] else 0
  }

  function ConvOf(convs: map<string, seq<Message>>, peer: string): seq<Message> {
    if peer in convs then convs[peer] else []
  }

  /** Python's name for the type of a decoded JSON value. */
  function PyType(v: Value): string {
    match v
    case Null => "NoneType"
    case Bool(_) => "bool"
    case Num(_) => "int"
    case Str(_) => "str"
    case Arr(_) => "list"
    case Obj(_) => "dict"
  }

  /** The text of the `AttributeError` raised by `v.get(...)` on a non-dict. */
  function NoGet(v: Value): string {
    "'" + PyType(v) + "' object has no attribute 'get'"
  }

  /** The text of the `TypeError` raised by `for x in v` on a scalar. */
  function NotIterable(v: Value): string {
    "'" + PyType(v) + "' object is not iterable"
  }

  /** Iterating `v` and calling `.get` on every element: the dicts, or the
      first error. Strings iterate as strings and dicts as their keys. */
  function DictsOf(v: Value): (r: Outcome<seq<Object>>)
    ensures v.Arr? ==> (r.Returned? <==> forall i :: 0 <= i < |v.items| ==> v.items[i].Obj?)
    ensures v.Arr? && r.Returned? ==> |r.value| == |v.items| && forall i :: 0 <= i < |v.items| ==> r.value[i] == v.items[i].fields
    ensures v.Null? || v.Bool? || v.Num? ==> r == Raised(NotIterable(v))
  {
    match v
    case Arr(items) => DictItems(items)
    case Str(s) => if s == "" then Returned([]) else Raised(NoGet(Str("")))
    case Obj(f) => if f == map[] then Returned([]) else Raised(NoGet(Str("")))
    case _ => Raised(NotIterable(v))
  }

  function DictItems(items: seq<Value>): (r: Outcome<seq<Object>>)
    ensures r.Returned? <==> forall i :: 0 <= i < |items| ==> items[i].Obj?
    ensures r.Returned? ==> |r.value| == |items| && forall i :: 0 <= i < |items| ==> r.value[i] == items[i].fields
  {
    if items == [] then Returned([])
    else if !items[0].Obj? then Raised(NoGet(items[0]))
    else match DictItems(items[1..])
      case Raised(e) => Raised(e)
      case Returned(rest) => Returned([items[0].fields] + rest)
  }

  /** `resp.get("payload") or {}`, then used as a dict. */
  function PayloadDict(resp: Object): (r: Outcome<Object>)
    ensures "payload" !in resp ==> r == Returned(map[])
    ensures "payload" in resp && resp["payload"].Obj? ==> r == Returned(resp["payload"].fields)
    ensures r.Raised? <==> "payload" in resp && Truthy(resp["payload"]) && !resp["payload"].Obj?
  {
    if "payload" !in resp || !Truthy(resp["payload"]) then Returned(map[])
    else if resp["payload"].Obj? then Returned(resp["payload"].fields)
    else Raised(NoGet(resp["payload"]))
  }

  /** `payload.get(key, [])`. */
  function ListOr(payload: Object, key: string): Value {
    if key in payload then payload[key] else Arr([])
  }

  /** `resp.get("message", default) if resp else none`. */
  function FailText(resp: Object, default: string, none: string): string {
    if resp == map[] then none else QtSession.StrOr(resp, "message", default)
  }

  /** The text `_show_server_warning(command, response)` shows. */
  function WarningText(command: string, resp: Object): string {
    (if command == "" then "SERVER" else Upper(command)) + ": " +
    (if NonEmptyStr(resp, "message") then resp["message"].s else "Command failed")
  }

  /** `u.get("username") == self.username`. */
  predicate SameUser(u: Object, me: Option<string>) {
    if me.None? then "username" !in u || u["username"] == Null
    else "username" in u && u["username"] == Str(me.value)
  }

  /** The users list without the session's own account, in order. */
  function OtherUsers(us: seq<Object>, me: Option<string>): (r: seq<Object>)
    ensures forall i :: 0 <= i < |r| ==> !SameUser(r[i], me) && r[i] in us
    ensures forall i :: 0 <= i < |us| && !SameUser(us[i], me) ==> us[i] in r
    ensures |r| <= |us|
  {
    if us == [] then []
    else (if SameUser(us[0], me) then [] else [us[0]]) + OtherUsers(us[1..], me)
  }

  /** `user.get("username", "")`. */
  function NameOf(u: Object): Value {
    if "username" in u then u["username"] else Str("")
  }

  function Names(us: seq<Object>): (r: seq<Value>)
    ensures |r| == |us| && forall i :: 0 <= i < |us| ==> r[i] == NameOf(us[i])
  {
    if us == [] then [] else [NameOf(us[0])] + Names(us[1..])
  }

  /** `names.index(v)`: the first position holding `v`. */
  function IndexOf(vs: seq<Value>, v: Value): (r: nat)
    requires v in vs
    ensures r < |vs| && vs[r] == v && forall j :: 0 <= j < r ==> vs[j] != v
  {
    if vs[0] == v then 0 else 1 + IndexOf(vs[1..], v)
  }

  /** `self.selected_peer` as the value it is compared with. */
  function PeerValue(p: Option<string>): Value {
    if p.Some? then Str(p.value) else Null
  }

  /** `user.get("username")` kept as the selected peer. */
  function UsernameOf(u: Object): (p: Option<string>)
    ensures p.Some? ==> NameOf(u) == Str(p.value)
  {
    if "username" in u && u["username"].Str? then Some(u["username"].s) else None
  }

  /** `bool(self.selected_peer)`. */
  predicate HasPeer(r: Roster) {
    r.selectedPeer.Some? && r.selectedPeer.value != ""
  }

  /** The highlighted row holds the selected peer's name. */
  predicate SelectionShown(r: Roster) {
    r.selectedPeer.Some? ==>
      0 <= r.selectedIndex < |r.users| && NameOf(r.users[r.selectedIndex]) == Str(r.selectedPeer.value)
  }

  /** Some user row carries `peer` as its username. */
  predicate Listed(users: seq<Object>, peer: string) {
    exists i :: 0 <= i < |users| && "username" in users[i] && users[i]["username"] == Str(peer)
  }

  // ---------------------------------------------------------------------
  // Transitions

  /** `_show_error(message, modal)`. */
  function ShowError(sc: Screen, message: string, modal: bool): Screen {
    sc.(errorMessage := Some(message), status := "", errorModal := modal)
  }

  /** `_clear_error()`: the status is blanked only before login. */
  function ClearError(sc: Screen, username: Option<string>): (t: Screen)
    ensures t.errorMessage.None? && !t.errorModal
    ensures t.status == (if username.None? || username == Some("") then "" else sc.status)
  {
    sc.(errorMessage := None, errorModal := false, status := if username.None? || username == Some("") then "" else sc.status)
  }

  /** `_send_request(payload, expected_command, handler)`. */
  function Request(o: Outbox, payload: Object, expected: string, h: Option<Handler>): (r: (Outbox, bool))
    ensures r.1 <==> h.None? || PendingFor(o.pending, expected) == []
    ensures !r.1 ==> r.0 == o
    ensures r.1 ==> r.0.sent == o.sent + [payload]
    ensures r.1 && h.Some? ==> PendingFor(r.0.pending, expected) == [h.value]
    ensures forall k :: k != expected ==> PendingFor(r.0.pending, k) == PendingFor(o.pending, k)
  {
    if h.Some? && PendingFor(o.pending, expected) != [] then (o, false)
    else
      var p := if h.Some? then o.pending[expected := PendingFor(o.pending, expected) + [h.value]] else o.pending;
      (Outbox(p, o.sent + [payload]), true)
  }

  const UsersPayload: Object := map["type" := Str("LIST_USERS")]

  /** `_refresh_users()`. */
  function UsersRequest(o: Outbox): (Outbox, bool) {
    Request(o, UsersPayload, "list_users", Some(UsersHandler))
  }

  /** `_request_history(peer)`. */
  function HistoryRequest(env: Env, o: Outbox, peer: string): (Outbox, bool) {
    Request(o, GetHistoryPayload(peer, env.historyLimit, 0), "get_history", Some(HistoryHandler(peer)))
  }

  /** `_mark_read(peer)`: a known unread count drops to zero; the curses
      client of tui_app.py also gives the peer a scroll offset. */
  function MarkRead(env: Env, rd: Reading, peer: string): Reading {
    var u := if peer in rd.unread then rd.unread[peer := 0] else rd.unread;
    if env.variant == TuiApp then rd.(unread := u, chatOffset := rd.chatOffset[peer := CountOf(rd.chatOffset, peer)])
    else rd.(unread := u)
  }

  /** `store.append(peer, message)` on the conversations. */
  function Appended(env: Env, convs: map<string, seq<Message>>, peer: string, m: Message): map<string, seq<Message>> {
    convs[peer := Reconcile(env.parse, env.maxBuffer, ConvOf(convs, peer) + [AppendForm(m)])]
  }

  /** `store.merge_history(peer, messages)` on the conversations. */
  function Merged(env: Env, convs: map<string, seq<Message>>, peer: string, es: seq<HistoryEntry>): map<string, seq<Message>> {
    var combined := ConvOf(convs, peer) + FromHistoryAll(es);
    convs[peer := if combined == [] then [] else Reconcile(env.parse, env.maxBuffer, combined)]
  }

  function EntriesFrom(os: seq<Object>): (es: seq<HistoryEntry>)
    ensures |es| == |os| && forall i :: 0 <= i < |os| ==> es[i] == QtSession.EntryOf(os[i])
  {
    if os == [] then [] else [QtSession.EntryOf(os[0])] + EntriesFrom(os[1..])
  }

  /** A state with the error box shown. */
  function Failed(s: State, message: string): State {
    s.(screen := ShowError(s.screen, message, true))
  }

  /** A state with the error box cleared. */
  function Cleared(s: State): State {
    s.(screen := ClearError(s.screen, s.roster.username))
  }

  /** The roster after a users reply listing `users` (already filtered):
      the selection kept where it is still listed, else the first row. */
  function Reselect(ro: Roster, users: seq<Object>): Roster {
    var names := Names(users);
    if users == [] then ro.(users := users, selectedPeer := None, selectedIndex := 0)
    else if PeerValue(ro.selectedPeer) !in names then
      ro.(users := users, selectedIndex := 0, selectedPeer := if names[0].Str? then Some(names[0].s) else None)
    else ro.(users := users, selectedIndex := IndexOf(names, PeerValue(ro.selectedPeer)))
  }

  /** The `_refresh_users` handler: the new state and what it raised. */
  function UsersReply(env: Env, s: State, resp: Object): (State, Option<string>) {
    if !Succeeded(resp) then (Failed(s, "User list failed: " + FailText(resp, "failed", "no response")), None)
    else match PayloadDict(resp)
      case Raised(e) => (s, Some(e))
      case Returned(payload) =>
        match DictsOf(ListOr(payload, "users"))
        case Raised(e) => (s, Some(e))
        case Returned(all) =>
          var users := OtherUsers(all, s.roster.username);
          var ro := Reselect(s.roster, users);
          var s1 := Cleared(s.(roster := ro));
          var refetch := users != [] && PeerValue(s.roster.selectedPeer) !in Names(users) && ro.selectedPeer.Some?;
          (if refetch then s1.(outbox := HistoryRequest(env, s1.outbox, ro.selectedPeer.value).0) else s1, None)
  }

  /** The `_request_history(peer)` handler. */
  function HistoryReply(env: Env, s: State, peer: string, resp: Object): (State, Option<string>) {
    if !Succeeded(resp) then (Failed(s, "History failed: " + FailText(resp, "failed", "no response")), None)
    else match PayloadDict(resp)
      case Raised(e) => (s, Some(e))
      case Returned(payload) =>
        match DictsOf(ListOr(payload, "messages"))
        case Raised(e) => (s, Some(e))
        case Returned(ms) =>
          (Cleared(s.(conversations := Merged(env, s.conversations, peer, EntriesFrom(ms)),
                      reading := MarkRead(env, s.reading, peer))), None)
  }

  /** The `_send_current_message` handler: the local echo goes to the peer
      selected when the reply arrives. */
  function SendReply(env: Env, s: State, content: string, timestamp: string, resp: Object): State {
    if Succeeded(resp) then
      var peer := QtSession.UserOr(s.roster.selectedPeer);
      var m := Message(None, QtSession.UserOr(s.roster.username), peer, content, timestamp);
      Cleared(s.(conversations := Appended(env, s.conversations, peer, m),
                 reading := s.reading.(chatOffset := s.reading.chatOffset[peer := 0]),
                 screen := s.screen.(status := "Message sent.")))
    else Failed(s, FailText(resp, "Send failed", "No response"))
  }

  function RunHandler(env: Env, s: State, h: Handler, resp: Object): (State, Option<string>) {
    match h
    case UsersHandler => UsersReply(env, s, resp)
    case HistoryHandler(peer) => HistoryReply(env, s, peer, resp)
    case SendHandler(content, ts) => (SendReply(env, s, content, ts, resp), None)
  }

  /** `_handle_incoming(response)`; `nowStamp` is `utcnow().isoformat() + "Z"`. */
  function Incoming(env: Env, s: State, resp: Object, nowStamp: string): State {
    var m := QtSession.IncomingMessage(resp, s.roster.username, nowStamp);
    var peer := m.sender;
    var ro := s.roster;
    var users := if Listed(ro.users, peer) then ro.users else ro.users + [map["username" := Str(peer), "online" := Bool(true)]];
    var rd := s.reading;
    var unread := if ro.selectedPeer != Some(peer) || !s.screen.focusChat then QtSession.Bumped(rd.unread, peer) else rd.unread;
    Cleared(s.(conversations := Appended(env, s.conversations, peer, m), roster := ro.(users := users),
               reading := rd.(unread := unread), screen := s.screen.(status := "New message from " + peer)))
  }

  /** `_extract_command(response) or ""`. */
  function CommandOf(resp: Object): string {
    ExtractCommand(resp).GetOr("")
  }

  /** Where `_dispatch_response` sends a frame. */
  datatype Route = ToIncoming | ToHandler(base: string) | ToTimeout | ToWarning | Ignored

  function RouteOf(resp: Object, pending: map<string, seq<Handler>>): (r: Route)
    ensures r.ToHandler? ==> r.base != "" && PendingFor(pending, r.base) != []
  {
    var c := CommandOf(resp);
    var b := QtSession.BaseCommand(c);
    if c == "incoming_message" || c == "incoming_message_response" then ToIncoming
    else if b != "" && PendingFor(pending, b) != [] then ToHandler(b)
    else if c == "timeout" then ToTimeout
    else if !TruthyOr(resp, "success", true) then ToWarning
    else Ignored
  }

  /** The state in which the oldest handler waiting under `b` runs: it is
      taken off the queue first. */
  function Popped(s: State, b: string): State
    requires PendingFor(s.outbox.pending, b) != []
  {
    s.(outbox := s.outbox.(pending := s.outbox.pending[b := PendingFor(s.outbox.pending, b)[1..]]))
  }

  /** What a handler leaves: a raised error goes to the status line, and a
      failed reply still raises the warning box. */
  function Handled(r: (State, Option<string>), resp: Object): State {
    var s1 := if r.1.Some? then r.0.(screen := r.0.screen.(status := "Handler error: " + r.1.value)) else r.0;
    if !TruthyOr(resp, "success", true) then Failed(s1, WarningText(CommandOf(resp), resp)) else s1
  }

  /** `_dispatch_response(response)`. */
  function Dispatch(env: Env, s: State, resp: Object, nowStamp: string): State {
    match RouteOf(resp, s.outbox.pending)
    case ToIncoming => Incoming(env, s, resp, nowStamp)
    case ToHandler(b) => Handled(RunHandler(env, Popped(s, b), PendingFor(s.outbox.pending, b)[0], resp), resp)
    case ToTimeout => s.(screen := s.screen.(status := "Session timeout: " + QtSession.StrOr(resp, "message", "")))
    case ToWarning => Failed(s, WarningText(CommandOf(resp), resp))
    case Ignored => s
  }

  /** The reply `_send_and_wait` waits for. */
  predicate Answers(resp: Object, expected: string) {
    ExtractCommand(resp) == Some(expected) || ExtractCommand(resp) == Some(expected + "_response")
  }

  /** The loop of `_send_and_wait` over what `recv_response` returns before
      the deadline (None is end of stream). */
  function Wait(env: Env, s: State, expected: string, arrivals: seq<Option<Object>>, nowStamp: string): (State, Option<Object>)
    decreases |arrivals|
  {
    if !s.screen.running || arrivals == [] then (s, None)
    else if arrivals[0].None? then (s.(screen := s.screen.(running := false)), None)
    else if Answers(arrivals[0].value, expected) then (s, arrivals[0])
    else Wait(env, Dispatch(env, s, arrivals[0].value, nowStamp), expected, arrivals[1..], nowStamp)
  }

  /** The loop of `_poll_socket` over the frames that are ready. */
  function Poll(env: Env, s: State, arrivals: seq<Option<Object>>, nowStamp: string): State
    decreases |arrivals|
  {
    if arrivals == [] then s
    else if arrivals[0].None? then s.(screen := s.screen.(status := "Server closed connection.", running := false))
    else Poll(env, Dispatch(env, s, arrivals[0].value, nowStamp), arrivals[1..], nowStamp)
  }

  /** `_refresh_users()` at time `now`, recording the time if it went out. */
  function RefreshUsersAt(s: State, now: int): State {
    var r := UsersRequest(s.outbox);
    s.(outbox := r.0, clock := if r.1 then s.clock.(lastUsersRefresh := now) else s.clock)
  }

  /** `_request_history(peer)` at time `now`, recording the time if it went out. */
  function RefreshHistoryAt(env: Env, s: State, peer: string, now: int): State {
    var r := HistoryRequest(env, s.outbox, peer);
    s.(outbox := r.0, clock := if r.1 then s.clock.(lastHistoryRefresh := now) else s.clock)
  }

  /** `_periodic_refresh()` at time `now`. */
  function PeriodicRefresh(env: Env, s: State, now: int): State {
    var s1 := if now - s.clock.lastUsersRefresh >= UsersInterval then RefreshUsersAt(s, now) else s;
    if HasPeer(s1.roster) && now - s1.clock.lastHistoryRefresh >= HistoryInterval then
      RefreshHistoryAt(env, s1, s1.roster.selectedPeer.value, now)
    else s1
  }

  /** `_move_selection(delta)`; Python's `%` by a positive length is Dafny's. */
  function MoveSelection(env: Env, s: State, delta: int): State {
    var ro := s.roster;
    if ro.users == [] then s
    else
      var i := (ro.selectedIndex + delta) % |ro.users|;
      var peer := UsernameOf(ro.users[i]);
      var s1 := s.(roster := ro.(selectedIndex := i, selectedPeer := peer));
      if peer.Some? && peer.value != "" then
        s1.(outbox := HistoryRequest(env, s1.outbox, peer.value).0, reading := MarkRead(env, s1.reading, peer.value))
      else s1
  }

  /** The greatest scroll offset for `peer` with `visible` lines on screen. */
  function MaxOffset(convs: map<string, seq<Message>>, peer: string, visible: int): int {
    var n := |ConvOf(convs, peer)| - visible;
    if n < 0 then 0 else n
  }

  /** `_scroll_chat(delta)`. */
  function ScrollChat(s: State, delta: int): State {
    if !HasPeer(s.roster) then s
    else
      var p := s.roster.selectedPeer.value;
      var rd := s.reading;
      var target := if CountOf(rd.chatOffset, p) + delta < 0 then 0 else CountOf(rd.chatOffset, p) + delta;
      var limit := MaxOffset(s.conversations, p, rd.lastChatVisible);
      s.(reading := rd.(chatOffset := rd.chatOffset[p := if target < limit then target else limit]))
  }

  /** The bookkeeping of `_draw_chat` in a window `height` rows high: it
      records the visible line count and clamps the peer's offset. */
  function ChatDrawn(s: State, height: int): State {
    if !HasPeer(s.roster) then s
    else
      var p := s.roster.selectedPeer.value;
      var rd := s.reading;
      var visible := height - 2;
      var limit := MaxOffset(s.conversations, p, visible);
      var off := CountOf(rd.chatOffset, p);
      var clamped := if limit < (if off < 0 then 0 else off) then limit else (if off < 0 then 0 else off);
      s.(reading := rd.(lastChatVisible := visible, chatOffset := rd.chatOffset[p := clamped]))
  }

  const LogoutPayload: Object := map["type" := Str("LOGOUT")]

  /** `_logout_and_quit()`: `arrivals` are the frames before its 2 s deadline. */
  function LogoutAndQuit(env: Env, s: State, arrivals: seq<Option<Object>>, nowStamp: string): State {
    var s0 := s.(screen := s.screen.(awaitingQuitConfirm := false), outbox := s.outbox.(sent := s.outbox.sent + [LogoutPayload]));
    var r := Wait(env, s0, "logout", arrivals, nowStamp);
    var sc := r.0.screen;
    r.0.(screen := (if r.1.Some? && Succeeded(r.1.value) then sc.(status := "Logged out.") else sc).(running := false))
  }

  /** The request `_send_current_message` makes for `content`. */
  function SendRequest(o: Outbox, peer: string, content: string, utcStamp: string): (Outbox, bool) {
    Request(o, SendMessagePayload(peer, content, utcStamp), "send_message", Some(SendHandler(content, utcStamp)))
  }

  /** `_send_current_message()` as written; `utcStamp` is
      `utcnow().isoformat() + "Z"`.  The input is cleared even when the
      request is refused because a send is still waiting for its reply. */
  function SendCurrentMessage(s: State, utcStamp: string): State {
    if !HasPeer(s.roster) then s.(screen := s.screen.(status := "Select a user before sending."))
    else
      var content := Strip(s.screen.inputBuffer);
      if content == "" then s
      else
        s.(screen := s.screen.(inputBuffer := ""),
           outbox := SendRequest(s.outbox, s.roster.selectedPeer.value, content, utcStamp).0)
  }

  /** `_send_current_message()` keeping the input when nothing was sent. */
  function SendCurrentMessageFixed(s: State, utcStamp: string): State {
    if !HasPeer(s.roster) then s.(screen := s.screen.(status := "Select a user before sending."))
    else
      var content := Strip(s.screen.inputBuffer);
      if content == "" then s
      else
        var r := SendRequest(s.outbox, s.roster.selectedPeer.value, content, utcStamp);
        s.(outbox := r.0, screen := if r.1 then s.screen.(inputBuffer := "") else s.screen)
  }

  // Key codes `_handle_key` compares with.
  const KeyNone: int := -1
  const KeyEsc: int := 27
  const KeyDown: int := 258
  const KeyUp: int := 259
  const KeyBackspace: int := 263
  const KeyNextPage: int := 338
  const KeyPrevPage: int := 339
  const KeyEnter: int := 343

  predicate IsEnter(ch: int) {
    ch == KeyEnter || ch == 10 || ch == 13
  }

  /** `_handle_key()` of tui_app.py for the key `ch`; `now` is
      `time.monotonic()` in milliseconds, `arrivals` what a logout waits
      through and `utcStamp` the time a message is stamped with. */
  function HandleKey(env: Env, s: State, ch: int, now: int, arrivals: seq<Option<Object>>, nowStamp: string, utcStamp: string): State {
    if ch == KeyNone then s
    else if s.screen.errorModal then (if IsEnter(ch) || ch == KeyEsc then Cleared(s) else s)
    else if s.screen.awaitingQuitConfirm then
      if ch == 'y' as int || ch == 'Y' as int then LogoutAndQuit(env, s, arrivals, nowStamp)
      else if ch == 'n' as int || ch == 'N' as int || ch == KeyEsc then
        s.(screen := s.screen.(awaitingQuitConfirm := false, status := "Quit canceled."))
      else s
    else if s.screen.focusChat then ChatKey(s, ch, utcStamp)
    else ListKey(env, s, ch, now)
  }

  /** The chat-pane branch of `_handle_key`. */
  function ChatKey(s: State, ch: int, utcStamp: string): State {
    var page := if s.reading.lastChatVisible != 0 then s.reading.lastChatVisible else 5;
    var sc := s.screen;
    if ch == KeyEsc then s.(screen := sc.(focusChat := false, status := "Back to user list."))
    else if ch == KeyPrevPage then ScrollChat(s, page)
    else if ch == KeyNextPage then ScrollChat(s, -page)
    else if ch == KeyUp then ScrollChat(s, 1)
    else if ch == KeyDown then ScrollChat(s, -1)
    else if ch == KeyBackspace || ch == 127 || ch == 8 then
      s.(screen := sc.(inputBuffer := if sc.inputBuffer == [] then [] else sc.inputBuffer[..|sc.inputBuffer| - 1]))
    else if IsEnter(ch) then SendCurrentMessage(s, utcStamp)
    else if 32 <= ch <= 126 then s.(screen := sc.(inputBuffer := sc.inputBuffer + [ch as char]))
    else s
  }

  /** The chat-pane keys with Enter sending through the corrected
      `_send_current_message`; every other key is handled as written. */
  function ChatKeyFixed(s: State, ch: int, utcStamp: string): State {
    if IsEnter(ch) then SendCurrentMessageFixed(s, utcStamp) else ChatKey(s, ch, utcStamp)
  }

  /** `_handle_key()` with the chat pane's keys as ChatKeyFixed handles them. */
  function HandleKeyFixed(env: Env, s: State, ch: int, now: int, arrivals: seq<Option<Object>>, nowStamp: string, utcStamp: string): State {
    if ch != KeyNone && !s.screen.errorModal && !s.screen.awaitingQuitConfirm && s.screen.focusChat then ChatKeyFixed(s, ch, utcStamp)
    else HandleKey(env, s, ch, now, arrivals, nowStamp, utcStamp)
  }

  /** The users-list branch of `_handle_key`. */
  function ListKey(env: Env, s: State, ch: int, now: int): State {
    if ch == 'q' as int || ch == 'Q' as int then s.(screen := s.screen.(awaitingQuitConfirm := true, status := ""))
    else if ch == KeyUp then MoveSelection(env, s, -1)
    else if ch == KeyDown then MoveSelection(env, s, 1)
    else if ch == 'u' as int || ch == 'U' as int then RefreshUsersAt(s, now)
    else if (ch == 'r' as int || ch == 'R' as int) && HasPeer(s.roster) then
      RefreshHistoryAt(env, s, s.roster.selectedPeer.value, now)
    else if IsEnter(ch) && HasPeer(s.roster) then
      s.(screen := s.screen.(focusChat := true, status := "Chatting with " + s.roster.selectedPeer.value + ". ESC to go back."))
    else s
  }
}
