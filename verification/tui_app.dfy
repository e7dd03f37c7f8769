/** `CursesChatApp` (client/tui_app.py) as an object whose methods update
    its attributes in place.  Every method is proved to perform exactly the
    transition of module `TuiModel` that describes it, so what module
    `TuiFacts` proves of those transitions holds of the object. */
module TuiApp {
  import opened Wrappers
  import opened Json
  import opened Text
  import opened Conversations
  import opened ConversationStore
  import opened PyProtocol
  import QtSession
  import opened TuiModel

  class ChatApp {
    /** Which copy of the class: tui_app.py or client.py. */
    const variant: Variant
    const historyLimit: int
    const store: Store
    /** `username`, `users`, `selected_index`, `selected_peer`. */
    var roster: Roster
    /** `pending_handlers`, and every payload given to
        `protocol.send_command`, oldest first. */
    var outbox: Outbox
    /** `status`, `error_message`, `error_modal`, `input_buffer`, `running`,
        `focus_chat`, `awaiting_quit_confirm`. */
    var screen: Screen
    /** `unread_counts`, `chat_offset_by_peer`, `_last_chat_visible`. */
    var reading: Reading
    /** `last_users_refresh`, `last_history_refresh`. */
    var clock: Clock

    ghost predicate Valid()
      reads this, store
    {
      store.Valid()
    }

    function EnvOf(): Env {
      Env(variant, historyLimit, store.maxBuffer, store.parse)
    }

    /** The attributes as one value of the transition model. */
    ghost function StateOf(): State
      reads this, store
    {
      State(roster, outbox, screen, reading, clock, store.conversations)
    }

    /** `__init__(host, port, timeout, history_limit)`. */
    constructor(variant: Variant, historyLimit: int, parse: Parser)
      ensures this.variant == variant
      ensures this.historyLimit == if historyLimit < 1 then 1 else historyLimit
      ensures fresh(store) && store.parse == parse
      ensures store.maxBuffer == if this.historyLimit * 4 < 200 then 200 else this.historyLimit * 4
      ensures StateOf() == Initial()
      ensures Valid()
    {
      this.variant := variant;
      var h := if historyLimit < 1 then 1 else historyLimit;
      this.historyLimit := h;
      store := new Store(if h * 4 < 200 then 200 else h * 4, parse);
      roster := Roster(None, [], 0, None);
      outbox := Outbox(map[], []);
      screen := Screen("", None, false, "", true, false, false);
      reading := Reading(map[], map[], 0);
      clock := Clock(0, 0);
    }

    /** `_show_error(message, modal)`. */
    method ShowError(message: string, modal: bool)
      modifies this
      ensures StateOf() == old(StateOf()).(screen := TuiModel.ShowError(old(StateOf().screen), message, modal))
    {
      screen := screen.(errorMessage := Some(message), status := "", errorModal := modal);
    }

    /** `_clear_error()`. */
    method ClearError()
      modifies this
      ensures StateOf() == Cleared(old(StateOf()))
    {
      screen := screen.(errorMessage := None, errorModal := false);
      if roster.username.None? || roster.username.value == "" {
        screen := screen.(status := "");
      }
    }

    /** `_send_request(payload, expected_command, handler)`. */
    method SendRequest(payload: Object, expected: string, h: Option<Handler>) returns (ok: bool)
      modifies this
      ensures var r := Request(old(StateOf().outbox), payload, expected, h);
        ok == r.1 && StateOf() == old(StateOf()).(outbox := r.0)
    {
      if h.Some? {
        if PendingFor(outbox.pending, expected) != [] {
          return false;
        }
        outbox := outbox.(pending := outbox.pending[expected := PendingFor(outbox.pending, expected) + [h.value]]);
      }
      outbox := outbox.(sent := outbox.sent + [payload]);
      ok := true;
    }

    /** `_refresh_users()`. */
    method RefreshUsers() returns (ok: bool)
      modifies this
      ensures var r := UsersRequest(old(StateOf().outbox));
        ok == r.1 && StateOf() == old(StateOf()).(outbox := r.0)
    {
      ok := SendRequest(UsersPayload, "list_users", Some(UsersHandler));
    }

    /** `_request_history(peer)`. */
    method RequestHistory(peer: string) returns (ok: bool)
      modifies this
      ensures var r := HistoryRequest(EnvOf(), old(StateOf().outbox), peer);
        ok == r.1 && StateOf() == old(StateOf()).(outbox := r.0)
    {
      ok := SendRequest(GetHistoryPayload(peer, historyLimit, 0), "get_history", Some(HistoryHandler(peer)));
    }

    /** `_mark_read(peer)`. */
    method MarkRead(peer: string)
      modifies this
      ensures StateOf() == old(StateOf()).(reading := TuiModel.MarkRead(EnvOf(), old(StateOf().reading), peer))
    {
      if peer in reading.unread {
        reading := reading.(unread := reading.unread[peer := 0]);
      }
      if variant == TuiApp {
        reading := reading.(chatOffset := reading.chatOffset[peer := CountOf(reading.chatOffset, peer)]);
      }
    }

    /** `_handle_incoming(response)`. */
    method HandleIncoming(resp: Object, nowStamp: string)
      modifies this, store
      ensures old(Valid()) ==> Valid()
      ensures StateOf() == Incoming(EnvOf(), old(StateOf()), resp, nowStamp)
    {
      var m := QtSession.IncomingMessage(resp, roster.username, nowStamp);
      var peer := m.sender;
      var _ := store.Append(peer, m);
      NoteIncoming(peer);
    }

    /** The attributes `_handle_incoming` sets once the message is stored. */
    method NoteIncoming(peer: string)
      modifies this
      ensures var s := old(StateOf());
        var ro := s.roster;
        var rd := s.reading;
        StateOf() == Cleared(s.(
          roster := ro.(users := if Listed(ro.users, peer) then ro.users
                                 else ro.users + [map["username" := Str(peer), "online" := Bool(true)]]),
          reading := rd.(unread := if ro.selectedPeer != Some(peer) || !s.screen.focusChat then QtSession.Bumped(rd.unread, peer) else rd.unread),
          screen := s.screen.(status := "New message from " + peer)))
    {
      if !Listed(roster.users, peer) {
        roster := roster.(users := roster.users + [map["username" := Str(peer), "online" := Bool(true)]]);
      }
      if roster.selectedPeer != Some(peer) || !screen.focusChat {
        reading := reading.(unread := QtSession.Bumped(reading.unread, peer));
      }
      screen := screen.(status := "New message from " + peer);
      ClearError();
    }

    /** The handler `_refresh_users` registers, called with the reply; what
        it raises is returned. */
    method OnUsersReply(resp: Object) returns (fault: Option<string>)
      modifies this
      ensures (StateOf(), fault) == UsersReply(EnvOf(), old(StateOf()), resp)
    {
      if !Succeeded(resp) {
        ShowError("User list failed: " + FailText(resp, "failed", "no response"), true);
        return None;
      }
      var payload := PayloadDict(resp);
      if payload.Raised? {
        return Some(payload.error);
      }
      var all := DictsOf(ListOr(payload.value, "users"));
      if all.Raised? {
        return Some(all.error);
      }
      var others := OtherUsers(all.value, roster.username);
      var names := Names(others);
      var previous := roster.selectedPeer;
      Reselect(others);
      ClearError();
      if others != [] && PeerValue(previous) !in names && roster.selectedPeer.Some? {
        var _ := RequestHistory(roster.selectedPeer.value);
      }
      fault := None;
    }

    /** The selection part of the users handler. */
    method Reselect(others: seq<Object>)
      modifies this
      ensures StateOf() == old(StateOf()).(roster := TuiModel.Reselect(old(StateOf().roster), others))
    {
      var names := Names(others);
      if others == [] {
        roster := roster.(users := others, selectedPeer := None, selectedIndex := 0);
      } else if PeerValue(roster.selectedPeer) !in names {
        roster := roster.(users := others, selectedIndex := 0, selectedPeer := if names[0].Str? then Some(names[0].s) else None);
      } else {
        roster := roster.(users := others, selectedIndex := IndexOf(names, PeerValue(roster.selectedPeer)));
      }
    }

    /** The handler `_request_history(peer)` registers. */
    method OnHistoryReply(peer: string, resp: Object) returns (fault: Option<string>)
      modifies this, store
      ensures old(Valid()) ==> Valid()
      ensures (StateOf(), fault) == HistoryReply(EnvOf(), old(StateOf()), peer, resp)
    {
      if !Succeeded(resp) {
        ShowError("History failed: " + FailText(resp, "failed", "no response"), true);
        return None;
      }
      var payload := PayloadDict(resp);
      if payload.Raised? {
        return Some(payload.error);
      }
      var ms := DictsOf(ListOr(payload.value, "messages"));
      if ms.Raised? {
        return Some(ms.error);
      }
      store.MergeHistory(peer, EntriesFrom(ms.value));
      MarkRead(peer);
      ClearError();
      fault := None;
    }

    /** The handler `_send_current_message` registers. */
    method OnSendReply(content: string, timestamp: string, resp: Object)
      modifies this, store
      ensures old(Valid()) ==> Valid()
      ensures StateOf() == SendReply(EnvOf(), old(StateOf()), content, timestamp, resp)
    {
      if Succeeded(resp) {
        var peer := QtSession.UserOr(roster.selectedPeer);
        var _ := store.Append(peer, Message(None, QtSession.UserOr(roster.username), peer, content, timestamp));
        reading := reading.(chatOffset := reading.chatOffset[peer := 0]);
        screen := screen.(status := "Message sent.");
        ClearError();
      } else {
        ShowError(FailText(resp, "Send failed", "No response"), true);
      }
    }

    /** Calls a pending handler with the reply. */
    method RunHandler(h: Handler, resp: Object) returns (fault: Option<string>)
      modifies this, store
      ensures old(Valid()) ==> Valid()
      ensures (StateOf(), fault) == TuiModel.RunHandler(EnvOf(), old(StateOf()), h, resp)
    {
      match h
      case UsersHandler =>
        fault := OnUsersReply(resp);
      case HistoryHandler(peer) =>
        fault := OnHistoryReply(peer, resp);
      case SendHandler(content, ts) =>
        OnSendReply(content, ts, resp);
        fault := None;
    }

    /** The handler branch of `_dispatch_response`: the oldest handler is
        popped, run, its error shown in the status line, and a failed reply
        still raises the warning. */
    method RunPending(b: string, resp: Object)
      requires PendingFor(outbox.pending, b) != []
      modifies this, store
      ensures old(Valid()) ==> Valid()
      ensures var s := old(StateOf());
        StateOf() == Handled(TuiModel.RunHandler(EnvOf(), Popped(s, b), PendingFor(s.outbox.pending, b)[0], resp), resp)
    {
      var h := outbox.pending[b][0];
      outbox := outbox.(pending := outbox.pending[b := outbox.pending[b][1..]]);
      var fault := RunHandler(h, resp);
      if fault.Some? {
        screen := screen.(status := "Handler error: " + fault.value);
      }
      if !TruthyOr(resp, "success", true) {
        ShowError(WarningText(CommandOf(resp), resp), true);
      }
    }

    /** `_dispatch_response(response)`. */
    method DispatchResponse(resp: Object, nowStamp: string)
      modifies this, store
      ensures old(Valid()) ==> Valid()
      ensures StateOf() == Dispatch(EnvOf(), old(StateOf()), resp, nowStamp)
    {
      match RouteOf(resp, outbox.pending)
      case ToIncoming =>
        HandleIncoming(resp, nowStamp);
      case ToHandler(b) =>
        RunPending(b, resp);
      case ToTimeout =>
        screen := screen.(status := "Session timeout: " + QtSession.StrOr(resp, "message", ""));
      case ToWarning =>
        ShowError(WarningText(CommandOf(resp), resp), true);
      case Ignored =>
    }

    /** One frame of `_send_and_wait`'s loop while the session runs. */
    method WaitStep(expected: string, frame: Option<Object>, nowStamp: string) returns (answer: Option<Object>)
      requires screen.running
      modifies this, store
      ensures old(Valid()) ==> Valid()
      ensures frame.None? ==> answer.None? && StateOf() == old(StateOf()).(screen := old(screen).(running := false))
      ensures frame.Some? && Answers(frame.value, expected) ==> answer == frame && StateOf() == old(StateOf())
      ensures frame.Some? && !Answers(frame.value, expected) ==>
                answer.None? && StateOf() == Dispatch(EnvOf(), old(StateOf()), frame.value, nowStamp)
    {
      if frame.None? {
        screen := screen.(running := false);
        return None;
      }
      if Answers(frame.value, expected) {
        return frame;
      }
      DispatchResponse(frame.value, nowStamp);
      answer := None;
    }

    /** `_send_and_wait(payload, expected_command)`: `arrivals` are what
        `recv_response` returns before the deadline, None being end of
        stream. */
    method SendAndWait(payload: Object, expected: string, arrivals: seq<Option<Object>>, nowStamp: string)
      returns (reply: Option<Object>)
      modifies this, store
      ensures old(Valid()) ==> Valid()
      ensures var s := old(StateOf());
        (StateOf(), reply) == Wait(EnvOf(), s.(outbox := s.outbox.(sent := s.outbox.sent + [payload])), expected, arrivals, nowStamp)
    {
      outbox := outbox.(sent := outbox.sent + [payload]);
      ghost var s0 := StateOf();
      reply := None;
      var i := 0;
      while reply.None? && screen.running && i < |arrivals|
        invariant 0 <= i <= |arrivals|
        invariant old(Valid()) ==> Valid()
        invariant reply.None? ==> Wait(EnvOf(), StateOf(), expected, arrivals[i..], nowStamp) == Wait(EnvOf(), s0, expected, arrivals, nowStamp)
        invariant reply.Some? ==> (StateOf(), reply) == Wait(EnvOf(), s0, expected, arrivals, nowStamp)
        decreases |arrivals| - i
      {
        ghost var before := StateOf();
        assert arrivals[i..][0] == arrivals[i] && arrivals[i..][1..] == arrivals[i + 1..];
        reply := WaitStep(expected, arrivals[i], nowStamp);
        i := i + 1;
      }
    }

    /** One frame of `_poll_socket`'s loop: end of stream closes. */
    method PollStep(frame: Option<Object>, nowStamp: string) returns (closed: bool)
      modifies this, store
      ensures old(Valid()) ==> Valid()
      ensures closed == frame.None?
      ensures frame.None? ==> StateOf() == old(StateOf()).(screen := old(screen).(status := "Server closed connection.", running := false))
      ensures frame.Some? ==> StateOf() == Dispatch(EnvOf(), old(StateOf()), frame.value, nowStamp)
    {
      if frame.None? {
        screen := screen.(status := "Server closed connection.", running := false);
        return true;
      }
      DispatchResponse(frame.value, nowStamp);
      closed := false;
    }

    /** `_poll_socket()`: `arrivals` are what `recv_response` returns while
        the socket stays readable. */
    method PollSocket(arrivals: seq<Option<Object>>, nowStamp: string)
      modifies this, store
      ensures old(Valid()) ==> Valid()
      ensures StateOf() == Poll(EnvOf(), old(StateOf()), arrivals, nowStamp)
    {
      ghost var s0 := StateOf();
      var closed := false;
      var i := 0;
      while !closed && i < |arrivals|
        invariant 0 <= i <= |arrivals|
        invariant old(Valid()) ==> Valid()
        invariant !closed ==> Poll(EnvOf(), StateOf(), arrivals[i..], nowStamp) == Poll(EnvOf(), s0, arrivals, nowStamp)
        invariant closed ==> StateOf() == Poll(EnvOf(), s0, arrivals, nowStamp)
        decreases |arrivals| - i
      {
        assert arrivals[i..][0] == arrivals[i] && arrivals[i..][1..] == arrivals[i + 1..];
        closed := PollStep(arrivals[i], nowStamp);
        i := i + 1;
      }
    }

    /** `_periodic_refresh()` at time `now`. */
    method PeriodicRefresh(now: int)
      modifies this
      ensures StateOf() == TuiModel.PeriodicRefresh(EnvOf(), old(StateOf()), now)
    {
      if now - clock.lastUsersRefresh >= UsersInterval {
        var ok := RefreshUsers();
        if ok {
          clock := clock.(lastUsersRefresh := now);
        }
      }
      if HasPeer(roster) && now - clock.lastHistoryRefresh >= HistoryInterval {
        var ok := RequestHistory(roster.selectedPeer.value);
        if ok {
          clock := clock.(lastHistoryRefresh := now);
        }
      }
    }

    /** `_move_selection(delta)`. */
    method MoveSelection(delta: int)
      modifies this
      ensures StateOf() == TuiModel.MoveSelection(EnvOf(), old(StateOf()), delta)
    {
      if roster.users == [] {
        return;
      }
      var i := (roster.selectedIndex + delta) % |roster.users|;
      roster := roster.(selectedIndex := i, selectedPeer := UsernameOf(roster.users[i]));
      if roster.selectedPeer.Some? && roster.selectedPeer.value != "" {
        var _ := RequestHistory(roster.selectedPeer.value);
        MarkRead(roster.selectedPeer.value);
      }
    }

    /** `_scroll_chat(delta)`. */
    method ScrollChat(delta: int)
      modifies this
      ensures StateOf() == TuiModel.ScrollChat(old(StateOf()), delta)
    {
      if !HasPeer(roster) {
        return;
      }
      var p := roster.selectedPeer.value;
      var current := CountOf(reading.chatOffset, p);
      var target := if current + delta < 0 then 0 else current + delta;
      var maxOffset := MaxOffset(store.conversations, p, reading.lastChatVisible);
      if maxOffset < target {
        target := maxOffset;
      }
      reading := reading.(chatOffset := reading.chatOffset[p := target]);
    }

    /** What `_draw_chat` records in a window `height` rows high. */
    method NoteChatDrawn(height: int)
      modifies this
      ensures StateOf() == ChatDrawn(old(StateOf()), height)
    {
      if !HasPeer(roster) {
        return;
      }
      var p := roster.selectedPeer.value;
      var visible := height - 2;
      var offset := CountOf(reading.chatOffset, p);
      var maxOffset := MaxOffset(store.conversations, p, visible);
      offset := if offset < 0 then 0 else offset;
      offset := if maxOffset < offset then maxOffset else offset;
      reading := reading.(lastChatVisible := visible, chatOffset := reading.chatOffset[p := offset]);
    }

    /** `_logout_and_quit()`: `arrivals` are the frames before its 2 s deadline. */
    method LogoutAndQuit(arrivals: seq<Option<Object>>, nowStamp: string)
      modifies this, store
      ensures old(Valid()) ==> Valid()
      ensures StateOf() == TuiModel.LogoutAndQuit(EnvOf(), old(StateOf()), arrivals, nowStamp)
    {
      screen := screen.(awaitingQuitConfirm := false);
      var resp := SendAndWait(LogoutPayload, "logout", arrivals, nowStamp);
      if resp.Some? && Succeeded(resp.value) {
        screen := screen.(status := "Logged out.");
      }
      screen := screen.(running := false);
    }

    /** `_send_current_message()` as written: the input is cleared before
        the request, which may be refused. */
    method SendCurrentMessage(utcStamp: string)
      modifies this
      ensures StateOf() == TuiModel.SendCurrentMessage(old(StateOf()), utcStamp)
    {
      if !HasPeer(roster) {
        screen := screen.(status := "Select a user before sending.");
        return;
      }
      var content := Strip(screen.inputBuffer);
      if content == "" {
        return;
      }
      screen := screen.(inputBuffer := "");
      var _ := SendRequest(SendMessagePayload(roster.selectedPeer.value, content, utcStamp), "send_message",
                           Some(SendHandler(content, utcStamp)));
    }

    /** `_send_current_message()` clearing the input only once the request
        went out. */
    method SendCurrentMessageFixed(utcStamp: string)
      modifies this
      ensures StateOf() == TuiModel.SendCurrentMessageFixed(old(StateOf()), utcStamp)
    {
      if !HasPeer(roster) {
        screen := screen.(status := "Select a user before sending.");
        return;
      }
      var content := Strip(screen.inputBuffer);
      if content == "" {
        return;
      }
      var ok := SendRequest(SendMessagePayload(roster.selectedPeer.value, content, utcStamp), "send_message",
                            Some(SendHandler(content, utcStamp)));
      if ok {
        screen := screen.(inputBuffer := "");
      }
    }

    /** `_handle_key()` for the key `ch` read by `getch`; `now` is
        `time.monotonic()` in milliseconds. */
    method HandleKey(ch: int, now: int, arrivals: seq<Option<Object>>, nowStamp: string, utcStamp: string)
      modifies this, store
      ensures old(Valid()) ==> Valid()
      ensures StateOf() == TuiModel.HandleKey(EnvOf(), old(StateOf()), ch, now, arrivals, nowStamp, utcStamp)
    {
      if ch == KeyNone {
        return;
      }
      if screen.errorModal {
        if IsEnter(ch) || ch == KeyEsc {
          ClearError();
        }
        return;
      }
      if screen.awaitingQuitConfirm {
        if ch == 'y' as int || ch == 'Y' as int {
          LogoutAndQuit(arrivals, nowStamp);
        } else if ch == 'n' as int || ch == 'N' as int || ch == KeyEsc {
          screen := screen.(awaitingQuitConfirm := false, status := "Quit canceled.");
        }
        return;
      }
      if screen.focusChat {
        ChatKey(ch, utcStamp);
      } else {
        ListKey(ch, now);
      }
    }

    /** The chat-pane branch of `_handle_key`. */
    method ChatKey(ch: int, utcStamp: string)
      modifies this
      ensures StateOf() == TuiModel.ChatKey(old(StateOf()), ch, utcStamp)
    {
      var page := if reading.lastChatVisible != 0 then reading.lastChatVisible else 5;
      if ch == KeyEsc {
        screen := screen.(focusChat := false, status := "Back to user list.");
      } else if ch == KeyPrevPage {
        ScrollChat(page);
      } else if ch == KeyNextPage {
        ScrollChat(-page);
      } else if ch == KeyUp {
        ScrollChat(1);
      } else if ch == KeyDown {
        ScrollChat(-1);
      } else if ch == KeyBackspace || ch == 127 || ch == 8 {
        if screen.inputBuffer != [] {
          screen := screen.(inputBuffer := screen.inputBuffer[..|screen.inputBuffer| - 1]);
        }
      } else if IsEnter(ch) {
        SendCurrentMessage(utcStamp);
      } else if 32 <= ch <= 126 {
        screen := screen.(inputBuffer := screen.inputBuffer + [ch as char]);
      }
    }

    /** The users-list branch of `_handle_key`. */
    method ListKey(ch: int, now: int)
      modifies this
      ensures StateOf() == TuiModel.ListKey(EnvOf(), old(StateOf()), ch, now)
    {
      if ch == 'q' as int || ch == 'Q' as int {
        screen := screen.(awaitingQuitConfirm := true, status := "");
      } else if ch == KeyUp {
        MoveSelection(-1);
      } else if ch == KeyDown {
        MoveSelection(1);
      } else if ch == 'u' as int || ch == 'U' as int {
        var ok := RefreshUsers();
        if ok {
          clock := clock.(lastUsersRefresh := now);
        }
      } else if (ch == 'r' as int || ch == 'R' as int) && HasPeer(roster) {
        var ok := RequestHistory(roster.selectedPeer.value);
        if ok {
          clock := clock.(lastHistoryRefresh := now);
        }
      } else if IsEnter(ch) && HasPeer(roster) {
        screen := screen.(focusChat := true, status := "Chatting with " + roster.selectedPeer.value + ". ESC to go back.");
      }
    }

    /** The chat-pane keys with Enter sending through the corrected
        `_send_current_message`. */
    method ChatKeyFixed(ch: int, utcStamp: string)
      modifies this
      ensures StateOf() == TuiModel.ChatKeyFixed(old(StateOf()), ch, utcStamp)
    {
      if IsEnter(ch) {
        SendCurrentMessageFixed(utcStamp);
      } else {
        ChatKey(ch, utcStamp);
      }
    }

    /** `_handle_key()` with the chat pane's keys as ChatKeyFixed handles them. */
    method HandleKeyFixed(ch: int, now: int, arrivals: seq<Option<Object>>, nowStamp: string, utcStamp: string)
      modifies this, store
      ensures old(Valid()) ==> Valid()
      ensures StateOf() == TuiModel.HandleKeyFixed(EnvOf(), old(StateOf()), ch, now, arrivals, nowStamp, utcStamp)
    {
      if ch != KeyNone && !screen.errorModal && !screen.awaitingQuitConfirm && screen.focusChat {
        ChatKeyFixed(ch, utcStamp);
      } else {
        HandleKey(ch, now, arrivals, nowStamp, utcStamp);
      }
    }
  }
}
