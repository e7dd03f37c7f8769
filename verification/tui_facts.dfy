/** What the curses client's session transitions promise: one waiting
    handler per command, incoming frames that never consume a handler, the
    clamped scroll offset, the wrapped selection that always names the
    highlighted row, `_send_and_wait`'s answer and end of stream, and the
    quit confirmation. */
module TuiFacts {
  import opened Wrappers
  import opened Json
  import opened Text
  import opened PyProtocol
  import QtSession
  import opened TuiModel

  // ---------------------------------------------------------------------
  // Pending handlers

  /** `_send_request` never lets a second handler wait for a command. */
  lemma RequestKeepsPendingOk(o: Outbox, payload: Object, h: Handler)
    requires PendingOk(o.pending)
    ensures PendingOk(Request(o, payload, KeyOf(h), Some(h)).0.pending)
  {
    var t := Request(o, payload, KeyOf(h), Some(h)).0;
    forall k | k in t.pending
      ensures |t.pending[k]| <= 1 && (|t.pending[k]| == 1 ==> KeyOf(t.pending[k][0]) == k)
    {
      if k != KeyOf(h) {
        assert PendingFor(t.pending, k) == PendingFor(o.pending, k);
      } else {
        assert PendingFor(t.pending, k) == PendingFor(o.pending, k) || PendingFor(t.pending, k) == [h];
      }
    }
  }

  /** A handler either raises, leaving everything as it was, or returns. */
  lemma HandlerFaultChangesNothing(env: Env, s: State, h: Handler, resp: Object)
    ensures RunHandler(env, s, h, resp).1.Some? ==> RunHandler(env, s, h, resp).0 == s
  {
  }

  /** Running a handler keeps at most one handler waiting per command. */
  lemma RunHandlerKeepsPendingOk(env: Env, s: State, h: Handler, resp: Object)
    requires PendingOk(s.outbox.pending)
    ensures PendingOk(RunHandler(env, s, h, resp).0.outbox.pending)
  {
    if h.UsersHandler? && Succeeded(resp) && PayloadDict(resp).Returned? {
      var payload := PayloadDict(resp).value;
      if DictsOf(ListOr(payload, "users")).Returned? {
        var users := OtherUsers(DictsOf(ListOr(payload, "users")).value, s.roster.username);
        var ro := Reselect(s.roster, users);
        if ro.selectedPeer.Some? {
          var p := ro.selectedPeer.value;
          RequestKeepsPendingOk(s.outbox, GetHistoryPayload(p, env.historyLimit, 0), HistoryHandler(p));
        }
      }
    }
  }

  /** `_dispatch_response` keeps at most one handler waiting per command. */
  lemma DispatchKeepsPendingOk(env: Env, s: State, resp: Object, nowStamp: string)
    requires PendingOk(s.outbox.pending)
    ensures PendingOk(Dispatch(env, s, resp, nowStamp).outbox.pending)
  {
    match RouteOf(resp, s.outbox.pending)
    case ToHandler(b) =>
      var s0 := Popped(s, b);
      assert PendingOk(s0.outbox.pending);
      RunHandlerKeepsPendingOk(env, s0, PendingFor(s.outbox.pending, b)[0], resp);
    case _ =>
  }

  /** Only the users handler sends anything (its follow-up history
      request); every other handler leaves the outbox alone. */
  lemma RunHandlerOutbox(env: Env, s: State, h: Handler, resp: Object)
    ensures !h.UsersHandler? ==> RunHandler(env, s, h, resp).0.outbox == s.outbox
    ensures forall k :: k != "get_history" ==>
      PendingFor(RunHandler(env, s, h, resp).0.outbox.pending, k) == PendingFor(s.outbox.pending, k)
  {
  }

  /** What a handler leaves besides the status line and the error box. */
  lemma HandledKeeps(r: (State, Option<string>), resp: Object)
    ensures Handled(r, resp).(screen := r.0.screen) == r.0
    ensures Handled(r, resp).screen.running == r.0.screen.running
    ensures Handled(r, resp).screen.awaitingQuitConfirm == r.0.screen.awaitingQuitConfirm
  {
  }

  /** A frame for a command with a waiting handler consumes the oldest one
      (there is only ever one), whatever the handler does. */
  lemma DispatchPopsOldest(env: Env, s: State, resp: Object, nowStamp: string)
    requires PendingOk(s.outbox.pending) && RouteOf(resp, s.outbox.pending).ToHandler?
    ensures var b := RouteOf(resp, s.outbox.pending).base;
      PendingFor(Dispatch(env, s, resp, nowStamp).outbox.pending, b) == PendingFor(s.outbox.pending, b)[1..]
  {
    var b := RouteOf(resp, s.outbox.pending).base;
    var q := PendingFor(s.outbox.pending, b);
    var s0 := Popped(s, b);
    assert KeyOf(q[0]) == b;
    var r := RunHandler(env, s0, q[0], resp);
    RunHandlerOutbox(env, s0, q[0], resp);
    HandledKeeps(r, resp);
  }

  /** Incoming messages are never taken for a reply: no handler is consumed
      and nothing is sent. */
  lemma IncomingKeepsHandlers(env: Env, s: State, resp: Object, nowStamp: string)
    requires RouteOf(resp, s.outbox.pending).ToIncoming?
    ensures Dispatch(env, s, resp, nowStamp).outbox == s.outbox
  {
  }

  /** A frame without a waiting handler: a timeout sets the status line,
      an unsuccessful reply shows a warning, anything else is dropped. */
  lemma UnclaimedFrames(env: Env, s: State, resp: Object, nowStamp: string)
    ensures RouteOf(resp, s.outbox.pending).ToTimeout? ==>
              Dispatch(env, s, resp, nowStamp) == s.(screen := s.screen.(status := "Session timeout: " + QtSession.StrOr(resp, "message", "")))
    ensures RouteOf(resp, s.outbox.pending).ToWarning? ==>
              var t := Dispatch(env, s, resp, nowStamp);
              t.screen.errorMessage == Some(WarningText(CommandOf(resp), resp)) && t.screen.errorModal && t.screen.status == "" &&
              t.(screen := s.screen) == s
    ensures RouteOf(resp, s.outbox.pending).Ignored? ==> Dispatch(env, s, resp, nowStamp) == s
  {
  }

  // ---------------------------------------------------------------------
  // Incoming messages

  /** `_handle_incoming`: the sender is listed afterwards (added as online
      when unknown), and its unread count goes up unless it is the peer on
      screen with the chat pane focused. */
  lemma IncomingEffects(env: Env, s: State, resp: Object, nowStamp: string)
    ensures var peer := QtSession.StrOr(resp, "sender", "?");
      var t := Incoming(env, s, resp, nowStamp);
      Listed(t.roster.users, peer) &&
      (Listed(s.roster.users, peer) ==> t.roster.users == s.roster.users) &&
      (!Listed(s.roster.users, peer) ==> t.roster.users == s.roster.users + [map["username" := Str(peer), "online" := Bool(true)]]) &&
      CountOf(t.reading.unread, peer) == CountOf(s.reading.unread, peer) +
        (if s.roster.selectedPeer == Some(peer) && s.screen.focusChat then 0 else 1) &&
      (forall p :: p != peer ==> CountOf(t.reading.unread, p) == CountOf(s.reading.unread, p)) &&
      t.roster.(users := s.roster.users) == s.roster && t.outbox == s.outbox &&
      t.screen.status == (if s.roster.username.None? || s.roster.username == Some("") then "" else "New message from " + peer)
  {
    var peer := QtSession.StrOr(resp, "sender", "?");
    if !Listed(s.roster.users, peer) {
      var u := s.roster.users + [map["username" := Str(peer), "online" := Bool(true)]];
      assert "username" in u[|s.roster.users|] && u[|s.roster.users|]["username"] == Str(peer);
    }
  }

  // ---------------------------------------------------------------------
  // Scrolling and selection

  /** `_scroll_chat` keeps the selected peer's offset within
      [0, max(0, len(messages) - last_visible)], moves it by exactly `delta`
      when that stays inside, and touches no other peer. */
  lemma ScrollStaysInRange(s: State, delta: int)
    ensures !HasPeer(s.roster) ==> ScrollChat(s, delta) == s
    ensures HasPeer(s.roster) ==>
      var p := s.roster.selectedPeer.value;
      var t := ScrollChat(s, delta);
      var off := CountOf(t.reading.chatOffset, p);
      var limit := MaxOffset(s.conversations, p, s.reading.lastChatVisible);
      0 <= off <= limit &&
      (0 <= CountOf(s.reading.chatOffset, p) + delta <= limit ==> off == CountOf(s.reading.chatOffset, p) + delta) &&
      (forall q :: q != p ==> CountOf(t.reading.chatOffset, q) == CountOf(s.reading.chatOffset, q)) &&
      t.(reading := s.reading) == s && t.reading.(chatOffset := s.reading.chatOffset) == s.reading
  {
  }

  /** Drawing the chat pane clamps the offset the same way for the height
      it has just measured. */
  lemma ChatDrawnInRange(s: State, height: int)
    ensures HasPeer(s.roster) ==>
      var p := s.roster.selectedPeer.value;
      var t := ChatDrawn(s, height);
      t.reading.lastChatVisible == height - 2 &&
      0 <= CountOf(t.reading.chatOffset, p) <= MaxOffset(s.conversations, p, height - 2) &&
      (forall q :: q != p ==> CountOf(t.reading.chatOffset, q) == CountOf(s.reading.chatOffset, q)) &&
      t.(reading := s.reading) == s
    ensures !HasPeer(s.roster) ==> ChatDrawn(s, height) == s
  {
  }

  /** `_mark_read` zeroes only a count that exists; tui_app.py also makes
      sure the peer has a scroll offset, client.py leaves offsets alone. */
  lemma MarkReadZeroesKnown(env: Env, rd: Reading, peer: string)
    ensures var t := MarkRead(env, rd, peer);
      t.unread.Keys == rd.unread.Keys &&
      (peer in rd.unread ==> t.unread[peer] == 0) &&
      (forall p :: p in rd.unread && p != peer ==> t.unread[p] == rd.unread[p]) &&
      (env.variant == ClientApp ==> t.chatOffset == rd.chatOffset) &&
      (env.variant == TuiApp ==> t.chatOffset == rd.chatOffset[peer := CountOf(rd.chatOffset, peer)]) &&
      t.lastChatVisible == rd.lastChatVisible
  {
  }

  /** `_move_selection`: nothing on an empty list; otherwise the index wraps
      modulo the list length and the new row's peer, when it has a name, is
      marked read. */
  lemma MoveSelectionWraps(env: Env, s: State, delta: int)
    ensures s.roster.users == [] ==> MoveSelection(env, s, delta) == s
    ensures s.roster.users != [] ==>
      var t := MoveSelection(env, s, delta);
      var ro := t.roster;
      ro.selectedIndex == (s.roster.selectedIndex + delta) % |s.roster.users| &&
      0 <= ro.selectedIndex < |s.roster.users| && ro.users == s.roster.users &&
      ro.selectedPeer == UsernameOf(s.roster.users[ro.selectedIndex]) &&
      (HasPeer(ro) ==> t.reading == MarkRead(env, s.reading, ro.selectedPeer.value)) &&
      (!HasPeer(ro) ==> t.reading == s.reading) &&
      t.screen == s.screen && t.conversations == s.conversations
  {
  }

  /** Moving the selection asks for the new peer's history unless a history
      request is still waiting. */
  lemma MoveSelectionRequestsHistory(env: Env, s: State, delta: int)
    requires s.roster.users != []
    ensures var t := MoveSelection(env, s, delta);
      HasPeer(t.roster) && PendingFor(s.outbox.pending, "get_history") == [] ==>
        t.outbox.sent == s.outbox.sent + [GetHistoryPayload(t.roster.selectedPeer.value, env.historyLimit, 0)] &&
        PendingFor(t.outbox.pending, "get_history") == [HistoryHandler(t.roster.selectedPeer.value)]
    ensures var t := MoveSelection(env, s, delta);
      !HasPeer(t.roster) || PendingFor(s.outbox.pending, "get_history") != [] ==> t.outbox == s.outbox
  {
  }

  /** A successful users reply lists every other user and never the
      session's own account; a selection still listed is kept. */
  lemma UsersReplyFilters(env: Env, s: State, resp: Object)
    requires Succeeded(resp) && PayloadDict(resp).Returned?
    requires DictsOf(ListOr(PayloadDict(resp).value, "users")).Returned?
    ensures var all := DictsOf(ListOr(PayloadDict(resp).value, "users")).value;
      var t := UsersReply(env, s, resp);
      var us := t.0.roster.users;
      t.1.None? &&
      (forall i :: 0 <= i < |us| ==> !SameUser(us[i], s.roster.username) && us[i] in all) &&
      (forall i :: 0 <= i < |all| && !SameUser(all[i], s.roster.username) ==> all[i] in us) &&
      (s.roster.selectedPeer.Some? && Str(s.roster.selectedPeer.value) in Names(us) ==> t.0.roster.selectedPeer == s.roster.selectedPeer) &&
      (us == [] ==> t.0.roster.selectedPeer.None?) &&
      t.0.screen.errorMessage.None? && !t.0.screen.errorModal
  {
  }

  /** The roster a users reply leaves shows its selection. */
  lemma ReselectShows(ro: Roster, users: seq<Object>)
    ensures SelectionShown(Reselect(ro, users))
  {
    var names := Names(users);
    if users != [] && PeerValue(ro.selectedPeer) in names {
      var i := IndexOf(names, PeerValue(ro.selectedPeer));
      assert names[i] == NameOf(users[i]);
    }
  }

  lemma UsersReplyShowsSelection(env: Env, s: State, resp: Object)
    requires SelectionShown(s.roster)
    ensures SelectionShown(UsersReply(env, s, resp).0.roster)
  {
    if Succeeded(resp) && PayloadDict(resp).Returned? {
      var payload := PayloadDict(resp).value;
      if DictsOf(ListOr(payload, "users")).Returned? {
        ReselectShows(s.roster, OtherUsers(DictsOf(ListOr(payload, "users")).value, s.roster.username));
      }
    }
  }

  lemma IncomingShowsSelection(env: Env, s: State, resp: Object, nowStamp: string)
    requires SelectionShown(s.roster)
    ensures SelectionShown(Incoming(env, s, resp, nowStamp).roster)
  {
    var t := Incoming(env, s, resp, nowStamp);
    if s.roster.selectedPeer.Some? {
      assert t.roster.users[s.roster.selectedIndex] == s.roster.users[s.roster.selectedIndex];
    }
  }

  lemma RunHandlerShowsSelection(env: Env, s: State, h: Handler, resp: Object)
    requires SelectionShown(s.roster)
    ensures SelectionShown(RunHandler(env, s, h, resp).0.roster)
  {
    if h.UsersHandler? {
      UsersReplyShowsSelection(env, s, resp);
    }
  }

  /** Every frame keeps the selected peer the name on the highlighted row. */
  lemma DispatchShowsSelection(env: Env, s: State, resp: Object, nowStamp: string)
    requires SelectionShown(s.roster)
    ensures SelectionShown(Dispatch(env, s, resp, nowStamp).roster)
  {
    match RouteOf(resp, s.outbox.pending)
    case ToIncoming =>
      IncomingShowsSelection(env, s, resp, nowStamp);
    case ToHandler(b) =>
      var r := RunHandler(env, Popped(s, b), PendingFor(s.outbox.pending, b)[0], resp);
      RunHandlerShowsSelection(env, Popped(s, b), PendingFor(s.outbox.pending, b)[0], resp);
      HandledKeeps(r, resp);
    case _ =>
  }

  lemma MoveSelectionShowsSelection(env: Env, s: State, delta: int)
    requires SelectionShown(s.roster)
    ensures SelectionShown(MoveSelection(env, s, delta).roster)
  {
  }

  // ---------------------------------------------------------------------
  // Waiting for a reply

  /** `t` leaves the session running as `s` did, with the same quit prompt,
      and has only added to what was sent. */
  predicate Continues(s: State, t: State) {
    t.screen.running == s.screen.running && t.screen.awaitingQuitConfirm == s.screen.awaitingQuitConfirm &&
    |s.outbox.sent| <= |t.outbox.sent| && t.outbox.sent[..|s.outbox.sent|] == s.outbox.sent
  }

  lemma UsersReplyContinues(env: Env, s: State, resp: Object)
    ensures Continues(s, UsersReply(env, s, resp).0)
  {
  }

  lemma RunHandlerContinues(env: Env, s: State, h: Handler, resp: Object)
    ensures Continues(s, RunHandler(env, s, h, resp).0)
  {
    if h.UsersHandler? {
      UsersReplyContinues(env, s, resp);
    }
  }

  lemma IncomingContinues(env: Env, s: State, resp: Object, nowStamp: string)
    ensures Continues(s, Incoming(env, s, resp, nowStamp))
  {
  }

  /** Dispatching never stops the session, never sets the quit prompt and
      only ever adds to what was sent. */
  lemma DispatchKeepsFlags(env: Env, s: State, resp: Object, nowStamp: string)
    ensures Continues(s, Dispatch(env, s, resp, nowStamp))
  {
    match RouteOf(resp, s.outbox.pending)
    case ToIncoming =>
      IncomingContinues(env, s, resp, nowStamp);
    case ToHandler(b) =>
      var r := RunHandler(env, Popped(s, b), PendingFor(s.outbox.pending, b)[0], resp);
      RunHandlerContinues(env, Popped(s, b), PendingFor(s.outbox.pending, b)[0], resp);
      HandledKeeps(r, resp);
    case _ =>
  }

  /** The reply `_send_and_wait` returns answers the expected command and
      is one of the frames that arrived. */
  lemma {:induction false} WaitAnswers(env: Env, s: State, expected: string, arrivals: seq<Option<Object>>, nowStamp: string)
    ensures var r := Wait(env, s, expected, arrivals, nowStamp).1;
      r.Some? ==> Answers(r.value, expected) && r in arrivals
    decreases |arrivals|
  {
    if s.screen.running && arrivals != [] && arrivals[0].Some? && !Answers(arrivals[0].value, expected) {
      WaitAnswers(env, Dispatch(env, s, arrivals[0].value, nowStamp), expected, arrivals[1..], nowStamp);
      var r := Wait(env, s, expected, arrivals, nowStamp).1;
      if r.Some? {
        assert r in arrivals[1..];
      }
    }
  }

  /** End of stream before any answer stops the session and returns None;
      every frame before it was dispatched. */
  lemma {:induction false} WaitEndOfStream(env: Env, s: State, expected: string, arrivals: seq<Option<Object>>, k: nat, nowStamp: string)
    requires s.screen.running && k < |arrivals| && arrivals[k].None?
    requires forall j :: 0 <= j < k ==> arrivals[j].Some? && !Answers(arrivals[j].value, expected)
    ensures !Wait(env, s, expected, arrivals, nowStamp).0.screen.running
    ensures Wait(env, s, expected, arrivals, nowStamp).1.None?
    decreases k
  {
    if k > 0 {
      var s1 := Dispatch(env, s, arrivals[0].value, nowStamp);
      DispatchKeepsFlags(env, s, arrivals[0].value, nowStamp);
      forall j | 0 <= j < k - 1
        ensures arrivals[1..][j].Some? && !Answers(arrivals[1..][j].value, expected)
      {
        assert arrivals[1..][j] == arrivals[j + 1];
      }
      WaitEndOfStream(env, s1, expected, arrivals[1..], k - 1, nowStamp);
    }
  }

  /** The session keeps running through a wait that sees no end of stream,
      and the wait only adds to what was sent. */
  lemma {:induction false} WaitKeepsFlags(env: Env, s: State, expected: string, arrivals: seq<Option<Object>>, nowStamp: string)
    ensures var t := Wait(env, s, expected, arrivals, nowStamp).0;
      t.screen.awaitingQuitConfirm == s.screen.awaitingQuitConfirm &&
      |s.outbox.sent| <= |t.outbox.sent| && t.outbox.sent[..|s.outbox.sent|] == s.outbox.sent &&
      ((forall j :: 0 <= j < |arrivals| ==> arrivals[j].Some?) ==> t.screen.running == s.screen.running)
    decreases |arrivals|
  {
    if s.screen.running && arrivals != [] && arrivals[0].Some? && !Answers(arrivals[0].value, expected) {
      var s1 := Dispatch(env, s, arrivals[0].value, nowStamp);
      DispatchKeepsFlags(env, s, arrivals[0].value, nowStamp);
      WaitKeepsFlags(env, s1, expected, arrivals[1..], nowStamp);
      var t := Wait(env, s1, expected, arrivals[1..], nowStamp).0;
      assert t.outbox.sent[..|s.outbox.sent|] == t.outbox.sent[..|s1.outbox.sent|][..|s.outbox.sent|];
      if forall j :: 0 <= j < |arrivals| ==> arrivals[j].Some? {
        assert forall j :: 0 <= j < |arrivals[1..]| ==> arrivals[1..][j] == arrivals[j + 1];
      }
    }
  }

  /** A wait keeps the selected peer the name on the highlighted row. */
  lemma {:induction false} WaitShowsSelection(env: Env, s: State, expected: string, arrivals: seq<Option<Object>>, nowStamp: string)
    requires SelectionShown(s.roster)
    ensures SelectionShown(Wait(env, s, expected, arrivals, nowStamp).0.roster)
    decreases |arrivals|
  {
    if s.screen.running && arrivals != [] && arrivals[0].Some? && !Answers(arrivals[0].value, expected) {
      DispatchShowsSelection(env, s, arrivals[0].value, nowStamp);
      WaitShowsSelection(env, Dispatch(env, s, arrivals[0].value, nowStamp), expected, arrivals[1..], nowStamp);
    }
  }

  // ---------------------------------------------------------------------
  // Keys and refresh

  /** While the quit prompt is up, "y" logs out and stops, "n" or ESC
      cancels, and any other key changes nothing. */
  lemma QuitConfirmKeys(env: Env, s: State, ch: int, now: int, arrivals: seq<Option<Object>>, nowStamp: string, utcStamp: string)
    requires s.screen.awaitingQuitConfirm && !s.screen.errorModal && ch != KeyNone
    ensures var t := HandleKey(env, s, ch, now, arrivals, nowStamp, utcStamp);
      (ch == 'y' as int || ch == 'Y' as int ==>
        !t.screen.running && !t.screen.awaitingQuitConfirm &&
        |t.outbox.sent| > |s.outbox.sent| && t.outbox.sent[|s.outbox.sent|] == LogoutPayload) &&
      (ch == 'n' as int || ch == 'N' as int || ch == KeyEsc ==>
        t == s.(screen := s.screen.(awaitingQuitConfirm := false, status := "Quit canceled."))) &&
      (ch != 'y' as int && ch != 'Y' as int && ch != 'n' as int && ch != 'N' as int && ch != KeyEsc ==> t == s)
  {
    if ch == 'y' as int || ch == 'Y' as int {
      var s0 := s.(screen := s.screen.(awaitingQuitConfirm := false), outbox := s.outbox.(sent := s.outbox.sent + [LogoutPayload]));
      WaitKeepsFlags(env, s0, "logout", arrivals, nowStamp);
      var w := Wait(env, s0, "logout", arrivals, nowStamp).0;
      assert w.outbox.sent[..|s0.outbox.sent|][|s.outbox.sent|] == s0.outbox.sent[|s.outbox.sent|];
    }
  }

  /** `_periodic_refresh`: nothing happens before either interval is up, a
      refresh time moves to `now` only when its request went out, and a due
      users refresh goes out whenever no list request is waiting. */
  lemma PeriodicRefreshOnlyWhenSent(env: Env, s: State, now: int)
    ensures now - s.clock.lastUsersRefresh < UsersInterval && now - s.clock.lastHistoryRefresh < HistoryInterval ==>
              PeriodicRefresh(env, s, now) == s
    ensures var t := PeriodicRefresh(env, s, now);
      (t.clock.lastUsersRefresh == s.clock.lastUsersRefresh || t.clock.lastUsersRefresh == now) &&
      (t.clock.lastUsersRefresh != s.clock.lastUsersRefresh ==>
         |t.outbox.sent| > |s.outbox.sent| && t.outbox.sent[|s.outbox.sent|] == UsersPayload) &&
      (t.clock.lastHistoryRefresh == s.clock.lastHistoryRefresh || t.clock.lastHistoryRefresh == now) &&
      (t.clock.lastHistoryRefresh != s.clock.lastHistoryRefresh ==>
         HasPeer(s.roster) && t.outbox.sent[|t.outbox.sent| - 1] == GetHistoryPayload(s.roster.selectedPeer.value, env.historyLimit, 0)) &&
      t.(outbox := s.outbox, clock := s.clock) == s
    ensures now - s.clock.lastUsersRefresh >= UsersInterval && PendingFor(s.outbox.pending, "list_users") == [] ==>
              var t := PeriodicRefresh(env, s, now);
              t.clock.lastUsersRefresh == now && t.outbox.sent[|s.outbox.sent|] == UsersPayload
  {
  }

  // ---------------------------------------------------------------------
  // Sending the typed message

  /** As written: with a send still waiting for its reply, Enter clears the
      typed message and sends nothing, so the message is lost. */
  lemma SendWhilePendingDropsInput(s: State, utcStamp: string)
    requires HasPeer(s.roster) && Strip(s.screen.inputBuffer) != "" && PendingFor(s.outbox.pending, "send_message") != []
    ensures SendCurrentMessage(s, utcStamp).screen.inputBuffer == ""
    ensures SendCurrentMessage(s, utcStamp).outbox == s.outbox
  {
  }

  /** Corrected: the typed message is either sent, with its stripped text
      and stamp, or still in the input line. */
  lemma SendKeepsUnsentInput(s: State, utcStamp: string)
    requires HasPeer(s.roster) && Strip(s.screen.inputBuffer) != ""
    ensures var t := SendCurrentMessageFixed(s, utcStamp);
      var content := Strip(s.screen.inputBuffer);
      (t.outbox.sent == s.outbox.sent + [SendMessagePayload(s.roster.selectedPeer.value, content, utcStamp)] &&
       t.screen.inputBuffer == "" && PendingFor(t.outbox.pending, "send_message") == [SendHandler(content, utcStamp)]) ||
      (t == s && PendingFor(s.outbox.pending, "send_message") != [])
  {
  }

  /** As written: Enter in the chat pane, while a send is still waiting for
      its reply, clears the typed message and sends nothing. */
  lemma EnterWhilePendingDropsInput(env: Env, s: State, now: int, arrivals: seq<Option<Object>>, nowStamp: string, utcStamp: string)
    requires s.screen.focusChat && !s.screen.errorModal && !s.screen.awaitingQuitConfirm
    requires HasPeer(s.roster) && Strip(s.screen.inputBuffer) != "" && PendingFor(s.outbox.pending, "send_message") != []
    ensures var t := HandleKey(env, s, 10, now, arrivals, nowStamp, utcStamp);
      t.screen.inputBuffer == "" && t.outbox == s.outbox
  {
    SendWhilePendingDropsInput(s, utcStamp);
  }

  /** Corrected: Enter in the chat pane either sends the typed message or
      leaves it in the input line. */
  lemma EnterKeepsUnsentInput(env: Env, s: State, now: int, arrivals: seq<Option<Object>>, nowStamp: string, utcStamp: string)
    requires s.screen.focusChat && !s.screen.errorModal && !s.screen.awaitingQuitConfirm
    requires HasPeer(s.roster) && Strip(s.screen.inputBuffer) != ""
    ensures var t := HandleKeyFixed(env, s, 10, now, arrivals, nowStamp, utcStamp);
      var content := Strip(s.screen.inputBuffer);
      (t.outbox.sent == s.outbox.sent + [SendMessagePayload(s.roster.selectedPeer.value, content, utcStamp)] &&
       t.screen.inputBuffer == "") ||
      (t == s && PendingFor(s.outbox.pending, "send_message") != [])
  {
    SendKeepsUnsentInput(s, utcStamp);
  }

  /** The corrected key handler differs from the one as written only on
      Enter in the chat pane. */
  lemma HandleKeyFixedOnlyChangesEnter(env: Env, s: State, ch: int, now: int, arrivals: seq<Option<Object>>, nowStamp: string, utcStamp: string)
    ensures !IsEnter(ch) || !s.screen.focusChat || s.screen.errorModal || s.screen.awaitingQuitConfirm ==>
              HandleKeyFixed(env, s, ch, now, arrivals, nowStamp, utcStamp) == HandleKey(env, s, ch, now, arrivals, nowStamp, utcStamp)
  {
  }
}
