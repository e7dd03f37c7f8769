/** `WorkerThread` (src/WorkerThread.cpp): one epoll thread serving the
    connections assigned to it.  The database, crypto engine and JSON
    library are fixed for the length of one event (`Services`); sockets are
    the results their calls return. */
module WorkerThreads {
  import opened Wrappers
  import opened Wire
  import opened ProtocolHandler
  import opened ClientStates
  import opened MessageRouter
  import opened AuthManagers
  import opened OfflineDelivery
  import opened StatusManagers
  import opened WorkerFrames
  import opened WorkerSessions

  /** `findUserId`, `findUsername`, `getQueuedMessages` (by user id),
      `decryptMessage`, `markDelivered`, whether the message insert of
      `routeMessage` succeeds, the password hash and check, and JSON
      parse/dump with the `Command` defaults for `limit` and `offset`. */
  datatype Services = Services(
    userIds: map<string, int>, names: map<int, string>, queued: map<int, seq<StoredMessage>>,
    decrypt: Decrypter, markOk: int -> bool, insertOk: bool, hash: Hasher, verify: Verifier,
    parse: JsonParser, dump: JsonDumper, defaultLimit: int, defaultOffset: int)

  /** The stored messages waiting for `username`. */
  function QueuedFor(svc: Services, username: string): seq<StoredMessage> {
    if username in svc.userIds && svc.userIds[username] in svc.queued then svc.queued[svc.userIds[username]] else []
  }

  /** What `deliverOfflineMessages` pushes for `username`. */
  function OfflinePayloads(svc: Services, username: string): seq<string> {
    Payloads(Deliveries(QueuedFor(svc, username), svc.decrypt, svc.names))
  }

  /** The services' answers for `cmd` from a connection logged in as
      `sender` (if at all). */
  function FactsFor(cmd: Command, users: map<string, string>, routes: map<string, ClientState>, sender: string, svc: Services): Facts {
    Facts(cmd.username != "" && cmd.password != "" && cmd.username !in users,
          Accepted(users, cmd.username, cmd.password, svc.verify),
          cmd.username in routes,
          Persisted(svc.userIds, sender, cmd.recipient, svc.insertOk))
  }

  /** What lands in the connection's own queue ahead of the reply: the
      offline messages after a login, or a message it sent to itself. */
  function Pushed(cmd: Command, v: Verdict, svc: Services, toSelf: bool, sender: string): seq<string> {
    if cmd.kind == Login && v.success then OfflinePayloads(svc, cmd.username)
    else if cmd.kind == SendMessage && v.success && toSelf then [InboundPayload(sender, cmd.content)]
    else []
  }

  /** The router's table after `cmd`: a login registers the connection, a
      logout unregisters the name it was logged in under. */
  function RoutesAfter(routes: map<string, ClientState>, cmd: Command, v: Verdict, state: ClientState, sender: string): map<string, ClientState> {
    if cmd.kind == Login && v.success then routes[cmd.username := state]
    else if cmd.kind == Logout && v.success then routes - {sender}
    else routes
  }

  /** The connection `cmd.recipient` names in `routes`, if any. */
  function RecipientOf(routes: map<string, ClientState>, cmd: Command): (r: ClientState?)
    ensures r != null <==> cmd.recipient in routes
    ensures r != null ==> r == routes[cmd.recipient]
  {
    if cmd.recipient in routes then routes[cmd.recipient] else null
  }

  /** A command only ever adds its own connection to the router. */
  lemma RoutesAfterKeeps(routes: map<string, ClientState>, cmd: Command, v: Verdict, state: ClientState, sender: string)
    ensures forall u :: u in RoutesAfter(routes, cmd, v, state, sender) ==>
              RoutesAfter(routes, cmd, v, state, sender)[u] == state || (u in routes && RoutesAfter(routes, cmd, v, state, sender)[u] == routes[u])
  {
  }

  /** Whether `parseCommand` throws on `frame`. */
  predicate Throws(svc: Services, frame: seq<byte>) {
    ParseCommand(svc.parse, frame, svc.defaultLimit, svc.defaultOffset).Threw?
  }

  /** Whether the last frame served, if any, threw. */
  predicate LastThrew(d: Deframed, parsed0: seq<seq<byte>>, parsed: seq<seq<byte>>, svc: Services)
    requires |parsed0| <= |parsed| <= |parsed0| + |d.frames|
  {
    |parsed| > |parsed0| && Throws(svc, d.frames[|parsed| - |parsed0| - 1])
  }

  /** The frame loop's log after it ran over `d`: the frames served are
      a prefix of `d`'s, every one but the last parsed, and the process
      ended exactly when the last one threw; otherwise all were served. */
  predicate FramesServed(d: Deframed, parsed0: seq<seq<byte>>, parsed: seq<seq<byte>>, svc: Services, crashed0: bool, crashed: bool)
    requires |parsed0| <= |parsed| <= |parsed0| + |d.frames|
  {
    var n := |parsed| - |parsed0|;
    var threw := LastThrew(d, parsed0, parsed, svc);
    parsed == parsed0 + d.frames[..n] &&
    (forall k :: 0 <= k < n - 1 ==> !Throws(svc, d.frames[k])) &&
    crashed == (crashed0 || threw) &&
    (!threw ==> n == |d.frames|)
  }

  /** Whether `buf` starts with a complete frame within the limit. */
  predicate HasFrame(buf: seq<byte>) {
    |buf| >= HeaderSize && DecodeU32BE(buf) <= MaxFrameSize && |buf| >= HeaderSize + DecodeU32BE(buf)
  }

  /** A buffer that holds no complete frame yields none. */
  lemma NoFrame(buf: seq<byte>)
    requires !HasFrame(buf)
    ensures Deframe(buf) == Deframed([], buf, |buf| >= HeaderSize && DecodeU32BE(buf) > MaxFrameSize)
  {
  }

  /** The loop stopping with `d`'s frames all served, none of them throwing. */
  lemma StopServed(d: Deframed, done: seq<seq<byte>>, parsed0: seq<seq<byte>>, svc: Services, crashed0: bool)
    requires d.frames == done
    requires forall k :: 0 <= k < |done| ==> !Throws(svc, done[k])
    ensures |parsed0| <= |parsed0 + done| <= |parsed0| + |d.frames|
    ensures FramesServed(d, parsed0, parsed0 + done, svc, crashed0, crashed0)
    ensures !LastThrew(d, parsed0, parsed0 + done, svc)
  {
    assert d.frames[..|done|] == done;
  }

  /** The loop stopping because the last frame it served threw. */
  lemma ThrowServed(d: Deframed, done: seq<seq<byte>>, buf: seq<byte>, parsed0: seq<seq<byte>>, svc: Services, crashed0: bool)
    requires d == PrependFrames(done, Deframe(buf))
    requires |done| > 0 && Throws(svc, done[|done| - 1])
    requires forall k :: 0 <= k < |done| - 1 ==> !Throws(svc, done[k])
    ensures |parsed0| <= |parsed0 + done| <= |parsed0| + |d.frames|
    ensures FramesServed(d, parsed0, parsed0 + done, svc, crashed0, true)
    ensures LastThrew(d, parsed0, parsed0 + done, svc)
  {
    assert d.frames[..|done|] == done;
  }

  /** `f` with `w` sent ahead of it. */
  function SentAhead(w: string, f: Flushed): Flushed {
    Flushed(w + f.wire, f.queue, f.end)
  }

  lemma SentAheadTwice(a: string, b: string, f: Flushed)
    ensures SentAhead(a, SentAhead(b, f)) == SentAhead(a + b, f)
  {
    assert a + (b + f.wire) == (a + b) + f.wire;
  }

  /** How flushing a non-empty queue goes, by how sending its front ends. */
  lemma FlushStep(q: seq<string>, rs: seq<SendResult>)
    requires q != []
    ensures var m := q[0]; var s := SendAll(m, 0, rs);
      (s.end == Complete ==> FlushAsWritten(q, rs) == SentAhead(m[..s.sent], FlushAsWritten(q[1..], s.left))) &&
      (s.end == Again ==> FlushAsWritten(q, rs) == Flushed(m[..s.sent], Enqueue(q[1..], m[s.sent..]), Blocked)) &&
      (s.end == Failed ==> FlushAsWritten(q, rs) == Flushed(m[..s.sent], q[1..], Broken))
  {
    var m := q[0];
    assert m[..|m|] == m;
  }

  /** The inner send loop of `handleWriteEvent`: sends `m` from its first
      byte using the results from `j` on, and says where they stop. */
  method SendOne(m: string, results: seq<SendResult>, j: nat) returns (sent: nat, end: SendEnd, next: nat)
    requires j <= |results|
    ensures j <= next <= |results|
    ensures SendAll(m, 0, results[j..]) == Sending(sent, end, results[next..])
  {
    sent := 0;
    next := j;
    while sent < |m|
      invariant j <= next <= |results| && sent <= |m|
      invariant SendAll(m, 0, results[j..]) == SendAll(m, sent, results[next..])
      decreases |results| - next
    {
      if next == |results| {
        return sent, Again, next;
      }
      assert results[next..][1..] == results[next + 1..];
      match results[next]
      case SentSome(n) =>
        if n == 0 {
          return sent, Failed, next + 1;
        }
        sent := if sent + n <= |m| then sent + n else |m|;
        next := next + 1;
      case SendAgain =>
        return sent, Again, next + 1;
      case SendError =>
        return sent, Failed, next + 1;
    }
    end := Complete;
  }

  class Worker {
    const router: Router
    const auth: AuthManager
    const status: StatusManager
    /** `clientStates`. */
    var clients: map<int, ClientState>
    /** Client fds closed, oldest first. */
    var closedFds: seq<int>
    /** The epoll interest mask last set for each fd. */
    var masks: map<int, bv32>
    /** The frames handed to `parseCommand`, oldest first. */
    var parsed: seq<seq<byte>>
    /** Set when `parseCommand` threw: nothing catches the `type_error`,
        so the process ends. */
    var crashed: bool

    constructor(router: Router, auth: AuthManager, status: StatusManager)
      ensures this.router == router && this.auth == auth && this.status == status
      ensures clients == map[] && closedFds == [] && masks == map[] && parsed == [] && !crashed
    {
      this.router := router;
      this.auth := auth;
      this.status := status;
      clients := map[];
      closedFds := [];
      masks := map[];
      parsed := [];
      crashed := false;
    }

    /** What serving `cmd` on `state` did, with the verdict `v`: the
        session follows the verdict, the connection's queue gets what the
        command pushed and then `tail`, the router table changes as the command says, and
        the recipient `r` (looked up before the command) gets the message
        and keeps its session and input. */
    twostate predicate Served(state: ClientState, cmd: Command, svc: Services, v: Verdict, r: ClientState?, tail: seq<string>)
      reads router, auth, state, if r == null then {} else {r}
    {
      var s := Session(old(state.authenticated), old(state.username));
      var toSelf := r == state;
      v == Decide(cmd, s, FactsFor(cmd, old(auth.users), old(router.activeClients), s.username, svc)) &&
      state.authenticated == v.next.authenticated && state.username == v.next.username &&
      state.sendQueue == old(state.sendQueue) + Pushed(cmd, v, svc, toSelf, s.username) + tail &&
      state.recvBuffer == old(state.recvBuffer) &&
      router.activeClients == RoutesAfter(old(router.activeClients), cmd, v, state, s.username) &&
      (r != null && !toSelf ==>
         r.sendQueue == old(r.sendQueue) + (if cmd.kind == SendMessage && v.success then [InboundPayload(s.username, cmd.content)] else []) &&
         r.username == old(r.username) && r.authenticated == old(r.authenticated) && r.recvBuffer == old(r.recvBuffer))
    }

    /** The `Register` case. */
    method DoRegister(state: ClientState, cmd: Command, svc: Services) returns (v: Verdict)
      requires cmd.kind == Register
      modifies auth
      ensures Served(state, cmd, svc, v, RecipientOf(old(router.activeClients), cmd), [])
      ensures auth.users == if v.success then old(auth.users)[cmd.username := svc.hash(cmd.password)] else old(auth.users)
      ensures auth.activeUsers == old(auth.activeUsers)
    {
      var ok := auth.RegisterUser(cmd.username, cmd.password, svc.hash);
      v := Verdict("register", ok, if ok then "Registered" else "Registration failed", Session(state.authenticated, state.username));
    }

    /** The `Login` case. */
    method DoLogin(state: ClientState, cmd: Command, svc: Services) returns (v: Verdict)
      requires cmd.kind == Login && status.Valid()
      modifies state, auth, router, status
      ensures Served(state, cmd, svc, v, RecipientOf(old(router.activeClients), cmd), [])
      ensures auth.users == old(auth.users)
      ensures auth.activeUsers ==
                if old(state.authenticated) then old(auth.activeUsers)
                else SessionsAfterLogin(old(auth.activeUsers), auth.users, cmd.username, cmd.password, svc.verify)
      ensures status.Valid() && (v.success ==> status.currentState == Operational)
      ensures !v.success ==> status.currentState == old(status.currentState) && status.driven == old(status.driven)
    {
      if state.authenticated {
        return Verdict("login", false, "Already logged in!", Session(state.authenticated, state.username));
      }
      var ok := auth.LoginUser(cmd.username, cmd.password, svc.verify);
      if !ok {
        return Verdict("login", false, "Invalid credentials", Session(state.authenticated, state.username));
      }
      if router.IsRegistered(cmd.username) {
        return Verdict("login", false, "User already logged in elsewhere", Session(state.authenticated, state.username));
      }
      v := CompleteLogin(state, cmd, svc);
    }

    /** A login whose credentials were accepted for a user not logged in
        elsewhere: the connection takes the name, is routed, receives its
        offline messages, and the LED shows operation. */
    method CompleteLogin(state: ClientState, cmd: Command, svc: Services) returns (v: Verdict)
      requires cmd.kind == Login && status.Valid()
      requires !state.authenticated && Accepted(auth.users, cmd.username, cmd.password, svc.verify)
      requires cmd.username !in router.activeClients
      modifies state, router, status
      ensures Served(state, cmd, svc, v, RecipientOf(old(router.activeClients), cmd), [])
      ensures v.success && status.Valid() && status.currentState == Operational
    {
      state.SetAuthenticated(true);
      state.SetUsername(cmd.username);
      router.RegisterClient(cmd.username, state);
      var _, _ := DeliverOfflineMessages(svc.userIds, QueuedFor(svc, cmd.username), svc.decrypt, svc.names,
                                         svc.markOk, cmd.username, state);
      status.SetState(Operational);
      return Verdict("login", true, "Login successful", Session(true, cmd.username));
    }

    /** The `SendMessage` case. */
    method DoSend(state: ClientState, cmd: Command, svc: Services) returns (v: Verdict)
      requires cmd.kind == SendMessage
      modifies if cmd.recipient in router.activeClients then {router.activeClients[cmd.recipient]} else {}
      ensures Served(state, cmd, svc, v, RecipientOf(old(router.activeClients), cmd), [])
    {
      var s := Session(state.authenticated, state.username);
      if !state.authenticated {
        return Verdict("send_message", false, "Authentication required", s);
      }
      var sender := state.username;
      if cmd.recipient == "" {
        return Verdict("send_message", false, "Missing recipient", s);
      }
      var ok := router.RouteMessage(sender, cmd.recipient, cmd.content, svc.userIds, svc.insertOk);
      if !ok {
        return Verdict("send_message", false, "Delivery failed", s);
      }
      return Verdict("send_message", true, "Message queued", s);
    }

    /** The `Logout` case. */
    method DoLogout(state: ClientState, cmd: Command, svc: Services) returns (v: Verdict)
      requires cmd.kind == Logout
      modifies state, router
      ensures Served(state, cmd, svc, v, RecipientOf(old(router.activeClients), cmd), [])
    {
      if state.authenticated {
        var username := state.username;
        router.UnregisterClient(username);
        state.SetAuthenticated(false);
        state.SetUsername("");
        return Verdict("logout", true, "Logged out", Fresh);
      }
      return Verdict("logout", false, "Not authenticated", Session(state.authenticated, state.username));
    }

    /** `processCommand(state, command)`: decides, applies the decision and
        queues the serialised reply after anything the command pushed. */
    method ProcessCommand(state: ClientState, cmd: Command, svc: Services)
      requires status.Valid()
      modifies state, auth, router, status
      modifies if cmd.recipient in router.activeClients then {router.activeClients[cmd.recipient]} else {}
      ensures status.Valid()
      ensures Replied(state, cmd, svc, RecipientOf(old(router.activeClients), cmd))
    {
      var v := Execute(state, cmd, svc);
      state.QueueResponse(SerializeResponse(svc.dump, ReplyOf(v)));
    }

    /** `cmd` served on `state` with the reply its verdict calls for queued last. */
    twostate predicate Replied(state: ClientState, cmd: Command, svc: Services, r: ClientState?)
      reads router, auth, state, if r == null then {} else {r}
    {
      var v := Decide(cmd, Session(old(state.authenticated), old(state.username)),
                      FactsFor(cmd, old(auth.users), old(router.activeClients), old(state.username), svc));
      Served(state, cmd, svc, v, r, [SerializeResponse(svc.dump, ReplyOf(v))])
    }

    /** The `switch` of `processCommand`. */
    method Execute(state: ClientState, cmd: Command, svc: Services) returns (v: Verdict)
      requires status.Valid()
      modifies state, auth, router, status
      modifies if cmd.recipient in router.activeClients then {router.activeClients[cmd.recipient]} else {}
      ensures status.Valid()
      ensures Served(state, cmd, svc, v, RecipientOf(old(router.activeClients), cmd), [])
    {
      match cmd.kind {
        case Register =>
          v := DoRegister(state, cmd, svc);
        case Login =>
          v := DoLogin(state, cmd, svc);
        case SendMessage =>
          v := DoSend(state, cmd, svc);
        case Logout =>
          v := DoLogout(state, cmd, svc);
        case _ =>
          v := Verdict("unknown", false, "Unknown command", Session(state.authenticated, state.username));
      }
    }

    /** One frame of the frame loop: logged, parsed, and served unless
        parsing threw. */
    method ServeFrame(state: ClientState, frame: seq<byte>, svc: Services) returns (threw: bool)
      requires status.Valid()
      modifies this, state, auth, router, status
      modifies var cmd := ParseCommand(svc.parse, frame, svc.defaultLimit, svc.defaultOffset);
               if cmd.Parsed? && cmd.command.recipient in router.activeClients then {router.activeClients[cmd.command.recipient]} else {}
      ensures status.Valid()
      ensures parsed == old(parsed) + [frame]
      ensures threw <==> Throws(svc, frame)
      ensures crashed == (old(crashed) || threw)
      ensures clients == old(clients) && closedFds == old(closedFds) && masks == old(masks)
      ensures state.recvBuffer == old(state.recvBuffer)
      ensures forall u :: u in router.activeClients ==>
                router.activeClients[u] == state || (u in old(router.activeClients) && router.activeClients[u] == old(router.activeClients)[u])
      ensures !threw ==>
                var cmd := ParseCommand(svc.parse, frame, svc.defaultLimit, svc.defaultOffset).command;
                Replied(state, cmd, svc, RecipientOf(old(router.activeClients), cmd))
    {
      var p := ParseCommand(svc.parse, frame, svc.defaultLimit, svc.defaultOffset);
      if p.Threw? {
        parsed := parsed + [frame];
        crashed := true;
        return true;
      }
      ServeCommand(state, p.command, svc);
      parsed := parsed + [frame];
      threw := false;
    }

    /** A parsed command processed: it is served and replied to, and the
        router gains no connection but this one. */
    method ServeCommand(state: ClientState, cmd: Command, svc: Services)
      requires status.Valid()
      modifies state, auth, router, status
      modifies if cmd.recipient in router.activeClients then {router.activeClients[cmd.recipient]} else {}
      ensures status.Valid()
      ensures state.recvBuffer == old(state.recvBuffer)
      ensures forall u :: u in router.activeClients ==>
                router.activeClients[u] == state || (u in old(router.activeClients) && router.activeClients[u] == old(router.activeClients)[u])
      ensures Replied(state, cmd, svc, RecipientOf(old(router.activeClients), cmd))
    {
      ghost var routes := router.activeClients;
      ghost var sender := state.username;
      ProcessCommand(state, cmd, svc);
      RoutesAfterKeeps(routes, cmd, Decide(cmd, Session(old(state.authenticated), sender),
                       FactsFor(cmd, old(auth.users), routes, sender, svc)), state, sender);
    }

    /** One pass of the frame loop over a buffer that starts with a
        complete frame: the frame is cut off and served.  `buf0`, `parsed0`
        and `done` are where the loop started and the frames it served. */
    method ServeNext(state: ClientState, svc: Services, ghost buf0: seq<byte>, ghost parsed0: seq<seq<byte>>,
                     ghost vals0: set<ClientState>, ghost done: seq<seq<byte>>)
        returns (threw: bool, ghost done': seq<seq<byte>>)
      requires status.Valid()
      requires HasFrame(state.recvBuffer)
      requires Deframe(buf0) == PrependFrames(done, Deframe(state.recvBuffer))
      requires parsed == parsed0 + done
      requires forall k :: 0 <= k < |done| ==> !Throws(svc, done[k])
      requires forall u :: u in router.activeClients ==> router.activeClients[u] == state || router.activeClients[u] in vals0
      modifies this, state, auth, router, status, vals0
      ensures status.Valid()
      ensures clients == old(clients) && closedFds == old(closedFds) && masks == old(masks)
      ensures |state.recvBuffer| < old(|state.recvBuffer|)
      ensures Deframe(buf0) == PrependFrames(done', Deframe(state.recvBuffer))
      ensures parsed == parsed0 + done' && |done'| == |done| + 1 && done'[..|done|] == done
      ensures threw <==> Throws(svc, done'[|done|])
      ensures forall k :: 0 <= k < |done| ==> !Throws(svc, done'[k])
      ensures crashed == (old(crashed) || threw)
      ensures forall u :: u in router.activeClients ==> router.activeClients[u] == state || router.activeClients[u] in vals0
    {
      var buf := state.recvBuffer;
      var size := DecodeU32BE(buf);
      var frame := buf[HeaderSize..HeaderSize + size];
      assert Deframe(buf) == PrependFrames([frame], Deframe(buf[HeaderSize + size..]));
      state.EraseRecvFront(HeaderSize + size);
      PrependFramesTwice(done, [frame], Deframe(state.recvBuffer));
      threw := ServeFrame(state, frame, svc);
      done' := done + [frame];
    }

    /** The loop of `handleReadEvent` that serves frames: while the buffer
        starts with a complete frame and nothing has thrown, the frame is
        cut off and served.  `done` is the frames served, in order. */
    method ServeFrames(state: ClientState, svc: Services) returns (threw: bool, ghost done: seq<seq<byte>>)
      requires status.Valid()
      modifies this, state, auth, router, status, router.activeClients.Values
      ensures status.Valid()
      ensures clients == old(clients) && closedFds == old(closedFds) && masks == old(masks)
      ensures crashed == (old(crashed) || threw)
      ensures Deframe(old(state.recvBuffer)) == PrependFrames(done, Deframe(state.recvBuffer))
      ensures parsed == old(parsed) + done
      ensures forall k :: 0 <= k < |done| - 1 ==> !Throws(svc, done[k])
      ensures threw ==> |done| > 0 && Throws(svc, done[|done| - 1])
      ensures !threw ==> !HasFrame(state.recvBuffer) && forall k :: 0 <= k < |done| ==> !Throws(svc, done[k])
    {
      done := [];
      ghost var buf0 := state.recvBuffer;
      ghost var vals0 := router.activeClients.Values;
      threw := false;
      while !threw && HasFrame(state.recvBuffer)
        invariant status.Valid()
        invariant clients == old(clients) && closedFds == old(closedFds) && masks == old(masks)
        invariant crashed == (old(crashed) || threw)
        invariant Deframe(buf0) == PrependFrames(done, Deframe(state.recvBuffer))
        invariant parsed == old(parsed) + done
        invariant forall k :: 0 <= k < |done| - 1 ==> !Throws(svc, done[k])
        invariant |done| > 0 ==> (threw <==> Throws(svc, done[|done| - 1]))
        invariant threw ==> |done| > 0
        invariant forall u :: u in router.activeClients ==> router.activeClients[u] == state || router.activeClients[u] in vals0
        decreases |state.recvBuffer|
      {
        threw, done := ServeNext(state, svc, buf0, old(parsed), vals0, done);
      }
    }

    /** The frame loop of `handleReadEvent`: every complete frame at the
        front of the buffer is cut off and served in order, until the buffer
        holds less than a frame, a header is over the limit (the client is
        to be closed), or parsing throws. */
    method HandleFrames(state: ClientState, svc: Services) returns (closeIt: bool)
      requires status.Valid()
      modifies this, state, auth, router, status, router.activeClients.Values
      ensures status.Valid()
      ensures clients == old(clients) && closedFds == old(closedFds) && masks == old(masks)
      ensures |old(parsed)| <= |parsed| <= |old(parsed)| + |Deframe(old(state.recvBuffer)).frames|
      ensures FramesServed(Deframe(old(state.recvBuffer)), old(parsed), parsed, svc, old(crashed), crashed)
      ensures closeIt == (!LastThrew(Deframe(old(state.recvBuffer)), old(parsed), parsed, svc) && Deframe(old(state.recvBuffer)).oversized)
      ensures !LastThrew(Deframe(old(state.recvBuffer)), old(parsed), parsed, svc) ==> state.recvBuffer == Deframe(old(state.recvBuffer)).rest
    {
      ghost var d := Deframe(state.recvBuffer);
      var threw;
      ghost var done;
      threw, done := ServeFrames(state, svc);
      if threw {
        ThrowServed(d, done, state.recvBuffer, old(parsed), svc, old(crashed));
        return false;
      }
      var buf := state.recvBuffer;
      NoFrame(buf);
      assert done + [] == done;
      StopServed(d, done, old(parsed), svc, crashed);
      return |buf| >= HeaderSize && DecodeU32BE(buf) > MaxFrameSize;
    }

    /** The read loop of `handleReadEvent`: appends what each `recv`
        returned until the socket would block, and says whether the
        connection is still open.  Each chunk read refreshes the activity
        time. */
    method ReadAvailable(state: ClientState, results: seq<RecvResult>, now: int) returns (open: bool)
      modifies state
      ensures (state.recvBuffer, open) == Received(old(state.recvBuffer), results)
      ensures |state.recvBuffer| > |old(state.recvBuffer)| ==> state.lastActivity == now
      ensures |state.recvBuffer| == |old(state.recvBuffer)| ==> state.lastActivity == old(state.lastActivity)
      ensures state.username == old(state.username) && state.authenticated == old(state.authenticated)
      ensures state.sendQueue == old(state.sendQueue) && state.notified == old(state.notified)
    {
      var i := 0;
      ReceivedAppends(state.recvBuffer, results);
      while i < |results|
        invariant 0 <= i <= |results|
        invariant Received(old(state.recvBuffer), results) == Received(state.recvBuffer, results[i..])
        invariant |state.recvBuffer| >= |old(state.recvBuffer)|
        invariant |state.recvBuffer| > |old(state.recvBuffer)| ==> state.lastActivity == now
        invariant |state.recvBuffer| == |old(state.recvBuffer)| ==> state.lastActivity == old(state.lastActivity)
        invariant state.username == old(state.username) && state.authenticated == old(state.authenticated)
        invariant state.sendQueue == old(state.sendQueue) && state.notified == old(state.notified)
      {
        assert results[i..][1..] == results[i + 1..];
        match results[i]
        case RecvBytes(b) =>
          if b == [] {
            return false;
          }
          state.AppendRecv(b);
          state.UpdateActivity(now);
          i := i + 1;
        case RecvAgain =>
          return true;
        case RecvError =>
          return false;
      }
      return true;
    }

    /** `closeClient(fd)`: an authenticated connection leaves the router
        under its name; the fd is closed and forgotten. */
    method CloseClient(fd: int)
      modifies this, router
      ensures router.activeClients ==
                if fd in old(clients) && old(clients[fd].authenticated) then old(router.activeClients) - {old(clients[fd].username)}
                else old(router.activeClients)
      ensures closedFds == old(closedFds) + [fd]
      ensures clients == old(clients) - {fd} && masks == old(masks) - {fd}
      ensures parsed == old(parsed) && crashed == old(crashed)
    {
      if fd in clients {
        var state := clients[fd];
        if state.authenticated {
          router.UnregisterClient(state.username);
        }
      }
      closedFds := closedFds + [fd];
      clients := clients - {fd};
      masks := masks - {fd};
    }

    /** `notifyEvent(fd)`: a known connection gets write interest. */
    method NotifyEvent(fd: int)
      modifies this
      ensures masks == if fd in old(clients) then old(masks)[fd := EventMaskHasWrite(true)] else old(masks)
      ensures clients == old(clients) && closedFds == old(closedFds) && parsed == old(parsed) && crashed == old(crashed)
    {
      if fd in clients {
        masks := masks[fd := EventMaskHasWrite(true)];
      }
    }

    /** `handleReadEvent(fd)`: an unknown fd is closed; otherwise the socket
        is read dry, a closed connection is closed, and the frames read are
        served; a header over the limit closes the client. */
    method HandleReadEvent(fd: int, results: seq<RecvResult>, now: int, svc: Services)
      requires status.Valid()
      modifies this, auth, router, status, clients.Values, router.activeClients.Values
      ensures status.Valid()
      ensures fd !in old(clients) ==>
                closedFds == old(closedFds) + [fd] && clients == old(clients) && parsed == old(parsed)
      ensures fd in old(clients) ==>
                var r := Received(old(clients[fd].recvBuffer), results);
                var d := Deframe(r.0);
                (!r.1 ==> closedFds == old(closedFds) + [fd] && clients == old(clients) - {fd} && parsed == old(parsed)) &&
                (r.1 ==>
                   |old(parsed)| <= |parsed| <= |old(parsed)| + |d.frames| &&
                   FramesServed(d, old(parsed), parsed, svc, old(crashed), crashed) &&
                   (LastThrew(d, old(parsed), parsed, svc) || !d.oversized ==> closedFds == old(closedFds) && clients == old(clients)) &&
                   (!LastThrew(d, old(parsed), parsed, svc) ==>
                      (d.oversized ==> closedFds == old(closedFds) + [fd] && clients == old(clients) - {fd}) &&
                      (!d.oversized ==> old(clients[fd]).recvBuffer == d.rest)))
    {
      if fd !in clients {
        CloseClient(fd);
        return;
      }
      var state := clients[fd];
      var open := ReadAvailable(state, results, now);
      if !open {
        CloseClient(fd);
        return;
      }
      var closeIt := HandleFrames(state, svc);
      if closeIt {
        CloseClient(fd);
      }
    }

    /** The send loop of `handleWriteEvent` as written: queued messages
        are sent in order until the queue is drained, the socket would
        block (the unsent remainder is queued again, at the back) or a send
        fails.  Returns the bytes sent and how it ended. */
    static method Drain(state: ClientState, results: seq<SendResult>) returns (wire: string, end: FlushEnd)
      modifies state
      ensures var f := FlushAsWritten(old(state.sendQueue), results);
              wire == f.wire && end == f.end && (end != Broken ==> state.sendQueue == f.queue)
      ensures state.notified == old(state.notified) + (if end == Blocked && state.hasOwner then [state.socketFd] else [])
      ensures state.username == old(state.username) && state.authenticated == old(state.authenticated)
      ensures state.recvBuffer == old(state.recvBuffer)
    {
      ghost var q0 := state.sendQueue;
      wire := "";
      var message := "";
      var j := 0;
      while true
        invariant j <= |results|
        invariant FlushAsWritten(q0, results) == SentAhead(wire, FlushAsWritten(state.sendQueue, results[j..]))
        invariant state.notified == old(state.notified)
        invariant state.username == old(state.username) && state.authenticated == old(state.authenticated)
        invariant state.recvBuffer == old(state.recvBuffer)
        decreases |state.sendQueue|
      {
        ghost var q := state.sendQueue;
        var ok;
        ok, message := state.PopQueuedResponse(message);
        if !ok {
          break;
        }
        var sent, sendEnd, next := SendOne(message, results, j);
        FlushStep(q, results[j..]);
        SentAheadTwice(wire, message[..sent], FlushAsWritten(state.sendQueue, results[next..]));
        wire := wire + message[..sent];
        if sendEnd == Again {
          state.QueueResponse(message[sent..]);
          return wire, Blocked;
        }
        if sendEnd == Failed {
          return wire, Broken;
        }
        j := next;
      }
      assert wire + "" == wire;
      end := Drained;
    }

    /** `handleWriteEvent(fd)`: an unknown fd is closed; otherwise the
        queue is flushed, a failed send closes the client and a drained
        queue drops write interest.  Returns the bytes sent. */
    method HandleWriteEvent(fd: int, results: seq<SendResult>) returns (wire: string)
      modifies this, router, clients.Values
      ensures fd !in old(clients) ==> wire == "" && closedFds == old(closedFds) + [fd] && clients == old(clients)
      ensures fd in old(clients) ==>
                var state := old(clients[fd]);
                var f := FlushAsWritten(old(state.sendQueue), results);
                wire == f.wire &&
                (f.end == Drained ==> state.sendQueue == [] && masks == old(masks)[fd := EventMaskHasWrite(false)] &&
                                      clients == old(clients) && closedFds == old(closedFds)) &&
                (f.end == Blocked ==> state.sendQueue == f.queue && masks == old(masks) &&
                                      state.notified == old(state.notified) + (if state.hasOwner then [state.socketFd] else []) &&
                                      clients == old(clients) && closedFds == old(closedFds)) &&
                (f.end == Broken ==> closedFds == old(closedFds) + [fd] && clients == old(clients) - {fd})
    {
      if fd !in clients {
        CloseClient(fd);
        return "";
      }
      var end;
      wire, end := Drain(clients[fd], results);
      if end == Broken {
        CloseClient(fd);
      } else if end == Drained {
        masks := masks[fd := EventMaskHasWrite(false)];
      }
    }
  }
}
