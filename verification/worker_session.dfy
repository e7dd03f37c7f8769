/** The per-connection login/logout state machine of `processCommand`
    (src/WorkerThread.cpp), and the routing table it keeps in step with the
    connections. */
module WorkerSessions {
  import opened Wrappers
  import opened ProtocolHandler

  /** `ClientState`'s `authenticated` flag and username. */
  datatype Session = Session(authenticated: bool, username: string)

  const Fresh: Session := Session(false, "")

  /** The answers of the services `processCommand` consults: `registerUser`,
      `loginUser`, `messageRouter.isRegistered` for the name logging in, and
      `routeMessage`. */
  datatype Facts = Facts(registerOk: bool, loginOk: bool, routedElsewhere: bool, routeOk: bool)

  /** The reply and the session after one command. */
  datatype Verdict = Verdict(command: string, success: bool, message: string, next: Session)

  /** `processCommand`'s decision for `cmd` on a connection in session `s`. */
  function Decide(cmd: Command, s: Session, f: Facts): Verdict {
    match cmd.kind
    case Register =>
      Verdict("register", f.registerOk, if f.registerOk then "Registered" else "Registration failed", s)
    case Login =>
      if s.authenticated then Verdict("login", false, "Already logged in!", s)
      else if !f.loginOk then Verdict("login", false, "Invalid credentials", s)
      else if f.routedElsewhere then Verdict("login", false, "User already logged in elsewhere", s)
      else Verdict("login", true, "Login successful", Session(true, cmd.username))
    case SendMessage =>
      if !s.authenticated then Verdict("send_message", false, "Authentication required", s)
      else if cmd.recipient == "" then Verdict("send_message", false, "Missing recipient", s)
      else if !f.routeOk then Verdict("send_message", false, "Delivery failed", s)
      else Verdict("send_message", true, "Message queued", s)
    case Logout =>
      if s.authenticated then Verdict("logout", true, "Logged out", Fresh)
      else Verdict("logout", false, "Not authenticated", s)
    case _ => Verdict("unknown", false, "Unknown command", s)
  }

  /** The `Response` `processCommand` queues: only `success`, `command` and
      `message` are set. */
  function ReplyOf(v: Verdict): (r: Response)
    ensures r.success == Some(v.success) && r.command == v.command && r.message == v.message
    ensures r.payload.None? && r.id.None? && r.sender.None? && r.recipient.None?
    ensures r.content.None? && r.timestamp.None?
  {
    Response(Some(v.success), v.command, v.message, None, None, None, None, None, None)
  }

  /** Only a successful login or logout changes the session; login opens
      one for the name given, logout clears it. */
  lemma SessionChangesOnlyOnSuccess(cmd: Command, s: Session, f: Facts)
    ensures var v := Decide(cmd, s, f);
            (v.next != s ==> v.success && (cmd.kind == Login || cmd.kind == Logout)) &&
            (cmd.kind == Login && v.success ==> !s.authenticated && v.next == Session(true, cmd.username)) &&
            (cmd.kind == Logout ==> (v.success <==> s.authenticated) && (v.success ==> v.next == Fresh))
  {
  }

  /** Login succeeds exactly on a connection not yet logged in, with good
      credentials, for a name not routed elsewhere. */
  lemma LoginRule(cmd: Command, s: Session, f: Facts)
    requires cmd.kind == Login
    ensures Decide(cmd, s, f).success <==> !s.authenticated && f.loginOk && !f.routedElsewhere
  {
  }

  /** Sending needs a logged-in connection and a recipient, and succeeds
      exactly when the router stores the message. */
  lemma SendRule(cmd: Command, s: Session, f: Facts)
    requires cmd.kind == SendMessage
    ensures Decide(cmd, s, f).success <==> s.authenticated && cmd.recipient != "" && f.routeOk
  {
  }

  /** Listing and history commands are parsed but not served. */
  lemma UnservedCommands(cmd: Command, s: Session, f: Facts)
    requires cmd.kind in {ListUsers, ListOnline, GetHistory, Unknown}
    ensures Decide(cmd, s, f) == Verdict("unknown", false, "Unknown command", s)
  {
  }

  /** Every connection's session, by fd, and the router's table from user
      name to the fd registered for it. */
  datatype Table = Table(sessions: map<int, Session>, routes: map<string, int>)

  /** The router holds exactly the logged-in connections, each under its
      own name. */
  predicate Coherent(t: Table) {
    (forall fd :: fd in t.sessions && t.sessions[fd].authenticated ==>
       t.sessions[fd].username in t.routes && t.routes[t.sessions[fd].username] == fd) &&
    (forall u :: u in t.routes ==>
       t.routes[u] in t.sessions && t.sessions[t.routes[u]].authenticated && t.sessions[t.routes[u]].username == u)
  }

  /** `processCommand` on connection `fd`: `isRegistered` is answered from
      the table; a successful login registers the connection, a successful
      logout unregisters its name. */
  function Apply(t: Table, fd: int, cmd: Command, f: Facts): Table
    requires fd in t.sessions
  {
    var s := t.sessions[fd];
    var v := Decide(cmd, s, f.(routedElsewhere := cmd.username in t.routes));
    var routes :=
      if cmd.kind == Login && v.success then t.routes[cmd.username := fd]
      else if cmd.kind == Logout && v.success then t.routes - {s.username}
      else t.routes;
    Table(t.sessions[fd := v.next], routes)
  }

  /** `assignClient`: a new connection starts logged out. */
  function Accept(t: Table, fd: int): Table {
    Table(t.sessions[fd := Fresh], t.routes)
  }

  /** `closeClient`: unregisters the name of a logged-in connection and
      forgets the connection. */
  function Close(t: Table, fd: int): Table {
    var routes := if fd in t.sessions && t.sessions[fd].authenticated then t.routes - {t.sessions[fd].username} else t.routes;
    Table(t.sessions - {fd}, routes)
  }

  lemma AcceptKeepsCoherent(t: Table, fd: int)
    requires Coherent(t) && fd !in t.sessions
    ensures Coherent(Accept(t, fd))
  {
  }

  lemma ApplyKeepsCoherent(t: Table, fd: int, cmd: Command, f: Facts)
    requires Coherent(t) && fd in t.sessions
    ensures Coherent(Apply(t, fd, cmd, f))
  {
    var s := t.sessions[fd];
    var v := Decide(cmd, s, f.(routedElsewhere := cmd.username in t.routes));
    var t' := Apply(t, fd, cmd, f);
    if cmd.kind == Login && v.success {
      forall g | g in t'.sessions && t'.sessions[g].authenticated
        ensures t'.sessions[g].username in t'.routes && t'.routes[t'.sessions[g].username] == g
      {
        if g != fd {
          assert t.sessions[g].username != cmd.username;
        }
      }
      forall u | u in t'.routes
        ensures t'.routes[u] in t'.sessions && t'.sessions[t'.routes[u]].authenticated && t'.sessions[t'.routes[u]].username == u
      {
        if u != cmd.username {
          assert t.routes[u] != fd;
        }
      }
    } else if cmd.kind == Logout && v.success {
      forall u | u in t'.routes
        ensures t'.routes[u] in t'.sessions && t'.sessions[t'.routes[u]].authenticated && t'.sessions[t'.routes[u]].username == u
      {
        assert t.routes[u] != fd;
      }
    } else {
      SessionChangesOnlyOnSuccess(cmd, s, f.(routedElsewhere := cmd.username in t.routes));
      assert t'.sessions == t.sessions;
    }
  }

  lemma CloseKeepsCoherent(t: Table, fd: int)
    requires Coherent(t)
    ensures Coherent(Close(t, fd))
  {
    var t' := Close(t, fd);
    forall u | u in t'.routes
      ensures t'.routes[u] in t'.sessions
    {
      assert t.routes[u] != fd;
    }
  }

  /** A name is logged in on at most one connection. */
  lemma OneConnectionPerUser(t: Table, a: int, b: int)
    requires Coherent(t)
    requires a in t.sessions && b in t.sessions
    requires t.sessions[a].authenticated && t.sessions[b].authenticated
    requires t.sessions[a].username == t.sessions[b].username
    ensures a == b
  {
  }
}
