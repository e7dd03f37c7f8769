/** `ClientController` (src/controller/ClientController.h and .cpp): the Qt
    client's state machine.  Its slots react to the transport and to
    `MessageService` signals by updating the session fields and the two
    list models; its invokable methods are what the QML front end calls.
    Emitted signals are appended to `out.signals` and every object handed
    to the transport (`ProtocolClient::sendCommand`, directly or through a
    `MessageService` builder) to `out.sent`. */
module ClientController {
  import opened Wrappers
  import opened Json
  import Wire
  import opened ContactList
  import opened ChatHistory
  import Text
  import MessageService
  import ProtocolHandler

  /** The controller's own signals. */
  datatype UiSignal =
    | ConnectedChanged
    | AuthenticatedChanged
    | RegisteringChanged
    | CurrentPeerChanged
    | CurrentPeerOnlineChanged
    | FocusContactsChanged
    | ClearChat
    | ShowChat
    | Toast(text: string)
    | Error(text: string)

  /** `m_connecting`, `m_connected`, `m_authenticated`, `m_registering`,
      `m_focusContacts`, `m_ready`, whether `m_presenceTimer` runs and
      whether the proxy has been given its source model. */
  datatype Flags = Flags(
    connecting: bool, connected: bool, authenticated: bool, registering: bool,
    focusContacts: bool, ready: bool, presenceTimer: bool, proxyAttached: bool)

  /** `m_pendingUsername`, `m_username`, `m_currentPeer` and
      `m_prefetchedPreview`.  Qt's null and empty strings are both "". */
  datatype Session = Session(pendingUsername: string, username: string, currentPeer: string, prefetched: set<string>)

  /** What the controller has handed on: transport commands, host/port
      pairs given to `connectToHost`, and emitted signals, oldest first. */
  datatype Outbox = Outbox(sent: seq<Object>, dials: seq<(string, int)>, signals: seq<UiSignal>)

  /** The host and port `start` connects to. */
  const Host: string := "127.0.0.1"
  const Port: int := 8080

  /** `getHistory`'s default limit, and the limit of a preview request. */
  const HistoryLimit: int := MessageService.DefaultHistoryLimit
  const PreviewLimit: int := 1

  // ---------------------------------------------------------------------
  // Requests the controller builds itself

  /** The object `login(user, pass)` sends. */
  function LoginCommand(user: string, pass: string): (o: Object)
    ensures o.Keys == {"type", "username", "password"}
    ensures o["username"] == Str(user) && o["password"] == Str(pass)
  {
    map["type" := Str("LOGIN"), "username" := Str(user), "password" := Str(pass)]
  }

  /** The object `registerUser(user, pass)` sends. */
  function RegisterCommand(user: string, pass: string): (o: Object)
    ensures o.Keys == {"type", "username", "password"}
    ensures o["username"] == Str(user) && o["password"] == Str(pass)
  {
    map["type" := Str("REGISTER"), "username" := Str(user), "password" := Str(pass)]
  }

  lemma KindLogin(t: string)
    requires t == "LOGIN"
    ensures ProtocolHandler.CommandTypeOf(t) == ProtocolHandler.Login
  {
    Text.UpperAt(t);
    assert Text.Upper(t) == t;
  }

  lemma KindRegister(t: string)
    requires t == "REGISTER"
    ensures ProtocolHandler.CommandTypeOf(t) == ProtocolHandler.Register
  {
    Text.UpperAt(t);
    assert Text.Upper(t) == t;
  }

  /** What the server reads from a request carrying only credentials. */
  lemma ReadsCredentials(o: Object, t: string, user: string, pass: string, defaultLimit: int, defaultOffset: int)
    requires o == map["type" := Str(t), "username" := Str(user), "password" := Str(pass)]
    ensures ProtocolHandler.ReadCommand(o, defaultLimit, defaultOffset)
         == ProtocolHandler.Parsed(ProtocolHandler.Command(ProtocolHandler.CommandTypeOf(t), user, pass, "", "", "", defaultLimit, defaultOffset))
  {
  }

  /** The server reads the `login` request as LOGIN with the same name and
      password and every other field at its default. */
  lemma ServerReadsLogin(parse: ProtocolHandler.JsonParser, frame: seq<Wire.byte>, user: string, pass: string, defaultLimit: int, defaultOffset: int)
    requires parse(frame) == Some(Obj(LoginCommand(user, pass)))
    ensures ProtocolHandler.ParseCommand(parse, frame, defaultLimit, defaultOffset)
         == ProtocolHandler.Parsed(ProtocolHandler.Command(ProtocolHandler.Login, user, pass, "", "", "", defaultLimit, defaultOffset))
  {
    var o := LoginCommand(user, pass);
    ReadsCredentials(o, o["type"].s, user, pass, defaultLimit, defaultOffset);
    KindLogin(o["type"].s);
  }

  /** The server reads the `registerUser` request as REGISTER with the same
      name and password and every other field at its default. */
  lemma ServerReadsRegister(parse: ProtocolHandler.JsonParser, frame: seq<Wire.byte>, user: string, pass: string, defaultLimit: int, defaultOffset: int)
    requires parse(frame) == Some(Obj(RegisterCommand(user, pass)))
    ensures ProtocolHandler.ParseCommand(parse, frame, defaultLimit, defaultOffset)
         == ProtocolHandler.Parsed(ProtocolHandler.Command(ProtocolHandler.Register, user, pass, "", "", "", defaultLimit, defaultOffset))
  {
    var o := RegisterCommand(user, pass);
    ReadsCredentials(o, o["type"].s, user, pass, defaultLimit, defaultOffset);
    KindRegister(o["type"].s);
  }

  // ---------------------------------------------------------------------
  // What the slots compute

  /** The snapshot the first loop of `onUsersReceived` builds: one
      default contact per user object, named and flagged from it, with the
      signed-in user left out. */
  function Snapshot(users: seq<Object>, me: string): (snap: seq<Contact>)
    ensures |snap| <= |users|
    ensures forall i :: 0 <= i < |snap| ==>
      snap[i].username != me && snap[i].unread == 0 && snap[i].lastMessage == "" && snap[i].lastTimestamp == ""
  {
    if users == [] then []
    else
      var c := Contact(MessageService.StrOf(users[0], "username"), MessageService.BoolOf(users[0], "online"), 0, "", "");
      (if c.username == me then [] else [c]) + Snapshot(users[1..], me)
  }

  /** Every user object not naming the signed-in user is in the snapshot. */
  lemma {:induction false} SnapshotKeepsOthers(users: seq<Object>, me: string, i: nat)
    requires i < |users| && MessageService.StrOf(users[i], "username") != me
    ensures Contact(MessageService.StrOf(users[i], "username"), MessageService.BoolOf(users[i], "online"), 0, "", "") in Snapshot(users, me)
  {
    if i > 0 {
      SnapshotKeepsOthers(users[1..], me, i - 1);
    }
  }

  /** The names the second loop of `onUsersReceived` queues for a preview:
      those not yet in the prefetch set, each once, in snapshot order. */
  function ToPrefetch(snap: seq<Contact>, already: set<string>): (r: seq<string>)
    ensures |r| <= |snap|
  {
    if snap == [] then []
    else
      var u := snap[0].username;
      if u in already then ToPrefetch(snap[1..], already)
      else [u] + ToPrefetch(snap[1..], already + {u})
  }

  /** Each name is queued at most once, never one already prefetched, and
      every snapshot name not yet prefetched is queued. */
  lemma {:induction false} PrefetchOnce(snap: seq<Contact>, already: set<string>)
    ensures forall i :: 0 <= i < |ToPrefetch(snap, already)| ==> ToPrefetch(snap, already)[i] !in already
    ensures forall i, j :: 0 <= i < j < |ToPrefetch(snap, already)| ==> ToPrefetch(snap, already)[i] != ToPrefetch(snap, already)[j]
    ensures forall u :: u in ToPrefetch(snap, already) <==> u in Names(snap) && u !in already
  {
    if snap != [] {
      var u := snap[0].username;
      var rest := snap[1..];
      assert Names(snap) == [u] + Names(rest);
      if u in already {
        PrefetchOnce(rest, already);
      } else {
        PrefetchOnce(rest, already + {u});
      }
    }
  }

  /** The prefetch set once the second loop is done. */
  function PrefetchedAfter(snap: seq<Contact>, already: set<string>): (s: set<string>)
    ensures forall u :: u in s <==> u in already || u in Names(snap)
  {
    already + set i | 0 <= i < |snap| :: snap[i].username
  }

  /** One `getHistory(user, limit)` request per name, in order. */
  function HistoryRequests(names: seq<string>, limit: int): (r: seq<Object>)
    ensures |r| == |names|
    ensures forall i :: 0 <= i < |names| ==> r[i] == MessageService.GetHistoryCommand(names[i], limit)
  {
    seq(|names|, i requires 0 <= i < |names| => MessageService.GetHistoryCommand(names[i], limit))
  }

  /** One message object as `onHistoryReceived` turns it into a row. */
  function HistoryRow(m: Object, me: string, normalize: string -> string): (r: ChatMessage)
    ensures r.sender == MessageService.StrOf(m, "from") && r.content == MessageService.StrOf(m, "content")
    ensures r.timestamp == normalize(MessageService.StrOf(m, "timestamp"))
    ensures r.isOwn <==> r.sender == me
  {
    var sender := MessageService.StrOf(m, "from");
    ChatMessage(sender, MessageService.StrOf(m, "content"), normalize(MessageService.StrOf(m, "timestamp")), sender == me)
  }

  /** The rows `onHistoryReceived` builds, in order. */
  function HistoryRows(msgs: seq<Object>, me: string, normalize: string -> string): (r: seq<ChatMessage>)
    ensures |r| == |msgs|
    ensures forall i :: 0 <= i < |msgs| ==> r[i] == HistoryRow(msgs[i], me, normalize)
  {
    seq(|msgs|, i requires 0 <= i < |msgs| => HistoryRow(msgs[i], me, normalize))
  }

  /** The conversation an incoming message belongs to: the recipient's
      when I sent it, the sender's otherwise. */
  function IncomingPeer(m: Object, me: string): (peer: string)
    ensures MessageService.StrOf(m, "sender") == me ==> peer == MessageService.StrOf(m, "recipient")
    ensures MessageService.StrOf(m, "sender") != me ==> peer == MessageService.StrOf(m, "sender")
  {
    var sender := MessageService.StrOf(m, "sender");
    if sender == me then MessageService.StrOf(m, "recipient") else sender
  }

  /** For a message I am part of, the conversation is the other party's
      (or my own, for a message to myself). */
  lemma IncomingPeerIsOtherParty(m: Object, me: string)
    requires MessageService.StrOf(m, "sender") == me || MessageService.StrOf(m, "recipient") == me
    ensures IncomingPeer(m, me) == MessageService.StrOf(m, "sender") || IncomingPeer(m, me) == MessageService.StrOf(m, "recipient")
    ensures MessageService.StrOf(m, "sender") != MessageService.StrOf(m, "recipient") ==> IncomingPeer(m, me) != me
  {
  }

  /** Content longer than this is shortened in a toast. */
  const ToastMax: int := 40

  /** The toast text for a message in another conversation: content over
      40 characters becomes its first 37 characters and "...". */
  function Notification(content: string): (r: string)
    ensures |r| <= ToastMax || r == content
    ensures |content| <= ToastMax ==> r == content
    ensures |content| > ToastMax ==> |r| == ToastMax && r[..37] == content[..37] && r[37..] == "..."
  {
    if |content| > ToastMax then content[..37] + "..." else content
  }

  /** `currentPeerOnline()`: the flag of the first contact named like the
      current peer; false without a peer or without such a contact. */
  function PeerOnline(cs: seq<Contact>, peer: string): bool {
    if peer == "" then false
    else match FirstIndex(cs, peer)
      case Some(i) => cs[i].online
      case None => false
  }

  class Controller {
    const contacts: ContactListModel
    const chat: ChatHistoryModel
    /** `normalizeTimestamp`: date-time parsing and local-time formatting
        are library code and are given. */
    const normalize: string -> string
    var flags: Flags
    var session: Session
    var out: Outbox

    /** `ClientController(parent)`: all flags false, no session, empty
        models.  `m_ready` is set a cycle later, by `BecomeReady`. */
    constructor(normalize: string -> string)
      ensures this.normalize == normalize
      ensures fresh(contacts) && fresh(chat)
      ensures contacts.contacts == [] && chat.messages == []
      ensures flags == Flags(false, false, false, false, false, false, false, false)
      ensures session == Session("", "", "", {})
      ensures out == Outbox([], [], [])
    {
      this.normalize := normalize;
      contacts := new ContactListModel();
      chat := new ChatHistoryModel();
      flags := Flags(false, false, false, false, false, false, false, false);
      session := Session("", "", "", {});
      out := Outbox([], [], []);
    }

    /** The `QTimer::singleShot(0, ...)` callback queued by the constructor. */
    method BecomeReady()
      modifies this
      ensures flags == old(flags).(ready := true)
      ensures session == old(session) && out == old(out)
    {
      flags := flags.(ready := true);
    }

    /** `start()`: connect once, unless connected or connecting. */
    method Start()
      modifies this
      ensures old(flags.connected || flags.connecting) ==> flags == old(flags) && out == old(out)
      ensures !old(flags.connected || flags.connecting) ==>
        flags == old(flags).(connecting := true) && out == old(out).(dials := old(out.dials) + [(Host, Port)])
      ensures session == old(session)
    {
      if flags.connected || flags.connecting {
        return;
      }
      flags := flags.(connecting := true);
      out := out.(dials := out.dials + [(Host, Port)]);
    }

    /** Hands one object to the transport. */
    method Send(o: Object)
      modifies this
      ensures out == old(out).(sent := old(out.sent) + [o])
      ensures flags == old(flags) && session == old(session)
    {
      out := out.(sent := out.sent + [o]);
    }

    /** Emits signals, in order. */
    method Emit(s: seq<UiSignal>)
      modifies this
      ensures out == old(out).(signals := old(out.signals) + s)
      ensures flags == old(flags) && session == old(session)
    {
      out := out.(signals := out.signals + s);
    }

    /** `login(user, pass)`: "Not connected" and nothing sent while
        disconnected; otherwise the LOGIN request goes out and the name is
        remembered until the result arrives. */
    method Login(user: string, pass: string)
      modifies this
      ensures !old(flags.connected) ==> out == old(out).(signals := old(out.signals) + [Error("Not connected")]) && session == old(session)
      ensures old(flags.connected) ==>
        out == old(out).(sent := old(out.sent) + [LoginCommand(user, pass)]) && session == old(session).(pendingUsername := user)
      ensures flags == old(flags)
    {
      if !flags.connected {
        Emit([Error("Not connected")]);
        return;
      }
      Send(LoginCommand(user, pass));
      session := session.(pendingUsername := user);
    }

    /** `registerUser(user, pass)`: like `login`, but nothing is remembered. */
    method RegisterUser(user: string, pass: string)
      modifies this
      ensures !old(flags.connected) ==> out == old(out).(signals := old(out.signals) + [Error("Not connected")])
      ensures old(flags.connected) ==> out == old(out).(sent := old(out.sent) + [RegisterCommand(user, pass)])
      ensures flags == old(flags) && session == old(session)
    {
      if !flags.connected {
        Emit([Error("Not connected")]);
        return;
      }
      Send(RegisterCommand(user, pass));
    }

    /** `showRegister()`: switches to the register form, signalling only a
        change. */
    method ShowRegister()
      modifies this
      ensures flags == old(flags).(registering := true)
      ensures out == old(out).(signals := old(out.signals) + if old(flags.registering) then [] else [RegisteringChanged])
      ensures session == old(session)
    {
      if flags.registering {
        return;
      }
      flags := flags.(registering := true);
      Emit([RegisteringChanged]);
    }

    /** `showLogin()`: switches back to the login form, signalling only a
        change. */
    method ShowLogin()
      modifies this
      ensures flags == old(flags).(registering := false)
      ensures out == old(out).(signals := old(out.signals) + if old(flags.registering) then [RegisteringChanged] else [])
      ensures session == old(session)
    {
      if !flags.registering {
        return;
      }
      flags := flags.(registering := false);
      Emit([RegisteringChanged]);
    }

    /** `onConnected()`, ignored until ready. */
    method OnConnected()
      modifies this
      ensures !old(flags.ready) ==> flags == old(flags) && out == old(out)
      ensures old(flags.ready) ==>
        flags == old(flags).(connecting := false, connected := true) &&
        out == old(out).(signals := old(out.signals) + [ConnectedChanged, Toast("Connected")])
      ensures session == old(session)
    {
      if !flags.ready {
        return;
      }
      flags := flags.(connecting := false, connected := true);
      Emit([ConnectedChanged, Toast("Connected")]);
    }

    /** `onDisconnected()`, ignored until ready: every connection and
        session flag is cleared, the names, the current peer and the
        prefetch set are emptied, the timer stops and the chat is emptied;
        the contact list is kept. */
    method OnDisconnected()
      modifies this, chat
      ensures !old(flags.ready) ==> flags == old(flags) && session == old(session) && out == old(out) && chat.messages == old(chat.messages)
      ensures old(flags.ready) ==>
        flags == old(flags).(connecting := false, connected := false, authenticated := false, registering := false, presenceTimer := false) &&
        session == Session("", "", "", {}) &&
        chat.messages == [] &&
        out == old(out).(signals := old(out.signals) +
          [ConnectedChanged, AuthenticatedChanged, RegisteringChanged, CurrentPeerChanged, CurrentPeerOnlineChanged, Error("Disconnected")])
    {
      if !flags.ready {
        return;
      }
      flags := flags.(connecting := false, connected := false, authenticated := false, registering := false);
      session := Session("", "", "", {});
      flags := flags.(presenceTimer := false);
      chat.ResetHistory([]);
      Emit([ConnectedChanged, AuthenticatedChanged, RegisteringChanged, CurrentPeerChanged, CurrentPeerOnlineChanged, Error("Disconnected")]);
    }

    /** `onError(msg)`: passed on as `error(msg)`, with no readiness check. */
    method OnError(msg: string)
      modifies this
      ensures out == old(out).(signals := old(out.signals) + [Error(msg)])
      ensures flags == old(flags) && session == old(session)
    {
      Emit([Error(msg)]);
    }

    /** `refreshUsers()`: a LIST_USERS request. */
    method RefreshUsers()
      modifies this
      ensures out == old(out).(sent := old(out.sent) + [MessageService.ListUsersCommand()])
      ensures flags == old(flags) && session == old(session)
    {
      Send(MessageService.ListUsersCommand());
    }

    /** The presence timer's callback: refresh while signed in. */
    method PresenceTick()
      modifies this
      ensures out == old(out).(sent := old(out.sent) +
        if old(flags.connected && flags.authenticated) then [MessageService.ListUsersCommand()] else [])
      ensures flags == old(flags) && session == old(session)
    {
      if flags.connected && flags.authenticated {
        RefreshUsers();
      }
    }

    /** `currentPeerOnline()`. */
    method CurrentPeerOnline() returns (online: bool)
      ensures online == PeerOnline(contacts.contacts, session.currentPeer)
    {
      var peer := session.currentPeer;
      if peer == "" {
        return false;
      }
      var cs := contacts.contacts;
      var i := 0;
      while i < |cs|
        invariant 0 <= i <= |cs|
        invariant forall j :: 0 <= j < i ==> cs[j].username != peer
      {
        if cs[i].username == peer {
          return cs[i].online;
        }
        i := i + 1;
      }
      return false;
    }

    /** `onLoginResult(ok, msg)`, ignored until ready.  Success signs the
        pending name in, forgets which previews were fetched, asks for the
        user list and starts the timer; failure forgets the pending name. */
    method OnLoginResult(ok: bool, msg: string)
      modifies this
      ensures !old(flags.ready) ==> flags == old(flags) && session == old(session) && out == old(out)
      ensures old(flags.ready) && ok ==>
        flags == old(flags).(authenticated := true, presenceTimer := true) &&
        session == old(session).(username := old(session.pendingUsername), prefetched := {}) &&
        out == old(out).(sent := old(out.sent) + [MessageService.ListUsersCommand()],
                         signals := old(out.signals) + [AuthenticatedChanged, Toast("Logged in")])
      ensures old(flags.ready) && !ok ==>
        flags == old(flags) && session == old(session).(pendingUsername := "") &&
        out == old(out).(signals := old(out.signals) + [Error(msg)])
    {
      if !flags.ready {
        return;
      }
      if ok {
        flags := flags.(authenticated := true);
        session := session.(username := session.pendingUsername, prefetched := {});
        RefreshUsers();
        flags := flags.(presenceTimer := true);
        Emit([AuthenticatedChanged, Toast("Logged in")]);
      } else {
        session := session.(pendingUsername := "");
        Emit([Error(msg)]);
      }
    }

    /** `onRegisterResult(ok, msg)`, ignored until ready. */
    method OnRegisterResult(ok: bool, msg: string)
      modifies this
      ensures !old(flags.ready) ==> flags == old(flags) && out == old(out)
      ensures old(flags.ready) && ok ==>
        flags == old(flags).(registering := false) &&
        out == old(out).(signals := old(out.signals) + [RegisteringChanged, Toast("Registered successfuly")])
      ensures old(flags.ready) && !ok ==> flags == old(flags) && out == old(out).(signals := old(out.signals) + [Error(msg)])
      ensures session == old(session)
    {
      if !flags.ready {
        return;
      }
      if ok {
        flags := flags.(registering := false);
        Emit([RegisteringChanged, Toast("Registered successfuly")]);
      } else {
        Emit([Error(msg)]);
      }
    }

    /** The first loop of `onUsersReceived`. */
    static method SnapshotOf(users: seq<Object>, me: string) returns (snap: seq<Contact>)
      ensures snap == Snapshot(users, me)
    {
      snap := [];
      var i := 0;
      while i < |users|
        invariant 0 <= i <= |users|
        invariant snap + Snapshot(users[i..], me) == Snapshot(users, me)
      {
        var c := Contact(MessageService.StrOf(users[i], "username"), MessageService.BoolOf(users[i], "online"), 0, "", "");
        assert users[i..][1..] == users[i + 1..];
        ghost var rest := Snapshot(users[i + 1..], me);
        assert Snapshot(users[i..], me) == (if c.username == me then [] else [c]) + rest;
        if c.username != me {
          assert (snap + [c]) + rest == snap + ([c] + rest);
          snap := snap + [c];
        } else {
          assert [] + rest == rest;
        }
        i := i + 1;
      }
    }

    /** The second loop of `onUsersReceived`. */
    static method PlanPrefetch(snap: seq<Contact>, already: set<string>) returns (toPrefetch: seq<string>, prefetched: set<string>)
      ensures toPrefetch == ToPrefetch(snap, already)
      ensures prefetched == PrefetchedAfter(snap, already)
    {
      toPrefetch := [];
      prefetched := already;
      var i := 0;
      while i < |snap|
        invariant 0 <= i <= |snap|
        invariant toPrefetch + ToPrefetch(snap[i..], prefetched) == ToPrefetch(snap, already)
        invariant prefetched == already + set k | 0 <= k < i :: snap[k].username
      {
        assert snap[i..][1..] == snap[i + 1..];
        var u := snap[i].username;
        if u !in prefetched {
          toPrefetch := toPrefetch + [u];
          prefetched := prefetched + {u};
        }
        assert (set k | 0 <= k < i + 1 :: snap[k].username) == (set k | 0 <= k < i :: snap[k].username) + {u};
        i := i + 1;
      }
    }

    /** The third loop of `onUsersReceived`: a preview request per name. */
    method RequestPreviews(names: seq<string>)
      modifies this
      ensures out == old(out).(sent := old(out.sent) + HistoryRequests(names, PreviewLimit))
      ensures flags == old(flags) && session == old(session)
    {
      var i := 0;
      while i < |names|
        invariant 0 <= i <= |names|
        invariant out == old(out).(sent := old(out.sent) + HistoryRequests(names[..i], PreviewLimit))
        invariant flags == old(flags) && session == old(session)
      {
        assert HistoryRequests(names[..i + 1], PreviewLimit) == HistoryRequests(names[..i], PreviewLimit) + [MessageService.GetHistoryCommand(names[i], PreviewLimit)];
        Send(MessageService.GetHistoryCommand(names[i], PreviewLimit));
        i := i + 1;
      }
      assert names[..|names|] == names;
    }

    /** `onUsersReceived(users)`, ignored until ready: the snapshot without
        the signed-in user is merged into the contact list, and a one-message
        history is requested for each name not prefetched since the last
        login or disconnect. */
    method OnUsersReceived(users: seq<Object>)
      modifies this, contacts
      ensures !old(flags.ready) ==> flags == old(flags) && session == old(session) && out == old(out) && contacts.contacts == old(contacts.contacts)
      ensures old(flags.ready) ==>
        var snap := Snapshot(users, old(session.username));
        flags == old(flags).(proxyAttached := true) &&
        contacts.contacts == Merged(old(contacts.contacts), snap) &&
        session == old(session).(prefetched := PrefetchedAfter(snap, old(session.prefetched))) &&
        out == old(out).(sent := old(out.sent) + HistoryRequests(ToPrefetch(snap, old(session.prefetched)), PreviewLimit),
                         signals := old(out.signals) + [CurrentPeerOnlineChanged])
    {
      if !flags.ready {
        return;
      }
      var snap := SnapshotOf(users, session.username);
      if !flags.proxyAttached {
        flags := flags.(proxyAttached := true);
      }
      var toPrefetch, prefetched := PlanPrefetch(snap, session.prefetched);
      session := session.(prefetched := prefetched);
      contacts.MergePresence(snap);
      Emit([CurrentPeerOnlineChanged]);
      RequestPreviews(toPrefetch);
    }

    /** The loop of `onHistoryReceived`. */
    static method RowsOf(msgs: seq<Object>, me: string, normalize: string -> string) returns (rows: seq<ChatMessage>)
      ensures rows == HistoryRows(msgs, me, normalize)
    {
      rows := [];
      var i := 0;
      while i < |msgs|
        invariant 0 <= i <= |msgs|
        invariant |rows| == i
        invariant forall k :: 0 <= k < i ==> rows[k] == HistoryRow(msgs[k], me, normalize)
      {
        var m := msgs[i];
        var sender := MessageService.StrOf(m, "from");
        var cm := ChatMessage(sender, MessageService.StrOf(m, "content"), normalize(MessageService.StrOf(m, "timestamp")), sender == me);
        rows := rows + [cm];
        i := i + 1;
      }
    }

    /** `onHistoryReceived(peer, msgs)`, ignored until ready: a non-empty
        history updates the peer's preview from its last message without
        touching the unread count, and the chat is replaced only when the
        history is the current peer's. */
    method OnHistoryReceived(peer: string, msgs: seq<Object>)
      modifies this, contacts, chat
      ensures !old(flags.ready) ==> out == old(out) && contacts.contacts == old(contacts.contacts) && chat.messages == old(chat.messages)
      ensures old(flags.ready) ==>
        var rows := HistoryRows(msgs, session.username, normalize);
        (rows == [] ==> contacts.contacts == old(contacts.contacts)) &&
        (rows != [] ==> contacts.contacts == WithPreview(old(contacts.contacts), peer, rows[|rows| - 1].content, rows[|rows| - 1].timestamp, false)) &&
        (peer != session.currentPeer ==> chat.messages == old(chat.messages) && out == old(out)) &&
        (peer == session.currentPeer ==> chat.messages == rows && out == old(out).(signals := old(out.signals) + [ClearChat, ShowChat]))
      ensures flags == old(flags) && session == old(session)
    {
      if !flags.ready {
        return;
      }
      var rows := RowsOf(msgs, session.username, normalize);
      if rows != [] {
        var last := rows[|rows| - 1];
        contacts.UpdateLastMessage(peer, last.content, last.timestamp, false);
      }
      if peer != session.currentPeer {
        return;
      }
      ghost var s0 := out.signals;
      Emit([ClearChat]);
      chat.ResetHistory(rows);
      Emit([ShowChat]);
      assert (s0 + [ClearChat]) + [ShowChat] == s0 + [ClearChat, ShowChat];
    }

    /** `onIncomingMessage(m)`, ignored until ready: the conversation's
        preview is updated, and its unread count grows, exactly when it is
        not the open one; then either a toast is shown or the message is
        appended to the open chat. */
    method OnIncomingMessage(m: Object)
      modifies this, contacts, chat
      ensures !old(flags.ready) ==> out == old(out) && contacts.contacts == old(contacts.contacts) && chat.messages == old(chat.messages)
      ensures old(flags.ready) ==>
        var sender := MessageService.StrOf(m, "sender");
        var peer := IncomingPeer(m, session.username);
        var content := MessageService.StrOf(m, "content");
        var ts := normalize(MessageService.StrOf(m, "timestamp"));
        var current := peer == session.currentPeer;
        contacts.contacts == WithPreview(old(contacts.contacts), peer, content, ts, !current) &&
        (!current ==> chat.messages == old(chat.messages) && out == old(out).(signals := old(out.signals) + [Toast(peer + ": " + Notification(content))])) &&
        (current ==> chat.messages == old(chat.messages) + [ChatMessage(sender, content, ts, sender == session.username)] && out == old(out))
      ensures flags == old(flags) && session == old(session)
    {
      if !flags.ready {
        return;
      }
      var sender := MessageService.StrOf(m, "sender");
      var peer := if sender == session.username then MessageService.StrOf(m, "recipient") else sender;
      var content := MessageService.StrOf(m, "content");
      var ts := normalize(MessageService.StrOf(m, "timestamp"));
      var isPeerCurrent := peer == session.currentPeer;
      contacts.UpdateLastMessage(peer, content, ts, !isPeerCurrent);
      if !isPeerCurrent {
        var notif := if |content| > ToastMax then content[..37] + "..." else content;
        Emit([Toast(peer + ": " + notif)]);
        return;
      }
      chat.AppendMessage(ChatMessage(sender, content, ts, sender == session.username));
    }

    /** `onSendMessageResponse(ok, msg)`, ignored until ready: success
        re-requests the current peer's history, failure is reported. */
    method OnSendMessageResponse(ok: bool, msg: string)
      modifies this
      ensures !old(flags.ready) ==> out == old(out)
      ensures old(flags.ready) && ok ==> out == old(out).(sent := old(out.sent) + [MessageService.GetHistoryCommand(session.currentPeer, HistoryLimit)])
      ensures old(flags.ready) && !ok ==> out == old(out).(signals := old(out.signals) + [Error("Send failed: " + msg)])
      ensures flags == old(flags) && session == old(session)
    {
      if !flags.ready {
        return;
      }
      if ok {
        Send(MessageService.GetHistoryCommand(session.currentPeer, HistoryLimit));
      } else {
        Emit([Error("Send failed: " + msg)]);
      }
    }

    /** `selectPeer(peer)`: refused while signed out, a no-op for the peer
        already open; otherwise the peer becomes current, its unread count
        is cleared, the chat is emptied and its history requested once. */
    method SelectPeer(peer: string)
      modifies this, contacts, chat
      ensures !old(flags.authenticated) ==>
        session == old(session) && out == old(out).(signals := old(out.signals) + [Error("Not authenticated")]) &&
        contacts.contacts == old(contacts.contacts) && chat.messages == old(chat.messages)
      ensures old(flags.authenticated) && peer == old(session.currentPeer) ==>
        session == old(session) && out == old(out) && contacts.contacts == old(contacts.contacts) && chat.messages == old(chat.messages)
      ensures old(flags.authenticated) && peer != old(session.currentPeer) ==>
        session == old(session).(currentPeer := peer) &&
        contacts.contacts == Cleared(old(contacts.contacts), peer) &&
        chat.messages == [] &&
        out == old(out).(sent := old(out.sent) + [MessageService.GetHistoryCommand(peer, HistoryLimit)],
                         signals := old(out.signals) + [CurrentPeerChanged, CurrentPeerOnlineChanged])
      ensures flags == old(flags)
    {
      if !flags.authenticated {
        Emit([Error("Not authenticated")]);
        return;
      }
      if peer == session.currentPeer {
        return;
      }
      session := session.(currentPeer := peer);
      contacts.ClearUnread(peer);
      chat.ResetHistory([]);
      Send(MessageService.GetHistoryCommand(peer, HistoryLimit));
      Emit([CurrentPeerChanged, CurrentPeerOnlineChanged]);
    }

    /** `sendMessage(content)`: silent while signed out, "No peer selected"
        without a current peer, otherwise a SEND_MESSAGE to that peer. */
    method SendMessage(content: string)
      modifies this
      ensures !old(flags.authenticated) ==> out == old(out)
      ensures old(flags.authenticated) && session.currentPeer == "" ==>
        out == old(out).(signals := old(out.signals) + [Error("No peer selected")])
      ensures old(flags.authenticated) && session.currentPeer != "" ==>
        out == old(out).(sent := old(out.sent) + [MessageService.SendMessageCommand(session.currentPeer, content)])
      ensures flags == old(flags) && session == old(session)
    {
      if !flags.authenticated {
        return;
      }
      if session.currentPeer == "" {
        Emit([Error("No peer selected")]);
        return;
      }
      Send(MessageService.SendMessageCommand(session.currentPeer, content));
    }

    /** `setFocusContacts(v)`: signals only a change. */
    method SetFocusContacts(v: bool)
      modifies this
      ensures flags == old(flags).(focusContacts := v)
      ensures out == old(out).(signals := old(out.signals) + if old(flags.focusContacts) == v then [] else [FocusContactsChanged])
      ensures session == old(session)
    {
      if flags.focusContacts == v {
        return;
      }
      flags := flags.(focusContacts := v);
      Emit([FocusContactsChanged]);
    }

    /** `hasPeer()`. */
    function HasPeer(): (b: bool)
      reads this
      ensures b <==> session.currentPeer != ""
    {
      session.currentPeer != ""
    }

    /** `unreadCount(user)` and `hasUnread(user)`, answered by the contact
        list. */
    method UnreadCount(user: string) returns (n: int, hasUnread: bool)
      ensures n == UnreadOf(contacts.contacts, user)
      ensures hasUnread <==> n > 0
    {
      n := contacts.UnreadCount(user);
      hasUnread := n > 0;
    }
  }
}
