/** `MessageService` (src/service/MessageService.cpp): the Qt client's
    layer between the framed transport and the controller.  It builds the
    three request objects the controller sends and turns every response
    object into the signals the controller listens to.  Emitted signals are
    modelled as the list of `Signal` values one `onResponse` call produces,
    in emission order. */
module MessageService {
  import opened Wrappers
  import opened Json
  import opened Text
  import opened Wire
  import PyProtocol
  import ProtocolHandler

  // ---------------------------------------------------------------------
  // QJsonValue conversions

  /** `QJsonValue::toString()`: the string, or "" for any other value
      (including an absent key, which reads as `Undefined`). */
  function StrOf(o: Object, key: string): (r: string)
    ensures key in o && o[key].Str? ==> r == o[key].s
    ensures !(key in o && o[key].Str?) ==> r == ""
  {
    if key in o && o[key].Str? then o[key].s else ""
  }

  /** `QJsonValue::toBool(false)`: true only for the JSON literal `true`. */
  predicate BoolOf(o: Object, key: string) {
    key in o && o[key] == Bool(true)
  }

  /** `QJsonValue::toObject()`: the object, or an empty one. */
  function ObjectOf(v: Value): (r: Object)
    ensures v.Obj? ==> r == v.fields
    ensures !v.Obj? ==> r == map[]
  {
    if v.Obj? then v.fields else map[]
  }

  /** `obj.value(key).toObject()`. */
  function FieldObject(o: Object, key: string): (r: Object)
    ensures key in o ==> r == ObjectOf(o[key])
    ensures key !in o ==> r == map[]
  {
    if key in o then ObjectOf(o[key]) else map[]
  }

  /** `obj.value(key).toArray()`: the array, or an empty one. */
  function FieldArray(o: Object, key: string): (r: seq<Value>)
    ensures key in o && o[key].Arr? ==> r == o[key].items
    ensures !(key in o && o[key].Arr?) ==> r == []
  {
    if key in o && o[key].Arr? then o[key].items else []
  }

  /** Every element of a JSON array converted with `toObject()`, in order. */
  function ObjectsOf(items: seq<Value>): (r: seq<Object>)
    ensures |r| == |items|
    ensures forall i :: 0 <= i < |items| ==> r[i] == ObjectOf(items[i])
  {
    seq(|items|, i requires 0 <= i < |items| => ObjectOf(items[i]))
  }

  /** The `for (const auto& u : users) out.push_back(u.toObject())` loops
      of `onResponse`. */
  method CollectObjects(items: seq<Value>) returns (out: seq<Object>)
    ensures out == ObjectsOf(items)
  {
    out := [];
    var i := 0;
    while i < |items|
      invariant 0 <= i <= |items|
      invariant |out| == i
      invariant forall k :: 0 <= k < i ==> out[k] == ObjectOf(items[k])
    {
      out := out + [ObjectOf(items[i])];
      i := i + 1;
    }
  }

  // ---------------------------------------------------------------------
  // extractCommand

  /** `QString::toLower` and `QString::trimmed` commute: lower-casing never
      turns a space into a non-space or back. */
  lemma {:induction false} LowerTrimLeft(s: string)
    ensures TrimLeft(Lower(s)) == Lower(TrimLeft(s))
  {
    if s != [] {
      LowerAt(s);
      assert Lower(s)[0] == LowerChar(s[0]);
      assert Lower(s)[1..] == Lower(s[1..]);
      if IsSpace(s[0]) {
        LowerTrimLeft(s[1..]);
      }
    }
  }

  /** `Lower` of a prefix is the prefix of `Lower`. */
  lemma LowerPrefix(s: string, k: nat)
    requires k <= |s|
    ensures Lower(s[..k]) == Lower(s)[..k]
  {
    LowerAt(s);
    LowerAt(s[..k]);
    forall i | 0 <= i < k ensures Lower(s[..k])[i] == Lower(s)[..k][i] {
      assert s[..k][i] == s[i];
    }
  }

  lemma {:induction false} LowerTrimRight(s: string)
    ensures TrimRight(Lower(s)) == Lower(TrimRight(s))
  {
    if s != [] {
      LowerAt(s);
      assert Lower(s)[|s| - 1] == LowerChar(s[|s| - 1]);
      LowerPrefix(s, |s| - 1);
      if IsSpace(s[|s| - 1]) {
        LowerTrimRight(s[..|s| - 1]);
      }
    }
  }

  /** Lower-then-trim (the Qt client) equals trim-then-lower (the Python
      client). */
  lemma LowerStripCommute(s: string)
    ensures Strip(Lower(s)) == Lower(Strip(s))
  {
    LowerTrimLeft(s);
    LowerTrimRight(TrimLeft(s));
  }

  /** `extractCommand`: "type" whenever the key exists, whatever its value,
      otherwise "command", otherwise ""; lower-cased, then trimmed. */
  function ExtractCommand(o: Object): (c: string)
    ensures "type" in o ==> c == Strip(Lower(StrOf(o, "type")))
    ensures "type" !in o && "command" in o ==> c == Strip(Lower(StrOf(o, "command")))
    ensures "type" !in o && "command" !in o ==> c == ""
  {
    if "type" in o then Strip(Lower(StrOf(o, "type")))
    else if "command" in o then Strip(Lower(StrOf(o, "command")))
    else ""
  }

  /** Where "type" is a non-empty string both clients read the same
      command name. */
  lemma ExtractCommandAgreesWithPython(o: Object)
    requires PyProtocol.NonEmptyStr(o, "type")
    ensures PyProtocol.ExtractCommand(o) == Some(ExtractCommand(o))
  {
    LowerStripCommute(o["type"].s);
  }

  /** An empty "type" hides "command" from the Qt client, while the Python
      client falls back to it. */
  lemma EmptyTypeHidesCommand(o: Object)
    requires "type" in o && o["type"] == Str("")
    requires "command" in o && o["command"] == Str("login")
    ensures ExtractCommand(o) == ""
    ensures PyProtocol.ExtractCommand(o) == Some("login")
  {
    assert !PyProtocol.NonEmptyStr(o, "type");
    assert PyProtocol.NonEmptyStr(o, "command");
    var l := o["command"].s;
    assert TrimLeft(l) == l;
    assert TrimRight(l) == l;
    LowerFixed(l);
  }

  // ---------------------------------------------------------------------
  // Request builders

  /** `listUsers()`. */
  function ListUsersCommand(): (o: Object)
    ensures o.Keys == {"type"}
  {
    map["type" := Str("LIST_USERS")]
  }

  /** `getHistory(peer, limit)`; `limit` defaults to 50 in the header. */
  function GetHistoryCommand(peer: string, limit: int): (o: Object)
    ensures o.Keys == {"type", "with", "limit", "offset"}
    ensures o["with"] == Str(peer) && o["limit"] == Num(limit)
    ensures o["offset"] == Num(0)
  {
    map["type" := Str("GET_HISTORY"), "with" := Str(peer), "limit" := Num(limit), "offset" := Num(0)]
  }

  /** The default argument of `getHistory`. */
  const DefaultHistoryLimit: int := 50

  /** `sendMessage(peer, content)`. */
  function SendMessageCommand(peer: string, content: string): (o: Object)
    ensures o.Keys == {"type", "recipient", "content"}
    ensures o["recipient"] == Str(peer) && o["content"] == Str(content)
  {
    map["type" := Str("SEND_MESSAGE"), "recipient" := Str(peer), "content" := Str(content)]
  }

  /** The command kinds the server gives the three request types. */
  lemma KindListUsers(t: string)
    requires t == "LIST_USERS"
    ensures ProtocolHandler.CommandTypeOf(t) == ProtocolHandler.ListUsers
  {
    UpperAt(t);
    assert Upper(t) == t;
  }

  lemma KindGetHistory(t: string)
    requires t == "GET_HISTORY"
    ensures ProtocolHandler.CommandTypeOf(t) == ProtocolHandler.GetHistory
  {
    UpperAt(t);
    assert Upper(t) == t;
  }

  lemma KindSendMessage(t: string)
    requires t == "SEND_MESSAGE"
    ensures ProtocolHandler.CommandTypeOf(t) == ProtocolHandler.SendMessage
  {
    UpperAt(t);
    assert Upper(t) == t;
  }

  /** What the server reads from a request without credentials. */
  lemma ReadFields(o: Object, t: string, recipient: string, content: string, with: string, limit: int, offset: int,
                   defaultLimit: int, defaultOffset: int)
    requires "type" in o && o["type"] == Str(t)
    requires "username" !in o && "password" !in o && "target" !in o
    requires ProtocolHandler.ValueStr(o, "recipient", "") == Some(recipient)
    requires ProtocolHandler.ValueStr(o, "content", "") == Some(content)
    requires ProtocolHandler.ValueStr(o, "with", "") == Some(with)
    requires ProtocolHandler.ValueInt(o, "limit", defaultLimit) == Some(limit)
    requires ProtocolHandler.ValueInt(o, "offset", defaultOffset) == Some(offset)
    ensures ProtocolHandler.ReadCommand(o, defaultLimit, defaultOffset)
         == ProtocolHandler.Parsed(ProtocolHandler.Command(ProtocolHandler.CommandTypeOf(t), "", "", recipient, content, with, limit, offset))
  {
  }

  /** The server reads a `listUsers` request as LIST_USERS with every other
      field at its default. */
  lemma ServerReadsListUsers(parse: ProtocolHandler.JsonParser, frame: seq<byte>, defaultLimit: int, defaultOffset: int)
    requires parse(frame) == Some(Obj(ListUsersCommand()))
    ensures ProtocolHandler.ParseCommand(parse, frame, defaultLimit, defaultOffset)
         == ProtocolHandler.Parsed(ProtocolHandler.Command(ProtocolHandler.ListUsers, "", "", "", "", "", defaultLimit, defaultOffset))
  {
    ReadsListUsers(defaultLimit, defaultOffset);
  }

  lemma ReadsListUsers(defaultLimit: int, defaultOffset: int)
    ensures ProtocolHandler.ReadCommand(ListUsersCommand(), defaultLimit, defaultOffset)
         == ProtocolHandler.Parsed(ProtocolHandler.Command(ProtocolHandler.ListUsers, "", "", "", "", "", defaultLimit, defaultOffset))
  {
    var o := ListUsersCommand();
    assert "recipient" !in o && "content" !in o && "with" !in o && "limit" !in o && "offset" !in o;
    ReadFields(o, o["type"].s, "", "", "", defaultLimit, defaultOffset, defaultLimit, defaultOffset);
    KindListUsers(o["type"].s);
  }

  /** The server reads a `getHistory` request as GET_HISTORY with the peer
      as target, the given limit and offset 0. */
  lemma ServerReadsGetHistory(parse: ProtocolHandler.JsonParser, frame: seq<byte>, peer: string, limit: int, defaultLimit: int, defaultOffset: int)
    requires parse(frame) == Some(Obj(GetHistoryCommand(peer, limit)))
    ensures ProtocolHandler.ParseCommand(parse, frame, defaultLimit, defaultOffset)
         == ProtocolHandler.Parsed(ProtocolHandler.Command(ProtocolHandler.GetHistory, "", "", "", "", peer, limit, 0))
  {
    ReadsGetHistory(peer, limit, defaultLimit, defaultOffset);
  }

  lemma ReadsGetHistory(peer: string, limit: int, defaultLimit: int, defaultOffset: int)
    ensures ProtocolHandler.ReadCommand(GetHistoryCommand(peer, limit), defaultLimit, defaultOffset)
         == ProtocolHandler.Parsed(ProtocolHandler.Command(ProtocolHandler.GetHistory, "", "", "", "", peer, limit, 0))
  {
    var o := GetHistoryCommand(peer, limit);
    ReadFields(o, o["type"].s, "", "", peer, limit, 0, defaultLimit, defaultOffset);
    KindGetHistory(o["type"].s);
  }

  /** The server reads a `sendMessage` request as SEND_MESSAGE with the
      recipient and content given. */
  lemma ServerReadsSendMessage(parse: ProtocolHandler.JsonParser, frame: seq<byte>, peer: string, content: string, defaultLimit: int, defaultOffset: int)
    requires parse(frame) == Some(Obj(SendMessageCommand(peer, content)))
    ensures ProtocolHandler.ParseCommand(parse, frame, defaultLimit, defaultOffset)
         == ProtocolHandler.Parsed(ProtocolHandler.Command(ProtocolHandler.SendMessage, "", "", peer, content, "", defaultLimit, defaultOffset))
  {
    ReadsSendMessage(peer, content, defaultLimit, defaultOffset);
  }

  lemma ReadsSendMessage(peer: string, content: string, defaultLimit: int, defaultOffset: int)
    ensures ProtocolHandler.ReadCommand(SendMessageCommand(peer, content), defaultLimit, defaultOffset)
         == ProtocolHandler.Parsed(ProtocolHandler.Command(ProtocolHandler.SendMessage, "", "", peer, content, "", defaultLimit, defaultOffset))
  {
    var o := SendMessageCommand(peer, content);
    ReadFields(o, o["type"].s, peer, content, "", defaultLimit, defaultOffset, defaultLimit, defaultOffset);
    KindSendMessage(o["type"].s);
  }

  // ---------------------------------------------------------------------
  // onResponse

  /** The signals `MessageService` declares, plus `registerResult`, which
      `onResponse` emits although the header does not declare it. */
  datatype Signal =
    | LoginResult(success: bool, msg: string)
    | RegisterResult(success: bool, msg: string)
    | SendMessageResponse(ok: bool, message: string)
    | UsersReceived(users: seq<Object>)
    | HistoryReceived(peer: string, messages: seq<Object>)
    | IncomingMessage(pushed: Object)
    | CommandError(command: string, error: string)

  predicate IsLogin(cmd: string) { cmd == "login" || cmd == "login_response" }
  predicate IsRegister(cmd: string) { cmd == "register" || cmd == "register_response" }
  predicate IsSend(cmd: string) { cmd == "send_message" || cmd == "send_message_response" }
  predicate IsIncoming(cmd: string) { cmd == "incoming_message" || cmd == "incoming_message_response" }

  /** What follows the register branch: the send, incoming, error and
      synchronous branches of `onResponse`. */
  function AfterRegister(obj: Object, cmd: string, success: bool): (r: seq<Signal>)
    ensures |r| <= 2
    ensures |r| == 2 <==> IsSend(cmd) && !success
  {
    var msg := StrOf(obj, "message");
    if IsSend(cmd) then
      [SendMessageResponse(success, msg)] + (if !success then [CommandError(cmd, msg)] else [])
    else if IsIncoming(cmd) then [IncomingMessage(obj)]
    else if !success then [CommandError(cmd, msg)]
    else if cmd == "list_users" then
      [UsersReceived(ObjectsOf(FieldArray(FieldObject(obj, "payload"), "users")))]
    else if cmd == "get_history" then
      var payload := FieldObject(obj, "payload");
      [HistoryReceived(StrOf(payload, "with"), ObjectsOf(FieldArray(payload, "messages")))]
    else []
  }

  /** `onResponse(obj)` as written: the register branch emits
      `registerResult` and falls through to the rest of the dispatch. */
  function OnResponseAsWritten(obj: Object): (r: seq<Signal>)
    ensures |r| <= 2
    ensures |r| == 2 <==> (IsRegister(ExtractCommand(obj)) || IsSend(ExtractCommand(obj))) && !BoolOf(obj, "success")
  {
    var cmd := ExtractCommand(obj);
    var success := BoolOf(obj, "success");
    var msg := StrOf(obj, "message");
    if IsLogin(cmd) then [LoginResult(success, msg)]
    else (if IsRegister(cmd) then [RegisterResult(success, msg)] else []) + AfterRegister(obj, cmd, success)
  }

  /** `onResponse(obj)` with the register branch returning like its
      neighbours, so that every response reports one outcome. */
  function OnResponse(obj: Object): (r: seq<Signal>)
    ensures |r| <= 2
    ensures |r| == 2 <==> IsSend(ExtractCommand(obj)) && !BoolOf(obj, "success")
  {
    var cmd := ExtractCommand(obj);
    var success := BoolOf(obj, "success");
    var msg := StrOf(obj, "message");
    if IsLogin(cmd) then [LoginResult(success, msg)]
    else if IsRegister(cmd) then [RegisterResult(success, msg)]
    else AfterRegister(obj, cmd, success)
  }

  /** A login response yields exactly one `loginResult`, whatever else it
      carries. */
  lemma LoginEmitsOnlyResult(obj: Object)
    requires IsLogin(ExtractCommand(obj))
    ensures OnResponseAsWritten(obj) == [LoginResult(BoolOf(obj, "success"), StrOf(obj, "message"))]
    ensures OnResponse(obj) == OnResponseAsWritten(obj)
  {
  }

  /** As written, a failed register is reported twice: `registerResult`
      and then `commandError` from the generic error branch. */
  lemma FailedRegisterReportedTwice(obj: Object)
    requires IsRegister(ExtractCommand(obj)) && !BoolOf(obj, "success")
    ensures OnResponseAsWritten(obj)
         == [RegisterResult(false, StrOf(obj, "message")), CommandError(ExtractCommand(obj), StrOf(obj, "message"))]
  {
  }

  /** "register" reads as itself. */
  lemma RegisterName(obj: Object, t: string)
    requires t == "register" && "type" in obj && obj["type"] == Str(t)
    ensures ExtractCommand(obj) == t
  {
    LowerFixed(t);
    assert TrimLeft(t) == t;
    assert TrimRight(t) == t;
  }

  /** A concrete failed registration that produces both signals. */
  lemma FailedRegisterWitness(obj: Object, t: string)
    requires t == "register"
    requires obj == map["type" := Str(t), "success" := Bool(false), "message" := Str("taken")]
    ensures OnResponseAsWritten(obj) == [RegisterResult(false, "taken"), CommandError(t, "taken")]
  {
    RegisterName(obj, t);
    FailedRegisterReportedTwice(obj);
  }

  /** With the missing `return` added, a register response yields exactly
      one `registerResult`; a successful one was already reported once. */
  lemma RegisterReportedOnce(obj: Object)
    requires IsRegister(ExtractCommand(obj))
    ensures OnResponse(obj) == [RegisterResult(BoolOf(obj, "success"), StrOf(obj, "message"))]
    ensures BoolOf(obj, "success") ==> OnResponseAsWritten(obj) == OnResponse(obj)
  {
  }

  /** The correction changes nothing but register responses. */
  lemma FixOnlyTouchesRegister(obj: Object)
    requires !IsRegister(ExtractCommand(obj))
    ensures OnResponse(obj) == OnResponseAsWritten(obj)
  {
  }

  /** A send acknowledgement yields `sendMessageResponse(ok, msg)`,
      followed by `commandError` exactly when it is not ok. */
  lemma SendReportsAck(obj: Object)
    requires IsSend(ExtractCommand(obj))
    ensures var msg := StrOf(obj, "message");
      OnResponse(obj)[0] == SendMessageResponse(BoolOf(obj, "success"), msg) &&
      (BoolOf(obj, "success") ==> |OnResponse(obj)| == 1) &&
      (!BoolOf(obj, "success") ==> OnResponse(obj) == [SendMessageResponse(false, msg), CommandError(ExtractCommand(obj), msg)])
  {
  }

  /** Incoming messages are routed before the success check: a push
      without "success" still reaches the controller, whole. */
  lemma IncomingIgnoresSuccess(obj: Object)
    requires IsIncoming(ExtractCommand(obj))
    ensures OnResponse(obj) == [IncomingMessage(obj)]
    ensures OnResponse(obj - {"success"}) == [IncomingMessage(obj - {"success"})]
  {
    assert ExtractCommand(obj - {"success"}) == ExtractCommand(obj) by {
      assert StrOf(obj - {"success"}, "type") == StrOf(obj, "type");
      assert StrOf(obj - {"success"}, "command") == StrOf(obj, "command");
    }
  }

  /** Any other failed response becomes one `commandError` carrying the
      command name and the server's message. */
  lemma FailureBecomesCommandError(obj: Object)
    requires var cmd := ExtractCommand(obj); !IsLogin(cmd) && !IsRegister(cmd) && !IsSend(cmd) && !IsIncoming(cmd)
    requires !BoolOf(obj, "success")
    ensures OnResponse(obj) == [CommandError(ExtractCommand(obj), StrOf(obj, "message"))]
  {
  }

  /** A successful user list hands on every element of `payload.users`,
      in order, each converted to an object. */
  lemma UsersInOrder(obj: Object)
    requires ExtractCommand(obj) == "list_users" && BoolOf(obj, "success")
    ensures |OnResponse(obj)| == 1 && OnResponse(obj)[0].UsersReceived?
    ensures var users := FieldArray(FieldObject(obj, "payload"), "users");
      var out := OnResponse(obj)[0].users;
      |out| == |users| && forall i :: 0 <= i < |users| ==> out[i] == ObjectOf(users[i])
  {
  }

  /** A successful history response hands on `payload.with` and every
      element of `payload.messages`, in order. */
  lemma HistoryInOrder(obj: Object)
    requires ExtractCommand(obj) == "get_history" && BoolOf(obj, "success")
    ensures |OnResponse(obj)| == 1 && OnResponse(obj)[0].HistoryReceived?
    ensures var payload := FieldObject(obj, "payload");
      var msgs := FieldArray(payload, "messages");
      var r := OnResponse(obj)[0];
      r.peer == StrOf(payload, "with") &&
      |r.messages| == |msgs| && forall i :: 0 <= i < |msgs| ==> r.messages[i] == ObjectOf(msgs[i])
  {
  }

  /** A successful response to anything else is dropped silently. */
  lemma OtherSuccessIgnored(obj: Object)
    requires var cmd := ExtractCommand(obj);
      !IsLogin(cmd) && !IsRegister(cmd) && !IsSend(cmd) && !IsIncoming(cmd) && cmd != "list_users" && cmd != "get_history"
    requires BoolOf(obj, "success")
    ensures OnResponse(obj) == []
  {
  }

  /** A non-boolean "success" counts as failure in the Qt client, though
      Python's truth test accepts it. */
  lemma NumericSuccessFails(obj: Object)
    requires "success" in obj && obj["success"] == Num(1)
    ensures !BoolOf(obj, "success")
    ensures PyProtocol.Succeeded(obj)
  {
  }
}
