/** `ProtocolHandler` (src/ProtocolHandler.cpp): turns a frame into a typed
    `Command` and a `Response` into the text sent back.  The JSON parser
    and serialiser are given functions. */
module ProtocolHandler {
  import opened Wrappers
  import opened Json
  import opened Wire
  import opened Text

  /** `nlohmann::json::parse`: None when it throws a parse error. */
  type JsonParser = seq<byte> -> Option<Value>
  /** `nlohmann::json::dump()`. */
  type JsonDumper = Value -> string

  datatype CommandType = Register | Login | SendMessage | Logout | ListUsers | ListOnline | GetHistory | Unknown

  datatype Command = Command(
    kind: CommandType, username: string, password: string, recipient: string,
    content: string, targetUser: string, limit: int, offset: int)

  /** A default-constructed `Command`; `limit` and `offset` start at the
      defaults the `Command` struct declares. */
  function DefaultCommand(limit: int, offset: int): Command {
    Command(Unknown, "", "", "", "", "", limit, offset)
  }

  /** `parseCommand` either returns a command or lets a `type_error` from
      `json::value` escape. */
  datatype Parsed = Parsed(command: Command) | Threw

  /** `payload.value(key, std::string{})` on an object: the default when
      the key is absent, the string when it is one, a throw otherwise. */
  function ValueStr(o: Object, key: string, default: string): (r: Option<string>)
    ensures key !in o ==> r == Some(default)
    ensures key in o ==> (r.Some? <==> o[key].Str?)
    ensures key in o && o[key].Str? ==> r == Some(o[key].s)
  {
    if key !in o then Some(default)
    else if o[key].Str? then Some(o[key].s)
    else None
  }

  /** `payload.value(key, n)` for an integer: numbers and booleans convert,
      anything else throws. */
  function ValueInt(o: Object, key: string, default: int): (r: Option<int>)
    ensures key !in o ==> r == Some(default)
    ensures key in o ==> (r.Some? <==> o[key].Num? || o[key].Bool?)
  {
    if key !in o then Some(default)
    else match o[key]
      case Num(n) => Some(n)
      case Bool(b) => Some(if b then 1 else 0)
      case _ => None
  }

  /** The seven command names, compared with the upper-cased "type". */
  function CommandTypeOf(t: string): CommandType {
    CommandKind(Upper(t))
  }

  /** The command an upper-cased name stands for. */
  function CommandKind(u: string): CommandType {
    if u == "REGISTER" then Register
    else if u == "LOGIN" then Login
    else if u == "SEND_MESSAGE" then SendMessage
    else if u == "LOGOUT" then Logout
    else if u == "LIST_USERS" then ListUsers
    else if u == "LIST_ONLINE" then ListOnline
    else if u == "GET_HISTORY" then GetHistory
    else Unknown
  }

  /** `parseCommand` once `json::parse` has produced an object: every
      field is read with its default, and a field of the wrong type throws. */
  function ReadCommand(o: Object, defaultLimit: int, defaultOffset: int): (r: Parsed)
    ensures r.Parsed? ==>
      ValueStr(o, "type", "").Some? && r.command.kind == CommandTypeOf(ValueStr(o, "type", "").value) &&
      ValueStr(o, "username", "") == Some(r.command.username) &&
      ValueStr(o, "password", "") == Some(r.command.password) &&
      ValueStr(o, "recipient", "") == Some(r.command.recipient) &&
      ValueStr(o, "content", "") == Some(r.command.content) &&
      ValueInt(o, "limit", defaultLimit) == Some(r.command.limit) &&
      ValueInt(o, "offset", defaultOffset) == Some(r.command.offset)
  {
    var kind := ValueStr(o, "type", "");
    var user := ValueStr(o, "username", "");
    var pass := ValueStr(o, "password", "");
    var to := ValueStr(o, "recipient", "");
    var body := ValueStr(o, "content", "");
    var target := ValueStr(o, "target", "");
    var with := if target.Some? then ValueStr(o, "with", target.value) else None;
    var limit := ValueInt(o, "limit", defaultLimit);
    var offset := ValueInt(o, "offset", defaultOffset);
    if kind.None? || user.None? || pass.None? || to.None? || body.None? || with.None? || limit.None? || offset.None?
    then Threw
    else Parsed(Command(CommandTypeOf(kind.value), user.value, pass.value, to.value, body.value, with.value, limit.value, offset.value))
  }

  /** `parseCommand(json)`: a frame that does not parse gives the default
      command, a document that is not an object throws. */
  function ParseCommand(parse: JsonParser, frame: seq<byte>, defaultLimit: int, defaultOffset: int): (r: Parsed)
    ensures parse(frame).None? ==> r == Parsed(DefaultCommand(defaultLimit, defaultOffset))
    ensures parse(frame).Some? && !parse(frame).value.Obj? ==> r == Threw
    ensures parse(frame).Some? && parse(frame).value.Obj? ==> r == ReadCommand(parse(frame).value.fields, defaultLimit, defaultOffset)
  {
    match parse(frame)
    case None => Parsed(DefaultCommand(defaultLimit, defaultOffset))
    case Some(v) =>
      if !v.Obj? then Threw
      else ReadCommand(v.fields, defaultLimit, defaultOffset)
  }

  /** "type" is matched without regard to case. */
  lemma CommandTypeIgnoresCase(t: string)
    ensures CommandTypeOf(t) == CommandTypeOf(Lower(t))
  {
    UpperIgnoresCase(t);
    assert Upper(t) == Upper(Lower(t));
  }

  /** `targetUser` comes from a string "with", else a string "target",
      else "" (when neither key is present). */
  lemma TargetUserFallback(parse: JsonParser, frame: seq<byte>, defaultLimit: int, defaultOffset: int)
    requires parse(frame).Some? && ParseCommand(parse, frame, defaultLimit, defaultOffset).Parsed?
    ensures var o := parse(frame).value.fields;
      var t := ParseCommand(parse, frame, defaultLimit, defaultOffset).command.targetUser;
      ("with" in o ==> o["with"] == Str(t)) &&
      ("with" !in o && "target" in o ==> o["target"] == Str(t)) &&
      ("with" !in o && "target" !in o ==> t == "")
  {
  }

  /** A "target" that is not a string makes `parseCommand` throw even when
      "with" is a good string: the fallback is evaluated first. */
  lemma BadTargetThrows(parse: JsonParser, frame: seq<byte>, defaultLimit: int, defaultOffset: int)
    requires parse(frame).Some? && parse(frame).value.Obj?
    requires var o := parse(frame).value.fields; "target" in o && !o["target"].Str?
    ensures ParseCommand(parse, frame, defaultLimit, defaultOffset) == Threw
  {
  }

  /** `Response` as `serializeResponse` reads it. */
  datatype Response = Response(
    success: Option<bool>, command: string, message: string, payload: Option<Value>,
    id: Option<int>, sender: Option<string>, recipient: Option<string>,
    content: Option<string>, timestamp: Option<string>)

  function StrOpt(s: Option<string>): Option<Value> {
    if s.Some? then Some(Str(s.value)) else None
  }

  /** The keys `serializeResponse` may write. */
  const ResponseKeys: set<string> := {"success", "command", "message", "payload", "id", "sender", "recipient", "content", "timestamp"}

  /** What `serializeResponse` writes under `key`, if anything. */
  function FieldOf(r: Response, key: string): Option<Value> {
    if key == "success" then (if r.success.Some? then Some(Bool(r.success.value)) else None)
    else if key == "command" then Some(Str(r.command))
    else if key == "message" then Some(Str(r.message))
    else if key == "payload" then r.payload
    else if key == "id" then (if r.id.Some? then Some(Num(r.id.value)) else None)
    else if key == "sender" then StrOpt(r.sender)
    else if key == "recipient" then StrOpt(r.recipient)
    else if key == "content" then StrOpt(r.content)
    else if key == "timestamp" then StrOpt(r.timestamp)
    else None
  }

  /** The object `serializeResponse` fills in. */
  function ResponseObject(r: Response): (o: Object)
    ensures forall k :: k in o ==> k in ResponseKeys
  {
    map k | k in ResponseKeys && FieldOf(r, k).Some? :: FieldOf(r, k).value
  }

  /** "command" and "message" are always written, "success" only when set. */
  lemma ResponseKeysWritten(r: Response)
    ensures "command" in ResponseObject(r) && ResponseObject(r)["command"] == Str(r.command)
    ensures "message" in ResponseObject(r) && ResponseObject(r)["message"] == Str(r.message)
    ensures "success" in ResponseObject(r) <==> r.success.Some?
    ensures "payload" in ResponseObject(r) <==> r.payload.Some?
  {
    assert "command" in ResponseKeys && "message" in ResponseKeys;
    assert "success" in ResponseKeys && "payload" in ResponseKeys;
  }

  /** `serializeResponse(response)`: the dump of that object and a newline. */
  function SerializeResponse(dump: JsonDumper, r: Response): (s: string)
    ensures |s| >= 1 && s[|s| - 1] == '\n'
    ensures s[..|s| - 1] == dump(Obj(ResponseObject(r)))
  {
    dump(Obj(ResponseObject(r))) + "\n"
  }

  function OptStr(o: Object, key: string): Option<string> {
    if key in o && o[key].Str? then Some(o[key].s) else None
  }

  /** A reader of the serialised object: what a client recovers from it. */
  function ReadResponse(o: Object): Response {
    Response(
      if "success" in o && o["success"].Bool? then Some(o["success"].b) else None,
      if "command" in o && o["command"].Str? then o["command"].s else "",
      if "message" in o && o["message"].Str? then o["message"].s else "",
      if "payload" in o then Some(o["payload"]) else None,
      if "id" in o && o["id"].Num? then Some(o["id"].n) else None,
      OptStr(o, "sender"), OptStr(o, "recipient"), OptStr(o, "content"), OptStr(o, "timestamp"))
  }

  /** Every field survives serialisation: optional fields are written
      exactly when present, "command" and "message" always. */
  lemma ResponseRoundTrip(r: Response)
    ensures ReadResponse(ResponseObject(r)) == r
  {
    var o := ResponseObject(r);
    ResponseKeysWritten(r);
    assert "id" in ResponseKeys && "sender" in ResponseKeys && "recipient" in ResponseKeys;
    assert "content" in ResponseKeys && "timestamp" in ResponseKeys;
  }
}
