/** The Python client's protocol layer (client/protocol.py, copied verbatim
    in client/client.py): `_extract_command`, `ProtocolClient` with its
    length-prefixed frames over a TCP stream, and `MessageClient`, which
    sends one command and waits for its reply while passing notifications
    to a handler. */
module PyProtocol {
  import opened Wrappers
  import opened Json
  import opened Wire
  import opened Text

  /** The result of a Python call that may raise. */
  datatype Outcome<T> = Raised(error: string) | Returned(value: T)

  /** `isinstance(value, str) and value` for `o.get(key)`. */
  predicate NonEmptyStr(o: Object, key: string) {
    key in o && o[key].Str? && o[key].s != ""
  }

  /** `_extract_command`: "type" is consulted before "command"; the first
      non-empty string wins, stripped and lower-cased. */
  function ExtractCommand(o: Object): (c: Option<string>)
    ensures c.Some? <==> NonEmptyStr(o, "type") || NonEmptyStr(o, "command")
    ensures NonEmptyStr(o, "type") ==> c == Some(Lower(Strip(o["type"].s)))
    ensures !NonEmptyStr(o, "type") && NonEmptyStr(o, "command") ==> c == Some(Lower(Strip(o["command"].s)))
  {
    if NonEmptyStr(o, "type") then Some(Lower(Strip(o["type"].s)))
    else if NonEmptyStr(o, "command") then Some(Lower(Strip(o["command"].s)))
    else None
  }

  /** `MessageClient._ASYNC_COMMANDS`. */
  const AsyncCommands: set<string> := {"incoming_message", "incoming_message_response", "timeout"}

  /** A frame `_recv_command_response` hands to the notification handler
      instead of returning it. */
  predicate IsNotification(o: Object) {
    var c := ExtractCommand(o);
    (c.Some? && c.value in AsyncCommands) || "success" !in o
  }

  /** `response and response.get("success")`. */
  predicate Succeeded(o: Object) {
    "success" in o && Truthy(o["success"])
  }

  // ---------------------------------------------------------------------
  // Frames on the byte stream

  /** What `json.loads(payload.decode("utf-8"))` gives: an object, or a
      JSONDecodeError with its message. */
  datatype Decoded = Parsed(obj: Object) | Malformed(detail: string)

  type Decoder = seq<byte> -> Decoded

  /** `json.dumps(payload, separators=(",", ":"), ensure_ascii=True).encode("utf-8")`. */
  type Dumper = Object -> seq<byte>

  /** The object `recv_response` synthesises for a body that is not JSON. */
  function ParseError(detail: string): (o: Object)
    ensures "type" in o && o["type"] == Str("ERROR")
    ensures "code" in o && o["code"] == Num(400)
    ensures "success" !in o
  {
    map["type" := Str("ERROR"), "code" := Num(400), "message" := Str("Failed to parse server JSON: " + detail)]
  }

  /** The frame `send_command` writes for an encoded body. */
  function FrameBytes(body: seq<byte>): (f: seq<byte>)
    requires |body| < TwoTo32
    ensures |f| == 4 + |body|
    ensures DecodeU32BE(f) == |body|
    ensures f[4..] == body
  {
    DecodeEncode(|body|);
    EncodeU32BE(|body|) + body
  }

  /** One `recv_response` over the bytes still to arrive: the object it
      returns and how many bytes it consumes, or None when the stream ends
      before the header or the body is complete. */
  function ReadFrame(decode: Decoder, s: seq<byte>): (r: Option<(Object, nat)>)
    ensures r.Some? ==> 4 <= r.value.1 <= |s|
  {
    if |s| < 4 then None
    else
      var n := DecodeU32BE(s);
      if n == 0 then Some((map[], 4))
      else if |s| < 4 + n then None
      else match decode(s[4..4 + n])
        case Parsed(o) => Some((o, 4 + n))
        case Malformed(d) => Some((ParseError(d), 4 + n))
  }

  /** Reading what `send_command` wrote: an empty body reads as `{}`
      without a body read, any other as its decoding, and the bytes after
      the frame are left alone. */
  lemma ReadSentFrame(decode: Decoder, body: seq<byte>, rest: seq<byte>)
    requires |body| < TwoTo32
    ensures var r := ReadFrame(decode, FrameBytes(body) + rest);
      r.Some? && r.value.1 == 4 + |body| &&
      (body == [] ==> r.value.0 == map[]) &&
      (body != [] && decode(body).Parsed? ==> r.value.0 == decode(body).obj) &&
      (body != [] && decode(body).Malformed? ==> r.value.0 == ParseError(decode(body).detail))
  {
    var f := FrameBytes(body);
    DecodePrefix(f, rest);
    assert (f + rest)[4..4 + |body|] == body;
  }

  /** Every complete frame of a stream, in arrival order. */
  function Frames(decode: Decoder, s: seq<byte>): seq<Object>
    decreases |s|
  {
    match ReadFrame(decode, s)
    case None => []
    case Some((o, k)) => [o] + Frames(decode, s[k..])
  }

  /** What one `_recv_command_response` does to a stream: the frames it
      hands to the handler, the frame it returns and the bytes it consumes. */
  datatype Await = Await(notes: seq<Object>, response: Option<Object>, used: nat)

  function AwaitResponse(decode: Decoder, s: seq<byte>): (a: Await)
    ensures a.used <= |s|
    ensures a.response.None? ==> a.used == |s|
    decreases |s|
  {
    match ReadFrame(decode, s)
    case None => Await([], None, |s|)
    case Some((o, k)) =>
      if IsNotification(o) then
        var a := AwaitResponse(decode, s[k..]);
        Await([o] + a.notes, a.response, k + a.used)
      else Await([], Some(o), k)
  }

  /** A wait that set aside `notes` over the first `used` bytes, then went on as `a`. */
  function After(notes: seq<Object>, used: nat, a: Await): Await {
    Await(notes + a.notes, a.response, used + a.used)
  }

  /** One step of `AwaitResponse`: a notification is set aside and the
      wait goes on after it; any other frame ends the wait. */
  lemma AwaitStep(decode: Decoder, s: seq<byte>)
    requires ReadFrame(decode, s).Some?
    ensures var (o, k) := ReadFrame(decode, s).value;
      var a, b := AwaitResponse(decode, s), AwaitResponse(decode, s[k..]);
      (IsNotification(o) ==> a == Await([o] + b.notes, b.response, k + b.used)) &&
      (!IsNotification(o) ==> a == Await([], Some(o), k))
  {
  }

  /** The wait over `s` has read `consumed`, set aside `notes`, and goes
      on over `rest`. */
  ghost predicate Awaiting(decode: Decoder, s: seq<byte>, consumed: seq<byte>, notes: seq<Object>, rest: seq<byte>) {
    s == consumed + rest &&
    AwaitResponse(decode, s) == After(notes, |consumed|, AwaitResponse(decode, rest))
  }

  /** The loop of `_recv_command_response` ends at the end of the stream. */
  lemma AwaitEnds(decode: Decoder, s: seq<byte>, consumed: seq<byte>, notes: seq<Object>, rest: seq<byte>)
    requires Awaiting(decode, s, consumed, notes, rest) && ReadFrame(decode, rest).None?
    ensures AwaitResponse(decode, s) == Await(notes, None, |s|)
  {
  }

  /** It sets a notification aside and goes on after it. */
  lemma AwaitContinues(decode: Decoder, s: seq<byte>, consumed: seq<byte>, notes: seq<Object>, rest: seq<byte>)
    requires Awaiting(decode, s, consumed, notes, rest) && ReadFrame(decode, rest).Some?
    requires IsNotification(ReadFrame(decode, rest).value.0)
    ensures var (o, k) := ReadFrame(decode, rest).value;
      Awaiting(decode, s, consumed + rest[..k], notes + [o], rest[k..])
  {
    var (o, k) := ReadFrame(decode, rest).value;
    AwaitStep(decode, rest);
    assert consumed + rest == (consumed + rest[..k]) + rest[k..] by {
      assert rest == rest[..k] + rest[k..];
    }
    var b := AwaitResponse(decode, rest[k..]);
    assert notes + ([o] + b.notes) == (notes + [o]) + b.notes;
  }

  /** It returns the first frame that is not a notification. */
  lemma AwaitReturns(decode: Decoder, s: seq<byte>, consumed: seq<byte>, notes: seq<Object>, rest: seq<byte>)
    requires Awaiting(decode, s, consumed, notes, rest) && ReadFrame(decode, rest).Some?
    requires !IsNotification(ReadFrame(decode, rest).value.0)
    ensures var (o, k) := ReadFrame(decode, rest).value;
      AwaitResponse(decode, s) == Await(notes, Some(o), |consumed| + k) &&
      s[|consumed| + k..] == rest[k..]
  {
    AwaitStep(decode, rest);
    var k := ReadFrame(decode, rest).value.1;
    assert s[|consumed|..] == rest;
  }

  /** `_recv_command_response` hands every notification to the handler
      exactly once, in arrival order, and returns the first frame that is
      not one; when the stream ends first, every frame was a notification. */
  lemma {:induction false} AwaitSplitsFrames(decode: Decoder, s: seq<byte>)
    ensures var a := AwaitResponse(decode, s);
      (forall i :: 0 <= i < |a.notes| ==> IsNotification(a.notes[i])) &&
      (a.response.Some? ==>
        !IsNotification(a.response.value) &&
        |a.notes| < |Frames(decode, s)| &&
        Frames(decode, s)[..|a.notes| + 1] == a.notes + [a.response.value]) &&
      (a.response.None? ==> Frames(decode, s) == a.notes)
    decreases |s|
  {
    match ReadFrame(decode, s)
    case None =>
    case Some((o, k)) =>
      if IsNotification(o) {
        AwaitSplitsFrames(decode, s[k..]);
        AwaitStep(decode, s);
        var a := AwaitResponse(decode, s[k..]);
        var fs := Frames(decode, s[k..]);
        assert Frames(decode, s) == [o] + fs;
        assert AwaitResponse(decode, s).notes == [o] + a.notes;
        if a.response.Some? {
          var r := a.response.value;
          assert ([o] + fs)[..|a.notes| + 2] == [o] + fs[..|a.notes| + 1];
          assert ([o] + a.notes) + [r] == [o] + (a.notes + [r]);
        }
      }
  }

  /** A reply sent after some notifications is the one returned. */
  lemma AwaitAfterNotifications(decode: Decoder, note: seq<byte>, reply: seq<byte>, rest: seq<byte>)
    requires 0 < |note| < TwoTo32 && 0 < |reply| < TwoTo32
    requires decode(note).Parsed? && IsNotification(decode(note).obj)
    requires decode(reply).Parsed? && !IsNotification(decode(reply).obj)
    ensures AwaitResponse(decode, FrameBytes(note) + FrameBytes(reply) + rest) ==
            Await([decode(note).obj], Some(decode(reply).obj), 8 + |note| + |reply|)
  {
    var s := FrameBytes(note) + FrameBytes(reply) + rest;
    assert s == FrameBytes(note) + (FrameBytes(reply) + rest);
    ReadSentFrame(decode, note, FrameBytes(reply) + rest);
    assert s[4 + |note|..] == FrameBytes(reply) + rest;
    ReadSentFrame(decode, reply, rest);
  }

  // ---------------------------------------------------------------------
  // The socket

  /** `ProtocolClient`. The socket is the sequence of chunks the server's
      bytes arrive in (each `recv(n)` returns at most n bytes of the head
      chunk; no chunks left is end of stream) and the bytes written to it. */
  class ProtocolClient {
    var connected: bool
    var inbound: seq<seq<byte>>
    var outbound: seq<byte>
    const dump: Dumper
    const decode: Decoder

    /** A socket never returns an empty chunk before end of stream. */
    ghost predicate Valid()
      reads this
    {
      forall i :: 0 <= i < |inbound| ==> inbound[i] != []
    }

    /** The bytes still to arrive. */
    function Stream(): seq<byte>
      reads this
    {
      Flatten(inbound)
    }

    constructor(dump: Dumper, decode: Decoder)
      ensures !connected && inbound == [] && outbound == []
      ensures this.dump == dump && this.decode == decode
      ensures Valid()
    {
      connected := false;
      inbound := [];
      outbound := [];
      this.dump := dump;
      this.decode := decode;
    }

    /** `connect(host, port)`: a new socket whose incoming chunks are given. */
    method Connect(chunks: seq<seq<byte>>)
      requires forall i :: 0 <= i < |chunks| ==> chunks[i] != []
      modifies this
      ensures connected && inbound == chunks && outbound == []
      ensures Valid()
    {
      connected := true;
      inbound := chunks;
      outbound := [];
    }

    /** `close()`: drops the socket; closing twice is harmless. */
    method Close()
      modifies this
      ensures !connected
      ensures inbound == old(inbound) && outbound == old(outbound)
    {
      if connected {
        connected := false;
      }
    }

    /** `send_command(payload)`: raises when not connected (the `socket`
        property) or when the body does not fit the 4-byte header
        (`struct.pack`), otherwise writes header then body. */
    method SendCommand(payload: Object) returns (r: Outcome<()>)
      modifies this
      ensures connected == old(connected) && inbound == old(inbound)
      ensures !old(connected) ==> r == Raised("ProtocolClient is not connected") && outbound == old(outbound)
      ensures old(connected) && |dump(payload)| >= TwoTo32 ==> r == Raised("struct.error") && outbound == old(outbound)
      ensures old(connected) && |dump(payload)| < TwoTo32 ==>
                r == Returned(()) && outbound == old(outbound) + FrameBytes(dump(payload))
    {
      if !connected {
        return Raised("ProtocolClient is not connected");
      }
      var data := dump(payload);
      if |data| >= TwoTo32 {
        return Raised("struct.error");
      }
      var header := EncodeU32BE(|data|);
      outbound := outbound + header;
      outbound := outbound + data;
      r := Returned(());
    }

    /** `sock.recv(n)`: at most n bytes of the head chunk, empty only at
        end of stream. */
    method Recv(n: nat) returns (chunk: seq<byte>)
      requires connected && Valid() && n > 0
      modifies this
      ensures connected && Valid() && outbound == old(outbound)
      ensures |chunk| <= n
      ensures chunk == [] <==> old(inbound) == []
      ensures old(Stream()) == chunk + Stream()
    {
      if inbound == [] {
        return [];
      }
      var head := inbound[0];
      if |head| <= n {
        chunk := head;
        inbound := inbound[1..];
      } else {
        chunk := head[..n];
        inbound := [head[n..]] + inbound[1..];
        assert Flatten(inbound) == head[n..] + Flatten(old(inbound)[1..]);
        assert head == chunk + head[n..];
      }
    }

    /** `_recv_exact(sock, count)`: exactly the next `count` bytes, however
        they are chunked, or None once the stream ends first. */
    method RecvExact(count: nat) returns (r: Option<seq<byte>>)
      requires connected && Valid()
      modifies this
      ensures connected && Valid() && outbound == old(outbound)
      ensures count <= |old(Stream())| ==> r == Some(old(Stream())[..count]) && Stream() == old(Stream())[count..]
      ensures |old(Stream())| < count ==> r == None && inbound == []
    {
      ghost var s0 := Stream();
      var buf: seq<byte> := [];
      while |buf| < count
        invariant connected && Valid() && outbound == old(outbound)
        invariant |buf| <= count
        invariant s0 == buf + Stream()
        decreases count - |buf|
      {
        var chunk := Recv(count - |buf|);
        if chunk == [] {
          return None;
        }
        buf := buf + chunk;
      }
      assert s0[..count] == buf;
      return Some(buf);
    }

    /** `recv_response()`: None on end of stream before a frame is
        complete, `{}` for a zero length, the synthetic error object for a
        body that is not JSON. */
    method RecvResponse() returns (r: Outcome<Option<Object>>)
      requires Valid()
      modifies this
      ensures connected == old(connected) && Valid() && outbound == old(outbound)
      ensures !old(connected) ==> r == Raised("ProtocolClient is not connected") && inbound == old(inbound)
      ensures old(connected) ==> r.Returned?
      ensures old(connected) && ReadFrame(decode, old(Stream())).None? ==> r == Returned(None) && Stream() == []
      ensures old(connected) && ReadFrame(decode, old(Stream())).Some? ==>
                r == Returned(Some(ReadFrame(decode, old(Stream())).value.0)) &&
                Stream() == old(Stream())[ReadFrame(decode, old(Stream())).value.1..]
    {
      if !connected {
        return Raised("ProtocolClient is not connected");
      }
      ghost var s0 := Stream();
      var header := RecvExact(4);
      if header.None? {
        return Returned(None);
      }
      var length := DecodeU32BE(header.value);
      assert length == DecodeU32BE(s0) by { DecodePrefix(s0[..4], s0[4..]); assert s0 == s0[..4] + s0[4..]; }
      if length == 0 {
        return Returned(Some(map[]));
      }
      var payload := RecvExact(length);
      if payload.None? {
        return Returned(None);
      }
      assert payload.value == s0[4..4 + length];
      assert Stream() == s0[4 + length..];
      match decode(payload.value)
      case Parsed(o) =>
        r := Returned(Some(o));
      case Malformed(d) =>
        r := Returned(Some(ParseError(d)));
    }
  }

  // ---------------------------------------------------------------------
  // Commands

  function RegisterPayload(username: string, password: string): Object {
    map["type" := Str("REGISTER"), "username" := Str(username), "password" := Str(password)]
  }

  function LoginPayload(username: string, password: string): Object {
    map["type" := Str("LOGIN"), "username" := Str(username), "password" := Str(password)]
  }

  function SendMessagePayload(recipient: string, content: string, timestamp: string): Object {
    map["type" := Str("SEND_MESSAGE"), "recipient" := Str(recipient), "content" := Str(content), "timestamp" := Str(timestamp)]
  }

  function GetHistoryPayload(peer: string, limit: int, offset: int): Object {
    map["type" := Str("GET_HISTORY"), "with" := Str(peer), "limit" := Num(limit), "offset" := Num(offset)]
  }

  /** `MessageClient`. The notification handler is modelled by the list of
      frames it has been given. */
  class MessageClient {
    const protocol: ProtocolClient
    const hasHandler: bool
    var handled: seq<Object>
    var username: Option<string>

    constructor(protocol: ProtocolClient, hasHandler: bool)
      ensures this.protocol == protocol && this.hasHandler == hasHandler
      ensures handled == [] && username == None
    {
      this.protocol := protocol;
      this.hasHandler := hasHandler;
      handled := [];
      username := None;
    }

    /** `_recv_command_response()`, proved against `AwaitResponse`. */
    method RecvCommandResponse() returns (r: Option<Object>)
      requires protocol.connected && protocol.Valid()
      modifies this, protocol
      ensures protocol.connected && protocol.Valid() && protocol.outbound == old(protocol.outbound)
      ensures username == old(username)
      ensures var a := AwaitResponse(protocol.decode, old(protocol.Stream()));
        r == a.response &&
        protocol.Stream() == old(protocol.Stream())[a.used..] &&
        handled == old(handled) + (if hasHandler then a.notes else [])
    {
      var notes;
      r, notes := ReadUntilResponse();
      if hasHandler {
        handled := handled + notes;
      }
    }

    /** The loop of `_recv_command_response`: frames are read until one is
        not a notification or the stream ends; the notifications read on
        the way are returned in order. */
    method ReadUntilResponse() returns (r: Option<Object>, notes: seq<Object>)
      requires protocol.connected && protocol.Valid()
      modifies protocol
      ensures protocol.connected && protocol.Valid() && protocol.outbound == old(protocol.outbound)
      ensures var a := AwaitResponse(protocol.decode, old(protocol.Stream()));
        r == a.response && notes == a.notes &&
        protocol.Stream() == old(protocol.Stream())[a.used..]
    {
      ghost var decode := protocol.decode;
      ghost var s0 := protocol.Stream();
      ghost var consumed: seq<byte> := [];
      notes := [];
      assert s0 == consumed + s0;
      while true
        invariant protocol.connected && protocol.Valid() && protocol.outbound == old(protocol.outbound)
        invariant Awaiting(decode, s0, consumed, notes, protocol.Stream())
        decreases |protocol.Stream()|
      {
        ghost var rest := protocol.Stream();
        var response := protocol.RecvResponse();
        if response.value.None? {
          AwaitEnds(decode, s0, consumed, notes, rest);
          r := None;
          break;
        }
        var frame := response.value.value;
        if !IsNotification(frame) {
          AwaitReturns(decode, s0, consumed, notes, rest);
          r := Some(frame);
          break;
        }
        AwaitContinues(decode, s0, consumed, notes, rest);
        consumed := consumed + rest[..ReadFrame(decode, rest).value.1];
        notes := notes + [frame];
      }
    }

    /** Sends one command and waits for its reply. */
    method Call(payload: Object) returns (r: Outcome<Option<Object>>)
      requires protocol.Valid()
      modifies this, protocol
      ensures protocol.Valid() && protocol.connected == old(protocol.connected)
      ensures username == old(username)
      ensures !old(protocol.connected) || |protocol.dump(payload)| >= TwoTo32 ==>
                r.Raised? && handled == old(handled) && protocol.outbound == old(protocol.outbound) && protocol.inbound == old(protocol.inbound)
      ensures old(protocol.connected) && |protocol.dump(payload)| < TwoTo32 ==>
                var a := AwaitResponse(protocol.decode, old(protocol.Stream()));
                r == Returned(a.response) &&
                protocol.outbound == old(protocol.outbound) + FrameBytes(protocol.dump(payload)) &&
                protocol.Stream() == old(protocol.Stream())[a.used..] &&
                handled == old(handled) + (if hasHandler then a.notes else [])
    {
      var sent := protocol.SendCommand(payload);
      if sent.Raised? {
        return Raised(sent.error);
      }
      var response := RecvCommandResponse();
      r := Returned(response);
    }

    method Register(user: string, password: string) returns (r: Outcome<Option<Object>>)
      requires protocol.Valid()
      modifies this, protocol
      ensures protocol.Valid() && username == old(username)
      ensures old(protocol.connected) && |protocol.dump(RegisterPayload(user, password))| < TwoTo32 ==>
                r == Returned(AwaitResponse(protocol.decode, old(protocol.Stream())).response) &&
                protocol.outbound == old(protocol.outbound) + FrameBytes(protocol.dump(RegisterPayload(user, password)))
    {
      r := Call(RegisterPayload(user, password));
    }

    /** `login`: the username is recorded only on a successful reply. */
    method Login(user: string, password: string) returns (r: Outcome<Option<Object>>)
      requires protocol.Valid()
      modifies this, protocol
      ensures protocol.Valid()
      ensures r.Returned? && r.value.Some? && Succeeded(r.value.value) ==> username == Some(user)
      ensures !(r.Returned? && r.value.Some? && Succeeded(r.value.value)) ==> username == old(username)
      ensures old(protocol.connected) && |protocol.dump(LoginPayload(user, password))| < TwoTo32 ==>
                r == Returned(AwaitResponse(protocol.decode, old(protocol.Stream())).response) &&
                protocol.outbound == old(protocol.outbound) + FrameBytes(protocol.dump(LoginPayload(user, password)))
    {
      r := Call(LoginPayload(user, password));
      if r.Returned? && r.value.Some? && Succeeded(r.value.value) {
        username := Some(user);
      }
    }

    /** `logout`: the username is cleared only on a successful reply. */
    method Logout() returns (r: Outcome<Option<Object>>)
      requires protocol.Valid()
      modifies this, protocol
      ensures protocol.Valid()
      ensures r.Returned? && r.value.Some? && Succeeded(r.value.value) ==> username == None
      ensures !(r.Returned? && r.value.Some? && Succeeded(r.value.value)) ==> username == old(username)
      ensures old(protocol.connected) && |protocol.dump(map["type" := Str("LOGOUT")])| < TwoTo32 ==>
                r == Returned(AwaitResponse(protocol.decode, old(protocol.Stream())).response) &&
                protocol.outbound == old(protocol.outbound) + FrameBytes(protocol.dump(map["type" := Str("LOGOUT")]))
    {
      r := Call(map["type" := Str("LOGOUT")]);
      if r.Returned? && r.value.Some? && Succeeded(r.value.value) {
        username := None;
      }
    }

    /** `send_message`: refused before anything is sent unless logged in. */
    method SendMessage(recipient: string, content: string, timestamp: string) returns (r: Outcome<Option<Object>>)
      requires protocol.Valid()
      modifies this, protocol
      ensures protocol.Valid() && username == old(username)
      ensures old(username).None? || old(username) == Some("") ==>
                r == Raised("You must /login before sending messages") &&
                protocol.outbound == old(protocol.outbound) && protocol.inbound == old(protocol.inbound) && handled == old(handled)
      ensures old(username).Some? && old(username) != Some("") && old(protocol.connected) &&
              |protocol.dump(SendMessagePayload(recipient, content, timestamp))| < TwoTo32 ==>
                r == Returned(AwaitResponse(protocol.decode, old(protocol.Stream())).response) &&
                protocol.outbound == old(protocol.outbound) + FrameBytes(protocol.dump(SendMessagePayload(recipient, content, timestamp)))
    {
      if username.None? || username == Some("") {
        return Raised("You must /login before sending messages");
      }
      r := Call(SendMessagePayload(recipient, content, timestamp));
    }

    /** The client.py copy of `send_message`, which stamps the message
        itself: `utcNow` is `datetime.utcnow().isoformat()`. */
    method SendMessageNow(recipient: string, content: string, utcNow: string) returns (r: Outcome<Option<Object>>)
      requires protocol.Valid()
      modifies this, protocol
      ensures protocol.Valid() && username == old(username)
      ensures old(username).None? || old(username) == Some("") ==>
                r.Raised? && protocol.outbound == old(protocol.outbound)
      ensures old(username).Some? && old(username) != Some("") && old(protocol.connected) &&
              |protocol.dump(SendMessagePayload(recipient, content, utcNow + "Z"))| < TwoTo32 ==>
                protocol.outbound == old(protocol.outbound) + FrameBytes(protocol.dump(SendMessagePayload(recipient, content, utcNow + "Z")))
    {
      r := SendMessage(recipient, content, utcNow + "Z");
    }

    method ListUsers() returns (r: Outcome<Option<Object>>)
      requires protocol.Valid()
      modifies this, protocol
      ensures protocol.Valid() && username == old(username)
      ensures old(protocol.connected) && |protocol.dump(map["type" := Str("LIST_USERS")])| < TwoTo32 ==>
                r == Returned(AwaitResponse(protocol.decode, old(protocol.Stream())).response) &&
                protocol.outbound == old(protocol.outbound) + FrameBytes(protocol.dump(map["type" := Str("LIST_USERS")]))
    {
      r := Call(map["type" := Str("LIST_USERS")]);
    }

    method ListOnline() returns (r: Outcome<Option<Object>>)
      requires protocol.Valid()
      modifies this, protocol
      ensures protocol.Valid() && username == old(username)
      ensures old(protocol.connected) && |protocol.dump(map["type" := Str("LIST_ONLINE")])| < TwoTo32 ==>
                r == Returned(AwaitResponse(protocol.decode, old(protocol.Stream())).response) &&
                protocol.outbound == old(protocol.outbound) + FrameBytes(protocol.dump(map["type" := Str("LIST_ONLINE")]))
    {
      r := Call(map["type" := Str("LIST_ONLINE")]);
    }

    /** `get_history`: an empty peer is refused before anything is sent. */
    method GetHistory(peer: string, limit: int, offset: int) returns (r: Outcome<Option<Object>>)
      requires protocol.Valid()
      modifies this, protocol
      ensures protocol.Valid() && username == old(username)
      ensures peer == "" ==>
                r == Raised("Peer username is required") &&
                protocol.outbound == old(protocol.outbound) && protocol.inbound == old(protocol.inbound) && handled == old(handled)
      ensures peer != "" && old(protocol.connected) && |protocol.dump(GetHistoryPayload(peer, limit, offset))| < TwoTo32 ==>
                r == Returned(AwaitResponse(protocol.decode, old(protocol.Stream())).response) &&
                protocol.outbound == old(protocol.outbound) + FrameBytes(protocol.dump(GetHistoryPayload(peer, limit, offset)))
    {
      if peer == "" {
        return Raised("Peer username is required");
      }
      r := Call(GetHistoryPayload(peer, limit, offset));
    }
  }
}
