/** The C++ command-line client's protocol layer (client/client.cpp):
    `ProtocolClient` with its optional socket, the blocking frame reader
    `recv_exactly`/`receive_response`, and `MessageClient`, which sends a
    command and waits for its reply while passing notifications to a
    handler.  Unlike the Python client, a zero-length frame and a body that
    is not JSON both end the wait with no reply. */
module CppClient {
  import opened Wrappers
  import opened Json
  import opened Wire
  import PyProtocol

  /** `nlohmann::json::parse`: the document, or None for a parse_error. */
  type Parser = seq<byte> -> Option<Value>

  /** `json::dump()` of a command object, as bytes. */
  type Dumper = Object -> seq<byte>

  /** The result of a call that may throw a `json::type_error`. */
  datatype Outcome<T> = Threw | Returned(value: T)

  // ---------------------------------------------------------------------
  // Frames on the byte stream

  /** The bytes `send_command` writes: the body's size cast to `uint32_t`
      in network order, then the body. */
  function SentBytes(body: seq<byte>): (f: seq<byte>)
    ensures |f| == 4 + |body| && f[4..] == body
  {
    EncodeU32BE(TruncU32(|body|)) + body
  }

  /** Below 2^32 bytes the C++ client frames exactly as the Python one. */
  lemma SentBytesAsPython(body: seq<byte>)
    requires |body| < TwoTo32
    ensures SentBytes(body) == PyProtocol.FrameBytes(body)
  {
  }

  /** From 2^32 bytes on, the header no longer states the body's length. */
  lemma SentBytesOverflow(body: seq<byte>)
    requires |body| >= TwoTo32
    ensures DecodeU32BE(SentBytes(body)) == |body| % TwoTo32 != |body|
  {
    DecodeEncode(TruncU32(|body|));
    assert SentBytes(body)[..4] == EncodeU32BE(TruncU32(|body|));
    DecodePrefix(SentBytes(body)[..4], body);
    assert SentBytes(body) == SentBytes(body)[..4] + body;
  }

  /** What one `receive_response` does to the bytes still to arrive: the
      document it returns, if any, and how many bytes it consumes. */
  datatype Received = Received(doc: Option<Value>, used: nat)

  function Receive(parse: Parser, s: seq<byte>): (r: Received)
    ensures r.used <= |s|
    ensures r.doc.Some? ==> 4 < r.used
  {
    if |s| < 4 then Received(None, |s|)
    else
      var n := DecodeU32BE(s);
      if n == 0 then Received(None, 4)
      else if |s| < 4 + n then Received(None, |s|)
      else Received(parse(s[4..4 + n]), 4 + n)
  }

  /** Reading what `send_command` wrote: an empty body reads as no reply,
      any other as its parse, and the bytes after the frame are left alone. */
  lemma ReceiveSentFrame(parse: Parser, body: seq<byte>, rest: seq<byte>)
    requires |body| < TwoTo32
    ensures Receive(parse, SentBytes(body) + rest) ==
            Received(if body == [] then None else parse(body), 4 + |body|)
  {
    var f := SentBytes(body);
    DecodeEncode(|body|);
    assert f[..4] == EncodeU32BE(|body|);
    DecodePrefix(f[..4], f[4..] + rest);
    assert f + rest == f[..4] + (f[4..] + rest);
    assert (f + rest)[4..4 + |body|] == body;
  }

  /** How `recv_command_response` classifies a document. */
  datatype Kind = Note(o: Object) | Reply(o: Object) | TypeError

  /** `ASYNC_COMMAND_TYPES`, compared case-sensitively. */
  const AsyncTypes: set<string> := {"incoming_message", "incoming_message_response", "timeout"}

  /** `res.value("type", "unknown")` throws unless `res` is an object
      whose "type", when present, is a string; a frame whose type is
      asynchronous or that has no "success" is a notification. */
  function Classify(v: Value): (k: Kind)
    ensures k.Note? || k.Reply? <==> v.Obj? && ("type" in v.fields ==> v.fields["type"].Str?)
    ensures k.Note? || k.Reply? ==> k.o == v.fields
    ensures k.Reply? <==> v.Obj? && "success" in v.fields && ("type" in v.fields ==> v.fields["type"].Str?) &&
                          ("type" in v.fields ==> v.fields["type"].s !in AsyncTypes)
  {
    if !v.Obj? then TypeError
    else
      var o := v.fields;
      if "type" in o && !o["type"].Str? then TypeError
      else
        var t := if "type" in o then o["type"].s else "unknown";
        if t in AsyncTypes || "success" !in o then Note(o) else Reply(o)
  }

  /** What one `recv_command_response` does to a stream: the frames it
      hands to the handler, what it returns and the bytes it consumes. */
  datatype Wait = Wait(notes: seq<Object>, reply: Outcome<Option<Object>>, used: nat)

  function AwaitReply(parse: Parser, s: seq<byte>): (a: Wait)
    ensures a.used <= |s|
    decreases |s|
  {
    var r := Receive(parse, s);
    if r.doc.None? then Wait([], Returned(None), r.used)
    else match Classify(r.doc.value)
      case TypeError => Wait([], Threw, r.used)
      case Reply(o) => Wait([], Returned(Some(o)), r.used)
      case Note(o) =>
        var a := AwaitReply(parse, s[r.used..]);
        Wait([o] + a.notes, a.reply, r.used + a.used)
  }

  /** A wait that set aside `notes` over the first `used` bytes, then went on as `a`. */
  function After(notes: seq<Object>, used: nat, a: Wait): Wait {
    Wait(notes + a.notes, a.reply, used + a.used)
  }

  /** The wait over `s` has read `consumed`, set aside `notes`, and goes
      on over `rest`. */
  ghost predicate Awaiting(parse: Parser, s: seq<byte>, consumed: seq<byte>, notes: seq<Object>, rest: seq<byte>) {
    s == consumed + rest &&
    AwaitReply(parse, s) == After(notes, |consumed|, AwaitReply(parse, rest))
  }

  /** A notification is set aside and the wait goes on after it. */
  lemma AwaitContinues(parse: Parser, s: seq<byte>, consumed: seq<byte>, notes: seq<Object>, rest: seq<byte>)
    requires Awaiting(parse, s, consumed, notes, rest)
    requires Receive(parse, rest).doc.Some? && Classify(Receive(parse, rest).doc.value).Note?
    ensures var k := Receive(parse, rest).used;
      Awaiting(parse, s, consumed + rest[..k], notes + [Classify(Receive(parse, rest).doc.value).o], rest[k..])
  {
    var k := Receive(parse, rest).used;
    var o := Classify(Receive(parse, rest).doc.value).o;
    assert consumed + rest == (consumed + rest[..k]) + rest[k..] by {
      assert rest == rest[..k] + rest[k..];
    }
    var b := AwaitReply(parse, rest[k..]);
    assert notes + ([o] + b.notes) == (notes + [o]) + b.notes;
  }

  /** Anything but a notification ends the wait. */
  lemma AwaitStops(parse: Parser, s: seq<byte>, consumed: seq<byte>, notes: seq<Object>, rest: seq<byte>)
    requires Awaiting(parse, s, consumed, notes, rest)
    requires Receive(parse, rest).doc.None? || !Classify(Receive(parse, rest).doc.value).Note?
    ensures var r := Receive(parse, rest);
      AwaitReply(parse, s) == Wait(notes, AwaitReply(parse, rest).reply, |consumed| + r.used) &&
      s[|consumed| + r.used..] == rest[r.used..]
  {
    assert s[|consumed|..] == rest;
  }

  /** Every frame handed to the handler is a notification; a reply
      returned is a `Reply`. */
  lemma {:induction false} AwaitClassifies(parse: Parser, s: seq<byte>)
    ensures var a := AwaitReply(parse, s);
      (forall i :: 0 <= i < |a.notes| ==> "success" !in a.notes[i] ||
                                          ("type" in a.notes[i] && a.notes[i]["type"].Str? && a.notes[i]["type"].s in AsyncTypes)) &&
      (a.reply.Returned? && a.reply.value.Some? ==> Classify(Obj(a.reply.value.value)) == Reply(a.reply.value.value))
    decreases |s|
  {
    var r := Receive(parse, s);
    if r.doc.Some? && Classify(r.doc.value).Note? {
      AwaitClassifies(parse, s[r.used..]);
    }
  }

  /** A zero-length frame ends the C++ wait with no reply, where the
      Python client reads it as `{}`, sets it aside and returns the reply
      that follows. */
  lemma ZeroLengthFrameDiffers(decode: PyProtocol.Decoder, parse: Parser, reply: seq<byte>, rest: seq<byte>)
    requires 0 < |reply| < TwoTo32
    requires decode(reply).Parsed? && !PyProtocol.IsNotification(decode(reply).obj)
    ensures var s := SentBytes([]) + SentBytes(reply) + rest;
      AwaitReply(parse, s) == Wait([], Returned(None), 4) &&
      PyProtocol.AwaitResponse(decode, s).response == Some(decode(reply).obj)
  {
    var s := SentBytes([]) + SentBytes(reply) + rest;
    assert s == SentBytes([]) + (SentBytes(reply) + rest);
    ReceiveSentFrame(parse, [], SentBytes(reply) + rest);
    PyProtocol.ReadSentFrame(decode, [], SentBytes(reply) + rest);
    assert s[4..] == SentBytes(reply) + rest;
    PyProtocol.ReadSentFrame(decode, reply, rest);
  }

  /** A body that does not parse ends the C++ wait with no reply, where
      the Python client sets the synthetic error object aside. */
  lemma BadJsonDiffers(decode: PyProtocol.Decoder, parse: Parser, bad: seq<byte>, rest: seq<byte>)
    requires 0 < |bad| < TwoTo32 && parse(bad).None? && decode(bad).Malformed?
    ensures var s := SentBytes(bad) + rest;
      AwaitReply(parse, s) == Wait([], Returned(None), 4 + |bad|) &&
      PyProtocol.AwaitResponse(decode, s).notes != []
  {
    ReceiveSentFrame(parse, bad, rest);
    PyProtocol.ReadSentFrame(decode, bad, rest);
  }

  // ---------------------------------------------------------------------
  // The socket

  /** `ProtocolClient`. The socket is `socketFd` plus the chunks the
      server's bytes arrive in (each `recv` returns at most the bytes asked
      for from the head chunk; no chunks left is end of stream or an error)
      and the bytes written to it. */
  class ProtocolClient {
    var socketFd: Option<int>
    var inbound: seq<seq<byte>>
    var outbound: seq<byte>
    const dump: Dumper
    const parse: Parser

    /** `recv` never returns an empty chunk before end of stream. */
    ghost predicate Valid()
      reads this
    {
      forall i :: 0 <= i < |inbound| ==> inbound[i] != []
    }

    /** The bytes still to arrive. */
    function Stream(): seq<byte>
      reads this
    {
      Flatten(inbound)
    }

    constructor(dump: Dumper, parse: Parser)
      ensures socketFd == None && inbound == [] && outbound == []
      ensures this.dump == dump && this.parse == parse
      ensures Valid()
    {
      socketFd := None;
      inbound := [];
      outbound := [];
      this.dump := dump;
      this.parse := parse;
    }

    /** `connect(host, port)`: `attempt` is the socket the address loop
        connects, with the chunks that will arrive on it, or None when
        resolution or every connection fails.  Already connected, nothing
        changes. */
    method Connect(attempt: Option<(int, seq<seq<byte>>)>)
      requires attempt.Some? ==> forall i :: 0 <= i < |attempt.value.1| ==> attempt.value.1[i] != []
      requires Valid()
      modifies this
      ensures Valid()
      ensures old(socketFd).Some? || attempt.None? ==>
                socketFd == old(socketFd) && inbound == old(inbound) && outbound == old(outbound)
      ensures old(socketFd).None? && attempt.Some? ==>
                socketFd == Some(attempt.value.0) && inbound == attempt.value.1 && outbound == []
    {
      if socketFd.Some? {
        return;
      }
      if attempt.Some? {
        socketFd := Some(attempt.value.0);
        inbound := attempt.value.1;
        outbound := [];
      }
    }

    /** `close()`: resets the socket; closing twice is closing once. */
    method Close()
      modifies this
      ensures socketFd == None
      ensures inbound == old(inbound) && outbound == old(outbound)
    {
      if socketFd.Some? {
        socketFd := None;
      }
    }

    /** `send_command(command)`: nothing without a socket, otherwise the
        header and the body, each `send` assumed to write everything. */
    method SendCommand(command: Object)
      modifies this
      ensures socketFd == old(socketFd) && inbound == old(inbound)
      ensures old(socketFd).None? ==> outbound == old(outbound)
      ensures old(socketFd).Some? ==> outbound == old(outbound) + SentBytes(dump(command))
    {
      if socketFd.None? {
        return;
      }
      var payload := dump(command);
      var header := EncodeU32BE(TruncU32(|payload|));
      outbound := outbound + header;
      outbound := outbound + payload;
    }

    /** `::recv(fd, buf, n, 0)`: at most n bytes of the head chunk, none
        only at end of stream. */
    method Recv(n: nat) returns (chunk: seq<byte>)
      requires Valid() && n > 0
      modifies this
      ensures Valid() && socketFd == old(socketFd) && outbound == old(outbound)
      ensures |chunk| <= n
      ensures chunk == [] <==> old(inbound) == []
      ensures old(Stream()) == chunk + Stream()
    {
      if inbound == [] {
        return [];
      }
      var head := inbound[0];
      if |head| <= n {
        chunk := head;
        inbound := inbound[1..];
      } else {
        chunk := head[..n];
        inbound := [head[n..]] + inbound[1..];
        assert Flatten(inbound) == head[n..] + Flatten(old(inbound)[1..]);
        assert head == chunk + head[n..];
      }
    }

    /** `recv_exactly(size)`: exactly the next `size` bytes, however they
        are chunked, or nullopt without a socket or once a `recv` returns
        nothing. */
    method RecvExactly(size: nat) returns (r: Option<seq<byte>>)
      requires Valid()
      modifies this
      ensures Valid() && socketFd == old(socketFd) && outbound == old(outbound)
      ensures old(socketFd).None? ==> r == None && inbound == old(inbound)
      ensures old(socketFd).Some? && size <= |old(Stream())| ==>
                r == Some(old(Stream())[..size]) && Stream() == old(Stream())[size..]
      ensures old(socketFd).Some? && |old(Stream())| < size ==> r == None && inbound == []
    {
      if socketFd.None? {
        return None;
      }
      ghost var s0 := Stream();
      var buffer: seq<byte> := [];
      while |buffer| < size
        invariant Valid() && socketFd == old(socketFd) && outbound == old(outbound)
        invariant |buffer| <= size
        invariant s0 == buffer + Stream()
        decreases size - |buffer|
      {
        var received := Recv(size - |buffer|);
        if received == [] {
          return None;
        }
        buffer := buffer + received;
      }
      assert s0[..size] == buffer;
      return Some(buffer);
    }

    /** `receive_response()`, proved against `Receive`: nullopt without a
        socket, on end of stream, for a zero length and for a body that
        does not parse. */
    method ReceiveResponse() returns (r: Option<Value>)
      requires Valid()
      modifies this
      ensures Valid() && socketFd == old(socketFd) && outbound == old(outbound)
      ensures old(socketFd).None? ==> r == None && inbound == old(inbound)
      ensures old(socketFd).Some? ==>
                var rd := Receive(parse, old(Stream()));
                r == rd.doc && Stream() == old(Stream())[rd.used..]
    {
      if socketFd.None? {
        return None;
      }
      ghost var s0 := Stream();
      var header := RecvExactly(4);
      if header.None? {
        return None;
      }
      var len := DecodeU32BE(header.value);
      assert len == DecodeU32BE(s0) by { DecodePrefix(s0[..4], s0[4..]); assert s0 == s0[..4] + s0[4..]; }
      if len == 0 {
        return None;
      }
      var payload := RecvExactly(len);
      if payload.None? {
        return None;
      }
      assert payload.value == s0[4..4 + len];
      assert Stream() == s0[4 + len..];
      r := parse(payload.value);
    }
  }

  // ---------------------------------------------------------------------
  // Commands

  function RegisterCommand(username: string, password: string): Object {
    map["type" := Str("register"), "username" := Str(username), "password" := Str(password)]
  }

  function LoginCommand(username: string, password: string): Object {
    map["type" := Str("login"), "username" := Str(username), "password" := Str(password)]
  }

  function SendMessageCommand(recipient: string, content: string): Object {
    map["type" := Str("send_message"), "recipient" := Str(recipient), "content" := Str(content)]
  }

  const LogoutCommand: Object := map["type" := Str("logout")]

  /** `MessageClient`. The notification handler, when set, is modelled by
      the list of frames it has been called with. */
  class MessageClient {
    const protocol: ProtocolClient
    const hasHandler: bool
    var handled: seq<Object>

    constructor(protocol: ProtocolClient, hasHandler: bool)
      ensures this.protocol == protocol && this.hasHandler == hasHandler
      ensures handled == []
    {
      this.protocol := protocol;
      this.hasHandler := hasHandler;
      handled := [];
    }

    /** One frame of `recv_command_response`'s loop: returns whether the
        loop ends and, if so, what it returns. */
    method NextFrame() returns (done: bool, r: Outcome<Option<Object>>)
      requires protocol.Valid() && protocol.socketFd.Some?
      modifies this, protocol
      ensures protocol.Valid() && protocol.socketFd == old(protocol.socketFd) && protocol.outbound == old(protocol.outbound)
      ensures var rd := Receive(protocol.parse, old(protocol.Stream()));
        protocol.Stream() == old(protocol.Stream())[rd.used..] &&
        (done <==> rd.doc.None? || !Classify(rd.doc.value).Note?) &&
        (done ==> r == AwaitReply(protocol.parse, old(protocol.Stream())).reply && handled == old(handled)) &&
        (!done ==> handled == old(handled) + (if hasHandler then [Classify(rd.doc.value).o] else []))
    {
      var response := protocol.ReceiveResponse();
      if response.None? {
        return true, Returned(None);
      }
      match Classify(response.value)
      case TypeError =>
        done, r := true, Threw;
      case Reply(o) =>
        done, r := true, Returned(Some(o));
      case Note(o) =>
        if hasHandler {
          handled := handled + [o];
        }
        done, r := false, Returned(None);
    }

    /** `recv_command_response()`, proved against `AwaitReply`. */
    method RecvCommandResponse() returns (r: Outcome<Option<Object>>)
      requires protocol.Valid()
      modifies this, protocol
      ensures protocol.Valid() && protocol.socketFd == old(protocol.socketFd) && protocol.outbound == old(protocol.outbound)
      ensures old(protocol.socketFd).None? ==>
                r == Returned(None) && handled == old(handled) && protocol.inbound == old(protocol.inbound)
      ensures old(protocol.socketFd).Some? ==>
                var a := AwaitReply(protocol.parse, old(protocol.Stream()));
                r == a.reply &&
                protocol.Stream() == old(protocol.Stream())[a.used..] &&
                handled == old(handled) + (if hasHandler then a.notes else [])
    {
      if protocol.socketFd.None? {
        var _ := protocol.ReceiveResponse();
        return Returned(None);
      }
      r := WaitReply();
    }

    /** The loop of `recv_command_response()` on an open socket: frames
        are read, and notifications handed over, until a reply, a type
        error or the end of the stream. */
    method WaitReply() returns (r: Outcome<Option<Object>>)
      requires protocol.Valid() && protocol.socketFd.Some?
      modifies this, protocol
      ensures protocol.Valid() && protocol.socketFd == old(protocol.socketFd) && protocol.outbound == old(protocol.outbound)
      ensures var a := AwaitReply(protocol.parse, old(protocol.Stream()));
        r == a.reply &&
        protocol.Stream() == old(protocol.Stream())[a.used..] &&
        handled == old(handled) + (if hasHandler then a.notes else [])
    {
      ghost var parse := protocol.parse;
      ghost var s0 := protocol.Stream();
      ghost var h0 := handled;
      ghost var consumed: seq<byte> := [];
      ghost var notes: seq<Object> := [];
      assert s0 == consumed + s0;
      while true
        invariant protocol.Valid() && protocol.socketFd == old(protocol.socketFd) && protocol.outbound == old(protocol.outbound)
        invariant protocol.parse == parse
        invariant Awaiting(parse, s0, consumed, notes, protocol.Stream())
        invariant handled == h0 + (if hasHandler then notes else [])
        decreases |protocol.Stream()|
      {
        var done;
        done, r, consumed, notes := WaitStep(parse, s0, h0, consumed, notes);
        if done {
          break;
        }
      }
    }

    /** One frame of the wait for a reply: a notification is set aside and
        the wait goes on; anything else ends it with `AwaitReply`'s reply.
        `s0`, `h0`, `consumed` and `notes` say where the wait started and
        what it has read and set aside so far. */
    method WaitStep(ghost parse: Parser, ghost s0: seq<byte>, ghost h0: seq<Object>,
                    ghost consumed: seq<byte>, ghost notes: seq<Object>)
        returns (done: bool, r: Outcome<Option<Object>>, ghost consumed': seq<byte>, ghost notes': seq<Object>)
      requires protocol.Valid() && protocol.socketFd.Some? && protocol.parse == parse
      requires Awaiting(parse, s0, consumed, notes, protocol.Stream())
      requires handled == h0 + (if hasHandler then notes else [])
      modifies this, protocol
      ensures protocol.Valid() && protocol.socketFd == old(protocol.socketFd) && protocol.outbound == old(protocol.outbound)
      ensures protocol.parse == parse
      ensures done ==> var a := AwaitReply(parse, s0);
        r == a.reply && protocol.Stream() == s0[a.used..] && handled == h0 + (if hasHandler then a.notes else [])
      ensures !done ==>
        Awaiting(parse, s0, consumed', notes', protocol.Stream()) &&
        handled == h0 + (if hasHandler then notes' else []) &&
        |protocol.Stream()| < |old(protocol.Stream())|
    {
      ghost var rest := protocol.Stream();
      ghost var rd := Receive(parse, rest);
      done, r := NextFrame();
      if done {
        AwaitStops(parse, s0, consumed, notes, rest);
        consumed', notes' := consumed, notes;
      } else {
        AwaitContinues(parse, s0, consumed, notes, rest);
        ghost var o := Classify(rd.doc.value).o;
        consumed', notes' := consumed + rest[..rd.used], notes + [o];
        assert (h0 + notes) + [o] == h0 + notes';
      }
    }

    /** Sends `command` and waits for its reply. */
    method Call(command: Object) returns (r: Outcome<Option<Object>>)
      requires protocol.Valid()
      modifies this, protocol
      ensures protocol.Valid() && protocol.socketFd == old(protocol.socketFd)
      ensures old(protocol.socketFd).None? ==>
                r == Returned(None) && handled == old(handled) &&
                protocol.outbound == old(protocol.outbound) && protocol.inbound == old(protocol.inbound)
      ensures old(protocol.socketFd).Some? ==>
                var a := AwaitReply(protocol.parse, old(protocol.Stream()));
                r == a.reply &&
                protocol.outbound == old(protocol.outbound) + SentBytes(protocol.dump(command)) &&
                protocol.Stream() == old(protocol.Stream())[a.used..] &&
                handled == old(handled) + (if hasHandler then a.notes else [])
    {
      protocol.SendCommand(command);
      r := RecvCommandResponse();
    }

    /** `register_user(username, password)`. */
    method RegisterUser(username: string, password: string) returns (r: Outcome<Option<Object>>)
      requires protocol.Valid()
      modifies this, protocol
      ensures protocol.Valid()
      ensures old(protocol.socketFd).None? ==> r == Returned(None) && protocol.outbound == old(protocol.outbound)
      ensures old(protocol.socketFd).Some? ==>
                r == AwaitReply(protocol.parse, old(protocol.Stream())).reply &&
                protocol.outbound == old(protocol.outbound) + SentBytes(protocol.dump(RegisterCommand(username, password)))
    {
      r := Call(RegisterCommand(username, password));
    }

    /** `login_user(username, password)`: the C++ client keeps no username. */
    method LoginUser(username: string, password: string) returns (r: Outcome<Option<Object>>)
      requires protocol.Valid()
      modifies this, protocol
      ensures protocol.Valid()
      ensures old(protocol.socketFd).None? ==> r == Returned(None) && protocol.outbound == old(protocol.outbound)
      ensures old(protocol.socketFd).Some? ==>
                r == AwaitReply(protocol.parse, old(protocol.Stream())).reply &&
                protocol.outbound == old(protocol.outbound) + SentBytes(protocol.dump(LoginCommand(username, password)))
    {
      r := Call(LoginCommand(username, password));
    }

    /** `send_message(recipient, content)`: no timestamp, no login check. */
    method SendMessage(recipient: string, content: string) returns (r: Outcome<Option<Object>>)
      requires protocol.Valid()
      modifies this, protocol
      ensures protocol.Valid()
      ensures old(protocol.socketFd).None? ==> r == Returned(None) && protocol.outbound == old(protocol.outbound)
      ensures old(protocol.socketFd).Some? ==>
                r == AwaitReply(protocol.parse, old(protocol.Stream())).reply &&
                protocol.outbound == old(protocol.outbound) + SentBytes(protocol.dump(SendMessageCommand(recipient, content)))
    {
      r := Call(SendMessageCommand(recipient, content));
    }

    /** `logout_user()`. */
    method LogoutUser() returns (r: Outcome<Option<Object>>)
      requires protocol.Valid()
      modifies this, protocol
      ensures protocol.Valid()
      ensures old(protocol.socketFd).None? ==> r == Returned(None) && protocol.outbound == old(protocol.outbound)
      ensures old(protocol.socketFd).Some? ==>
                r == AwaitReply(protocol.parse, old(protocol.Stream())).reply &&
                protocol.outbound == old(protocol.outbound) + SentBytes(protocol.dump(LogoutCommand))
    {
      r := Call(LogoutCommand);
    }
  }
}
