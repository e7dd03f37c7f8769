/** The Qt client's transport (src/net/ProtocolClient.cpp): `sendCommand`
    frames a compact JSON object behind a 4-byte big-endian length, and
    `tryParseFrames` cuts the bytes `onReadyRead` accumulates into frames,
    remembering a header already read in `m_expectedLen` (0: awaiting a
    header).  Emitted signals are recorded as a list of events. */
module QtProtocol {
  import opened Wrappers
  import opened Json
  import opened Wire

  /** `QJsonDocument::fromJson(payload)`: the object when `doc.isObject()`. */
  type Parser = seq<byte> -> Option<Object>

  /** `QJsonDocument(obj).toJson(QJsonDocument::Compact)`. */
  type Printer = Object -> seq<byte>

  /** The signals `ProtocolClient` emits. */
  datatype Event = ErrorOccurred(message: string) | ResponseReceived(obj: Object)

  const BadJson := "Bad JSON from server"

  /** `int(m_expectedLen)`: the 32-bit value read as a signed `int`. */
  function AsInt32(n: u32): (i: int)
    ensures n < TwoTo31 ==> i == n
    ensures n >= TwoTo31 ==> i < 0
  {
    if n < TwoTo31 then n else n - TwoTo32
  }

  /** The event for one payload. */
  function EventFor(parse: Parser, payload: seq<byte>): Event {
    match parse(payload)
    case Some(o) => ResponseReceived(o)
    case None => ErrorOccurred(BadJson)
  }

  /** What `tryParseFrames` leaves: the events it emitted, `m_expectedLen`
      and `m_buf`. */
  datatype Deframed = Deframed(events: seq<Event>, expected: u32, buf: seq<byte>)

  function Prepend(es: seq<Event>, d: Deframed): Deframed {
    Deframed(es + d.events, d.expected, d.buf)
  }

  lemma PrependTwice(a: seq<Event>, b: seq<Event>, d: Deframed)
    ensures Prepend(a, Prepend(b, d)) == Prepend(a + b, d)
  {
    assert a + (b + d.events) == (a + b) + d.events;
  }

  /** `tryParseFrames` from `expected` and `buf`: with no header pending
      (`expected == 0`) it needs 4 bytes to read one, then the payload. */
  function DeframeBy(parse: Parser, asWritten: bool, expected: u32, buf: seq<byte>): (d: Deframed)
    decreases |buf|, if expected == 0 then 0 else 2
  {
    if expected != 0 then Payload(parse, asWritten, expected, buf)
    else if |buf| < 4 then Deframed([], 0, buf)
    else Payload(parse, asWritten, DecodeU32BE(buf), buf[4..])
  }

  /** The rest of `tryParseFrames` once the length `n` is known.  As
      written, the buffer is compared with `int(m_expectedLen)`, so a
      length of 2^31 or more counts as complete at once and takes whatever
      is buffered (`QByteArray::left`/`remove` clamp to the size);
      `asWritten` false compares the unsigned length instead. */
  function Payload(parse: Parser, asWritten: bool, n: u32, b: seq<byte>): (d: Deframed)
    decreases |b|, 1
  {
    if |b| < (if asWritten then AsInt32(n) else n) then Deframed([], n, b)
    else
      var k := if n <= |b| then n else |b|;
      Prepend([EventFor(parse, b[..k])], DeframeBy(parse, asWritten, 0, b[k..]))
  }

  /** `tryParseFrames` as written. */
  function Deframe(parse: Parser, expected: u32, buf: seq<byte>): Deframed {
    DeframeBy(parse, true, expected, buf)
  }

  /** The state `tryParseFrames` always returns in: no header pending and
      fewer than 4 bytes, or a non-zero header whose payload is incomplete. */
  predicate Waiting(expected: u32, buf: seq<byte>) {
    (expected == 0 && |buf| < 4) || (0 < expected && |buf| < expected)
  }

  /** Bytes are consumed only as whole frames, and `m_expectedLen` is 0
      again after every frame. */
  lemma {:induction false} DeframeWaits(parse: Parser, asWritten: bool, expected: u32, buf: seq<byte>)
    ensures Waiting(DeframeBy(parse, asWritten, expected, buf).expected, DeframeBy(parse, asWritten, expected, buf).buf)
    decreases |buf|, if expected == 0 then 0 else 2
  {
    if expected != 0 {
      PayloadWaits(parse, asWritten, expected, buf);
    } else if |buf| >= 4 {
      PayloadWaits(parse, asWritten, DecodeU32BE(buf), buf[4..]);
    }
  }

  lemma {:induction false} PayloadWaits(parse: Parser, asWritten: bool, n: u32, b: seq<byte>)
    ensures Waiting(Payload(parse, asWritten, n, b).expected, Payload(parse, asWritten, n, b).buf)
    decreases |b|, 1
  {
    if !(|b| < (if asWritten then AsInt32(n) else n)) {
      var k := if n <= |b| then n else |b|;
      DeframeWaits(parse, asWritten, 0, b[k..]);
    }
  }

  /** Reading a frame in `sendCommand`'s format gives one event for its
      payload (a zero length is a payload that is not an object), then
      parsing goes on after it. */
  lemma DeframeSentFrame(parse: Parser, asWritten: bool, body: seq<byte>, rest: seq<byte>)
    requires |body| < TwoTo31
    ensures DeframeBy(parse, asWritten, 0, WriteU32BE([], |body|) + body + rest) ==
            Prepend([EventFor(parse, body)], DeframeBy(parse, asWritten, 0, rest))
  {
    var h := WriteU32BE([], |body|);
    var s := h + body + rest;
    assert h == s[..4] && s == s[..4] + s[4..];
    DecodePrefix(s[..4], s[4..]);
    assert s[4..] == body + rest;
    assert (body + rest)[..|body|] == body && (body + rest)[|body|..] == rest;
  }

  /** Every length a stream's frames carry is below 2^31. */
  predicate Sane(expected: u32, buf: seq<byte>)
    decreases |buf|, if expected == 0 then 0 else 2
  {
    if expected != 0 then SanePayload(expected, buf)
    else |buf| < 4 || SanePayload(DecodeU32BE(buf), buf[4..])
  }

  predicate SanePayload(n: u32, b: seq<byte>)
    decreases |b|, 1
  {
    n < TwoTo31 && (|b| < n || Sane(0, b[n..]))
  }

  /** Parsing `b + t` is parsing `b`, then parsing what it left with `t`
      appended, when the lengths are below 2^31 or compared unsigned. */
  lemma {:induction false} DeframeAppend(parse: Parser, asWritten: bool, expected: u32, b: seq<byte>, t: seq<byte>)
    requires asWritten ==> Sane(expected, b + t)
    ensures var d := DeframeBy(parse, asWritten, expected, b);
      DeframeBy(parse, asWritten, expected, b + t) == Prepend(d.events, DeframeBy(parse, asWritten, d.expected, d.buf + t)) &&
      (asWritten ==> Sane(d.expected, d.buf + t))
    decreases |b|, if expected == 0 then 0 else 2
  {
    if expected != 0 {
      PayloadAppend(parse, asWritten, expected, b, t);
    } else if |b| >= 4 {
      var bt := b + t;
      assert b == b[..4] + b[4..] && bt == b[..4] + (b[4..] + t);
      DecodePrefix(b[..4], b[4..]);
      DecodePrefix(b[..4], b[4..] + t);
      assert bt[4..] == b[4..] + t;
      PayloadAppend(parse, asWritten, DecodeU32BE(b), b[4..], t);
    }
  }

  lemma {:induction false} PayloadAppend(parse: Parser, asWritten: bool, n: u32, b: seq<byte>, t: seq<byte>)
    requires asWritten ==> SanePayload(n, b + t)
    ensures var d := Payload(parse, asWritten, n, b);
      Payload(parse, asWritten, n, b + t) == Prepend(d.events, DeframeBy(parse, asWritten, d.expected, d.buf + t)) &&
      (asWritten ==> Sane(d.expected, d.buf + t))
    decreases |b|, 1
  {
    if |b| < (if asWritten then AsInt32(n) else n) {
      assert n != 0;
    } else {
      assert n <= |b|;
      assert (b + t)[..n] == b[..n] && (b + t)[n..] == b[n..] + t;
      DeframeAppend(parse, asWritten, 0, b[n..], t);
      var d2 := DeframeBy(parse, asWritten, 0, b[n..]);
      PrependTwice([EventFor(parse, b[..n])], d2.events, DeframeBy(parse, asWritten, d2.expected, d2.buf + t));
    }
  }

  /** The events and state after `onReadyRead` has delivered each chunk
      in turn. */
  function FeedAll(parse: Parser, asWritten: bool, expected: u32, buf: seq<byte>, chunks: seq<seq<byte>>): (d: Deframed)
    decreases |chunks|
  {
    if chunks == [] then Deframed([], expected, buf)
    else
      var d := DeframeBy(parse, asWritten, expected, buf + chunks[0]);
      Prepend(d.events, FeedAll(parse, asWritten, d.expected, d.buf, chunks[1..]))
  }

  /** Parsing a buffer that is already waiting changes nothing. */
  lemma DeframeIdle(parse: Parser, asWritten: bool, expected: u32, buf: seq<byte>)
    requires Waiting(expected, buf) && (asWritten ==> expected < TwoTo31)
    ensures DeframeBy(parse, asWritten, expected, buf) == Deframed([], expected, buf)
  {
  }

  /** However the bytes are split across `onReadyRead` calls, the same
      events come out and the same state is left, provided every length
      is below 2^31 (or lengths are compared unsigned). */
  lemma {:induction false} ChunkingInvariant(parse: Parser, asWritten: bool, expected: u32, buf: seq<byte>, chunks: seq<seq<byte>>)
    requires Waiting(expected, buf)
    requires asWritten ==> Sane(expected, buf + Flatten(chunks))
    ensures FeedAll(parse, asWritten, expected, buf, chunks) == DeframeBy(parse, asWritten, expected, buf + Flatten(chunks))
    decreases |chunks|
  {
    if chunks == [] {
      assert buf + [] == buf;
      DeframeIdle(parse, asWritten, expected, buf);
    } else {
      var c := chunks[0];
      var more := Flatten(chunks[1..]);
      assert buf + Flatten(chunks) == (buf + c) + more;
      DeframeAppend(parse, asWritten, expected, buf + c, more);
      var d := DeframeBy(parse, asWritten, expected, buf + c);
      DeframeWaits(parse, asWritten, expected, buf + c);
      ChunkingInvariant(parse, asWritten, d.expected, d.buf, chunks[1..]);
    }
  }

  /** With the length compared unsigned, chunking never matters. */
  lemma ChunkingInvariantUnsigned(parse: Parser, chunks: seq<seq<byte>>)
    ensures FeedAll(parse, false, 0, [], chunks) == DeframeBy(parse, false, 0, Flatten(chunks))
  {
    ChunkingInvariant(parse, false, 0, [], chunks);
    assert [] + Flatten(chunks) == Flatten(chunks);
  }

  /** A length of 2^31 followed by one byte: delivered at once, the byte
      is taken as the payload; delivered in two chunks, an empty payload
      is taken first and the byte is left waiting for a header. */
  lemma HugeLengthBreaksChunking(parse: Parser, x: byte)
    ensures var h := EncodeU32BE(TwoTo31);
      Deframe(parse, 0, h + [x]) == Deframed([EventFor(parse, [x])], 0, []) &&
      FeedAll(parse, true, 0, [], [h, [x]]) == Deframed([EventFor(parse, [])], 0, [x])
  {
    var h := EncodeU32BE(TwoTo31);
    DecodeEncode(TwoTo31);
    var s := h + [x];
    DecodePrefix(h, [x]);
    assert s[4..] == [x] && s[..4] == h;
    assert DeframeBy(parse, true, 0, s) == Payload(parse, true, TwoTo31, [x]);
    assert [x][..1] == [x] && [x][1..] == [];
    assert Payload(parse, true, TwoTo31, [x]) == Prepend([EventFor(parse, [x])], DeframeBy(parse, true, 0, []));
    assert [] + h == h && h[4..] == [];
    assert DeframeBy(parse, true, 0, h) == Payload(parse, true, TwoTo31, []);
    var e: seq<byte> := [];
    assert e[..0] == e && e[0..] == e;
    assert Payload(parse, true, TwoTo31, []) == Prepend([EventFor(parse, [])], DeframeBy(parse, true, 0, []));
    var d := Deframed([EventFor(parse, [])], 0, []);
    assert DeframeBy(parse, true, 0, [] + h) == d;
    var cs: seq<seq<byte>> := [h, [x]];
    assert cs[0] == h && cs[1..] == [[x]];
    assert FeedAll(parse, true, 0, [], cs) == Prepend(d.events, FeedAll(parse, true, 0, [], [[x]]));
    assert [] + [x] == [x] && [[x]][1..] == [];
    assert DeframeBy(parse, true, 0, [x]) == Deframed([], 0, [x]);
    assert FeedAll(parse, true, 0, [], [[x]]) == Prepend([], FeedAll(parse, true, 0, [x], []));
  }

  // ---------------------------------------------------------------------
  // The client object

  /** `ProtocolClient`. `connected` is the socket's state, which the
      socket itself drives; `written` is what has gone to `m_sock.write`. */
  class ProtocolClient {
    var connected: bool
    var buf: seq<byte>
    var expectedLen: u32
    var written: seq<byte>
    var events: seq<Event>
    const toJson: Printer
    const parse: Parser

    constructor(toJson: Printer, parse: Parser)
      ensures !connected && buf == [] && expectedLen == 0 && written == [] && events == []
      ensures this.toJson == toJson && this.parse == parse
    {
      connected := false;
      buf := [];
      expectedLen := 0;
      written := [];
      events := [];
      this.toJson := toJson;
      this.parse := parse;
    }

    /** `connectToHost(host, port)`: clears the buffer and the pending
        length before the socket starts connecting. */
    method ConnectToHost()
      modifies this
      ensures buf == [] && expectedLen == 0
      ensures connected == old(connected) && written == old(written) && events == old(events)
    {
      buf := [];
      expectedLen := 0;
    }

    /** `sendCommand(obj)`: "Not connected" and nothing written, or the
        big-endian length of the compact JSON followed by the JSON. */
    method SendCommand(obj: Object)
      modifies this
      ensures connected == old(connected) && buf == old(buf) && expectedLen == old(expectedLen)
      ensures !old(connected) ==> events == old(events) + [ErrorOccurred("Not connected")] && written == old(written)
      ensures old(connected) ==> (events == old(events) &&
                written == old(written) + WriteU32BE([], TruncU32(|toJson(obj)|)) + toJson(obj))
    {
      if !connected {
        events := events + [ErrorOccurred("Not connected")];
        return;
      }
      var json := toJson(obj);
      var frame := WriteU32BE([], TruncU32(|json|));
      frame := frame + json;
      written := written + frame;
    }

    /** `onReadyRead()`: `chunk` is what `m_sock.readAll()` returns. */
    method OnReadyRead(chunk: seq<byte>)
      modifies this
      ensures var d := Deframe(parse, old(expectedLen), old(buf) + chunk);
        events == old(events) + d.events && expectedLen == d.expected && buf == d.buf
      ensures connected == old(connected) && written == old(written)
    {
      buf := buf + chunk;
      TryParseFrames();
    }

    /** `tryParseFrames()`, proved against `Deframe`. */
    method TryParseFrames()
      modifies this
      ensures var d := Deframe(parse, old(expectedLen), old(buf));
        events == old(events) + d.events && expectedLen == d.expected && buf == d.buf
      ensures connected == old(connected) && written == old(written)
    {
      ghost var d0 := Deframe(parse, expectedLen, buf);
      ghost var emitted: seq<Event> := [];
      var done := false;
      while !done
        invariant connected == old(connected) && written == old(written)
        invariant events == old(events) + emitted
        invariant !done ==> d0 == Prepend(emitted, Deframe(parse, expectedLen, buf))
        invariant done ==> d0 == Deframed(emitted, expectedLen, buf)
        decreases !done, |buf|, if expectedLen == 0 then 0 else 1
      {
        ghost var e1, b1 := expectedLen, buf;
        if expectedLen == 0 {
          if |buf| < 4 {
            done := true;
          } else {
            expectedLen := DecodeU32BE(buf);
            buf := buf[4..];
          }
        }
        if !done {
          assert Deframe(parse, e1, b1) == Payload(parse, true, expectedLen, buf);
          if |buf| < AsInt32(expectedLen) {
            done := true;
          } else {
            var k := if expectedLen as int <= |buf| then expectedLen as int else |buf|;
            ghost var n2, b2 := expectedLen, buf;
            var payload := buf[..k];
            buf := buf[k..];
            expectedLen := 0;
            var ev := EventFor(parse, payload);
            assert Payload(parse, true, n2, b2) == Prepend([ev], Deframe(parse, 0, buf));
            events := events + [ev];
            PrependTwice(emitted, [ev], Deframe(parse, expectedLen, buf));
            emitted := emitted + [ev];
          }
        }
      }
    }
  }
}
