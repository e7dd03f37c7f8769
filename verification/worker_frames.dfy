/** The byte-level parts of `WorkerThread` (src/WorkerThread.cpp): cutting
    the receive buffer into frames, draining the receive side of a socket,
    flushing the send queue, and the epoll interest mask. */
module WorkerFrames {
  import opened Wire

  const HeaderSize: nat := 4
  /** `kMaxFrameSize`: the 64 KiB guardrail on a frame's payload. */
  const MaxFrameSize: nat := 64 * 1024

  /** The frames cut from a buffer, in order, the bytes left at its front,
      and whether cutting stopped at a header over the limit. */
  datatype Deframed = Deframed(frames: seq<seq<byte>>, rest: seq<byte>, oversized: bool)

  /** The frame loop of `handleReadEvent`. */
  function Deframe(buf: seq<byte>): Deframed
    decreases |buf|
  {
    if |buf| < HeaderSize then Deframed([], buf, false)
    else
      var n := DecodeU32BE(buf);
      if n > MaxFrameSize then Deframed([], buf, true)
      else if |buf| < HeaderSize + n then Deframed([], buf, false)
      else
        var d := Deframe(buf[HeaderSize + n..]);
        Deframed([buf[HeaderSize..HeaderSize + n]] + d.frames, d.rest, d.oversized)
  }

  /** A payload with its length prefix. */
  function Frame(p: seq<byte>): (r: seq<byte>)
    requires |p| <= MaxFrameSize
    ensures |r| == HeaderSize + |p| && r[HeaderSize..] == p
  {
    EncodeU32BE(|p|) + p
  }

  predicate Small(ps: seq<seq<byte>>) {
    forall k :: 0 <= k < |ps| ==> |ps[k]| <= MaxFrameSize
  }

  function Framed(ps: seq<seq<byte>>): (r: seq<byte>)
    requires Small(ps)
    decreases |ps|
  {
    if ps == [] then [] else Frame(ps[0]) + Framed(ps[1..])
  }

  /** `ps` cut off ahead of what cutting `d` found. */
  function PrependFrames(ps: seq<seq<byte>>, d: Deframed): Deframed {
    Deframed(ps + d.frames, d.rest, d.oversized)
  }

  lemma PrependFramesTwice(a: seq<seq<byte>>, b: seq<seq<byte>>, d: Deframed)
    ensures PrependFrames(a, PrependFrames(b, d)) == PrependFrames(a + b, d)
  {
    assert a + (b + d.frames) == (a + b) + d.frames;
  }

  /** The header of a framed payload reads back as its length. */
  lemma FrameHeader(p: seq<byte>, rest: seq<byte>)
    requires |p| <= MaxFrameSize
    ensures |Frame(p) + rest| >= HeaderSize && DecodeU32BE(Frame(p) + rest) == |p|
  {
    DecodePrefix(EncodeU32BE(|p|), p + rest);
    assert Frame(p) + rest == EncodeU32BE(|p|) + (p + rest);
    DecodeEncode(|p|);
  }

  /** One framed payload in front of `rest` is cut off whole. */
  lemma DeframeCons(p: seq<byte>, rest: seq<byte>)
    requires |p| <= MaxFrameSize
    ensures Deframe(Frame(p) + rest) == PrependFrames([p], Deframe(rest))
  {
    var buf := Frame(p) + rest;
    FrameHeader(p, rest);
    assert buf[HeaderSize..HeaderSize + |p|] == p;
    assert buf[HeaderSize + |p|..] == rest;
  }

  /** Framed payloads come back out whole and in order, ahead of whatever
      the bytes after them make of themselves; 65536 bytes is still one
      frame. */
  lemma {:induction false} DeframeFramed(ps: seq<seq<byte>>, tail: seq<byte>)
    requires Small(ps)
    ensures Deframe(Framed(ps) + tail) == PrependFrames(ps, Deframe(tail))
    decreases |ps|
  {
    if ps == [] {
      assert Framed(ps) + tail == tail;
      assert [] + Deframe(tail).frames == Deframe(tail).frames;
    } else {
      var p := ps[0];
      var more := Framed(ps[1..]) + tail;
      assert Framed(ps) + tail == Frame(p) + more;
      DeframeCons(p, more);
      DeframeFramed(ps[1..], tail);
      PrependFramesTwice([p], ps[1..], Deframe(tail));
      assert [p] + ps[1..] == ps;
    }
  }

  /** A buffer holding a complete frame is that frame and what follows. */
  lemma SplitFrame(buf: seq<byte>)
    requires |buf| >= HeaderSize
    requires DecodeU32BE(buf) <= MaxFrameSize && |buf| >= HeaderSize + DecodeU32BE(buf)
    ensures var n := DecodeU32BE(buf);
            buf == Frame(buf[HeaderSize..HeaderSize + n]) + buf[HeaderSize + n..]
  {
    var n := DecodeU32BE(buf);
    EncodeDecode(buf[..HeaderSize]);
    assert DecodeU32BE(buf[..HeaderSize]) == n;
    assert buf == buf[..HeaderSize] + buf[HeaderSize..HeaderSize + n] + buf[HeaderSize + n..];
  }

  /** Nothing is lost or reordered: the buffer is the framed frames
      followed by the rest. */
  lemma {:induction false} DeframeSplits(buf: seq<byte>)
    ensures Small(Deframe(buf).frames) && buf == Framed(Deframe(buf).frames) + Deframe(buf).rest
    decreases |buf|
  {
    if |buf| >= HeaderSize && DecodeU32BE(buf) <= MaxFrameSize && |buf| >= HeaderSize + DecodeU32BE(buf) {
      var n := DecodeU32BE(buf);
      var p := buf[HeaderSize..HeaderSize + n];
      var tail := buf[HeaderSize + n..];
      SplitFrame(buf);
      DeframeSplits(tail);
      DeframeCons(p, tail);
      FramedCons(p, tail, Deframe(tail));
    }
  }

  lemma FramedCons(p: seq<byte>, tail: seq<byte>, d: Deframed)
    requires |p| <= MaxFrameSize && Small(d.frames) && tail == Framed(d.frames) + d.rest
    ensures Small([p] + d.frames) && Frame(p) + tail == Framed([p] + d.frames) + d.rest
  {
    assert ([p] + d.frames)[1..] == d.frames;
  }

  /** What stays is an incomplete frame or, when cutting stopped at an
      oversized header, starts with that header. */
  lemma {:induction false} DeframeRest(buf: seq<byte>)
    ensures var d := Deframe(buf);
            (d.oversized ==> |d.rest| >= HeaderSize && DecodeU32BE(d.rest) > MaxFrameSize) &&
            (!d.oversized ==> |d.rest| < HeaderSize || |d.rest| < HeaderSize + DecodeU32BE(d.rest))
    decreases |buf|
  {
    if |buf| >= HeaderSize && DecodeU32BE(buf) <= MaxFrameSize && |buf| >= HeaderSize + DecodeU32BE(buf) {
      DeframeRest(buf[HeaderSize + DecodeU32BE(buf)..]);
    }
  }

  /** A trailing partial frame stays at the front of the buffer. */
  lemma PartialFrameStays(ps: seq<seq<byte>>, partial: seq<byte>)
    requires Small(ps) && |partial| < HeaderSize
    ensures Deframe(Framed(ps) + partial) == Deframed(ps, partial, false)
  {
    DeframeFramed(ps, partial);
    assert ps + [] == ps;
  }

  /** A header announcing more than 64 KiB ends the loop with the client
      closed, after the frames before it. */
  lemma OversizedCloses(ps: seq<seq<byte>>, n: u32, more: seq<byte>)
    requires Small(ps) && n > MaxFrameSize
    ensures Deframe(Framed(ps) + (EncodeU32BE(n) + more)) == Deframed(ps, EncodeU32BE(n) + more, true)
  {
    DeframeFramed(ps, EncodeU32BE(n) + more);
    DecodePrefix(EncodeU32BE(n), more);
    DecodeEncode(n);
    assert ps + [] == ps;
  }

  /** One `recv` in the read loop: some bytes (none meaning the peer shut
      down), EAGAIN/EWOULDBLOCK, or another error. */
  datatype RecvResult = RecvBytes(bytes: seq<byte>) | RecvAgain | RecvError

  /** The read loop of `handleReadEvent` from buffer `buf`: the bytes read
      are appended until the socket would block (also when no result is
      left) or the connection ends. */
  function Received(buf: seq<byte>, results: seq<RecvResult>): (r: (seq<byte>, bool))
    decreases |results|
  {
    if results == [] then (buf, true)
    else match results[0]
      case RecvBytes(b) => if b == [] then (buf, false) else Received(buf + b, results[1..])
      case RecvAgain => (buf, true)
      case RecvError => (buf, false)
  }

  /** Reading only appends. */
  lemma {:induction false} ReceivedAppends(buf: seq<byte>, results: seq<RecvResult>)
    ensures |Received(buf, results).0| >= |buf| && Received(buf, results).0[..|buf|] == buf
    decreases |results|
  {
    if results != [] && results[0].RecvBytes? && results[0].bytes != [] {
      var b := results[0].bytes;
      ReceivedAppends(buf + b, results[1..]);
      assert (buf + b)[..|buf|] == buf;
    }
  }

  /** One `send` of the write loop: some bytes accepted (zero counts as a
      failure), EAGAIN/EWOULDBLOCK, or another error. */
  datatype SendResult = SentSome(n: nat) | SendAgain | SendError

  datatype SendEnd = Complete | Again | Failed
  /** The inner send loop: how much of the message went out, how it ended,
      and the results not used. */
  datatype Sending = Sending(sent: nat, end: SendEnd, left: seq<SendResult>)

  /** The inner loop of `handleWriteEvent` for message `m`, `sent` bytes in. */
  function SendAll(m: string, sent: nat, results: seq<SendResult>): (s: Sending)
    requires sent <= |m|
    ensures sent <= s.sent <= |m|
    ensures s.end == Complete ==> s.sent == |m|
    ensures |s.left| <= |results|
    decreases |results|
  {
    if sent == |m| then Sending(sent, Complete, results)
    else if results == [] then Sending(sent, Again, [])
    else match results[0]
      case SentSome(n) =>
        if n == 0 then Sending(sent, Failed, results[1..])
        else SendAll(m, if sent + n <= |m| then sent + n else |m|, results[1..])
      case SendAgain => Sending(sent, Again, results[1..])
      case SendError => Sending(sent, Failed, results[1..])
  }

  datatype FlushEnd = Drained | Blocked | Broken
  /** What a write event puts on the wire, the queue it leaves, and how it
      ended (`Broken`: the client was closed). */
  datatype Flushed = Flushed(wire: string, queue: seq<string>, end: FlushEnd)

  /** `handleWriteEvent` as written: on EAGAIN the unsent remainder goes to
      the BACK of the queue, behind the messages still waiting. */
  function FlushAsWritten(queue: seq<string>, results: seq<SendResult>): (f: Flushed)
    ensures f.end == Drained ==> f.queue == []
    decreases |queue|
  {
    if queue == [] then Flushed("", [], Drained)
    else
      var m := queue[0];
      var s := SendAll(m, 0, results);
      match s.end
      case Complete =>
        var f := FlushAsWritten(queue[1..], s.left);
        Flushed(m + f.wire, f.queue, f.end)
      case Again => Flushed(m[..s.sent], queue[1..] + [m[s.sent..]], Blocked)
      case Failed => Flushed(m[..s.sent], queue[1..], Broken)
  }

  /** With two messages queued, a partial send followed by EAGAIN puts the
      tail of the first behind the second: the bytes sent now and those
      still queued no longer spell the two messages in order. */
  lemma RequeueReorders()
    ensures var f := FlushAsWritten(["ab", "cd"], [SentSome(1), SendAgain]);
            f == Flushed("a", ["cd", "b"], Blocked) &&
            f.wire + f.queue[0] + f.queue[1] != "ab" + "cd"
  {
    assert SendAll("ab", 0, [SentSome(1), SendAgain]) == Sending(1, Again, []);
    assert "ab"[..1] == "a" && "ab"[1..] == "b";
    assert ["ab", "cd"][1..] == ["cd"];
    assert ("a" + "cd" + "b")[1] == 'c';
  }

  /** The intended write event: the remainder goes back to the FRONT. */
  function Flush(queue: seq<string>, results: seq<SendResult>): Flushed
    decreases |queue|
  {
    if queue == [] then Flushed("", [], Drained)
    else
      var m := queue[0];
      var s := SendAll(m, 0, results);
      match s.end
      case Complete =>
        var f := Flush(queue[1..], s.left);
        Flushed(m + f.wire, f.queue, f.end)
      case Again => Flushed(m[..s.sent], [m[s.sent..]] + queue[1..], Blocked)
      case Failed => Flushed(m[..s.sent], queue[1..], Broken)
  }

  function Concat(ms: seq<string>): string
    decreases |ms|
  {
    if ms == [] then "" else ms[0] + Concat(ms[1..])
  }

  /** Unless the client is closed, what goes out followed by what stays
      queued is exactly the queue's text, in order; a drained queue is
      empty. */
  lemma {:induction false} FlushConserves(queue: seq<string>, results: seq<SendResult>)
    ensures var f := Flush(queue, results);
            (f.end == Drained ==> f.queue == [] && f.wire == Concat(queue)) &&
            (f.end != Broken ==> f.wire + Concat(f.queue) == Concat(queue))
    decreases |queue|
  {
    if queue != [] {
      var m := queue[0];
      var s := SendAll(m, 0, results);
      if s.end == Complete {
        FlushConserves(queue[1..], s.left);
        var f := Flush(queue[1..], s.left);
        assert m + f.wire + Concat(f.queue) == m + (f.wire + Concat(f.queue));
      } else if s.end == Again {
        var q' := [m[s.sent..]] + queue[1..];
        assert q'[1..] == queue[1..];
        assert m[..s.sent] + (m[s.sent..] + Concat(queue[1..])) == m + Concat(queue[1..]) by {
          assert m[..s.sent] + m[s.sent..] == m;
        }
      }
    }
  }

  /** `EPOLLIN`, `EPOLLOUT`, `EPOLLERR` and `EPOLLRDHUP` as Linux numbers
      them. */
  const EPOLLIN: bv32 := 0x001
  const EPOLLOUT: bv32 := 0x004
  const EPOLLERR: bv32 := 0x008
  const EPOLLRDHUP: bv32 := 0x2000
  /** `kBaseEvents`. */
  const BaseEvents: bv32 := EPOLLIN | EPOLLRDHUP | EPOLLERR

  /** `eventMaskHasWrite(hasPending)`: write interest exactly when output
      is pending, on top of the base events. */
  function EventMaskHasWrite(hasPending: bool): (m: bv32)
    ensures (m & EPOLLOUT != 0) <==> hasPending
    ensures m & BaseEvents == BaseEvents
    ensures m & !(BaseEvents | EPOLLOUT) == 0
  {
    if hasPending then BaseEvents | EPOLLOUT else BaseEvents
  }
}
