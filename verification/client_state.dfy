/** `ClientState` (src/ClientState.cpp): the per-connection record a worker
    thread keeps, with its FIFO queue of outgoing messages. */
module ClientStates {
  import opened Wire

  /** `sendQueue.push(message)`: a push at the back of the FIFO queue. */
  function Enqueue(q: seq<string>, m: string): (r: seq<string>)
    ensures |r| == |q| + 1 && r[..|q|] == q && r[|q|] == m
  {
    q + [m]
  }

  /** `popQueuedResponse`: the front of the queue and what is left, or
      nothing on an empty queue. */
  datatype Popped = Empty | Front(message: string, rest: seq<string>)

  function Dequeue(q: seq<string>): (r: Popped)
    ensures r.Empty? <==> q == []
    ensures r.Front? ==> [r.message] + r.rest == q
  {
    if q == [] then Empty else Front(q[0], q[1..])
  }

  /** Every message of `ms` pushed in turn. */
  function EnqueueAll(q: seq<string>, ms: seq<string>): (r: seq<string>)
    decreases |ms|
  {
    if ms == [] then q else EnqueueAll(Enqueue(q, ms[0]), ms[1..])
  }

  /** What repeated pops return until the queue is empty. */
  function DrainAll(q: seq<string>): (r: seq<string>)
    decreases |q|
  {
    match Dequeue(q)
    case Empty => []
    case Front(m, rest) => [m] + DrainAll(rest)
  }

  lemma {:induction false} EnqueueAllAppends(q: seq<string>, ms: seq<string>)
    ensures EnqueueAll(q, ms) == q + ms
    decreases |ms|
  {
    if ms != [] {
      EnqueueAllAppends(q + [ms[0]], ms[1..]);
      assert (q + [ms[0]]) + ms[1..] == q + ms;
    }
  }

  lemma {:induction false} DrainAllIsQueue(q: seq<string>)
    ensures DrainAll(q) == q
    decreases |q|
  {
    if q != [] {
      DrainAllIsQueue(q[1..]);
    }
  }

  /** The queue is FIFO: popping everything after a series of pushes
      returns what was queued before, then the pushes in order. */
  lemma QueueIsFifo(q: seq<string>, ms: seq<string>)
    ensures DrainAll(EnqueueAll(q, ms)) == q + ms
  {
    EnqueueAllAppends(q, ms);
    DrainAllIsQueue(q + ms);
  }

  class ClientState {
    /** `socketFd` and whether `owner` is non-null. */
    const socketFd: int
    const hasOwner: bool
    var username: string
    var authenticated: bool
    var lastActivity: int
    var recvBuffer: seq<byte>
    var sendQueue: seq<string>
    /** The fds passed to `owner->notifyEvent`, oldest first. */
    var notified: seq<int>

    constructor(hasOwner: bool, fd: int, now: int)
      ensures this.hasOwner == hasOwner && socketFd == fd && lastActivity == now
      ensures username == "" && !authenticated && recvBuffer == [] && sendQueue == [] && notified == []
    {
      this.hasOwner := hasOwner;
      socketFd := fd;
      username := "";
      authenticated := false;
      lastActivity := now;
      recvBuffer := [];
      sendQueue := [];
      notified := [];
    }

    method SetAuthenticated(value: bool)
      modifies this
      ensures authenticated == value
      ensures username == old(username) && lastActivity == old(lastActivity) && recvBuffer == old(recvBuffer)
      ensures sendQueue == old(sendQueue) && notified == old(notified)
    {
      authenticated := value;
    }

    method SetUsername(name: string)
      modifies this
      ensures username == name
      ensures authenticated == old(authenticated) && lastActivity == old(lastActivity) && recvBuffer == old(recvBuffer)
      ensures sendQueue == old(sendQueue) && notified == old(notified)
    {
      username := name;
    }

    method UpdateActivity(now: int)
      modifies this
      ensures lastActivity == now
      ensures username == old(username) && authenticated == old(authenticated) && recvBuffer == old(recvBuffer)
      ensures sendQueue == old(sendQueue) && notified == old(notified)
    {
      lastActivity := now;
    }

    method ClearRecvBuffer()
      modifies this
      ensures recvBuffer == []
      ensures username == old(username) && authenticated == old(authenticated) && lastActivity == old(lastActivity)
      ensures sendQueue == old(sendQueue) && notified == old(notified)
    {
      recvBuffer := [];
    }

    /** `mutableRecvBuffer().append(bytes)`. */
    method AppendRecv(bytes: seq<byte>)
      modifies this
      ensures recvBuffer == old(recvBuffer) + bytes
      ensures username == old(username) && authenticated == old(authenticated) && lastActivity == old(lastActivity)
      ensures sendQueue == old(sendQueue) && notified == old(notified)
    {
      recvBuffer := recvBuffer + bytes;
    }

    /** `mutableRecvBuffer().erase(0, count)`. */
    method EraseRecvFront(count: nat)
      requires count <= |recvBuffer|
      modifies this
      ensures recvBuffer == old(recvBuffer)[count..]
      ensures username == old(username) && authenticated == old(authenticated) && lastActivity == old(lastActivity)
      ensures sendQueue == old(sendQueue) && notified == old(notified)
    {
      recvBuffer := recvBuffer[count..];
    }

    /** `queueResponse`: pushes at the back and wakes the owner with this fd. */
    method QueueResponse(message: string)
      modifies this
      ensures sendQueue == Enqueue(old(sendQueue), message)
      ensures notified == old(notified) + (if hasOwner then [socketFd] else [])
      ensures username == old(username) && authenticated == old(authenticated)
      ensures lastActivity == old(lastActivity) && recvBuffer == old(recvBuffer)
    {
      sendQueue := sendQueue + [message];
      if hasOwner {
        notified := notified + [socketFd];
      }
    }

    /** `popQueuedResponse(outMessage)`: on an empty queue returns false
        and hands back `outMessage` untouched. */
    method PopQueuedResponse(outMessage: string) returns (ok: bool, message: string)
      modifies this
      ensures Dequeue(old(sendQueue)).Empty? ==> !ok && message == outMessage && sendQueue == old(sendQueue)
      ensures Dequeue(old(sendQueue)).Front? ==>
                ok && message == Dequeue(old(sendQueue)).message && sendQueue == Dequeue(old(sendQueue)).rest
      ensures username == old(username) && authenticated == old(authenticated) && lastActivity == old(lastActivity)
      ensures recvBuffer == old(recvBuffer) && notified == old(notified)
    {
      if sendQueue == [] {
        return false, outMessage;
      }
      message := sendQueue[0];
      sendQueue := sendQueue[1..];
      ok := true;
    }
  }
}
