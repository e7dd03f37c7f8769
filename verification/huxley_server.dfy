/** `HuxleyServer` (src/HuxleyServer.cpp): the accepted-socket queue, the
    worker pool and the round-robin hand-off.  Workers are named by their
    index in the pool; sockets, threads and the services they run are not
    modelled beyond whether each step succeeds. */
module HuxleyServers {
  import opened StatusManagers

  /** `worker->assignClient(fd)` on the worker at `worker`. */
  datatype Assignment = Assignment(worker: nat, fd: int)

  /** What one `dispatchPendingClients` call does: the hand-offs, the fds
      closed for want of a worker, what stays queued and the next index. */
  datatype Outcome = Outcome(assignments: seq<Assignment>, closed: seq<int>, left: seq<int>, next: nat)

  function Prepend(a: seq<Assignment>, c: seq<int>, o: Outcome): Outcome {
    Outcome(a + o.assignments, c + o.closed, o.left, o.next)
  }

  /** The round of `dispatchPendingClients` stops on an empty queue or a
      popped -1. */
  predicate Stops(q: seq<int>) {
    q == [] || q[0] == -1
  }

  /** One pass of the loop: pop the front, then close it (empty pool) or
      hand it to the worker at `next` and advance the index. */
  function Step(q: seq<int>, poolSize: nat, next: nat): (o: Outcome)
    ensures q != [] ==> o.left == q[1..]
  {
    if q == [] then Outcome([], [], [], next)
    else if q[0] == -1 then Outcome([], [], q[1..], next)
    else if poolSize == 0 then Outcome([], [q[0]], q[1..], next)
    else Outcome([Assignment(next, q[0])], [], q[1..], (next + 1) % poolSize)
  }

  /** `dispatchPendingClients` over queue `q`: passes until it stops. */
  function Dispatch(q: seq<int>, poolSize: nat, next: nat): Outcome
    decreases |q|
  {
    var s := Step(q, poolSize, next);
    if Stops(q) then s else Prepend(s.assignments, s.closed, Dispatch(s.left, poolSize, s.next))
  }

  /** A round is one pass followed by the rest of the round. */
  lemma DispatchUnfold(q: seq<int>, poolSize: nat, next: nat)
    ensures var s := Step(q, poolSize, next);
            Dispatch(q, poolSize, next) ==
            if Stops(q) then s else Prepend(s.assignments, s.closed, Dispatch(s.left, poolSize, s.next))
  {
  }

  lemma PrependTwice(a: seq<Assignment>, c: seq<int>, a': seq<Assignment>, c': seq<int>, o: Outcome)
    ensures Prepend(a, c, Prepend(a', c', o)) == Prepend(a + a', c + c', o)
  {
    assert a + (a' + o.assignments) == (a + a') + o.assignments;
    assert c + (c' + o.closed) == (c + c') + o.closed;
  }

  function Fds(a: seq<Assignment>): (r: seq<int>)
    ensures |r| == |a|
    ensures forall k :: 0 <= k < |a| ==> r[k] == a[k].fd
  {
    if a == [] then [] else [a[0].fd] + Fds(a[1..])
  }

  lemma FdsAppend(a: seq<Assignment>, b: seq<Assignment>)
    ensures Fds(a + b) == Fds(a) + Fds(b)
  {
    assert Fds(a + b) == Fds(a) + Fds(b);
  }

  /** Without a -1 in the queue, every fd is handled in FIFO order: all of
      them closed when the pool is empty, all assignments otherwise. */
  lemma {:induction false} DispatchIsFifo(q: seq<int>, poolSize: nat, next: nat)
    requires forall k :: 0 <= k < |q| ==> q[k] != -1
    ensures var o := Dispatch(q, poolSize, next);
            o.left == [] &&
            (poolSize == 0 ==> o.closed == q && o.assignments == [] && o.next == next) &&
            (poolSize > 0 ==> o.closed == [] && Fds(o.assignments) == q)
    decreases |q|
  {
    if q != [] {
      var n' := if poolSize == 0 then next else (next + 1) % poolSize;
      DispatchIsFifo(q[1..], poolSize, n');
      if poolSize > 0 {
        var rest := Dispatch(q[1..], poolSize, n');
        FdsAppend([Assignment(next, q[0])], rest.assignments);
      }
      assert [q[0]] + q[1..] == q;
    }
  }

  /** The workers are taken in turn: the first at `next`, each next one
      the one after its predecessor, wrapping at the pool size; every index
      used, and the one left behind, stays below the pool size. */
  lemma {:induction false} DispatchIsRoundRobin(q: seq<int>, poolSize: nat, next: nat)
    requires poolSize > 0 && next < poolSize
    ensures var o := Dispatch(q, poolSize, next);
            var a := o.assignments;
            o.next < poolSize &&
            (forall k :: 0 <= k < |a| ==> a[k].worker < poolSize) &&
            (|a| == 0 ==> o.next == next) &&
            (|a| > 0 ==> a[0].worker == next && o.next == (a[|a| - 1].worker + 1) % poolSize) &&
            (forall k :: 0 < k < |a| ==> a[k].worker == (a[k - 1].worker + 1) % poolSize)
    decreases |q|
  {
    if !Stops(q) {
      var n' := (next + 1) % poolSize;
      DispatchIsRoundRobin(q[1..], poolSize, n');
      var o := Dispatch(q, poolSize, next);
      var rest := Dispatch(q[1..], poolSize, n');
      assert o.assignments == [Assignment(next, q[0])] + rest.assignments;
      assert o.next == rest.next;
      forall k | 0 < k < |o.assignments|
        ensures o.assignments[k].worker == (o.assignments[k - 1].worker + 1) % poolSize
      {
        assert o.assignments[k] == rest.assignments[k - 1];
        if k > 1 {
          assert o.assignments[k - 1] == rest.assignments[k - 2];
        }
      }
    }
  }

  /** A -1 ends the round: what follows it stays queued. */
  lemma {:induction false} SentinelStops(front: seq<int>, back: seq<int>, poolSize: nat, next: nat)
    requires forall k :: 0 <= k < |front| ==> front[k] != -1
    ensures Dispatch(front + [-1] + back, poolSize, next).left == back
    decreases |front|
  {
    if front == [] {
      assert front + [-1] + back == [-1] + back;
    } else {
      assert (front + [-1] + back)[1..] == front[1..] + [-1] + back;
      SentinelStops(front[1..], back, poolSize, if poolSize == 0 then next else (next + 1) % poolSize);
    }
  }

  class HuxleyServer {
    var running: bool
    var socketQueue: seq<int>
    /** `workerThreads.size()`. */
    var poolSize: nat
    var nextWorkerIndex: nat
    /** `assignClient` calls and closed client fds, oldest first. */
    var assignments: seq<Assignment>
    var closed: seq<int>
    /** The states set on the status manager, oldest first. */
    var statusLog: seq<State>

    /** The index is usable whenever there are workers, and a stopped
        server has none. */
    predicate Valid()
      reads this
    {
      (poolSize == 0 ==> nextWorkerIndex == 0) &&
      (poolSize > 0 ==> nextWorkerIndex < poolSize) &&
      (!running ==> poolSize == 0)
    }

    constructor()
      ensures Valid()
      ensures !running && socketQueue == [] && poolSize == 0 && nextWorkerIndex == 0
      ensures assignments == [] && closed == [] && statusLog == []
    {
      running := false;
      socketQueue := [];
      poolSize := 0;
      nextWorkerIndex := 0;
      assignments := [];
      closed := [];
      statusLog := [];
    }

    /** `acceptLoop` pushing an accepted fd. */
    method Accept(fd: int)
      modifies this
      ensures socketQueue == old(socketQueue) + [fd]
      ensures running == old(running) && poolSize == old(poolSize) && nextWorkerIndex == old(nextWorkerIndex)
      ensures assignments == old(assignments) && closed == old(closed) && statusLog == old(statusLog)
    {
      socketQueue := socketQueue + [fd];
    }

    /** `dispatchPendingClients`. */
    method DispatchPendingClients()
      requires Valid()
      modifies this
      ensures Valid()
      ensures var o := Dispatch(old(socketQueue), poolSize, old(nextWorkerIndex));
              assignments == old(assignments) + o.assignments && closed == old(closed) + o.closed &&
              socketQueue == o.left && nextWorkerIndex == o.next
      ensures running == old(running) && poolSize == old(poolSize) && statusLog == old(statusLog)
    {
      ghost var q0 := socketQueue;
      ghost var n0 := nextWorkerIndex;
      ghost var doneA: seq<Assignment> := [];
      ghost var doneC: seq<int> := [];
      ghost var a0 := assignments;
      ghost var c0 := closed;
      while true
        invariant Valid() && running == old(running) && poolSize == old(poolSize) && statusLog == old(statusLog)
        invariant assignments == a0 + doneA && closed == c0 + doneC
        invariant Prepend(doneA, doneC, Dispatch(socketQueue, poolSize, nextWorkerIndex)) == Dispatch(q0, poolSize, n0)
        decreases |socketQueue|
      {
        ghost var s := Step(socketQueue, poolSize, nextWorkerIndex);
        DispatchUnfold(socketQueue, poolSize, nextWorkerIndex);
        var stop := DispatchOne();
        if stop {
          PrependTwice(doneA, doneC, [], [], Outcome([], [], socketQueue, nextWorkerIndex));
          assert doneA + [] == doneA && doneC + [] == doneC;
          break;
        }
        PrependTwice(doneA, doneC, s.assignments, s.closed, Dispatch(socketQueue, poolSize, nextWorkerIndex));
        doneA := doneA + s.assignments;
        doneC := doneC + s.closed;
      }
    }

    /** One pass of the `dispatchPendingClients` loop. */
    method DispatchOne() returns (stop: bool)
      requires Valid()
      modifies this
      ensures Valid()
      ensures var s := Step(old(socketQueue), poolSize, old(nextWorkerIndex));
              stop == Stops(old(socketQueue)) &&
              assignments == old(assignments) + s.assignments && closed == old(closed) + s.closed &&
              socketQueue == s.left && nextWorkerIndex == s.next
      ensures running == old(running) && poolSize == old(poolSize) && statusLog == old(statusLog)
    {
      var clientFd := -1;
      if socketQueue != [] {
        clientFd := socketQueue[0];
        socketQueue := socketQueue[1..];
      }
      if clientFd == -1 {
        return true;
      }
      if poolSize == 0 {
        closed := closed + [clientFd];
        return false;
      }
      var worker := nextWorkerIndex;
      nextWorkerIndex := (nextWorkerIndex + 1) % poolSize;
      assignments := assignments + [Assignment(worker, clientFd)];
      return false;
    }

    /** `stopWorkerPool`. */
    method StopWorkerPool()
      modifies this
      ensures poolSize == 0 && nextWorkerIndex == 0
      ensures running == old(running) && socketQueue == old(socketQueue)
      ensures assignments == old(assignments) && closed == old(closed) && statusLog == old(statusLog)
    {
      poolSize := 0;
      nextWorkerIndex := 0;
    }

    /** `start(port)`: `servicesOk` is whether `initializeServices`
        succeeded, `hardwareThreads` what `hardware_concurrency` reports and
        `threadOk` whether the accept thread was created. */
    method Start(servicesOk: bool, hardwareThreads: nat, threadOk: bool) returns (ok: bool)
      requires Valid()
      modifies this
      ensures Valid()
      ensures old(running) ==> ok && running && poolSize == old(poolSize) && statusLog == old(statusLog)
      ensures !old(running) && !servicesOk ==> !ok && !running && statusLog == old(statusLog)
      ensures !old(running) && servicesOk && !threadOk ==>
                !ok && !running && statusLog == old(statusLog) + [Booting]
      ensures !old(running) && servicesOk && threadOk ==>
                ok && running && poolSize == (if hardwareThreads < 1 then 1 else hardwareThreads) &&
                nextWorkerIndex == 0 && statusLog == old(statusLog) + [Booting, Operational]
      ensures socketQueue == old(socketQueue) && assignments == old(assignments) && closed == old(closed)
    {
      if running {
        return true;
      }
      if !servicesOk {
        return false;
      }
      statusLog := statusLog + [Booting];
      var threads := if hardwareThreads < 1 then 1 else hardwareThreads;
      poolSize := poolSize + threads;
      running := true;
      if !threadOk {
        running := false;
        StopWorkerPool();
        return false;
      }
      statusLog := statusLog + [Operational];
      return true;
    }

    /** `stop()`: does nothing unless running; closes every queued fd in
        FIFO order, then stops the pool. */
    method Stop()
      requires Valid()
      modifies this
      ensures Valid()
      ensures !old(running) ==> socketQueue == old(socketQueue) && closed == old(closed) && poolSize == old(poolSize)
      ensures old(running) ==> socketQueue == [] && closed == old(closed) + old(socketQueue) && poolSize == 0
      ensures !running && assignments == old(assignments) && statusLog == old(statusLog)
    {
      if !running {
        return;
      }
      running := false;
      ghost var q0 := socketQueue;
      ghost var c0 := closed;
      ghost var i := 0;
      while socketQueue != []
        invariant 0 <= i <= |q0| && socketQueue == q0[i..] && closed == c0 + q0[..i]
        invariant !running && assignments == old(assignments) && statusLog == old(statusLog)
        invariant poolSize == old(poolSize) && nextWorkerIndex == old(nextWorkerIndex)
        decreases |socketQueue|
      {
        closed := closed + [socketQueue[0]];
        socketQueue := socketQueue[1..];
        assert q0[..i + 1] == q0[..i] + [q0[i]];
        i := i + 1;
      }
      assert q0[..|q0|] == q0;
      StopWorkerPool();
    }
  }
}
