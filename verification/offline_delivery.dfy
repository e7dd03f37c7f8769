/** `deliverOfflineMessages` (src/OfflineDelivery.cpp): at login, pushes
    the messages stored for a user while they were away and marks each one
    delivered. */
module OfflineDelivery {
  import opened Wrappers
  import opened ClientStates
  import opened MessageRouter

  /** `database.markDelivered(id)` succeeded for every one of `ids`. */
  predicate AllMarked(ids: seq<int>, markOk: int -> bool)
    decreases |ids|
  {
    ids == [] || (AllMarked(ids[..|ids| - 1], markOk) && markOk(ids[|ids| - 1]))
  }

  lemma AllMarkedSnoc(ids: seq<int>, x: int, markOk: int -> bool)
    ensures AllMarked(ids + [x], markOk) <==> AllMarked(ids, markOk) && markOk(x)
  {
    assert (ids + [x])[..|ids|] == ids;
  }

  /** `AllMarked` holds exactly when every id was marked. */
  lemma {:induction false} AllMarkedEvery(ids: seq<int>, markOk: int -> bool)
    ensures AllMarked(ids, markOk) <==> forall k :: 0 <= k < |ids| ==> markOk(ids[k])
    decreases |ids|
  {
    if ids != [] {
      var init := ids[..|ids| - 1];
      AllMarkedEvery(init, markOk);
      assert forall k :: 0 <= k < |init| ==> init[k] == ids[k];
    }
  }

  /** One pass of the loop: decrypt, queue, `markDelivered`; it extends
      the deliveries made so far by the one of `m`. */
  method DeliverStored(state: ClientState, m: StoredMessage, decrypt: Decrypter, names: map<int, string>,
                       markOk: int -> bool, allMarkedDelivered: bool, marked: seq<int>,
                       ghost q0: seq<string>, ghost ds: seq<Delivery>)
    returns (all: bool, marked': seq<int>)
    requires state.sendQueue == q0 + Payloads(ds) && marked == Ids(ds)
    requires allMarkedDelivered <==> AllMarked(marked, markOk)
    modifies state
    ensures var ds' := ds + DeliveryOf(m, decrypt, names);
            state.sendQueue == q0 + Payloads(ds') && marked' == Ids(ds') && (all <==> AllMarked(marked', markOk))
    ensures state.username == old(state.username) && state.authenticated == old(state.authenticated) && state.recvBuffer == old(state.recvBuffer)
  {
    all, marked' := allMarkedDelivered, marked;
    var id := Router.DeliverOne(state, m, decrypt, names);
    if id.Some? {
      var d := Delivery(m.id, SenderName(names, m.senderId), decrypt(m).value);
      PayloadsAppend(ds, d);
      AllMarkedSnoc(marked, id.value, markOk);
      if !markOk(id.value) {
        all := false;
      }
      marked' := marked + [id.value];
    } else {
      assert ds + [] == ds;
    }
  }

  /** `deliverOfflineMessages(database, crypto, username, state)`: `userIds`
      answers `findUserId`, `stored` is `getQueuedMessages` for the user,
      `markOk` the outcome of each `markDelivered`.  `queueIncomingMessage`
      is not defined in the files modelled here; it is taken as queueing
      the same payload `MessageRouter` builds for a pushed message. */
  method DeliverOfflineMessages(userIds: map<string, int>, stored: seq<StoredMessage>, decrypt: Decrypter,
                                names: map<int, string>, markOk: int -> bool, username: string, state: ClientState)
    returns (ok: bool, marked: seq<int>)
    modifies state
    ensures username !in userIds ==> !ok && marked == [] && state.sendQueue == old(state.sendQueue)
    ensures username in userIds ==>
              var ds := Deliveries(stored, decrypt, names);
              state.sendQueue == old(state.sendQueue) + Payloads(ds) && marked == Ids(ds) &&
              (ok <==> AllMarked(marked, markOk))
    ensures state.username == old(state.username) && state.authenticated == old(state.authenticated) && state.recvBuffer == old(state.recvBuffer)
  {
    if username !in userIds {
      return false, [];
    }
    if stored == [] {
      return true, [];
    }
    ok, marked := DeliverEach(stored, decrypt, names, markOk, state);
  }

  /** The loop of `deliverOfflineMessages` over a non-empty queue. */
  method DeliverEach(stored: seq<StoredMessage>, decrypt: Decrypter, names: map<int, string>,
                     markOk: int -> bool, state: ClientState)
    returns (allMarkedDelivered: bool, marked: seq<int>)
    modifies state
    ensures var ds := Deliveries(stored, decrypt, names);
            state.sendQueue == old(state.sendQueue) + Payloads(ds) && marked == Ids(ds) &&
            (allMarkedDelivered <==> AllMarked(marked, markOk))
    ensures state.username == old(state.username) && state.authenticated == old(state.authenticated) && state.recvBuffer == old(state.recvBuffer)
  {
    allMarkedDelivered := true;
    marked := [];
    ghost var q0 := state.sendQueue;
    ghost var ds: seq<Delivery> := [];
    var i := 0;
    while i < |stored|
      invariant 0 <= i <= |stored|
      invariant ds == Deliveries(stored[..i], decrypt, names)
      invariant state.sendQueue == q0 + Payloads(ds) && marked == Ids(ds)
      invariant allMarkedDelivered <==> AllMarked(marked, markOk)
      invariant state.username == old(state.username) && state.authenticated == old(state.authenticated) && state.recvBuffer == old(state.recvBuffer)
    {
      DeliveriesSnoc(stored, i, decrypt, names);
      allMarkedDelivered, marked := DeliverStored(state, stored[i], decrypt, names, markOk, allMarkedDelivered, marked, q0, ds);
      ds := ds + DeliveryOf(stored[i], decrypt, names);
      i := i + 1;
    }
    assert stored[..|stored|] == stored;
  }

  /** A message that does not decrypt is skipped without touching the
      result: only the decrypted ones are marked. */
  lemma SkippedDoNotCount(stored: seq<StoredMessage>, m: StoredMessage, decrypt: Decrypter, names: map<int, string>, markOk: int -> bool)
    requires decrypt(m).None?
    ensures Deliveries(stored + [m], decrypt, names) == Deliveries(stored, decrypt, names)
    ensures AllMarked(Ids(Deliveries(stored + [m], decrypt, names)), markOk) <==>
            AllMarked(Ids(Deliveries(stored, decrypt, names)), markOk)
  {
    assert (stored + [m])[..|stored|] == stored;
  }
}
