/** `ConversationStore` (client/store.py): per-peer message lists kept
    deduplicated, sorted and clipped to `max_buffer` entries. */
module ConversationStore {
  import opened Wrappers
  import opened Dicts
  import opened StableSort
  import opened Conversations

  /** A history entry with the defaults `merge_history` fills in: missing
      from/to become "?", missing content "", and the timestamp is normalised. */
  function FromHistory(e: HistoryEntry): Message {
    Message(e.id, e.sender.GetOr("?"), e.recipient.GetOr("?"), e.content.GetOr(""), NormalizeTimestamp(e.timestamp))
  }

  lemma FromHistoryDefaults(e: HistoryEntry)
    ensures FromHistory(e).id == e.id
    ensures e.sender.None? ==> FromHistory(e).sender == "?"
    ensures e.recipient.None? ==> FromHistory(e).recipient == "?"
    ensures e.content.None? ==> FromHistory(e).content == ""
    ensures e.sender.Some? ==> FromHistory(e).sender == e.sender.value
    ensures e.recipient.Some? ==> FromHistory(e).recipient == e.recipient.value
    ensures e.content.Some? ==> FromHistory(e).content == e.content.value
    ensures e.timestamp.None? ==> FromHistory(e).timestamp == ""
  {
  }

  /** The entries of a history response with their defaults filled in. */
  function FromHistoryAll(es: seq<HistoryEntry>): (ms: seq<Message>)
    ensures |ms| == |es|
  {
    if es == [] then [] else FromHistoryAll(es[..|es| - 1]) + [FromHistory(es[|es| - 1])]
  }

  lemma {:induction false} FromHistoryAllAt(es: seq<HistoryEntry>, k: nat)
    requires k < |es|
    ensures FromHistoryAll(es)[k] == FromHistory(es[k])
    decreases |es|
  {
    if k < |es| - 1 {
      FromHistoryAllAt(es[..|es| - 1], k);
    }
  }

  /** `dict(message)` with its timestamp normalised, as `append` stores it. */
  function AppendForm(m: Message): Message {
    m.(timestamp := Normalize(m.timestamp))
  }

  /** The first loop of `_dedupe_and_clip`: one pass that keeps, per id
      and per fallback key, the better of the copies seen so far. */
  method GroupLoop(parse: Parser, convo: seq<Message>) returns (byId: Dict<int, Message>, fallback: Dict<ParticipantsKey, Message>)
    ensures Groups(byId, fallback) == Collect(parse, convo)
  {
    byId := [];
    fallback := [];
    var i := 0;
    while i < |convo|
      invariant 0 <= i <= |convo|
      invariant Groups(byId, fallback) == Collect(parse, convo[..i])
    {
      var msg := Renormalized(convo[i]);
      assert convo[..i + 1][..i] == convo[..i];
      if msg.id.Some? {
        var k := msg.id.value;
        var prev := Lookup(byId, k);
        if prev.Some? {
          byId := Assign(byId, k, Better(parse, prev.value, msg));
        } else {
          byId := Assign(byId, k, msg);
        }
      } else {
        var key := FallbackKey(msg);
        var prev := Lookup(fallback, key);
        if prev.Some? {
          fallback := Assign(fallback, key, Better(parse, prev.value, msg));
        } else {
          fallback := Assign(fallback, key, msg);
        }
      }
      i := i + 1;
    }
    assert convo[..|convo|] == convo;
  }

  /** Deduplicate, sort and clip one conversation. */
  method ReconcileLoop(parse: Parser, maxBuffer: int, convo: seq<Message>) returns (merged: seq<Message>)
    ensures merged == Reconcile(parse, maxBuffer, convo)
  {
    var byId, fallback := GroupLoop(parse, convo);
    var ids := Values(byId);
    var kept := PopAllLoop(fallback, KeysOf(ids));
    merged := SortBy(KeyOf, ids + Values(kept));
    if |merged| > maxBuffer {
      merged := merged[PyStart(-maxBuffer, |merged|)..];
    }
  }

  /** The loop of `merge_history` that fills in each entry's defaults. */
  method FromHistoryLoop(messages: seq<HistoryEntry>) returns (normalized: seq<Message>)
    ensures normalized == FromHistoryAll(messages)
  {
    normalized := [];
    var i := 0;
    while i < |messages|
      invariant 0 <= i <= |messages|
      invariant normalized == FromHistoryAll(messages[..i])
    {
      assert messages[..i + 1][..i] == messages[..i];
      normalized := normalized + [FromHistory(messages[i])];
      i := i + 1;
    }
    assert messages[..|messages|] == messages;
  }

  /** A second assignment to a key overwrites the first. */
  lemma UpdateTwice<K, V>(m: map<K, V>, k: K, a: V, b: V)
    ensures m[k := a][k := b] == m[k := b]
  {
  }

  /** Merging a history whose stored result has normal timestamps, then
      running `_dedupe_and_clip` on it again, changes nothing more. */
  lemma MergedHistoryStable(parse: Parser, maxBuffer: int, convo: seq<Message>, messages: seq<HistoryEntry>)
    requires maxBuffer >= 0
    requires NormalStamps(Reconcile(parse, maxBuffer, convo + FromHistoryAll(messages)))
    ensures var merged := Reconcile(parse, maxBuffer, convo + FromHistoryAll(messages));
            Reconcile(parse, maxBuffer, merged) == merged
  {
    ReconcileIdempotent(parse, maxBuffer, convo + FromHistoryAll(messages));
  }

  /** Merging an empty history into a stored conversation with normal
      timestamps leaves it as it is. */
  lemma MergeEmptyHistoryKeeps(parse: Parser, maxBuffer: int, convo: seq<Message>)
    requires maxBuffer >= 0 && Reconciled(maxBuffer, convo) && NormalStamps(convo)
    ensures Reconcile(parse, maxBuffer, convo + FromHistoryAll([])) == convo
  {
    assert convo + FromHistoryAll([]) == convo;
    ReconcileStable(parse, maxBuffer, convo);
  }

  class Store {
    const maxBuffer: int
    /** `time.mktime(time.strptime(...))`, which depends on the local time zone. */
    const parse: Parser
    var conversations: map<string, seq<Message>>

    /** Every stored conversation is reconciled. */
    ghost predicate Valid()
      reads this
    {
      forall p {:trigger conversations[p]} :: p in conversations ==> Reconciled(maxBuffer, conversations[p])
    }

    ghost predicate ValidExcept(peer: string)
      reads this
    {
      forall p {:trigger conversations[p]} :: p in conversations && p != peer ==> Reconciled(maxBuffer, conversations[p])
    }

    /** `self._conversations.get(peer, [])`. */
    function Conv(peer: string): seq<Message>
      reads this
    {
      if peer in conversations then conversations[peer] else []
    }

    constructor(maxBuffer: int, parse: Parser)
      ensures this.maxBuffer == maxBuffer && this.parse == parse
      ensures conversations == map[]
      ensures Valid()
    {
      this.maxBuffer := maxBuffer;
      this.parse := parse;
      conversations := map[];
    }

    /** `get(peer)`: nothing for a falsy or unknown peer. */
    function Get(peer: Option<string>): (r: seq<Message>)
      reads this
      ensures peer.None? || peer == Some("") ==> r == []
      ensures peer.Some? && peer.value !in conversations ==> r == []
      ensures peer.Some? && peer.value != "" && peer.value in conversations ==> r == conversations[peer.value]
    {
      if peer.None? || peer.value == "" then [] else Conv(peer.value)
    }

    /** `_dedupe_and_clip(peer)`. The peer's conversation comes out
        reconciled, and a store that was valid elsewhere is valid. */
    method DedupeAndClip(peer: string) returns (changed: bool)
      modifies this
      ensures old(ValidExcept(peer)) ==> Valid()
      ensures Reconciled(maxBuffer, Conv(peer))
      ensures old(Conv(peer)) == [] ==> conversations == old(conversations) && !changed
      ensures old(Conv(peer)) != [] ==>
                conversations == old(conversations)[peer := Reconcile(parse, maxBuffer, old(Conv(peer)))]
      ensures old(Conv(peer)) != [] ==> changed == (Reconcile(parse, maxBuffer, old(Conv(peer))) != old(Conv(peer)))
    {
      var convo := Conv(peer);
      if convo == [] {
        assert Reconciled(maxBuffer, Conv(peer));
        assert ValidExcept(peer) ==> Valid() by {
          if ValidExcept(peer) {
            forall p | p in conversations ensures Reconciled(maxBuffer, conversations[p]) {
              if p == peer { assert conversations[p] == []; }
            }
          }
        }
        return false;
      }
      var merged := ReconcileLoop(parse, maxBuffer, convo);
      ReconcileWellFormed(parse, maxBuffer, convo);
      changed := merged != convo;
      conversations := conversations[peer := merged];
    }

    /** Stores `convo` under `peer`, leaving the other conversations alone. */
    method Replace(peer: string, convo: seq<Message>)
      modifies this
      ensures conversations == old(conversations)[peer := convo]
      ensures old(Valid()) ==> ValidExcept(peer)
      ensures Conv(peer) == convo
    {
      conversations := conversations[peer := convo];
    }

    /** `append(peer, message)`: adds the message with its timestamp
        normalised, then deduplicates; returns whether the stored list
        differs from the appended one. */
    method Append(peer: string, message: Message) returns (changed: bool)
      modifies this
      ensures old(Valid()) ==> Valid()
      ensures conversations == old(conversations)[peer := Reconcile(parse, maxBuffer, old(Conv(peer)) + [AppendForm(message)])]
      ensures changed == (conversations[peer] != old(Conv(peer)) + [AppendForm(message)])
    {
      ghost var m0 := conversations;
      var convo := Conv(peer) + [AppendForm(message)];
      Replace(peer, convo);
      ghost var m1 := conversations;
      changed := DedupeAndClip(peer);
      ghost var r := Reconcile(parse, maxBuffer, convo);
      UpdateTwice(m0, peer, convo, r);
    }

    /** `merge_history(peer, messages)`: appends the entries with their
        defaults filled in, stores the result even when it is empty, then
        deduplicates. */
    method MergeHistory(peer: string, messages: seq<HistoryEntry>)
      modifies this
      ensures old(Valid()) ==> Valid()
      ensures old(Conv(peer)) + FromHistoryAll(messages) == [] ==> conversations == old(conversations)[peer := []]
      ensures old(Conv(peer)) + FromHistoryAll(messages) != [] ==>
                conversations == old(conversations)[peer := Reconcile(parse, maxBuffer, old(Conv(peer)) + FromHistoryAll(messages))]
    {
      var normalized := FromHistoryLoop(messages);
      ghost var m0 := conversations;
      var existing := Conv(peer) + normalized;
      Replace(peer, existing);
      var _ := DedupeAndClip(peer);
      UpdateTwice(m0, peer, existing, Reconcile(parse, maxBuffer, existing));
    }
  }
}
