/** Python's insertion-ordered `dict`, as an association list whose keys are
    distinct.  `d[k] = v` keeps the position of an existing key and appends
    a new one; `d.pop(k, None)` removes the key wherever it is. */
module Dicts {
  import opened Wrappers

  type Dict<K, V> = seq<(K, V)>

  ghost predicate UniqueKeys<K, V>(d: Dict<K, V>) {
    forall i, j :: 0 <= i < j < |d| ==> d[i].0 != d[j].0
  }

  /** `k in d`. */
  predicate HasKey<K(==), V>(d: Dict<K, V>, k: K) {
    exists i :: 0 <= i < |d| && d[i].0 == k
  }

  /** The position of `k` in `d`, if any. */
  function IndexOf<K(==), V>(d: Dict<K, V>, k: K): (r: Option<nat>)
    ensures r.Some? ==> r.value < |d| && d[r.value].0 == k
    ensures r.Some? ==> forall j :: 0 <= j < r.value ==> d[j].0 != k
    ensures r.None? ==> forall j :: 0 <= j < |d| ==> d[j].0 != k
    ensures r.Some? <==> HasKey(d, k)
  {
    if d == [] then None
    else if d[0].0 == k then Some(0)
    else
      match IndexOf(d[1..], k)
      case None => None
      case Some(i) => Some(i + 1)
  }

  /** `d.get(k)`. */
  function Lookup<K(==), V>(d: Dict<K, V>, k: K): (r: Option<V>)
    ensures r.Some? <==> HasKey(d, k)
    ensures r.Some? ==> (k, r.value) in d
    ensures UniqueKeys(d) ==> forall i :: 0 <= i < |d| && d[i].0 == k ==> r == Some(d[i].1)
  {
    match IndexOf(d, k)
    case None => None
    case Some(i) => assert d[i] == (k, d[i].1); Some(d[i].1)
  }

  /** `d[k] = v`. */
  function Assign<K(==), V(==)>(d: Dict<K, V>, k: K, v: V): (r: Dict<K, V>)
    ensures HasKey(d, k) ==> |r| == |d|
    ensures !HasKey(d, k) ==> r == d + [(k, v)]
  {
    match IndexOf(d, k)
    case None => d + [(k, v)]
    case Some(i) => d[i := (k, v)]
  }

  /** `d[k] = v` holds the new pair, keeps every other pair and adds no key. */
  lemma AssignFacts<K, V>(d: Dict<K, V>, k: K, v: V)
    ensures (k, v) in Assign(d, k, v)
    ensures forall e :: e in Assign(d, k, v) ==> e == (k, v) || e in d
    ensures forall e :: e in d && e.0 != k ==> e in Assign(d, k, v)
    ensures UniqueKeys(d) ==> UniqueKeys(Assign(d, k, v))
  {
    var r := Assign(d, k, v);
    match IndexOf(d, k)
    case None =>
      assert r[|d|] == (k, v);
      forall e | e in r ensures e == (k, v) || e in d {
        var j :| 0 <= j < |r| && r[j] == e;
        if j < |d| { assert d[j] == e; }
      }
      forall e | e in d && e.0 != k ensures e in r {
        var j :| 0 <= j < |d| && d[j] == e;
        assert r[j] == e;
      }
    case Some(i) =>
      assert r[i] == (k, v);
      assert forall j :: 0 <= j < |d| ==> r[j].0 == d[j].0;
      forall e | e in r ensures e == (k, v) || e in d {
        var j :| 0 <= j < |r| && r[j] == e;
        if j != i { assert d[j] == e; }
      }
      forall e | e in d && e.0 != k ensures e in r {
        var j :| 0 <= j < |d| && d[j] == e;
        assert r[j] == e;
      }
  }

  lemma LookupAssignSame<K, V>(d: Dict<K, V>, k: K, v: V)
    requires UniqueKeys(d)
    ensures Lookup(Assign(d, k, v), k) == Some(v)
  {
    var r := Assign(d, k, v);
    AssignFacts(d, k, v);
    var i :| 0 <= i < |r| && r[i] == (k, v);
  }

  lemma LookupAssignOther<K, V>(d: Dict<K, V>, k: K, v: V, k': K)
    requires UniqueKeys(d) && k' != k
    ensures Lookup(Assign(d, k, v), k') == Lookup(d, k')
  {
    var r := Assign(d, k, v);
    AssignFacts(d, k, v);
    var l := Lookup(d, k');
    if l.Some? {
      assert (k', l.value) in r;
      var i :| 0 <= i < |r| && r[i] == (k', l.value);
    }
  }

  /** `d.pop(k, None)`, discarding the popped value. */
  function Pop<K(==), V(==)>(d: Dict<K, V>, k: K): Dict<K, V> {
    match IndexOf(d, k)
    case None => d
    case Some(i) => d[..i] + d[i + 1..]
  }

  /** Popping removes only pairs with key `k`, and all of them when keys are distinct. */
  lemma PopFacts<K, V>(d: Dict<K, V>, k: K)
    ensures forall e :: e in Pop(d, k) ==> e in d
    ensures forall e :: e in d && e.0 != k ==> e in Pop(d, k)
    ensures UniqueKeys(d) ==> UniqueKeys(Pop(d, k)) && forall e :: e in Pop(d, k) ==> e.0 != k
  {
    match IndexOf(d, k)
    case None =>
    case Some(i) => PopAtFacts(d, i);
  }

  lemma PopAtFacts<K, V>(d: Dict<K, V>, i: nat)
    requires i < |d|
    ensures forall e :: e in d[..i] + d[i + 1..] ==> e in d
    ensures forall j :: 0 <= j < |d| && j != i ==> d[j] in d[..i] + d[i + 1..]
    ensures UniqueKeys(d) ==> UniqueKeys(d[..i] + d[i + 1..])
    ensures UniqueKeys(d) ==> forall e :: e in d[..i] + d[i + 1..] ==> e.0 != d[i].0
  {
    var r := d[..i] + d[i + 1..];
    forall j | 0 <= j < |r| ensures r[j] == d[if j < i then j else j + 1] {
      if j < i { assert r[j] == d[..i][j]; } else { assert r[j] == d[i + 1..][j - i]; }
    }
    forall e | e in r ensures e in d {
      var j :| 0 <= j < |r| && r[j] == e;
      assert e == d[if j < i then j else j + 1];
    }
    forall j | 0 <= j < |d| && j != i ensures d[j] in r {
      if j < i { assert r[j] == d[j]; } else { assert r[j - 1] == d[j]; }
    }
    if UniqueKeys(d) {
      forall a, b | 0 <= a < b < |r| ensures r[a].0 != r[b].0 {
        assert r[a] == d[if a < i then a else a + 1];
        assert r[b] == d[if b < i then b else b + 1];
      }
      forall e | e in r ensures e.0 != d[i].0 {
        var j :| 0 <= j < |r| && r[j] == e;
        assert e == d[if j < i then j else j + 1];
      }
    }
  }

  /** `d.pop(k, None)` for every `k` in `ks`, in order. */
  function PopAll<K(==), V(==)>(d: Dict<K, V>, ks: seq<K>): Dict<K, V>
    decreases |ks|
  {
    if ks == [] then d
    else Pop(PopAll(d, ks[..|ks| - 1]), ks[|ks| - 1])
  }

  /** After popping `ks`, what is left is the pairs of `d` whose key is not in `ks`. */
  lemma {:induction false} PopAllFacts<K, V>(d: Dict<K, V>, ks: seq<K>)
    ensures forall e :: e in PopAll(d, ks) ==> e in d
    ensures UniqueKeys(d) ==> UniqueKeys(PopAll(d, ks))
    ensures UniqueKeys(d) ==> forall e :: e in PopAll(d, ks) ==> e.0 !in ks
    ensures forall e :: e in d && e.0 !in ks ==> e in PopAll(d, ks)
    decreases |ks|
  {
    if ks != [] {
      var init := ks[..|ks| - 1];
      var rest := PopAll(d, init);
      PopAllFacts(d, init);
      PopFacts(rest, ks[|ks| - 1]);
      assert ks == init + [ks[|ks| - 1]];
    }
  }

  /** Popping keys `d` does not hold leaves `d` as it is. */
  lemma {:induction false} PopAllAbsent<K, V>(d: Dict<K, V>, ks: seq<K>)
    requires forall i :: 0 <= i < |ks| ==> !HasKey(d, ks[i])
    ensures PopAll(d, ks) == d
    decreases |ks|
  {
    if ks != [] {
      PopAllAbsent(d, ks[..|ks| - 1]);
    }
  }

  /** Pops every key of `ks` in turn, as the second loop of
      `_dedupe_and_clip` does with the keys of the id-bearing survivors. */
  method PopAllLoop<K(==), V(==)>(d: Dict<K, V>, ks: seq<K>) returns (kept: Dict<K, V>)
    ensures kept == PopAll(d, ks)
  {
    kept := d;
    var j := 0;
    while j < |ks|
      invariant 0 <= j <= |ks|
      invariant kept == PopAll(d, ks[..j])
    {
      assert ks[..j + 1][..j] == ks[..j];
      kept := Pop(kept, ks[j]);
      j := j + 1;
    }
    assert ks[..|ks|] == ks;
  }

  /** `list(d.values())`. */
  function Values<K, V>(d: Dict<K, V>): (r: seq<V>)
    ensures |r| == |d|
    ensures forall i :: 0 <= i < |d| ==> r[i] == d[i].1
  {
    seq(|d|, i requires 0 <= i < |d| => d[i].1)
  }
}
