/** Python's `sorted(xs, key=...)` for the 4-tuple-of-strings keys the
    conversation store sorts by: a stable sort, modelled as an insertion
    sort that places each element before the equal-keyed elements that
    followed it.  The key is a function value so that the lemmas here hold
    for any key function. */
module StableSort {
  import opened Text

  /** A key `(timestamp, from, to, content)`. */
  datatype SortKey = SortKey(ts: string, sender: string, recipient: string, content: string)

  /** Python's tuple comparison `a < b`. */
  predicate KeyLess(a: SortKey, b: SortKey) {
    if a.ts != b.ts then StrLess(a.ts, b.ts)
    else if a.sender != b.sender then StrLess(a.sender, b.sender)
    else if a.recipient != b.recipient then StrLess(a.recipient, b.recipient)
    else StrLess(a.content, b.content)
  }

  predicate KeyLe(a: SortKey, b: SortKey) {
    !KeyLess(b, a)
  }

  lemma KeyLessTransitive(a: SortKey, b: SortKey, c: SortKey)
    requires KeyLess(a, b) && KeyLess(b, c)
    ensures KeyLess(a, c)
  {
    StrLessIrreflexive(a.content);
    if a.ts != b.ts && b.ts != c.ts { StrLessTransitive(a.ts, b.ts, c.ts); StrLessIrreflexive(a.ts); }
    else if a.ts == b.ts && b.ts == c.ts {
      if a.sender != b.sender && b.sender != c.sender {
        StrLessTransitive(a.sender, b.sender, c.sender); StrLessIrreflexive(a.sender);
      } else if a.sender == b.sender && b.sender == c.sender {
        if a.recipient != b.recipient && b.recipient != c.recipient {
          StrLessTransitive(a.recipient, b.recipient, c.recipient); StrLessIrreflexive(a.recipient);
        } else if a.recipient == b.recipient && b.recipient == c.recipient {
          StrLessTransitive(a.content, b.content, c.content);
        }
      }
    }
  }

  lemma KeyLessTotal(a: SortKey, b: SortKey)
    ensures a == b || KeyLess(a, b) || KeyLess(b, a)
  {
    StrLessTotal(a.ts, b.ts);
    StrLessTotal(a.sender, b.sender);
    StrLessTotal(a.recipient, b.recipient);
    StrLessTotal(a.content, b.content);
  }

  lemma KeyLessAsymmetric(a: SortKey, b: SortKey)
    ensures KeyLess(a, b) ==> !KeyLess(b, a)
  {
    StrLessAsymmetric(a.ts, b.ts);
    StrLessAsymmetric(a.sender, b.sender);
    StrLessAsymmetric(a.recipient, b.recipient);
    StrLessAsymmetric(a.content, b.content);
  }

  lemma KeyLeTransitive(a: SortKey, b: SortKey, c: SortKey)
    requires KeyLe(a, b) && KeyLe(b, c)
    ensures KeyLe(a, c)
  {
    KeyLessTotal(a, b);
    KeyLessTotal(b, c);
    if KeyLess(c, a) {
      if a == b { } else if b == c { } else { KeyLessTransitive(a, b, c); KeyLessTransitive(c, a, b); }
    }
  }

  lemma KeyLeTotal(a: SortKey, b: SortKey)
    ensures KeyLe(a, b) || KeyLe(b, a)
  {
    KeyLessAsymmetric(a, b);
  }

  lemma KeyLeAntisymmetric(a: SortKey, b: SortKey)
    requires KeyLe(a, b) && KeyLe(b, a)
    ensures a == b
  {
    KeyLessTotal(a, b);
  }

  // ---------------------------------------------------------------------

  ghost predicate SortedBy<T>(key: T -> SortKey, s: seq<T>) {
    forall i, j :: 0 <= i < j < |s| ==> KeyLe(key(s[i]), key(s[j]))
  }

  /** Inserts `x` before the first element whose key is not below `x`'s. */
  function Insert<T(==)>(key: T -> SortKey, x: T, s: seq<T>): (r: seq<T>)
    ensures |r| == |s| + 1
  {
    if s == [] || KeyLe(key(x), key(s[0])) then [x] + s
    else [s[0]] + Insert(key, x, s[1..])
  }

  /** `sorted(s, key=key)`. */
  function SortBy<T(==)>(key: T -> SortKey, s: seq<T>): (r: seq<T>)
    ensures |r| == |s|
  {
    if s == [] then []
    else Insert(key, s[0], SortBy(key, s[1..]))
  }

  /** Inserting adds `x` and loses nothing. */
  lemma {:induction false} InsertPermutes<T>(key: T -> SortKey, x: T, s: seq<T>)
    ensures multiset(Insert(key, x, s)) == multiset(s) + multiset{x}
  {
    if s != [] && !KeyLe(key(x), key(s[0])) {
      InsertPermutes(key, x, s[1..]);
      assert s == [s[0]] + s[1..];
    }
  }

  /** The sort is a permutation of its input. */
  lemma {:induction false} SortPermutes<T>(key: T -> SortKey, s: seq<T>)
    ensures multiset(SortBy(key, s)) == multiset(s)
  {
    if s != [] {
      SortPermutes(key, s[1..]);
      InsertPermutes(key, s[0], SortBy(key, s[1..]));
      assert s == [s[0]] + s[1..];
    }
  }

  lemma SortedCons<T>(key: T -> SortKey, y: T, r: seq<T>)
    requires SortedBy(key, r)
    requires forall k :: 0 <= k < |r| ==> KeyLe(key(y), key(r[k]))
    ensures SortedBy(key, [y] + r)
  {
    var t := [y] + r;
    forall i, j | 0 <= i < j < |t| ensures KeyLe(key(t[i]), key(t[j])) {
      assert t[j] == r[j - 1];
      if i > 0 { assert t[i] == r[i - 1]; }
    }
  }

  lemma SortedTail<T>(key: T -> SortKey, s: seq<T>)
    requires SortedBy(key, s) && s != []
    ensures SortedBy(key, s[1..])
  {
    var tail := s[1..];
    forall i, j | 0 <= i < j < |tail| ensures KeyLe(key(tail[i]), key(tail[j])) {
      assert tail[i] == s[i + 1] && tail[j] == s[j + 1];
    }
  }

  /** Every element of `Insert(key, x, s)` is `x` or an element of `s`. */
  lemma InsertElements<T>(key: T -> SortKey, x: T, s: seq<T>)
    ensures forall k :: 0 <= k < |Insert(key, x, s)| ==> Insert(key, x, s)[k] == x || Insert(key, x, s)[k] in s
  {
    var r := Insert(key, x, s);
    InsertPermutes(key, x, s);
    forall k | 0 <= k < |r| ensures r[k] == x || r[k] in s {
      assert r[k] in multiset(r);
    }
  }

  lemma {:induction false} InsertSorted<T>(key: T -> SortKey, x: T, s: seq<T>)
    requires SortedBy(key, s)
    ensures SortedBy(key, Insert(key, x, s))
  {
    if s == [] || KeyLe(key(x), key(s[0])) {
      forall k | 0 <= k < |s| ensures KeyLe(key(x), key(s[k])) {
        if k > 0 { KeyLeTransitive(key(x), key(s[0]), key(s[k])); }
      }
      SortedCons(key, x, s);
    } else {
      var tail := s[1..];
      SortedTail(key, s);
      InsertSorted(key, x, tail);
      KeyLeTotal(key(x), key(s[0]));
      var rest := Insert(key, x, tail);
      InsertElements(key, x, tail);
      forall k | 0 <= k < |rest| ensures KeyLe(key(s[0]), key(rest[k])) {
        if rest[k] != x {
          var m :| 0 <= m < |tail| && tail[m] == rest[k];
          assert s[m + 1] == rest[k];
        }
      }
      SortedCons(key, s[0], rest);
    }
  }

  /** The result of the sort is ordered by key. */
  lemma {:induction false} SortSorted<T>(key: T -> SortKey, s: seq<T>)
    ensures SortedBy(key, SortBy(key, s))
  {
    if s != [] {
      SortSorted(key, s[1..]);
      InsertSorted(key, s[0], SortBy(key, s[1..]));
    }
  }

  // ---------------------------------------------------------------------
  // A symmetric relation that holds between all pairs survives the sort.

  ghost predicate PairwiseBy<T>(rel: (T, T) -> bool, s: seq<T>) {
    forall i, j :: 0 <= i < j < |s| ==> rel(s[i], s[j])
  }

  ghost predicate Symmetric<T(!new)>(rel: (T, T) -> bool) {
    forall a, b :: rel(a, b) ==> rel(b, a)
  }

  lemma PairwiseCons<T>(rel: (T, T) -> bool, y: T, r: seq<T>)
    requires PairwiseBy(rel, r)
    requires forall k :: 0 <= k < |r| ==> rel(y, r[k])
    ensures PairwiseBy(rel, [y] + r)
  {
    var t := [y] + r;
    forall i, j | 0 <= i < j < |t| ensures rel(t[i], t[j]) {
      assert t[j] == r[j - 1];
      if i > 0 { assert t[i] == r[i - 1]; }
    }
  }

  lemma PairwiseTail<T>(rel: (T, T) -> bool, s: seq<T>)
    requires PairwiseBy(rel, s) && s != []
    ensures PairwiseBy(rel, s[1..])
    ensures forall k :: 1 <= k < |s| ==> rel(s[0], s[k])
  {
    var tail := s[1..];
    forall i, j | 0 <= i < j < |tail| ensures rel(tail[i], tail[j]) {
      assert tail[i] == s[i + 1] && tail[j] == s[j + 1];
    }
  }

  lemma {:induction false} InsertPairwise<T(!new)>(key: T -> SortKey, rel: (T, T) -> bool, x: T, s: seq<T>)
    requires Symmetric(rel)
    requires PairwiseBy(rel, s)
    requires forall k :: 0 <= k < |s| ==> rel(x, s[k])
    ensures PairwiseBy(rel, Insert(key, x, s))
  {
    if s == [] || KeyLe(key(x), key(s[0])) {
      PairwiseCons(rel, x, s);
    } else {
      var tail := s[1..];
      PairwiseTail(rel, s);
      forall k | 0 <= k < |tail| ensures rel(x, tail[k]) { assert tail[k] == s[k + 1]; }
      InsertPairwise(key, rel, x, tail);
      var rest := Insert(key, x, tail);
      InsertElements(key, x, tail);
      forall k | 0 <= k < |rest| ensures rel(s[0], rest[k]) {
        if rest[k] != x {
          var m :| 0 <= m < |tail| && tail[m] == rest[k];
          assert s[m + 1] == rest[k];
        } else {
          assert rel(x, s[0]);
        }
      }
      PairwiseCons(rel, s[0], rest);
    }
  }

  lemma {:induction false} SortPairwise<T(!new)>(key: T -> SortKey, rel: (T, T) -> bool, s: seq<T>)
    requires Symmetric(rel)
    requires PairwiseBy(rel, s)
    ensures PairwiseBy(rel, SortBy(key, s))
  {
    if s != [] {
      var tail := s[1..];
      PairwiseTail(rel, s);
      SortPairwise(key, rel, tail);
      var sorted := SortBy(key, tail);
      SortPermutes(key, tail);
      forall k | 0 <= k < |sorted| ensures rel(s[0], sorted[k]) {
        assert sorted[k] in multiset(tail);
        var m :| 0 <= m < |tail| && tail[m] == sorted[k];
        assert s[m + 1] == sorted[k];
      }
      InsertPairwise(key, rel, s[0], sorted);
    }
  }

  lemma SortedSuffix<T>(key: T -> SortKey, s: seq<T>, i: nat)
    requires SortedBy(key, s) && i <= |s|
    ensures SortedBy(key, s[i..])
  {
    var t := s[i..];
    forall a, b | 0 <= a < b < |t| ensures KeyLe(key(t[a]), key(t[b])) {
      assert t[a] == s[i + a] && t[b] == s[i + b];
    }
  }

  lemma PairwiseSuffix<T>(rel: (T, T) -> bool, s: seq<T>, i: nat)
    requires PairwiseBy(rel, s) && i <= |s|
    ensures PairwiseBy(rel, s[i..])
  {
    var t := s[i..];
    forall a, b | 0 <= a < b < |t| ensures rel(t[a], t[b]) {
      assert t[a] == s[i + a] && t[b] == s[i + b];
    }
  }

  lemma PairwiseConcat<T>(rel: (T, T) -> bool, a: seq<T>, b: seq<T>)
    requires PairwiseBy(rel, a) && PairwiseBy(rel, b)
    requires forall i, j :: 0 <= i < |a| && 0 <= j < |b| ==> rel(a[i], b[j])
    ensures PairwiseBy(rel, a + b)
  {
    var t := a + b;
    forall i, j | 0 <= i < j < |t| ensures rel(t[i], t[j]) {
      if j < |a| {
        assert t[i] == a[i] && t[j] == a[j];
      } else if i >= |a| {
        assert t[i] == b[i - |a|] && t[j] == b[j - |a|];
      } else {
        assert t[i] == a[i] && t[j] == b[j - |a|];
      }
    }
  }

  // ---------------------------------------------------------------------
  // Sorting a sorted list that was split in two

  /** The elements of `s` on which `p` is `b`, in order. */
  function Select<T>(p: T -> bool, b: bool, s: seq<T>): (r: seq<T>)
    ensures |r| <= |s|
  {
    if s == [] then [] else (if p(s[0]) == b then [s[0]] else []) + Select(p, b, s[1..])
  }

  lemma {:induction false} SelectElements<T>(p: T -> bool, b: bool, s: seq<T>)
    ensures forall y :: y in Select(p, b, s) ==> y in s && p(y) == b
  {
    if s != [] {
      SelectElements(p, b, s[1..]);
    }
  }

  /** Selecting from a longer list selects from the shorter one first. */
  lemma {:induction false} SelectSnoc<T>(p: T -> bool, b: bool, s: seq<T>, x: T)
    ensures Select(p, b, s + [x]) == Select(p, b, s) + (if p(x) == b then [x] else [])
  {
    if s != [] {
      assert (s + [x])[1..] == s[1..] + [x];
      SelectSnoc(p, b, s[1..], x);
    } else {
      assert [x][1..] == [];
    }
  }

  /** The elements of `a` inserted one by one into `r`, the last one first. */
  function InsertEach<T(==)>(key: T -> SortKey, a: seq<T>, r: seq<T>): seq<T> {
    if a == [] then r else Insert(key, a[0], InsertEach(key, a[1..], r))
  }

  /** Sorting `a + b` inserts the elements of `a` into the sorted `b`. */
  lemma {:induction false} SortAppend<T>(key: T -> SortKey, a: seq<T>, b: seq<T>)
    ensures SortBy(key, a + b) == InsertEach(key, a, SortBy(key, b))
  {
    if a != [] {
      assert (a + b)[0] == a[0] && (a + b)[1..] == a[1..] + b;
      SortAppend(key, a[1..], b);
    } else {
      assert a + b == b;
    }
  }

  /** A sorted list sorts to itself. */
  lemma {:induction false} SortFixed<T>(key: T -> SortKey, s: seq<T>)
    requires SortedBy(key, s)
    ensures SortBy(key, s) == s
  {
    if s != [] {
      SortedTail(key, s);
      SortFixed(key, s[1..]);
      assert s == [s[0]] + s[1..];
    }
  }

  /** What is selected from a sorted list is sorted. */
  lemma {:induction false} SortedSelect<T>(key: T -> SortKey, p: T -> bool, b: bool, s: seq<T>)
    requires SortedBy(key, s)
    ensures SortedBy(key, Select(p, b, s))
  {
    if s != [] {
      var t := s[1..];
      SortedTail(key, s);
      SortedSelect(key, p, b, t);
      if p(s[0]) == b {
        var r := Select(p, b, t);
        SelectElements(p, b, t);
        forall k | 0 <= k < |r| ensures KeyLe(key(s[0]), key(r[k])) {
          assert r[k] in t;
          var m :| 0 <= m < |t| && t[m] == r[k];
          assert s[m + 1] == r[k];
        }
        SortedCons(key, s[0], r);
      }
    }
  }

  /** Inserting elements that all rank strictly above `x` leaves `x` in front. */
  lemma {:induction false} InsertEachBehind<T>(key: T -> SortKey, x: T, a: seq<T>, r: seq<T>)
    requires forall k :: 0 <= k < |a| ==> KeyLess(key(x), key(a[k]))
    ensures InsertEach(key, a, [x] + r) == [x] + InsertEach(key, a, r)
  {
    if a != [] {
      InsertEachBehind(key, x, a[1..], r);
      var t := InsertEach(key, a[1..], r);
      assert ([x] + t)[0] == x && ([x] + t)[1..] == t;
    }
  }

  /** Strictly ordered across the two parts: no element on which `p` holds
      ties with one on which it fails. */
  ghost predicate PartsApart<T>(key: T -> SortKey, p: T -> bool, s: seq<T>) {
    forall i, j :: 0 <= i < j < |s| && p(s[i]) != p(s[j]) ==> KeyLess(key(s[i]), key(s[j]))
  }

  lemma {:induction false} InsertEachMerges<T>(key: T -> SortKey, p: T -> bool, s: seq<T>)
    requires SortedBy(key, s) && PartsApart(key, p, s)
    ensures InsertEach(key, Select(p, true, s), Select(p, false, s)) == s
  {
    if s != [] {
      var x, t := s[0], s[1..];
      assert s == [x] + t;
      SortedTail(key, s);
      assert PartsApart(key, p, t) by {
        forall i, j | 0 <= i < j < |t| && p(t[i]) != p(t[j]) ensures KeyLess(key(t[i]), key(t[j])) {
          assert t[i] == s[i + 1] && t[j] == s[j + 1];
        }
      }
      InsertEachMerges(key, p, t);
      var a, b := Select(p, true, t), Select(p, false, t);
      if p(x) {
        assert Select(p, true, s) == [x] + a && Select(p, false, s) == b;
        assert ([x] + a)[0] == x && ([x] + a)[1..] == a;
        assert t == [] || KeyLe(key(x), key(t[0])) by {
          if t != [] { assert t[0] == s[1]; }
        }
      } else {
        assert Select(p, true, s) == a && Select(p, false, s) == [x] + b;
        SelectElements(p, true, t);
        forall k | 0 <= k < |a| ensures KeyLess(key(x), key(a[k])) {
          assert a[k] in t;
          var m :| 0 <= m < |t| && t[m] == a[k];
          assert s[m + 1] == a[k];
        }
        InsertEachBehind(key, x, a, b);
      }
    }
  }

  /** A sorted list split into the elements on which `p` holds followed by
      the others sorts back to itself when no element of one part ties with
      one of the other: equal keys keep their order within a part. */
  lemma SortSplit<T>(key: T -> SortKey, p: T -> bool, s: seq<T>)
    requires SortedBy(key, s) && PartsApart(key, p, s)
    ensures SortBy(key, Select(p, true, s) + Select(p, false, s)) == s
  {
    SortAppend(key, Select(p, true, s), Select(p, false, s));
    SortedSelect(key, p, false, s);
    SortFixed(key, Select(p, false, s));
    InsertEachMerges(key, p, s);
  }
}
