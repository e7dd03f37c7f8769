/** The value-level behaviour of the client's conversation store: timestamp
    normalisation, the conflict rule `better`, deduplication by server id or
    by participants and content, the stable sort and the clip to
    `max_buffer` entries (client/store.py, copied verbatim in
    client/tui_app.py and client/client.py). */
module Conversations {
  import opened Wrappers
  import opened Text
  import opened Dicts
  import opened StableSort

  /** A stored message: the dict with keys id, from, to, content, timestamp. */
  datatype Message = Message(
    id: Option<int>,
    sender: string,
    recipient: string,
    content: string,
    timestamp: string)

  /** A history entry as received from the server: any key may be missing
      (`None`); a timestamp that is not a string is also `None`. */
  datatype HistoryEntry = HistoryEntry(
    id: Option<int>,
    sender: Option<string>,
    recipient: Option<string>,
    content: Option<string>,
    timestamp: Option<string>)

  // ---------------------------------------------------------------------
  // Timestamps

  /** `_normalize_timestamp` on a string: strip, drop one trailing "Z",
      turn "T" into a space and cut at the first ".". */
  function Normalize(ts: string): string {
    var cleaned := Strip(ts);
    var noZ := if EndsWith(cleaned, 'Z') then cleaned[..|cleaned| - 1] else cleaned;
    var spaced := ReplaceChar(noZ, 'T', ' ');
    if '.' in spaced then BeforeFirst(spaced, '.') else spaced
  }

  /** A normalised timestamp has no "T" and no ".", and is no longer than
      the stripped input. */
  lemma NormalizeClean(ts: string)
    ensures 'T' !in Normalize(ts) && '.' !in Normalize(ts)
    ensures |Normalize(ts)| <= |Strip(ts)|
  {
    var cleaned := Strip(ts);
    var noZ := if EndsWith(cleaned, 'Z') then cleaned[..|cleaned| - 1] else cleaned;
    ReplaceCharRemoves(noZ, 'T', ' ');
    var spaced := ReplaceChar(noZ, 'T', ' ');
    if '.' in spaced {
      var r := BeforeFirst(spaced, '.');
      assert forall c :: c in r ==> c in spaced;
    }
  }

  /** `_normalize_timestamp` on any value; `None` stands for a non-string. */
  function NormalizeTimestamp(ts: Option<string>): (r: string)
    ensures ts.None? ==> r == ""
    ensures 'T' !in r && '.' !in r
  {
    match ts
    case None => ""
    case Some(s) => NormalizeClean(s); Normalize(s)
  }

  /** The timestamps normalisation leaves alone. */
  predicate IsNormal(ts: string) {
    'T' !in ts && '.' !in ts && !EndsWith(ts, 'Z') && Strip(ts) == ts
  }

  lemma StripSameLength(s: string)
    requires |Strip(s)| == |s|
    ensures Strip(s) == s
  {
    var l := TrimLeft(s);
    assert |l| == |s|;
  }

  /** A timestamp is a fixed point of normalisation exactly when it has no
      "T", no ".", no trailing "Z" and no surrounding whitespace. */
  lemma NormalizeFixedPoint(ts: string)
    ensures Normalize(ts) == ts <==> IsNormal(ts)
  {
    var cleaned := Strip(ts);
    NormalizeClean(ts);
    if Normalize(ts) == ts {
      StripSameLength(ts);
      assert cleaned == ts;
      assert !EndsWith(cleaned, 'Z');
    }
    if IsNormal(ts) {
      ReplaceCharAbsent(ts, 'T', ' ');
    }
  }

  /** The ISO-8601 form the clients send, "<date>T<time>Z", becomes
      "<date> <time>" (e.g. "2024-01-01T10:00:00Z" becomes "2024-01-01 10:00:00"). */
  lemma NormalizeIso(date: string, time: string)
    requires date != [] && !IsSpace(date[0]) && time != []
    requires 'T' !in date && 'T' !in time && '.' !in date && '.' !in time
    ensures Normalize(date + "T" + time + "Z") == date + " " + time
  {
    var a := date + "T" + time + "Z";
    assert a[0] == date[0] && a[|a| - 1] == 'Z';
    assert Strip(a) == a;
    var b := a[..|a| - 1];
    assert b == date + "T" + time;
    ReplaceCharAppend(date + "T", time, 'T', ' ');
    ReplaceCharAppend(date, "T", 'T', ' ');
    ReplaceCharAbsent(date, 'T', ' ');
    ReplaceCharAbsent(time, 'T', ' ');
    var c := ReplaceChar(b, 'T', ' ');
    assert c == date + " " + time;
    assert '.' !in c;
  }

  /** Fractional seconds are cut at the first "." ("...10:00:00.123456Z"
      becomes "... 10:00:00"). */
  lemma NormalizeIsoFraction(date: string, time: string, fraction: string)
    requires date != [] && !IsSpace(date[0]) && time != []
    requires 'T' !in date && 'T' !in time && '.' !in date && '.' !in time
    ensures Normalize(date + "T" + time + "." + fraction + "Z") == date + " " + time
  {
    var a := date + "T" + time + "." + fraction + "Z";
    assert a[0] == date[0] && a[|a| - 1] == 'Z';
    assert Strip(a) == a;
    var b := a[..|a| - 1];
    assert b == (date + "T" + time) + ("." + fraction);
    ReplaceCharAppend(date + "T" + time, "." + fraction, 'T', ' ');
    ReplaceCharAppend(date + "T", time, 'T', ' ');
    ReplaceCharAppend(date, "T", 'T', ' ');
    ReplaceCharAbsent(date, 'T', ' ');
    ReplaceCharAbsent(time, 'T', ' ');
    var head := ReplaceChar(date + "T" + time, 'T', ' ');
    assert head == date + " " + time;
    var c := ReplaceChar(b, 'T', ' ');
    assert c == head + ReplaceChar("." + fraction, 'T', ' ');
    assert c[|head|] == '.';
    assert '.' !in head;
    assert BeforeFirst(c, '.') == head by {
      BeforeFirstAt(c, '.', |head|);
    }
  }

  /** Each pass removes only one trailing "Z": a stored "<t>Z" loses its
      "Z" on the next pass, so "<t>ZZ" needs two passes to settle. */
  lemma NormalizeStripsOneZ(t: string)
    requires IsNormal(t) && t != []
    ensures Normalize(t + "ZZ") == t + "Z"
    ensures Normalize(t + "Z") == t
  {
    assert !IsSpace(t[0]) by { assert Strip(t) == t; }
    var a := t + "ZZ";
    assert a[0] == t[0] && a[|a| - 1] == 'Z';
    assert Strip(a) == a;
    assert a[..|a| - 1] == t + "Z";
    ReplaceCharAbsent(t + "Z", 'T', ' ');
    assert '.' !in t + "Z";
    var b := t + "Z";
    assert b[0] == t[0] && b[|b| - 1] == 'Z';
    assert Strip(b) == b;
    assert b[..|b| - 1] == t;
    ReplaceCharAbsent(t, 'T', ' ');
  }

  // ---------------------------------------------------------------------
  // Scores and the conflict rule

  /** `_ts_score`: seconds since the epoch, or +inf. */
  datatype Score = Inf | At(seconds: int)

  /** `time.mktime(time.strptime(ts, "%Y-%m-%d %H:%M:%S"))`, `None` when it raises. */
  type Parser = string -> Option<int>

  function TsScore(parse: Parser, ts: string): Score {
    if ts == "" then Inf
    else match parse(ts)
      case None => Inf
      case Some(t) => At(t)
  }

  /** `a < b` on the float scores. */
  predicate ScoreBelow(a: Score, b: Score) {
    match (a, b)
    case (At(x), At(y)) => x < y
    case (At(_), Inf) => true
    case (Inf, _) => false
  }

  /** `better(a, b)` as written in `_dedupe_and_clip`. */
  function Better(parse: Parser, a: Message, b: Message): (r: Message)
    ensures r == a || r == b
  {
    var sa, sb := TsScore(parse, a.timestamp), TsScore(parse, b.timestamp);
    if sa != sb then (if ScoreBelow(sb, sa) then a else b)
    else if |a.timestamp| != |b.timestamp| then (if |a.timestamp| > |b.timestamp| then a else b)
    else a
  }

  /** `b` beats `a`: a higher score, or an equal score and a longer timestamp. */
  predicate RankLess(parse: Parser, a: Message, b: Message) {
    var sa, sb := TsScore(parse, a.timestamp), TsScore(parse, b.timestamp);
    ScoreBelow(sa, sb) || (sa == sb && |a.timestamp| < |b.timestamp|)
  }

  /** The conflict rule of `better`: a strictly higher score wins, an empty
      or unparseable timestamp (+inf) beats any parseable one, then the
      longer timestamp wins, and on a full tie the entry seen first stays. */
  lemma BetterPrefers(parse: Parser, a: Message, b: Message)
    ensures ScoreBelow(TsScore(parse, b.timestamp), TsScore(parse, a.timestamp)) ==> Better(parse, a, b) == a
    ensures ScoreBelow(TsScore(parse, a.timestamp), TsScore(parse, b.timestamp)) ==> Better(parse, a, b) == b
    ensures (a.timestamp == "" || parse(a.timestamp).None?) && b.timestamp != "" && parse(b.timestamp).Some? ==>
              Better(parse, a, b) == a && Better(parse, b, a) == a
    ensures TsScore(parse, a.timestamp) == TsScore(parse, b.timestamp) && |a.timestamp| < |b.timestamp| ==>
              Better(parse, a, b) == b && Better(parse, b, a) == b
    ensures TsScore(parse, a.timestamp) == TsScore(parse, b.timestamp) && |a.timestamp| == |b.timestamp| ==>
              Better(parse, a, b) == a
  {
  }

  /** `better` keeps the first argument unless the second strictly outranks it. */
  lemma BetterIsMax(parse: Parser, a: Message, b: Message)
    ensures Better(parse, a, b) == if RankLess(parse, a, b) then b else a
  {
  }

  lemma RankLessIrreflexive(parse: Parser, a: Message)
    ensures !RankLess(parse, a, a)
  {
  }

  lemma RankLessAsymmetric(parse: Parser, a: Message, b: Message)
    ensures RankLess(parse, a, b) ==> !RankLess(parse, b, a)
  {
  }

  /** `a <= b < c` gives `a < c`. */
  lemma RankLeLess(parse: Parser, a: Message, b: Message, c: Message)
    requires !RankLess(parse, b, a) && RankLess(parse, b, c)
    ensures RankLess(parse, a, c)
  {
  }

  // ---------------------------------------------------------------------
  // Keys

  /** `(a, b, content_key)` of `_base_key`: sorted participants, stripped content. */
  datatype ParticipantsKey = ParticipantsKey(low: string, high: string, content: string)

  function FallbackKey(m: Message): ParticipantsKey {
    ParticipantsKey(StrMin(m.sender, m.recipient), StrMax(m.sender, m.recipient), Strip(m.content))
  }

  /** The key holds the two participants, smaller first. */
  lemma FallbackKeyParticipants(m: Message)
    ensures {FallbackKey(m).low, FallbackKey(m).high} == {m.sender, m.recipient}
    ensures !StrLess(FallbackKey(m).high, FallbackKey(m).low)
  {
    StrLessAsymmetric(m.recipient, m.sender);
  }

  /** The participants key ignores direction: a reply and its echo share it. */
  lemma FallbackKeyIgnoresDirection(m: Message)
    ensures FallbackKey(m.(sender := m.recipient, recipient := m.sender)) == FallbackKey(m)
  {
    SortedPairSymmetric(m.sender, m.recipient);
  }

  /** The sort key `(normalized timestamp, from, to, content)`. */
  function KeyOf(m: Message): SortKey {
    SortKey(Normalize(m.timestamp), m.sender, m.recipient, m.content)
  }

  // ---------------------------------------------------------------------
  // What a reconciled conversation guarantees

  /** Two stored entries that may coexist: id-bearing entries have distinct
      ids; an id-less entry shares its participants key with no other. */
  predicate Apart(a: Message, b: Message) {
    if a.id.Some? && b.id.Some? then a.id != b.id else FallbackKey(a) != FallbackKey(b)
  }

  ghost predicate PairwiseApart(s: seq<Message>) {
    PairwiseBy(Apart, s)
  }

  // ---------------------------------------------------------------------
  // Deduplication

  /** The two dicts built by the first loop of `_dedupe_and_clip`. */
  datatype Groups = Groups(byId: Dict<int, Message>, fallback: Dict<ParticipantsKey, Message>)

  /** `msg = dict(raw); msg["timestamp"] = _normalize_timestamp(...)`. */
  function Renormalized(m: Message): Message {
    m.(timestamp := Normalize(m.timestamp))
  }

  /** The shape the two dicts keep: ids and participants keys match their entries. */
  ghost predicate GroupsWellFormed(g: Groups) {
    && UniqueKeys(g.byId)
    && UniqueKeys(g.fallback)
    && (forall i :: 0 <= i < |g.byId| ==> g.byId[i].1.id == Some(g.byId[i].0))
    && (forall i :: 0 <= i < |g.fallback| ==>
          g.fallback[i].1.id.None? && FallbackKey(g.fallback[i].1) == g.fallback[i].0)
  }

  /** Every entry kept in the dicts is one of the inputs, renormalised. */
  ghost predicate FromInputs(g: Groups, convo: seq<Message>) {
    && (forall e :: e in g.byId ==> e.1 in RenormalizedAll(convo))
    && (forall e :: e in g.fallback ==> e.1 in RenormalizedAll(convo))
  }

  /** The inputs as the first loop sees them. */
  function RenormalizedAll(convo: seq<Message>): (r: seq<Message>)
    ensures |r| == |convo|
  {
    if convo == [] then [] else RenormalizedAll(convo[..|convo| - 1]) + [Renormalized(convo[|convo| - 1])]
  }

  lemma {:induction false} RenormalizedAllAt(convo: seq<Message>, j: nat)
    requires j < |convo|
    ensures RenormalizedAll(convo)[j] == Renormalized(convo[j])
    ensures RenormalizedAll(convo)[j].id == convo[j].id
    decreases |convo|
  {
    if j < |convo| - 1 {
      RenormalizedAllAt(convo[..|convo| - 1], j);
    }
  }

  /** One iteration of the first loop. */
  function Absorb(parse: Parser, g: Groups, msg: Message): Groups {
    match msg.id
    case Some(k) =>
      var prev := Lookup(g.byId, k);
      g.(byId := Assign(g.byId, k, if prev.Some? then Better(parse, prev.value, msg) else msg))
    case None =>
      var key := FallbackKey(msg);
      var prev := Lookup(g.fallback, key);
      g.(fallback := Assign(g.fallback, key, if prev.Some? then Better(parse, prev.value, msg) else msg))
  }

  /** The first loop over the whole conversation. */
  function Collect(parse: Parser, convo: seq<Message>): Groups
    decreases |convo|
  {
    if convo == [] then Groups([], [])
    else Absorb(parse, Collect(parse, convo[..|convo| - 1]), Renormalized(convo[|convo| - 1]))
  }

  /** One step keeps the dicts well formed and adds only the new message. */
  lemma AbsorbFacts(parse: Parser, g: Groups, msg: Message)
    requires GroupsWellFormed(g)
    ensures GroupsWellFormed(Absorb(parse, g, msg))
    ensures forall e :: e in Absorb(parse, g, msg).byId ==> e in g.byId || e.1 == msg
    ensures forall e :: e in Absorb(parse, g, msg).fallback ==> e in g.fallback || e.1 == msg
  {
    var g' := Absorb(parse, g, msg);
    match msg.id
    case Some(k) =>
      var prev := Lookup(g.byId, k);
      var v := if prev.Some? then Better(parse, prev.value, msg) else msg;
      assert v.id == Some(k);
      assert g'.byId == Assign(g.byId, k, v);
      AssignFacts(g.byId, k, v);
      forall i | 0 <= i < |g'.byId| ensures g'.byId[i].1.id == Some(g'.byId[i].0) {
        assert g'.byId[i] in g'.byId;
        if g'.byId[i] != (k, v) {
          var j :| 0 <= j < |g.byId| && g.byId[j] == g'.byId[i];
        }
      }
      forall e | e in g'.byId ensures e in g.byId || e.1 == msg {
        if e == (k, v) && prev.Some? { BetterIsMax(parse, prev.value, msg); }
      }
    case None =>
      var key := FallbackKey(msg);
      var prev := Lookup(g.fallback, key);
      var v := if prev.Some? then Better(parse, prev.value, msg) else msg;
      assert v.id.None? && FallbackKey(v) == key;
      assert g'.fallback == Assign(g.fallback, key, v);
      AssignFacts(g.fallback, key, v);
      forall i | 0 <= i < |g'.fallback|
        ensures g'.fallback[i].1.id.None? && FallbackKey(g'.fallback[i].1) == g'.fallback[i].0
      {
        assert g'.fallback[i] in g'.fallback;
        if g'.fallback[i] != (key, v) {
          var j :| 0 <= j < |g.fallback| && g.fallback[j] == g'.fallback[i];
        }
      }
  }

  /** The dicts are well formed and hold only (renormalised) inputs. */
  lemma {:induction false} CollectFacts(parse: Parser, convo: seq<Message>)
    ensures GroupsWellFormed(Collect(parse, convo))
    ensures FromInputs(Collect(parse, convo), convo)
    decreases |convo|
  {
    if convo != [] {
      var init := convo[..|convo| - 1];
      CollectFacts(parse, init);
      AbsorbFacts(parse, Collect(parse, init), Renormalized(convo[|convo| - 1]));
      FromInputsStep(Collect(parse, init), Collect(parse, convo), convo);
    }
  }

  lemma FromInputsStep(g0: Groups, g: Groups, convo: seq<Message>)
    requires convo != []
    requires FromInputs(g0, convo[..|convo| - 1])
    requires forall e :: e in g.byId ==> e in g0.byId || e.1 == Renormalized(convo[|convo| - 1])
    requires forall e :: e in g.fallback ==> e in g0.fallback || e.1 == Renormalized(convo[|convo| - 1])
    ensures FromInputs(g, convo)
  {
    assert RenormalizedAll(convo) == RenormalizedAll(convo[..|convo| - 1]) + [Renormalized(convo[|convo| - 1])];
  }

  /** The participants keys of a list of messages. */
  function KeysOf(ms: seq<Message>): (ks: seq<ParticipantsKey>)
    ensures |ks| == |ms|
    ensures forall i :: 0 <= i < |ms| ==> ks[i] == FallbackKey(ms[i])
  {
    seq(|ms|, i requires 0 <= i < |ms| => FallbackKey(ms[i]))
  }

  /** The survivors of deduplication, sorted, before clipping. */
  function Survivors(parse: Parser, convo: seq<Message>): seq<Message> {
    var g := Collect(parse, convo);
    var ids := Values(g.byId);
    SortBy(KeyOf, ids + Values(PopAll(g.fallback, KeysOf(ids))))
  }

  /** The start index of Python's slice `s[i:]` on a list of length `n`. */
  function PyStart(i: int, n: nat): (r: nat)
    ensures r <= n
  {
    if i < 0 then (if i + n < 0 then 0 else i + n) else (if i > n then n else i)
  }

  /** `if len(s) > max_buffer: s = s[-max_buffer:]`. */
  function Clip(s: seq<Message>, maxBuffer: int): seq<Message> {
    if |s| > maxBuffer then s[PyStart(-maxBuffer, |s|)..] else s
  }

  /** The list `_dedupe_and_clip` stores for a non-empty conversation. */
  function Reconcile(parse: Parser, maxBuffer: int, convo: seq<Message>): seq<Message> {
    Clip(Survivors(parse, convo), maxBuffer)
  }

  /** What every stored conversation satisfies. */
  ghost predicate Reconciled(maxBuffer: int, s: seq<Message>) {
    PairwiseApart(s) && SortedBy(KeyOf, s) && (maxBuffer >= 1 ==> |s| <= maxBuffer)
  }

  // ---------------------------------------------------------------------
  // Properties of the reconciled list

  lemma ApartSymmetric()
    ensures Symmetric(Apart)
  {
  }

  /** `list(by_id.values()) + list(fallback.values())` after the pops. */
  function MergeOf(g: Groups): seq<Message> {
    var ids := Values(g.byId);
    ids + Values(PopAll(g.fallback, KeysOf(ids)))
  }

  function Merged(parse: Parser, convo: seq<Message>): seq<Message> {
    MergeOf(Collect(parse, convo))
  }

  lemma KeptEntries(g: Groups)
    requires GroupsWellFormed(g)
    ensures forall e :: e in PopAll(g.fallback, KeysOf(Values(g.byId))) ==>
              e in g.fallback && e.1.id.None? && FallbackKey(e.1) == e.0 && e.0 !in KeysOf(Values(g.byId))
    ensures UniqueKeys(PopAll(g.fallback, KeysOf(Values(g.byId))))
  {
    var kept := PopAll(g.fallback, KeysOf(Values(g.byId)));
    PopAllFacts(g.fallback, KeysOf(Values(g.byId)));
    forall e | e in kept ensures e in g.fallback && e.1.id.None? && FallbackKey(e.1) == e.0 {
      assert e in g.fallback;
      var j :| 0 <= j < |g.fallback| && g.fallback[j] == e;
    }
  }

  lemma IdsApart(g: Groups)
    requires GroupsWellFormed(g)
    ensures PairwiseApart(Values(g.byId))
  {
    var ids := Values(g.byId);
    forall i, j | 0 <= i < j < |ids| ensures Apart(ids[i], ids[j]) {
      assert ids[i].id == Some(g.byId[i].0) && ids[j].id == Some(g.byId[j].0);
    }
  }

  lemma KeptApart(g: Groups)
    requires GroupsWellFormed(g)
    ensures PairwiseApart(Values(PopAll(g.fallback, KeysOf(Values(g.byId)))))
  {
    var kept := PopAll(g.fallback, KeysOf(Values(g.byId)));
    KeptEntries(g);
    var vals := Values(kept);
    forall i, j | 0 <= i < j < |vals| ensures Apart(vals[i], vals[j]) {
      assert kept[i] in kept && kept[j] in kept;
      assert kept[i].0 != kept[j].0;
    }
  }

  lemma CrossApart(g: Groups)
    requires GroupsWellFormed(g)
    ensures forall i, j :: 0 <= i < |Values(g.byId)| && 0 <= j < |Values(PopAll(g.fallback, KeysOf(Values(g.byId))))| ==>
              Apart(Values(g.byId)[i], Values(PopAll(g.fallback, KeysOf(Values(g.byId))))[j])
  {
    var ids := Values(g.byId);
    var ks := KeysOf(ids);
    var kept := PopAll(g.fallback, ks);
    KeptEntries(g);
    var vals := Values(kept);
    forall i, j | 0 <= i < |ids| && 0 <= j < |vals| ensures Apart(ids[i], vals[j]) {
      assert kept[j] in kept;
      assert ks[i] == FallbackKey(ids[i]);
      assert FallbackKey(vals[j]) != FallbackKey(ids[i]);
    }
  }

  /** No two merged entries clash. */
  lemma MergeApart(g: Groups)
    requires GroupsWellFormed(g)
    ensures PairwiseApart(MergeOf(g))
  {
    IdsApart(g);
    KeptApart(g);
    CrossApart(g);
    PairwiseConcat(Apart, Values(g.byId), Values(PopAll(g.fallback, KeysOf(Values(g.byId)))));
  }

  /** Every value of a dict belongs to one of its entries. */
  lemma ValueOfEntry<K, V>(d: Dict<K, V>, v: V)
    requires v in Values(d)
    ensures exists e :: e in d && e.1 == v
  {
    var i :| 0 <= i < |d| && Values(d)[i] == v;
    assert d[i] in d;
  }

  /** Every merged entry comes from the dicts. */
  lemma MergeFromGroups(g: Groups, convo: seq<Message>)
    requires FromInputs(g, convo)
    ensures forall m :: m in MergeOf(g) ==> m in RenormalizedAll(convo)
  {
    var ids := Values(g.byId);
    var kept := PopAll(g.fallback, KeysOf(ids));
    PopAllFacts(g.fallback, KeysOf(ids));
    forall m | m in MergeOf(g) ensures m in RenormalizedAll(convo) {
      assert MergeOf(g) == ids + Values(kept);
      if m in ids {
        ValueOfEntry(g.byId, m);
      } else {
        ValueOfEntry(kept, m);
      }
    }
  }

  lemma MergedFacts(parse: Parser, convo: seq<Message>)
    ensures PairwiseApart(Merged(parse, convo))
    ensures forall m :: m in Merged(parse, convo) ==> m in RenormalizedAll(convo)
  {
    CollectFacts(parse, convo);
    MergeApart(Collect(parse, convo));
    MergeFromGroups(Collect(parse, convo), convo);
  }

  /** Python's `s[-m:]` when `len(s) > m`: the last `m` entries for `m >= 1`,
      everything for `m == 0` (as `[-0:]` is `[0:]`), and all but the first
      `-m` for negative `m`. */
  lemma ClipFacts(s: seq<Message>, maxBuffer: int)
    ensures |s| <= maxBuffer ==> Clip(s, maxBuffer) == s
    ensures 1 <= maxBuffer < |s| ==> Clip(s, maxBuffer) == s[|s| - maxBuffer..] && |Clip(s, maxBuffer)| == maxBuffer
    ensures maxBuffer == 0 ==> Clip(s, maxBuffer) == s
    ensures maxBuffer < 0 ==> Clip(s, maxBuffer) == s[if -maxBuffer < |s| then -maxBuffer else |s|..]
  {
  }

  /** A reconciled conversation has distinct ids, at most one id-less entry
      per participants key and none sharing its key with an id-bearing
      entry, is sorted by `(normalized timestamp, from, to, content)` and,
      when `max_buffer >= 1`, holds at most `max_buffer` entries. */
  lemma ReconcileWellFormed(parse: Parser, maxBuffer: int, convo: seq<Message>)
    ensures Reconciled(maxBuffer, Reconcile(parse, maxBuffer, convo))
  {
    var t := Merged(parse, convo);
    MergedFacts(parse, convo);
    ApartSymmetric();
    SortPairwise(KeyOf, Apart, t);
    SortSorted(KeyOf, t);
    var sv := Survivors(parse, convo);
    assert sv == SortBy(KeyOf, t);
    var start := if |sv| > maxBuffer then PyStart(-maxBuffer, |sv|) else 0;
    assert Reconcile(parse, maxBuffer, convo) == sv[start..];
    PairwiseSuffix(Apart, sv, start);
    SortedSuffix(KeyOf, sv, start);
  }

  /** Deduplication invents nothing: every stored entry is an input entry
      with its timestamp normalised once more. */
  lemma ReconcileFromInputs(parse: Parser, maxBuffer: int, convo: seq<Message>)
    ensures forall m :: m in Reconcile(parse, maxBuffer, convo) ==> m in RenormalizedAll(convo)
  {
    MergedFacts(parse, convo);
    ReconcileInMerged(parse, maxBuffer, convo);
  }

  // ---------------------------------------------------------------------
  // Which copy of an id survives

  /** `m` is the entry with id `k` that `better` keeps among `ins`: no
      copy outranks it, and every earlier copy ranks strictly below it. */
  ghost predicate BestIn(parse: Parser, ins: seq<Message>, k: int, m: Message) {
    exists j :: 0 <= j < |ins| && ins[j] == m && m.id == Some(k) &&
      (forall i :: 0 <= i < j && ins[i].id == Some(k) ==> RankLess(parse, ins[i], m)) &&
      (forall i :: 0 <= i < |ins| && ins[i].id == Some(k) ==> !RankLess(parse, m, ins[i]))
  }

  lemma BestStep(parse: Parser, ins: seq<Message>, msg: Message, k: int, prev: Option<Message>)
    requires msg.id == Some(k)
    requires prev.Some? ==> BestIn(parse, ins, k, prev.value)
    requires prev.None? ==> forall i :: 0 <= i < |ins| ==> ins[i].id != Some(k)
    ensures BestIn(parse, ins + [msg], k, if prev.Some? then Better(parse, prev.value, msg) else msg)
  {
    var ins' := ins + [msg];
    var n := |ins|;
    assert ins'[n] == msg;
    assert forall i :: 0 <= i < n ==> ins'[i] == ins[i];
    RankLessIrreflexive(parse, msg);
    if prev.None? {
      assert BestIn(parse, ins', k, msg);
    } else {
      var p := prev.value;
      var j :| 0 <= j < |ins| && ins[j] == p && p.id == Some(k) &&
        (forall i :: 0 <= i < j && ins[i].id == Some(k) ==> RankLess(parse, ins[i], p)) &&
        (forall i :: 0 <= i < |ins| && ins[i].id == Some(k) ==> !RankLess(parse, p, ins[i]));
      BetterIsMax(parse, p, msg);
      if RankLess(parse, p, msg) {
        forall i | 0 <= i < n && ins'[i].id == Some(k) ensures RankLess(parse, ins'[i], msg) {
          RankLeLess(parse, ins[i], p, msg);
        }
        forall i | 0 <= i < n + 1 && ins'[i].id == Some(k) ensures !RankLess(parse, msg, ins'[i]) {
          if i < n { RankLessAsymmetric(parse, ins'[i], msg); }
        }
        assert BestIn(parse, ins', k, msg) by {
          assert ins'[n] == msg;
        }
      } else {
        assert ins'[j] == p;
        assert BestIn(parse, ins', k, p);
      }
    }
  }

  lemma BestKeep(parse: Parser, ins: seq<Message>, msg: Message, k: int, m: Message)
    requires msg.id != Some(k)
    requires BestIn(parse, ins, k, m)
    ensures BestIn(parse, ins + [msg], k, m)
  {
    var ins' := ins + [msg];
    var j :| 0 <= j < |ins| && ins[j] == m && m.id == Some(k) &&
      (forall i :: 0 <= i < j && ins[i].id == Some(k) ==> RankLess(parse, ins[i], m)) &&
      (forall i :: 0 <= i < |ins| && ins[i].id == Some(k) ==> !RankLess(parse, m, ins[i]));
    assert forall i :: 0 <= i < |ins| ==> ins'[i] == ins[i];
    assert ins'[j] == m;
  }

  /** The dict entry for `k` is present exactly for the ids seen, and is the kept copy. */
  ghost predicate TracksBest(parse: Parser, byId: Dict<int, Message>, ins: seq<Message>, k: int) {
    && (Lookup(byId, k).Some? <==> exists j :: 0 <= j < |ins| && ins[j].id == Some(k))
    && (Lookup(byId, k).Some? ==> BestIn(parse, ins, k, Lookup(byId, k).value))
  }

  lemma AbsorbBest(parse: Parser, g: Groups, msg: Message, ins: seq<Message>, k: int)
    requires GroupsWellFormed(g)
    requires TracksBest(parse, g.byId, ins, k)
    ensures TracksBest(parse, Absorb(parse, g, msg).byId, ins + [msg], k)
  {
    var ins' := ins + [msg];
    assert forall j :: 0 <= j < |ins| ==> ins'[j] == ins[j];
    assert ins'[|ins|] == msg;
    var prev := Lookup(g.byId, k);
    if msg.id == Some(k) {
      var v := if prev.Some? then Better(parse, prev.value, msg) else msg;
      LookupAssignSame(g.byId, k, v);
      BestStep(parse, ins, msg, k, prev);
    } else {
      if msg.id.Some? {
        var k' := msg.id.value;
        var prev' := Lookup(g.byId, k');
        LookupAssignOther(g.byId, k', if prev'.Some? then Better(parse, prev'.value, msg) else msg, k);
      }
      assert Lookup(Absorb(parse, g, msg).byId, k) == prev;
      if prev.Some? { BestKeep(parse, ins, msg, k, prev.value); }
    }
  }

  /** After the first loop the dict entry for id `k` exists exactly when
      some input carries `k`, and it is the copy `better` keeps. */
  lemma {:induction false} CollectBest(parse: Parser, convo: seq<Message>, k: int)
    ensures TracksBest(parse, Collect(parse, convo).byId, RenormalizedAll(convo), k)
    decreases |convo|
  {
    if convo != [] {
      var n := |convo| - 1;
      CollectBest(parse, convo[..n], k);
      CollectFacts(parse, convo[..n]);
      AbsorbBest(parse, Collect(parse, convo[..n]), Renormalized(convo[n]), RenormalizedAll(convo[..n]), k);
    }
  }

  /** A merged entry with an id is the dict entry for that id. */
  lemma MergedIdEntry(g: Groups, m: Message, k: int)
    requires GroupsWellFormed(g)
    requires m in MergeOf(g) && m.id == Some(k)
    ensures Lookup(g.byId, k) == Some(m)
  {
    var ids := Values(g.byId);
    var kept := PopAll(g.fallback, KeysOf(ids));
    KeptEntries(g);
    assert MergeOf(g) == ids + Values(kept);
    if m in ids {
      ValueOfEntry(g.byId, m);
      var e :| e in g.byId && e.1 == m;
      var x :| 0 <= x < |g.byId| && g.byId[x] == e;
    } else {
      ValueOfEntry(kept, m);
    }
  }

  /** Everything stored was merged. */
  lemma ReconcileInMerged(parse: Parser, maxBuffer: int, convo: seq<Message>)
    ensures forall m :: m in Reconcile(parse, maxBuffer, convo) ==> m in Merged(parse, convo)
  {
    var t := Merged(parse, convo);
    var sv := Survivors(parse, convo);
    assert sv == SortBy(KeyOf, t);
    SortPermutes(KeyOf, t);
    var start := if |sv| > maxBuffer then PyStart(-maxBuffer, |sv|) else 0;
    assert Reconcile(parse, maxBuffer, convo) == sv[start..];
    forall m | m in Reconcile(parse, maxBuffer, convo) ensures m in t {
      assert m in multiset(sv);
    }
  }

  /** Deduplication keeps, for each id, the copy `better` prefers: no copy
      of that id outranks it (so an empty or unparseable timestamp, scored
      +inf, beats every parseable one) and every earlier copy ranks below it. */
  lemma ReconcileKeepsBest(parse: Parser, maxBuffer: int, convo: seq<Message>)
    ensures forall i, k ::
              0 <= i < |Reconcile(parse, maxBuffer, convo)| && Reconcile(parse, maxBuffer, convo)[i].id == Some(k) ==>
              BestIn(parse, RenormalizedAll(convo), k, Reconcile(parse, maxBuffer, convo)[i])
  {
    var r := Reconcile(parse, maxBuffer, convo);
    CollectFacts(parse, convo);
    ReconcileInMerged(parse, maxBuffer, convo);
    forall i, k | 0 <= i < |r| && r[i].id == Some(k) ensures BestIn(parse, RenormalizedAll(convo), k, r[i]) {
      assert r[i] in r;
      MergedIdEntry(Collect(parse, convo), r[i], k);
      CollectBest(parse, convo, k);
    }
  }

  /** Before clipping, no id is lost: every input id has a survivor. */
  lemma SurvivorsKeepIds(parse: Parser, convo: seq<Message>)
    ensures forall j :: 0 <= j < |convo| && convo[j].id.Some? ==>
              exists i :: 0 <= i < |Survivors(parse, convo)| && Survivors(parse, convo)[i].id == convo[j].id
  {
    var g := Collect(parse, convo);
    CollectFacts(parse, convo);
    var ids := Values(g.byId);
    var t := Merged(parse, convo);
    var sv := Survivors(parse, convo);
    assert sv == SortBy(KeyOf, t);
    SortPermutes(KeyOf, t);
    forall j | 0 <= j < |convo| && convo[j].id.Some?
      ensures exists i :: 0 <= i < |sv| && sv[i].id == convo[j].id
    {
      var k := convo[j].id.value;
      CollectBest(parse, convo, k);
      RenormalizedAllAt(convo, j);
      var m := Lookup(g.byId, k).value;
      assert (k, m) in g.byId;
      var x :| 0 <= x < |g.byId| && g.byId[x] == (k, m);
      assert ids[x] == m && m.id == Some(k);
      assert t[x] == m;
      assert m in multiset(sv);
      var i :| 0 <= i < |sv| && sv[i] == m;
    }
  }

  // ---------------------------------------------------------------------
  // Reconciling a stored conversation again

  /** A message filed under `by_id` rather than `fallback`. */
  predicate HasId(m: Message) {
    m.id.Some?
  }

  /** Every timestamp is a fixed point of normalisation (see NormalizeFixedPoint). */
  ghost predicate NormalStamps(s: seq<Message>) {
    forall i :: 0 <= i < |s| ==> Normalize(s[i].timestamp) == s[i].timestamp
  }

  /** The `by_id` dict the first loop builds from a list without clashes. */
  function IdPairs(s: seq<Message>): Dict<int, Message>
    decreases |s|
  {
    if s == [] then []
    else IdPairs(s[..|s| - 1]) + (if HasId(s[|s| - 1]) then [(s[|s| - 1].id.value, s[|s| - 1])] else [])
  }

  /** The `fallback` dict the first loop builds from a list without clashes. */
  function FallbackPairs(s: seq<Message>): Dict<ParticipantsKey, Message>
    decreases |s|
  {
    if s == [] then []
    else FallbackPairs(s[..|s| - 1]) + (if HasId(s[|s| - 1]) then [] else [(FallbackKey(s[|s| - 1]), s[|s| - 1])])
  }

  /** Every key of `by_id` is the id of some message. */
  lemma {:induction false} IdPairsKeys(s: seq<Message>)
    ensures forall k :: HasKey(IdPairs(s), k) ==> exists i :: 0 <= i < |s| && s[i].id == Some(k)
    decreases |s|
  {
    if s != [] {
      var n := |s| - 1;
      IdPairsKeys(s[..n]);
      var d := IdPairs(s[..n]);
      var e: Dict<int, Message> := if HasId(s[n]) then [(s[n].id.value, s[n])] else [];
      assert IdPairs(s) == d + e;
      forall k | HasKey(d + e, k) ensures exists i :: 0 <= i < |s| && s[i].id == Some(k) {
        var j :| 0 <= j < |d + e| && (d + e)[j].0 == k;
        if j < |d| {
          assert HasKey(d, k);
          var i :| 0 <= i < n && s[..n][i].id == Some(k);
          assert s[i].id == Some(k);
        } else {
          assert s[n].id == Some(k);
        }
      }
    }
  }

  /** The entries of `by_id` are the messages with an id, in order. */
  lemma {:induction false} IdPairsValues(s: seq<Message>)
    ensures Values(IdPairs(s)) == Select(HasId, true, s)
    decreases |s|
  {
    if s != [] {
      var n := |s| - 1;
      IdPairsValues(s[..n]);
      assert s == s[..n] + [s[n]];
      SelectSnoc(HasId, true, s[..n], s[n]);
      var d := IdPairs(s[..n]);
      var e: Dict<int, Message> := if HasId(s[n]) then [(s[n].id.value, s[n])] else [];
      assert Values(d + e) == Values(d) + Values(e);
    }
  }

  lemma IdPairsFacts(s: seq<Message>)
    ensures forall k :: HasKey(IdPairs(s), k) ==> exists i :: 0 <= i < |s| && s[i].id == Some(k)
    ensures Values(IdPairs(s)) == Select(HasId, true, s)
  {
    IdPairsKeys(s);
    IdPairsValues(s);
  }

  /** Every key of `fallback` is the participants key of some id-less message. */
  lemma {:induction false} FallbackPairsKeys(s: seq<Message>)
    ensures forall k :: HasKey(FallbackPairs(s), k) ==> exists i :: 0 <= i < |s| && !HasId(s[i]) && FallbackKey(s[i]) == k
    decreases |s|
  {
    if s != [] {
      var n := |s| - 1;
      FallbackPairsKeys(s[..n]);
      var d := FallbackPairs(s[..n]);
      var e: Dict<ParticipantsKey, Message> := if HasId(s[n]) then [] else [(FallbackKey(s[n]), s[n])];
      assert FallbackPairs(s) == d + e;
      forall k | HasKey(d + e, k) ensures exists i :: 0 <= i < |s| && !HasId(s[i]) && FallbackKey(s[i]) == k {
        var j :| 0 <= j < |d + e| && (d + e)[j].0 == k;
        if j < |d| {
          assert HasKey(d, k);
          var i :| 0 <= i < n && !HasId(s[..n][i]) && FallbackKey(s[..n][i]) == k;
          assert s[i] == s[..n][i];
        } else {
          assert !HasId(s[n]) && FallbackKey(s[n]) == k;
        }
      }
    }
  }

  /** The entries of `fallback` are the messages without an id, in order. */
  lemma {:induction false} FallbackPairsValues(s: seq<Message>)
    ensures Values(FallbackPairs(s)) == Select(HasId, false, s)
    decreases |s|
  {
    if s != [] {
      var n := |s| - 1;
      FallbackPairsValues(s[..n]);
      assert s == s[..n] + [s[n]];
      SelectSnoc(HasId, false, s[..n], s[n]);
      var d := FallbackPairs(s[..n]);
      var e: Dict<ParticipantsKey, Message> := if HasId(s[n]) then [] else [(FallbackKey(s[n]), s[n])];
      assert Values(d + e) == Values(d) + Values(e);
    }
  }

  lemma FallbackPairsFacts(s: seq<Message>)
    ensures forall k :: HasKey(FallbackPairs(s), k) ==> exists i :: 0 <= i < |s| && !HasId(s[i]) && FallbackKey(s[i]) == k
    ensures Values(FallbackPairs(s)) == Select(HasId, false, s)
  {
    FallbackPairsKeys(s);
    FallbackPairsValues(s);
  }

  /** A message with an id not seen before is appended to `by_id`. */
  lemma AbsorbNewId(parse: Parser, g: Groups, m: Message)
    requires m.id.Some? && !HasKey(g.byId, m.id.value)
    ensures Absorb(parse, g, m) == Groups(g.byId + [(m.id.value, m)], g.fallback)
  {
  }

  /** An id-less message with a participants key not seen before is appended to `fallback`. */
  lemma AbsorbNewKey(parse: Parser, g: Groups, m: Message)
    requires m.id.None? && !HasKey(g.fallback, FallbackKey(m))
    ensures Absorb(parse, g, m) == Groups(g.byId, g.fallback + [(FallbackKey(m), m)])
  {
  }

  /** The last message of a list without clashes is apart from every earlier one. */
  lemma LastApart(s: seq<Message>)
    requires s != [] && PairwiseApart(s)
    ensures forall i :: 0 <= i < |s| - 1 ==> Apart(s[i], s[|s| - 1])
  {
  }

  /** An id no message carries is not a key of `by_id`. */
  lemma IdAbsent(s: seq<Message>, k: int)
    requires forall i :: 0 <= i < |s| ==> s[i].id != Some(k)
    ensures !HasKey(IdPairs(s), k)
  {
    IdPairsFacts(s);
  }

  /** A participants key no id-less message has is not a key of `fallback`. */
  lemma FallbackAbsent(s: seq<Message>, key: ParticipantsKey)
    requires forall i :: 0 <= i < |s| && !HasId(s[i]) ==> FallbackKey(s[i]) != key
    ensures !HasKey(FallbackPairs(s), key)
  {
    FallbackPairsFacts(s);
  }

  /** The last message of a stored list clashes with no earlier one, so
      the first loop files it under a key not seen before. */
  lemma {:induction false} CollectStoredStep(parse: Parser, s: seq<Message>)
    requires s != [] && PairwiseApart(s) && Normalize(s[|s| - 1].timestamp) == s[|s| - 1].timestamp
    requires Collect(parse, s[..|s| - 1]) == Groups(IdPairs(s[..|s| - 1]), FallbackPairs(s[..|s| - 1]))
    ensures Collect(parse, s) == Groups(IdPairs(s), FallbackPairs(s))
  {
    var n := |s| - 1;
    var m := s[n];
    var init := s[..n];
    assert Renormalized(m) == m;
    var g := Collect(parse, init);
    assert Collect(parse, s) == Absorb(parse, g, m);
    LastApart(s);
    if HasId(m) {
      IdAbsent(init, m.id.value);
      AbsorbNewId(parse, g, m);
    } else {
      FallbackAbsent(init, FallbackKey(m));
      AbsorbNewKey(parse, g, m);
    }
  }

  /** On a list without clashes and with normal timestamps, the first loop
      files every message once, in order. */
  lemma {:induction false} CollectStored(parse: Parser, s: seq<Message>)
    requires PairwiseApart(s) && NormalStamps(s)
    ensures Collect(parse, s) == Groups(IdPairs(s), FallbackPairs(s))
    decreases |s|
  {
    if s != [] {
      var n := |s| - 1;
      assert PairwiseApart(s[..n]) by {
        forall i, j | 0 <= i < j < n ensures Apart(s[..n][i], s[..n][j]) {
          assert s[..n][i] == s[i] && s[..n][j] == s[j];
        }
      }
      assert NormalStamps(s[..n]) by {
        forall i | 0 <= i < n ensures Normalize(s[..n][i].timestamp) == s[..n][i].timestamp {
          assert s[..n][i] == s[i];
        }
      }
      CollectStored(parse, s[..n]);
      CollectStoredStep(parse, s);
    }
  }

  /** No id-less message of a list without clashes shares its participants
      key with an id-bearing one, so the second loop pops nothing. */
  lemma MergeStored(s: seq<Message>)
    requires PairwiseApart(s)
    ensures MergeOf(Groups(IdPairs(s), FallbackPairs(s))) == Select(HasId, true, s) + Select(HasId, false, s)
  {
    var ids := Values(IdPairs(s));
    var ks := KeysOf(ids);
    IdPairsFacts(s);
    FallbackPairsFacts(s);
    SelectElements(HasId, true, s);
    forall i | 0 <= i < |ks| ensures !HasKey(FallbackPairs(s), ks[i]) {
      assert ids[i] in s;
      var a :| 0 <= a < |s| && s[a] == ids[i];
      forall j | 0 <= j < |s| && !HasId(s[j]) ensures FallbackKey(s[j]) != ks[i] {
        if a < j { assert Apart(s[a], s[j]); } else { assert Apart(s[j], s[a]); }
      }
    }
    PopAllAbsent(FallbackPairs(s), ks);
  }

  /** Sorting a list without clashes by key never ties an id-bearing
      message with an id-less one: equal keys mean equal participants keys. */
  lemma StoredPartsApart(s: seq<Message>)
    requires PairwiseApart(s) && SortedBy(KeyOf, s)
    ensures PartsApart(KeyOf, HasId, s)
  {
    forall i, j | 0 <= i < j < |s| && HasId(s[i]) != HasId(s[j]) ensures KeyLess(KeyOf(s[i]), KeyOf(s[j])) {
      assert Apart(s[i], s[j]);
      assert KeyOf(s[i]) != KeyOf(s[j]);
      KeyLessTotal(KeyOf(s[i]), KeyOf(s[j]));
    }
  }

  /** A reconciled conversation whose timestamps are normal is left as it
      is by another reconciliation, for any non-negative bound. */
  lemma ReconcileStable(parse: Parser, maxBuffer: int, s: seq<Message>)
    requires maxBuffer >= 0 && Reconciled(maxBuffer, s) && NormalStamps(s)
    ensures Reconcile(parse, maxBuffer, s) == s
  {
    CollectStored(parse, s);
    MergeStored(s);
    StoredPartsApart(s);
    SortSplit(KeyOf, HasId, s);
    assert Survivors(parse, s) == s;
    ClipFacts(s, maxBuffer);
  }

  /** `_dedupe_and_clip` is idempotent once the timestamps it stores are
      normal: reconciling the stored list again changes nothing. */
  lemma ReconcileIdempotent(parse: Parser, maxBuffer: int, convo: seq<Message>)
    requires maxBuffer >= 0 && NormalStamps(Reconcile(parse, maxBuffer, convo))
    ensures Reconcile(parse, maxBuffer, Reconcile(parse, maxBuffer, convo)) == Reconcile(parse, maxBuffer, convo)
  {
    ReconcileWellFormed(parse, maxBuffer, convo);
    ReconcileStable(parse, maxBuffer, Reconcile(parse, maxBuffer, convo));
  }

  /** Two entries with distinct ids and one sort key survive in the order given. */
  lemma TiedPairSurvives(parse: Parser, a: Message, b: Message)
    requires a.id.Some? && b.id.Some? && a.id != b.id && KeyOf(a) == KeyOf(b)
    requires Normalize(a.timestamp) == a.timestamp && Normalize(b.timestamp) == b.timestamp
    ensures Survivors(parse, [a, b]) == [a, b]
  {
    KeyLessAsymmetric(KeyOf(a), KeyOf(a));
    assert Reconciled(0, [a, b]);
    ReconcileStable(parse, 0, [a, b]);
    ClipFacts(Survivors(parse, [a, b]), 0);
  }

  /** An entry met again, with its id already filed under it, changes nothing. */
  lemma AbsorbSeen(parse: Parser, g: Groups, m: Message, i: nat)
    requires m.id.Some? && UniqueKeys(g.byId) && i < |g.byId| && g.byId[i] == (m.id.value, m)
    ensures Absorb(parse, g, m) == g
  {
    assert Lookup(g.byId, m.id.value) == Some(m);
    assert HasKey(g.byId, m.id.value);
    var j := IndexOf(g.byId, m.id.value).value;
    assert j == i;
    assert g.byId[j := (m.id.value, m)] == g.byId;
  }

  /** The first loop files a message with a normal timestamp as it is. */
  lemma CollectNormal(parse: Parser, s: seq<Message>)
    requires s != [] && Normalize(s[|s| - 1].timestamp) == s[|s| - 1].timestamp
    ensures Collect(parse, s) == Absorb(parse, Collect(parse, s[..|s| - 1]), s[|s| - 1])
  {
    assert Renormalized(s[|s| - 1]) == s[|s| - 1];
  }

  /** A normal entry with an id is filed under it. */
  lemma SingleCollects(parse: Parser, a: Message)
    requires a.id.Some? && Normalize(a.timestamp) == a.timestamp
    ensures Collect(parse, [a]) == Groups([(a.id.value, a)], [])
  {
    assert [a][..0] == [];
    CollectNormal(parse, [a]);
    AbsorbNewId(parse, Groups([], []), a);
  }

  /** Two normal entries with distinct ids are filed under their ids, in order. */
  lemma PairCollects(parse: Parser, a: Message, b: Message)
    requires a.id.Some? && b.id.Some? && a.id != b.id
    requires Normalize(a.timestamp) == a.timestamp && Normalize(b.timestamp) == b.timestamp
    ensures Collect(parse, [a, b]) == Groups([(a.id.value, a), (b.id.value, b)], [])
  {
    assert [a, b][..1] == [a];
    SingleCollects(parse, a);
    assert !HasKey([(a.id.value, a)], b.id.value);
    CollectNormal(parse, [a, b]);
    AbsorbNewId(parse, Groups([(a.id.value, a)], []), b);
  }

  /** Repeating the first entry of such a pair changes nothing in the first loop. */
  lemma RepeatFirstCollects(parse: Parser, a: Message, b: Message)
    requires a.id.Some? && b.id.Some? && a.id != b.id
    requires Normalize(a.timestamp) == a.timestamp && Normalize(b.timestamp) == b.timestamp
    ensures Collect(parse, [a, b, a]) == Collect(parse, [a, b])
  {
    assert [a, b, a][..2] == [a, b];
    CollectNormal(parse, [a, b, a]);
    PairCollects(parse, a, b);
    AbsorbSeen(parse, Collect(parse, [a, b]), a, 0);
  }

  /** Two entries with distinct ids and one sort key, and a buffer of one:
      reconciling keeps only the later entry. */
  lemma TiedPairClips(parse: Parser, d: Message, r: Message)
    requires d.id.Some? && r.id.Some? && d.id != r.id && KeyOf(d) == KeyOf(r)
    requires Normalize(d.timestamp) == d.timestamp && Normalize(r.timestamp) == r.timestamp
    ensures Reconcile(parse, 1, [d, r]) == [r]
  {
    TiedPairSurvives(parse, d, r);
    ClipFacts([d, r], 1);
  }

  /** The same pair after the later entry: the repeat is absorbed and the
      earlier entry of the pair is now the last one kept. */
  lemma TiedPairAgain(parse: Parser, d: Message, r: Message)
    requires d.id.Some? && r.id.Some? && d.id != r.id && KeyOf(d) == KeyOf(r)
    requires Normalize(d.timestamp) == d.timestamp && Normalize(r.timestamp) == r.timestamp
    ensures Reconcile(parse, 1, [r, d, r]) == [d]
  {
    TiedPairSurvives(parse, r, d);
    RepeatFirstCollects(parse, r, d);
    assert Survivors(parse, [r, d, r]) == [r, d];
    ClipFacts([r, d], 1);
  }

  /** Two history entries with distinct ids and one sort key, and a buffer of
      one: the first reconcile keeps the later entry, and reconciling the
      stored entry with the same two entries again keeps the earlier one. */
  lemma MergeTwiceCanDiffer(parse: Parser, d: Message, r: Message)
    requires d.id.Some? && r.id.Some? && d.id != r.id && KeyOf(d) == KeyOf(r)
    requires Normalize(d.timestamp) == d.timestamp && Normalize(r.timestamp) == r.timestamp
    ensures Reconcile(parse, 1, [d, r]) == [r]
    ensures Reconcile(parse, 1, Reconcile(parse, 1, [d, r]) + [d, r]) == [d]
  {
    TiedPairClips(parse, d, r);
    TiedPairAgain(parse, d, r);
    assert [r] + [d, r] == [r, d, r];
  }
}
