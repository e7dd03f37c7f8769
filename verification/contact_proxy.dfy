/** `ContactProxyModel` (src/model/ContactProxyModel.h and .cpp): the
    filtered, sorted view of the roster.  Both hooks only read the source
    model, so they are functions over `ContactListModel`. */
module ContactProxy {
  import opened Wrappers
  import opened Text
  import opened ItemModel
  import opened ContactList

  /** `QDateTime::fromString(ts, Qt::ISODate)` followed by
      `toMSecsSinceEpoch()`: `None` for an invalid date-time.  Date parsing
      is library code and is given. */
  type TimestampParser = string -> Option<int>

  /** `parseTsMs(ts)`: milliseconds since the epoch, 0 when unparseable. */
  function ParseTsMs(parse: TimestampParser, ts: string): (ms: int)
    ensures parse(ts).Some? ==> ms == parse(ts).value
    ensures parse(ts).None? ==> ms == 0
  {
    match parse(ts)
    case Some(v) => v
    case None => 0
  }

  /** `filterAcceptsRow(r, parent)`: the trimmed filter decides whether
      filtering happens at all, the untrimmed one is searched for in the
      username and the preview, ignoring case. */
  function FilterAcceptsRow(filterText: string, source: ContactListModel, r: nat): bool
    reads source
    requires r < |source.contacts|
  {
    if Strip(filterText) == [] then true
    else
      var user := ToStr(source.Data(Some(r), UsernameRole));
      var last := ToStr(source.Data(Some(r), LastMessageRole));
      ContainsFolded(user, filterText) || ContainsFolded(last, filterText)
  }

  /** A filter of nothing but whitespace accepts every row. */
  lemma BlankFilterAcceptsAll(filterText: string, source: ContactListModel, r: nat)
    requires r < |source.contacts|
    requires forall k :: 0 <= k < |filterText| ==> IsSpace(filterText[k])
    ensures FilterAcceptsRow(filterText, source, r)
  {
    AllSpaceTrimsAway(filterText);
  }

  lemma {:induction false} AllSpaceTrimsAway(s: string)
    requires forall k :: 0 <= k < |s| ==> IsSpace(s[k])
    ensures TrimLeft(s) == []
  {
    if s != [] {
      assert forall k :: 0 <= k < |s| - 1 ==> s[1..][k] == s[k + 1];
      AllSpaceTrimsAway(s[1..]);
    }
  }

  /** Otherwise a row is shown exactly when its username or its last
      message contains the filter text as typed, case-insensitively. */
  lemma FilterMatchesNameOrPreview(filterText: string, source: ContactListModel, r: nat)
    requires r < |source.contacts|
    requires Strip(filterText) != []
    ensures FilterAcceptsRow(filterText, source, r) <==>
      ContainsFolded(source.contacts[r].username, filterText) || ContainsFolded(source.contacts[r].lastMessage, filterText)
  {
  }

  /** The order `lessThan` sorts by, on the contacts themselves: newest
      preview first, unparseable timestamps as 0, ties by username. */
  predicate Before(parse: TimestampParser, a: Contact, b: Contact) {
    var am := ParseTsMs(parse, a.lastTimestamp);
    var bm := ParseTsMs(parse, b.lastTimestamp);
    if am != bm then am > bm else StrLess(a.username, b.username)
  }

  /** `lessThan(l, r)`, reading the rows back through `data`. */
  predicate LessThan(parse: TimestampParser, source: ContactListModel, l: nat, r: nat)
    reads source
    requires l < |source.contacts| && r < |source.contacts|
  {
    var lts := ToStr(source.Data(Some(l), LastTimestampRole));
    var rts := ToStr(source.Data(Some(r), LastTimestampRole));
    var lm := ParseTsMs(parse, lts);
    var rm := ParseTsMs(parse, rts);
    if lm != rm then lm > rm
    else
      var lu := ToStr(source.Data(Some(l), UsernameRole));
      var ru := ToStr(source.Data(Some(r), UsernameRole));
      StrLess(lu, ru)
  }

  /** `lessThan` compares exactly the rows' contacts by `Before`. */
  lemma LessThanIsBefore(parse: TimestampParser, source: ContactListModel, l: nat, r: nat)
    requires l < |source.contacts| && r < |source.contacts|
    ensures LessThan(parse, source, l, r) <==> Before(parse, source.contacts[l], source.contacts[r])
  {
  }

  /** Newest first: a later parsed timestamp sorts earlier, and an
      unparseable one sorts as the epoch. */
  lemma NewestFirst(parse: TimestampParser, a: Contact, b: Contact)
    ensures ParseTsMs(parse, a.lastTimestamp) > ParseTsMs(parse, b.lastTimestamp) ==> Before(parse, a, b) && !Before(parse, b, a)
    ensures parse(a.lastTimestamp).None? && parse(b.lastTimestamp).Some? && parse(b.lastTimestamp).value < 0 ==> Before(parse, a, b)
  {
  }

  /** Equal timestamps fall back to the usernames in ascending order. */
  lemma TiesByUsername(parse: TimestampParser, a: Contact, b: Contact)
    requires ParseTsMs(parse, a.lastTimestamp) == ParseTsMs(parse, b.lastTimestamp)
    ensures Before(parse, a, b) <==> StrLess(a.username, b.username)
  {
  }

  /** `Before` is a strict order, as a sort requires: irreflexive,
      asymmetric and transitive, and any two contacts with different
      usernames are comparable. */
  lemma BeforeIsStrictOrder(parse: TimestampParser, a: Contact, b: Contact, c: Contact)
    ensures !Before(parse, a, a)
    ensures Before(parse, a, b) ==> !Before(parse, b, a)
    ensures Before(parse, a, b) && Before(parse, b, c) ==> Before(parse, a, c)
    ensures a.username != b.username ==> Before(parse, a, b) || Before(parse, b, a)
  {
    StrLessIrreflexive(a.username);
    StrLessAsymmetric(a.username, b.username);
    if Before(parse, a, b) && Before(parse, b, c) {
      var am := ParseTsMs(parse, a.lastTimestamp);
      var bm := ParseTsMs(parse, b.lastTimestamp);
      var cm := ParseTsMs(parse, c.lastTimestamp);
      if am == bm && bm == cm {
        StrLessTransitive(a.username, b.username, c.username);
      }
    }
    StrLessTotal(a.username, b.username);
  }
}
