/** `ContactListModel` (src/model/ContactListModel.h and .cpp): the Qt
    client's roster.  It is a list of `Contact` records that the controller
    updates in place: unread counters, the last-message preview and the
    online flags merged from each user-list snapshot.  Every mutator is
    proved to leave exactly the list a specification function describes,
    and the properties of those functions are lemmas. */
module ContactList {
  import opened Wrappers
  import opened ItemModel

  /** `struct Contact`; a default-constructed one is offline with no
      unread messages. */
  datatype Contact = Contact(username: string, online: bool, unread: int, lastMessage: string, lastTimestamp: string)

  /** The roles `data` answers, numbered from `Qt::UserRole + 1`. */
  const UsernameRole: int := UserRole + 1
  const OnlineRole: int := UserRole + 2
  const UnreadRole: int := UserRole + 3
  const LastMessageRole: int := UserRole + 4
  const LastTimestampRole: int := UserRole + 5

  // ---------------------------------------------------------------------
  // The first contact with a username

  /** The index the `for (i = 0; ...) if (c.username == user)` loops stop
      at: the first contact with that name, if any. */
  function FirstIndex(cs: seq<Contact>, user: string): (r: Option<nat>)
    ensures r.Some? ==> r.value < |cs| && cs[r.value].username == user
    ensures r.Some? ==> forall j :: 0 <= j < r.value ==> cs[j].username != user
    ensures r.None? ==> forall j :: 0 <= j < |cs| ==> cs[j].username != user
  {
    if cs == [] then None
    else if cs[0].username == user then Some(0)
    else match FirstIndex(cs[1..], user)
      case None => None
      case Some(i) => Some(i + 1)
  }

  /** `unreadCount(user)`: the first match's counter, 0 when absent. */
  function UnreadOf(cs: seq<Contact>, user: string): int {
    match FirstIndex(cs, user)
    case Some(i) => cs[i].unread
    case None => 0
  }

  /** The usernames in list order. */
  function Names(cs: seq<Contact>): (r: seq<string>)
    ensures |r| == |cs|
    ensures forall i :: 0 <= i < |cs| ==> r[i] == cs[i].username
  {
    seq(|cs|, i requires 0 <= i < |cs| => cs[i].username)
  }

  /** The list after `incrementUnread(user)`. */
  function Bumped(cs: seq<Contact>, user: string): seq<Contact> {
    match FirstIndex(cs, user)
    case Some(i) => cs[i := cs[i].(unread := cs[i].unread + 1)]
    case None => cs
  }

  /** The list after `clearUnread(user)`. */
  function Cleared(cs: seq<Contact>, user: string): seq<Contact> {
    match FirstIndex(cs, user)
    case Some(i) => cs[i := cs[i].(unread := 0)]
    case None => cs
  }

  /** The contact `updateLastMessage` leaves behind. */
  function Previewed(c: Contact, content: string, timestamp: string, incrementUnread: bool): Contact {
    c.(lastMessage := content, lastTimestamp := timestamp, unread := if incrementUnread then c.unread + 1 else c.unread)
  }

  /** The list after `updateLastMessage(user, content, timestamp, incrementUnread)`. */
  function WithPreview(cs: seq<Contact>, user: string, content: string, timestamp: string, incrementUnread: bool): seq<Contact> {
    match FirstIndex(cs, user)
    case Some(i) => cs[i := Previewed(cs[i], content, timestamp, incrementUnread)]
    case None => cs
  }

  /** None of the per-user updates changes the length or the order of the
      list, and each touches at most the first contact with that name. */
  lemma UpdatesKeepRoster(cs: seq<Contact>, user: string, content: string, timestamp: string, inc: bool)
    ensures Names(Bumped(cs, user)) == Names(cs)
    ensures Names(Cleared(cs, user)) == Names(cs)
    ensures Names(WithPreview(cs, user, content, timestamp, inc)) == Names(cs)
    ensures forall j :: 0 <= j < |cs| && Some(j) != FirstIndex(cs, user) ==>
      Bumped(cs, user)[j] == cs[j] && Cleared(cs, user)[j] == cs[j] && WithPreview(cs, user, content, timestamp, inc)[j] == cs[j]
  {
  }

  /** A name that is not in the list changes nothing. */
  lemma AbsentUserNoChange(cs: seq<Contact>, user: string, content: string, timestamp: string, inc: bool)
    requires forall j :: 0 <= j < |cs| ==> cs[j].username != user
    ensures Bumped(cs, user) == cs && Cleared(cs, user) == cs
    ensures WithPreview(cs, user, content, timestamp, inc) == cs
    ensures UnreadOf(cs, user) == 0
  {
    assert FirstIndex(cs, user).None?;
  }

  /** What each update does to the counter `unreadCount` reports. */
  lemma UnreadAfterUpdates(cs: seq<Contact>, user: string, content: string, timestamp: string, inc: bool)
    requires FirstIndex(cs, user).Some?
    ensures UnreadOf(Bumped(cs, user), user) == UnreadOf(cs, user) + 1
    ensures UnreadOf(Cleared(cs, user), user) == 0
    ensures UnreadOf(WithPreview(cs, user, content, timestamp, inc), user) == if inc then UnreadOf(cs, user) + 1 else UnreadOf(cs, user)
  {
    var i := FirstIndex(cs, user).value;
    FirstIndexOfSameNames(cs, Bumped(cs, user), user);
    FirstIndexOfSameNames(cs, Cleared(cs, user), user);
    FirstIndexOfSameNames(cs, WithPreview(cs, user, content, timestamp, inc), user);
  }

  /** Two lists with the same names have the same first match. */
  lemma {:induction false} FirstIndexOfSameNames(a: seq<Contact>, b: seq<Contact>, user: string)
    requires Names(a) == Names(b)
    ensures FirstIndex(a, user) == FirstIndex(b, user)
  {
    if a != [] {
      assert a[0].username == Names(a)[0] == Names(b)[0] == b[0].username;
      assert Names(a[1..]) == Names(a)[1..];
      assert Names(b[1..]) == Names(b)[1..];
      FirstIndexOfSameNames(a[1..], b[1..], user);
    }
  }

  // ---------------------------------------------------------------------
  // mergePresence

  /** `onlineByUser` after inserting every snapshot entry in order: a later
      duplicate overwrites an earlier one. */
  function OnlineByUser(snap: seq<Contact>): (m: map<string, bool>)
    ensures forall j :: 0 <= j < |snap| ==> snap[j].username in m
  {
    if snap == [] then map[]
    else
      var m := OnlineByUser(snap[..|snap| - 1]);
      assert forall j :: 0 <= j < |snap| - 1 ==> snap[j] == snap[..|snap| - 1][j];
      m[snap[|snap| - 1].username := snap[|snap| - 1].online]
  }

  /** A name the snapshot does not mention is not in the table. */
  lemma {:induction false} UnlistedNotInTable(snap: seq<Contact>, user: string)
    requires forall j :: 0 <= j < |snap| ==> snap[j].username != user
    ensures user !in OnlineByUser(snap)
  {
    if snap != [] {
      var init := snap[..|snap| - 1];
      assert forall j :: 0 <= j < |init| ==> init[j] == snap[j];
      UnlistedNotInTable(init, user);
    }
  }

  /** The entry with the highest index for a name decides its flag. */
  lemma {:induction false} LastDuplicateWins(snap: seq<Contact>, j: nat)
    requires j < |snap|
    requires forall k :: j < k < |snap| ==> snap[k].username != snap[j].username
    ensures OnlineByUser(snap)[snap[j].username] == snap[j].online
  {
    if j < |snap| - 1 {
      var init := snap[..|snap| - 1];
      assert init[j] == snap[j];
      forall k | j < k < |init| ensures init[k].username != init[j].username {
        assert init[k] == snap[k];
      }
      LastDuplicateWins(init, j);
    }
  }

  /** An existing contact after the update pass. */
  function Refresh(c: Contact, online: map<string, bool>): (r: Contact)
    ensures r.username == c.username && r.unread == c.unread
    ensures r.lastMessage == c.lastMessage && r.lastTimestamp == c.lastTimestamp
  {
    if c.username in online then c.(online := online[c.username]) else c
  }

  /** `seen` after the update pass over `cs`. */
  function Seen(cs: seq<Contact>, online: map<string, bool>): (s: set<string>)
    ensures forall u :: u in s <==> u in online && exists i :: 0 <= i < |cs| && cs[i].username == u
  {
    if cs == [] then {}
    else
      var init := cs[..|cs| - 1];
      var s := Seen(init, online);
      assert forall i :: 0 <= i < |init| ==> init[i] == cs[i];
      var last := cs[|cs| - 1];
      if last.username in online then s + {last.username} else s
  }

  /** The snapshot entries the insert pass appends, in snapshot order. */
  function Arrivals(snap: seq<Contact>, seen: set<string>): (r: seq<Contact>)
    ensures |r| <= |snap|
  {
    if snap == [] then []
    else
      var last := snap[|snap| - 1];
      Arrivals(snap[..|snap| - 1], seen) + (if last.username in seen then [] else [last])
  }

  /** `m_contacts` after `mergePresence(snap)`. */
  function Merged(cs: seq<Contact>, snap: seq<Contact>): seq<Contact> {
    var online := OnlineByUser(snap);
    seq(|cs|, i requires 0 <= i < |cs| => Refresh(cs[i], online)) + Arrivals(snap, Seen(cs, online))
  }

  /** `mergePresence` never removes a contact nor reorders the list; every
      existing contact keeps its unread counter and preview, and one that
      the snapshot does not mention is left exactly as it was. */
  lemma MergeKeepsContacts(cs: seq<Contact>, snap: seq<Contact>)
    ensures |Merged(cs, snap)| >= |cs|
    ensures Names(Merged(cs, snap))[..|cs|] == Names(cs)
    ensures forall i :: 0 <= i < |cs| ==>
      Merged(cs, snap)[i].unread == cs[i].unread &&
      Merged(cs, snap)[i].lastMessage == cs[i].lastMessage &&
      Merged(cs, snap)[i].lastTimestamp == cs[i].lastTimestamp
    ensures forall i :: 0 <= i < |cs| && (forall j :: 0 <= j < |snap| ==> snap[j].username != cs[i].username) ==>
      Merged(cs, snap)[i] == cs[i]
  {
    forall i | 0 <= i < |cs| && (forall j :: 0 <= j < |snap| ==> snap[j].username != cs[i].username)
      ensures Merged(cs, snap)[i] == cs[i]
    {
      UnlistedNotInTable(snap, cs[i].username);
    }
  }

  /** An existing contact named in the snapshot takes the online flag of
      the last snapshot entry with its name. */
  lemma MergeTakesLastFlag(cs: seq<Contact>, snap: seq<Contact>, i: nat, j: nat)
    requires i < |cs| && j < |snap| && snap[j].username == cs[i].username
    requires forall k :: j < k < |snap| ==> snap[k].username != snap[j].username
    ensures Merged(cs, snap)[i] == cs[i].(online := snap[j].online)
  {
    LastDuplicateWins(snap, j);
  }

  /** How often a name occurs in a list. */
  function Count(cs: seq<Contact>, user: string): nat {
    if cs == [] then 0
    else Count(cs[..|cs| - 1], user) + (if cs[|cs| - 1].username == user then 1 else 0)
  }

  /** The insert pass keeps every occurrence of a name it does not skip
      and drops every occurrence of a name it does. */
  lemma {:induction false} ArrivalsCount(snap: seq<Contact>, seen: set<string>, user: string)
    ensures Count(Arrivals(snap, seen), user) == if user in seen then 0 else Count(snap, user)
  {
    if snap != [] {
      var init := snap[..|snap| - 1];
      var last := snap[|snap| - 1];
      ArrivalsCount(init, seen, user);
      var r := Arrivals(snap, seen);
      var extra := if last.username in seen then [] else [last];
      assert r == Arrivals(init, seen) + extra;
      if extra == [] {
        assert r == Arrivals(init, seen);
      } else {
        assert r[..|r| - 1] == Arrivals(init, seen);
      }
    }
  }

  /** Snapshot users not yet listed are appended after the existing
      contacts, in snapshot order, each as often as the snapshot lists it
      (a duplicated new name is appended twice). */
  lemma MergeAppendsNewUsers(cs: seq<Contact>, snap: seq<Contact>, user: string)
    requires forall i :: 0 <= i < |cs| ==> cs[i].username != user
    ensures Merged(cs, snap)[|cs|..] == Arrivals(snap, Seen(cs, OnlineByUser(snap)))
    ensures Count(Merged(cs, snap)[|cs|..], user) == Count(snap, user)
  {
    var online := OnlineByUser(snap);
    assert user !in Seen(cs, online);
    ArrivalsCount(snap, Seen(cs, online), user);
  }

  /** A name already in the list is never appended again. */
  lemma MergeSkipsListedUsers(cs: seq<Contact>, snap: seq<Contact>, i: nat)
    requires i < |cs|
    ensures Count(Merged(cs, snap)[|cs|..], cs[i].username) == 0
  {
    var online := OnlineByUser(snap);
    var user := cs[i].username;
    if exists j :: 0 <= j < |snap| && snap[j].username == user {
      var j :| 0 <= j < |snap| && snap[j].username == user;
      assert user in online;
      assert user in Seen(cs, online);
      ArrivalsCount(snap, Seen(cs, online), user);
    } else {
      NoOccurrence(snap, user);
      ArrivalsCount(snap, Seen(cs, online), user);
    }
  }

  /** A name that does not occur has count 0. */
  lemma {:induction false} NoOccurrence(cs: seq<Contact>, user: string)
    requires forall j :: 0 <= j < |cs| ==> cs[j].username != user
    ensures Count(cs, user) == 0
  {
    if cs != [] {
      NoOccurrence(cs[..|cs| - 1], user);
    }
  }

  // ---------------------------------------------------------------------
  // The model object

  class ContactListModel {
    /** `m_contacts`. */
    var contacts: seq<Contact>

    /** `ContactListModel(parent)`: an empty roster. */
    constructor()
      ensures contacts == []
    {
      contacts := [];
    }

    /** `unreadCount(user)`. */
    method UnreadCount(user: string) returns (n: int)
      ensures n == UnreadOf(contacts, user)
    {
      var i := 0;
      while i < |contacts|
        invariant 0 <= i <= |contacts|
        invariant forall j :: 0 <= j < i ==> contacts[j].username != user
      {
        if contacts[i].username == user {
          return contacts[i].unread;
        }
        i := i + 1;
      }
      return 0;
    }

    /** `incrementUnread(user)`. */
    method IncrementUnread(user: string)
      modifies this
      ensures contacts == Bumped(old(contacts), user)
    {
      var i := 0;
      while i < |contacts|
        invariant 0 <= i <= |contacts|
        invariant forall j :: 0 <= j < i ==> contacts[j].username != user
      {
        if contacts[i].username == user {
          contacts := contacts[i := contacts[i].(unread := contacts[i].unread + 1)];
          return;
        }
        i := i + 1;
      }
    }

    /** `clearUnread(user)`. */
    method ClearUnread(user: string)
      modifies this
      ensures contacts == Cleared(old(contacts), user)
    {
      var i := 0;
      while i < |contacts|
        invariant 0 <= i <= |contacts|
        invariant forall j :: 0 <= j < i ==> contacts[j].username != user
      {
        if contacts[i].username == user {
          contacts := contacts[i := contacts[i].(unread := 0)];
          return;
        }
        i := i + 1;
      }
    }

    /** `updateLastMessage(user, content, timestamp, incrementUnread)`. */
    method UpdateLastMessage(user: string, content: string, timestamp: string, incrementUnread: bool)
      modifies this
      ensures contacts == WithPreview(old(contacts), user, content, timestamp, incrementUnread)
    {
      var i := 0;
      while i < |contacts|
        invariant 0 <= i <= |contacts|
        invariant forall j :: 0 <= j < i ==> contacts[j].username != user
      {
        if contacts[i].username == user {
          var c := contacts[i].(lastMessage := content, lastTimestamp := timestamp);
          if incrementUnread {
            c := c.(unread := c.unread + 1);
          }
          contacts := contacts[i := c];
          return;
        }
        i := i + 1;
      }
    }

    /** `setContacts(contacts)`: a model reset to the given list. */
    method SetContacts(cs: seq<Contact>)
      modifies this
      ensures contacts == cs
    {
      contacts := cs;
    }

    /** `mergePresence(snapshot)`: build the name-to-flag table, refresh
        the listed contacts while collecting `seen`, then append the
        snapshot entries not seen. */
    method MergePresence(snapshot: seq<Contact>)
      modifies this
      ensures contacts == Merged(old(contacts), snapshot)
    {
      var onlineByUser := OnlineTable(snapshot);
      var seen := RefreshListed(onlineByUser);
      AppendUnseen(snapshot, seen);
    }

    /** The first loop of `mergePresence`: `onlineByUser.insert` for each
        snapshot entry. */
    static method OnlineTable(snapshot: seq<Contact>) returns (onlineByUser: map<string, bool>)
      ensures onlineByUser == OnlineByUser(snapshot)
    {
      onlineByUser := map[];
      var i := 0;
      while i < |snapshot|
        invariant 0 <= i <= |snapshot|
        invariant onlineByUser == OnlineByUser(snapshot[..i])
      {
        assert snapshot[..i + 1][..i] == snapshot[..i];
        onlineByUser := onlineByUser[snapshot[i].username := snapshot[i].online];
        i := i + 1;
      }
      assert snapshot[..|snapshot|] == snapshot;
    }

    /** The second loop of `mergePresence`: every listed contact named in
        the table takes its flag and is recorded in `seen`. */
    method RefreshListed(onlineByUser: map<string, bool>) returns (seen: set<string>)
      modifies this
      ensures contacts == seq(|old(contacts)|, j requires 0 <= j < |old(contacts)| => Refresh(old(contacts)[j], onlineByUser))
      ensures seen == Seen(old(contacts), onlineByUser)
    {
      ghost var cs0 := contacts;
      seen := {};
      var k := 0;
      while k < |contacts|
        invariant 0 <= k <= |contacts| == |cs0|
        invariant forall j :: 0 <= j < k ==> contacts[j] == Refresh(cs0[j], onlineByUser)
        invariant forall j :: k <= j < |cs0| ==> contacts[j] == cs0[j]
        invariant seen == Seen(cs0[..k], onlineByUser)
      {
        assert cs0[..k + 1][..k] == cs0[..k];
        var local := contacts[k];
        if local.username in onlineByUser {
          seen := seen + {local.username};
          var newOnline := onlineByUser[local.username];
          if local.online != newOnline {
            contacts := contacts[k := local.(online := newOnline)];
          }
        }
        k := k + 1;
      }
      assert cs0[..|cs0|] == cs0;
    }

    /** The third loop of `mergePresence`: `push_back` of every snapshot
        entry whose name is not in `seen`. */
    method AppendUnseen(snapshot: seq<Contact>, seen: set<string>)
      modifies this
      ensures contacts == old(contacts) + Arrivals(snapshot, seen)
    {
      var n := 0;
      while n < |snapshot|
        invariant 0 <= n <= |snapshot|
        invariant contacts == old(contacts) + Arrivals(snapshot[..n], seen)
      {
        assert snapshot[..n + 1][..n] == snapshot[..n];
        var c := snapshot[n];
        if c.username !in seen {
          contacts := contacts + [c];
        }
        n := n + 1;
      }
      assert snapshot[..|snapshot|] == snapshot;
    }

    /** `rowCount(parent)`: the list's size under the root, 0 under a
        valid parent (a flat list has no children). */
    function RowCount(parentValid: bool): (n: int)
      reads this
      ensures parentValid ==> n == 0
      ensures !parentValid ==> n == |contacts|
    {
      if parentValid then 0 else |contacts|
    }

    /** `data(index, role)`; `row` is `None` for an invalid index, and a
        valid index always points into the list (`QVector::at`). */
    function Data(row: Option<nat>, role: int): (v: Variant)
      reads this
      requires row.Some? ==> row.value < |contacts|
      ensures row.None? ==> v == Invalid
      ensures !(UsernameRole <= role <= LastTimestampRole) ==> v == Invalid
      ensures row.Some? && role == UsernameRole ==> v == VStr(contacts[row.value].username)
      ensures row.Some? && role == OnlineRole ==> v == VBool(contacts[row.value].online)
      ensures row.Some? && role == UnreadRole ==> v == VInt(contacts[row.value].unread)
      ensures row.Some? && role == LastMessageRole ==> v == VStr(contacts[row.value].lastMessage)
      ensures row.Some? && role == LastTimestampRole ==> v == VStr(contacts[row.value].lastTimestamp)
    {
      match row
      case None => Invalid
      case Some(r) =>
        var c := contacts[r];
        if role == UsernameRole then VStr(c.username)
        else if role == OnlineRole then VBool(c.online)
        else if role == UnreadRole then VInt(c.unread)
        else if role == LastMessageRole then VStr(c.lastMessage)
        else if role == LastTimestampRole then VStr(c.lastTimestamp)
        else Invalid
    }
  }
}
