/** `MessageRouter` (src/MessageRouter.cpp): the map of signed-in clients,
    the text of a pushed message, and the decisions to persist, push or
    leave a message for later.  The database and the cipher are given
    functions and values. */
module MessageRouter {
  import opened Wrappers
  import opened ClientStates

  // ---------------------------------------------------------------------
  // The pushed payload and section 7 of RFC 8259

  /** What the loop of `buildInboundMessagePayload` writes for one character
      of the content: a backslash before `\` and `"`, and `\n` for a newline. */
  function EscapeChar(c: char): string {
    (if c == '\\' || c == '"' then "\\" else "") + (if c == '\n' then "\\n" else [c])
  }

  /** The escaped content. */
  function Escape(s: string): (r: string)
    ensures |r| >= |s|
    decreases |s|
  {
    if s == [] then [] else EscapeChar(s[0]) + Escape(s[1..])
  }

  const PayloadHead: string := "{\"command\":\"incoming_message\",\"sender\":\""
  const PayloadMiddle: string := "\",\"content\":\""
  const PayloadTail: string := "\"}\n"

  /** `buildInboundMessagePayload(sender, content)`: the sender goes in as
      it is, the content escaped. */
  function InboundPayload(sender: string, content: string): string {
    PayloadHead + sender + PayloadMiddle + Escape(content) + PayloadTail
  }

  /** Escaping works character by character. */
  lemma {:induction false} EscapeSnoc(s: string, c: char)
    ensures Escape(s + [c]) == Escape(s) + EscapeChar(c)
    decreases |s|
  {
    if s == [] {
      assert [c][1..] == [];
    } else {
      assert (s + [c])[1..] == s[1..] + [c];
      EscapeSnoc(s[1..], c);
    }
  }

  /** `buildInboundMessagePayload(sender, content)`. */
  method BuildInboundMessagePayload(sender: string, content: string) returns (out: string)
    ensures out == InboundPayload(sender, content)
  {
    var escaped := EscapeContent(content);
    out := PayloadHead + sender + PayloadMiddle + escaped + PayloadTail;
  }

  /** The character loop of `buildInboundMessagePayload`. */
  method EscapeContent(content: string) returns (out: string)
    ensures out == Escape(content)
  {
    out := [];
    var i := 0;
    while i < |content|
      invariant 0 <= i <= |content|
      invariant out == Escape(content[..i])
    {
      var c := content[i];
      ghost var before := out;
      if c == '\\' || c == '"' {
        out := out + "\\";
      }
      if c == '\n' {
        out := out + "\\n";
      } else {
        out := out + [c];
      }
      assert out == before + EscapeChar(c);
      assert content[..i + 1] == content[..i] + [c];
      EscapeSnoc(content[..i], c);
      i := i + 1;
    }
    assert content[..|content|] == content;
  }

  /** A character section 7 of RFC 8259 lets stand unescaped in a string. */
  predicate Unescaped(c: char) {
    c as int >= 0x20 && c != '"' && c != '\\'
  }

  predicate IsHexDigit(c: char) {
    '0' <= c <= '9' || 'a' <= c <= 'f' || 'A' <= c <= 'F'
  }

  /** The characters that may follow a backslash, `u` aside. */
  predicate ShortEscape(c: char) {
    c == '"' || c == '\\' || c == '/' || c == 'b' || c == 'f' || c == 'n' || c == 'r' || c == 't'
  }

  /** The text between the quotes of a JSON string, per section 7 of
      RFC 8259: unescaped characters, short escapes and `\u` with four hex
      digits. */
  predicate ValidStringBody(s: string)
    decreases |s|
  {
    if s == [] then true
    else if s[0] == '\\' then
      |s| >= 2 &&
      (if ShortEscape(s[1]) then ValidStringBody(s[2..])
       else (s[1] == 'u' && |s| >= 6 && IsHexDigit(s[2]) && IsHexDigit(s[3]) && IsHexDigit(s[4]) && IsHexDigit(s[5]) &&
             ValidStringBody(s[6..])))
    else Unescaped(s[0]) && ValidStringBody(s[1..])
  }

  /** The character a short escape stands for. */
  function ShortEscapeValue(c: char): char
    requires ShortEscape(c)
  {
    if c == 'b' then 8 as char
    else if c == 'f' then 12 as char
    else if c == 'n' then '\n'
    else if c == 'r' then '\r'
    else if c == 't' then '\t'
    else c
  }

  /** A JSON reader's value of a string body without `\u` escapes; None
      when the body is not valid or uses `\u`. */
  function Unescape(s: string): (r: Option<string>)
    ensures r.Some? ==> ValidStringBody(s)
    decreases |s|
  {
    if s == [] then Some([])
    else if s[0] == '\\' then
      if |s| >= 2 && ShortEscape(s[1]) then
        var rest := Unescape(s[2..]);
        if rest.Some? then Some([ShortEscapeValue(s[1])] + rest.value) else None
      else None
    else if Unescaped(s[0]) then
      var rest := Unescape(s[1..]);
      if rest.Some? then Some([s[0]] + rest.value) else None
    else None
  }

  /** A character the escaping carries through: anything but a control
      character, or a newline. */
  predicate EscapeKeeps(c: char) {
    c as int >= 0x20 || c == '\n'
  }

  lemma EscapeCharFacts(c: char, rest: string)
    ensures ValidStringBody(EscapeChar(c) + rest) <==> EscapeKeeps(c) && ValidStringBody(rest)
    ensures Unescape(EscapeChar(c) + rest) ==
      (if EscapeKeeps(c) && Unescape(rest).Some? then Some([c] + Unescape(rest).value) else None)
  {
    var e := EscapeChar(c);
    if c == '\\' || c == '"' {
      assert e == ['\\', c];
      assert (e + rest)[2..] == rest;
    } else if c == '\n' {
      assert e == ['\\', 'n'];
      assert (e + rest)[2..] == rest;
    } else {
      assert e == [c];
      assert (e + rest)[1..] == rest;
    }
  }

  /** The escaped content is a valid JSON string body exactly when the
      content has no control character other than newline. */
  lemma {:induction false} EscapeValid(s: string)
    ensures ValidStringBody(Escape(s)) <==> forall k :: 0 <= k < |s| ==> EscapeKeeps(s[k])
    decreases |s|
  {
    if s != [] {
      EscapeValid(s[1..]);
      EscapeCharFacts(s[0], Escape(s[1..]));
      assert forall k :: 1 <= k < |s| ==> s[k] == s[1..][k - 1];
    }
  }

  /** A JSON reader gets the content back from the escaped text whenever
      that text is valid. */
  lemma {:induction false} EscapeRoundTrip(s: string)
    requires forall k :: 0 <= k < |s| ==> EscapeKeeps(s[k])
    ensures Unescape(Escape(s)) == Some(s)
    decreases |s|
  {
    if s != [] {
      assert forall k :: 0 <= k < |s[1..]| ==> s[1..][k] == s[k + 1];
      EscapeRoundTrip(s[1..]);
      EscapeCharFacts(s[0], Escape(s[1..]));
      assert [s[0]] + s[1..] == s;
    }
  }

  /** A JSON reader's value of a body made only of unescaped characters
      is the body itself. */
  lemma {:induction false} PlainBody(s: string)
    requires forall k :: 0 <= k < |s| ==> Unescaped(s[k])
    ensures Unescape(s) == Some(s)
    decreases |s|
  {
    if s != [] {
      assert forall k :: 0 <= k < |s[1..]| ==> s[1..][k] == s[k + 1];
      PlainBody(s[1..]);
      assert [s[0]] + s[1..] == s;
    }
  }

  /** A body that reads back as itself has no quote, backslash or control
      character. */
  lemma {:induction false} SelfReadingBody(s: string)
    requires Unescape(s) == Some(s)
    ensures forall k :: 0 <= k < |s| ==> Unescaped(s[k])
    decreases |s|
  {
    if s != [] {
      if s[0] == '\\' {
        // The value of a body that starts with an escape is shorter than it.
        EscapeShortens(s[2..]);
        assert false;
      }
      assert Unescape(s[1..]) == Some(s[1..]);
      SelfReadingBody(s[1..]);
      assert forall k :: 1 <= k < |s| ==> s[k] == s[1..][k - 1];
    }
  }

  /** A value is never longer than the body it is read from. */
  lemma {:induction false} EscapeShortens(s: string)
    ensures Unescape(s).Some? ==> |Unescape(s).value| <= |s|
    decreases |s|
  {
    if s != [] {
      if s[0] == '\\' {
        if |s| >= 2 {
          EscapeShortens(s[2..]);
        }
      } else {
        EscapeShortens(s[1..]);
      }
    }
  }

  /** The sender is written without escaping, so a JSON reader sees the
      sender's name exactly when it has no quote, backslash or control
      character. */
  lemma SenderReadsBack(sender: string)
    ensures Unescape(sender) == Some(sender) <==> forall k :: 0 <= k < |sender| ==> Unescaped(sender[k])
  {
    if Unescape(sender) == Some(sender) {
      SelfReadingBody(sender);
    }
    if forall k :: 0 <= k < |sender| ==> Unescaped(sender[k]) {
      PlainBody(sender);
    }
  }

  /** A quote in the content comes out as `\"` and a newline as `\n`. */
  lemma EscapeExamples()
    ensures Escape("a\"b") == "a\\\"b"
    ensures Escape("x\ny") == "x\\ny"
    ensures Escape("c:\\") == "c:\\\\"
  {
    assert Escape("b") == "b";
    assert Escape("y") == "y";
    assert Escape("\\") == "\\\\";
  }

  // ---------------------------------------------------------------------
  // Queued messages

  /** A row of `getQueuedMessages`. */
  datatype StoredMessage = StoredMessage(id: int, senderId: int, ciphertext: seq<int>, nonce: seq<int>)

  /** `cryptoEngine.decryptMessage`: the plaintext, or None on failure. */
  type Decrypter = StoredMessage -> Option<string>

  /** `findUsername(senderId)`, or "unknown" when the lookup fails. */
  function SenderName(names: map<int, string>, id: int): string {
    if id in names then names[id] else "unknown"
  }

  /** A message that is pushed: its stored id, sender and plaintext. */
  datatype Delivery = Delivery(id: int, sender: string, text: string)

  /** The stored messages that decrypt, in order; the others are skipped. */
  function Deliveries(stored: seq<StoredMessage>, decrypt: Decrypter, names: map<int, string>): (ds: seq<Delivery>)
    ensures |ds| <= |stored|
    decreases |stored|
  {
    if stored == [] then []
    else
      var last := stored[|stored| - 1];
      var earlier := Deliveries(stored[..|stored| - 1], decrypt, names);
      match decrypt(last)
      case None => earlier
      case Some(text) => earlier + [Delivery(last.id, SenderName(names, last.senderId), text)]
  }

  /** The delivery one stored message contributes: none when it does not
      decrypt. */
  function DeliveryOf(m: StoredMessage, decrypt: Decrypter, names: map<int, string>): seq<Delivery> {
    if decrypt(m).Some? then [Delivery(m.id, SenderName(names, m.senderId), decrypt(m).value)] else []
  }

  /** One more stored message adds its delivery when it decrypts. */
  lemma DeliveriesSnoc(stored: seq<StoredMessage>, i: nat, decrypt: Decrypter, names: map<int, string>)
    requires i < |stored|
    ensures Deliveries(stored[..i + 1], decrypt, names) ==
      Deliveries(stored[..i], decrypt, names) + DeliveryOf(stored[i], decrypt, names)
  {
    assert stored[..i + 1][..i] == stored[..i];
    assert stored[..i + 1][i] == stored[i];
  }

  /** What one more stored message adds to the payloads pushed and the
      ids marked. */
  lemma DeliveriesStep(stored: seq<StoredMessage>, i: nat, decrypt: Decrypter, names: map<int, string>)
    requires i < |stored|
    ensures var ds := Deliveries(stored[..i], decrypt, names);
      var ds' := Deliveries(stored[..i + 1], decrypt, names);
      var m := stored[i];
      (decrypt(m).None? ==> Payloads(ds') == Payloads(ds) && Ids(ds') == Ids(ds)) &&
      (decrypt(m).Some? ==>
         Payloads(ds') == Payloads(ds) + [InboundPayload(SenderName(names, m.senderId), decrypt(m).value)] &&
         Ids(ds') == Ids(ds) + [m.id])
  {
    DeliveriesSnoc(stored, i, decrypt, names);
    var ds := Deliveries(stored[..i], decrypt, names);
    var m := stored[i];
    if decrypt(m).Some? {
      PayloadsAppend(ds, Delivery(m.id, SenderName(names, m.senderId), decrypt(m).value));
    } else {
      assert ds + [] == ds;
    }
  }

  /** The payloads pushed for those deliveries. */
  function Payloads(ds: seq<Delivery>): (ps: seq<string>)
    ensures |ps| == |ds|
  {
    if ds == [] then [] else Payloads(ds[..|ds| - 1]) + [InboundPayload(ds[|ds| - 1].sender, ds[|ds| - 1].text)]
  }

  function Ids(ds: seq<Delivery>): (r: seq<int>)
    ensures |r| == |ds|
  {
    if ds == [] then [] else Ids(ds[..|ds| - 1]) + [ds[|ds| - 1].id]
  }

  lemma PayloadsAppend(ds: seq<Delivery>, d: Delivery)
    ensures Payloads(ds + [d]) == Payloads(ds) + [InboundPayload(d.sender, d.text)]
    ensures Ids(ds + [d]) == Ids(ds) + [d.id]
  {
    assert (ds + [d])[..|ds|] == ds;
  }

  /** Strictly increasing ids, as `ORDER BY id ASC` returns them. */
  predicate Ascending(ids: seq<int>) {
    forall i, j :: 0 <= i < j < |ids| ==> ids[i] < ids[j]
  }

  function StoredIds(stored: seq<StoredMessage>): (r: seq<int>)
    ensures |r| == |stored|
  {
    if stored == [] then [] else StoredIds(stored[..|stored| - 1]) + [stored[|stored| - 1].id]
  }

  /** Every delivered id is the id of a stored message. */
  lemma {:induction false} DeliveryIdsStored(stored: seq<StoredMessage>, decrypt: Decrypter, names: map<int, string>)
    ensures forall x :: x in Ids(Deliveries(stored, decrypt, names)) ==> x in StoredIds(stored)
    decreases |stored|
  {
    if stored != [] {
      var init := stored[..|stored| - 1];
      var last := stored[|stored| - 1];
      DeliveryIdsStored(init, decrypt, names);
      var ds0 := Deliveries(init, decrypt, names);
      if decrypt(last).Some? {
        PayloadsAppend(ds0, Delivery(last.id, SenderName(names, last.senderId), decrypt(last).value));
      }
    }
  }

  /** With ascending stored ids, every delivered id is at most the last one. */
  lemma DeliveryIdsBounded(stored: seq<StoredMessage>, decrypt: Decrypter, names: map<int, string>)
    requires stored != [] && Ascending(StoredIds(stored))
    ensures forall x :: x in Ids(Deliveries(stored, decrypt, names)) ==> x <= stored[|stored| - 1].id
  {
    DeliveryIdsStored(stored, decrypt, names);
    StoredIdsAt(stored);
    var ids := StoredIds(stored);
    forall x | x in Ids(Deliveries(stored, decrypt, names)) ensures x <= stored[|stored| - 1].id {
      var k :| 0 <= k < |ids| && ids[k] == x;
      if k < |ids| - 1 {
        assert ids[k] < ids[|ids| - 1];
      }
    }
  }

  lemma {:induction false} StoredIdsAt(stored: seq<StoredMessage>)
    ensures forall k :: 0 <= k < |stored| ==> StoredIds(stored)[k] == stored[k].id
    decreases |stored|
  {
    if stored != [] {
      StoredIdsAt(stored[..|stored| - 1]);
    }
  }

  lemma {:induction false} IdsAt(ds: seq<Delivery>)
    ensures forall k :: 0 <= k < |ds| ==> Ids(ds)[k] == ds[k].id
    decreases |ds|
  {
    if ds != [] {
      IdsAt(ds[..|ds| - 1]);
    }
  }

  /** Messages are pushed in ascending stored id order when the database
      returns them so. */
  lemma {:induction false} DeliveriesAscending(stored: seq<StoredMessage>, decrypt: Decrypter, names: map<int, string>)
    requires Ascending(StoredIds(stored))
    ensures Ascending(Ids(Deliveries(stored, decrypt, names)))
    decreases |stored|
  {
    if stored != [] {
      var init := stored[..|stored| - 1];
      assert StoredIds(init) == StoredIds(stored)[..|stored| - 1];
      DeliveriesAscending(init, decrypt, names);
      AscendingLastStep(stored, decrypt, names);
    }
  }

  /** The inductive step of `DeliveriesAscending`: the last stored message
      keeps the deliveries ascending. */
  lemma AscendingLastStep(stored: seq<StoredMessage>, decrypt: Decrypter, names: map<int, string>)
    requires stored != [] && Ascending(StoredIds(stored))
    requires Ascending(Ids(Deliveries(stored[..|stored| - 1], decrypt, names)))
    ensures Ascending(Ids(Deliveries(stored, decrypt, names)))
  {
    var init := stored[..|stored| - 1];
    var last := stored[|stored| - 1];
    var ds0 := Deliveries(init, decrypt, names);
    if decrypt(last).Some? {
      var d := Delivery(last.id, SenderName(names, last.senderId), decrypt(last).value);
      assert Deliveries(stored, decrypt, names) == ds0 + [d];
      PayloadsAppend(ds0, d);
      if init != [] {
        LastTwoAscending(stored);
        assert init[|init| - 1] == stored[|stored| - 2];
        assert StoredIds(init) == StoredIds(stored)[..|stored| - 1];
        DeliveryIdsBounded(init, decrypt, names);
      }
      AscendingSnoc(Ids(ds0), last.id);
    }
  }

  /** With ascending stored ids, the last message's id is above the one before. */
  lemma LastTwoAscending(stored: seq<StoredMessage>)
    requires |stored| >= 2 && Ascending(StoredIds(stored))
    ensures stored[|stored| - 2].id < stored[|stored| - 1].id
  {
    var init := stored[..|stored| - 1];
    var ids := StoredIds(stored);
    assert ids == StoredIds(init) + [stored[|stored| - 1].id];
    assert StoredIds(init)[|init| - 1] == init[|init| - 1].id;
    assert ids[|stored| - 2] < ids[|stored| - 1];
  }

  /** An ascending sequence stays ascending with a larger element appended. */
  lemma AscendingSnoc(ids: seq<int>, x: int)
    requires Ascending(ids)
    requires forall y :: y in ids ==> y < x
    ensures Ascending(ids + [x])
  {
    forall i, j | 0 <= i < j < |ids| + 1 ensures (ids + [x])[i] < (ids + [x])[j] {
      if j == |ids| {
        assert ids[i] in ids;
      }
    }
  }

  /** `persistMessage`: both users resolve and the insert succeeds. */
  predicate Persisted(userIds: map<string, int>, sender: string, recipient: string, insertOk: bool) {
    sender in userIds && recipient in userIds && insertOk
  }

  class Router {
    /** `activeClients`. */
    var activeClients: map<string, ClientState>

    constructor()
      ensures activeClients == map[]
    {
      activeClients := map[];
    }

    /** `registerClient(u, s)`: a second registration replaces the first. */
    method RegisterClient(username: string, state: ClientState)
      modifies this
      ensures activeClients == old(activeClients)[username := state]
    {
      activeClients := activeClients[username := state];
    }

    method UnregisterClient(username: string)
      modifies this
      ensures activeClients == old(activeClients) - {username}
    {
      activeClients := activeClients - {username};
    }

    /** `findActiveClient(u)`: null when `u` is not signed in. */
    method FindActiveClient(username: string) returns (state: Option<ClientState>)
      ensures username in activeClients <==> state.Some?
      ensures state.Some? ==> state.value == activeClients[username]
    {
      if username in activeClients {
        return Some(activeClients[username]);
      }
      return None;
    }

    /** `isRegistered(u)`, called by the login path; its body is not part
        of this model, so it is taken as membership in the map. */
    predicate IsRegistered(username: string)
      reads this
    {
      username in activeClients
    }

    /** `routeMessage(sender, recipient, plaintext)`; `userIds` and
        `insertOk` are the database's answers to the lookups and the insert
        of `persistMessage`. */
    method RouteMessage(sender: string, recipient: string, plaintext: string, userIds: map<string, int>, insertOk: bool)
      returns (ok: bool)
      modifies if recipient in activeClients then {activeClients[recipient]} else {}
      ensures ok <==> Persisted(userIds, sender, recipient, insertOk)
      ensures ok && recipient in activeClients ==>
                activeClients[recipient].sendQueue == old(activeClients[recipient].sendQueue) + [InboundPayload(sender, plaintext)]
      ensures !ok && recipient in activeClients ==>
                activeClients[recipient].sendQueue == old(activeClients[recipient].sendQueue)
      ensures recipient in activeClients ==>
                var c := activeClients[recipient];
                c.username == old(c.username) && c.authenticated == old(c.authenticated) && c.recvBuffer == old(c.recvBuffer)
    {
      if !Persisted(userIds, sender, recipient, insertOk) {
        return false;
      }
      var target := FindActiveClient(recipient);
      if target.None? {
        return true;
      }
      var payload := BuildInboundMessagePayload(sender, plaintext);
      target.value.QueueResponse(payload);
      return true;
    }

    /** `deliverQueuedMessages(username, state)`: `stored` is what
        `getQueuedMessages` returns for the user; `marked` lists the ids
        passed to `markDelivered`, in order. */
    method DeliverQueuedMessages(username: string, state: ClientState, userIds: map<string, int>,
                                 stored: seq<StoredMessage>, decrypt: Decrypter, names: map<int, string>)
      returns (ok: bool, marked: seq<int>)
      modifies state
      ensures ok <==> username in userIds
      ensures var ds := if username in userIds then Deliveries(stored, decrypt, names) else [];
        state.sendQueue == old(state.sendQueue) + Payloads(ds) && marked == Ids(ds)
      ensures state.username == old(state.username) && state.authenticated == old(state.authenticated)
    {
      if username !in userIds {
        return false, [];
      }
      if stored == [] {
        return true, [];
      }
      marked := DeliverAll(state, stored, decrypt, names);
      return true, marked;
    }

    /** The delivery loop: every stored message that decrypts is pushed,
        in order, and its id marked delivered. */
    static method DeliverAll(state: ClientState, stored: seq<StoredMessage>, decrypt: Decrypter, names: map<int, string>)
      returns (marked: seq<int>)
      modifies state
      ensures state.sendQueue == old(state.sendQueue) + Payloads(Deliveries(stored, decrypt, names))
      ensures marked == Ids(Deliveries(stored, decrypt, names))
      ensures state.username == old(state.username) && state.authenticated == old(state.authenticated)
    {
      marked := [];
      ghost var q0 := state.sendQueue;
      var i := 0;
      while i < |stored|
        invariant 0 <= i <= |stored|
        invariant state.sendQueue == q0 + Payloads(Deliveries(stored[..i], decrypt, names))
        invariant marked == Ids(Deliveries(stored[..i], decrypt, names))
        invariant state.username == old(state.username) && state.authenticated == old(state.authenticated)
      {
        marked := DeliverStep(state, stored, i, decrypt, names, q0, marked);
        i := i + 1;
      }
      assert stored[..|stored|] == stored;
    }

    /** The delivery loop's step: message `i` is delivered if it decrypts,
        extending what was pushed and marked for the messages before it. */
    static method DeliverStep(state: ClientState, stored: seq<StoredMessage>, i: nat, decrypt: Decrypter, names: map<int, string>,
                              ghost q0: seq<string>, marked: seq<int>) returns (marked': seq<int>)
      requires i < |stored|
      requires state.sendQueue == q0 + Payloads(Deliveries(stored[..i], decrypt, names))
      requires marked == Ids(Deliveries(stored[..i], decrypt, names))
      modifies state
      ensures state.sendQueue == q0 + Payloads(Deliveries(stored[..i + 1], decrypt, names))
      ensures marked' == Ids(Deliveries(stored[..i + 1], decrypt, names))
      ensures state.username == old(state.username) && state.authenticated == old(state.authenticated)
    {
      ghost var ps := Payloads(Deliveries(stored[..i], decrypt, names));
      DeliveriesStep(stored, i, decrypt, names);
      var id := DeliverOne(state, stored[i], decrypt, names);
      marked' := marked;
      if id.Some? {
        ghost var p := InboundPayload(SenderName(names, stored[i].senderId), decrypt(stored[i]).value);
        assert (q0 + ps) + [p] == q0 + (ps + [p]);
        marked' := marked + [id.value];
      }
    }

    /** One pass of the delivery loop: a message that decrypts is pushed
        and its id is the one marked delivered. */
    static method DeliverOne(state: ClientState, m: StoredMessage, decrypt: Decrypter, names: map<int, string>)
      returns (marked: Option<int>)
      modifies state
      ensures decrypt(m).None? ==> marked.None? && state.sendQueue == old(state.sendQueue)
      ensures decrypt(m).Some? ==>
                marked == Some(m.id) &&
                state.sendQueue == old(state.sendQueue) + [InboundPayload(SenderName(names, m.senderId), decrypt(m).value)]
      ensures state.username == old(state.username) && state.authenticated == old(state.authenticated) && state.recvBuffer == old(state.recvBuffer)
    {
      var text := decrypt(m);
      if text.None? {
        return None;
      }
      var payload := BuildInboundMessagePayload(SenderName(names, m.senderId), text.value);
      state.QueueResponse(payload);
      return Some(m.id);
    }
  }
}
