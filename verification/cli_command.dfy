/** The command line of the C++ command-line client (client/client.cpp):
    `splitCommandLine`, which reads whitespace-separated tokens the way
    `std::istringstream >> std::string` does, and the argument parsing of
    `CliApp::handle_command`, including the `/send` body extraction. */
module CliCommand {
  import opened Wrappers
  import opened Text

  // ---------------------------------------------------------------------
  // Tokens

  /** The length of the run of non-whitespace characters `s` starts with. */
  function WordLength(s: string): (n: nat)
    ensures n <= |s|
    ensures forall k :: 0 <= k < n ==> !IsSpace(s[k])
    ensures n < |s| ==> IsSpace(s[n])
  {
    if s == [] || IsSpace(s[0]) then 0 else 1 + WordLength(s[1..])
  }

  /** The tokens `iss >> tok` reads from `s`, in order: whitespace is
      skipped, then the longest run of other characters is one token. */
  function Tokens(s: string): seq<string>
    decreases |s|
  {
    if s == [] then []
    else if IsSpace(s[0]) then Tokens(s[1..])
    else [s[..WordLength(s)]] + Tokens(s[WordLength(s)..])
  }

  /** What is left of `s` after its first `k` tokens have been read. */
  function Rest(s: string, k: nat): (r: string)
    ensures |r| <= |s|
    decreases |s|
  {
    if k == 0 || s == [] then s
    else if IsSpace(s[0]) then Rest(s[1..], k)
    else Rest(s[WordLength(s)..], k - 1)
  }

  /** Reading tokens only ever drops a prefix. */
  lemma {:induction false} RestIsSuffix(s: string, k: nat)
    ensures Rest(s, k) == s[|s| - |Rest(s, k)|..]
    decreases |s|
  {
    if k > 0 && s != [] {
      if IsSpace(s[0]) {
        RestIsSuffix(s[1..], k);
      } else {
        RestIsSuffix(s[WordLength(s)..], k - 1);
      }
    }
  }

  /** A token is a non-empty run of non-whitespace characters. */
  predicate IsWord(t: string) {
    t != [] && forall k :: 0 <= k < |t| ==> !IsSpace(t[k])
  }

  /** `tokens` written out with one blank between neighbours. */
  function JoinWords(tokens: seq<string>): (s: string)
  {
    if tokens == [] then []
    else if |tokens| == 1 then tokens[0]
    else tokens[0] + " " + JoinWords(tokens[1..])
  }

  /** `splitCommandLine(cmdLine)`. */
  method SplitCommandLine(line: string) returns (tokens: seq<string>)
    ensures tokens == Tokens(line)
  {
    tokens := [];
    var i := 0;
    while i < |line|
      invariant 0 <= i <= |line|
      invariant tokens + Tokens(line[i..]) == Tokens(line)
    {
      if IsSpace(line[i]) {
        TokensSkipSpace(line, i);
        i := i + 1;
      } else {
        var j := i;
        while j < |line| && !IsSpace(line[j])
          invariant i <= j <= |line|
          invariant forall k :: i <= k < j ==> !IsSpace(line[k])
        {
          j := j + 1;
        }
        TokensTakeWord(line, i, j);
        assert (tokens + [line[i..j]]) + Tokens(line[j..]) == tokens + ([line[i..j]] + Tokens(line[j..]));
        tokens := tokens + [line[i..j]];
        i := j;
      }
    }
  }

  /** Reading from a blank skips it. */
  lemma TokensSkipSpace(s: string, i: nat)
    requires i < |s| && IsSpace(s[i])
    ensures Tokens(s[i..]) == Tokens(s[i + 1..])
  {
    assert s[i..][1..] == s[i + 1..];
  }

  /** Reading from the start of a maximal run of non-blanks takes the run
      as one token. */
  lemma TokensTakeWord(s: string, i: nat, j: nat)
    requires i < j <= |s|
    requires forall k :: i <= k < j ==> !IsSpace(s[k])
    requires j < |s| ==> IsSpace(s[j])
    ensures Tokens(s[i..]) == [s[i..j]] + Tokens(s[j..])
  {
    var w := WordLength(s[i..]);
    assert j - i == w by {
      assert forall k :: 0 <= k < j - i ==> !IsSpace(s[i..][k]);
      assert j - i < |s[i..]| ==> IsSpace(s[i..][j - i]);
    }
    assert s[i..][..w] == s[i..j] && s[i..][w..] == s[j..];
  }

  /** Every token is a non-empty run without whitespace. */
  lemma {:induction false} TokensAreWords(s: string)
    ensures forall i :: 0 <= i < |Tokens(s)| ==> IsWord(Tokens(s)[i])
    decreases |s|
  {
    if s != [] {
      if IsSpace(s[0]) {
        TokensAreWords(s[1..]);
      } else {
        TokensAreWords(s[WordLength(s)..]);
      }
    }
  }

  /** Tokens of a word followed by a blank and more text. */
  lemma WordThenRest(w: string, t: string)
    requires IsWord(w)
    ensures Tokens(w + " " + t) == [w] + Tokens(t)
  {
    var s := w + " " + t;
    assert WordLength(s) == |w| by {
      assert s[|w|] == ' ';
      assert forall k :: 0 <= k < |w| ==> !IsSpace(s[k]) by {
        assert forall k :: 0 <= k < |w| ==> s[k] == w[k];
      }
    }
    assert s[..|w|] == w;
    assert s[|w|..][1..] == t;
  }

  /** Splitting words joined by blanks gives the words back. */
  lemma {:induction false} SplitJoinedWords(tokens: seq<string>)
    requires forall i :: 0 <= i < |tokens| ==> IsWord(tokens[i])
    ensures Tokens(JoinWords(tokens)) == tokens
  {
    if |tokens| == 1 {
      var w := tokens[0];
      assert w[..|w|] == w && w[|w|..] == [];
    } else if |tokens| > 1 {
      SplitJoinedWords(tokens[1..]);
      WordThenRest(tokens[0], JoinWords(tokens[1..]));
      assert tokens == [tokens[0]] + tokens[1..];
    }
  }

  /** Reading `k` tokens leaves exactly the others to read. */
  lemma {:induction false} RestTokens(s: string, k: nat)
    requires k <= |Tokens(s)|
    ensures Tokens(Rest(s, k)) == Tokens(s)[k..]
    decreases |s|
  {
    if k > 0 && s != [] {
      if IsSpace(s[0]) {
        RestTokens(s[1..], k);
      } else {
        RestTokens(s[WordLength(s)..], k - 1);
      }
    }
  }

  /** After at least one token, what is left is empty or starts with whitespace. */
  lemma {:induction false} RestAfterWord(s: string, k: nat)
    requires 0 < k
    ensures Rest(s, k) == [] || IsSpace(Rest(s, k)[0])
    decreases |s|
  {
    if s != [] {
      if IsSpace(s[0]) {
        RestAfterWord(s[1..], k);
      } else if k > 1 {
        RestAfterWord(s[WordLength(s)..], k - 1);
      }
    }
  }

  /** Token `k` sits in `s` just before what is left after reading it. */
  lemma {:induction false} TokenPosition(s: string, k: nat)
    requires k < |Tokens(s)|
    ensures var r, t := Rest(s, k + 1), Tokens(s)[k];
      |r| + |t| <= |s| && s[|s| - |r| - |t|..|s| - |r|] == t
    decreases |s|
  {
    if IsSpace(s[0]) {
      TokenPosition(s[1..], k);
      TokenPositionSkip(s, k);
    } else if k > 0 {
      TokenPosition(s[WordLength(s)..], k - 1);
      TokenPositionWord(s, k);
    }
  }

  /** Leading whitespace shifts a token's position by one. */
  lemma TokenPositionSkip(s: string, k: nat)
    requires s != [] && IsSpace(s[0]) && k < |Tokens(s)|
    requires var r, t := Rest(s[1..], k + 1), Tokens(s[1..])[k];
      |r| + |t| <= |s| - 1 && s[1..][|s| - 1 - |r| - |t|..|s| - 1 - |r|] == t
    ensures var r, t := Rest(s, k + 1), Tokens(s)[k];
      |r| + |t| <= |s| && s[|s| - |r| - |t|..|s| - |r|] == t
  {
    var r, t := Rest(s, k + 1), Tokens(s)[k];
    assert Tokens(s) == Tokens(s[1..]) && r == Rest(s[1..], k + 1);
    SliceOfSuffix(s, 1, |s| - 1 - |r| - |t|, |s| - 1 - |r|);
  }

  /** A first word shifts the position of every later token by its length. */
  lemma TokenPositionWord(s: string, k: nat)
    requires s != [] && !IsSpace(s[0]) && 0 < k < |Tokens(s)|
    requires var n := WordLength(s);
      k - 1 < |Tokens(s[n..])| &&
      var r, t := Rest(s[n..], k), Tokens(s[n..])[k - 1];
      |r| + |t| <= |s| - n && s[n..][|s| - n - |r| - |t|..|s| - n - |r|] == t
    ensures var r, t := Rest(s, k + 1), Tokens(s)[k];
      |r| + |t| <= |s| && s[|s| - |r| - |t|..|s| - |r|] == t
  {
    var n := WordLength(s);
    var r, t := Rest(s, k + 1), Tokens(s)[k];
    assert Tokens(s) == [s[..n]] + Tokens(s[n..]) && r == Rest(s[n..], k);
    assert t == Tokens(s[n..])[k - 1];
    SliceOfSuffix(s, n, |s| - n - |r| - |t|, |s| - n - |r|);
  }

  /** A slice of a suffix is a slice of the whole. */
  lemma SliceOfSuffix(s: string, d: nat, a: nat, b: nat)
    requires d <= |s| && a <= b <= |s| - d
    ensures s[d..][a..b] == s[d + a..d + b]
  {
  }

  // ---------------------------------------------------------------------
  // handle_command

  /** What `handle_command` does with one line; the boolean it returns is
      false only for `Exit`. */
  datatype CliCommand =
    | Blank
    | Help
    | Exit
    | Register(username: string, password: string)
    | Login(username: string, password: string)
    | Logout
    | Send(recipient: string, content: string)
    | WhoAmI
    | UnknownCommand

  /** The `/send` body as written: the text one character past the first
      occurrence of the recipient anywhere in the line. */
  function SendBodyAsWritten(line: string): (body: string)
    requires |Tokens(line)| >= 3
  {
    var recipient := Tokens(line)[1];
    TokenPosition(line, 1);
    RestTokens(line, 2);
    var at := Find(line, recipient);
    var p := |line| - |Rest(line, 2)| - |recipient|;
    assert OccursAt(line, recipient, p);
    assert at.Some? && at.value <= p;
    line[at.value + |recipient| + 1..]
  }

  /** The `/send` body as intended: the text one character past the
      recipient token itself. */
  function SendBody(line: string): (body: string)
    requires |Tokens(line)| >= 3
    ensures Tokens(body) == Tokens(line)[2..]
  {
    RestTokens(line, 2);
    RestAfterWord(line, 2);
    Rest(line, 2)[1..]
  }

  /** `handle_command(cmdline)`; `fixedSend` picks the `/send` body. */
  function Interpret(line: string, fixedSend: bool): CliCommand {
    var tokens := Tokens(line);
    if tokens == [] then Blank
    else if tokens[0] == "/help" then Help
    else if tokens[0] == "/exit" then Exit
    else if tokens[0] == "/register" && |tokens| == 3 then Register(tokens[1], tokens[2])
    else if tokens[0] == "/login" && |tokens| == 3 then Login(tokens[1], tokens[2])
    else if tokens[0] == "/logout" then Logout
    else if tokens[0] == "/send" && |tokens| >= 3 then
      Send(tokens[1], if fixedSend then SendBody(line) else SendBodyAsWritten(line))
    else if tokens[0] == "/whoami" then WhoAmI
    else UnknownCommand
  }

  /** `handle_command` as written. */
  function HandleCommand(line: string): (c: CliCommand) {
    Interpret(line, false)
  }

  /** `handle_command` with the `/send` body fixed. */
  function HandleCommandFixed(line: string): (c: CliCommand) {
    Interpret(line, true)
  }

  /** The fixed `/send` hands on exactly the words after the recipient;
      the other commands take their arguments from whole tokens. */
  lemma SendKeepsWords(line: string)
    ensures var c := HandleCommandFixed(line); var ts := Tokens(line);
      (c == Blank <==> ts == []) &&
      (c.Send? ==> |ts| >= 3 && ts[0] == "/send" && c.recipient == ts[1] && Tokens(c.content) == ts[2..]) &&
      (c.Register? ==> ts == ["/register", c.username, c.password]) &&
      (c.Login? ==> ts == ["/login", c.username, c.password])
  {
  }

  /** The body as written is right whenever the recipient text does not
      occur before the recipient token. */
  lemma SendBodyAgrees(line: string)
    requires |Tokens(line)| >= 3
    requires Find(line, Tokens(line)[1]) == Some( |line| - |Rest(line, 2)| - |Tokens(line)[1]|)
    ensures SendBodyAsWritten(line) == SendBody(line)
  {
    var r := Rest(line, 2);
    RestTokens(line, 2);
    assert r != [];
    assert SendBodyAsWritten(line) == line[|line| - |r| + 1..];
    assert SendBody(line) == r[1..];
    RestIsSuffix(line, 2);
    assert line[|line| - |r|..][1..] == line[|line| - |r| + 1..];
  }

  /** What is left of blank-joined words after reading `k` of them. */
  lemma {:induction false} RestOfJoined(tokens: seq<string>, k: nat)
    requires forall i :: 0 <= i < |tokens| ==> IsWord(tokens[i])
    requires 0 < k < |tokens|
    ensures Rest(JoinWords(tokens), k) == " " + JoinWords(tokens[k..])
  {
    var w, tail := tokens[0], JoinWords(tokens[1..]);
    var s := w + " " + tail;
    assert WordLength(s) == |w| by {
      assert s[|w|] == ' ';
      assert forall j :: 0 <= j < |w| ==> !IsSpace(s[j]) by {
        assert forall j :: 0 <= j < |w| ==> s[j] == w[j];
      }
    }
    assert s[|w|..] == " " + tail;
    if k > 1 {
      RestOfJoined(tokens[1..], k - 1);
      assert (" " + tail)[1..] == tail;
      assert tokens[1..][k - 1..] == tokens[k..];
    }
  }

  /** The line "/send nd hi" holds three tokens. */
  lemma SendLineTokens(line: string)
    requires line == "/send nd hi"
    ensures Tokens(line) == ["/send", "nd", "hi"]
  {
    var ws := ["/send", "nd", "hi"];
    SplitJoinedWords(ws);
    assert JoinWords(ws) == line;
  }

  /** "nd" first occurs inside "/send". */
  lemma SendLineFind(line: string)
    requires line == "/send nd hi"
    ensures Find(line, "nd") == Some(3)
  {
    assert OccursAt(line, "nd", 3);
    assert line[0] == '/' && line[1] == 's' && line[2] == 'e';
    assert !OccursAt(line, "nd", 0) && !OccursAt(line, "nd", 1) && !OccursAt(line, "nd", 2);
  }

  /** "/send nd hi": the recipient "nd" first occurs inside "/send", so
      the body sent is "nd hi" instead of "hi". */
  lemma SendBodyTakesEarlierOccurrence(line: string)
    requires line == "/send nd hi"
    ensures HandleCommand(line) == Send("nd", "nd hi")
  {
    SendLineTokens(line);
    SendLineFind(line);
    assert line[6..] == "nd hi";
  }

  /** The fixed parsing of the same line sends "hi". */
  lemma SendBodyFixedOnEarlierOccurrence(line: string)
    requires line == "/send nd hi"
    ensures HandleCommandFixed(line) == Send("nd", "hi")
  {
    SendLineTokens(line);
    var ws := ["/send", "nd", "hi"];
    assert JoinWords(ws) == line;
    RestOfJoined(ws, 2);
    assert ws[2..] == ["hi"];
    assert SendBody(line) == "hi";
  }
}
