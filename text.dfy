/** The string handling the social network relies on: Java's `trim()` blank
    test, decimal session numbers, `String.join` for the list getters, and
    the "Mensagem de <sender>: <content>" message format with the prefix
    filter that purges a removed sender's messages. */
module Text {

  // ---------------------------------------------------------------------
  // Blank strings: `s.trim().isEmpty()`

  /** `trim()` drops every leading character at or below U+0020. */
  function TrimStart(s: string): (r: string)
    ensures |r| <= |s| && r == s[|s| - |r|..]
    ensures r != [] ==> r[0] > ' '
  {
    if s != [] && s[0] <= ' ' then TrimStart(s[1..]) else s
  }

  /** ... and every trailing character at or below U+0020. */
  function TrimEnd(s: string): (r: string)
    ensures |r| <= |s| && r == s[..|r|]
    ensures r != [] ==> r[|r| - 1] > ' '
  {
    if s != [] && s[|s| - 1] <= ' ' then TrimEnd(s[..|s| - 1]) else s
  }

  lemma {:induction false} TrimStartEmpty(s: string)
    ensures TrimStart(s) == "" <==> forall i :: 0 <= i < |s| ==> s[i] <= ' '
  {
    if s != [] {
      TrimStartEmpty(s[1..]);
      if s[0] <= ' ' {
        forall i | 0 <= i < |s| && (forall k :: 0 <= k < |s[1..]| ==> s[1..][k] <= ' ')
          ensures s[i] <= ' '
        {
          if i > 0 { assert s[i] == s[1..][i - 1]; }
        }
      }
    }
  }

  lemma {:induction false} TrimEndKeepsFirst(s: string)
    requires s != [] && s[0] > ' '
    ensures TrimEnd(s) != ""
  {
    if s[|s| - 1] <= ' ' {
      TrimEndKeepsFirst(s[..|s| - 1]);
    }
  }

  /** Java's `String.trim()`: what is left starts and ends above U+0020, and
      a string that already does is left as it is. */
  function Trim(s: string): (r: string)
    ensures |r| <= |s|
    ensures r != [] ==> r[0] > ' ' && r[|r| - 1] > ' '
    ensures s != [] && s[0] > ' ' && s[|s| - 1] > ' ' ==> r == s
  {
    TrimEnd(TrimStart(s))
  }

  /** Everything `TrimStart` cuts is at or below U+0020. */
  lemma {:induction false} TrimStartCutsBlanks(s: string)
    ensures forall k :: 0 <= k < |s| - |TrimStart(s)| ==> s[k] <= ' '
  {
    if s != [] && s[0] <= ' ' {
      TrimStartCutsBlanks(s[1..]);
      forall k | 1 <= k < |s| - |TrimStart(s)|
        ensures s[k] <= ' '
      {
        assert s[k] == s[1..][k - 1];
      }
    }
  }

  /** Everything `TrimEnd` cuts is at or below U+0020. */
  lemma {:induction false} TrimEndCutsBlanks(s: string)
    ensures forall k :: |TrimEnd(s)| <= k < |s| ==> s[k] <= ' '
  {
    if s != [] && s[|s| - 1] <= ' ' {
      TrimEndCutsBlanks(s[..|s| - 1]);
      forall k | |TrimEnd(s)| <= k < |s| - 1
        ensures s[k] <= ' '
      {
        assert s[k] == s[..|s| - 1][k];
      }
    }
  }

  lemma TrimStartAt(s: string, j: nat)
    requires j < |TrimStart(s)|
    ensures |s| - |TrimStart(s)| + j < |s|
    ensures TrimStart(s)[j] == s[|s| - |TrimStart(s)| + j]
  {
  }

  lemma TrimEndAt(s: string, j: nat)
    requires j < |TrimEnd(s)|
    ensures j < |s| && TrimEnd(s)[j] == s[j]
  {
  }

  /** What `trim()` keeps is a stretch of `s`, character by character. */
  lemma TrimKeepsStretch(s: string)
    ensures |s| - |TrimStart(s)| + |Trim(s)| <= |s|
    ensures forall j :: 0 <= j < |Trim(s)| ==> Trim(s)[j] == s[|s| - |TrimStart(s)| + j]
  {
    forall j | 0 <= j < |Trim(s)|
      ensures Trim(s)[j] == s[|s| - |TrimStart(s)| + j]
    {
      TrimEndAt(TrimStart(s), j);
      TrimStartAt(s, j);
    }
  }

  /** What `trim()` cuts after that stretch is at or below U+0020. */
  lemma TrimCutsTail(s: string)
    ensures forall k :: |s| - |TrimStart(s)| + |Trim(s)| <= k < |s| ==> s[k] <= ' '
  {
    var t := TrimStart(s);
    var i := |s| - |t|;
    TrimEndCutsBlanks(t);
    forall k | i + |TrimEnd(t)| <= k < |s|
      ensures s[k] <= ' '
    {
      assert s[k] == t[k - i];
    }
  }

  /** `trim()` cuts exactly the leading and the trailing run of characters
      at or below U+0020: what is left is the stretch of `s` that starts at
      `i`, everything before `i` and after that stretch is at or below
      U+0020, and (by `Trim`'s own contract) both its ends are above
      U+0020. */
  lemma TrimIsInfix(s: string)
    ensures var i := |s| - |TrimStart(s)|;
      && i + |Trim(s)| <= |s|
      && (forall j :: 0 <= j < |Trim(s)| ==> Trim(s)[j] == s[i + j])
      && (forall k :: 0 <= k < i ==> s[k] <= ' ')
      && (forall k :: i + |Trim(s)| <= k < |s| ==> s[k] <= ' ')
  {
    TrimStartCutsBlanks(s);
    TrimKeepsStretch(s);
    TrimCutsTail(s);
  }

  /** A login or password is rejected when `trim()` leaves nothing of it:
      every character is at or below U+0020 (`BlankIffTrimsToEmpty`). */
  predicate IsBlank(s: string)
  {
    forall i :: 0 <= i < |s| ==> s[i] <= ' '
  }

  /** The blank test is exactly `s.trim().isEmpty()`. */
  lemma BlankIffTrimsToEmpty(s: string)
    ensures IsBlank(s) <==> Trim(s) == ""
  {
    TrimStartEmpty(s);
    if TrimStart(s) != "" {
      TrimEndKeepsFirst(TrimStart(s));
    }
  }

  // ---------------------------------------------------------------------
  // Session identifiers: "session" + (++sessionCounter)

  predicate IsDigit(c: char)
  {
    '0' <= c <= '9'
  }

  function DigitChar(d: nat): (c: char)
    requires d < 10
    ensures IsDigit(c) && c as int - '0' as int == d
  {
    (d + '0' as int) as char
  }

  /** Java's decimal rendering of a non-negative `int`. */
  function NatToString(n: nat): (r: string)
    ensures |r| >= 1
    ensures forall i :: 0 <= i < |r| ==> IsDigit(r[i])
  {
    if n < 10 then [DigitChar(n)] else NatToString(n / 10) + [DigitChar(n % 10)]
  }

  /** Reads a string of decimal digits back as a number. */
  function ParseDigits(s: string): nat
    requires forall i :: 0 <= i < |s| ==> IsDigit(s[i])
  {
    if s == [] then 0
    else
      assert IsDigit(s[|s| - 1]);
      10 * ParseDigits(s[..|s| - 1]) + (s[|s| - 1] as int - '0' as int)
  }

  /** Decimal rendering round-trips. */
  lemma {:induction false} ParseNatToString(n: nat)
    ensures ParseDigits(NatToString(n)) == n
  {
    if n >= 10 {
      var s := NatToString(n);
      assert s[..|s| - 1] == NatToString(n / 10);
      ParseNatToString(n / 10);
    }
  }

  /** Different counters render differently. */
  lemma NatToStringInjective(a: nat, b: nat)
    ensures NatToString(a) == NatToString(b) ==> a == b
  {
    ParseNatToString(a);
    ParseNatToString(b);
  }

  const SessionPrefix: string := "session"

  /** The id `openSession` issues for counter value `k`. */
  function SessionId(k: nat): (id: string)
    ensures |id| > |SessionPrefix| && id[..|SessionPrefix|] == SessionPrefix
    ensures forall i :: |SessionPrefix| <= i < |id| ==> IsDigit(id[i])
  {
    SessionPrefix + NatToString(k)
  }

  /** Distinct counter values give distinct session ids. */
  lemma SessionIdInjective(a: nat, b: nat)
    ensures SessionId(a) == SessionId(b) ==> a == b
  {
    if SessionId(a) == SessionId(b) {
      assert NatToString(a) == SessionId(a)[|SessionPrefix|..];
      assert NatToString(b) == SessionId(b)[|SessionPrefix|..];
      NatToStringInjective(a, b);
    }
  }

  // ---------------------------------------------------------------------
  // `String.join(sep, list)` for the list getters

  function Join(xs: seq<string>, sep: string): (r: string)
    ensures xs == [] ==> r == ""
    ensures |xs| == 1 ==> r == xs[0]
  {
    if xs == [] then ""
    else if |xs| == 1 then xs[0]
    else xs[0] + sep + Join(xs[1..], sep)
  }

  /** The inverse reading of a joined list: cut at every separator. */
  function Split(s: string, c: char): (r: seq<string>)
    ensures |r| >= 1
  {
    if s == [] then [""]
    else
      var rest := Split(s[1..], c);
      if s[0] == c then [""] + rest else [[s[0]] + rest[0]] + rest[1..]
  }

  lemma {:induction false} SplitPrefix(a: string, s: string, c: char)
    requires c !in a
    ensures Split(a + s, c) == [a + Split(s, c)[0]] + Split(s, c)[1..]
  {
    if a != [] {
      assert (a + s)[0] == a[0] && (a + s)[1..] == a[1..] + s;
      SplitPrefix(a[1..], s, c);
      var rest := Split(a[1..] + s, c);
      assert rest[0] == a[1..] + Split(s, c)[0] && rest[1..] == Split(s, c)[1..];
      assert Split(a + s, c) == [[a[0]] + rest[0]] + rest[1..];
      assert [a[0]] + (a[1..] + Split(s, c)[0]) == a + Split(s, c)[0];
    } else {
      assert a + s == s && a + Split(s, c)[0] == Split(s, c)[0];
      assert [Split(s, c)[0]] + Split(s, c)[1..] == Split(s, c);
    }
  }

  /** A non-empty list of names none of which contains the separator can be
      read back from its joined form. */
  lemma {:induction false} SplitJoin(xs: seq<string>, c: char)
    requires xs != []
    requires forall i :: 0 <= i < |xs| ==> c !in xs[i]
    ensures Split(Join(xs, [c]), c) == xs
  {
    if |xs| == 1 {
      SplitPrefix(xs[0], "", c);
      assert xs[0] + "" == xs[0];
    } else {
      SplitJoin(xs[1..], c);
      var tail := Join(xs[1..], [c]);
      assert Join(xs, [c]) == xs[0] + ([c] + tail);
      SplitPrefix(xs[0], [c] + tail, c);
      assert ([c] + tail)[1..] == tail;
      assert xs[0] + "" == xs[0];
      assert [xs[0]] + xs[1..] == xs;
    }
  }

  /** The same reading for any list: an empty list or one with a separator
      inside a name is the only obstacle. */
  lemma JoinedListReadable(xs: seq<string>, c: char)
    ensures xs != [] && (forall i :: 0 <= i < |xs| ==> c !in xs[i]) ==> Split(Join(xs, [c]), c) == xs
  {
    if xs != [] && (forall i :: 0 <= i < |xs| ==> c !in xs[i]) {
      SplitJoin(xs, c);
    }
  }

  // ---------------------------------------------------------------------
  // `equalsIgnoreCase` against an all-ASCII word

  function LowerAscii(c: char): (r: char)
    ensures 'A' <= c <= 'Z' ==> r as int == c as int + 32
    ensures !('A' <= c <= 'Z') ==> r == c
  {
    if 'A' <= c <= 'Z' then (c as int + 32) as char else c
  }

  /** Every character of `s` folded by `LowerAscii`. */
  function LowerAsciiString(s: string): (r: string)
    ensures |r| == |s|
    ensures forall i :: 0 <= i < |s| ==> r[i] == LowerAscii(s[i])
  {
    seq(|s|, i requires 0 <= i < |s| => LowerAscii(s[i]))
  }

  /** Case-insensitive equality folding ASCII letters only: the two strings
      fold to the same string. */
  predicate EqualsIgnoreCase(a: string, b: string): (r: bool)
    ensures r <==> LowerAsciiString(a) == LowerAsciiString(b)
  {
    |a| == |b| && forall i :: 0 <= i < |a| ==> LowerAscii(a[i]) == LowerAscii(b[i])
  }

  // ---------------------------------------------------------------------
  // Message format and the purge filter

  /** The prefix `removeMessagesFrom(sender)` matches. */
  function SenderPrefix(sender: string): string
  {
    "Mensagem de " + sender + ":"
  }

  /** What a community broadcast delivers (`OwnBroadcastPurged` relates it
      to the purge prefix). */
  function CommunityMessage(sender: string, content: string): string
  {
    "Mensagem de " + sender + ": " + content
  }

  predicate StartsWith(s: string, prefix: string)
  {
    |prefix| <= |s| && s[..|prefix|] == prefix
  }

  predicate FromSender(m: string, sender: string)
  {
    StartsWith(m, SenderPrefix(sender))
  }

  /** `messages.removeIf(m -> m.startsWith("Mensagem de " + sender + ":"))` */
  function WithoutSender(msgs: seq<string>, sender: string): (r: seq<string>)
    ensures |r| <= |msgs|
    ensures forall i :: 0 <= i < |r| ==> r[i] in msgs && !FromSender(r[i], sender)
    ensures forall m :: m in msgs && !FromSender(m, sender) ==> m in r
  {
    if msgs == [] then []
    else if FromSender(msgs[0], sender) then WithoutSender(msgs[1..], sender)
    else [msgs[0]] + WithoutSender(msgs[1..], sender)
  }

  /** The filter keeps the relative order of what it keeps: filtering a
      concatenation filters each part. */
  lemma {:induction false} WithoutSenderAppend(a: seq<string>, b: seq<string>, sender: string)
    ensures WithoutSender(a + b, sender) == WithoutSender(a, sender) + WithoutSender(b, sender)
  {
    if a != [] {
      assert (a + b)[0] == a[0] && (a + b)[1..] == a[1..] + b;
      WithoutSenderAppend(a[1..], b, sender);
    } else {
      assert a + b == b;
    }
  }

  /** Filtering twice is filtering once. */
  lemma {:induction false} WithoutSenderIdempotent(msgs: seq<string>, sender: string)
    ensures WithoutSender(WithoutSender(msgs, sender), sender) == WithoutSender(msgs, sender)
  {
    if msgs != [] {
      WithoutSenderIdempotent(msgs[1..], sender);
    }
  }

  /** A broadcast by `sender` carries the prefix that the purge of `sender`
      matches, and its content follows one space after that prefix. */
  lemma OwnBroadcastPurged(sender: string, content: string)
    ensures FromSender(CommunityMessage(sender, content), sender)
    ensures CommunityMessage(sender, content)[|SenderPrefix(sender)|..] == " " + content
  {
    assert CommunityMessage(sender, content) == SenderPrefix(sender) + " " + content;
  }

  /** The match is by prefix, so removing the login "a" also purges the
      broadcasts of a login that starts with "a:". */
  lemma PurgeMatchesLongerLogin(content: string)
    ensures FromSender(CommunityMessage("a:b", content), "a")
  {
    assert CommunityMessage("a:b", content)[..|SenderPrefix("a")|] == SenderPrefix("a");
  }
}
