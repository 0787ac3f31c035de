/**
  The JavaScript string built-ins the bot applies to the words of a command:
  `parseInt`, `String.prototype.trim`, `Array.prototype.join`, `startsWith`
  and the mention-stripping `replace(/<@\d+>/g, "")`.
 */
module Text {
  import opened Wrappers

  predicate IsDigit(c: char) { '0' <= c <= '9' }

  /** The whitespace characters `trim` removes that can occur in a chat message. */
  predicate IsSpace(c: char) { c == ' ' || c == '\t' || c == '\n' || c == '\r' }

  predicate AllDigits(s: string) { forall i :: 0 <= i < |s| ==> IsDigit(s[i]) }

  function DigitValue(c: char): nat
    requires IsDigit(c)
  {
    c as int - '0' as int
  }

  function DigitChar(d: nat): char
    requires d < 10
  {
    ('0' as int + d) as char
  }

  /** The longest prefix of `s` made of decimal digits. */
  function DigitPrefix(s: string): (r: string)
    ensures r <= s && AllDigits(r)
    ensures |r| == |s| || !IsDigit(s[|r|])
  {
    if s != [] && IsDigit(s[0]) then [s[0]] + DigitPrefix(s[1..]) else []
  }

  /** The value of a string of decimal digits, most significant digit first. */
  function DigitsValue(s: string): nat
    requires AllDigits(s)
  {
    if s == [] then 0 else DigitsValue(s[..|s| - 1]) * 10 + DigitValue(s[|s| - 1])
  }

  /** Decimal notation of a natural number, as `String(n)` writes it. */
  function ShowNat(n: nat): (s: string)
    ensures s != [] && AllDigits(s)
    ensures |s| > 1 ==> s[0] != '0'
  {
    (if n < 10 then [] else ShowNat(n / 10)) + [DigitChar(n % 10)]
  }

  /**
    `parseInt(s)` with the default radix on decimal input: an optional sign,
    then the longest run of digits; whatever follows the digits is ignored.
    `None` stands for `NaN`, the result when no digit is where one is needed.
   */
  function ParseInt(s: string): (r: Option<int>)
    ensures r.Some? <==> (|s| > 0 && IsDigit(s[0])) || (|s| > 1 && (s[0] == '-' || s[0] == '+') && IsDigit(s[1]))
    ensures r.Some? && r.value > 0 ==> s[0] != '-'
  {
    var signed := |s| > 0 && (s[0] == '-' || s[0] == '+');
    var digits := DigitPrefix(if signed then s[1..] else s);
    if digits == [] then None
    else if signed && s[0] == '-' then Some(-(DigitsValue(digits) as int))
    else Some(DigitsValue(digits))
  }

  lemma {:induction false} ShowNatValue(n: nat)
    ensures DigitsValue(ShowNat(n)) == n
  {
    var s := ShowNat(n);
    var p := if n < 10 then [] else ShowNat(n / 10);
    assert s == p + [DigitChar(n % 10)];
    assert s[..|s| - 1] == p;
    if n >= 10 {
      ShowNatValue(n / 10);
    }
  }

  lemma {:induction false} DigitPrefixOfDigits(d: string, rest: string)
    requires AllDigits(d)
    requires rest == [] || !IsDigit(rest[0])
    ensures DigitPrefix(d + rest) == d
  {
    if d != [] {
      assert (d + rest)[1..] == d[1..] + rest;
      DigitPrefixOfDigits(d[1..], rest);
    } else {
      assert d + rest == rest;
    }
  }

  /**
    `parseInt` reads back what `String(n)` writes, and ignores anything after
    the digits that does not begin with a digit: `parseInt("12abc")` is 12.
   */
  lemma ParseShowNat(n: nat, rest: string)
    requires rest == [] || !IsDigit(rest[0])
    ensures ParseInt(ShowNat(n) + rest) == Some(n)
  {
    var s := ShowNat(n) + rest;
    assert s[0] == ShowNat(n)[0];
    DigitPrefixOfDigits(ShowNat(n), rest);
    ShowNatValue(n);
  }

  /**
    A sign in front of a number is read: `parseInt("+5")` is 5 and
    `parseInt("-3")` is -3, whatever non-digit text follows.
   */
  lemma ParseSignedShowNat(n: nat, rest: string)
    requires rest == [] || !IsDigit(rest[0])
    ensures ParseInt("+" + ShowNat(n) + rest) == Some(n)
    ensures ParseInt("-" + ShowNat(n) + rest) == Some(-(n as int))
  {
    assert "+" + ShowNat(n) + rest == ['+'] + (ShowNat(n) + rest);
    assert "-" + ShowNat(n) + rest == ['-'] + (ShowNat(n) + rest);
    ParseAfterSign('+', n, rest);
    ParseAfterSign('-', n, rest);
  }

  lemma ParseAfterSign(sign: char, n: nat, rest: string)
    requires sign == '+' || sign == '-'
    requires rest == [] || !IsDigit(rest[0])
    ensures ParseInt([sign] + (ShowNat(n) + rest)) == Some(if sign == '-' then -(n as int) else n)
  {
    var u := ShowNat(n) + rest;
    assert ([sign] + u)[0] == sign && ([sign] + u)[1..] == u;
    DigitPrefixOfDigits(ShowNat(n), rest);
    ShowNatValue(n);
  }

  /** A string made only of digits reads as its decimal value. */
  lemma ParseAllDigits(s: string)
    requires s != [] && AllDigits(s)
    ensures ParseInt(s) == Some(DigitsValue(s))
  {
    DigitPrefixOfDigits(s, []);
    assert s + [] == s;
  }

  /** `s.trimStart()` */
  function TrimStart(s: string): (r: string)
    ensures |r| <= |s| && r == s[|s| - |r|..]
    ensures r == [] || !IsSpace(r[0])
    ensures forall i :: 0 <= i < |s| - |r| ==> IsSpace(s[i])
  {
    if s != [] && IsSpace(s[0]) then
      var r := TrimStart(s[1..]);
      assert forall i :: 1 <= i < |s| - |r| ==> s[i] == s[1..][i - 1];
      r
    else s
  }

  /** `s.trimEnd()` */
  function TrimEnd(s: string): (r: string)
    ensures |r| <= |s| && r == s[..|r|]
    ensures r == [] || !IsSpace(r[|r| - 1])
    ensures forall i :: |r| <= i < |s| ==> IsSpace(s[i])
  {
    if s != [] && IsSpace(s[|s| - 1]) then TrimEnd(s[..|s| - 1]) else s
  }

  /**
    `s.trim()`: the stretch of `s` that remains once the whitespace at both
    ends is cut off; it is empty exactly when `s` is all whitespace.
   */
  function Trim(s: string): (r: string)
    ensures r == [] || (!IsSpace(r[0]) && !IsSpace(r[|r| - 1]))
    ensures r == [] <==> AllSpace(s)
    ensures |r| <= |s|
  {
    var t := TrimStart(s);
    var r := TrimEnd(t);
    TrimParts(s, t, r);
    r
  }

  /** `s` is whitespace throughout. */
  predicate AllSpace(s: string)
  {
    s == [] || (IsSpace(s[0]) && AllSpace(s[1..]))
  }

  lemma {:induction false} AllSpaceEvery(s: string)
    ensures AllSpace(s) <==> forall i :: 0 <= i < |s| ==> IsSpace(s[i])
  {
    if s != [] {
      AllSpaceEvery(s[1..]);
      assert forall i :: 1 <= i < |s| ==> s[i] == s[1..][i - 1];
    }
  }

  /** What trimming keeps is one stretch of `s`, with only whitespace around it. */
  lemma TrimInner(s: string)
    ensures exists i :: Inner(s, Trim(s), i)
  {
    var t := TrimStart(s);
    var r := TrimEnd(t);
    assert Trim(s) == r;
    TrimParts(s, t, r);
    assert Inner(s, r, |s| - |t|);
  }

  /**
    Cutting white space off the front of `s` (giving `t`) and then off the
    back (giving `r`) leaves an inner part of `s`.
   */
  lemma TrimParts(s: string, t: string, r: string)
    requires |t| <= |s| && t == s[|s| - |t|..] && (forall i :: 0 <= i < |s| - |t| ==> IsSpace(s[i]))
    requires t == [] || !IsSpace(t[0])
    requires |r| <= |t| && r == t[..|r|] && (forall i :: |r| <= i < |t| ==> IsSpace(t[i]))
    requires r == [] || !IsSpace(r[|r| - 1])
    ensures Inner(s, r, |s| - |t|)
    ensures r == [] || (!IsSpace(r[0]) && !IsSpace(r[|r| - 1]))
    ensures r == [] <==> AllSpace(s)
  {
    var i := |s| - |t|;
    assert r == s[i..i + |r|];
    forall k | i + |r| <= k < |s| ensures IsSpace(s[k]) {
      assert s[k] == t[k - i];
    }
    assert Inner(s, r, i);
    if r != [] {
      assert r[0] == t[0];
    }
    InnerEmpty(s, r, i);
  }

  /** An inner part that does not start with whitespace is empty only when all of `s` is whitespace. */
  lemma InnerEmpty(s: string, r: string, i: int)
    requires Inner(s, r, i)
    requires r == [] || !IsSpace(r[0])
    ensures r == [] <==> AllSpace(s)
  {
    AllSpaceEvery(s);
    if r != [] {
      assert s[i] == r[0];
    }
  }

  /** `r` is the part of `s` from index `i` on, and `s` has only whitespace before and after it. */
  predicate Inner(s: string, r: string, i: int)
  {
    0 <= i <= |s| - |r| && r == s[i..i + |r|] &&
    (forall k | 0 <= k < i :: IsSpace(s[k])) && (forall k | i + |r| <= k < |s| :: IsSpace(s[k]))
  }

  /** Trimming leaves a string that neither starts nor ends with whitespace as it is. */
  lemma TrimTrimmed(s: string)
    requires s == [] || (!IsSpace(s[0]) && !IsSpace(s[|s| - 1]))
    ensures Trim(s) == s
  {
  }

  /** `words.join(sep)` */
  function Join(words: seq<string>, sep: string): string
  {
    if |words| == 0 then ""
    else if |words| == 1 then words[0]
    else words[0] + sep + Join(words[1..], sep)
  }

  /** `s.startsWith(prefix)` */
  predicate StartsWith(s: string, prefix: string) { prefix <= s }

  /** The Discord mention token of a user, `<@id>`. */
  function MentionToken(id: string): string { "<@" + id + ">" }

  /** Length of the match of `/<@\d+>/` at the very start of `s`; 0 when there is none. */
  function MentionLength(s: string): (n: nat)
    ensures n == 0 || 3 < n <= |s|
  {
    if |s| >= 2 && s[0] == '<' && s[1] == '@' then
      var d := |DigitPrefix(s[2..])|;
      if d > 0 && 2 + d < |s| && s[2 + d] == '>' then 3 + d else 0
    else 0
  }

  /** `t` is exactly one match of `/<@\d+>/`: `<@`, one or more digits, `>`. */
  predicate IsMentionToken(t: string)
  {
    |t| >= 4 && t[0] == '<' && t[1] == '@' && t[|t| - 1] == '>' && AllDigits(t[2..|t| - 1])
  }

  /** When `s` starts with a mention token of length `k`, that is the match `MentionLength` finds. */
  lemma MentionLengthOfToken(s: string, k: nat)
    requires k <= |s|
    ensures IsMentionToken(s[..k]) ==> MentionLength(s) == k
  {
    if IsMentionToken(s[..k]) {
      var id := s[2..k - 1];
      assert id == s[..k][2..k - 1];
      assert s[2..] == id + s[k - 1..];
      assert s[k - 1] == s[..k][k - 1];
      DigitPrefixOfDigits(id, s[k - 1..]);
    }
  }

  /**
    `MentionLength` finds a match exactly when `s` starts with one, and the
    prefix it measures is that match.
   */
  lemma MentionLengthMeans(s: string)
    ensures MentionLength(s) > 0 ==> IsMentionToken(s[..MentionLength(s)])
    ensures MentionLength(s) == 0 <==> forall k | 0 <= k <= |s| :: !IsMentionToken(s[..k])
  {
    var n := MentionLength(s);
    if n > 0 {
      var p := DigitPrefix(s[2..]);
      assert |p| == n - 3;
      assert s[..n][2..n - 1] == p;
    }
    forall k | 0 <= k <= |s| ensures IsMentionToken(s[..k]) ==> n == k {
      MentionLengthOfToken(s, k);
    }
  }

  /**
    A character that does not open a `<@digits>` match is kept, whether or not
    it is `<`: `<3`, `<#1>`, `<@&1>` and `<@>` come through whole.
   */
  lemma StripKeptChar(s: string)
    requires s != [] && forall k | 0 <= k <= |s| :: !IsMentionToken(s[..k])
    ensures StripMentions(s) == [s[0]] + StripMentions(s[1..])
  {
    MentionLengthMeans(s);
  }

  /**
    `s.replace(/<@\d+>/g, "")`: scanning left to right, every match is
    removed and the scan resumes after it (what removal joins up is not
    scanned again).
   */
  function StripMentions(s: string): (r: string)
    ensures |r| <= |s|
    decreases |s|
  {
    if s == [] then []
    else
      var m := MentionLength(s);
      if m > 0 then StripMentions(s[m..]) else [s[0]] + StripMentions(s[1..])
  }

  /** A mention at the start of a string is removed whole. */
  lemma StripLeadingMention(id: string, rest: string)
    requires id != [] && AllDigits(id)
    ensures StripMentions(MentionToken(id) + rest) == StripMentions(rest)
  {
    var s := MentionToken(id) + rest;
    assert s[2..] == id + (">" + rest);
    DigitPrefixOfDigits(id, ">" + rest);
    assert MentionLength(s) == 3 + |id|;
    assert s[3 + |id|..] == rest;
  }

  lemma StripPlainChar(s: string)
    requires s != [] && s[0] != '<'
    ensures StripMentions(s) == [s[0]] + StripMentions(s[1..])
  {
    assert MentionLength(s) == 0;
  }

  /** Text without `<` holds no mention: it comes through unchanged, whatever follows it. */
  lemma {:induction false} StripKeepsPlainText(a: string, b: string)
    requires forall i :: 0 <= i < |a| ==> a[i] != '<'
    ensures StripMentions(a + b) == a + StripMentions(b)
  {
    if a == [] {
      assert a + b == b && a + StripMentions(b) == StripMentions(b);
    } else {
      StripKeepsPlainText(a[1..], b);
      StripKeepsStep(a, b);
    }
  }

  lemma StripKeepsStep(a: string, b: string)
    requires a != [] && a[0] != '<'
    requires StripMentions(a[1..] + b) == a[1..] + StripMentions(b)
    ensures StripMentions(a + b) == a + StripMentions(b)
  {
    var s := a + b;
    assert s[0] == a[0] && s[1..] == a[1..] + b;
    StripPlainChar(s);
    FirstThenRest(a, StripMentions(b));
  }

  lemma AppendAssoc<T>(x: seq<T>, y: seq<T>, z: seq<T>)
    ensures x + (y + z) == (x + y) + z
  {
  }

  lemma FirstThenRest<T>(x: seq<T>, y: seq<T>)
    requires x != []
    ensures [x[0]] + (x[1..] + y) == x + y
  {
    assert [x[0]] + x[1..] == x;
  }

  /** Text without `<` is left as it is. */
  lemma StripPlainText(s: string)
    requires forall i :: 0 <= i < |s| ==> s[i] != '<'
    ensures StripMentions(s) == s
  {
    StripKeepsPlainText(s, []);
    assert s + [] == s;
  }

  /** A mention in the middle of a line is cut out, and the text around it is kept: `a<@1>b` becomes `ab`. */
  lemma StripInnerMention(a: string, id: string, b: string)
    requires forall i :: 0 <= i < |a| ==> a[i] != '<'
    requires id != [] && AllDigits(id)
    ensures StripMentions(a + MentionToken(id) + b) == a + StripMentions(b)
  {
    assert a + MentionToken(id) + b == a + (MentionToken(id) + b);
    StripKeepsPlainText(a, MentionToken(id) + b);
    StripLeadingMention(id, b);
  }

  /** A word that a command line's split on whitespace can produce and that holds no `<`. */
  predicate PlainWord(w: string)
  {
    w != [] && forall i :: 0 <= i < |w| ==> !IsSpace(w[i]) && w[i] != '<'
  }

  /** Plain words joined by spaces neither start nor end with whitespace and hold no `<`. */
  lemma {:induction false} JoinPlainWords(words: seq<string>)
    requires |words| > 0 && forall i :: 0 <= i < |words| ==> PlainWord(words[i])
    ensures var j := Join(words, " "); j != [] && !IsSpace(j[0]) && !IsSpace(j[|j| - 1])
    ensures var j := Join(words, " "); forall i :: 0 <= i < |j| ==> j[i] != '<'
  {
    if |words| > 1 {
      JoinPlainWords(words[1..]);
      var j := Join(words, " ");
      var t := Join(words[1..], " ");
      assert j == words[0] + " " + t;
      assert j[0] == words[0][0];
      assert j[|j| - 1] == t[|t| - 1];
      forall i | 0 <= i < |j| ensures j[i] != '<' {
        if i < |words[0]| {
          assert j[i] == words[0][i];
        } else if i > |words[0]| {
          assert j[i] == t[i - |words[0]| - 1];
        }
      }
    }
  }
}
