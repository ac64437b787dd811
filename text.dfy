/** The Python string operations the core relies on: the `in` substring
    test, `str.replace`, `str.split`, `str.strip`, `str.lower` restricted to
    ASCII letters, and the decimal rendering of an id inside an f-string. */
module Text {

  // ---------------------------------------------------------------------
  // Substring test and replacement
  // ---------------------------------------------------------------------

  /** `pat in s`: some window of `s` equals `pat`. */
  predicate Contains(s: string, pat: string)
    decreases |s|
  {
    |pat| <= |s| && (s[..|pat|] == pat || (|s| > 0 && Contains(s[1..], pat)))
  }

  /** `s.replace(pat, rep)`: scanning left to right, every non-overlapping
      occurrence of `pat` is replaced by `rep`. */
  function ReplaceAll(s: string, pat: string, rep: string): string
    requires pat != []
    decreases |s|
  {
    if |s| < |pat| then s
    else if s[..|pat|] == pat then rep + ReplaceAll(s[|pat|..], pat, rep)
    else [s[0]] + ReplaceAll(s[1..], pat, rep)
  }

  /** `s.split(pat)`: the pieces between the occurrences that `ReplaceAll`
      would replace. There is always at least one piece. */
  function Split(s: string, pat: string): (pieces: seq<string>)
    requires pat != []
    ensures |pieces| >= 1
    decreases |s|
  {
    if |s| < |pat| then [s]
    else if s[..|pat|] == pat then [[]] + Split(s[|pat|..], pat)
    else
      var rest := Split(s[1..], pat);
      [[s[0]] + rest[0]] + rest[1..]
  }

  /** `sep.join(pieces)`. */
  function Join(pieces: seq<string>, sep: string): string
  {
    if |pieces| == 0 then []
    else if |pieces| == 1 then pieces[0]
    else pieces[0] + sep + Join(pieces[1..], sep)
  }

  lemma {:induction false} JoinPrependChar(c: char, pieces: seq<string>, sep: string)
    requires |pieces| >= 1
    ensures Join([[c] + pieces[0]] + pieces[1..], sep) == [c] + Join(pieces, sep)
  {
    var ps := [[c] + pieces[0]] + pieces[1..];
    if |pieces| > 1 {
      assert ps[1..] == pieces[1..];
    }
  }

  /** `str.replace` agrees with splitting on the pattern and joining the
      pieces with the replacement. */
  lemma {:induction false} ReplaceIsJoinOfSplit(s: string, pat: string, rep: string)
    requires pat != []
    ensures ReplaceAll(s, pat, rep) == Join(Split(s, pat), rep)
    decreases |s|
  {
    if |s| < |pat| {
    } else if s[..|pat|] == pat {
      ReplaceIsJoinOfSplit(s[|pat|..], pat, rep);
      var rest := Split(s[|pat|..], pat);
      assert ([[]] + rest)[1..] == rest;
    } else {
      ReplaceIsJoinOfSplit(s[1..], pat, rep);
      JoinPrependChar(s[0], Split(s[1..], pat), rep);
    }
  }

  /** Replacing a pattern by itself changes nothing. */
  lemma {:induction false} ReplaceBySelf(s: string, pat: string)
    requires pat != []
    ensures ReplaceAll(s, pat, pat) == s
    decreases |s|
  {
    if |s| < |pat| {
    } else if s[..|pat|] == pat {
      ReplaceBySelf(s[|pat|..], pat);
      assert s == s[..|pat|] + s[|pat|..];
    } else {
      ReplaceBySelf(s[1..], pat);
      assert s == [s[0]] + s[1..];
    }
  }

  /** Splitting on a pattern and joining back with it gives the input. */
  lemma SplitJoinRoundTrip(s: string, pat: string)
    requires pat != []
    ensures Join(Split(s, pat), pat) == s
  {
    ReplaceIsJoinOfSplit(s, pat, pat);
    ReplaceBySelf(s, pat);
  }

  /** A text in which the pattern does not occur passes through `replace`
      unchanged, whatever the replacement. */
  lemma {:induction false} ReplaceAbsent(s: string, pat: string, rep: string)
    requires pat != []
    requires !Contains(s, pat)
    ensures ReplaceAll(s, pat, rep) == s
    decreases |s|
  {
    if |s| < |pat| {
    } else {
      assert s[..|pat|] != pat;
      ReplaceAbsent(s[1..], pat, rep);
      assert s == [s[0]] + s[1..];
    }
  }

  /** A pattern whose first character does not occur in `s` does not occur
      in `s`. */
  lemma {:induction false} AbsentWithoutFirst(s: string, pat: string)
    requires pat != [] && pat[0] !in s
    ensures !Contains(s, pat)
    decreases |s|
  {
    if |pat| <= |s| {
      assert s[..|pat|][0] == s[0];
      AbsentWithoutFirst(s[1..], pat);
    }
  }

  /** An occurrence at the front is replaced, and the scan resumes after it. */
  lemma ReplaceAtFront(s: string, pat: string, rep: string)
    requires pat != []
    ensures ReplaceAll(pat + s, pat, rep) == rep + ReplaceAll(s, pat, rep)
  {
    var t := pat + s;
    assert t[..|pat|] == pat && t[|pat|..] == s;
  }

  /** A prefix holding no character that starts the pattern passes through
      `replace` unchanged. */
  lemma {:induction false} ReplaceSkipPrefix(a: string, s: string, pat: string, rep: string)
    requires pat != [] && pat[0] !in a
    ensures ReplaceAll(a + s, pat, rep) == a + ReplaceAll(s, pat, rep)
    decreases |a|
  {
    if a != [] {
      var t := a + s;
      assert a == [a[0]] + a[1..];
      assert t == [a[0]] + (a[1..] + s);
      assert a[0] != pat[0];
      if |t| >= |pat| {
        assert t[..|pat|][0] == a[0];
        assert ReplaceAll(t, pat, rep) == [a[0]] + ReplaceAll(a[1..] + s, pat, rep);
      }
      ReplaceSkipPrefix(a[1..], s, pat, rep);
    } else {
      assert a + s == s;
    }
  }

  // ---------------------------------------------------------------------
  // Whitespace stripping
  // ---------------------------------------------------------------------

  /** Python's `str.isspace()` for one character. */
  predicate IsSpace(c: char)
  {
    c == ' ' || ('\t' <= c <= '\r') || ('\U{1C}' <= c <= '\U{1F}')
    || c == '\U{85}' || c == '\U{A0}' || c == '\U{1680}'
    || ('\U{2000}' <= c <= '\U{200A}') || c == '\U{2028}' || c == '\U{2029}'
    || c == '\U{202F}' || c == '\U{205F}' || c == '\U{3000}'
  }

  /** Neither end of `s` is whitespace. */
  predicate IsStripped(s: string)
  {
    s == [] || (!IsSpace(s[0]) && !IsSpace(s[|s| - 1]))
  }

  /** `s.lstrip()`: the longest suffix of `s` that does not start with whitespace. */
  function TrimLeft(s: string): (r: string)
    ensures |r| <= |s| && r == s[|s| - |r|..]
    ensures forall k :: 0 <= k < |s| - |r| ==> IsSpace(s[k])
    ensures r != [] ==> !IsSpace(r[0])
    decreases |s|
  {
    if s != [] && IsSpace(s[0]) then TrimLeft(s[1..]) else s
  }

  /** `s.rstrip()`: the longest prefix of `s` that does not end with whitespace. */
  function TrimRight(s: string): (r: string)
    ensures |r| <= |s| && r == s[..|r|]
    ensures forall k :: |r| <= k < |s| ==> IsSpace(s[k])
    ensures r != [] ==> !IsSpace(r[|r| - 1])
    decreases |s|
  {
    if s != [] && IsSpace(s[|s| - 1]) then TrimRight(s[..|s| - 1]) else s
  }

  lemma TrimLeftSkips(c: char, s: string)
    requires IsSpace(c)
    ensures TrimLeft([c] + s) == TrimLeft(s)
  {
    assert ([c] + s)[1..] == s;
  }

  lemma TrimRightSkips(s: string, c: char)
    requires IsSpace(c)
    ensures TrimRight(s + [c]) == TrimRight(s)
  {
    assert (s + [c])[..|s|] == s;
  }

  /** `s.strip()`: `s` less its leading and trailing whitespace. */
  function Strip(s: string): (r: string)
    ensures IsStripped(r) && |r| <= |s|
  {
    var l := TrimLeft(s);
    var r := TrimRight(l);
    assert r != [] ==> r[0] == l[0];
    r
  }

  /** What `strip()` removes is whitespace and nothing else: the result is a
      slice of the input, and everything outside the slice is whitespace. */
  lemma StripIsSlice(s: string)
    ensures exists i, j :: 0 <= i <= j <= |s| && Strip(s) == s[i..j]
              && (forall k :: 0 <= k < i ==> IsSpace(s[k]))
              && (forall k :: j <= k < |s| ==> IsSpace(s[k]))
  {
    var l := TrimLeft(s);
    var i := |s| - |l|;
    var r := TrimRight(l);
    assert r == s[i..i + |r|];
    assert forall k :: i + |r| <= k < |s| ==> s[k] == l[k - i];
  }

  /** Stripping keeps every character that is not whitespace; in particular
      an address containing `@` still contains it after `strip()`. */
  lemma StripKeeps(s: string, c: char)
    requires c in s && !IsSpace(c)
    ensures c in Strip(s)
  {
    var k :| 0 <= k < |s| && s[k] == c;
    var l := TrimLeft(s);
    var i := |s| - |l|;
    assert i <= k;
    assert l[k - i] == c;
    var r := TrimRight(l);
    assert k - i < |r|;
    assert r[k - i] == c;
  }

  // ---------------------------------------------------------------------
  // Lower case
  // ---------------------------------------------------------------------

  function LowerChar(c: char): (d: char)
    ensures 'A' <= c <= 'Z' ==> 'a' <= d <= 'z' && d as int == c as int + 32
    ensures !('A' <= c <= 'Z') ==> d == c
  {
    if 'A' <= c <= 'Z' then (c as int + 32) as char else c
  }

  /** `s.lower()` on ASCII letters; every other character is kept. */
  function Lower(s: string): (r: string)
    ensures |r| == |s| && forall k :: 0 <= k < |s| ==> r[k] == LowerChar(s[k])
  {
    seq(|s|, k requires 0 <= k < |s| => LowerChar(s[k]))
  }

  // ---------------------------------------------------------------------
  // Decimal ids
  // ---------------------------------------------------------------------

  predicate IsDigit(c: char)
  {
    '0' <= c <= '9'
  }

  function DigitChar(d: nat): (c: char)
    requires d < 10
    ensures IsDigit(c) && c as int - '0' as int == d
  {
    ('0' as int + d) as char
  }

  /** `str(n)` for a non-negative integer: its decimal digits, with no
      leading zero except for zero itself. */
  function NatToString(n: nat): (s: string)
    ensures |s| >= 1 && forall k :: 0 <= k < |s| ==> IsDigit(s[k])
    ensures (s[0] == '0') == (n == 0)
    decreases n
  {
    if n < 10 then [DigitChar(n)] else NatToString(n / 10) + [DigitChar(n % 10)]
  }

  /** The value of a string of decimal digits, as an `<int:...>` route
      parameter is read. */
  function ParseNat(s: string): nat
    requires forall k :: 0 <= k < |s| ==> IsDigit(s[k])
  {
    if s == [] then 0
    else
      assert IsDigit(s[|s| - 1]);
      ParseNat(s[..|s| - 1]) * 10 + (s[|s| - 1] as int - '0' as int)
  }

  /** Reading back the rendered id gives the id. */
  lemma {:induction false} ParseNatToString(n: nat)
    ensures ParseNat(NatToString(n)) == n
    decreases n
  {
    var s := NatToString(n);
    if n < 10 {
      assert s[..|s| - 1] == [];
    } else {
      ParseNatToString(n / 10);
      assert s[..|s| - 1] == NatToString(n / 10);
    }
  }

  /** Rendering is injective: two ids never share a decimal form. */
  lemma NatToStringInjective(m: nat, n: nat)
    requires NatToString(m) == NatToString(n)
    ensures m == n
  {
    ParseNatToString(m);
    ParseNatToString(n);
  }
}
