/**
 * The JavaScript string operations that the application relies on:
 * `trim`, `toLowerCase`/`toUpperCase`, `indexOf`, `includes`, `split`
 * with a one-character separator, `startsWith`, and decimal rendering of
 * natural numbers. Strings are sequences of code points.
 */
module JsStrings {

  datatype Option<T> = None | Some(value: T)

  // ---------------------------------------------------------------- whitespace

  /** ECMAScript WhiteSpace and LineTerminator code points (what `trim` strips). */
  predicate IsWhitespace(c: char) {
    c == '\t' || c == '\n' || c == '\U{000B}' || c == '\U{000C}' || c == '\r' || c == ' '
    || c == '\U{00A0}' || c == '\U{1680}' || ('\U{2000}' <= c <= '\U{200A}')
    || c == '\U{2028}' || c == '\U{2029}' || c == '\U{202F}' || c == '\U{205F}'
    || c == '\U{3000}' || c == '\U{FEFF}'
  }

  predicate AllWhitespace(s: string) {
    forall i :: 0 <= i < |s| ==> IsWhitespace(s[i])
  }

  /** `s.trimStart()`: the suffix left after dropping leading whitespace. */
  function TrimStart(s: string): (r: string)
    ensures |r| <= |s| && r == s[|s| - |r|..]
    ensures AllWhitespace(s[..|s| - |r|])
    ensures r == [] || !IsWhitespace(r[0])
  {
    if s != [] && IsWhitespace(s[0]) then TrimStart(s[1..]) else s
  }

  /** `s.trimEnd()`: the prefix left after dropping trailing whitespace. */
  function TrimEnd(s: string): (r: string)
    ensures |r| <= |s| && r == s[..|r|]
    ensures AllWhitespace(s[|r|..])
    ensures r == [] || !IsWhitespace(r[|r| - 1])
  {
    if s != [] && IsWhitespace(s[|s| - 1]) then TrimEnd(s[..|s| - 1]) else s
  }

  /** `s.trim()`. */
  function Trim(s: string): string {
    TrimEnd(TrimStart(s))
  }

  /** A string trims to the empty string exactly when it is all whitespace. */
  lemma TrimEmptyIff(s: string)
    ensures Trim(s) == [] <==> AllWhitespace(s)
  {
    var t := TrimStart(s);
    if Trim(s) == [] {
      assert t == [] by {
        assert TrimEnd(t) == [] && AllWhitespace(t[0..]);
        assert t[0..] == t;
      }
      assert s[..|s|] == s;
    }
  }

  /** Trimmed text neither starts nor ends with whitespace, and sits inside `s`. */
  lemma TrimShape(s: string)
    ensures var r := Trim(s);
      (r == [] || (!IsWhitespace(r[0]) && !IsWhitespace(r[|r| - 1])))
      && MatchAt(s, r, |s| - |TrimStart(s)|)
  {
    TrimEndsClean(TrimStart(s));
    TrimInside(s);
  }

  lemma TrimEndsClean(t: string)
    requires t == [] || !IsWhitespace(t[0])
    ensures var r := TrimEnd(t); r == [] || (!IsWhitespace(r[0]) && !IsWhitespace(r[|r| - 1]))
  {
    var r := TrimEnd(t);
    if r != [] {
      assert r[0] == t[..|r|][0] == t[0];
    }
  }

  lemma TrimInside(s: string)
    ensures MatchAt(s, Trim(s), |s| - |TrimStart(s)|)
  {
    var t := TrimStart(s);
    var r := TrimEnd(t);
    SliceOfSuffix(s, |s| - |t|, t, r);
  }

  /** A prefix of a suffix of `s` is a slice of `s`. */
  lemma SliceOfSuffix(s: string, k: nat, t: string, r: string)
    requires k <= |s| && t == s[k..] && |r| <= |t| && r == t[..|r|]
    ensures MatchAt(s, r, k)
  {
    assert s[k..k + |r|] == s[k..][..|r|];
  }

  /** Nothing to trim at the start of a string that does not start with whitespace. */
  lemma TrimStartNoop(s: string)
    requires s != [] && !IsWhitespace(s[0])
    ensures TrimStart(s) == s
  {
  }

  /** A string that neither starts nor ends with whitespace trims to itself. */
  lemma TrimNoop(s: string)
    requires s != [] && !IsWhitespace(s[0]) && !IsWhitespace(s[|s| - 1])
    ensures Trim(s) == s
  {
    assert TrimStart(s) == s;
  }

  /** A space on each side of such a string is trimmed away. */
  lemma TrimPadded(s: string)
    requires s != [] && !IsWhitespace(s[0]) && !IsWhitespace(s[|s| - 1])
    ensures Trim(" " + s + " ") == s
  {
    var padded := " " + s + " ";
    assert padded[1..] == s + " ";
    assert TrimStart(s + " ") == s + " " by { assert (s + " ")[0] == s[0]; }
    assert (s + " ")[..|s|] == s;
    assert TrimEnd(s) == s;
  }

  // ---------------------------------------------------------------- case mapping

  /** `toLowerCase` on one code point: ASCII and Latin-1 capitals. */
  function LowerChar(c: char): char {
    if 'A' <= c <= 'Z' || ('\U{00C0}' <= c <= '\U{00DE}' && c != '\U{00D7}') then
      (c as int + 32) as char
    else c
  }

  /** `toUpperCase` on one code point: ASCII and Latin-1 small letters. */
  function UpperChar(c: char): char {
    if 'a' <= c <= 'z' || ('\U{00E0}' <= c <= '\U{00FE}' && c != '\U{00F7}') then
      (c as int - 32) as char
    else c
  }

  function Lower(s: string): (r: string)
    ensures |r| == |s|
  {
    seq(|s|, i requires 0 <= i < |s| => LowerChar(s[i]))
  }

  function Upper(s: string): (r: string)
    ensures |r| == |s|
  {
    seq(|s|, i requires 0 <= i < |s| => UpperChar(s[i]))
  }

  /** Lower-casing commutes with slicing. */
  lemma LowerSlice(s: string, i: nat, j: nat)
    requires i <= j <= |s|
    ensures Lower(s[i..j]) == Lower(s)[i..j]
  {
  }

  // ---------------------------------------------------------------- searching

  /** `t` occurs in `s` starting at index `k`. */
  predicate MatchAt(s: string, t: string, k: int) {
    0 <= k && k + |t| <= |s| && s[k..k + |t|] == t
  }

  /**
   * `s.indexOf(t, from)` for `from <= |s|`: the first index at or after
   * `from` where `t` occurs, or -1.
   */
  function IndexOf(s: string, t: string, from: nat): (r: int)
    requires from <= |s|
    decreases |s| - from
    ensures r == -1 || (from <= r && MatchAt(s, t, r))
    ensures r == -1 ==> forall k :: from <= k ==> !MatchAt(s, t, k)
    ensures r != -1 ==> forall k :: from <= k < r ==> !MatchAt(s, t, k)
  {
    if from + |t| > |s| then -1
    else if s[from..from + |t|] == t then from
    else IndexOf(s, t, from + 1)
  }

  /** `s.includes(t)`. */
  predicate Includes(s: string, t: string) {
    exists k {:trigger MatchAt(s, t, k)} :: 0 <= k <= |s| - |t| && MatchAt(s, t, k)
  }

  lemma IncludesIffIndexOf(s: string, t: string)
    ensures Includes(s, t) <==> IndexOf(s, t, 0) != -1
  {
    var r := IndexOf(s, t, 0);
    if r != -1 {
      assert 0 <= r <= |s| - |t| && MatchAt(s, t, r);
    }
  }

  lemma EmptyIncluded(s: string)
    ensures Includes(s, [])
  {
    assert MatchAt(s, [], 0);
  }

  /** `s.startsWith(p)`. */
  predicate StartsWith(s: string, p: string) {
    |p| <= |s| && s[..|p|] == p
  }

  // ---------------------------------------------------------------- splitting

  /** Index of the first `c` in `s`, or -1. */
  function IndexOfChar(s: string, c: char): (r: int)
    ensures -1 <= r < |s|
    ensures r == -1 <==> c !in s
    ensures r >= 0 ==> s[r] == c && c !in s[..r]
  {
    if s == [] then -1
    else if s[0] == c then 0
    else
      var r := IndexOfChar(s[1..], c);
      assert s[1..] == s[1..][..];
      if r == -1 then -1 else (assert s[..r + 1] == [s[0]] + s[1..][..r]; r + 1)
  }

  /** The inverse of `split`: the parts joined by `c`. */
  function Join(parts: seq<string>, c: char): string
    requires |parts| >= 1
  {
    if |parts| == 1 then parts[0] else parts[0] + [c] + Join(parts[1..], c)
  }

  /** `s.split(c)` for a one-character separator. */
  function Split(s: string, c: char): (r: seq<string>)
    decreases |s|
    ensures |r| >= 1
    ensures forall i :: 0 <= i < |r| ==> c !in r[i]
    ensures Join(r, c) == s
  {
    var i := IndexOfChar(s, c);
    if i < 0 then [s]
    else
      var rest := Split(s[i + 1..], c);
      assert s == s[..i] + [c] + s[i + 1..];
      [s[..i]] + rest
  }

  lemma {:induction false} IndexOfCharAfter(p: string, rest: string, c: char)
    requires c !in p
    ensures IndexOfChar(p + [c] + rest, c) == |p|
  {
    if p != [] {
      assert (p + [c] + rest)[1..] == p[1..] + [c] + rest;
      IndexOfCharAfter(p[1..], rest, c);
    }
  }

  /** Splitting the join of separator-free parts gives the parts back. */
  lemma {:induction false} SplitJoin(parts: seq<string>, c: char)
    requires |parts| >= 1
    requires forall i :: 0 <= i < |parts| ==> c !in parts[i]
    ensures Split(Join(parts, c), c) == parts
  {
    if |parts| > 1 {
      var p, tail := parts[0], Join(parts[1..], c);
      var s := p + [c] + tail;
      assert Join(parts, c) == s;
      IndexOfCharAfter(p, tail, c);
      assert s[..|p|] == p;
      assert s[|p| + 1..] == tail;
      SplitJoin(parts[1..], c);
      assert parts == [p] + parts[1..];
    } else {
      assert IndexOfChar(parts[0], c) == -1;
    }
  }

  /** A separator-free prefix and the separator split off as the first part. */
  lemma SplitCons(a: string, t: string, c: char)
    requires c !in a
    ensures Split(a + [c] + t, c) == [a] + Split(t, c)
  {
    var s := a + [c] + t;
    IndexOfCharAfter(a, t, c);
    assert s[..|a|] == a;
    assert s[|a| + 1..] == t;
  }

  /** A separator-free prefix, then nothing or the separator and anything: the prefix is the first part. */
  lemma SplitHead(a: string, rest: string, c: char)
    requires c !in a
    requires rest == [] || rest[0] == c
    ensures Split(a + rest, c)[0] == a
  {
    if rest == [] {
      assert a + rest == a;
      assert IndexOfChar(a, c) == -1;
    } else {
      assert a + rest == a + [c] + rest[1..];
      SplitCons(a, rest[1..], c);
    }
  }

  /** Splitting two separator-free parts joined by the separator gives them back. */
  lemma SplitTwo(a: string, b: string, c: char)
    requires c !in a && c !in b
    ensures Split(a + [c] + b, c) == [a, b]
  {
    var ps := [a, b];
    assert ps[1..] == [b];
    assert Join(ps, c) == a + [c] + b;
    SplitJoin(ps, c);
  }

  /** Joining three parts puts the separator between each two. */
  lemma JoinThree(a: string, b: string, d: string, c: char)
    ensures Join([a, b, d], c) == a + [c] + (b + [c] + d)
  {
    var ps := [a, b, d];
    assert ps[1..] == [b, d] && ps[1..][1..] == [d];
    assert Join([d], c) == d;
    assert Join([b, d], c) == b + [c] + d;
    assert Join(ps, c) == a + [c] + Join([b, d], c);
  }

  /** Removes every occurrence of `c` (`s.replace(/c/g, '')`). */
  function RemoveAll(s: string, c: char): (r: string)
    ensures c !in r
    ensures |r| <= |s|
  {
    if s == [] then []
    else if s[0] == c then RemoveAll(s[1..], c)
    else [s[0]] + RemoveAll(s[1..], c)
  }

  lemma {:induction false} RemoveAllAppend(a: string, b: string, c: char)
    ensures RemoveAll(a + b, c) == RemoveAll(a, c) + RemoveAll(b, c)
  {
    if a != [] {
      assert (a + b)[1..] == a[1..] + b;
      RemoveAllAppend(a[1..], b, c);
    } else {
      assert a + b == b;
    }
  }

  lemma {:induction false} RemoveAllAbsent(s: string, c: char)
    requires c !in s
    ensures RemoveAll(s, c) == s
  {
    if s != [] { RemoveAllAbsent(s[1..], c); }
  }

  // ---------------------------------------------------------------- digits

  predicate IsDigit(c: char) { '0' <= c <= '9' }

  predicate AllDigits(s: string) { forall i :: 0 <= i < |s| ==> IsDigit(s[i]) }

  /** A digit string holds no character that is not a digit. */
  lemma DigitsExclude(s: string, c: char)
    requires AllDigits(s) && !IsDigit(c)
    ensures c !in s
  {
  }

  function DigitChar(d: nat): (c: char)
    requires d < 10
    ensures IsDigit(c)
  {
    (48 + d) as char
  }

  function DigitValue(c: char): nat
    requires IsDigit(c)
  {
    c as int - 48
  }

  /** Decimal rendering of a natural number, as JavaScript's `String(n)`. */
  function NatToString(n: nat): (r: string)
    ensures |r| >= 1 && AllDigits(r)
  {
    if n < 10 then [DigitChar(n)] else NatToString(n / 10) + [DigitChar(n % 10)]
  }

  /** Decimal rendering of an integer, with a leading '-' when negative. */
  function IntToString(n: int): string {
    if n < 0 then "-" + NatToString(-n) else NatToString(n)
  }

  /** The value of a string of decimal digits. */
  function DigitsValue(s: string): nat
    requires AllDigits(s)
  {
    if s == [] then 0 else DigitsValue(s[..|s| - 1]) * 10 + DigitValue(s[|s| - 1])
  }

  lemma {:induction false} DigitsValueOfNatToString(n: nat)
    ensures DigitsValue(NatToString(n)) == n
  {
    if n >= 10 {
      var s := NatToString(n);
      assert s[..|s| - 1] == NatToString(n / 10);
      DigitsValueOfNatToString(n / 10);
    }
  }

  /** `String(n).padStart(2, '0')`. */
  function Pad2(n: nat): (r: string)
    ensures AllDigits(r) && |r| >= 2
  {
    if n < 10 then "0" + NatToString(n) else NatToString(n)
  }

  lemma Pad2Value(n: nat)
    ensures DigitsValue(Pad2(n)) == n
  {
    DigitsValueOfNatToString(n);
    if n < 10 {
      assert Pad2(n)[..1] == "0";
    }
  }

  /** Leading zeros do not change a digit string's value. */
  lemma {:induction false} DigitsValueAppend(a: string, b: string)
    requires AllDigits(a) && AllDigits(b)
    ensures AllDigits(a + b)
    ensures DigitsValue(a + b) == DigitsValue(a) * Pow10(|b|) + DigitsValue(b)
  {
    assert AllDigits(a + b) by {
      forall i | 0 <= i < |a + b| ensures IsDigit((a + b)[i]) {
        if i >= |a| { assert (a + b)[i] == b[i - |a|]; }
      }
    }
    if b != [] {
      var b' := b[..|b| - 1];
      var c := b[|b| - 1];
      assert (a + b)[..|a + b| - 1] == a + b' && (a + b)[|a + b| - 1] == c;
      assert AllDigits(b');
      DigitsValueAppend(a, b');
      ShiftDigit(DigitsValue(a), Pow10(|b'|), DigitsValue(b'), DigitValue(c));
    } else {
      assert a + b == a;
    }
  }

  lemma ShiftDigit(x: nat, p: nat, y: nat, d: nat)
    ensures (x * p + y) * 10 + d == x * (10 * p) + (y * 10 + d)
  {
  }

  function Pow10(n: nat): (r: nat)
    ensures r >= 1
  {
    if n == 0 then 1 else 10 * Pow10(n - 1)
  }

  // ---------------------------------------------------------------- number prefixes

  /** The longest prefix of `s` made of decimal digits. */
  function LeadingDigits(s: string): (r: string)
    ensures AllDigits(r) && |r| <= |s| && r == s[..|r|]
    ensures |r| == |s| || !IsDigit(s[|r|])
  {
    if s != [] && IsDigit(s[0]) then [s[0]] + LeadingDigits(s[1..]) else []
  }

  lemma {:induction false} LeadingDigitsOf(d: string, rest: string)
    requires AllDigits(d)
    requires rest == [] || !IsDigit(rest[0])
    ensures LeadingDigits(d + rest) == d
  {
    if d != [] {
      assert (d + rest)[1..] == d[1..] + rest;
      LeadingDigitsOf(d[1..], rest);
    } else {
      assert d + rest == rest;
    }
  }

  /**
   * `parseInt(s)` in base 10: leading whitespace skipped, an optional
   * sign, then the longest run of digits; None (NaN) when there is none.
   */
  function ParseInt(s: string): (r: Option<int>)
    ensures r.Some? ==> LeadingDigits(SkipSign(TrimStart(s))) != []
  {
    var t := TrimStart(s);
    var d := LeadingDigits(SkipSign(t));
    var v: int := if d == [] then 0 else DigitsValue(d);
    if d == [] then None
    else if t[0] == '-' then Some(-v)
    else Some(v)
  }

  function SkipSign(t: string): (r: string)
    ensures |r| <= |t|
  {
    if t != [] && (t[0] == '-' || t[0] == '+') then t[1..] else t
  }

  lemma ParseIntOfDigits(d: string)
    requires d != [] && AllDigits(d)
    ensures ParseInt(d) == Some(DigitsValue(d))
  {
    assert !IsWhitespace(d[0]);
    assert TrimStart(d) == d;
    assert SkipSign(d) == d;
    LeadingDigitsOf(d, []);
    assert d + [] == d;
  }
}
