/**
 * Number and month formatting for the edit forms (src/lib/formatting.ts):
 * amounts are shown with two decimals and ',' between thousands groups,
 * parsed back by dropping the commas, and months are written 'Mmm-YYYY'
 * with the Portuguese abbreviations.
 */
module Formatting {
  import opened JsStrings
  import opened JsValues
  import opened DateUtils

  // ---------------------------------------------------------------- toFixed(2)

  /** The hundredths `toFixed(2)` prints: |x| * 100 rounded half up. */
  function Cents(x: real): nat {
    var a := if x < 0.0 then -x else x;
    (a * 100.0 + 0.5).Floor
  }

  function SignOf(x: real): string {
    if x < 0.0 then "-" else ""
  }

  lemma Pad2Length(n: nat)
    requires n < 100
    ensures |Pad2(n)| == 2
  {
    if n >= 10 { assert |NatToString(n / 10)| == 1; }
  }

  /** `x.toFixed(2)`: sign, whole part, a point and exactly two decimals. */
  function ToFixed2(x: real): string {
    SignOf(x) + NatToString(Cents(x) / 100) + "." + Pad2(Cents(x) % 100)
  }

  /** A value with at most two decimals prints exactly: its cents are |100 x|. */
  lemma CentsExact(c: int)
    ensures Cents(c as real / 100.0) == if c < 0 then -c else c
  {
    var a := if c < 0 then -c else c;
    assert (if c as real / 100.0 < 0.0 then -(c as real / 100.0) else c as real / 100.0) == a as real / 100.0;
    assert (a as real / 100.0) * 100.0 + 0.5 == a as real + 0.5;
  }

  // ---------------------------------------------------------------- thousands grouping

  /** A ',' before every three-digit group counted from the right. */
  function GroupThousands(d: string): (r: string)
    decreases |d|
  {
    if |d| <= 3 then d else GroupThousands(d[..|d| - 3]) + "," + d[|d| - 3..]
  }

  /**
   * `integerPart.replace(/\B(?=(\d{3})+(?!\d))/g, ',')`: the position
   * after a leading '-' is a word boundary, so the sign never gets a comma.
   */
  function InsertThousandsSeparators(i: string): string {
    if i != [] && i[0] == '-' then "-" + GroupThousands(i[1..]) else GroupThousands(i)
  }

  /** Groups of digits split by ',': the first of 1 to 3 digits, every other of exactly 3. */
  predicate IsGrouped(g: string) {
    var parts := Split(g, ',');
    1 <= |parts[0]| <= 3
    && (forall i :: 0 <= i < |parts| ==> AllDigits(parts[i]))
    && (forall i :: 1 <= i < |parts| ==> |parts[i]| == 3)
  }

  lemma JoinAppend(ps: seq<string>, b: string, c: char)
    requires |ps| >= 1
    ensures Join(ps + [b], c) == Join(ps, c) + [c] + b
    decreases |ps|
  {
    if |ps| > 1 {
      assert (ps + [b])[1..] == ps[1..] + [b];
      JoinAppend(ps[1..], b, c);
    }
  }

  /** Splitting `a + [c] + b` with `c` absent from `b` splits `a` and adds `b`. */
  lemma SplitAppend(a: string, b: string, c: char)
    requires c !in b
    ensures Split(a + [c] + b, c) == Split(a, c) + [b]
  {
    var ps := Split(a, c);
    JoinAppend(ps, b, c);
    SplitJoin(ps + [b], c);
  }

  lemma {:induction false} GroupThousandsDigits(d: string)
    requires AllDigits(d)
    ensures AllDigits(RemoveAll(GroupThousands(d), ','))
    ensures RemoveAll(GroupThousands(d), ',') == d
    decreases |d|
  {
    if |d| <= 3 {
      DigitsExclude(d, ',');
      RemoveAllAbsent(d, ',');
    } else {
      var h, t := d[..|d| - 3], d[|d| - 3..];
      assert AllDigits(h) && AllDigits(t);
      GroupThousandsDigits(h);
      var g := GroupThousands(h);
      assert GroupThousands(d) == g + "," + t;
      RemoveAllAppend(g + ",", t, ',');
      RemoveAllAppend(g, ",", ',');
      assert RemoveAll(",", ',') == [];
      DigitsExclude(t, ',');
      RemoveAllAbsent(t, ',');
      assert RemoveAll(GroupThousands(d), ',') == h + t;
      assert h + t == d;
    }
  }

  /** Grouping a non-empty digit string yields well-formed thousands groups. */
  lemma {:induction false} GroupThousandsGrouped(d: string)
    requires d != [] && AllDigits(d)
    ensures IsGrouped(GroupThousands(d))
    decreases |d|
  {
    if |d| <= 3 {
      DigitsExclude(d, ',');
      SplitJoin([d], ',');
    } else {
      var h, t := d[..|d| - 3], d[|d| - 3..];
      assert AllDigits(h) && AllDigits(t);
      GroupThousandsGrouped(h);
      GroupedSnoc(GroupThousands(h), t);
    }
  }

  /** Another group of three digits after a ',' keeps a grouping well formed. */
  lemma GroupedSnoc(g: string, t: string)
    requires IsGrouped(g) && AllDigits(t) && |t| == 3
    ensures IsGrouped(g + "," + t)
  {
    DigitsExclude(t, ',');
    SplitAppend(g, t, ',');
    var ps := Split(g, ',');
    assert Split(g + "," + t, ',') == ps + [t];
  }

  // ---------------------------------------------------------------- display format

  /** `formatNumberForDisplay(v)`; `None` is null or undefined. */
  function FormatNumberForDisplay(v: Option<real>): (r: string)
    ensures v == None ==> r == ""
  {
    match v
    case None => ""
    case Some(x) =>
      var parts := Split(ToFixed2(x), '.');
      var decimalPart := if |parts| >= 2 then parts[1] else "undefined";
      InsertThousandsSeparators(parts[0]) + "." + decimalPart
  }

  lemma FixedParts(x: real)
    ensures Split(ToFixed2(x), '.') == [SignOf(x) + NatToString(Cents(x) / 100), Pad2(Cents(x) % 100)]
  {
    var ip, dp := SignOf(x) + NatToString(Cents(x) / 100), Pad2(Cents(x) % 100);
    assert '.' !in ip by { assert forall i :: 0 <= i < |ip| ==> ip[i] == '-' || IsDigit(ip[i]); }
    assert '.' !in dp by { assert AllDigits(dp); }
    assert Join([ip, dp], '.') == ToFixed2(x);
    SplitJoin([ip, dp], '.');
  }

  /**
   * The display form is the sign, the whole part in thousands groups, a
   * point and exactly two decimals; dropping its commas gives
   * `toFixed(2)` back.
   */
  lemma FormatNumberShape(x: real)
    ensures var r := FormatNumberForDisplay(Some(x));
      var g := GroupThousands(NatToString(Cents(x) / 100));
      var dd := Pad2(Cents(x) % 100);
      r == SignOf(x) + g + "." + dd && IsGrouped(g)
      && |dd| == 2 && AllDigits(dd)
      && RemoveAll(r, ',') == ToFixed2(x)
  {
    var n := NatToString(Cents(x) / 100);
    DisplayParts(x);
    GroupThousandsGrouped(n);
    GroupThousandsDigits(n);
    Pad2Length(Cents(x) % 100);
    RemoveCommas(SignOf(x), GroupThousands(n), n, Pad2(Cents(x) % 100));
  }

  lemma DisplayParts(x: real)
    ensures FormatNumberForDisplay(Some(x))
         == SignOf(x) + GroupThousands(NatToString(Cents(x) / 100)) + "." + Pad2(Cents(x) % 100)
  {
    FixedParts(x);
    SignedSeparators(SignOf(x), NatToString(Cents(x) / 100));
  }

  /** The separators leave a leading sign alone and group the digits after it. */
  lemma SignedSeparators(sign: string, n: string)
    requires sign == "" || sign == "-"
    requires n != [] && AllDigits(n)
    ensures InsertThousandsSeparators(sign + n) == sign + GroupThousands(n)
  {
    if sign == "" {
      assert sign + n == n;
      assert n[0] != '-' by { assert IsDigit(n[0]); }
    } else {
      assert (sign + n)[0] == '-';
      assert (sign + n)[1..] == n;
    }
  }

  lemma RemoveCommas(sign: string, g: string, n: string, dd: string)
    requires ',' !in sign && RemoveAll(g, ',') == n && AllDigits(dd)
    ensures RemoveAll(sign + g + "." + dd, ',') == sign + n + "." + dd
  {
    var tail := "." + dd;
    assert sign + g + "." + dd == (sign + g) + tail;
    RemoveAllAppend(sign + g, tail, ',');
    RemoveAllAppend(sign, g, ',');
    RemoveAllAbsent(sign, ',');
    DigitsExclude(dd, ',');
    assert ',' !in tail by { assert tail == ['.'] + dd; }
    RemoveAllAbsent(tail, ',');
    assert sign + n + tail == sign + n + "." + dd;
  }

  // ---------------------------------------------------------------- parsing

  /** The exponent of an ExponentPart ('e' or 'E', optional sign, digits), or 0 when absent. */
  function ExponentOf(s: string): int {
    if s == [] || (s[0] != 'e' && s[0] != 'E') then 0
    else
      var t := s[1..];
      var d := LeadingDigits(SkipSign(t));
      if d == [] then 0
      else if t[0] == '-' then -(DigitsValue(d) as int)
      else DigitsValue(d)
  }

  /** `m` times ten to the `e`. */
  function Scale(m: real, e: int): (r: real)
    ensures m >= 0.0 ==> r >= 0.0
    decreases if e < 0 then -e else e
  {
    if e == 0 then m
    else if e > 0 then Scale(m, e - 1) * 10.0
    else Scale(m, e + 1) / 10.0
  }

  /** The value of the digits after a decimal point. */
  function FractionValue(fp: string): (r: real)
    requires AllDigits(fp)
    ensures 0.0 <= r
  {
    if fp == [] then 0.0 else (DigitValue(fp[0]) as real + FractionValue(fp[1..])) / 10.0
  }

  /** The value of the digits `ip` '.' `fp`. */
  function Mantissa(ip: string, fp: string): (r: real)
    requires AllDigits(ip) && AllDigits(fp)
    ensures r >= 0.0
  {
    DigitsValue(ip) as real + FractionValue(fp)
  }

  /**
   * The longest prefix of `b` that is an unsigned decimal literal; None
   * when it has no digit before or after the point.
   */
  function ParseUnsignedDecimal(b: string): (r: Option<real>)
    ensures r.Some? ==> r.value >= 0.0
  {
    var ip := LeadingDigits(b);
    var rest := b[|ip|..];
    var hasPoint := rest != [] && rest[0] == '.';
    var fp := if hasPoint then LeadingDigits(rest[1..]) else [];
    if ip == [] && fp == [] then None
    else
      var after := if hasPoint then rest[1 + |fp|..] else rest;
      var m := Mantissa(ip, fp);
      Some(Scale(m, ExponentOf(after)))
  }

  /** `parseFloat(s)`; None is NaN. */
  function ParseFloat(s: string): Option<real> {
    var t := TrimStart(s);
    match ParseUnsignedDecimal(SkipSign(t))
    case None => None
    case Some(m) => Some(if t != [] && t[0] == '-' then -m else m)
  }

  /** `parseFormattedNumber(s)`: commas dropped, then `parseFloat`, with 0 for '' and for NaN. */
  function ParseFormattedNumber(s: string): (r: real)
    ensures s == "" ==> r == 0.0
    ensures s != "" && ParseFloat(RemoveAll(s, ',')) == None ==> r == 0.0
  {
    if s == "" then 0.0
    else match ParseFloat(RemoveAll(s, ','))
      case None => 0.0
      case Some(x) => x
  }

  /** `parseFloat` reads back what `toFixed(2)` printed, for a value with at most two decimals. */
  lemma ParseFloatToFixed(c: int)
    ensures ParseFloat(ToFixed2(c as real / 100.0)) == Some(c as real / 100.0)
  {
    ToFixedParsesToCents(c as real / 100.0);
    RoundedExact(c);
  }

  /** A value with at most two decimals is its own rounding. */
  lemma RoundedExact(c: int)
    ensures Rounded(c as real / 100.0) == c as real / 100.0
  {
    CentsExact(c);
  }

  /** The characters `toFixed(2)` prints for a sign and a number of hundredths. */
  function FixedText(neg: bool, k: nat): string {
    (if neg then "-" else "") + NatToString(k / 100) + "." + Pad2(k % 100)
  }

  lemma ParseFixedText(neg: bool, k: nat, v: real, r: real)
    requires v == k as real / 100.0 && r == (if neg then -v else v)
    ensures ParseFloat(FixedText(neg, k)) == Some(r)
  {
    FixedTextParts(neg, k);
    ParseSignedDecimal(neg, NatToString(k / 100), Pad2(k % 100), v);
  }

  lemma FixedTextParts(neg: bool, k: nat)
    ensures FixedText(neg, k) == (if neg then "-" else "") + (NatToString(k / 100) + "." + Pad2(k % 100))
    ensures ParseUnsignedDecimal(NatToString(k / 100) + "." + Pad2(k % 100)) == Some(k as real / 100.0)
  {
    var n, dd := NatToString(k / 100), Pad2(k % 100);
    Pad2Length(k % 100);
    DigitsValueOfNatToString(k / 100);
    Pad2Value(k % 100);
    CentsValue(k);
    ParseDecimalDigits(n, dd, k as real / 100.0);
  }

  /** An optional '-' before digits, a point and digits. */
  lemma ParseSignedDecimal(neg: bool, n: string, dd: string, v: real)
    requires n != [] && AllDigits(n)
    requires ParseUnsignedDecimal(n + "." + dd) == Some(v)
    ensures ParseFloat((if neg then "-" else "") + (n + "." + dd)) == Some(if neg then -v else v)
  {
    DigitIsNotSign(n[0]);
    var body := n + "." + dd;
    assert body[0] == n[0];
    ParseFloatSigned(neg, body, v);
  }

  lemma DigitIsNotSign(c: char)
    requires IsDigit(c)
    ensures c != '-' && c != '+' && !IsWhitespace(c)
  {
  }

  lemma CentsValue(a: nat)
    ensures (a / 100) as real + (a % 100) as real / 100.0 == a as real / 100.0
  {
  }

  /** Digits, a point and two digits read back as a decimal. */
  lemma ParseDecimalDigits(n: string, dd: string, v: real)
    requires n != [] && AllDigits(n) && |dd| == 2 && AllDigits(dd)
    requires v == DigitsValue(n) as real + DigitsValue(dd) as real / 100.0
    ensures ParseUnsignedDecimal(n + "." + dd) == Some(v)
  {
    MantissaTwoDecimals(n, dd);
    UnsignedDecimalOf(n, dd, v);
  }

  lemma MantissaTwoDecimals(ip: string, fp: string)
    requires AllDigits(ip) && AllDigits(fp) && |fp| == 2
    ensures Mantissa(ip, fp) == DigitsValue(ip) as real + DigitsValue(fp) as real / 100.0
  {
    var d0, d1 := DigitValue(fp[0]), DigitValue(fp[1]);
    var t := fp[1..];
    assert t[0] == fp[1];
    assert t[1..] == [];
    assert FractionValue(t[1..]) == 0.0;
    assert FractionValue(t) == d1 as real / 10.0;
    assert FractionValue(fp) == (d0 as real + FractionValue(t)) / 10.0;
    assert fp[..|fp| - 1] == [fp[0]];
    assert [fp[0]][..0] == [];
    assert DigitsValue([fp[0]]) == d0;
    assert DigitsValue(fp) == d0 * 10 + d1;
  }

  /** Digits, a point and digits, with nothing after them. */
  lemma UnsignedDecimalOf(ip: string, fp: string, m: real)
    requires ip != [] && AllDigits(ip) && AllDigits(fp) && m == Mantissa(ip, fp)
    ensures ParseUnsignedDecimal(ip + "." + fp) == Some(m)
  {
    DecimalPieces(ip, fp);
    PointThenDigits(fp);
  }

  lemma DecimalPieces(ip: string, fp: string)
    requires AllDigits(ip)
    ensures LeadingDigits(ip + "." + fp) == ip && (ip + "." + fp)[|ip|..] == "." + fp
  {
    var rest := "." + fp;
    assert ip + "." + fp == ip + rest;
    assert rest[0] == '.' && !IsDigit(rest[0]);
    LeadingDigitsOf(ip, rest);
    assert (ip + rest)[|ip|..] == rest;
  }

  lemma PointThenDigits(fp: string)
    requires AllDigits(fp)
    ensures var rest := "." + fp; rest != [] && rest[0] == '.' && rest[1..] == fp
    ensures LeadingDigits(fp) == fp && ("." + fp)[1 + |fp|..] == []
  {
    LeadingDigitsOf(fp, []);
    assert fp + [] == fp;
  }

  /** `parseFloat` of an optional '-' before an unsigned literal starting with a digit. */
  lemma ParseFloatSigned(neg: bool, body: string, v: real)
    requires body != [] && body[0] != '-' && body[0] != '+' && !IsWhitespace(body[0])
    requires ParseUnsignedDecimal(body) == Some(v)
    ensures ParseFloat((if neg then "-" else "") + body) == Some(if neg then -v else v)
  {
    SignedLiteral(neg, body);
  }

  /** A sign before a literal: nothing to trim, the sign is skipped, and the first character says which sign. */
  lemma SignedLiteral(neg: bool, body: string)
    requires body != [] && body[0] != '-' && body[0] != '+' && !IsWhitespace(body[0])
    ensures var s := (if neg then "-" else "") + body;
      TrimStart(s) == s && SkipSign(s) == body && s != [] && (s[0] == '-' <==> neg)
  {
    if neg {
      MinusLiteral(body);
    } else {
      assert "" + body == body;
      TrimStartNoop(body);
    }
  }

  lemma MinusLiteral(body: string)
    ensures var s := "-" + body; s[0] == '-' && s[1..] == body && SkipSign(s) == body
    ensures TrimStart("-" + body) == "-" + body
  {
    var s := "-" + body;
    assert s[0] == '-' && s[1..] == body;
    TrimStartNoop(s);
  }

  /**
   * Round trip: reading back the display form of a value with at most two
   * decimals (an integer number of cents) gives the value.
   */
  lemma ParseFormatRoundTrip(c: int)
    ensures ParseFormattedNumber(FormatNumberForDisplay(Some(c as real / 100.0))) == c as real / 100.0
  {
    var x := c as real / 100.0;
    FormatNumberShape(x);
    ParseFloatToFixed(c);
  }

  // ---------------------------------------------------------------- form helpers

  /** `formatCurrencyForInput(v)`: the display format, '' for null. */
  function FormatCurrencyForInput(v: Option<real>): (r: string)
    ensures v == None ==> r == ""
    ensures v.Some? ==> RemoveAll(r, ',') == ToFixed2(v.value)
  {
    match v
    case None => ""
    case Some(x) =>
      FormatNumberShape(x);
      FormatNumberForDisplay(v)
  }

  /** `formatPercentageForInput(v)`: plain `toFixed(2)`, '' for null. */
  function FormatPercentageForInput(v: Option<real>): (r: string)
    ensures v == None ==> r == ""
    ensures v.Some? ==> ParseFloat(r) == Some(Rounded(v.value))
  {
    match v
    case None => ""
    case Some(x) =>
      ToFixedParsesToCents(x);
      ToFixed2(x)
  }

  /** The value `toFixed(2)` shows: `x` rounded to hundredths, half away from zero. */
  function Rounded(x: real): real {
    var v := Cents(x) as real / 100.0;
    if x < 0.0 then -v else v
  }

  /**
   * `parseFloat` reads `toFixed(2)` back as the value rounded to
   * hundredths; a small negative value prints as '-0.00' and reads as 0.
   */
  lemma ToFixedParsesToCents(x: real)
    ensures ParseFloat(ToFixed2(x)) == Some(Rounded(x))
  {
    assert ToFixed2(x) == FixedText(x < 0.0, Cents(x));
    ParseFixedText(x < 0.0, Cents(x), Cents(x) as real / 100.0, Rounded(x));
  }

  /** The characters a numeric field keeps: `value.replace(/[^0-9.,-]/g, '')`. */
  predicate IsNumericChar(c: char) {
    IsDigit(c) || c == '.' || c == ',' || c == '-'
  }

  function KeepNumericChars(s: string): (r: string)
    ensures forall i :: 0 <= i < |r| ==> IsNumericChar(r[i])
    ensures (forall i :: 0 <= i < |s| ==> IsNumericChar(s[i])) ==> r == s
  {
    if s == [] then []
    else (if IsNumericChar(s[0]) then [s[0]] else []) + KeepNumericChars(s[1..])
  }

  datatype NumericInput = NumericInput(display: string, numeric: real)

  /** `handleNumericInput(value, isPercentage)`. */
  function HandleNumericInput(value: string, isPercentage: bool): (r: NumericInput)
    ensures var cleaned := KeepNumericChars(value);
      (cleaned == "" || cleaned == "-") ==> r == NumericInput(cleaned, 0.0)
    ensures var cleaned := KeepNumericChars(value);
      !(cleaned == "" || cleaned == "-") ==>
        r.numeric == ParseFormattedNumber(cleaned)
        && r.display == (if isPercentage then FormatPercentageForInput(Some(r.numeric))
                         else FormatNumberForDisplay(Some(r.numeric)))
  {
    var cleaned := KeepNumericChars(value);
    if cleaned == "" || cleaned == "-" then NumericInput(cleaned, 0.0)
    else
      var numeric := ParseFormattedNumber(cleaned);
      NumericInput(if isPercentage then FormatPercentageForInput(Some(numeric))
                   else FormatNumberForDisplay(Some(numeric)), numeric)
  }

  /** Feeding a grouped display back into the input handler shows it unchanged. */
  lemma DisplayIsStable(c: int)
    ensures var d := FormatNumberForDisplay(Some(c as real / 100.0));
      HandleNumericInput(d, false) == NumericInput(d, c as real / 100.0)
  {
    var x := c as real / 100.0;
    var d := FormatNumberForDisplay(Some(x));
    FormatNumberShape(x);
    ParseFormatRoundTrip(c);
    var g := GroupThousands(NatToString(Cents(x) / 100));
    GroupedChars(g);
    DisplayChars(SignOf(x), g, Pad2(Cents(x) % 100));
  }

  /** The display form consists of characters the input handler keeps, and is more than a sign. */
  lemma DisplayChars(sign: string, g: string, dd: string)
    requires sign == "" || sign == "-"
    requires DigitsOrSep(g, ',') && AllDigits(dd) && |dd| == 2
    ensures var d := sign + g + "." + dd;
      (forall i :: 0 <= i < |d| ==> IsNumericChar(d[i])) && d != "" && d != "-"
  {
    var d := sign + g + "." + dd;
    forall i | 0 <= i < |d| ensures IsNumericChar(d[i]) {
      if i < |sign| { assert d[i] == '-'; }
      else if i < |sign| + |g| { assert d[i] == g[i - |sign|]; }
      else if i == |sign| + |g| { assert d[i] == '.'; }
      else { assert d[i] == dd[i - |sign| - |g| - 1]; }
    }
    assert |d| >= 3;
  }

  predicate DigitsOrSep(s: string, c: char) {
    forall i :: 0 <= i < |s| ==> IsDigit(s[i]) || s[i] == c
  }

  lemma GroupedChars(g: string)
    requires IsGrouped(g)
    ensures DigitsOrSep(g, ',')
  {
    var ps := Split(g, ',');
    JoinChars(ps, ',');
    assert Join(ps, ',') == g;
  }

  lemma {:induction false} JoinChars(ps: seq<string>, c: char)
    requires |ps| >= 1 && forall i :: 0 <= i < |ps| ==> AllDigits(ps[i])
    ensures DigitsOrSep(Join(ps, c), c)
    decreases |ps|
  {
    if |ps| > 1 {
      JoinChars(ps[1..], c);
      var j := Join(ps, c);
      var tail := Join(ps[1..], c);
      assert j == ps[0] + [c] + tail;
      var h := ps[0];
      assert AllDigits(h);
      forall i | 0 <= i < |j| ensures IsDigit(j[i]) || j[i] == c {
        if i < |h| {
          assert j[i] == h[i];
          assert IsDigit(h[i]);
        } else if i > |h| {
          var k := i - |h| - 1;
          assert 0 <= k < |tail|;
          assert j[i] == tail[k];
          assert IsDigit(tail[k]) || tail[k] == c;
        } else {
          assert j[i] == c;
        }
      }
    }
  }

  // ---------------------------------------------------------------- months

  const MonthNames: seq<string> := ["Jan", "Fev", "Mar", "Abr", "Mai", "Jun", "Jul", "Ago", "Set", "Out", "Nov", "Dez"]

  /** `formatMonthYear(date)`: 'Mmm-YYYY' from the date's local month and year. */
  function FormatMonthYear(ym: YearMonth): (r: string)
    requires 0 <= ym.month < 12
    ensures |r| >= 5 && r[..3] == MonthNames[ym.month] && r[3] == '-'
  {
    MonthNames[ym.month] + "-" + IntToString(ym.year)
  }

  /** `names.indexOf(s)`. */
  function IndexOfName(names: seq<string>, s: string): (r: int)
    ensures -1 <= r < |names|
    ensures r == -1 <==> s !in names
    ensures r >= 0 ==> names[r] == s && s !in names[..r]
  {
    if names == [] then -1
    else if names[0] == s then 0
    else
      var r := IndexOfName(names[1..], s);
      assert names[1..] == names[1..][..];
      if r == -1 then -1 else (assert names[..r + 1] == [names[0]] + names[1..][..r]; r + 1)
  }

  /**
   * `parseMonthYear(s)`: exactly two '-' separated parts, a known month
   * abbreviation and a numeric year; the day is the 15th.
   */
  function ParseMonthYear(s: string): (r: Option<LocalDate>)
    ensures var parts := Split(s, '-');
      r.None? <==> |parts| != 2 || parts[0] !in MonthNames || ParseInt(parts[1]).None?
    ensures r.Some? ==>
              r.value.day == 15 && 0 <= r.value.month < 12
              && MonthNames[r.value.month] == Split(s, '-')[0]
              && r.value.year == MakeFullYear(ParseInt(Split(s, '-')[1]).value)
  {
    var parts := Split(s, '-');
    if |parts| != 2 then None
    else
      var monthIndex := IndexOfName(MonthNames, parts[0]);
      if monthIndex == -1 then None
      else match ParseInt(parts[1])
        case None => None
        case Some(year) => Some(LocalDate(MakeFullYear(year), monthIndex, 15))
  }

  /** The abbreviations are distinct and contain no '-'. */
  lemma MonthNameFacts(m: int)
    requires 0 <= m < 12
    ensures '-' !in MonthNames[m]
    ensures IndexOfName(MonthNames, MonthNames[m]) == m
  {
    var s := MonthNames[m];
    assert |s| == 3 && IsLetter(s[0]) && IsLetter(s[1]) && IsLetter(s[2]);
    LettersNoDash(s);
    var r := IndexOfName(MonthNames, s);
    assert MonthNames[r] == s;
    if r != m {
      MonthNamesDistinct(r, m);
    }
  }

  predicate IsLetter(c: char) { 'A' <= c <= 'Z' || 'a' <= c <= 'z' }

  lemma LettersNoDash(s: string)
    requires |s| == 3 && IsLetter(s[0]) && IsLetter(s[1]) && IsLetter(s[2])
    ensures '-' !in s
  {
    assert s == [s[0], s[1], s[2]];
  }

  lemma MonthNamesDistinct(i: int, j: int)
    requires 0 <= i < 12 && 0 <= j < 12 && i != j
    ensures MonthNames[i] != MonthNames[j]
  {
    var a, b := MonthNames[i], MonthNames[j];
    assert a[0] != b[0] || a[1] != b[1] || a[2] != b[2];
  }

  /** A month abbreviation, '-' and digits parse back to that month and year. */
  lemma ParseNameAndDigits(m: int, digits: string, r: Option<LocalDate>)
    requires 0 <= m < 12 && digits != [] && AllDigits(digits)
    requires r == Some(LocalDate(MakeFullYear(DigitsValue(digits)), m, 15))
    ensures ParseMonthYear(MonthNames[m] + "-" + digits) == r
  {
    MonthNameFacts(m);
    SplitNameDigits(MonthNames[m], digits);
    ParseIntOfDigits(digits);
  }

  lemma SplitNameDigits(name: string, digits: string)
    requires '-' !in name && AllDigits(digits)
    ensures Split(name + "-" + digits, '-') == [name, digits]
  {
    DigitsExclude(digits, '-');
    assert Join([name, digits], '-') == name + "-" + digits;
    SplitJoin([name, digits], '-');
  }

  /** Reading back a formatted month of a year from 0 on gives that month, on the 15th. */
  lemma ParseFormattedMonth(m: int, y: nat)
    requires 0 <= m < 12
    ensures ParseMonthYear(FormatMonthYear(YearMonth(y, m))) == Some(LocalDate(MakeFullYear(y), m, 15))
  {
    DigitsValueOfNatToString(y);
    ParseNameAndDigits(m, NatToString(y), Some(LocalDate(MakeFullYear(y), m, 15)));
  }

  /** Round trip: from year 100 on, parsing a formatted month gives back its year and month. */
  lemma MonthYearRoundTrip(ym: YearMonth)
    requires 0 <= ym.month < 12 && ym.year >= 100
    ensures ParseMonthYear(FormatMonthYear(ym)) == Some(LocalDate(ym.year, ym.month, 15))
  {
    ParseFormattedMonth(ym.month, ym.year);
  }

  /** Two-digit years come back in the 1900s: the `Date` constructor's rule. */
  lemma TwoDigitYearShifts(m: int, y: int)
    requires 0 <= m < 12 && 0 <= y <= 99
    ensures ParseMonthYear(FormatMonthYear(YearMonth(y, m))) == Some(LocalDate(1900 + y, m, 15))
  {
    ParseFormattedMonth(m, y);
  }

  /** A negative year prints with a second '-', so the label does not parse back. */
  lemma NegativeYearUnreadable(m: int, y: int)
    requires 0 <= m < 12 && y < 0
    ensures ParseMonthYear(FormatMonthYear(YearMonth(y, m))) == None
  {
    var name, digits := MonthNames[m], NatToString(-y);
    MonthNameFacts(m);
    assert FormatMonthYear(YearMonth(y, m)) == name + "-" + ("-" + digits);
    SplitNameDashDigits(name, digits);
  }

  lemma SplitNameDashDigits(name: string, digits: string)
    requires '-' !in name && AllDigits(digits)
    ensures |Split(name + "-" + ("-" + digits), '-')| == 3
  {
    var ps: seq<string> := [name, [], digits];
    NameDashDigitsJoin(name, digits, ps);
    SplitThreeParts(ps, name + "-" + ("-" + digits));
  }

  lemma NameDashDigitsJoin(name: string, digits: string, ps: seq<string>)
    requires '-' !in name && AllDigits(digits) && ps == [name, [], digits]
    ensures Join(ps, '-') == name + "-" + ("-" + digits)
    ensures forall i :: 0 <= i < |ps| ==> '-' !in ps[i]
  {
    DigitsExclude(digits, '-');
    JoinThree(name, [], digits, '-');
    var e: string := [];
    assert e + ['-'] + digits == "-" + digits;
    assert ps[0] == name && ps[1] == e && ps[2] == digits;
  }

  lemma SplitThreeParts(ps: seq<string>, s: string)
    requires |ps| == 3 && Join(ps, '-') == s
    requires forall i :: 0 <= i < |ps| ==> '-' !in ps[i]
    ensures |Split(s, '-')| == 3
  {
    SplitJoin(ps, '-');
  }
}
