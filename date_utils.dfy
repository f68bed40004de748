/**
 * Date handling (src/lib/date-utils.ts) and the calendar facts shared by
 * the board, the filters and the preferences.
 *
 * The date library (date-fns with the pt-BR locale) and the JavaScript
 * `Date` object are a `Calendar`: total functions the model is
 * parameterised by. Instants are milliseconds since the epoch.
 */
module DateUtils {
  import opened JsStrings
  import opened JsValues
  import Seqs

  /** A calendar month: a full year and a month index 0..11, as `Date` reports them. */
  datatype YearMonth = YearMonth(year: int, month: int)

  datatype Calendar = Calendar(
    /** date-fns `parseISO`; None when the result is an invalid date. */
    parseISO: string -> Option<int>,
    /** date-fns `format(t, 'MMM-yyyy', { locale: ptBR })` in local time. */
    formatMonthYear: int -> string,
    /** date-fns `parse(s, 'MMM-yyyy', now, { locale: ptBR })`; None when invalid. */
    parseMonthYear: string -> Option<int>,
    /** `new Date(s)` read back with the local getters; None when invalid. */
    localMonthOf: string -> Option<YearMonth>,
    /** The local year and month of an instant. */
    monthOfInstant: int -> YearMonth,
    /**
     * The instant of `new Date(y, m, d)` in local time, the constructor's
     * two-digit-year rule and month roll-over included.
     */
    localInstant: (int, int, int) -> int,
    /** The local midnight of day `d` of month `m` of year `y` as `toISOString().split('T')[0]` renders it (in UTC). */
    isoDayOfLocal: (int, int, int) -> string
  )

  // ---------------------------------------------------------------- date-utils.ts

  /** The test `/^\d{4}-\d{2}-\d{2}(T\d{2}:\d{2}:\d{2})?/`; the optional group never changes its outcome. */
  predicate IsIsoDatePrefix(s: string) {
    |s| >= 10
    && IsDigit(s[0]) && IsDigit(s[1]) && IsDigit(s[2]) && IsDigit(s[3]) && s[4] == '-'
    && IsDigit(s[5]) && IsDigit(s[6]) && s[7] == '-' && IsDigit(s[8]) && IsDigit(s[9])
  }

  /** The pre-check is anchored only at the start: anything may follow the date. */
  lemma IsoPrefixIgnoresSuffix(s: string, rest: string)
    requires IsIsoDatePrefix(s)
    ensures IsIsoDatePrefix(s + rest)
  {
  }

  /** `safeParseISO(v)`. */
  function SafeParseISO(cal: Calendar, v: Value): (r: Option<int>)
    ensures !v.Str? || v.s == "" ==> r == None
    ensures v.Str? && !IsIsoDatePrefix(v.s) ==> r == None
    ensures v.Str? && IsIsoDatePrefix(v.s) ==> r == cal.parseISO(v.s)
  {
    if !Truthy(v) || !v.Str? then None
    else if !IsIsoDatePrefix(v.s) then None
    else cal.parseISO(v.s)
  }

  /** A string failing the pre-check is rejected whatever the library would say. */
  lemma RejectedWithoutParsing(c1: Calendar, c2: Calendar, s: string)
    requires !IsIsoDatePrefix(s)
    ensures SafeParseISO(c1, Str(s)) == SafeParseISO(c2, Str(s)) == None
  {
  }

  /** `isValidDateString(v)`. */
  predicate IsValidDateString(cal: Calendar, v: Value)
    ensures IsValidDateString(cal, v) <==> v.Str? && IsIsoDatePrefix(v.s) && cal.parseISO(v.s).Some?
  {
    SafeParseISO(cal, v) != None
  }

  /** `safeFormatMonthYear(v)`: the 'MMM-yyyy' label, or 'Sem Data'. */
  function SafeFormatMonthYear(cal: Calendar, v: Value): (r: string)
    ensures SafeParseISO(cal, v) == None ==> r == "Sem Data"
    ensures SafeParseISO(cal, v).Some? ==> r == cal.formatMonthYear(SafeParseISO(cal, v).value)
  {
    match SafeParseISO(cal, v)
    case None => "Sem Data"
    case Some(t) => cal.formatMonthYear(t)
  }

  lemma FormatInvalidIsSemData(cal: Calendar, v: Value)
    requires !IsValidDateString(cal, v)
    ensures SafeFormatMonthYear(cal, v) == "Sem Data"
  {
  }

  // ---------------------------------------------------------------- month keys 'YYYY-MM'

  /**
   * `${year}-${String(month + 1).padStart(2, '0')}`; `Date` getters keep
   * the month index in 0..11, which `% 12` leaves as it is.
   */
  function YearMonthKey(ym: YearMonth): (r: string)
    ensures |r| >= 4 && r[|r| - 3] == '-'
  {
    IntToString(ym.year) + "-" + Pad2(ym.month % 12 + 1)
  }

  /**
   * The 'YYYY-MM' month of a date string as the filters compute it, from
   * `new Date(s)`; an invalid date prints as 'NaN-NaN'.
   */
  function FilterMonthKey(cal: Calendar, s: string): string {
    match cal.localMonthOf(s)
    case None => "NaN-NaN"
    case Some(ym) => YearMonthKey(ym)
  }

  /** A local calendar day, as `new Date(year, month, day)` builds it. */
  datatype LocalDate = LocalDate(year: int, month: int, day: int)

  /** The key of a 4-digit year is 7 characters, 'YYYY-MM'. */
  lemma YearMonthKeyShape(ym: YearMonth)
    requires 1000 <= ym.year <= 9999 && 0 <= ym.month < 12
    ensures |YearMonthKey(ym)| == 7 && YearMonthKey(ym)[4] == '-'
    ensures AllDigits(YearMonthKey(ym)[..4]) && AllDigits(YearMonthKey(ym)[5..])
  {
    var y: nat := ym.year;
    assert |NatToString(y / 10)| == 3 by {
      assert |NatToString(y / 100)| == 2 by {
        assert |NatToString(y / 1000)| == 1;
      }
    }
    KeyIsYearDashMonth(ym);
    Pad2OfMonth(ym.month + 1);
    DashedSlices(YearMonthKey(ym), NatToString(y), Pad2(ym.month + 1));
  }

  /** A non-negative year's key is its digits, a dash and the two-digit month number. */
  lemma KeyIsYearDashMonth(ym: YearMonth)
    requires ym.year >= 0 && 0 <= ym.month < 12
    ensures YearMonthKey(ym) == NatToString(ym.year) + "-" + Pad2(ym.month + 1)
  {
    assert ym.month % 12 == ym.month;
  }

  /** Split at '-', a non-negative year's key gives back the year's digits and the month's two digits. */
  lemma YearMonthKeySplit(ym: YearMonth)
    requires ym.year >= 0 && 0 <= ym.month < 12
    ensures Split(YearMonthKey(ym), '-') == [NatToString(ym.year), Pad2(ym.month + 1)]
  {
    var y, m := NatToString(ym.year), Pad2(ym.month + 1);
    KeyIsYearDashMonth(ym);
    DigitsExclude(y, '-');
    DigitsExclude(m, '-');
    assert YearMonthKey(ym) == y + ['-'] + m;
    SplitTwo(y, m, '-');
  }

  lemma Pad2OfMonth(m: nat)
    requires 1 <= m <= 12
    ensures |Pad2(m)| == 2
  {
    if m >= 10 {
      assert |NatToString(m / 10)| == 1;
    }
  }

  lemma DashedSlices(k: string, y: string, p: string)
    requires |y| == 4 && k == y + "-" + p
    ensures |k| == 5 + |p| && k[4] == '-' && k[..4] == y && k[5..] == p
  {
  }

  /** The year-from-two-digits rule of the `Date(y, m, d)` constructor. */
  function MakeFullYear(y: int): int {
    if 0 <= y <= 99 then 1900 + y else y
  }

  /** `new Date(y, m + i, 1)` read back: the month `i` months after (y, m), year rolled over. */
  function ShiftMonth(ym: YearMonth, i: int): (r: YearMonth)
    requires 0 <= ym.month < 12 && i >= 0
    ensures 0 <= r.month < 12
    ensures r.year * 12 + r.month == MakeFullYear(ym.year) * 12 + ym.month + i
  {
    YearMonth(MakeFullYear(ym.year) + (ym.month + i) / 12, (ym.month + i) % 12)
  }

  /** Successive shifts are consecutive months of a (four-digit) calendar. */
  lemma ShiftMonthNext(ym: YearMonth, i: nat)
    requires 0 <= ym.month < 12 && ym.year >= 100
    ensures var a, b := ShiftMonth(ym, i), ShiftMonth(ym, i + 1);
      if a.month == 11 then b == YearMonth(a.year + 1, 0) else b == YearMonth(a.year, a.month + 1)
  {
  }

  /** The `i`-th month after `now`: `new Date(y, m + i, 1)` as 'YYYY-MM'. */
  function MonthAfter(now: YearMonth, i: nat): string
    requires 0 <= now.month < 12
  {
    YearMonthKey(ShiftMonth(now, i))
  }

  /** `MonthAfter(now, _)` as a function of the offset. */
  function MonthsAfter(now: YearMonth): nat -> string
    requires 0 <= now.month < 12
  {
    (i: nat) => MonthAfter(now, i)
  }

  /** One more offset appends the key of the month that many months on. */
  lemma MonthsAfterSnoc(now: YearMonth, i: nat)
    requires 0 <= now.month < 12
    ensures Seqs.Tabulate(i + 1, MonthsAfter(now)) == Seqs.Tabulate(i, MonthsAfter(now)) + [YearMonthKey(ShiftMonth(now, i))]
  {
    assert MonthsAfter(now)(i) == MonthAfter(now, i);
  }

  /** From a year of three or more digits, the month zero months after is the month itself. */
  lemma MonthAfterZero(now: YearMonth)
    requires 0 <= now.month < 12 && now.year >= 100
    ensures MonthAfter(now, 0) == YearMonthKey(now)
  {
    assert ShiftMonth(now, 0) == now;
  }
}
