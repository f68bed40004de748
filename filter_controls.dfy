/**
 * The filter bar of the board (src/components/filters/FilterControls.tsx):
 * the filter state, the options each dropdown offers, the month options,
 * the count of active filters and the updates the bar sends.
 */
module FilterControls {
  import opened JsStrings
  import opened JsValues
  import opened Seqs
  import DealModel
  import opened DateUtils
  import Formatting

  /** `FilterState`: the values selected in each dropdown. */
  datatype FilterState = FilterState(
    dataJanela: seq<string>,
    indexador: seq<string>,
    tipo: seq<string>,
    tipoNovo: seq<string>,
    veiculo: seq<string>,
    produto: seq<string>,
    gestora: seq<string>,
    setor: seq<string>,
    tipoCota: seq<string>)

  /** `keyof FilterState`. */
  datatype FilterKey = DataJanela | Indexador | Tipo | TipoNovo | Veiculo | Produto | Gestora | Setor | TipoCota

  const AllKeys: seq<FilterKey> := [DataJanela, Indexador, Tipo, TipoNovo, Veiculo, Produto, Gestora, Setor, TipoCota]

  lemma AllKeysComplete(k: FilterKey)
    ensures k in AllKeys
  {
  }

  lemma AllKeysDistinct()
    ensures forall i, j :: 0 <= i < j < |AllKeys| ==> AllKeys[i] != AllKeys[j]
  {
  }

  /** `filters[key]`. */
  function ListOf(f: FilterState, k: FilterKey): seq<string> {
    match k
    case DataJanela => f.dataJanela
    case Indexador => f.indexador
    case Tipo => f.tipo
    case TipoNovo => f.tipoNovo
    case Veiculo => f.veiculo
    case Produto => f.produto
    case Gestora => f.gestora
    case Setor => f.setor
    case TipoCota => f.tipoCota
  }

  /** `{ ...filters, [key]: selectedValues }`. */
  function UpdateKey(f: FilterState, k: FilterKey, values: seq<string>): (r: FilterState)
    ensures ListOf(r, k) == values
    ensures forall k' :: k' != k ==> ListOf(r, k') == ListOf(f, k')
  {
    match k
    case DataJanela => f.(dataJanela := values)
    case Indexador => f.(indexador := values)
    case Tipo => f.(tipo := values)
    case TipoNovo => f.(tipoNovo := values)
    case Veiculo => f.(veiculo := values)
    case Produto => f.(produto := values)
    case Gestora => f.(gestora := values)
    case Setor => f.(setor := values)
    case TipoCota => f.(tipoCota := values)
  }

  /** The state `clearAllFilters` sends: every list empty. */
  const Cleared: FilterState := FilterState([], [], [], [], [], [], [], [], [])

  lemma ClearedIsEmpty(k: FilterKey)
    ensures ListOf(Cleared, k) == []
  {
  }

  /** The number of selected values over the keys `ks`. */
  function CountOver(f: FilterState, ks: seq<FilterKey>): nat {
    if ks == [] then 0 else |ListOf(f, ks[0])| + CountOver(f, ks[1..])
  }

  /** `getTotalActiveFilters()`: the sum of the lengths of all lists. */
  function TotalActiveFilters(f: FilterState): (r: nat)
    ensures forall k :: |ListOf(f, k)| <= r
  {
    CountOverBounds(f, AllKeys);
    AllKeysCover();
    CountOver(f, AllKeys)
  }

  lemma AllKeysCover()
    ensures forall k: FilterKey :: k in AllKeys
  {
    forall k: FilterKey ensures k in AllKeys { AllKeysComplete(k); }
  }

  lemma {:induction false} CountOverBounds(f: FilterState, ks: seq<FilterKey>)
    ensures forall k :: k in ks ==> |ListOf(f, k)| <= CountOver(f, ks)
  {
    if ks != [] {
      CountOverBounds(f, ks[1..]);
      assert forall k :: k in ks && k != ks[0] ==> k in ks[1..];
    }
  }

  lemma {:induction false} CountOverZero(f: FilterState, ks: seq<FilterKey>)
    ensures CountOver(f, ks) == 0 <==> forall i :: 0 <= i < |ks| ==> ListOf(f, ks[i]) == []
  {
    if ks != [] {
      CountOverZero(f, ks[1..]);
      assert forall i :: 1 <= i < |ks| ==> ks[i] == ks[1..][i - 1];
    }
  }

  /** No filter counts as active exactly when every list is empty. */
  lemma NoActiveFilters(f: FilterState)
    ensures TotalActiveFilters(f) == 0 <==> forall k :: ListOf(f, k) == []
  {
    CountOverZero(f, AllKeys);
    if TotalActiveFilters(f) == 0 {
      forall k ensures ListOf(f, k) == [] {
        AllKeysComplete(k);
        var i :| 0 <= i < |AllKeys| && AllKeys[i] == k;
      }
    }
  }

  lemma {:induction false} CountOverUpdate(f: FilterState, k: FilterKey, values: seq<string>, ks: seq<FilterKey>)
    requires forall i, j :: 0 <= i < j < |ks| ==> ks[i] != ks[j]
    ensures var g := UpdateKey(f, k, values);
      if k in ks then CountOver(g, ks) + |ListOf(f, k)| == CountOver(f, ks) + |values|
      else CountOver(g, ks) == CountOver(f, ks)
  {
    if ks != [] {
      CountOverUpdate(f, k, values, ks[1..]);
      assert k in ks[1..] ==> ks[0] != k;
      assert k in ks && k != ks[0] ==> k in ks[1..];
    }
  }

  /** Selecting values for one key changes the count by the difference in that list. */
  lemma UpdateCount(f: FilterState, k: FilterKey, values: seq<string>)
    ensures TotalActiveFilters(UpdateKey(f, k, values)) + |ListOf(f, k)| == TotalActiveFilters(f) + |values|
  {
    AllKeysComplete(k);
    AllKeysDistinct();
    CountOverUpdate(f, k, values, AllKeys);
  }

  /** After clearing, the badge and the clear button disappear. */
  lemma ClearedHasNoActiveFilters()
    ensures TotalActiveFilters(Cleared) == 0
  {
    NoActiveFilters(Cleared);
    forall k ensures ListOf(Cleared, k) == [] { ClearedIsEmpty(k); }
  }

  // ---------------------------------------------------------------- dropdown options

  /** The column whose values each list dropdown offers (`getUniqueValues(field)`). */
  function OptionColumn(k: FilterKey): Option<string> {
    match k
    case DataJanela => None
    case Indexador => Some("principal_indexador")
    case Tipo => Some("tipo_cota")
    case TipoNovo => Some("tipo")
    case Veiculo => Some("veiculo")
    case Produto => Some("produto")
    case Gestora => Some("gestora")
    case Setor => Some("setor")
    case TipoCota => Some("tipo_cota")
  }

  /** The non-empty string values of `field` over `deals`, in order. */
  function FieldStrings(deals: seq<DealModel.Deal>, field: string): (r: seq<string>)
    ensures forall s :: s in r <==> s != "" && exists i :: 0 <= i < |deals| && Get(deals[i], field) == Str(s)
  {
    if deals == [] then []
    else
      var v := Get(deals[0], field);
      var rest := FieldStrings(deals[1..], field);
      assert forall i :: 1 <= i < |deals| ==> deals[i] == deals[1..][i - 1];
      assert forall i :: 0 <= i < |deals| - 1 ==> deals[1..][i] == deals[i + 1];
      if v.Str? && v.s != "" then [v.s] + rest else rest
  }

  /**
   * `getUniqueValues(field)`: the distinct non-empty values of the column
   * in ascending code-unit order.
   */
  function UniqueValues(deals: seq<DealModel.Deal>, field: string): (r: seq<string>)
    ensures forall s :: s in r <==> s != "" && exists i :: 0 <= i < |deals| && Get(deals[i], field) == Str(s)
    ensures Distinct(r)
    ensures forall i, j :: 0 <= i < j < |r| ==> StrCmp(r[i], r[j]) < 0
  {
    SortedDistinct(FieldStrings(deals, field))
  }

  // ---------------------------------------------------------------- month options

  /** The months the 'Data Janela' dropdown shows for the deals' own dates. */
  function DealMonths(cal: Calendar, deals: seq<DealModel.Deal>): (r: seq<string>)
    ensures |r| <= |deals|
    ensures forall m :: m in r <==> exists i :: 0 <= i < |deals| && DealMonthOf(cal, deals[i]) == Some(m)
  {
    if deals == [] then []
    else
      var rest := DealMonths(cal, deals[1..]);
      assert forall i :: 1 <= i < |deals| ==> deals[i] == deals[1..][i - 1];
      assert forall i :: 0 <= i < |deals| - 1 ==> deals[1..][i] == deals[i + 1];
      match DealMonthOf(cal, deals[0])
      case None => rest
      case Some(m) => [m] + rest
  }

  /**
   * The month key of one deal's `data_janela`: none for null, undefined or
   * '', else `new Date(v)` as 'YYYY-MM' ('NaN-NaN' for an invalid date;
   * the constructor never throws, so the catch branch never runs).
   */
  function DealMonthOf(cal: Calendar, d: DealModel.Deal): Option<string> {
    var v := Get(d, "data_janela");
    if IsNullish(v) || v == Str("") then None else Some(FilterMonthKey(cal, ToJsString(v)))
  }

  /** The loop building `futureMonths`: the current month and the twelve after it. */
  method FutureMonths(now: YearMonth) returns (months: seq<string>)
    requires 0 <= now.month < 12
    ensures |months| == 13
    ensures forall i :: 0 <= i < 13 ==> months[i] == MonthAfter(now, i)
  {
    months := [];
    for i := 0 to 13
      invariant months == Tabulate(i, MonthsAfter(now))
    {
      var futureDate := ShiftMonth(now, i);
      var monthStr := YearMonthKey(futureDate);
      MonthsAfterSnoc(now, i);
      months := months + [monthStr];
    }
  }

  /**
   * `getUniqueMonths()`: the deals' months and the thirteen months from
   * the current one, without repeats, in ascending code-unit order.
   * `now` is the current local month.
   */
  method UniqueMonths(cal: Calendar, deals: seq<DealModel.Deal>, now: YearMonth) returns (r: seq<string>)
    requires 0 <= now.month < 12
    ensures forall m :: m in r <==>
      (exists i :: 0 <= i < |deals| && DealMonthOf(cal, deals[i]) == Some(m))
      || (exists i :: 0 <= i < 13 && MonthAfter(now, i) == m)
    ensures Distinct(r)
    ensures forall i, j :: 0 <= i < j < |r| ==> StrCmp(r[i], r[j]) < 0
  {
    var dealsMonths := DealMonths(cal, deals);
    var futureMonths := FutureMonths(now);
    var all := dealsMonths + futureMonths;
    r := SortedDistinct(all);
    forall m ensures m in all <==> (m in dealsMonths || exists i :: 0 <= i < 13 && MonthAfter(now, i) == m) {
      if m in futureMonths {
        var i :| 0 <= i < 13 && futureMonths[i] == m;
      }
    }
  }

  /** Four-digit years: the ascending key order is the chronological order. */
  lemma KeyOrderIsChronological(a: YearMonth, b: YearMonth)
    requires 1000 <= a.year <= 9999 && 0 <= a.month < 12
    requires 1000 <= b.year <= 9999 && 0 <= b.month < 12
    ensures StrCmp(YearMonthKey(a), YearMonthKey(b)) < 0 <==> a.year * 12 + a.month < b.year * 12 + b.month
  {
    var c := StrCmp(YearMonthKey(a), YearMonthKey(b));
    assert c < 0 <==> a.year < b.year || (a.year == b.year && a.month < b.month) by {
      KeyCompare(a, b);
    }
    MonthIndexOrder(a.year, a.month, b.year, b.month);
  }

  lemma MonthIndexOrder(y1: int, m1: int, y2: int, m2: int)
    requires 0 <= m1 < 12 && 0 <= m2 < 12
    ensures y1 * 12 + m1 < y2 * 12 + m2 <==> y1 < y2 || (y1 == y2 && m1 < m2)
  {
  }

  /** Keys compare by year first, then by month. */
  lemma KeyCompare(a: YearMonth, b: YearMonth)
    requires 1000 <= a.year <= 9999 && 0 <= a.month < 12
    requires 1000 <= b.year <= 9999 && 0 <= b.month < 12
    ensures StrCmp(YearMonthKey(a), YearMonthKey(b)) < 0 <==> a.year < b.year || (a.year == b.year && a.month < b.month)
  {
    KeyFields(a);
    KeyFields(b);
    FieldsCompare(NatToString(a.year), NatToString(b.year), Pad2(a.month + 1), Pad2(b.month + 1));
  }

  /** A key of a four-digit year: four year digits, '-', two month digits. */
  lemma KeyFields(a: YearMonth)
    requires 1000 <= a.year <= 9999 && 0 <= a.month < 12
    ensures YearMonthKey(a) == NatToString(a.year) + (['-'] + Pad2(a.month + 1))
    ensures |NatToString(a.year)| == 4 && |Pad2(a.month + 1)| == 2
    ensures DigitsValue(NatToString(a.year)) == a.year && DigitsValue(Pad2(a.month + 1)) == a.month + 1
  {
    FourDigits(a.year);
    TwoDigits(a.month + 1);
    DigitsValueOfNatToString(a.year);
    Pad2Value(a.month + 1);
  }

  /** Fixed-width digit fields joined by '-' compare field by field, by value. */
  lemma FieldsCompare(y1: string, y2: string, m1: string, m2: string)
    requires AllDigits(y1) && AllDigits(y2) && |y1| == |y2|
    requires AllDigits(m1) && AllDigits(m2) && |m1| == |m2|
    ensures StrCmp(y1 + (['-'] + m1), y2 + (['-'] + m2)) < 0 <==>
      DigitsValue(y1) < DigitsValue(y2) || (DigitsValue(y1) == DigitsValue(y2) && DigitsValue(m1) < DigitsValue(m2))
  {
    DigitsOrder(y1, y2, ['-'] + m1, ['-'] + m2);
    SameHeadOrder('-', m1, m2);
    assert m1 + [] == m1 && m2 + [] == m2;
    DigitsOrder(m1, m2, [], []);
  }

  lemma FourDigits(y: nat)
    requires 1000 <= y <= 9999
    ensures |NatToString(y)| == 4
  {
    assert |NatToString(y / 10)| == 3 by {
      assert |NatToString(y / 100)| == 2 by {
        assert |NatToString(y / 1000)| == 1;
      }
    }
  }

  lemma TwoDigits(m: nat)
    requires 1 <= m <= 12
    ensures |Pad2(m)| == 2
  {
    if m >= 10 { assert |NatToString(m / 10)| == 1; }
  }

  lemma SameHeadOrder(c: char, a: string, b: string)
    ensures StrCmp([c] + a, [c] + b) == StrCmp(a, b)
  {
    assert ([c] + a)[1..] == a;
    assert ([c] + b)[1..] == b;
  }

  /**
   * Equal-length digit strings compare as their values; when they are
   * equal, the comparison goes on with what follows.
   */
  lemma {:induction false} DigitsOrder(x: string, y: string, u: string, v: string)
    requires AllDigits(x) && AllDigits(y) && |x| == |y|
    ensures DigitsValue(x) < DigitsValue(y) ==> StrCmp(x + u, y + v) < 0
    ensures DigitsValue(x) > DigitsValue(y) ==> StrCmp(x + u, y + v) > 0
    ensures DigitsValue(x) == DigitsValue(y) ==> x == y && StrCmp(x + u, y + v) == StrCmp(u, v)
    decreases |x|
  {
    if x == [] {
      assert x + u == u && y + v == v;
    } else if x[0] != y[0] {
      HeadDigitDecides(x, y, u, v);
    } else {
      var x', y' := x[1..], y[1..];
      assert AllDigits(x') && AllDigits(y');
      DigitsOrder(x', y', u, v);
      SameHeadDigit(x[0], x', y', u, v);
      assert x == [x[0]] + x' && y == [x[0]] + y';
    }
  }

  /** With equal first digits, the order of the rest is the order of the whole. */
  lemma SameHeadDigit(c: char, x: string, y: string, u: string, v: string)
    requires IsDigit(c) && AllDigits(x) && AllDigits(y) && |x| == |y|
    requires DigitsValue(x) < DigitsValue(y) ==> StrCmp(x + u, y + v) < 0
    requires DigitsValue(x) > DigitsValue(y) ==> StrCmp(x + u, y + v) > 0
    requires DigitsValue(x) == DigitsValue(y) ==> x == y && StrCmp(x + u, y + v) == StrCmp(u, v)
    ensures DigitsValue([c] + x) < DigitsValue([c] + y) ==> StrCmp([c] + x + u, [c] + y + v) < 0
    ensures DigitsValue([c] + x) > DigitsValue([c] + y) ==> StrCmp([c] + x + u, [c] + y + v) > 0
    ensures DigitsValue([c] + x) == DigitsValue([c] + y) ==>
      [c] + x == [c] + y && StrCmp([c] + x + u, [c] + y + v) == StrCmp(u, v)
  {
    SameHeadValues(c, x, y);
    SameHeadCmp(c, x, y, u, v);
  }

  lemma SameHeadValues(c: char, x: string, y: string)
    requires IsDigit(c) && AllDigits(x) && AllDigits(y) && |x| == |y|
    ensures DigitsValue([c] + x) - DigitsValue([c] + y) == DigitsValue(x) - DigitsValue(y)
  {
    DigitsValueAppend([c], x);
    DigitsValueAppend([c], y);
  }

  lemma SameHeadCmp(c: char, x: string, y: string, u: string, v: string)
    ensures StrCmp([c] + x + u, [c] + y + v) == StrCmp(x + u, y + v)
  {
    assert [c] + x + u == [c] + (x + u) && [c] + y + v == [c] + (y + v);
    SameHeadOrder(c, x + u, y + v);
  }

  /** Digit strings of one length whose first digits differ are ordered by those digits. */
  lemma HeadDigitDecides(x: string, y: string, u: string, v: string)
    requires AllDigits(x) && AllDigits(y) && |x| == |y| && x != [] && x[0] != y[0]
    ensures DigitsValue(x) < DigitsValue(y) ==> StrCmp(x + u, y + v) < 0
    ensures DigitsValue(x) > DigitsValue(y) ==> StrCmp(x + u, y + v) > 0
    ensures DigitsValue(x) != DigitsValue(y)
  {
    var x', y' := x[1..], y[1..];
    assert AllDigits(x') && AllDigits(y');
    assert (x + u)[0] == x[0] && (y + v)[0] == y[0];
    var p := Pow10(|x| - 1);
    LeadingDigitValue(x);
    LeadingDigitValue(y);
    DigitsValueBound(x');
    DigitsValueBound(y');
    var dx, dy := DigitValue(x[0]), DigitValue(y[0]);
    if dx < dy {
      HeadDominates(dx, dy, p, DigitsValue(x'), DigitsValue(y'));
      assert StrCmp(x + u, y + v) == -1;
    } else {
      HeadDominates(dy, dx, p, DigitsValue(y'), DigitsValue(x'));
      assert StrCmp(x + u, y + v) == 1;
    }
  }

  /** A larger leading digit outweighs anything the lower digits add. */
  lemma HeadDominates(a: nat, b: nat, p: nat, r: nat, q: nat)
    requires a < b && r < p
    ensures a * p + r < b * p + q
  {
    var k := b - a;
    assert b * p == a * p + k * p;
    MulAtLeast(k, p);
  }

  lemma MulAtLeast(k: nat, p: nat)
    requires k >= 1
    ensures k * p >= p
  {
  }

  lemma LeadingDigitValue(x: string)
    requires x != [] && AllDigits(x)
    ensures DigitsValue(x) == DigitValue(x[0]) * Pow10(|x| - 1) + DigitsValue(x[1..])
  {
    assert x == [x[0]] + x[1..];
    DigitsValueAppend([x[0]], x[1..]);
    assert DigitsValue([x[0]]) == DigitValue(x[0]) by { assert [x[0]][..0] == []; }
  }

  lemma {:induction false} DigitsValueBound(x: string)
    requires AllDigits(x)
    ensures DigitsValue(x) < Pow10(|x|)
  {
    if x != [] {
      var x' := x[..|x| - 1];
      assert AllDigits(x');
      DigitsValueBound(x');
      NextDigitBound(DigitsValue(x'), Pow10(|x'|), DigitValue(x[|x| - 1]));
    }
  }

  lemma NextDigitBound(a: nat, p: nat, d: nat)
    requires a < p && d < 10
    ensures a * 10 + d < 10 * p
  {
  }

  // ---------------------------------------------------------------- month labels

  /**
   * The 'Data Janela' option label: `value.split('-')` read as year and
   * month, `monthNames[parseInt(month) - 1] + ' ' + year`; an index out of
   * range (or NaN) prints 'undefined'.
   */
  function MonthLabel(value: string): (r: string)
    ensures exists name :: IsMonthName(name) && r == name + " " + Split(value, '-')[0]
  {
    var parts := Split(value, '-');
    var name := MonthNameOf(if |parts| >= 2 then ParseInt(parts[1]) else None);
    name + " " + parts[0]
  }

  /** One of the twelve abbreviations, or the 'undefined' an index out of range prints. */
  predicate IsMonthName(name: string) {
    name == "undefined" || name in Formatting.MonthNames
  }

  /** `monthNames[n - 1]`, 'undefined' out of range or for NaN. */
  function MonthNameOf(month: Option<int>): (r: string)
    ensures IsMonthName(r)
  {
    match month
    case Some(n) => if 1 <= n <= 12 then Formatting.MonthNames[n - 1] else "undefined"
    case None => "undefined"
  }

  lemma MonthLabelOfSplit(value: string, year: string, month: string)
    requires Split(value, '-') == [year, month]
    ensures MonthLabel(value) == MonthNameOf(ParseInt(month)) + " " + year
  {
  }

  /** A key 'YYYY-MM' from a four-digit year is labelled with its month abbreviation and year. */
  lemma MonthLabelOfKey(ym: YearMonth)
    requires 1000 <= ym.year <= 9999 && 0 <= ym.month < 12
    ensures MonthLabel(YearMonthKey(ym)) == Formatting.MonthNames[ym.month] + " " + NatToString(ym.year)
  {
    var y := NatToString(ym.year);
    var mm := Pad2(ym.month + 1);
    KeyIsYearDashMonth(ym);
    DigitsExclude(y, '-');
    DigitsExclude(mm, '-');
    MonthOfPad2(ym.month + 1);
    LabelOfYearDashMonth(YearMonthKey(ym), y, mm, ym.month);
  }

  lemma LabelOfYearDashMonth(key: string, y: string, mm: string, m: int)
    requires key == y + "-" + mm && '-' !in y && '-' !in mm
    requires 0 <= m < 12 && ParseInt(mm) == Some(m + 1)
    ensures MonthLabel(key) == Formatting.MonthNames[m] + " " + y
  {
    MonthLabelOfDashed(key, y, mm);
  }

  lemma MonthOfPad2(m: nat)
    requires 1 <= m <= 12
    ensures ParseInt(Pad2(m)) == Some(m)
  {
    TwoDigits(m);
    ParseIntOfDigits(Pad2(m));
    Pad2Value(m);
  }

  /** A value whose month part is not a number is labelled 'undefined' and its year part. */
  lemma UnreadableMonthLabel(year: string, month: string)
    requires '-' !in year && '-' !in month && ParseInt(month) == None
    ensures MonthLabel(year + "-" + month) == "undefined " + year
  {
    MonthLabelOfDashed(year + "-" + month, year, month);
    UndefinedThenYear(MonthNameOf(ParseInt(month)), year);
  }

  lemma MonthLabelOfDashed(key: string, y: string, mm: string)
    requires key == y + "-" + mm && '-' !in y && '-' !in mm
    ensures MonthLabel(key) == MonthNameOf(ParseInt(mm)) + " " + y
  {
    SplitTwo(y, mm, '-');
    MonthLabelOfSplit(key, y, mm);
  }

  lemma UndefinedThenYear(name: string, year: string)
    requires name == "undefined"
    ensures name + " " + year == "undefined " + year
  {
  }
}
