/**
 * The board grid (src/components/kanban/SimplifiedKanbanGrid.tsx): deals
 * grouped into cells by a group value and a month, optionally transposed;
 * the row and column keys; and the row, column and cell totals.
 */
module KanbanGrid {
  import opened JsStrings
  import opened JsValues
  import opened Seqs
  import opened DateUtils
  import opened DealModel

  // ---------------------------------------------------------------- cell keys

  /** `String(deal[groupBy] || 'Outros')`. */
  function GroupKey(d: Deal, g: GroupingField): (r: string)
    ensures !Truthy(Get(d, ColumnOf(g))) ==> r == "Outros"
    ensures Truthy(Get(d, ColumnOf(g))) && Get(d, ColumnOf(g)).Str? ==> r == Get(d, ColumnOf(g)).s
  {
    ToJsString(Or(Get(d, ColumnOf(g)), Str("Outros")))
  }

  /** `deal.data_janela ? safeFormatMonthYear(deal.data_janela) : 'Sem Data'`. */
  function DealMonth(cal: Calendar, d: Deal): (r: string)
    ensures !Truthy(Get(d, "data_janela")) ==> r == "Sem Data"
    ensures Truthy(Get(d, "data_janela")) ==> r == SafeFormatMonthYear(cal, Get(d, "data_janela"))
  {
    if Truthy(Get(d, "data_janela")) then SafeFormatMonthYear(cal, Get(d, "data_janela")) else "Sem Data"
  }

  /** What the grid is laid out by. */
  datatype Layout = Layout(cal: Calendar, groupBy: GroupingField, transposed: bool)

  /** Rows are group values and columns months; transposed, the other way round. */
  function RowKey(l: Layout, d: Deal): (r: string)
    ensures r == if l.transposed then DealMonth(l.cal, d) else GroupKey(d, l.groupBy)
  {
    if l.transposed then DealMonth(l.cal, d) else GroupKey(d, l.groupBy)
  }

  function ColKey(l: Layout, d: Deal): (r: string)
    ensures r == if l.transposed then GroupKey(d, l.groupBy) else DealMonth(l.cal, d)
  {
    if l.transposed then GroupKey(d, l.groupBy) else DealMonth(l.cal, d)
  }

  /** Transposing swaps the two keys of every deal. */
  lemma TransposeSwapsKeys(cal: Calendar, g: GroupingField, d: Deal)
    ensures RowKey(Layout(cal, g, true), d) == ColKey(Layout(cal, g, false), d)
    ensures ColKey(Layout(cal, g, true), d) == RowKey(Layout(cal, g, false), d)
  {
  }

  function RowKeyOf(l: Layout): Deal -> string { d => RowKey(l, d) }
  function ColKeyOf(l: Layout): Deal -> string { d => ColKey(l, d) }

  /** The deals of cell (r, c) under the given keys, as a predicate `filter` can take. */
  function InCell(rowOf: Deal -> string, colOf: Deal -> string, r: string, c: string): Deal -> bool {
    d => rowOf(d) == r && colOf(d) == c
  }

  // ---------------------------------------------------------------- organizedData

  /** `Record<string, Record<string, Deal[]>>`. */
  type Grid = map<string, map<string, seq<Deal>>>

  /** `organizedData[r]?.[c] || []`. */
  function CellOf(grid: Grid, r: string, c: string): seq<Deal> {
    if r in grid && c in grid[r] then grid[r][c] else []
  }

  /** A grid stores no empty cell and no empty row. */
  ghost predicate NoEmptyCells(grid: Grid) {
    (forall r, c :: r in grid && c in grid[r] ==> grid[r][c] != [])
    && (forall r :: r in grid ==> grid[r].Keys != {})
  }

  /** `grid` is the organisation of `done`: its cells are the deals with their keys, none empty. */
  ghost predicate Organized(rowOf: Deal -> string, colOf: Deal -> string, done: seq<Deal>, grid: Grid) {
    (forall r, c :: CellOf(grid, r, c) == Filter(done, InCell(rowOf, colOf, r, c)))
    && NoEmptyCells(grid)
  }

  /** `grid[r][c].push(d)`, creating the row and the cell when missing. */
  function Push(grid: Grid, r: string, c: string, d: Deal): (g: Grid)
    ensures forall r', c' :: CellOf(g, r', c') == if r' == r && c' == c then CellOf(grid, r, c) + [d] else CellOf(grid, r', c')
  {
    grid[r := (if r in grid then grid[r] else map[])[c := CellOf(grid, r, c) + [d]]]
  }

  /** One push: the deal goes to the end of its own cell, and no other cell changes. */
  lemma OrganizeStep(rowOf: Deal -> string, colOf: Deal -> string, deals: seq<Deal>, i: nat, grid: Grid)
    requires i < |deals| && Organized(rowOf, colOf, deals[..i], grid)
    ensures Organized(rowOf, colOf, deals[..i + 1], Push(grid, rowOf(deals[i]), colOf(deals[i]), deals[i]))
  {
    var d, done := deals[i], deals[..i];
    assert deals[..i + 1] == done + [d];
    var grid' := Push(grid, rowOf(d), colOf(d), d);
    forall r, c ensures CellOf(grid', r, c) == Filter(done + [d], InCell(rowOf, colOf, r, c)) {
      PushCell(rowOf, colOf, done, d, grid, r, c);
    }
    PushNoEmptyCells(grid, rowOf(d), colOf(d), d);
  }

  lemma PushCell(rowOf: Deal -> string, colOf: Deal -> string, done: seq<Deal>, d: Deal, grid: Grid, r: string, c: string)
    requires CellOf(grid, r, c) == Filter(done, InCell(rowOf, colOf, r, c))
    ensures CellOf(Push(grid, rowOf(d), colOf(d), d), r, c) == Filter(done + [d], InCell(rowOf, colOf, r, c))
  {
    var p := InCell(rowOf, colOf, r, c);
    FilterAppend(done, [d], p);
    FilterOne(d, p);
  }

  lemma FilterOne(d: Deal, p: Deal -> bool)
    ensures Filter([d], p) == if p(d) then [d] else []
  {
    assert [d][1..] == [];
  }

  lemma PushNoEmptyCells(grid: Grid, r: string, c: string, d: Deal)
    requires NoEmptyCells(grid)
    ensures NoEmptyCells(Push(grid, r, c, d))
  {
    var row := (if r in grid then grid[r] else map[])[c := CellOf(grid, r, c) + [d]];
    assert c in row.Keys;
  }

  /**
   * The `deals.forEach` of `organizedData`: every deal pushed onto the
   * list of its cell, creating the row and the cell when missing.
   */
  method GroupByCell(deals: seq<Deal>, rowOf: Deal -> string, colOf: Deal -> string) returns (grid: Grid)
    ensures Organized(rowOf, colOf, deals, grid)
  {
    grid := map[];
    var i := 0;
    while i < |deals|
      invariant 0 <= i <= |deals|
      invariant Organized(rowOf, colOf, deals[..i], grid)
    {
      var d := deals[i];
      var rowKey, colKey := rowOf(d), colOf(d);
      var row := if rowKey in grid then grid[rowKey] else map[];
      var cell := if colKey in row then row[colKey] else [];
      OrganizeStep(rowOf, colOf, deals, i, grid);
      assert cell == CellOf(grid, rowKey, colKey);
      grid := grid[rowKey := row[colKey := cell + [d]]];
      i := i + 1;
    }
    assert deals[..i] == deals;
  }

  /**
   * `organizedData`: a cell holds exactly the deals with its two keys, in
   * input order, and no empty row or cell is ever created.
   */
  method OrganizeData(l: Layout, deals: seq<Deal>) returns (grid: Grid)
    ensures Organized(RowKeyOf(l), ColKeyOf(l), deals, grid)
  {
    grid := GroupByCell(deals, RowKeyOf(l), ColKeyOf(l));
  }

  /** Over an organised grid, a cell exists exactly when some deal has its two keys. */
  lemma CellExistsIffDeal(rowOf: Deal -> string, colOf: Deal -> string, deals: seq<Deal>, grid: Grid, r: string, c: string)
    requires Organized(rowOf, colOf, deals, grid)
    ensures r in grid && c in grid[r] <==> exists i :: 0 <= i < |deals| && rowOf(deals[i]) == r && colOf(deals[i]) == c
  {
    var f := Filter(deals, InCell(rowOf, colOf, r, c));
    if r in grid && c in grid[r] {
      assert f == grid[r][c] && f != [];
      assert f[0] in deals && InCell(rowOf, colOf, r, c)(f[0]);
      var i :| 0 <= i < |deals| && deals[i] == f[0];
    }
    if exists i :: 0 <= i < |deals| && rowOf(deals[i]) == r && colOf(deals[i]) == c {
      var i :| 0 <= i < |deals| && rowOf(deals[i]) == r && colOf(deals[i]) == c;
      assert deals[i] in f;
    }
  }

  /** Every deal is in exactly one cell, with all its copies: the one its keys name. */
  lemma ExactlyOneCell(rowOf: Deal -> string, colOf: Deal -> string, deals: seq<Deal>, grid: Grid, d: Deal, r: string, c: string)
    requires Organized(rowOf, colOf, deals, grid)
    ensures multiset(CellOf(grid, r, c))[d] == if rowOf(d) == r && colOf(d) == c then multiset(deals)[d] else 0
  {
    FilterCount(deals, InCell(rowOf, colOf, r, c), d);
  }

  /** The transposed grid is the normal grid with rows and columns swapped. */
  lemma TransposedCells(cal: Calendar, g: GroupingField, deals: seq<Deal>, r: string, c: string)
    ensures var t, n := Layout(cal, g, true), Layout(cal, g, false);
      Filter(deals, InCell(RowKeyOf(t), ColKeyOf(t), r, c)) == Filter(deals, InCell(RowKeyOf(n), ColKeyOf(n), c, r))
  {
    var t, n := Layout(cal, g, true), Layout(cal, g, false);
    FilterExt(deals, InCell(RowKeyOf(t), ColKeyOf(t), r, c), InCell(RowKeyOf(n), ColKeyOf(n), c, r));
  }

  // ---------------------------------------------------------------- month keys

  /** The labels some items contribute, in order: `f` says which, if any. */
  function Choose<T>(items: seq<T>, f: T -> Option<string>): seq<string> {
    if items == [] then []
    else
      var last := f(items[|items| - 1]);
      Choose(items[..|items| - 1], f) + if last.Some? then [last.value] else []
  }

  lemma {:induction false} ChooseMembers<T>(items: seq<T>, f: T -> Option<string>, x: string)
    ensures x in Choose(items, f) <==> exists i :: 0 <= i < |items| && f(items[i]) == Some(x)
  {
    if items != [] {
      var init := items[..|items| - 1];
      ChooseMembers(init, f, x);
      assert forall i :: 0 <= i < |init| ==> init[i] == items[i];
    }
  }

  /** Adding one item's label, if it has one that is not there yet. */
  lemma AddLabelStep<T>(base: seq<string>, items: seq<T>, f: T -> Option<string>, j: nat, months: seq<string>, next: seq<string>)
    requires j < |items| && months == Dedup(base + Choose(items[..j], f))
    requires next == if f(items[j]).Some? && f(items[j]).value !in months then months + [f(items[j]).value] else months
    ensures Dedup(base + Choose(items[..j + 1], f)) == next
  {
    assert items[..j + 1][..j] == items[..j];
    var labels := base + Choose(items[..j], f);
    var m := f(items[j]);
    if m.Some? {
      AddLabelSome(base, items, f, j, labels, m.value);
    } else {
      assert Choose(items[..j + 1], f) == Choose(items[..j], f) + [];
      assert Choose(items[..j], f) + [] == Choose(items[..j], f);
    }
  }

  lemma AddLabelSome<T>(base: seq<string>, items: seq<T>, f: T -> Option<string>, j: nat, labels: seq<string>, x: string)
    requires j < |items| && labels == base + Choose(items[..j], f) && f(items[j]) == Some(x)
    ensures Dedup(base + Choose(items[..j + 1], f)) == if x in Dedup(labels) then Dedup(labels) else Dedup(labels) + [x]
  {
    assert items[..j + 1][..j] == items[..j];
    assert Choose(items[..j + 1], f) == Choose(items[..j], f) + [x];
    assert base + Choose(items[..j + 1], f) == labels + [x];
    DedupSnoc(labels, x);
    DedupMembers(labels, x);
  }

  /** One `forEach` that adds the label of each item, if it has one, to the month set. */
  method AddLabels<T>(months0: seq<string>, base: seq<string>, items: seq<T>, f: T -> Option<string>)
    returns (months: seq<string>)
    requires months0 == Dedup(base)
    ensures months == Dedup(base + Choose(items, f))
  {
    months := months0;
    assert base + Choose(items[..0], f) == base;
    for j := 0 to |items|
      invariant months == Dedup(base + Choose(items[..j], f))
    {
      ghost var before := months;
      var monthKey := f(items[j]);
      if monthKey.Some? && monthKey.value !in months {
        months := months + [monthKey.value];
      }
      AddLabelStep(base, items, f, j, before, months);
    }
    assert items[..|items|] == items;
  }

  /**
   * A deal's label in the month set: its month when dated; 'Sem Data'
   * for an undated one only when asked (the transposed rows).
   */
  function DealLabelOf(cal: Calendar, withUndated: bool): Deal -> Option<string> {
    d => if withUndated || Truthy(Get(d, "data_janela")) then Some(DealMonth(cal, d)) else None
  }

  /**
   * `const [year, month] = monthFilter.split('-')`, both through `parseInt`:
   * the pair when both halves are numbers, None when either is NaN (a
   * missing second half is `parseInt(undefined)`, NaN as well).
   */
  function MonthFilterParts(monthFilter: string): (r: Option<(int, int)>)
    ensures r.Some? <==> (|Split(monthFilter, '-')| >= 2
                          && ParseInt(Split(monthFilter, '-')[0]).Some? && ParseInt(Split(monthFilter, '-')[1]).Some?)
    ensures r.Some? ==> (Some(r.value.0) == ParseInt(Split(monthFilter, '-')[0])
                         && Some(r.value.1) == ParseInt(Split(monthFilter, '-')[1]))
  {
    var parts := Split(monthFilter, '-');
    if |parts| < 2 then None
    else
      var year, month := ParseInt(parts[0]), ParseInt(parts[1]);
      if year.Some? && month.Some? then Some((year.value, month.value)) else None
  }

  /**
   * A selected 'YYYY-MM' month as a label: `new Date(year, month - 1, 15)`
   * formatted; None when a half is not a number (an invalid date makes
   * `format` throw, and the catch skips the month).
   */
  function FilterMonthLabel(cal: Calendar, monthFilter: string): (r: Option<string>)
    ensures r.Some? <==> MonthFilterParts(monthFilter).Some?
    ensures r.Some? ==> r.value == FifteenthLabel(cal, MonthFilterParts(monthFilter).value)
  {
    var parts := MonthFilterParts(monthFilter);
    if parts.None? then None else Some(FifteenthLabel(cal, parts.value))
  }

  /** The label of `new Date(year, month - 1, 15)`. */
  function FifteenthLabel(cal: Calendar, yearMonth: (int, int)): string {
    cal.formatMonthYear(cal.localInstant(yearMonth.0, yearMonth.1 - 1, 15))
  }

  /**
   * The month key of a non-negative year reads back as that month's label:
   * 'YYYY-MM' splits into its two digit halves, which parse to the year and
   * to the month plus one.
   */
  lemma FilterMonthLabelOfKey(cal: Calendar, ym: YearMonth)
    requires ym.year >= 0 && 0 <= ym.month < 12
    ensures MonthFilterParts(YearMonthKey(ym)) == Some((ym.year, ym.month + 1))
    ensures FilterMonthLabel(cal, YearMonthKey(ym)) == Some(cal.formatMonthYear(cal.localInstant(ym.year, ym.month, 15)))
  {
    var y := NatToString(ym.year);
    var m := Pad2(ym.month + 1);
    YearMonthKeySplit(ym);
    DigitsValueOfNatToString(ym.year);
    ParseIntOfDigits(y);
    Pad2Value(ym.month + 1);
    ParseIntOfDigits(m);
  }

  function SelectedLabelOf(cal: Calendar): string -> Option<string> {
    f => FilterMonthLabel(cal, f)
  }

  /** `monthSet`: the deals' labels, then the selected months', each once in order of first addition. */
  function MonthSet(cal: Calendar, deals: seq<Deal>, selected: seq<string>, withUndated: bool): seq<string> {
    Dedup(Choose(deals, DealLabelOf(cal, withUndated)) + Choose(selected, SelectedLabelOf(cal)))
  }

  /**
   * The month set holds the month of every dated deal (and 'Sem Data' for
   * undated ones when asked) and of every selected month that parses,
   * each once, and nothing else.
   */
  lemma MonthSetMembers(cal: Calendar, deals: seq<Deal>, selected: seq<string>, withUndated: bool, x: string)
    ensures Distinct(MonthSet(cal, deals, selected, withUndated))
    ensures x in MonthSet(cal, deals, selected, withUndated) <==>
      (exists i :: 0 <= i < |deals| && (withUndated || Truthy(Get(deals[i], "data_janela"))) && DealMonth(cal, deals[i]) == x)
      || (exists j :: 0 <= j < |selected| && FilterMonthLabel(cal, selected[j]) == Some(x))
  {
    var all := Choose(deals, DealLabelOf(cal, withUndated)) + Choose(selected, SelectedLabelOf(cal));
    ChooseMembers(deals, DealLabelOf(cal, withUndated), x);
    ChooseMembers(selected, SelectedLabelOf(cal), x);
    assert x in Dedup(all) <==> x in all;
  }

  /** The two `monthSet` loops: the deals' months, then the selected months. */
  method CollectMonths(cal: Calendar, deals: seq<Deal>, selected: seq<string>, withUndated: bool)
    returns (months: seq<string>)
    ensures months == MonthSet(cal, deals, selected, withUndated)
  {
    var dealLabels := Choose(deals, DealLabelOf(cal, withUndated));
    assert [] + dealLabels == dealLabels;
    months := AddLabels([], [], deals, DealLabelOf(cal, withUndated));
    months := AddLabels(months, dealLabels, selected, SelectedLabelOf(cal));
  }

  // ---------------------------------------------------------------- month order

  /** A monthLabel's date for the sort: an instant, an invalid date (NaN), or null (the access throws). */
  datatype Moment = At(ms: int) | InvalidDate | NullDate

  /** `deals.find(d => d.data_janela && safeFormatMonthYear(d.data_janela) === monthLabel)?.data_janela`. */
  function FindDated(cal: Calendar, deals: seq<Deal>, monthLabel: string): (r: Option<Value>)
    ensures r.Some? ==> Truthy(r.value) && SafeFormatMonthYear(cal, r.value) == monthLabel
    ensures r.None? ==> forall i :: 0 <= i < |deals| && Truthy(Get(deals[i], "data_janela")) ==>
      SafeFormatMonthYear(cal, Get(deals[i], "data_janela")) != monthLabel
  {
    if deals == [] then None
    else
      var v := Get(deals[0], "data_janela");
      if Truthy(v) && SafeFormatMonthYear(cal, v) == monthLabel then Some(v)
      else
        var r := FindDated(cal, deals[1..], monthLabel);
        assert forall i :: 1 <= i < |deals| ==> deals[i] == deals[1..][i - 1];
        r
  }

  /** The date of the first deal with that monthLabel, else the monthLabel parsed back. */
  function LabelMoment(cal: Calendar, deals: seq<Deal>, monthLabel: string): Moment {
    match FindDated(cal, deals, monthLabel)
    case Some(v) => (match SafeParseISO(cal, v) case None => NullDate case Some(t) => At(t))
    case None => (match cal.parseMonthYear(monthLabel) case None => InvalidDate case Some(t) => At(t))
  }

  /**
   * The month comparator: 'Sem Data' first when transposed; otherwise the
   * difference of the two dates, 0 when one is NaN (`sort` reads NaN as
   * 0), and the string order when reading a date throws.
   */
  function CompareMonths(cal: Calendar, deals: seq<Deal>, transposed: bool, a: string, b: string): int {
    if transposed && a == "Sem Data" then -1
    else if transposed && b == "Sem Data" then 1
    else
      var ma, mb := LabelMoment(cal, deals, a), LabelMoment(cal, deals, b);
      if ma.NullDate? || mb.NullDate? then StrCmp(a, b)
      else if ma.InvalidDate? || mb.InvalidDate? then 0
      else ma.ms - mb.ms
  }

  function MonthOrder(cal: Calendar, deals: seq<Deal>, transposed: bool): (string, string) -> int {
    (a, b) => CompareMonths(cal, deals, transposed, a, b)
  }

  /** Transposed, 'Sem Data' heads the row keys whenever it is one of them. */
  lemma SemDataFirst(cal: Calendar, deals: seq<Deal>, months: seq<string>)
    requires "Sem Data" in months
    ensures SortBy(months, MonthOrder(cal, deals, true)) != []
    ensures SortBy(months, MonthOrder(cal, deals, true))[0] == "Sem Data"
  {
    LeastSortsFirst(months, MonthOrder(cal, deals, true), "Sem Data");
  }

  /** When every monthLabel has a valid date, the month keys come out in chronological order. */
  lemma MonthsChronological(cal: Calendar, deals: seq<Deal>, months: seq<string>)
    requires forall x :: x in months ==> LabelMoment(cal, deals, x).At?
    ensures var r := SortBy(months, MonthOrder(cal, deals, false));
      forall i, j :: 0 <= i < j < |r| ==> LabelMoment(cal, deals, r[i]).ms <= LabelMoment(cal, deals, r[j]).ms
  {
    var cmp := MonthOrder(cal, deals, false);
    assert forall a, b :: a in months && b in months ==>
      cmp(a, b) == LabelMoment(cal, deals, a).ms - LabelMoment(cal, deals, b).ms;
    assert TotalPreorder(cmp, months);
    SortBySorted(months, cmp);
    var r := SortBy(months, cmp);
    forall i, j | 0 <= i < j < |r|
      ensures LabelMoment(cal, deals, r[i]).ms <= LabelMoment(cal, deals, r[j]).ms
    {
      assert r[i] in months && r[j] in months;
      assert cmp(r[i], r[j]) <= 0;
    }
  }

  // ---------------------------------------------------------------- row and column keys

  /** The keys some deal has, once each, in `sort()` order: `Array.from(new Set(...)).sort()`. */
  function SortedKeys(deals: seq<Deal>, key: Deal -> string): (r: seq<string>)
    ensures forall x :: x in r <==> exists i :: 0 <= i < |deals| && key(deals[i]) == x
    ensures Distinct(r)
    ensures forall i, j :: 0 <= i < j < |r| ==> StrCmp(r[i], r[j]) < 0
  {
    var keys := seq(|deals|, i requires 0 <= i < |deals| => key(deals[i]));
    assert forall x :: x in keys <==> exists i :: 0 <= i < |deals| && key(deals[i]) == x by {
      forall x | x in keys ensures exists i :: 0 <= i < |deals| && key(deals[i]) == x {
        var i :| 0 <= i < |keys| && keys[i] == x;
      }
      forall x | exists i :: 0 <= i < |deals| && key(deals[i]) == x ensures x in keys {
        var i :| 0 <= i < |deals| && key(deals[i]) == x;
        assert keys[i] == x;
      }
    }
    SortedDistinct(keys)
  }

  function TipoKey(d: Deal): string { GroupKey(d, Tipo) }

  /** `rowKeys`. The tipo lanes come from the whole list, `allDeals`. */
  function RowKeys(l: Layout, deals: seq<Deal>, allDeals: seq<Deal>, selected: seq<string>): (r: seq<string>)
    ensures Distinct(r)
  {
    if l.transposed then
      MonthSetMembers(l.cal, deals, selected, true, "");
      SortByDistinct(MonthSet(l.cal, deals, selected, true), MonthOrder(l.cal, deals, true));
      SortBy(MonthSet(l.cal, deals, selected, true), MonthOrder(l.cal, deals, true))
    else if l.groupBy == Tipo then SortedKeys(allDeals, TipoKey)
    else SortedKeys(deals, RowKeyOf(l))
  }

  /** `colKeys`. */
  function ColKeys(l: Layout, deals: seq<Deal>, allDeals: seq<Deal>, selected: seq<string>): (r: seq<string>)
    ensures Distinct(r)
  {
    if !l.transposed then
      MonthSetMembers(l.cal, deals, selected, false, "");
      SortByDistinct(MonthSet(l.cal, deals, selected, false), MonthOrder(l.cal, deals, false));
      SortBy(MonthSet(l.cal, deals, selected, false), MonthOrder(l.cal, deals, false))
    else if l.groupBy == Tipo then SortedKeys(allDeals, TipoKey)
    else SortedKeys(deals, ColKeyOf(l))
  }

  /**
   * Grouped by tipo, every deal of the full list has its lane, so the
   * lanes of a filtered list lie among them whether or not they hold deals.
   */
  lemma TipoLanesCoverRows(l: Layout, deals: seq<Deal>, allDeals: seq<Deal>, selected: seq<string>)
    requires !l.transposed && l.groupBy == Tipo
    requires forall i :: 0 <= i < |deals| ==> deals[i] in allDeals
    ensures forall i :: 0 <= i < |deals| ==> RowKey(l, deals[i]) in RowKeys(l, deals, allDeals, selected)
  {
    forall i | 0 <= i < |deals| ensures RowKey(l, deals[i]) in RowKeys(l, deals, allDeals, selected) {
      var k :| 0 <= k < |allDeals| && allDeals[k] == deals[i];
      assert TipoKey(allDeals[k]) == RowKey(l, deals[i]);
    }
  }

  /** Other groupings list exactly the rows that hold at least one deal. */
  lemma RowKeysAreNonEmptyRows(l: Layout, deals: seq<Deal>, allDeals: seq<Deal>, selected: seq<string>, r: string)
    requires !l.transposed && l.groupBy != Tipo
    ensures r in RowKeys(l, deals, allDeals, selected) <==> exists c :: Filter(deals, InCell(RowKeyOf(l), ColKeyOf(l), r, c)) != []
  {
    if r in RowKeys(l, deals, allDeals, selected) {
      var i :| 0 <= i < |deals| && RowKeyOf(l)(deals[i]) == r;
      var c := ColKey(l, deals[i]);
      assert deals[i] in Filter(deals, InCell(RowKeyOf(l), ColKeyOf(l), r, c));
    }
    if exists c :: Filter(deals, InCell(RowKeyOf(l), ColKeyOf(l), r, c)) != [] {
      var c :| Filter(deals, InCell(RowKeyOf(l), ColKeyOf(l), r, c)) != [];
      var f := Filter(deals, InCell(RowKeyOf(l), ColKeyOf(l), r, c));
      assert f[0] in deals;
      var i :| 0 <= i < |deals| && deals[i] == f[0];
      assert RowKeyOf(l)(deals[i]) == r;
    }
  }

  /** The normal column keys hold every dated deal's month and every selected month that parses. */
  lemma ColKeysHoldMonths(l: Layout, deals: seq<Deal>, allDeals: seq<Deal>, selected: seq<string>)
    requires !l.transposed
    ensures Distinct(ColKeys(l, deals, allDeals, selected))
    ensures forall i :: 0 <= i < |deals| && Truthy(Get(deals[i], "data_janela")) ==>
      DealMonth(l.cal, deals[i]) in ColKeys(l, deals, allDeals, selected)
    ensures forall j :: 0 <= j < |selected| && FilterMonthLabel(l.cal, selected[j]).Some? ==>
      FilterMonthLabel(l.cal, selected[j]).value in ColKeys(l, deals, allDeals, selected)
  {
    var months := MonthSet(l.cal, deals, selected, false);
    var cmp := MonthOrder(l.cal, deals, false);
    SortByMembers(months, cmp);
    SortByDistinct(months, cmp);
    MonthSetMembers(l.cal, deals, selected, false, "");
    forall i | 0 <= i < |deals| && Truthy(Get(deals[i], "data_janela"))
      ensures DealMonth(l.cal, deals[i]) in months
    {
      MonthSetMembers(l.cal, deals, selected, false, DealMonth(l.cal, deals[i]));
    }
    forall j | 0 <= j < |selected| && FilterMonthLabel(l.cal, selected[j]).Some?
      ensures FilterMonthLabel(l.cal, selected[j]).value in months
    {
      MonthSetMembers(l.cal, deals, selected, false, FilterMonthLabel(l.cal, selected[j]).value);
    }
  }

  // ---------------------------------------------------------------- totals

  /** `colKeys.flatMap(colKey => organizedData[rowKey]?.[colKey] || [])`. */
  function RowDeals(grid: Grid, r: string, cols: seq<string>): seq<Deal> {
    if cols == [] then [] else RowDeals(grid, r, cols[..|cols| - 1]) + CellOf(grid, r, cols[|cols| - 1])
  }

  /** `rowKeys.flatMap(rowKey => organizedData[rowKey]?.[colKey] || [])`. */
  function ColDeals(grid: Grid, c: string, rows: seq<string>): seq<Deal> {
    if rows == [] then [] else ColDeals(grid, c, rows[..|rows| - 1]) + CellOf(grid, rows[|rows| - 1], c)
  }

  /** The stats of each cell along a row, added up. */
  function RowCellStats(grid: Grid, r: string, cols: seq<string>): SummaryStats {
    if cols == [] then SummaryStats(0, 0.0, 0.0)
    else Add(RowCellStats(grid, r, cols[..|cols| - 1]), CalculateStats(CellOf(grid, r, cols[|cols| - 1])))
  }

  function ColCellStats(grid: Grid, c: string, rows: seq<string>): SummaryStats {
    if rows == [] then SummaryStats(0, 0.0, 0.0)
    else Add(ColCellStats(grid, c, rows[..|rows| - 1]), CalculateStats(CellOf(grid, rows[|rows| - 1], c)))
  }

  /** A row total (count, volume and revenue) is the sum of its cells' stats. */
  lemma {:induction false} RowTotalIsSumOfCells(grid: Grid, r: string, cols: seq<string>)
    ensures CalculateStats(RowDeals(grid, r, cols)) == RowCellStats(grid, r, cols)
  {
    if cols != [] {
      RowTotalIsSumOfCells(grid, r, cols[..|cols| - 1]);
      StatsAppend(RowDeals(grid, r, cols[..|cols| - 1]), CellOf(grid, r, cols[|cols| - 1]));
    }
  }

  lemma {:induction false} ColTotalIsSumOfCells(grid: Grid, c: string, rows: seq<string>)
    ensures CalculateStats(ColDeals(grid, c, rows)) == ColCellStats(grid, c, rows)
  {
    if rows != [] {
      ColTotalIsSumOfCells(grid, c, rows[..|rows| - 1]);
      StatsAppend(ColDeals(grid, c, rows[..|rows| - 1]), CellOf(grid, rows[|rows| - 1], c));
    }
  }

  /** Over an organised grid, a row total covers the row's deals in the listed columns. */
  lemma RowDealsAreRow(rowOf: Deal -> string, colOf: Deal -> string, deals: seq<Deal>, grid: Grid, r: string, cols: seq<string>, d: Deal)
    requires Organized(rowOf, colOf, deals, grid)
    ensures d in RowDeals(grid, r, cols) <==> d in deals && rowOf(d) == r && colOf(d) in cols
  {
    forall c ensures d in CellOf(grid, r, c) <==> (d in deals && rowOf(d) == r) && colOf(d) == c {
      InFilterIff(deals, InCell(rowOf, colOf, r, c), d);
    }
    RowDealsMembers(grid, r, cols, d, colOf(d), d in deals && rowOf(d) == r);
  }

  /** A deal that can only be in the cell of column `col`, and is there when `inRow`, is in the row's deals when that column is listed. */
  lemma {:induction false} RowDealsMembers(grid: Grid, r: string, cols: seq<string>, d: Deal, col: string, inRow: bool)
    requires forall c :: d in CellOf(grid, r, c) <==> inRow && col == c
    ensures d in RowDeals(grid, r, cols) <==> inRow && col in cols
  {
    if cols != [] {
      var init, last := cols[..|cols| - 1], cols[|cols| - 1];
      RowDealsMembers(grid, r, init, d, col, inRow);
      assert cols == init + [last];
    }
  }

  lemma ColDealsAreColumn(rowOf: Deal -> string, colOf: Deal -> string, deals: seq<Deal>, grid: Grid, c: string, rows: seq<string>, d: Deal)
    requires Organized(rowOf, colOf, deals, grid)
    ensures d in ColDeals(grid, c, rows) <==> d in deals && colOf(d) == c && rowOf(d) in rows
  {
    forall r ensures d in CellOf(grid, r, c) <==> (d in deals && colOf(d) == c) && rowOf(d) == r {
      InFilterIff(deals, InCell(rowOf, colOf, r, c), d);
    }
    ColDealsMembers(grid, c, rows, d, rowOf(d), d in deals && colOf(d) == c);
  }

  lemma {:induction false} ColDealsMembers(grid: Grid, c: string, rows: seq<string>, d: Deal, row: string, inCol: bool)
    requires forall r :: d in CellOf(grid, r, c) <==> inCol && row == r
    ensures d in ColDeals(grid, c, rows) <==> inCol && row in rows
  {
    if rows != [] {
      var init, last := rows[..|rows| - 1], rows[|rows| - 1];
      ColDealsMembers(grid, c, init, d, row, inCol);
      assert rows == init + [last];
    }
  }

  /** `rowTotals`: the stats of every row key over the column keys. */
  method RowTotals(grid: Grid, rowKeys: seq<string>, colKeys: seq<string>) returns (totals: map<string, SummaryStats>)
    ensures totals.Keys == set r | r in rowKeys
    ensures forall r :: r in totals ==> totals[r] == CalculateStats(RowDeals(grid, r, colKeys))
  {
    totals := map[];
    var i := 0;
    while i < |rowKeys|
      invariant 0 <= i <= |rowKeys|
      invariant totals.Keys == set r | r in rowKeys[..i]
      invariant forall r :: r in totals ==> totals[r] == CalculateStats(RowDeals(grid, r, colKeys))
    {
      assert rowKeys[..i + 1] == rowKeys[..i] + [rowKeys[i]];
      totals := totals[rowKeys[i] := CalculateStats(RowDeals(grid, rowKeys[i], colKeys))];
      i := i + 1;
    }
    assert rowKeys[..i] == rowKeys;
  }

  /** `colTotals`: the stats of every column key over the row keys. */
  method ColTotals(grid: Grid, rowKeys: seq<string>, colKeys: seq<string>) returns (totals: map<string, SummaryStats>)
    ensures totals.Keys == set c | c in colKeys
    ensures forall c :: c in totals ==> totals[c] == CalculateStats(ColDeals(grid, c, rowKeys))
  {
    totals := map[];
    var i := 0;
    while i < |colKeys|
      invariant 0 <= i <= |colKeys|
      invariant totals.Keys == set c | c in colKeys[..i]
      invariant forall c :: c in totals ==> totals[c] == CalculateStats(ColDeals(grid, c, rowKeys))
    {
      assert colKeys[..i + 1] == colKeys[..i] + [colKeys[i]];
      totals := totals[colKeys[i] := CalculateStats(ColDeals(grid, colKeys[i], rowKeys))];
      i := i + 1;
    }
    assert colKeys[..i] == colKeys;
  }

  // ---------------------------------------------------------------- cell totals

  /** `${rowKey}-${colKey}`, the cell's key and its drop-zone id. */
  function CellId(r: string, c: string): string {
    r + "-" + c
  }

  /** The id is the row key, a '-', then the column key. */
  lemma CellIdShape(r: string, c: string)
    ensures CellId(r, c)[|r|] == '-'
    ensures forall k :: 0 <= k < |r| ==> CellId(r, c)[k] == r[k]
  {
  }

  /** A row key without '-' is never shorter than another with the same id. */
  lemma CellIdRowNotShorter(r1: string, c1: string, r2: string, c2: string)
    requires '-' !in r2
    requires CellId(r1, c1) == CellId(r2, c2)
    ensures |r1| >= |r2|
  {
    if |r1| < |r2| {
      CellIdShape(r1, c1);
      CellIdShape(r2, c2);
    }
  }

  /** Cell ids tell cells apart as long as no row key contains '-'. */
  lemma CellIdInjective(r1: string, c1: string, r2: string, c2: string)
    requires '-' !in r1 && '-' !in r2
    requires CellId(r1, c1) == CellId(r2, c2)
    ensures r1 == r2 && c1 == c2
  {
    var id := CellId(r1, c1);
    CellIdRowNotShorter(r1, c1, r2, c2);
    CellIdRowNotShorter(r2, c2, r1, c1);
    assert r1 == id[..|r1|] == r2;
    assert c1 == id[|r1| + 1..] == c2;
  }

  /** Keys without '-' after the last '-' of an id are split off whole. */
  lemma DashFreeSuffix(p1: string, s1: string, p2: string, s2: string)
    requires '-' !in s1 && '-' !in s2
    requires CellId(p1, s1) == CellId(p2, s2)
    ensures p1 == p2 && s1 == s2
  {
    var id := CellId(p1, s1);
    assert id[|p1|] == '-' && id[|p2|] == '-';
    assert p1 == id[..|p1|] == p2;
    assert s1 == id[|p1| + 1..] == s2;
  }

  /**
   * A month label as the grid's 'MMM-yyyy' format gives it: a three-letter
   * month name without '-', a '-', then the year's digits.
   */
  predicate IsMonthLabel(s: string) {
    |s| >= 5 && s[3] == '-' && '-' !in s[..3] && AllDigits(s[4..])
  }

  /** A month column or row: a month label, or 'Sem Data'. */
  predicate IsMonthKey(s: string) {
    s == "Sem Data" || IsMonthLabel(s)
  }

  lemma MonthLabelParts(s: string)
    requires IsMonthLabel(s)
    ensures s == CellId(s[..3], s[4..]) && '-' !in s[4..]
  {
    DigitsExclude(s[4..], '-');
  }

  /** The year of a month label is digits, so never 'Sem Data'. */
  lemma YearIsNotSemData(s: string)
    requires IsMonthLabel(s)
    ensures s[4..] != "Sem Data"
  {
    assert IsDigit(s[4..][0]);
  }

  /** Different (row, column) pairs of the grid have different cell ids. */
  predicate CellIdsDistinct(rowKeys: seq<string>, colKeys: seq<string>) {
    forall a, b, a', b' {:trigger CellId(rowKeys[a], colKeys[b]), CellId(rowKeys[a'], colKeys[b'])} ::
      (0 <= a < |rowKeys| && 0 <= b < |colKeys| && 0 <= a' < |rowKeys| && 0 <= b' < |colKeys|
       && CellId(rowKeys[a], colKeys[b]) == CellId(rowKeys[a'], colKeys[b'])) ==>
      rowKeys[a] == rowKeys[a'] && colKeys[b] == colKeys[b']
  }

  /** Month columns tell cells apart whatever the row keys, 'FI-Agro' included. */
  lemma MonthColumnIdsDistinct(r1: string, c1: string, r2: string, c2: string)
    requires IsMonthKey(c1) && IsMonthKey(c2)
    requires CellId(r1, c1) == CellId(r2, c2)
    ensures r1 == r2 && c1 == c2
  {
    var id := CellId(r1, c1);
    if c1 == "Sem Data" && c2 == "Sem Data" {
      assert r1 == id[..|r1|] == r2;
    } else if c1 == "Sem Data" {
      MonthLabelParts(c2);
      assert id == CellId(CellId(r2, c2[..3]), c2[4..]);
      YearIsNotSemData(c2);
      DashFreeSuffix(r1, c1, CellId(r2, c2[..3]), c2[4..]);
    } else if c2 == "Sem Data" {
      MonthLabelParts(c1);
      assert id == CellId(CellId(r1, c1[..3]), c1[4..]);
      YearIsNotSemData(c1);
      DashFreeSuffix(CellId(r1, c1[..3]), c1[4..], r2, c2);
    } else {
      MonthLabelParts(c1);
      MonthLabelParts(c2);
      assert id == CellId(CellId(r1, c1[..3]), c1[4..]);
      assert id == CellId(CellId(r2, c2[..3]), c2[4..]);
      DashFreeSuffix(CellId(r1, c1[..3]), c1[4..], CellId(r2, c2[..3]), c2[4..]);
      DashFreeSuffix(r1, c1[..3], r2, c2[..3]);
    }
  }

  /** Month rows, as in the transposed grid, tell cells apart whatever the column keys. */
  lemma MonthRowIdsDistinct(r1: string, c1: string, r2: string, c2: string)
    requires IsMonthKey(r1) && IsMonthKey(r2)
    requires CellId(r1, c1) == CellId(r2, c2)
    ensures r1 == r2 && c1 == c2
  {
    var id := CellId(r1, c1);
    if r1 == "Sem Data" && r2 == "Sem Data" {
      assert c1 == id[|r1| + 1..] == c2;
    } else if r1 == "Sem Data" {
      MonthLabelParts(r2);
      assert id == CellId(r2[..3], CellId(r2[4..], c2));
      CellIdInjective(r1, c1, r2[..3], CellId(r2[4..], c2));
    } else if r2 == "Sem Data" {
      MonthLabelParts(r1);
      assert id == CellId(r1[..3], CellId(r1[4..], c1));
      CellIdInjective(r1[..3], CellId(r1[4..], c1), r2, c2);
    } else {
      MonthLabelParts(r1);
      MonthLabelParts(r2);
      assert id == CellId(r1[..3], CellId(r1[4..], c1));
      assert id == CellId(r2[..3], CellId(r2[4..], c2));
      CellIdInjective(r1[..3], CellId(r1[4..], c1), r2[..3], CellId(r2[4..], c2));
      CellIdInjective(r1[4..], c1, r2[4..], c2);
    }
  }

  /** A grid whose columns are all month keys has distinct cell ids. */
  lemma MonthColumnsDistinct(rowKeys: seq<string>, colKeys: seq<string>)
    requires forall b :: 0 <= b < |colKeys| ==> IsMonthKey(colKeys[b])
    ensures CellIdsDistinct(rowKeys, colKeys)
  {
    forall a, b, a', b' | 0 <= a < |rowKeys| && 0 <= b < |colKeys| && 0 <= a' < |rowKeys| && 0 <= b' < |colKeys|
      && CellId(rowKeys[a], colKeys[b]) == CellId(rowKeys[a'], colKeys[b'])
      ensures rowKeys[a] == rowKeys[a'] && colKeys[b] == colKeys[b']
    {
      MonthColumnIdsDistinct(rowKeys[a], colKeys[b], rowKeys[a'], colKeys[b']);
    }
  }

  /** A grid whose rows are all month keys has distinct cell ids. */
  lemma MonthRowsDistinct(rowKeys: seq<string>, colKeys: seq<string>)
    requires forall a :: 0 <= a < |rowKeys| ==> IsMonthKey(rowKeys[a])
    ensures CellIdsDistinct(rowKeys, colKeys)
  {
    forall a, b, a', b' | 0 <= a < |rowKeys| && 0 <= b < |colKeys| && 0 <= a' < |rowKeys| && 0 <= b' < |colKeys|
      && CellId(rowKeys[a], colKeys[b]) == CellId(rowKeys[a'], colKeys[b'])
      ensures rowKeys[a] == rowKeys[a'] && colKeys[b] == colKeys[b']
    {
      MonthRowIdsDistinct(rowKeys[a], colKeys[b], rowKeys[a'], colKeys[b']);
    }
  }

  /**
   * When the calendar's 'MMM-yyyy' format gives month labels, every key of
   * a month set is a month key.
   */
  lemma MonthSetKeys(cal: Calendar, deals: seq<Deal>, selected: seq<string>, withUndated: bool)
    requires forall t :: IsMonthLabel(cal.formatMonthYear(t))
    ensures forall x :: x in MonthSet(cal, deals, selected, withUndated) ==> IsMonthKey(x)
  {
    forall x | x in MonthSet(cal, deals, selected, withUndated) ensures IsMonthKey(x) {
      MonthSetMembers(cal, deals, selected, withUndated, x);
      if exists i :: 0 <= i < |deals| && (withUndated || Truthy(Get(deals[i], "data_janela"))) && DealMonth(cal, deals[i]) == x {
        var i :| 0 <= i < |deals| && (withUndated || Truthy(Get(deals[i], "data_janela"))) && DealMonth(cal, deals[i]) == x;
        DealMonthIsMonthKey(cal, deals[i]);
      } else {
        var j :| 0 <= j < |selected| && FilterMonthLabel(cal, selected[j]) == Some(x);
        FilterLabelIsMonthLabel(cal, selected[j]);
      }
    }
  }

  lemma DealMonthIsMonthKey(cal: Calendar, d: Deal)
    requires forall t :: IsMonthLabel(cal.formatMonthYear(t))
    ensures IsMonthKey(DealMonth(cal, d))
  {
    var v := Get(d, "data_janela");
    if Truthy(v) && SafeParseISO(cal, v).Some? {
      MonthLabelAt(cal, SafeParseISO(cal, v).value);
    }
  }

  lemma FilterLabelIsMonthLabel(cal: Calendar, f: string)
    requires forall t :: IsMonthLabel(cal.formatMonthYear(t))
    ensures FilterMonthLabel(cal, f).Some? ==> IsMonthLabel(FilterMonthLabel(cal, f).value)
  {
    var parts := MonthFilterParts(f);
    if parts.Some? {
      MonthLabelAt(cal, cal.localInstant(parts.value.0, parts.value.1 - 1, 15));
    }
  }

  lemma MonthLabelAt(cal: Calendar, t: int)
    requires forall t :: IsMonthLabel(cal.formatMonthYear(t))
    ensures IsMonthLabel(cal.formatMonthYear(t))
  {
  }

  /**
   * With month labels from the calendar, the grid's own row and column
   * keys give every cell its own id, in either orientation and whatever
   * the group values.
   */
  lemma GridCellIdsDistinct(l: Layout, deals: seq<Deal>, allDeals: seq<Deal>, selected: seq<string>)
    requires forall t :: IsMonthLabel(l.cal.formatMonthYear(t))
    ensures CellIdsDistinct(RowKeys(l, deals, allDeals, selected), ColKeys(l, deals, allDeals, selected))
  {
    var months := MonthSet(l.cal, deals, selected, l.transposed);
    MonthSetKeys(l.cal, deals, selected, l.transposed);
    SortByMembers(months, MonthOrder(l.cal, deals, l.transposed));
    if l.transposed {
      MonthRowsDistinct(RowKeys(l, deals, allDeals, selected), ColKeys(l, deals, allDeals, selected));
    } else {
      MonthColumnsDistinct(RowKeys(l, deals, allDeals, selected), ColKeys(l, deals, allDeals, selected));
    }
  }

  /** `typeof v === 'number' ? v : 0`. */
  function NumberOrZero(v: Value): (r: real)
    ensures v.Num? ==> r == v.x
    ensures !v.Num? ==> r == 0.0
  {
    if v.Num? then v.x else 0.0
  }

  function OfferOf(d: Deal): real { NumberOrZero(Get(d, "oferta_base")) }
  function RevenueOf(d: Deal): real { NumberOrZero(Get(d, "receita_potencial")) }

  datatype CellTotal = CellTotal(ofertaBase: real, receitaPotencial: real)

  /** The summed numeric offer and potential revenue of one cell's deals. */
  function CellSums(cell: seq<Deal>): CellTotal {
    CellTotal(Sum(cell, OfferOf), Sum(cell, RevenueOf))
  }

  /**
   * A cell's offer total agrees with the row and column volume when every
   * deal has a non-zero numeric `oferta_base`; the offer total never falls
   * back on `volume_liquidado`.
   */
  lemma OfferTotalIsVolumeWhenOffered(cell: seq<Deal>)
    requires forall i :: 0 <= i < |cell| ==> Get(cell[i], "oferta_base").Num? && Get(cell[i], "oferta_base").x != 0.0
    ensures CellSums(cell).ofertaBase == Sum(cell, Volume)
  {
    forall i | 0 <= i < |cell| ensures OfferOf(cell[i]) == Volume(cell[i]) {
      assert Truthy(Get(cell[i], "oferta_base"));
    }
    SumExt(cell, OfferOf, Volume);
  }

  /**
   * `cellTotals`: every (row, column) pair writes its cell's sums under
   * its cell id. The ids are exactly those of the pairs, each holding the
   * sums of a cell with that id; when the pairs have distinct ids, which
   * month rows or month columns guarantee, each id holds its own cell's
   * sums.
   */
  method CellTotals(grid: Grid, rowKeys: seq<string>, colKeys: seq<string>) returns (totals: map<string, CellTotal>)
    ensures forall k :: k in totals <==>
      exists a, b :: 0 <= a < |rowKeys| && 0 <= b < |colKeys| && k == CellId(rowKeys[a], colKeys[b])
    ensures forall k :: k in totals ==>
      exists a, b :: 0 <= a < |rowKeys| && 0 <= b < |colKeys| && k == CellId(rowKeys[a], colKeys[b])
        && totals[k] == CellSums(CellOf(grid, rowKeys[a], colKeys[b]))
    ensures CellIdsDistinct(rowKeys, colKeys) ==>
      forall a, b :: 0 <= a < |rowKeys| && 0 <= b < |colKeys| ==>
        totals[CellId(rowKeys[a], colKeys[b])] == CellSums(CellOf(grid, rowKeys[a], colKeys[b]))
  {
    totals := map[];
    for i := 0 to |rowKeys|
      invariant forall k :: k in totals <==>
        exists a, b :: 0 <= a < i && 0 <= b < |colKeys| && k == CellId(rowKeys[a], colKeys[b])
      invariant forall k :: k in totals ==>
        exists a, b :: 0 <= a < i && 0 <= b < |colKeys| && k == CellId(rowKeys[a], colKeys[b])
          && totals[k] == CellSums(CellOf(grid, rowKeys[a], colKeys[b]))
    {
      for j := 0 to |colKeys|
        invariant forall k :: k in totals <==>
          (exists a, b :: 0 <= a < i && 0 <= b < |colKeys| && k == CellId(rowKeys[a], colKeys[b]))
          || (exists b :: 0 <= b < j && k == CellId(rowKeys[i], colKeys[b]))
        invariant forall k :: k in totals ==>
          (exists a, b :: 0 <= a <= i && 0 <= b < |colKeys| && k == CellId(rowKeys[a], colKeys[b])
            && totals[k] == CellSums(CellOf(grid, rowKeys[a], colKeys[b])))
      {
        var key := CellId(rowKeys[i], colKeys[j]);
        totals := totals[key := CellSums(CellOf(grid, rowKeys[i], colKeys[j]))];
      }
      forall k | k in totals
        ensures exists a, b :: 0 <= a < i + 1 && 0 <= b < |colKeys| && k == CellId(rowKeys[a], colKeys[b])
      {
      }
    }
    if CellIdsDistinct(rowKeys, colKeys) {
      CellTotalsLookup(grid, rowKeys, colKeys, totals);
    }
  }

  /** With distinct cell ids each id names one cell, so every cell's id holds that cell's sums. */
  lemma CellTotalsLookup(grid: Grid, rowKeys: seq<string>, colKeys: seq<string>, totals: map<string, CellTotal>)
    requires CellIdsDistinct(rowKeys, colKeys)
    requires forall k :: k in totals <==>
      exists a, b :: 0 <= a < |rowKeys| && 0 <= b < |colKeys| && k == CellId(rowKeys[a], colKeys[b])
    requires forall k :: k in totals ==>
      exists a, b :: 0 <= a < |rowKeys| && 0 <= b < |colKeys| && k == CellId(rowKeys[a], colKeys[b])
        && totals[k] == CellSums(CellOf(grid, rowKeys[a], colKeys[b]))
    ensures forall a, b :: 0 <= a < |rowKeys| && 0 <= b < |colKeys| ==>
      totals[CellId(rowKeys[a], colKeys[b])] == CellSums(CellOf(grid, rowKeys[a], colKeys[b]))
  {
    forall a, b | 0 <= a < |rowKeys| && 0 <= b < |colKeys|
      ensures totals[CellId(rowKeys[a], colKeys[b])] == CellSums(CellOf(grid, rowKeys[a], colKeys[b]))
    {
      var k := CellId(rowKeys[a], colKeys[b]);
      var a', b' :| 0 <= a' < |rowKeys| && 0 <= b' < |colKeys| && k == CellId(rowKeys[a'], colKeys[b'])
        && totals[k] == CellSums(CellOf(grid, rowKeys[a'], colKeys[b']));
    }
  }
}
