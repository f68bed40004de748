/**
 * The board (src/components/kanban/KanbanBoard.tsx): deals split into the
 * backlog strip and the dated grid, the grid's rows, the drag-and-drop
 * rules that turn a drop into a field update or a backlog renumbering,
 * and the list handlers for created, updated and deleted deals.
 */
module KanbanBoard {
  import opened JsStrings
  import opened JsValues
  import opened Seqs
  import opened DateUtils
  import opened DealModel
  import opened Supabase
  import opened DealLists
  import opened KanbanGrid
  import Audit
  import DatabaseEnums

  // ---------------------------------------------------------------- backlog or dated

  /** `isDataJanelaNullOrBlank`: null, undefined, blank, or the strings 'null' and 'undefined'. */
  predicate IsDataJanelaNullOrBlank(v: Value) {
    v == Null || v == Undefined
    || (v.Str? && (Trim(v.s) == "" || v.s == "null" || v.s == "undefined"))
  }

  /** A null or blank date never passes the date check. */
  lemma NullOrBlankIsNoDate(cal: Calendar, v: Value)
    requires IsDataJanelaNullOrBlank(v)
    ensures !IsValidDateString(cal, v)
  {
    if v.Str? && Trim(v.s) == "" && |v.s| >= 10 {
      TrimEmptyIff(v.s);
      assert IsWhitespace(v.s[0]);
    }
  }

  /** The statuses that keep a deal in the backlog. */
  predicate IsBacklogStatus(d: Deal) {
    Get(d, "status_deal") in {Str("Pre-Leitura"), Str("Backlog"), Str("Leitura")}
  }

  /** A backlog status, a null or blank date, or a date that is not valid. */
  predicate GoesToBacklog(cal: Calendar, d: Deal) {
    var dj := Get(d, "data_janela");
    IsBacklogStatus(d) || IsDataJanelaNullOrBlank(dj) || (Truthy(dj) && !IsValidDateString(cal, dj))
  }

  /**
   * For a date that is a string or null, as the `Deal` type has it, a deal
   * is in the backlog exactly when its status says so or its date is not a
   * valid date.
   */
  lemma BacklogIffNoValidDate(cal: Calendar, d: Deal)
    requires Get(d, "data_janela").Str? || IsNullish(Get(d, "data_janela"))
    ensures GoesToBacklog(cal, d) <==> IsBacklogStatus(d) || !IsValidDateString(cal, Get(d, "data_janela"))
  {
    var dj := Get(d, "data_janela");
    if IsDataJanelaNullOrBlank(dj) {
      NullOrBlankIsNoDate(cal, dj);
    } else {
      NotBlankIsTruthy(dj);
    }
  }

  /** A date that is a string or null and not blank is truthy. */
  lemma NotBlankIsTruthy(v: Value)
    requires v.Str? || IsNullish(v)
    requires !IsDataJanelaNullOrBlank(v)
    ensures Truthy(v)
  {
    TrimEmptyIff(v.s);
  }

  function InBacklog(cal: Calendar): Deal -> bool {
    d => GoesToBacklog(cal, d)
  }

  /** The `forEach` that pushes each item onto one of two lists. */
  method PartitionBy<T>(items: seq<T>, p: T -> bool) returns (yes: seq<T>, no: seq<T>)
    ensures yes == Filter(items, p) && no == Filter(items, Not(p))
  {
    yes, no := [], [];
    var i := 0;
    while i < |items|
      invariant 0 <= i <= |items|
      invariant yes == Filter(items[..i], p) && no == Filter(items[..i], Not(p))
    {
      FilterSnoc(items, i, p);
      FilterSnoc(items, i, Not(p));
      if p(items[i]) {
        yes := yes + [items[i]];
      } else {
        no := no + [items[i]];
      }
      i := i + 1;
    }
    assert items[..i] == items;
  }

  /** `{ backlogDeals, datedDeals }`: the filtered deals split by `GoesToBacklog`, order kept. */
  method Partition(cal: Calendar, deals: seq<Deal>) returns (backlog: seq<Deal>, dated: seq<Deal>)
    ensures backlog == Filter(deals, InBacklog(cal))
    ensures dated == Filter(deals, Not(InBacklog(cal)))
  {
    backlog, dated := PartitionBy(deals, InBacklog(cal));
  }

  /**
   * Every deal lands in exactly one of the two lists, with all its copies,
   * and each list keeps the input order.
   */
  lemma PartitionIsExact(cal: Calendar, deals: seq<Deal>)
    ensures multiset(Filter(deals, InBacklog(cal))) + multiset(Filter(deals, Not(InBacklog(cal)))) == multiset(deals)
    ensures IsSubseq(Filter(deals, InBacklog(cal)), deals) && IsSubseq(Filter(deals, Not(InBacklog(cal))), deals)
    ensures forall d :: d in deals ==> (d in Filter(deals, InBacklog(cal)) <==> GoesToBacklog(cal, d))
    ensures forall d :: d in deals ==> (d in Filter(deals, Not(InBacklog(cal))) <==> !GoesToBacklog(cal, d))
  {
    FilterSplit(deals, InBacklog(cal));
    FilterIsSubseq(deals, InBacklog(cal));
    FilterIsSubseq(deals, Not(InBacklog(cal)));
    forall d | d in deals
      ensures d in Filter(deals, InBacklog(cal)) <==> GoesToBacklog(cal, d)
      ensures d in Filter(deals, Not(InBacklog(cal))) <==> !GoesToBacklog(cal, d)
    {
      InFilterIff(deals, InBacklog(cal), d);
      InFilterIff(deals, Not(InBacklog(cal)), d);
    }
  }

  // ---------------------------------------------------------------- the board grid

  /** The board never transposes: rows are `String(deal[groupBy] || 'Outros')`, columns the month. */
  function BoardLayout(cal: Calendar, g: GroupingField): Layout {
    Layout(cal, g, false)
  }

  /** `organizedData` over the dated deals. */
  method OrganizeBoard(cal: Calendar, g: GroupingField, dated: seq<Deal>) returns (grid: Grid)
    ensures Organized(RowKeyOf(BoardLayout(cal, g)), ColKeyOf(BoardLayout(cal, g)), dated, grid)
  {
    grid := GroupByCell(dated, RowKeyOf(BoardLayout(cal, g)), ColKeyOf(BoardLayout(cal, g)));
  }

  /** `rowKeys`: every tipo of the whole list when grouping by tipo, else the rows of the dated deals. */
  function BoardRowKeys(cal: Calendar, g: GroupingField, dated: seq<Deal>, allDeals: seq<Deal>): seq<string> {
    if g == Tipo then SortedKeys(allDeals, TipoKey) else SortedKeys(dated, RowKeyOf(BoardLayout(cal, g)))
  }

  /** Grouped by anything but tipo, the row keys are exactly the rows of the grid. */
  lemma BoardRowKeysAreGridRows(cal: Calendar, g: GroupingField, dated: seq<Deal>, allDeals: seq<Deal>, grid: Grid, r: string)
    requires g != Tipo
    requires Organized(RowKeyOf(BoardLayout(cal, g)), ColKeyOf(BoardLayout(cal, g)), dated, grid)
    ensures r in BoardRowKeys(cal, g, dated, allDeals) <==> r in grid
  {
    var rowOf, colOf := RowKeyOf(BoardLayout(cal, g)), ColKeyOf(BoardLayout(cal, g));
    if r in grid {
      assert grid[r].Keys != {};
      var c :| c in grid[r];
      CellExistsIffDeal(rowOf, colOf, dated, grid, r, c);
    }
    if r in BoardRowKeys(cal, g, dated, allDeals) {
      var i :| 0 <= i < |dated| && rowOf(dated[i]) == r;
      CellExistsIffDeal(rowOf, colOf, dated, grid, r, colOf(dated[i]));
    }
  }

  // ---------------------------------------------------------------- target months

  predicate IsLeapYear(y: int) {
    (y % 4 == 0 && y % 100 != 0) || y % 400 == 0
  }

  /** `new Date(y, m + 1, 0).getDate()`: the number of days of month `m` of year `y`. */
  function LastDayOfMonth(y: int, m: int): (r: int)
    ensures 28 <= r <= 31
  {
    var year, month := MakeFullYear(y) + m / 12, m % 12;
    if month == 1 then (if IsLeapYear(year) then 29 else 28)
    else if month in {3, 5, 8, 10} then 30
    else 31
  }

  /** A key without '-' gets the current year appended. */
  function WithYear(key: string, thisYear: int): (r: string)
    ensures '-' in r
    ensures '-' in key ==> r == key
  {
    if '-' in key then key else key + "-" + IntToString(thisYear)
  }

  /**
   * `parseMonthYearToDate(key, useLastDay)`: the month parsed back, on its
   * last day or its 15th, as a 'YYYY-MM-DD' string; null when the month
   * does not parse. `thisYear` is the current year.
   */
  function ParseMonthYearToDate(cal: Calendar, key: string, thisYear: int, useLastDay: bool): (r: Option<string>)
    ensures r.None? <==> cal.parseMonthYear(WithYear(key, thisYear)).None?
    ensures r.Some? ==> var ym := cal.monthOfInstant(cal.parseMonthYear(WithYear(key, thisYear)).value);
      r.value == cal.isoDayOfLocal(ym.year, ym.month, if useLastDay then LastDayOfMonth(ym.year, ym.month) else 15)
  {
    match cal.parseMonthYear(WithYear(key, thisYear))
    case None => None
    case Some(t) =>
      var ym := cal.monthOfInstant(t);
      Some(cal.isoDayOfLocal(ym.year, ym.month, if useLastDay then LastDayOfMonth(ym.year, ym.month) else 15))
  }

  // ---------------------------------------------------------------- drop targets

  /** `over.data.current`: absent, a cell, a column, or something else (a deal card). */
  datatype OverData = NoData | CellData(rowKey: string, colKey: string) | ColumnData(monthKey: string) | OtherData

  datatype Over = Over(id: string, data: OverData)

  /** A drag end: the dragged deal's id, and what it was dropped on, if anything. */
  datatype DragEvent = DragEvent(activeId: string, over: Option<Over>)

  /** What the drop handler reads besides the event: the calendar, the grouping, the current year. */
  datatype BoardView = BoardView(cal: Calendar, groupBy: GroupingField, thisYear: int)

  /** The effect of a drop: nothing, a backlog reorder, or an update of the dragged deal. */
  datatype DropPlan = Ignore | Reorder(from: nat, to: nat) | Patch(active: Deal, updates: Record)

  /** `deals.find(d => d.deal_uuid === id)`. */
  function FindById(deals: seq<Deal>, id: Value): (r: Option<Deal>)
    ensures r.None? <==> forall i :: 0 <= i < |deals| ==> Id(deals[i]) != id
    ensures r.Some? ==> Id(r.value) == id && r.value in deals
    ensures r.Some? ==> exists j :: 0 <= j < |deals| && r.value == deals[j] && forall l :: 0 <= l < j ==> Id(deals[l]) != id
  {
    if deals == [] then None
    else if Id(deals[0]) == id then Some(deals[0])
    else
      var r := FindById(deals[1..], id);
      assert forall i :: 1 <= i < |deals| ==> deals[i] == deals[1..][i - 1];
      if r.None? then r
      else
        var j :| 0 <= j < |deals[1..]| && r.value == deals[1..][j] && forall l :: 0 <= l < j ==> Id(deals[1..][l]) != id;
        assert r.value == deals[j + 1] && forall l :: 0 <= l < j + 1 ==> Id(deals[l]) != id;
        r
  }

  /** `deals.findIndex(d => d.deal_uuid === id)`. */
  function IndexOfId(deals: seq<Deal>, id: Value): (r: int)
    ensures -1 <= r < |deals|
    ensures r == -1 <==> forall i :: 0 <= i < |deals| ==> Id(deals[i]) != id
    ensures r >= 0 ==> Id(deals[r]) == id && forall i :: 0 <= i < r ==> Id(deals[i]) != id
  {
    if deals == [] then -1
    else if Id(deals[0]) == id then 0
    else
      var r := IndexOfId(deals[1..], id);
      assert forall i :: 1 <= i < |deals| ==> deals[i] == deals[1..][i - 1];
      if r == -1 then -1 else r + 1
  }

  /** A deal is in the backlog strip as the drop handler sees it: it has no date. */
  predicate IsUndated(d: Deal) {
    !Truthy(Get(d, "data_janela"))
  }

  /** `Math.max(...backlog.map(d => d.backlog_order || 0), 0)`. */
  function MaxOrder(backlog: seq<Deal>): (r: real)
    ensures r >= 0.0
    ensures forall i :: 0 <= i < |backlog| ==> Amount(Get(backlog[i], "backlog_order")) <= r
    ensures r == 0.0 || exists i :: 0 <= i < |backlog| && Amount(Get(backlog[i], "backlog_order")) == r
  {
    if backlog == [] then 0.0
    else
      var head, rest := Amount(Get(backlog[0], "backlog_order")), MaxOrder(backlog[1..]);
      assert forall i :: 1 <= i < |backlog| ==> backlog[i] == backlog[1..][i - 1];
      if head > rest then head else rest
  }

  /** Dropping on the backlog: no date, and a position after every backlog deal. */
  function BacklogPatch(backlog: seq<Deal>): (r: Record)
    ensures r.Keys == {"data_janela", "backlog_order"} && r["data_janela"] == Null
    ensures r["backlog_order"].Num?
    ensures forall i :: 0 <= i < |backlog| ==> Amount(Get(backlog[i], "backlog_order")) < r["backlog_order"].x
  {
    map["data_janela" := Null, "backlog_order" := Num(MaxOrder(backlog) + 1.0)]
  }

  /** No grouping column is one of the columns the drop handler manages itself. */
  lemma GroupColumnIsOwn(g: GroupingField)
    ensures ColumnOf(g) !in {"deal_uuid", "data_janela", "backlog_order"}
  {
    match g
    case Setor =>
    case Veiculo =>
    case PrincipalIndexador =>
    case IpoFon =>
    case Produto =>
    case Tipo =>
  }

  /** A column drop: the new month's last day; a deal from the backlog also loses its position. */
  function MonthPatch(v: BoardView, active: Deal, monthKey: string): (r: Option<Record>)
    ensures ParseMonthYearToDate(v.cal, monthKey, v.thisYear, true).None? <==> r.None?
    ensures r.Some? ==> "data_janela" in r.value && r.value["data_janela"] == Str(ParseMonthYearToDate(v.cal, monthKey, v.thisYear, true).value)
    ensures r.Some? && IsUndated(active) ==> r.value.Keys == {"data_janela", "backlog_order"} && r.value["backlog_order"] == Null
    ensures r.Some? && !IsUndated(active) ==> r.value.Keys == {"data_janela"}
  {
    match ParseMonthYearToDate(v.cal, monthKey, v.thisYear, true)
    case None => None
    case Some(date) =>
      if IsUndated(active) then Some(map["data_janela" := Str(date), "backlog_order" := Null])
      else Some(map["data_janela" := Str(date)])
  }

  /**
   * A cell drop: as a column drop, and a deal from the backlog also takes
   * the row's group value (null for 'Outros'). Empty keys, or a month that
   * does not parse, mean no update.
   */
  function CellPatch(v: BoardView, active: Deal, rowKey: string, colKey: string): (r: Option<Record>)
    ensures rowKey == "" || colKey == "" ==> r.None?
    ensures rowKey != "" && colKey != "" ==> (r.None? <==> MonthPatch(v, active, colKey).None?)
    ensures r.Some? && !IsUndated(active) ==> r == MonthPatch(v, active, colKey)
    ensures r.Some? && IsUndated(active) ==>
      r.value == MonthPatch(v, active, colKey).value[ColumnOf(v.groupBy) := if rowKey == "Outros" then Null else Str(rowKey)]
  {
    if rowKey == "" || colKey == "" then None
    else match MonthPatch(v, active, colKey)
      case None => None
      case Some(u) =>
        if IsUndated(active) then Some(u[ColumnOf(v.groupBy) := if rowKey == "Outros" then Null else Str(rowKey)])
        else Some(u)
  }

  // ---------------------------------------------------------------- cell ids

  /** The last index of `c` in `s`, or -1. */
  function LastIndexOfChar(s: string, c: char): (r: int)
    ensures -1 <= r < |s|
    ensures r == -1 <==> c !in s
    ensures r >= 0 ==> s[r] == c && c !in s[r + 1..]
  {
    if s == [] then -1
    else if s[|s| - 1] == c then |s| - 1
    else
      var r := LastIndexOfChar(s[..|s| - 1], c);
      assert s == s[..|s| - 1] + [s[|s| - 1]];
      if r >= 0 then
        assert s[r + 1..] == s[..|s| - 1][r + 1..] + [s[|s| - 1]];
        r
      else r
  }

  lemma LastIndexOfCharAfter(p: string, c: char, q: string)
    requires c !in q
    ensures LastIndexOfChar(p + [c] + q, c) == |p|
  {
    var s := p + [c] + q;
    assert s[|p|] == c && s[|p| + 1..] == q;
  }

  /**
   * The id split as written: the row key before the first '-', the column
   * key after it (`substring` with index -1 takes the empty prefix).
   */
  function SplitAtFirstDash(id: string): (r: (string, string))
    ensures '-' in id ==> id == r.0 + "-" + r.1 && '-' !in r.0
    ensures '-' !in id ==> r == ("", id)
  {
    var i := IndexOfChar(id, '-');
    if i < 0 then ("", id) else (id[..i], id[i + 1..])
  }

  /** The first-dash split recovers the keys when the row key has no '-'. */
  lemma FirstDashRecovers(r: string, c: string)
    requires '-' !in r
    ensures SplitAtFirstDash(CellId(r, c)) == (r, c)
  {
    var id := CellId(r, c);
    IndexOfCharAfter(r, c, '-');
    assert id == r + ['-'] + c;
    assert id[..|r|] == r && id[|r| + 1..] == c;
  }

  /** The vehicle 'FI-Agro' in the month 'jan-2025' is read back as row 'FI'. */
  lemma FirstDashBreaksDashedRow()
    ensures SplitAtFirstDash(CellId("FI-Agro", "jan-2025")) == ("FI", "Agro-jan-2025")
  {
    var id := CellId("FI-Agro", "jan-2025");
    IndexOfCharAfter("FI", "Agro-jan-2025", '-');
    assert id == "FI" + ['-'] + "Agro-jan-2025";
    assert id[..2] == "FI" && id[3..] == "Agro-jan-2025";
  }

  /**
   * The split that keeps the month whole: a month key 'MMM-yyyy' holds one
   * '-', so the row key ends at the last '-' but one (at the only one when
   * there is a single '-').
   */
  function SplitBeforeMonth(id: string): (r: (string, string))
    ensures '-' in id ==> id == r.0 + "-" + r.1
    ensures '-' !in id ==> r == ("", id)
    ensures AtMostOneDash(r.1)
  {
    if '-' !in id then ("", id)
    else
      var k := MonthDash(id);
      DashSplits(id, k);
      (id[..k], id[k + 1..])
  }

  /** The position of the dash before the month: the last '-' but one, or the only one. */
  function MonthDash(id: string): (k: int)
    requires '-' in id
    ensures 0 <= k < |id| && id[k] == '-' && AtMostOneDash(id[k + 1..])
  {
    var j := LastIndexOfChar(id, '-');
    var p := LastIndexOfChar(id[..j], '-');
    TailAfterSecondLastDash(id, j, p);
    if p < 0 then j else p
  }

  lemma DashSplits(id: string, k: int)
    requires 0 <= k < |id| && id[k] == '-'
    ensures id == id[..k] + "-" + id[k + 1..]
  {
    assert id == id[..k] + [id[k]] + id[k + 1..];
  }

  /** The text holds at most one '-'. */
  predicate AtMostOneDash(s: string) {
    forall i, j :: 0 <= i < j < |s| && s[i] == '-' ==> s[j] != '-'
  }

  lemma TailAfterSecondLastDash(id: string, j: int, p: int)
    requires 0 <= j < |id| && id[j] == '-' && '-' !in id[j + 1..]
    requires -1 <= p < j && (p == -1 <==> '-' !in id[..j]) && (p >= 0 ==> id[p] == '-' && '-' !in id[..j][p + 1..])
    ensures AtMostOneDash(id[(if p < 0 then j else p) + 1..])
  {
    var k := if p < 0 then j else p;
    var t := id[k + 1..];
    forall x | 0 <= x < |t| && k + 1 + x != j ensures t[x] != '-' {
      DashFreeTail(id, j, p, k, x);
    }
  }

  lemma DashFreeTail(id: string, j: int, p: int, k: int, x: int)
    requires 0 <= j < |id| && '-' !in id[j + 1..]
    requires -1 <= p < j && (p >= 0 ==> '-' !in id[..j][p + 1..])
    requires k == (if p < 0 then j else p) && 0 <= x < |id| - k - 1 && k + 1 + x != j
    ensures id[k + 1 + x] != '-'
  {
    if k + 1 + x > j {
      assert id[k + 1 + x] == id[j + 1..][k + x - j];
    } else {
      assert id[k + 1 + x] == id[..j][p + 1..][x];
    }
  }

  /** Whatever the row key, a 'MMM-yyyy' column key is split off whole. */
  lemma SplitBeforeMonthRecovers(r: string, month: string, year: string)
    requires '-' !in month && '-' !in year
    ensures SplitBeforeMonth(CellId(r, month + "-" + year)) == (r, month + "-" + year)
  {
    var head := r + "-" + month;
    assert CellId(r, month + "-" + year) == head + ['-'] + year;
    SplitBeforeMonthAt(CellId(r, month + "-" + year), head, r, month, year);
  }

  lemma SplitBeforeMonthAt(id: string, head: string, r: string, month: string, year: string)
    requires id == head + ['-'] + year && head == r + ['-'] + month
    requires '-' !in month && '-' !in year
    ensures LastIndexOfChar(id, '-') == |head| && id[..|head|] == head
    ensures LastIndexOfChar(head, '-') == |r|
    ensures SplitBeforeMonth(id) == (r, month + "-" + year)
  {
    LastIndexOfCharAfter(head, '-', year);
    assert id[..|head|] == head;
    LastIndexOfCharAfter(r, '-', month);
    assert id[..|r|] == r;
    assert id[|r| + 1..] == month + "-" + year;
  }

  /** The corrected split reads the cell of row 'FI-Agro' and month 'jan-2025' back whole. */
  lemma SplitBeforeMonthDashedRow()
    ensures SplitBeforeMonth(CellId("FI-Agro", "jan-2025")) == ("FI-Agro", "jan-2025")
  {
    SplitBeforeMonthOneDash("FI-Agro", "jan-2025", 3);
  }

  /** A column key with a single '-' is split off whole. */
  lemma SplitBeforeMonthOneDash(r: string, c: string, i: int)
    requires 0 <= i < |c| && c[i] == '-' && '-' !in c[..i] && '-' !in c[i + 1..]
    ensures SplitBeforeMonth(CellId(r, c)) == (r, c)
  {
    assert c == c[..i] + "-" + c[i + 1..];
    SplitBeforeMonthRecovers(r, c[..i], c[i + 1..]);
  }

  /** A column key without '-', such as 'Sem Data', is split off whole when the row key has none either. */
  lemma SplitBeforeMonthPlainKeys(r: string, c: string)
    requires '-' !in r && '-' !in c
    ensures SplitBeforeMonth(CellId(r, c)) == (r, c)
  {
    var id := CellId(r, c);
    assert id == r + ['-'] + c;
    LastIndexOfCharAfter(r, '-', c);
    assert id[..|r|] == r;
  }

  // ---------------------------------------------------------------- handleDragEnd

  /** A deal card dropped on another undated deal's card. */
  predicate IsUndatedDealId(deals: seq<Deal>, id: string) {
    var t := FindById(deals, Str(id));
    t.Some? && IsUndated(t.value)
  }

  /**
   * The update for a drop that is not a backlog reorder, with the split
   * that keeps the month whole for a bare cell id.
   */
  function DropPatch(v: BoardView, active: Deal, backlog: seq<Deal>, over: Over): (r: Option<Record>)
    ensures over.id == "backlog" ==> r == Some(BacklogPatch(backlog))
    ensures over.id != "backlog" && over.data.CellData? ==> r == CellPatch(v, active, over.data.rowKey, over.data.colKey)
    ensures over.id != "backlog" && over.data.ColumnData? ==> r == MonthPatch(v, active, over.data.monthKey)
    ensures over.id != "backlog" && over.data.NoData? && '-' in over.id ==>
      r == CellPatch(v, active, SplitBeforeMonth(over.id).0, SplitBeforeMonth(over.id).1)
    ensures over.id != "backlog" && (over.data.OtherData? || (over.data.NoData? && '-' !in over.id)) ==> r.None?
  {
    if over.id == "backlog" then Some(BacklogPatch(backlog))
    else match over.data
      case CellData(rowKey, colKey) => CellPatch(v, active, rowKey, colKey)
      case ColumnData(monthKey) => MonthPatch(v, active, monthKey)
      case NoData =>
        if '-' in over.id then
          var (rowKey, colKey) := SplitBeforeMonth(over.id);
          CellPatch(v, active, rowKey, colKey)
        else None
      case OtherData => None
  }

  /** Every update the drop handler builds sets the date and leaves the id alone. */
  lemma DropPatchShape(v: BoardView, active: Deal, backlog: seq<Deal>, over: Over)
    requires DropPatch(v, active, backlog, over).Some?
    ensures "data_janela" in DropPatch(v, active, backlog, over).value
    ensures "deal_uuid" !in DropPatch(v, active, backlog, over).value
  {
    if over.id != "backlog" {
      match over.data
      case CellData(rowKey, colKey) => CellPatchShape(v, active, rowKey, colKey);
      case ColumnData(monthKey) =>
      case NoData => CellPatchShape(v, active, SplitBeforeMonth(over.id).0, SplitBeforeMonth(over.id).1);
      case OtherData =>
    }
  }

  lemma CellPatchShape(v: BoardView, active: Deal, rowKey: string, colKey: string)
    ensures CellPatch(v, active, rowKey, colKey).Some? ==>
      "data_janela" in CellPatch(v, active, rowKey, colKey).value && "deal_uuid" !in CellPatch(v, active, rowKey, colKey).value
  {
    GroupColumnIsOwn(v.groupBy);
  }

  /**
   * The update for a drop as written: a bare cell id is split at its first
   * '-'; every other target is handled as in `DropPatch`.
   */
  function DropPatchAsWritten(v: BoardView, active: Deal, backlog: seq<Deal>, over: Over): (r: Option<Record>)
    ensures over.id != "backlog" && over.data.NoData? && '-' in over.id ==>
      r == CellPatch(v, active, SplitAtFirstDash(over.id).0, SplitAtFirstDash(over.id).1)
    ensures !(over.id != "backlog" && over.data.NoData? && '-' in over.id) ==> r == DropPatch(v, active, backlog, over)
    ensures r.Some? ==> "data_janela" in r.value && "deal_uuid" !in r.value
  {
    if over.id != "backlog" && over.data.NoData? && '-' in over.id then
      var (rowKey, colKey) := SplitAtFirstDash(over.id);
      CellPatchShape(v, active, rowKey, colKey);
      CellPatch(v, active, rowKey, colKey)
    else
      var r := DropPatch(v, active, backlog, over);
      if r.Some? then DropPatchShape(v, active, backlog, over); r else r
  }

  /** Both splits agree on a bare cell id whose row key holds no '-' and whose month is 'MMM-yyyy'. */
  lemma DropPatchAsWrittenAgrees(v: BoardView, active: Deal, backlog: seq<Deal>, r: string, month: string, year: string)
    requires '-' !in r && '-' !in month && '-' !in year
    ensures var over := Over(CellId(r, month + "-" + year), NoData);
      DropPatchAsWritten(v, active, backlog, over) == DropPatch(v, active, backlog, over)
  {
    var id := CellId(r, month + "-" + year);
    assert '-' in id by { assert id[|r|] == '-'; }
    FirstDashRecovers(r, month + "-" + year);
    SplitBeforeMonthRecovers(r, month, year);
  }

  /**
   * A backlog deal dropped on the bare cell id of row 'FI-Agro' (one of
   * the vehicle options) and month 'jan-2025' joins row 'FI' as written,
   * and row 'FI-Agro' with the corrected split (when the month parses at
   * all).
   */
  lemma DashedRowDropDiverges(v: BoardView, active: Deal, backlog: seq<Deal>)
    requires IsUndated(active)
    ensures "FI-Agro" in DatabaseEnums.VeiculoOptions
    ensures var over := Over(CellId("FI-Agro", "jan-2025"), NoData);
      var written, corrected := DropPatchAsWritten(v, active, backlog, over), DropPatch(v, active, backlog, over);
      (written.Some? ==> written.value[ColumnOf(v.groupBy)] == Str("FI"))
      && (corrected.Some? ==> corrected.value[ColumnOf(v.groupBy)] == Str("FI-Agro"))
  {
    var id := CellId("FI-Agro", "jan-2025");
    var over := Over(id, NoData);
    FirstDashBreaksDashedRow();
    assert '-' in id by { assert SplitAtFirstDash(id).0 != ""; }
    assert DropPatchAsWritten(v, active, backlog, over) == CellPatch(v, active, "FI", "Agro-jan-2025");
    SplitBeforeMonthDashedRow();
    assert DropPatch(v, active, backlog, over) == CellPatch(v, active, "FI-Agro", "jan-2025");
    DatabaseEnums.DashedVehicles();
  }

  /** The update of a drop target, as written or with the corrected split. */
  function TargetPatch(v: BoardView, asWritten: bool, active: Deal, backlog: seq<Deal>, over: Over): (r: Option<Record>)
    ensures r == if asWritten then DropPatchAsWritten(v, active, backlog, over) else DropPatch(v, active, backlog, over)
    ensures r.Some? ==> "data_janela" in r.value && "deal_uuid" !in r.value
  {
    if asWritten then DropPatchAsWritten(v, active, backlog, over)
    else
      var r := DropPatch(v, active, backlog, over);
      if r.Some? then DropPatchShape(v, active, backlog, over); r else r
  }

  /**
   * `handleDragEnd`, up to the reply: nothing without a target, for a drop
   * on itself or for an unknown deal; a reorder when an undated deal is
   * dropped on another undated deal of the backlog strip; otherwise the
   * update of the drop target, if any, from `DropPatchAsWritten` when
   * `asWritten` and from the corrected `DropPatch` otherwise.
   */
  function PlanDrop(v: BoardView, asWritten: bool, deals: seq<Deal>, backlog: seq<Deal>, ev: DragEvent): (r: DropPlan)
    ensures ev.over.None? || ev.over.value.id == ev.activeId || FindById(deals, Str(ev.activeId)).None? ==> r.Ignore?
    ensures r.Reorder? ==> (ev.over.Some? && r.from < |backlog| && r.to < |backlog|
      && Id(backlog[r.from]) == Str(ev.activeId) && Id(backlog[r.to]) == Str(ev.over.value.id)
      && IsUndatedDealId(deals, ev.activeId) && IsUndatedDealId(deals, ev.over.value.id))
    ensures r.Patch? ==> (FindById(deals, Str(ev.activeId)) == Some(r.active)
      && "data_janela" in r.updates && "deal_uuid" !in r.updates)
    ensures r.Patch? ==> ev.over.Some? && Some(r.updates) == TargetPatch(v, asWritten, r.active, backlog, ev.over.value)
  {
    if ev.over.None? || ev.over.value.id == ev.activeId then Ignore
    else match FindById(deals, Str(ev.activeId))
      case None => Ignore
      case Some(active) =>
        var over := ev.over.value;
        var from, to := IndexOfId(backlog, Str(ev.activeId)), IndexOfId(backlog, Str(over.id));
        if IsUndated(active) && IsUndatedDealId(deals, over.id) && from >= 0 && to >= 0 then Reorder(from, to)
        else match TargetPatch(v, asWritten, active, backlog, over)
          case None => Ignore
          case Some(u) => Patch(active, u)
  }

  // ---------------------------------------------------------------- the backlog reorder

  /** `splice(from, 1)` then `splice(to, 0, moved)`. */
  function Moved<T>(s: seq<T>, from: nat, to: nat): seq<T>
    requires from < |s| && to < |s|
  {
    var rest := s[..from] + s[from + 1..];
    rest[..to] + [s[from]] + rest[to..]
  }

  /** Where the element at position `i` of the moved list came from. */
  function MovedFrom(from: nat, to: nat, i: nat): nat {
    if i == to then from
    else if from < to && from <= i < to then i + 1
    else if to < from && to < i <= from then i - 1
    else i
  }

  lemma MovedIndex<T>(s: seq<T>, from: nat, to: nat)
    requires from < |s| && to < |s|
    ensures |Moved(s, from, to)| == |s|
    ensures forall i :: 0 <= i < |s| ==> MovedFrom(from, to, i) < |s| && Moved(s, from, to)[i] == s[MovedFrom(from, to, i)]
  {
    var rest := s[..from] + s[from + 1..];
    RemovedIndex(s, from, rest);
    InsertedIndex(rest, s[from], to, Moved(s, from, to));
  }

  lemma RemovedIndex<T>(s: seq<T>, from: nat, rest: seq<T>)
    requires from < |s| && rest == s[..from] + s[from + 1..]
    ensures |rest| == |s| - 1
    ensures forall k :: 0 <= k < |rest| ==> rest[k] == if k < from then s[k] else s[k + 1]
  {
  }

  lemma InsertedIndex<T>(rest: seq<T>, x: T, to: nat, m: seq<T>)
    requires to <= |rest| && m == rest[..to] + [x] + rest[to..]
    ensures |m| == |rest| + 1
    ensures forall i :: 0 <= i < |m| ==> m[i] == if i < to then rest[i] else if i == to then x else rest[i - 1]
  {
  }

  /**
   * The reorder is a permutation that puts the moved element at the
   * target position and keeps every other element in its order.
   */
  lemma MovedIsPermutation<T>(s: seq<T>, from: nat, to: nat)
    requires from < |s| && to < |s|
    ensures multiset(Moved(s, from, to)) == multiset(s)
    ensures Moved(s, from, to)[to] == s[from]
    ensures Moved(s, from, to)[..to] + Moved(s, from, to)[to + 1..] == s[..from] + s[from + 1..]
  {
    var rest := s[..from] + s[from + 1..];
    assert s == s[..from] + [s[from]] + s[from + 1..];
    assert rest == rest[..to] + rest[to..];
    var m := Moved(s, from, to);
    assert m[..to] == rest[..to] && m[to + 1..] == rest[to..];
    calc {
      multiset(m);
      multiset(rest[..to]) + multiset{s[from]} + multiset(rest[to..]);
      multiset(rest) + multiset{s[from]};
      multiset(s[..from]) + multiset(s[from + 1..]) + multiset{s[from]};
      multiset(s);
    }
  }

  /** Distinct positions of the moved list come from distinct positions. */
  lemma MovedFromInjective(from: nat, to: nat, i: nat, j: nat)
    requires i != j
    ensures MovedFrom(from, to, i) != MovedFrom(from, to, j)
  {
  }

  /** The reorder keeps the ids unique. */
  lemma MovedKeepsUniqueIds(s: seq<Deal>, from: nat, to: nat)
    requires UniqueIds(s) && from < |s| && to < |s|
    ensures UniqueIds(Moved(s, from, to))
  {
    MovedIndex(s, from, to);
    var m := Moved(s, from, to);
    forall i, j | 0 <= i < j < |m| ensures Id(m[i]) != Id(m[j]) {
      MovedFromInjective(from, to, i, j);
      var a, b := MovedFrom(from, to, i), MovedFrom(from, to, j);
      if a < b {
        assert Id(s[a]) != Id(s[b]);
      } else {
        assert Id(s[b]) != Id(s[a]);
      }
    }
  }

  /**
   * The splices on a copy of the backlog, done in place: the elements
   * between the two positions shift by one and the moved one lands at `to`.
   */
  method MoveInPlace<T>(a: array<T>, from: nat, to: nat)
    requires from < a.Length && to < a.Length
    modifies a
    ensures a[..] == Moved(old(a[..]), from, to)
  {
    ghost var s := a[..];
    var x := a[from];
    if from < to {
      var k := from;
      while k < to
        invariant from <= k <= to
        invariant forall i :: 0 <= i < from ==> a[i] == s[i]
        invariant forall i :: from <= i < k ==> a[i] == s[i + 1]
        invariant forall i :: k <= i < a.Length ==> a[i] == s[i]
      {
        a[k] := a[k + 1];
        k := k + 1;
      }
    } else {
      var k := from;
      while k > to
        invariant to <= k <= from
        invariant forall i :: 0 <= i <= k ==> a[i] == s[i]
        invariant forall i :: k < i <= from ==> a[i] == s[i - 1]
        invariant forall i :: from < i < a.Length ==> a[i] == s[i]
      {
        a[k] := a[k - 1];
        k := k - 1;
      }
    }
    a[to] := x;
    MovedIndex(s, from, to);
    assert forall i :: 0 <= i < a.Length ==> a[i] == s[MovedFrom(from, to, i)];
  }

  /** `currentBacklogDeals.map((deal, index) => ({ deal_uuid, backlog_order: index + 1 }))`. */
  function Renumbered(s: seq<Deal>): seq<OrderUpdate> {
    seq(|s|, i requires 0 <= i < |s| => OrderUpdate(Id(s[i]), i + 1))
  }

  /** With unique ids, each deal's entry in the renumbering is its position plus one. */
  lemma RenumberedPositions(s: seq<Deal>)
    requires UniqueIds(s)
    ensures forall i :: 0 <= i < |s| ==> FindOrder(Renumbered(s), Id(s[i])) == Some(i + 1)
  {
    var u := Renumbered(s);
    forall i | 0 <= i < |s| ensures FindOrder(u, Id(s[i])) == Some(i + 1) {
      assert u[i].dealId == Id(s[i]);
      var r := FindOrder(u, Id(s[i]));
      var j :| FirstEntry(u, Id(s[i]), j) && u[j].backlogOrder == r.value;
    }
  }

  /**
   * After a reorder, the dragged deal's `backlog_order` is its target
   * position plus one, whatever its position in the whole list.
   */
  lemma ReorderPutsDealAtTarget(deals: seq<Deal>, backlog: seq<Deal>, from: nat, to: nat, k: nat)
    requires UniqueIds(backlog) && from < |backlog| && to < |backlog|
    requires k < |deals| && Id(deals[k]) == Id(backlog[from])
    ensures Get(ApplyBacklogOrders(deals, Renumbered(Moved(backlog, from, to)))[k], "backlog_order") == Num((to + 1) as real)
  {
    var m := Moved(backlog, from, to);
    MovedKeepsUniqueIds(backlog, from, to);
    MovedIsPermutation(backlog, from, to);
    RenumberedPositions(m);
    assert FindOrder(Renumbered(m), Id(m[to])) == Some(to + 1);
  }

  // ---------------------------------------------------------------- replies

  /** The list after a drop's update and its reply, as written: `updateDeal` never throws, so it is kept. */
  function AfterPatchAsWritten(deals: seq<Deal>, active: Deal, updates: Record, saved: Option<Deal>): (r: seq<Deal>)
    ensures |r| == |deals|
    ensures forall i :: 0 <= i < |r| && Id(deals[i]) != Id(active) ==> r[i] == deals[i]
    ensures forall i, k :: 0 <= i < |r| && Id(deals[i]) == Id(active) && k in updates ==> Get(r[i], k) == updates[k]
    ensures saved.Some? ==> r == AfterPatch(deals, active, updates, saved)
  {
    MergeById(deals, Id(active), updates)
  }

  /** As written, a save that fails still leaves the updated deal on the board. */
  lemma FailedPatchKeptAsWritten(deals: seq<Deal>, k: nat, updates: Record, key: string)
    requires k < |deals| && key in updates && updates[key] != Get(deals[k], key)
    ensures AfterPatchAsWritten(deals, deals[k], updates, None) != deals
  {
    assert Get(AfterPatchAsWritten(deals, deals[k], updates, None)[k], key) == updates[key];
  }

  /** The rollback the handler intends: a failed save (a null reply) puts the original deal back. */
  function AfterPatch(deals: seq<Deal>, active: Deal, updates: Record, saved: Option<Deal>): (r: seq<Deal>)
    ensures |r| == |deals|
    ensures saved.Some? ==> forall i :: 0 <= i < |r| && Id(deals[i]) != Id(active) ==> r[i] == deals[i]
    ensures saved.Some? ==> forall i, k :: 0 <= i < |r| && Id(deals[i]) == Id(active) && k in updates ==> Get(r[i], k) == updates[k]
    ensures saved.None? && "deal_uuid" !in updates ==>
      forall i :: 0 <= i < |r| ==> r[i] == if Id(deals[i]) == Id(active) then active else deals[i]
  {
    var merged := MergeById(deals, Id(active), updates);
    if saved.Some? then merged else ReplaceById(merged, Id(active), active)
  }

  /** With unique ids, a failed save restores exactly the original list. */
  lemma FailedPatchRestores(deals: seq<Deal>, k: nat, updates: Record)
    requires UniqueIds(deals) && k < |deals| && "deal_uuid" !in updates
    ensures AfterPatch(deals, deals[k], updates, None) == deals
  {
    RollbackRestores(deals, k, updates);
  }

  /** The list after a reorder and its reply, as written: `updateBacklogOrder` never throws, so no reload. */
  function AfterReorderAsWritten(deals: seq<Deal>, updates: seq<OrderUpdate>, saved: bool, reloaded: seq<Deal>): (r: seq<Deal>)
    ensures |r| == |deals|
    ensures forall i :: 0 <= i < |r| ==> Id(r[i]) == Id(deals[i])
    ensures saved ==> r == AfterReorder(deals, updates, saved, reloaded)
  {
    ApplyBacklogOrders(deals, updates)
  }

  /** As written, a renumbering the server refused stays on the board instead of the server's list. */
  lemma FailedReorderKeptAsWritten()
    ensures var d := map["deal_uuid" := Str("a"), "backlog_order" := Num(2.0)];
      AfterReorderAsWritten([d], [OrderUpdate(Str("a"), 1)], false, [d]) != [d]
  {
    var d := map["deal_uuid" := Str("a"), "backlog_order" := Num(2.0)];
    var r := AfterReorderAsWritten([d], [OrderUpdate(Str("a"), 1)], false, [d]);
    assert FindOrder([OrderUpdate(Str("a"), 1)], Id(d)) == Some(1);
    assert Get(r[0], "backlog_order") == Num(1.0) != Get(d, "backlog_order");
  }

  /** The reload the handler intends: a refused renumbering is replaced by the list loaded again. */
  function AfterReorder(deals: seq<Deal>, updates: seq<OrderUpdate>, saved: bool, reloaded: seq<Deal>): (r: seq<Deal>)
    ensures !saved ==> r == reloaded
    ensures saved ==> |r| == |deals| && forall i :: 0 <= i < |r| ==> Id(r[i]) == Id(deals[i])
  {
    if saved then ApplyBacklogOrders(deals, updates) else reloaded
  }

  // ---------------------------------------------------------------- the audit of a drop

  /**
   * `logObjectChanges(activeDeal.deal_uuid, activeDeal.nome_fundo || 'Unknown
   * Deal', activeDeal, {...activeDeal, ...updates})`, with no user, so the
   * entries carry 'system'; `keys` is `Object.keys` of the spread record.
   */
  function DropAudit(active: Deal, updates: Record, keys: seq<string>): seq<Audit.AuditLog> {
    Audit.ObjectChanges(ToJsString(Id(active)), Audit.DealName(active), active, Spread(active, updates), keys,
      Audit.SystemUser, Audit.SystemEmail)
  }

  /** `keys` is `Object.keys({ ...activeDeal, ...updates })` when the plan is an update. */
  ghost predicate ListsPatchedKeys(plan: DropPlan, keys: seq<string>) {
    plan.Patch? ==> forall x :: x in keys <==> x in Spread(plan.active, plan.updates)
  }

  /**
   * A drop audits exactly the fields of the update that render differently
   * from the deal's, the id and the creation date aside; every entry is
   * by 'system'.
   */
  lemma DropAuditFields(active: Deal, updates: Record, keys: seq<string>, k: string)
    requires forall x :: x in keys <==> x in Spread(active, updates)
    ensures var logs := DropAudit(active, updates, keys);
      (exists j :: 0 <= j < |logs| && Audit.FieldOf(logs[j]) == k) <==>
      (k in updates && !Audit.Skipped(k) && Audit.FormatValueForAudit(Get(active, k)) != Audit.FormatValueForAudit(updates[k]))
    ensures forall log :: log in DropAudit(active, updates, keys) ==> log.userId == Audit.SystemUser && log.userEmail == Audit.SystemEmail
  {
    var newData := Spread(active, updates);
    var logs := DropAudit(active, updates, keys);
    Audit.ChangeLoggedIff(ToJsString(Id(active)), Audit.DealName(active), active, newData, keys, Audit.SystemUser, Audit.SystemEmail, k);
    forall log | log in logs
      ensures log.userId == Audit.SystemUser && log.userEmail == Audit.SystemEmail
    {
      var j :| 0 <= j < |logs| && logs[j] == log;
      Audit.ObjectChangesSound(ToJsString(Id(active)), Audit.DealName(active), active, newData, keys, Audit.SystemUser, Audit.SystemEmail, j);
    }
  }

  /** The backlog strip spliced in place and renumbered: the updates `updateBacklogOrder` receives. */
  method ReorderedStrip(backlog: seq<Deal>, from: nat, to: nat) returns (updates: seq<OrderUpdate>)
    requires from < |backlog| && to < |backlog|
    ensures updates == Renumbered(Moved(backlog, from, to))
  {
    var strip := new Deal[|backlog|](i requires 0 <= i < |backlog| => backlog[i]);
    assert strip[..] == backlog;
    MoveInPlace(strip, from, to);
    updates := Renumbered(strip[..]);
  }

  // ---------------------------------------------------------------- list handlers

  /** Creating a deal with a new id and deleting it again gives the list back. */
  lemma CreatedThenDeletedRestores(deals: seq<Deal>, d: Deal)
    requires forall i :: 0 <= i < |deals| ==> Id(deals[i]) != Id(d)
    ensures RemoveById([d] + deals, Id(d)) == deals
    ensures UniqueIds(deals) ==> UniqueIds([d] + deals)
  {
    assert ([d] + deals)[1..] == deals;
    FilterAll(deals, NotWithId(Id(d)));
  }

  /** Replacing a deal by an updated copy with the same id keeps the ids unique. */
  lemma UpdatedKeepsUniqueIds(deals: seq<Deal>, d: Deal)
    requires UniqueIds(deals)
    ensures UniqueIds(ReplaceById(deals, Id(d), d))
    ensures forall i :: 0 <= i < |deals| ==> Id(ReplaceById(deals, Id(d), d)[i]) == Id(deals[i])
  {
  }

  /** The board's list of deals. */
  class Board {
    var deals: seq<Deal>

    constructor(initial: seq<Deal>)
      ensures deals == initial
    {
      deals := initial;
    }

    /** `handleDealCreated`: the new deal goes first. */
    method DealCreated(d: Deal)
      modifies this
      ensures deals == [d] + old(deals)
    {
      deals := [d] + deals;
    }

    /** `handleDealUpdated`: the deal with that id is replaced. */
    method DealUpdated(d: Deal)
      modifies this
      ensures deals == ReplaceById(old(deals), Id(d), d)
    {
      deals := ReplaceById(deals, Id(d), d);
    }

    /** `handleDealDeleted`: the deal with that id leaves the list. */
    method DealDeleted(dealId: Value)
      modifies this
      ensures deals == RemoveById(old(deals), dealId)
    {
      deals := RemoveById(deals, dealId);
    }

    /**
     * `handleDragEnd` as written, with the replies: `saved` is what
     * `updateDeal` returned and `orderSaved` what `updateBacklogOrder`
     * returned. A bare cell id is split at its first '-'. The reorder
     * renumbers the spliced strip; an update is applied at once, audited and
     * sent. Neither call throws, so the `catch` blocks never run: a refused
     * update or renumbering stays on the board and `reloaded` is not used.
     * `logs` are the audit entries written before `updateDeal`; `keys` is
     * `Object.keys` of the patched deal.
     */
    method DragEndAsWritten(v: BoardView, backlog: seq<Deal>, ev: DragEvent, keys: seq<string>,
                            saved: Option<Deal>, orderSaved: bool, reloaded: seq<Deal>)
      returns (logs: seq<Audit.AuditLog>)
      requires ListsPatchedKeys(PlanDrop(v, true, deals, backlog, ev), keys)
      modifies this
      ensures match PlanDrop(v, true, old(deals), backlog, ev)
        case Ignore => deals == old(deals) && logs == []
        case Reorder(from, to) =>
          deals == AfterReorderAsWritten(old(deals), Renumbered(Moved(backlog, from, to)), orderSaved, reloaded) && logs == []
        case Patch(active, updates) =>
          deals == AfterPatchAsWritten(old(deals), active, updates, saved) && logs == DropAudit(active, updates, keys)
    {
      logs := [];
      var plan := PlanDrop(v, true, deals, backlog, ev);
      match plan {
        case Ignore =>
        case Reorder(from, to) =>
          var updates := ReorderedStrip(backlog, from, to);
          deals := ApplyBacklogOrders(deals, updates);
        case Patch(active, updates) =>
          deals := MergeById(deals, Id(active), updates);
          logs := Audit.LogObjectChanges(ToJsString(Id(active)), Audit.DealName(active), active, Spread(active, updates), keys,
            Audit.SystemUser, Audit.SystemEmail);
      }
    }

    /**
     * `handleDragEnd` as intended: the bare cell id is split before the
     * month, a failed save rolls the deal back, and a refused renumbering is
     * replaced by `reloaded`, the list a reload brings. The audit entries are
     * written as in `DragEndAsWritten`.
     */
    method DragEnd(v: BoardView, backlog: seq<Deal>, ev: DragEvent, keys: seq<string>,
                   saved: Option<Deal>, orderSaved: bool, reloaded: seq<Deal>)
      returns (logs: seq<Audit.AuditLog>)
      requires ListsPatchedKeys(PlanDrop(v, false, deals, backlog, ev), keys)
      modifies this
      ensures match PlanDrop(v, false, old(deals), backlog, ev)
        case Ignore => deals == old(deals) && logs == []
        case Reorder(from, to) =>
          deals == AfterReorder(old(deals), Renumbered(Moved(backlog, from, to)), orderSaved, reloaded) && logs == []
        case Patch(active, updates) =>
          deals == AfterPatch(old(deals), active, updates, saved) && logs == DropAudit(active, updates, keys)
      ensures UniqueIds(old(deals)) && PlanDrop(v, false, old(deals), backlog, ev).Patch? && saved.None? ==> deals == old(deals)
    {
      logs := [];
      var plan := PlanDrop(v, false, deals, backlog, ev);
      match plan {
        case Ignore =>
        case Reorder(from, to) =>
          var updates := ReorderedStrip(backlog, from, to);
          deals := ApplyBacklogOrders(deals, updates);
          if !orderSaved {
            deals := reloaded;
          }
        case Patch(active, updates) =>
          ghost var before := deals;
          deals := MergeById(deals, Id(active), updates);
          logs := Audit.LogObjectChanges(ToJsString(Id(active)), Audit.DealName(active), active, Spread(active, updates), keys,
            Audit.SystemUser, Audit.SystemEmail);
          if saved.None? {
            deals := ReplaceById(deals, Id(active), active);
            if UniqueIds(before) {
              ghost var k :| 0 <= k < |before| && before[k] == active;
              FailedPatchRestores(before, k, updates);
            }
          }
      }
    }
  }
}
