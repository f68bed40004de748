/**
 * Free-text search, match highlighting and the filter bar's filtering
 * (src/lib/search.ts).
 */
module Search {
  import opened JsStrings
  import opened JsValues
  import opened Seqs
  import DealModel
  import opened DateUtils
  import opened FilterControls

  type Deal = DealModel.Deal

  // ---------------------------------------------------------------- searchDeals

  /** The fields `searchDeals` looks in, in the order it tries them. */
  const SearchableFields: seq<string> := [
    "nome_fundo", "ticker_fundo", "cnpj_fundo", "gestora", "publico_alvo", "status_deal",
    "veiculo", "produto", "setor", "principal_indexador", "ipo_fon", "tipo_cota", "tipo",
    "canais", "resp_dcm", "bup_dcm", "resp_dist", "bup_dist", "aprov_leitura", "aprov_analise",
    "ancoragem_gf_alt",
    "oferta_base", "oferta_minima", "volume_liquidado", "demanda_estimada_total", "demanda_pedra",
    "demanda_inst", "demanda_varejo", "vol_ancoragem", "fee_est", "fee_canal", "rep_gestao",
    "rep_performance", "perc_book",
    "data_janela", "data_dp", "data_sobras", "data_roadshow", "data_bookbuilding", "data_liquidacao",
    "criado_em"
  ]

  /**
   * `toSearchableString(value)`: '' for null and undefined, numbers and
   * booleans as printed (numbers are not lower-cased), other values in
   * lower case.
   */
  function ToSearchableString(v: Value): (r: string)
    ensures IsNullish(v) ==> r == ""
    ensures v.Str? ==> r == Lower(v.s)
    ensures v.Num? ==> r == NumberToString(v.x)
  {
    match v
    case Undefined => ""
    case Null => ""
    case Bool(b) => if b then "true" else "false"
    case Num(x) => NumberToString(x)
    case Str(s) => Lower(s)
  }

  /** The search term as compared: lower case, then trimmed. */
  function Normalize(term: string): string {
    Trim(Lower(term))
  }

  /** Some searchable field of the deal contains the normalized term. */
  predicate Matches(d: Deal, nterm: string) {
    exists i :: 0 <= i < |SearchableFields| && Includes(ToSearchableString(Get(d, SearchableFields[i])), nterm)
  }

  /** The test `searchDeals` applies to each deal. */
  function MatchesTerm(nterm: string): Deal -> bool {
    d => Matches(d, nterm)
  }

  /** `!searchTerm || searchTerm.trim().length === 0`. */
  predicate IsBlank(term: string) {
    term == "" || Trim(term) == ""
  }

  lemma BlankIffWhitespace(term: string)
    ensures IsBlank(term) <==> AllWhitespace(term)
  {
    TrimEmptyIff(term);
  }

  /**
   * `searchDeals(deals, term)`: every deal for a blank term; otherwise the
   * deals, in their order, in which some searchable field contains the
   * normalized term.
   */
  function SearchDeals(deals: seq<Deal>, term: string): (r: seq<Deal>)
    ensures IsSubseq(r, deals)
    ensures AllWhitespace(term) ==> r == deals
    ensures !AllWhitespace(term) ==>
              (forall i :: 0 <= i < |r| ==> Matches(r[i], Normalize(term)))
              && (forall i :: 0 <= i < |deals| && Matches(deals[i], Normalize(term)) ==> deals[i] in r)
    ensures !AllWhitespace(term) ==>
              forall d :: multiset(r)[d] == if Matches(d, Normalize(term)) then multiset(deals)[d] else 0
  {
    BlankIffWhitespace(term);
    if IsBlank(term) then
      SubseqOfSelf(deals);
      deals
    else
      var nterm := Normalize(term);
      MatchFilter(deals, nterm);
      Filter(deals, MatchesTerm(nterm))
  }

  /** Filtering by `MatchesTerm(nterm)` keeps, in order, every copy of each deal that matches and nothing else. */
  lemma MatchFilter(deals: seq<Deal>, nterm: string)
    ensures var r := Filter(deals, MatchesTerm(nterm));
      IsSubseq(r, deals)
      && (forall i :: 0 <= i < |r| ==> Matches(r[i], nterm))
      && (forall i :: 0 <= i < |deals| && Matches(deals[i], nterm) ==> deals[i] in r)
      && forall d :: multiset(r)[d] == if Matches(d, nterm) then multiset(deals)[d] else 0
  {
    FilterIsSubseq(deals, MatchesTerm(nterm));
    FilterCounts(deals, MatchesTerm(nterm));
  }

  // ---------------------------------------------------------------- getHighlightedTextParts

  /** `{ text, isHighlighted }`. */
  datatype TextPart = TextPart(text: string, isHighlighted: bool)

  /** The parts' texts, joined. */
  function Flatten(parts: seq<TextPart>): string {
    if parts == [] then [] else Flatten(parts[..|parts| - 1]) + parts[|parts| - 1].text
  }

  lemma FlattenAppend(parts: seq<TextPart>, p: TextPart)
    ensures Flatten(parts + [p]) == Flatten(parts) + p.text
  {
    assert (parts + [p])[..|parts|] == parts;
  }

  /** Where part `i` starts in the text. */
  function Offset(parts: seq<TextPart>, i: nat): nat
    requires i <= |parts|
  {
    |Flatten(parts[..i])|
  }

  /**
   * What a part promises about the text `text` at offset `o`: a
   * highlighted part is an occurrence of the term up to case; a plain part
   * is not empty and no occurrence of the term starts inside it.
   */
  predicate PartOk(text: string, nterm: string, p: TextPart, o: int) {
    if p.isHighlighted then Lower(p.text) == nterm
    else p.text != [] && forall k :: o <= k < o + |p.text| ==> !MatchAt(Lower(text), nterm, k)
  }

  predicate AllPartsOk(text: string, nterm: string, parts: seq<TextPart>) {
    forall i :: 0 <= i < |parts| ==> PartOk(text, nterm, parts[i], Offset(parts, i))
  }

  /** Two plain parts are never next to each other. */
  predicate NoAdjacentPlain(parts: seq<TextPart>) {
    forall i :: 0 <= i < |parts| - 1 ==> parts[i].isHighlighted || parts[i + 1].isHighlighted
  }

  /**
   * The parts split `text` into the leftmost non-overlapping occurrences
   * of `nterm` (case-insensitively) and the stretches between them.
   */
  predicate Highlights(text: string, nterm: string, parts: seq<TextPart>) {
    Flatten(parts) == text && AllPartsOk(text, nterm, parts) && NoAdjacentPlain(parts)
  }

  lemma AppendPartOk(text: string, nterm: string, parts: seq<TextPart>, p: TextPart)
    requires AllPartsOk(text, nterm, parts)
    requires PartOk(text, nterm, p, |Flatten(parts)|)
    ensures AllPartsOk(text, nterm, parts + [p])
  {
    var ps := parts + [p];
    forall i | 0 <= i < |ps| ensures PartOk(text, nterm, ps[i], Offset(ps, i)) {
      assert ps[..i] == if i < |parts| then parts[..i] else parts;
    }
  }

  /** What the loop keeps: the parts so far cover `text[..cur]` and end with a highlight. */
  predicate LoopState(text: string, nterm: string, parts: seq<TextPart>, cur: nat) {
    cur <= |text| && Flatten(parts) == text[..cur] && AllPartsOk(text, nterm, parts)
    && NoAdjacentPlain(parts) && (parts == [] || parts[|parts| - 1].isHighlighted)
  }

  /** Pushing the plain stretch `text[cur..end]`, in which the term does not start. */
  lemma PushPlain(text: string, nterm: string, parts: seq<TextPart>, cur: nat, end: nat)
    requires LoopState(text, nterm, parts, cur) && cur < end <= |text|
    requires forall k :: cur <= k < end ==> !MatchAt(Lower(text), nterm, k)
    ensures var ps := parts + [TextPart(text[cur..end], false)];
      Flatten(ps) == text[..end] && AllPartsOk(text, nterm, ps) && NoAdjacentPlain(ps)
  {
    var p := TextPart(text[cur..end], false);
    AppendPartOk(text, nterm, parts, p);
    FlattenAppend(parts, p);
    assert text[..cur] + text[cur..end] == text[..end];
  }

  /** Pushing the occurrence of the term at `si`. */
  lemma PushMatch(text: string, nterm: string, parts: seq<TextPart>, si: nat)
    requires si + |nterm| <= |text| && Flatten(parts) == text[..si]
    requires AllPartsOk(text, nterm, parts) && NoAdjacentPlain(parts)
    requires MatchAt(Lower(text), nterm, si)
    ensures LoopState(text, nterm, parts + [TextPart(text[si..si + |nterm|], true)], si + |nterm|)
  {
    var end := si + |nterm|;
    var h := TextPart(text[si..end], true);
    LowerSlice(text, si, end);
    AppendPartOk(text, nterm, parts, h);
    FlattenAppend(parts, h);
    assert text[..si] + text[si..end] == text[..end];
  }

  /**
   * `getHighlightedTextParts(text, searchTerm)` as written. When the term
   * is not empty but trims to nothing the loop never advances (see
   * `BlankTermStalls`), so that input is excluded here.
   */
  method HighlightAsWritten(text: string, term: string) returns (parts: seq<TextPart>)
    requires !(term != "" && text != "" && Normalize(term) == "")
    ensures term == "" || text == "" ==> parts == [TextPart(text, false)]
    ensures term != "" && text != "" ==> Highlights(text, Normalize(term), parts)
  {
    if term == "" || text == "" {
      return [TextPart(text, false)];
    }
    var normalizedSearchTerm := Normalize(term);
    parts := SplitAtMatches(text, normalizedSearchTerm);
  }

  /** The scanning loop of `getHighlightedTextParts`, for a term already normalized. */
  method SplitAtMatches(text: string, normalizedSearchTerm: string) returns (parts: seq<TextPart>)
    requires normalizedSearchTerm != ""
    ensures Highlights(text, normalizedSearchTerm, parts)
  {
    var normalizedText := Lower(text);
    parts := [];
    var currentIndex := 0;
    while currentIndex < |text|
      invariant LoopState(text, normalizedSearchTerm, parts, currentIndex)
      decreases |text| - currentIndex
    {
      var searchIndex := IndexOf(normalizedText, normalizedSearchTerm, currentIndex);
      if searchIndex == -1 {
        PushRest(text, normalizedSearchTerm, parts, currentIndex);
        parts := parts + [TextPart(text[currentIndex..], false)];
        return;
      }
      assert searchIndex + |normalizedSearchTerm| <= |text| && currentIndex <= searchIndex;
      ghost var before := parts;
      if searchIndex > currentIndex {
        parts := parts + [TextPart(text[currentIndex..searchIndex], false)];
      }
      parts := parts + [TextPart(text[searchIndex..searchIndex + |normalizedSearchTerm|], true)];
      PushFound(text, normalizedSearchTerm, before, currentIndex, searchIndex, parts);
      currentIndex := searchIndex + |normalizedSearchTerm|;
    }
    LoopDone(text, normalizedSearchTerm, parts, currentIndex);
  }

  /** No further occurrence: the rest of the text becomes the last, plain part. */
  lemma PushRest(text: string, nterm: string, parts: seq<TextPart>, cur: nat)
    requires LoopState(text, nterm, parts, cur) && cur < |text|
    requires forall k :: cur <= k ==> !MatchAt(Lower(text), nterm, k)
    ensures Highlights(text, nterm, parts + [TextPart(text[cur..], false)])
  {
    PushPlain(text, nterm, parts, cur, |text|);
    assert text[cur..|text|] == text[cur..] && text[..|text|] == text;
  }

  /** An occurrence at `si`: the plain stretch before it, if any, then the occurrence. */
  lemma PushFound(text: string, nterm: string, parts: seq<TextPart>, cur: nat, si: int, next: seq<TextPart>)
    requires LoopState(text, nterm, parts, cur) && cur <= si && MatchAt(Lower(text), nterm, si)
    requires forall k :: cur <= k < si ==> !MatchAt(Lower(text), nterm, k)
    requires next == (if si > cur then parts + [TextPart(text[cur..si], false)] else parts)
      + [TextPart(text[si..si + |nterm|], true)]
    ensures LoopState(text, nterm, next, si + |nterm|)
  {
    if si > cur {
      PushPlain(text, nterm, parts, cur, si);
      PushMatch(text, nterm, parts + [TextPart(text[cur..si], false)], si);
    } else {
      PushMatch(text, nterm, parts, si);
    }
  }

  lemma LoopDone(text: string, nterm: string, parts: seq<TextPart>, cur: nat)
    requires LoopState(text, nterm, parts, cur) && cur >= |text|
    ensures Highlights(text, nterm, parts)
  {
    assert text[..cur] == text;
  }

  /**
   * With a term that trims to nothing, `indexOf('', i)` answers `i`, the
   * highlighted slice is empty and the index stays where it was.
   */
  lemma BlankTermStalls(text: string, term: string, currentIndex: nat)
    requires Normalize(term) == "" && currentIndex < |text|
    ensures var searchIndex := IndexOf(Lower(text), Normalize(term), currentIndex);
      searchIndex == currentIndex && searchIndex + |Normalize(term)| == currentIndex
  {
    assert MatchAt(Lower(text), [], currentIndex);
  }

  /**
   * `getHighlightedTextParts` with the guard extended to terms that trim
   * to nothing: the whole text, not highlighted.
   */
  method GetHighlightedTextParts(text: string, term: string) returns (parts: seq<TextPart>)
    ensures term == "" || text == "" || Normalize(term) == "" ==> parts == [TextPart(text, false)]
    ensures !(term == "" || text == "" || Normalize(term) == "") ==> Highlights(text, Normalize(term), parts)
  {
    if term == "" || text == "" || Normalize(term) == "" {
      return [TextPart(text, false)];
    }
    parts := HighlightAsWritten(text, term);
  }

  // ---------------------------------------------------------------- filterDeals

  /** The column each list filter compares with its selected values. */
  function FilteredColumn(k: FilterKey): Option<string> {
    match k
    case DataJanela => None
    case Indexador => Some("principal_indexador")
    case Tipo => Some("tipo_cota")
    case TipoNovo => Some("tipo")
    case Veiculo => Some("veiculo")
    case Produto => Some("produto")
    case Gestora => Some("gestora")
    case Setor => Some("setor")
    case TipoCota => Some("tipo_cota")
  }

  /** A list filter: inactive when empty, else the value is a non-empty string among the selected ones. */
  predicate ListOk(selected: seq<string>, v: Value) {
    |selected| == 0 || (Truthy(v) && v.Str? && v.s in selected)
  }

  /**
   * The month filter: inactive when empty; a deal without a
   * `data_janela` passes (it belongs in the backlog); a dated deal passes
   * when its month key is selected.
   */
  predicate MonthOk(cal: Calendar, selected: seq<string>, d: Deal) {
    var v := Get(d, "data_janela");
    |selected| == 0 || !Truthy(v) || FilterMonthKey(cal, ToJsString(v)) in selected
  }

  /** The predicate `filterDeals` applies to each deal. */
  predicate PassesFilters(cal: Calendar, f: FilterState, d: Deal) {
    MonthOk(cal, f.dataJanela, d)
    && ListOk(f.indexador, Get(d, "principal_indexador"))
    && ListOk(f.veiculo, Get(d, "veiculo"))
    && ListOk(f.produto, Get(d, "produto"))
    && ListOk(f.setor, Get(d, "setor"))
    && ListOk(f.gestora, Get(d, "gestora"))
    && ListOk(f.tipo, Get(d, "tipo_cota"))
    && ListOk(f.tipoCota, Get(d, "tipo_cota"))
    && ListOk(f.tipoNovo, Get(d, "tipo"))
  }

  function Passes(cal: Calendar, f: FilterState): Deal -> bool {
    d => PassesFilters(cal, f, d)
  }

  /** Every list filter compares the column its key names. */
  lemma PassesFiltersByKey(cal: Calendar, f: FilterState, d: Deal)
    ensures PassesFilters(cal, f, d) <==>
      MonthOk(cal, f.dataJanela, d)
      && forall k :: FilteredColumn(k).Some? ==> ListOk(ListOf(f, k), Get(d, FilteredColumn(k).value))
  {
    if MonthOk(cal, f.dataJanela, d) && forall k :: FilteredColumn(k).Some? ==> ListOk(ListOf(f, k), Get(d, FilteredColumn(k).value)) {
      assert FilteredColumn(Indexador).Some? && FilteredColumn(Veiculo).Some? && FilteredColumn(Produto).Some?;
      assert FilteredColumn(Setor).Some? && FilteredColumn(Gestora).Some? && FilteredColumn(Tipo).Some?;
      assert FilteredColumn(TipoCota).Some? && FilteredColumn(TipoNovo).Some?;
    }
  }

  /**
   * `filterDeals(deals, filters)`: the deals, in their order, that pass
   * every active filter.
   */
  function FilterDeals(cal: Calendar, deals: seq<Deal>, f: FilterState): (r: seq<Deal>)
    ensures IsSubseq(r, deals)
    ensures forall i :: 0 <= i < |r| ==> PassesFilters(cal, f, r[i])
    ensures forall i :: 0 <= i < |deals| && PassesFilters(cal, f, deals[i]) ==> deals[i] in r
    ensures forall d :: multiset(r)[d] == if PassesFilters(cal, f, d) then multiset(deals)[d] else 0
  {
    FilterIsSubseq(deals, Passes(cal, f));
    FilterCounts(deals, Passes(cal, f));
    Filter(deals, Passes(cal, f))
  }

  /** With nothing selected, filtering keeps every deal. */
  lemma ClearedKeepsAll(cal: Calendar, deals: seq<Deal>)
    ensures FilterDeals(cal, deals, Cleared) == deals
  {
    FilterAll(deals, Passes(cal, Cleared));
  }

  /** A deal with no `data_janela` is never removed by the month filter. */
  lemma UndatedPassMonthFilter(cal: Calendar, selected: seq<string>, d: Deal)
    requires IsNullish(Get(d, "data_janela")) || Get(d, "data_janela") == Str("")
    ensures MonthOk(cal, selected, d)
  {
  }

  /** 'Tipo' and 'Tipo de Cota' both filter on `tipo_cota`: exchanging their selections changes nothing. */
  lemma TipoAndTipoCotaCommute(cal: Calendar, deals: seq<Deal>, f: FilterState)
    ensures FilterDeals(cal, deals, f.(tipo := f.tipoCota, tipoCota := f.tipo)) == FilterDeals(cal, deals, f)
  {
    var g := f.(tipo := f.tipoCota, tipoCota := f.tipo);
    FilterExt(deals, Passes(cal, g), Passes(cal, f));
  }

  /**
   * Each dropdown offers the values of the very column its filter
   * compares: selecting one option keeps a deal holding that value,
   * as far as that filter is concerned.
   */
  lemma OptionsMatchFilters(deals: seq<Deal>, k: FilterKey, f: FilterState, s: string)
    requires OptionColumn(k).Some?
    requires s in UniqueValues(deals, OptionColumn(k).value)
    ensures FilteredColumn(k) == OptionColumn(k)
    ensures exists i :: 0 <= i < |deals| && ListOk(ListOf(UpdateKey(f, k, [s]), k), Get(deals[i], FilteredColumn(k).value))
  {
    ColumnsAgree(k);
    var col := OptionColumn(k).value;
    assert s != "" && exists i :: 0 <= i < |deals| && Get(deals[i], col) == Str(s);
    var i :| 0 <= i < |deals| && Get(deals[i], col) == Str(s);
    assert ListOf(UpdateKey(f, k, [s]), k) == [s];
    SelectedValuePasses(s, Get(deals[i], col));
  }

  lemma ColumnsAgree(k: FilterKey)
    requires OptionColumn(k).Some?
    ensures FilteredColumn(k) == OptionColumn(k)
  {
  }

  lemma SelectedValuePasses(s: string, v: Value)
    requires s != "" && v == Str(s)
    ensures ListOk([s], v)
  {
  }

  // ---------------------------------------------------------------- searchAndFilterDeals

  /** `searchAndFilterDeals(deals, term, filters)`: filter, then search. */
  function SearchAndFilterDeals(cal: Calendar, deals: seq<Deal>, term: string, f: FilterState): (r: seq<Deal>)
    ensures IsSubseq(r, deals)
    ensures forall i :: 0 <= i < |r| ==>
      PassesFilters(cal, f, r[i]) && (AllWhitespace(term) || Matches(r[i], Normalize(term)))
    ensures forall i :: 0 <= i < |deals| && PassesFilters(cal, f, deals[i]) ==>
      (AllWhitespace(term) || Matches(deals[i], Normalize(term))) ==> deals[i] in r
  {
    var filtered := FilterDeals(cal, deals, f);
    SubseqTrans(SearchDeals(filtered, term), filtered, deals);
    SearchDeals(filtered, term)
  }

  /** Searching first and filtering afterwards gives the same deals. */
  lemma SearchFilterCommute(cal: Calendar, deals: seq<Deal>, term: string, f: FilterState)
    ensures SearchAndFilterDeals(cal, deals, term, f) == FilterDeals(cal, SearchDeals(deals, term), f)
  {
    BlankIffWhitespace(term);
    if !IsBlank(term) {
      FilterCommute(deals, Passes(cal, f), MatchesTerm(Normalize(term)));
    }
  }
}
