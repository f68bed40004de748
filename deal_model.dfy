/**
 * The deal record of the pipeline (src/lib/types.ts): a plain object
 * whose keys are the column names of the `deals` table. The code reads
 * and writes deals generically (spreads, `Object.keys`, `deal[groupBy]`),
 * so a deal is a `Record`; `WellTyped` says which values each column may
 * hold according to the interface.
 */
module DealModel {
  import opened JsValues
  import Seqs

  type Deal = Record

  const TextColumns: seq<string> := [
    "status_deal", "nome_fundo", "ticker_fundo", "cnpj_fundo", "gestora",
    "data_janela", "data_dp", "data_sobras", "data_roadshow", "data_bookbuilding", "data_liquidacao",
    "ancoragem_gf_alt", "veiculo", "produto", "setor", "principal_indexador", "ipo_fon", "tipo",
    "canais", "bup_dcm", "resp_dist", "bup_dist", "tipo_cota"
  ]

  /** The columns typed `string` (never null) that the forms fill in. */
  const EditableRequiredColumns: seq<string> := ["publico_alvo", "aprov_leitura", "aprov_analise", "resp_dcm"]

  /** Columns typed `string` (never null): the id, the creation time and the editable ones. */
  const RequiredTextColumns: seq<string> := ["deal_uuid", "criado_em"] + EditableRequiredColumns

  const NumberColumns: seq<string> := [
    "oferta_base", "oferta_minima", "volume_liquidado", "demanda_estimada_total",
    "demanda_pedra", "demanda_inst", "demanda_varejo", "vol_ancoragem",
    "fee_est", "fee_canal", "rep_gestao", "rep_performance",
    "receita_estimada", "receita_potencial", "perc_book", "backlog_order"
  ]

  /** A deal as the interface declares it: every column present with a value of its type. */
  predicate WellTyped(d: Deal) {
    (forall k :: k in TextColumns ==> k in d && (d[k].Str? || d[k].Null?))
    && (forall k :: k in RequiredTextColumns ==> k in d && d[k].Str?)
    && (forall k :: k in NumberColumns ==> k in d && (d[k].Num? || d[k].Null?))
  }

  /** No text column is a number column. */
  lemma TextNotNumber(k: string)
    requires k in TextColumns
    ensures k !in NumberColumns
  {
    var i :| 0 <= i < |TextColumns| && TextColumns[i] == k;
    if i < 8 {
      TextNotNumberLow(i);
    } else if i < 16 {
      TextNotNumberMiddle(i);
    } else {
      TextNotNumberHigh(i);
    }
  }

  // The disjointness of the two column lists, a third of the text columns at a time.
  lemma TextNotNumberLow(i: nat)
    requires i < 8
    ensures TextColumns[i] !in NumberColumns
  {
  }

  lemma TextNotNumberMiddle(i: nat)
    requires 8 <= i < 16
    ensures TextColumns[i] !in NumberColumns
  {
  }

  lemma TextNotNumberHigh(i: nat)
    requires 16 <= i < |TextColumns|
    ensures TextColumns[i] !in NumberColumns
  {
  }

  /** No editable required column is a number column. */
  lemma EditableNotNumber(k: string)
    requires k in EditableRequiredColumns
    ensures k !in NumberColumns && k !in TextColumns
  {
  }

  /** The identifier every list operation matches on. */
  function Id(d: Deal): Value {
    Get(d, "deal_uuid")
  }

  /** `GroupingField`: the columns a board can be grouped by. */
  datatype GroupingField = Setor | Veiculo | PrincipalIndexador | IpoFon | Produto | Tipo

  function ColumnOf(g: GroupingField): (k: string)
    ensures k in TextColumns
  {
    match g
    case Setor => "setor"
    case Veiculo => "veiculo"
    case PrincipalIndexador => "principal_indexador"
    case IpoFon => "ipo_fon"
    case Produto => "produto"
    case Tipo => "tipo"
  }

  /** `SummaryStats`. */
  datatype SummaryStats = SummaryStats(count: nat, volume: real, revenue: real)

  /** A summed amount: a number, or 0 for anything else (`x || 0` on a number column). */
  function Amount(v: Value): real {
    if v.Num? then v.x else 0.0
  }

  /** `deal.oferta_base || deal.volume_liquidado || 0`. */
  function Volume(d: Deal): (r: real)
    ensures Truthy(Get(d, "oferta_base")) ==> r == Amount(Get(d, "oferta_base"))
    ensures !Truthy(Get(d, "oferta_base")) ==> r == Amount(Get(d, "volume_liquidado"))
  {
    Amount(Or(Or(Get(d, "oferta_base"), Get(d, "volume_liquidado")), Num(0.0)))
  }

  /** `deal.receita_potencial || 0`. */
  function Revenue(d: Deal): real {
    Amount(Or(Get(d, "receita_potencial"), Num(0.0)))
  }

  function Add(a: SummaryStats, b: SummaryStats): SummaryStats {
    SummaryStats(a.count + b.count, a.volume + b.volume, a.revenue + b.revenue)
  }

  /**
   * `calculateStats(deals)`: the number of deals, their summed volume and
   * their summed potential revenue.
   */
  function CalculateStats(deals: seq<Deal>): (r: SummaryStats)
    ensures r.count == |deals|
  {
    SummaryStats(|deals|, Seqs.Sum(deals, Volume), Seqs.Sum(deals, Revenue))
  }

  /** Stats are additive: the stats of two lists joined are the sums of their stats. */
  lemma StatsAppend(a: seq<Deal>, b: seq<Deal>)
    ensures CalculateStats(a + b) == Add(CalculateStats(a), CalculateStats(b))
  {
    Seqs.SumAppend(a, b, Volume);
    Seqs.SumAppend(a, b, Revenue);
  }
}
