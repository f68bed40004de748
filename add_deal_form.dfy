/**
 * The new-deal form (src/components/forms/AddDealForm.tsx): how
 * `onSubmit` turns the validated form values into the row handed to
 * `createDeal`, and what the form does with the answer. The form values
 * are a record: a string field holds a string or is absent, a number
 * field a number or is absent.
 */
module AddDealForm {
  import opened JsStrings
  import opened JsValues
  import opened DealModel
  import Supabase
  import DatabaseEnums

  /** The text columns that fall back to a default value instead of null. */
  function DefaultOf(k: string): Option<string> {
    if k == "status_deal" then Some("Pre-Leitura")
    else if k == "publico_alvo" then Some("Geral")
    else if k == "aprov_leitura" || k == "aprov_analise" then Some("TBD")
    else if k == "resp_dcm" then Some("Não definido")
    else None
  }

  /**
   * The defaults against the option lists: the status and approval
   * defaults are options, but the audience default 'Geral' is not one of
   * the audience options.
   */
  lemma DefaultsAgainstOptions()
    ensures DefaultOf("status_deal").Some? && DefaultOf("status_deal").value in DatabaseEnums.StatusDealOptions
    ensures DefaultOf("aprov_leitura").Some? && DefaultOf("aprov_leitura").value in DatabaseEnums.ApprovalOptions
    ensures DefaultOf("aprov_analise") == DefaultOf("aprov_leitura")
    ensures DefaultOf("publico_alvo").Some? && DefaultOf("publico_alvo").value !in DatabaseEnums.PublicoAlvoOptions
  {
    assert DatabaseEnums.StatusDealOptions[0] == "Pre-Leitura";
    assert DatabaseEnums.ApprovalOptions[2] == "TBD";
  }

  /** The columns the form never fills: the revenues the database computes, and the backlog position. */
  const AlwaysNull: seq<string> := ["receita_estimada", "receita_potencial", "backlog_order"]

  /** The keys of `processedData`: every column of a deal except `deal_uuid` and `criado_em`. */
  const ProcessedColumns: seq<string> :=
    TextColumns + NumberColumns + EditableRequiredColumns

  /**
   * One entry of `processedData`: `data.k || default` for the defaulted
   * columns, `data.k ? Number(data.k) : null` for the numbers (`Number`
   * of a number is that number), null for the three computed columns,
   * and `data.k || null` for the other text columns.
   */
  function ProcessField(data: Record, k: string): (r: Value)
    ensures DefaultOf(k).None? && k in AlwaysNull ==> r == Null
    ensures Truthy(Get(data, k)) && !(DefaultOf(k).None? && k in AlwaysNull) ==> r == Get(data, k)
    ensures !Truthy(Get(data, k)) ==> r == if DefaultOf(k).Some? then Str(DefaultOf(k).value) else Null
  {
    var v := Get(data, k);
    match DefaultOf(k)
    case Some(d) => Or(v, Str(d))
    case None =>
      if k in AlwaysNull then Null
      else if k in NumberColumns then (if Truthy(v) then v else Null)
      else Or(v, Null)
  }

  /** `processedData`. */
  function ProcessedData(data: Record): (r: Record)
    ensures forall k :: k in r <==> k in ProcessedColumns
    ensures forall k :: k in r ==> r[k] == ProcessField(data, k)
  {
    map k | k in ProcessedColumns :: ProcessField(data, k)
  }

  /** The processed row leaves the id and the creation time to the database. */
  lemma NoIdentityColumns(data: Record)
    ensures "deal_uuid" !in ProcessedData(data) && "criado_em" !in ProcessedData(data)
  {
    IdentityColumnsApart();
    assert "deal_uuid" !in EditableRequiredColumns && "criado_em" !in EditableRequiredColumns;
    NotInConcat("deal_uuid", TextColumns, NumberColumns, EditableRequiredColumns);
    NotInConcat("criado_em", TextColumns, NumberColumns, EditableRequiredColumns);
  }

  lemma NotInConcat(k: string, a: seq<string>, b: seq<string>, c: seq<string>)
    requires k !in a && k !in b && k !in c
    ensures k !in a + b + c
  {
  }

  /** Each key of the processed row is computed from that key of the form alone. */
  lemma ProcessedEntry(data: Record, k: string)
    requires k in ProcessedColumns
    ensures k in ProcessedData(data) && ProcessedData(data)[k] == ProcessField(data, k)
  {
  }

  /** Which rule each text column follows: not the number rule, and no default but for the status. */
  lemma TextColumnRule(k: string)
    requires k in TextColumns
    ensures k in ProcessedColumns && k !in NumberColumns && k !in AlwaysNull
    ensures k == "status_deal" || DefaultOf(k).None?
  {
    TextNotNumber(k);
    assert AlwaysNull == [NumberColumns[12], NumberColumns[13], NumberColumns[15]];
    TextWithoutDefault(k);
  }

  lemma TextWithoutDefault(k: string)
    requires k in TextColumns
    ensures k == "status_deal" || DefaultOf(k).None?
  {
  }

  /** Which rule each number column follows. */
  lemma NumberColumnRule(k: string)
    requires k in NumberColumns
    ensures k in ProcessedColumns && DefaultOf(k).None?
  {
  }

  /**
   * The status, the audience, the two approvals and the DCM owner take
   * their default ('Pre-Leitura', 'Geral', 'TBD', 'TBD', 'Não definido')
   * when left empty, and keep what was entered otherwise.
   */
  lemma EmptyFieldsTakeDefaults(data: Record, k: string)
    requires DefaultOf(k).Some?
    ensures k in ProcessedData(data)
    ensures !Truthy(Get(data, k)) ==> ProcessedData(data)[k] == Str(DefaultOf(k).value)
    ensures Truthy(Get(data, k)) ==> ProcessedData(data)[k] == Get(data, k)
  {
    var n := |TextColumns| + |NumberColumns|;
    assert ProcessedColumns[0] == "status_deal";
    assert ProcessedColumns[n] == "publico_alvo" && ProcessedColumns[n + 1] == "aprov_leitura";
    assert ProcessedColumns[n + 2] == "aprov_analise" && ProcessedColumns[n + 3] == "resp_dcm";
    ProcessedEntry(data, k);
  }

  /** A text column left empty or missing becomes null; a filled one is kept as typed. */
  lemma EmptyTextBecomesNull(data: Record, k: string)
    requires k in TextColumns && k != "status_deal"
    ensures Get(data, k) == Undefined || Get(data, k) == Str("") ==> ProcessedData(data)[k] == Null
    ensures Get(data, k).Str? && Get(data, k) != Str("") ==> ProcessedData(data)[k] == Get(data, k)
  {
    TextColumnRule(k);
    ProcessedEntry(data, k);
  }

  /** A number column with a falsy value is stored as null: a typed 0 is lost. */
  lemma ZeroNumberBecomesNull(data: Record, k: string)
    requires k in NumberColumns && k !in AlwaysNull
    ensures Get(data, k) == Num(0.0) || Get(data, k) == Undefined ==> ProcessedData(data)[k] == Null
    ensures Get(data, k).Num? && Get(data, k) != Num(0.0) ==> ProcessedData(data)[k] == Get(data, k)
  {
    NumberColumnRule(k);
    ProcessedEntry(data, k);
  }

  /** The computed columns are always null, whatever the form holds. */
  lemma ComputedColumnsNull(data: Record, k: string)
    requires k in AlwaysNull
    ensures ProcessedData(data)[k] == Null
  {
    assert k in NumberColumns;
    NumberColumnRule(k);
    ProcessedEntry(data, k);
  }

  /** Form values of the schema's types: strings in the text fields, numbers in the number fields. */
  predicate FormTyped(data: Record) {
    forall k :: k in data ==>
      (k in NumberColumns ==> data[k].Num?) && (k !in NumberColumns ==> data[k].Str?)
  }

  /**
   * The processed row, once the database adds its id and creation time,
   * is a deal of the interface's types.
   */
  lemma ProcessedRowWellTyped(data: Record, id: string, createdAt: string)
    requires FormTyped(data)
    ensures WellTyped(ProcessedData(data)["deal_uuid" := Str(id)]["criado_em" := Str(createdAt)])
  {
    IdentityColumnsApart();
    EditableColumnsTyped(data);
    TextColumnsTyped(data);
    NumberColumnsTyped(data);
  }

  lemma IdentityColumnsApart()
    ensures "deal_uuid" !in TextColumns && "criado_em" !in TextColumns
    ensures "deal_uuid" !in NumberColumns && "criado_em" !in NumberColumns
  {
    NotTextColumn("deal_uuid");
    NotTextColumn("criado_em");
    NotNumberColumn("deal_uuid");
    NotNumberColumn("criado_em");
  }

  lemma NotTextColumn(k: string)
    requires k == "deal_uuid" || k == "criado_em"
    ensures k !in TextColumns
  {
    assert k !in TextColumns[..12];
    assert k !in TextColumns[12..];
    assert TextColumns == TextColumns[..12] + TextColumns[12..];
  }

  lemma NotNumberColumn(k: string)
    requires k == "deal_uuid" || k == "criado_em"
    ensures k !in NumberColumns
  {
  }

  lemma EditableColumnsTyped(data: Record)
    requires FormTyped(data)
    ensures forall k :: k in EditableRequiredColumns ==> k in ProcessedData(data) && ProcessedData(data)[k].Str?
  {
    forall i | 0 <= i < |EditableRequiredColumns| ensures EditableRequiredColumns[i] in ProcessedData(data) && ProcessedData(data)[EditableRequiredColumns[i]].Str? {
      EditableColumnTyped(data, i);
    }
  }

  lemma EditableColumnTyped(data: Record, i: nat)
    requires FormTyped(data) && i < |EditableRequiredColumns|
    ensures EditableRequiredColumns[i] in ProcessedData(data) && ProcessedData(data)[EditableRequiredColumns[i]].Str?
  {
    var k := EditableRequiredColumns[i];
    EditableDefaulted(i);
    EmptyFieldsTakeDefaults(data, k);
  }

  lemma EditableDefaulted(i: nat)
    requires i < |EditableRequiredColumns|
    ensures DefaultOf(EditableRequiredColumns[i]).Some? && EditableRequiredColumns[i] !in NumberColumns
  {
  }

  lemma TextColumnsTyped(data: Record)
    requires FormTyped(data)
    ensures forall k :: k in TextColumns ==>
      k in ProcessedData(data) && (ProcessedData(data)[k].Str? || ProcessedData(data)[k].Null?)
  {
    forall k | k in TextColumns ensures k in ProcessedData(data) && (ProcessedData(data)[k].Str? || ProcessedData(data)[k].Null?) {
      TextColumnRule(k);
      ProcessedEntry(data, k);
    }
  }

  lemma NumberColumnsTyped(data: Record)
    requires FormTyped(data)
    ensures forall k :: k in NumberColumns ==>
      k in ProcessedData(data) && (ProcessedData(data)[k].Num? || ProcessedData(data)[k].Null?)
  {
    forall k | k in NumberColumns ensures k in ProcessedData(data) && (ProcessedData(data)[k].Num? || ProcessedData(data)[k].Null?) {
      NumberColumnRule(k);
      ProcessedEntry(data, k);
    }
  }

  /** What the form does once `createDeal` has answered. */
  datatype SubmitOutcome = CallOnSuccess(deal: Deal) | AlertError(message: string)

  const CreateErrorAlert := "Erro ao criar deal. Verifique os dados e tente novamente."

  /** `onSuccess(newDeal)` for a created deal; anything thrown ends in the alert. */
  function Submit(created: Supabase.Created): (r: SubmitOutcome)
    ensures r.CallOnSuccess? <==> created.NewDeal?
    ensures r.CallOnSuccess? ==> r.deal == created.deal
    ensures r.AlertError? ==> r.message == CreateErrorAlert
  {
    match created
    case NewDeal(d) => CallOnSuccess(d)
    case Throws(_) => AlertError(CreateErrorAlert)
  }
}
