/**
 * The second edit dialog (src/components/modals/EditDealModalV2.tsx):
 * the form starts as the whole deal, number fields are typed as display
 * text (`formattedNumbers`) and stored parsed, and the submission first
 * writes the audit diff and then sends the form to `updateDeal`.
 */
module EditDealModalV2 {
  import opened JsStrings
  import opened JsValues
  import opened Seqs
  import opened DealModel
  import Formatting
  import Audit

  /** `numericFields`, in the order the effect visits them. */
  const NumericFields: seq<string> := [
    "oferta_base", "oferta_minima", "volume_liquidado",
    "demanda_estimada_total", "demanda_pedra", "demanda_inst", "demanda_varejo",
    "vol_ancoragem", "fee_est", "fee_canal", "rep_gestao", "rep_performance",
    "receita_potencial", "receita_estimada", "perc_book"
  ]

  /** `formatted` after the `forEach` has visited `fields`: the display text of every number among them. */
  function Formatted(deal: Deal, fields: seq<string>): (r: map<string, string>)
    ensures forall k :: k in r ==> k in fields && Get(deal, k).Num?
    ensures forall k :: k in r ==> r[k] == Formatting.FormatNumberForDisplay(Some(Get(deal, k).x))
  {
    if fields == [] then map[]
    else
      var f := fields[|fields| - 1];
      var m := Formatted(deal, fields[..|fields| - 1]);
      if Get(deal, f).Num? then m[f := Formatting.FormatNumberForDisplay(Some(Get(deal, f).x))] else m
  }

  /** A field has display text exactly when it is listed and the deal holds a number there; the text is that number formatted. */
  lemma {:induction false} FormattedEntries(deal: Deal, fields: seq<string>, k: string)
    ensures k in Formatted(deal, fields) <==> k in fields && Get(deal, k).Num?
    ensures k in Formatted(deal, fields) ==>
      Formatted(deal, fields)[k] == Formatting.FormatNumberForDisplay(Some(Get(deal, k).x))
  {
    if fields != [] {
      var init := fields[..|fields| - 1];
      FormattedEntries(deal, init, k);
      assert fields == init + [fields[|fields| - 1]];
    }
  }

  /** `formatted` after visiting `fields[..i + 1]`: the entry for `fields[i]` added when it holds a number. */
  lemma FormattedStep(deal: Deal, fields: seq<string>, i: nat)
    requires i < |fields|
    ensures Formatted(deal, fields[..i + 1]) ==
      var m := Formatted(deal, fields[..i]);
      if Get(deal, fields[i]).Num? then m[fields[i] := Formatting.FormatNumberForDisplay(Some(Get(deal, fields[i]).x))] else m
  {
    assert fields[..i + 1][..i] == fields[..i];
  }

  /** The `numericFields.forEach` loop filling `formatted`. */
  method FormatFields(deal: Deal, fields: seq<string>) returns (formatted: map<string, string>)
    ensures formatted == Formatted(deal, fields)
  {
    formatted := map[];
    var i := 0;
    while i < |fields|
      invariant 0 <= i <= |fields|
      invariant formatted == Formatted(deal, fields[..i])
    {
      var field := fields[i];
      FormattedStep(deal, fields, i);
      var value := Get(deal, field);
      if value.Num? {
        formatted := formatted[field := Formatting.FormatNumberForDisplay(Some(value.x))];
      }
      i := i + 1;
    }
    assert fields[..i] == fields;
  }

  /** What the submission does, in order: audit entries written, then the update call. */
  datatype Call = WriteAudit(log: Audit.AuditLog) | UpdateDeal(id: Value, updates: Record)

  /** One audit write per diff entry, in the diff's order. */
  function AuditWrites(logs: seq<Audit.AuditLog>): (r: seq<Call>)
    ensures |r| == |logs|
    ensures forall i :: 0 <= i < |r| ==> r[i] == WriteAudit(logs[i])
  {
    seq(|logs|, i requires 0 <= i < |logs| => WriteAudit(logs[i]))
  }

  const FailedUpdateMessage := "Failed to update deal"

  class ModalV2 {
    var formData: Record
    var formattedNumbers: map<string, string>
    var loading: bool
    var error: Option<string>
    var open: bool

    constructor(open: bool)
      ensures formData == map[] && formattedNumbers == map[] && !loading && error == None && this.open == open
    {
      formData := map[];
      formattedNumbers := map[];
      loading := false;
      error := None;
      this.open := open;
    }

    /** The effect on a new deal: the form becomes the deal and the display text is built field by field. */
    method DealChanged(deal: Option<Deal>)
      modifies this
      ensures deal.Some? ==> formData == deal.value && formattedNumbers == Formatted(deal.value, NumericFields)
      ensures deal.None? ==> formData == old(formData) && formattedNumbers == old(formattedNumbers)
      ensures loading == old(loading) && error == old(error) && open == old(open)
    {
      if deal.None? {
        return;
      }
      var d := deal.value;
      formData := d;
      formattedNumbers := FormatFields(d, NumericFields);
    }

    /** `handleInputChange(field, value)`: only that field of the form changes. */
    method InputChange(field: string, value: Value)
      modifies this
      ensures formData == old(formData)[field := value]
      ensures formattedNumbers == old(formattedNumbers)
      ensures loading == old(loading) && error == old(error) && open == old(open)
    {
      formData := formData[field := value];
    }

    /** `handleNumberChange(field, displayValue)`: the text is kept as typed, the field gets its parsed value. */
    method NumberChange(field: string, displayValue: string)
      modifies this
      ensures formattedNumbers == old(formattedNumbers)[field := displayValue]
      ensures formData == old(formData)[field := Num(Formatting.ParseFormattedNumber(displayValue))]
      ensures loading == old(loading) && error == old(error) && open == old(open)
    {
      formattedNumbers := formattedNumbers[field := displayValue];
      var numericValue := Formatting.ParseFormattedNumber(displayValue);
      InputChange(field, Num(numericValue));
    }

    /**
     * `handleSubmit`: without a deal nothing happens. Otherwise the audit
     * diff of the deal against the form is written first, then the form
     * goes to `updateDeal` (`saved` is its answer; neither call throws). On
     * success `onSuccess` gets the deal overlaid with the form, not the
     * returned row, and the dialog closes; otherwise the error is set.
     * `keys` is `Object.keys(formData)`. The call passes no user, so the
     * entries carry the defaults 'system' and 'system@app.com'.
     */
    method Submit(deal: Option<Deal>, keys: seq<string>, saved: Option<Deal>)
      returns (calls: seq<Call>, succeeded: Option<Deal>)
      requires forall x :: x in keys <==> x in formData
      modifies this
      ensures deal.None? ==> calls == [] && succeeded == None
      ensures deal.None? ==> loading == old(loading) && error == old(error) && open == old(open)
      ensures deal.Some? ==>
        (calls == AuditWrites(Audit.ObjectChanges(ToJsString(Id(deal.value)), Audit.DealName(deal.value), deal.value, old(formData), keys, Audit.SystemUser, Audit.SystemEmail))
          + [UpdateDeal(Id(deal.value), old(formData))])
      ensures deal.Some? ==> !loading
      ensures deal.Some? && saved.Some? ==> succeeded == Some(Spread(deal.value, old(formData))) && !open && error == None
      ensures deal.Some? && saved.None? ==> succeeded == None && open == old(open) && error == Some(FailedUpdateMessage)
      ensures formData == old(formData) && formattedNumbers == old(formattedNumbers)
    {
      calls, succeeded := [], None;
      if deal.None? {
        return;
      }
      var d := deal.value;
      loading := true;
      error := None;
      var logs := Audit.LogObjectChanges(ToJsString(Id(d)), Audit.DealName(d), d, formData, keys, Audit.SystemUser, Audit.SystemEmail);
      calls := AuditWrites(logs) + [UpdateDeal(Id(d), formData)];
      if saved.Some? {
        succeeded := Some(Spread(d, formData));
        open := false;
      } else {
        error := Some(FailedUpdateMessage);
      }
      loading := false;
    }
  }

  /** The audit writes all come before the update, which is the last call. */
  lemma AuditBeforeUpdate(logs: seq<Audit.AuditLog>, id: Value, form: Record)
    ensures var calls := AuditWrites(logs) + [UpdateDeal(id, form)];
      calls[|calls| - 1] == UpdateDeal(id, form)
      && forall i :: 0 <= i < |calls| - 1 ==> calls[i].WriteAudit?
  {
  }

  /** The deal handed to `onSuccess` has the form's value for every field the form holds, and the deal's for the rest. */
  lemma SubmittedDealOverlay(deal: Deal, form: Record, k: string)
    ensures Get(Spread(deal, form), k) == if k in form then form[k] else Get(deal, k)
  {
  }
}
