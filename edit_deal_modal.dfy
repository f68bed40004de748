/**
 * The first edit dialog (src/components/modals/EditDealModal.tsx): the
 * form filled from the deal, the field edits, and the submission that
 * turns '' into null and sends the form to `updateDeal`.
 */
module EditDealModal {
  import opened JsStrings
  import opened JsValues
  import opened DealModel
  import Formatting

  /** The text fields of the form: every text column and the editable required ones. */
  const FormTextColumns: seq<string> := TextColumns + EditableRequiredColumns

  /** The number fields of the form: every number column but `backlog_order`. */
  const FormNumberColumns: seq<string> := NumberColumns[..15]

  /** One field as the form starts: `deal.k || ''` for text, `deal.k || 0` for numbers. */
  function InitialField(deal: Deal, k: string): Value {
    if k in FormTextColumns then Or(Get(deal, k), Str("")) else Or(Get(deal, k), Num(0.0))
  }

  /** The `setFormData({...})` of the initialising effect. */
  function InitialForm(deal: Deal): (r: Record)
    ensures forall k :: k in r <==> k in FormTextColumns || k in FormNumberColumns
    ensures forall k :: k in r ==> r[k] == InitialField(deal, k)
  {
    map k | k in FormTextColumns + FormNumberColumns :: InitialField(deal, k)
  }

  /** A number field of the form is not one of its text fields. */
  lemma NumberFieldNotText(k: string)
    requires k in FormNumberColumns
    ensures k !in FormTextColumns
  {
    assert k in NumberColumns;
    if k in TextColumns {
      TextNotNumber(k);
    }
    if k in EditableRequiredColumns {
      EditableNotNumber(k);
    }
  }

  /** A null or empty text column starts as ''; a filled one as itself. */
  lemma InitialText(deal: Deal, k: string)
    requires k in FormTextColumns
    ensures IsNullish(Get(deal, k)) || Get(deal, k) == Str("") ==> InitialForm(deal)[k] == Str("")
    ensures Get(deal, k).Str? && Get(deal, k) != Str("") ==> InitialForm(deal)[k] == Get(deal, k)
  {
  }

  /** A null or zero number column starts as 0; any other number as itself. */
  lemma InitialNumber(deal: Deal, k: string)
    requires k in FormNumberColumns
    ensures IsNullish(Get(deal, k)) || Get(deal, k) == Num(0.0) ==> InitialForm(deal)[k] == Num(0.0)
    ensures Get(deal, k).Num? ==> InitialForm(deal)[k] == Get(deal, k)
  {
    NumberFieldNotText(k);
  }

  /** `value === '' ? null : value`. */
  function SanitizeValue(v: Value): Value {
    if v == Str("") then Null else v
  }

  /**
   * `Object.fromEntries(Object.entries(formData).map(...))`: the same
   * keys, every '' replaced by null and every other value kept.
   */
  function Sanitize(form: Record): (r: Record)
    ensures r.Keys == form.Keys
    ensures forall k :: k in r ==> r[k] == SanitizeValue(form[k])
    ensures forall k :: k in r ==> r[k] != Str("")
  {
    map k | k in form :: SanitizeValue(form[k])
  }

  /** Sanitising twice changes nothing more. */
  lemma SanitizeIdempotent(form: Record)
    ensures Sanitize(Sanitize(form)) == Sanitize(form)
  {
    var once := Sanitize(form);
    assert forall k :: k in once ==> SanitizeValue(once[k]) == once[k];
  }

  /** Submitting an untouched form turns a null number column into 0. */
  lemma NullNumberSubmittedAsZero(deal: Deal, k: string)
    requires k in FormNumberColumns && Get(deal, k) == Null
    ensures Sanitize(InitialForm(deal))[k] == Num(0.0)
  {
    InitialNumber(deal, k);
  }

  /**
   * Submitting an untouched form gives a text column back as it was,
   * except that '' becomes null.
   */
  lemma UntouchedTextSubmitted(deal: Deal, k: string)
    requires k in FormTextColumns && (Get(deal, k).Str? || Get(deal, k).Null?)
    ensures Sanitize(InitialForm(deal))[k] == SanitizeValue(Get(deal, k))
  {
    InitialText(deal, k);
  }

  /** What a number input stores: `parseFloat(e.target.value) || 0`. */
  function NumberInput(text: string): (r: Value)
    ensures Formatting.ParseFloat(text).None? ==> r == Num(0.0)
    ensures Formatting.ParseFloat(text).Some? ==> r == Num(Formatting.ParseFloat(text).value)
  {
    Or(match Formatting.ParseFloat(text) case None => Undefined case Some(x) => Num(x), Num(0.0))
  }

  const FailedUpdateMessage := "Failed to update deal. Please try again."

  /** The dialog's state: the form, the loading flag, the error shown, whether it is open. */
  class Modal {
    var formData: Record
    var loading: bool
    var error: Option<string>
    var open: bool

    constructor(open: bool)
      ensures formData == map[] && !loading && error == None && this.open == open
    {
      formData := map[];
      loading := false;
      error := None;
      this.open := open;
    }

    /** The effect on a new `deal`: the form is filled from it and the error cleared; no deal changes nothing. */
    method DealChanged(deal: Option<Deal>)
      modifies this
      ensures deal.Some? ==> formData == InitialForm(deal.value) && error == None
      ensures deal.None? ==> formData == old(formData) && error == old(error)
      ensures loading == old(loading) && open == old(open)
    {
      if deal.Some? {
        formData := InitialForm(deal.value);
        error := None;
      }
    }

    /** `handleInputChange(field)(value)`: only that field changes. */
    method InputChange(field: string, value: Value)
      modifies this
      ensures formData == old(formData)[field := value]
      ensures loading == old(loading) && error == old(error) && open == old(open)
    {
      formData := formData[field := value];
    }

    /**
     * `handleSubmit`: without a deal nothing happens. Otherwise the
     * sanitised form goes to `updateDeal` (`saved` is what it returned;
     * it returns null rather than throwing); a returned row is handed to
     * `onSuccess` and closes the dialog, a null sets the error and leaves
     * the dialog open. Loading is off at the end either way.
     */
    method Submit(deal: Option<Deal>, saved: Option<Deal>) returns (sent: Option<Record>, succeeded: Option<Deal>)
      modifies this
      ensures deal.None? ==> sent == None && succeeded == None
      ensures deal.None? ==> loading == old(loading) && error == old(error) && open == old(open)
      ensures deal.Some? ==> sent == Some(Sanitize(old(formData))) && !loading
      ensures deal.Some? ==> succeeded == saved
      ensures deal.Some? && saved.Some? ==> !open && error == None
      ensures deal.Some? && saved.None? ==> open == old(open) && error == Some(FailedUpdateMessage)
      ensures formData == old(formData)
    {
      sent, succeeded := None, None;
      if deal.None? {
        return;
      }
      loading := true;
      error := None;
      var sanitizedData := Sanitize(formData);
      sent := Some(sanitizedData);
      if saved.Some? {
        succeeded := saved;
        open := false;
      } else {
        error := Some(FailedUpdateMessage);
      }
      loading := false;
    }
  }
}
