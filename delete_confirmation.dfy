/**
 * The deletion dialog (src/components/modals/DeleteConfirmationDialog.tsx):
 * it asks for a reason of at least ten characters, hands the trimmed
 * reason to `onConfirm`, and closes only when that call succeeds.
 */
module DeleteConfirmation {
  import opened JsStrings

  const BlankReasonError := "Por favor, forneça um motivo para a exclusão"
  const ShortReasonError := "O motivo deve ter pelo menos 10 caracteres"
  const DeleteFailedError := "Erro ao excluir o deal. Tente novamente."
  const MinReasonLength := 10

  /** The outcome of the two checks of `handleConfirm`: the reason to pass on, or the error to show. */
  datatype ReasonCheck = Accepted(reason: string) | Rejected(message: string)

  /** A reason trimmed to nothing is blank; one trimmed to fewer than ten characters is too short. */
  function CheckReason(reason: string): (r: ReasonCheck)
    ensures r == Rejected(BlankReasonError) <==> AllWhitespace(reason)
    ensures r == Rejected(ShortReasonError) <==> !AllWhitespace(reason) && |Trim(reason)| < MinReasonLength
    ensures r.Accepted? <==> |Trim(reason)| >= MinReasonLength
    ensures r.Accepted? ==> r.reason == Trim(reason)
  {
    TrimEmptyIff(reason);
    var trimmed := Trim(reason);
    if trimmed == "" then Rejected(BlankReasonError)
    else if |trimmed| < MinReasonLength then Rejected(ShortReasonError)
    else Accepted(trimmed)
  }

  /** An accepted reason is at least ten characters long and has no surrounding whitespace. */
  lemma AcceptedReasonShape(reason: string)
    requires CheckReason(reason).Accepted?
    ensures var t := CheckReason(reason).reason;
      |t| >= MinReasonLength && !IsWhitespace(t[0]) && !IsWhitespace(t[|t| - 1])
  {
    TrimShape(reason);
  }

  /** Surrounding whitespace does not change the verdict: both rules see only the trimmed reason. */
  lemma CheckIgnoresPadding(reason: string)
    ensures CheckReason(Trim(reason)) == CheckReason(reason)
  {
    var t := Trim(reason);
    if t != "" {
      TrimShape(reason);
      TrimNoop(t);
    } else {
      assert Trim(t) == "";
    }
  }

  /** `disabled={isDeleting || !reason.trim()}`: the confirm button. */
  function ConfirmDisabled(isDeleting: bool, reason: string): (r: bool)
    ensures r <==> isDeleting || AllWhitespace(reason)
  {
    TrimEmptyIff(reason);
    isDeleting || Trim(reason) == ""
  }

  /** An enabled confirm button never leads to the blank-reason error. */
  lemma EnabledConfirmNotBlank(reason: string)
    requires !ConfirmDisabled(false, reason)
    ensures CheckReason(reason) != Rejected(BlankReasonError)
  {
  }

  class Dialog {
    var reason: string
    var isDeleting: bool
    var error: string
    /** The last `onOpenChange` request: whether the dialog is to stay open. */
    var open: bool

    constructor(open: bool)
      ensures reason == "" && !isDeleting && error == "" && this.open == open
    {
      reason := "";
      isDeleting := false;
      error := "";
      this.open := open;
    }

    /** The text area's `onChange`: the reason is replaced and the error cleared. */
    method ReasonChange(value: string)
      modifies this
      ensures reason == value && error == ""
      ensures isDeleting == old(isDeleting) && open == old(open)
    {
      reason := value;
      error := "";
    }

    /**
     * `handleConfirm`. A rejected reason only sets the error. An accepted
     * one is passed, trimmed, to `onConfirm` (`confirmed`), which throws
     * when `confirmFails`: on success the reason is cleared and the dialog
     * closes, on failure the deletion error is shown and the dialog stays
     * as it was. Either way `isDeleting` is off at the end.
     */
    method Confirm(confirmFails: bool) returns (confirmed: Option<string>)
      modifies this
      ensures CheckReason(old(reason)).Rejected? ==>
        confirmed == None && error == CheckReason(old(reason)).message
        && reason == old(reason) && isDeleting == old(isDeleting) && open == old(open)
      ensures CheckReason(old(reason)).Accepted? ==>
        confirmed == Some(CheckReason(old(reason)).reason) && !isDeleting
      ensures CheckReason(old(reason)).Accepted? && !confirmFails ==>
        reason == "" && error == "" && !open
      ensures CheckReason(old(reason)).Accepted? && confirmFails ==>
        reason == old(reason) && error == DeleteFailedError && open == old(open)
    {
      match CheckReason(reason)
      case Rejected(message) =>
        error := message;
        confirmed := None;
      case Accepted(trimmed) =>
        isDeleting := true;
        error := "";
        confirmed := Some(trimmed);
        if !confirmFails {
          reason := "";
          open := false;
        } else {
          error := DeleteFailedError;
        }
        isDeleting := false;
    }

    /** `handleCancel`: the reason and the error are cleared and the dialog closes. */
    method Cancel()
      modifies this
      ensures reason == "" && error == "" && !open && isDeleting == old(isDeleting)
    {
      reason := "";
      error := "";
      open := false;
    }
  }
}
