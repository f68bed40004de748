/**
 * The deal details dialog (src/components/modals/DealDetailsModal.tsx):
 * how it shows dates, percentages, approvals and the five tags, and the
 * two actions it runs itself, changing the status and deleting the deal.
 * The outside calls the actions make are recorded, in order, as `Call`s;
 * the answers of the calls are parameters.
 */
module DealDetails {
  import opened JsStrings
  import opened JsValues
  import opened DealModel
  import Audit
  import Colors
  import DatabaseEnums
  import Formatting
  import StatusDropdown
  import DeleteConfirmation

  // ---------------------------------------------------------------- display

  /**
   * `formatDate`: 'Não informado' for null or ''; otherwise the date as
   * `format` writes it (`formatted`), or the text itself when `format`
   * throws (`formatted == None`).
   */
  function FormatDate(dateString: Option<string>, formatted: Option<string>): (r: string)
    ensures dateString.None? || dateString == Some("") ==> r == "Não informado"
    ensures dateString.Some? && dateString.value != "" && formatted.Some? ==> r == formatted.value
    ensures dateString.Some? && dateString.value != "" && formatted.None? ==> r == dateString.value
  {
    if dateString.None? || dateString.value == "" then "Não informado"
    else if formatted.Some? then formatted.value
    else dateString.value
  }

  /** `formatPercentage`: 'N/A' for null and 0, else two decimals and '%'. */
  function FormatPercentage(value: Option<real>): (r: string)
    ensures value.None? || value == Some(0.0) ==> r == "N/A"
    ensures value.Some? && value.value != 0.0 ==> r == Formatting.ToFixed2(value.value) + "%"
  {
    if value.None? || value.value == 0.0 then "N/A" else Formatting.ToFixed2(value.value) + "%"
  }

  /** A percentage with at most two decimals is shown exactly: the text before '%' reads back as the value. */
  lemma PercentageReadsBack(c: int)
    requires c != 0
    ensures var r := FormatPercentage(Some(c as real / 100.0));
      r != [] && r[|r| - 1] == '%' && Formatting.ParseFloat(r[..|r| - 1]) == Some(c as real / 100.0)
  {
    var t := PercentageText(c);
    Formatting.ParseFloatToFixed(c);
    assert (t + "%")[..|t + "%"| - 1] == t;
  }

  lemma PercentageText(c: int) returns (t: string)
    requires c != 0
    ensures t == Formatting.ToFixed2(c as real / 100.0)
    ensures FormatPercentage(Some(c as real / 100.0)) == t + "%"
  {
    t := Formatting.ToFixed2(c as real / 100.0);
  }

  /** `formatApprovalValue`: 'Sim', 'Não', 'A definir' for the three options, the value itself otherwise. */
  function FormatApprovalValue(value: Option<string>): (r: string)
    ensures value.None? || value == Some("") ==> r == "Não informado"
    ensures value == Some("S") ==> r == "Sim"
    ensures value == Some("N") ==> r == "Não"
    ensures value == Some("TBD") ==> r == "A definir"
    ensures value.Some? && value.value !in ["", "S", "N", "TBD"] ==> r == value.value
  {
    if value.None? || value.value == "" then "Não informado"
    else if value.value == "S" then "Sim"
    else if value.value == "N" then "Não"
    else if value.value == "TBD" then "A definir"
    else value.value
  }

  /**
   * The dialog's approval text agrees with the label the enum helpers give
   * for 'S' and 'N'; for 'TBD' and for a missing value the two differ.
   */
  lemma ApprovalTextAgainstLabel(value: Option<string>)
    ensures value == Some("S") || value == Some("N") ==> FormatApprovalValue(value) == DatabaseEnums.ApprovalLabel(value)
    ensures value == Some("TBD") ==> FormatApprovalValue(value) == "A definir" && DatabaseEnums.ApprovalLabel(value) == "Pendente"
    ensures value.None? ==> FormatApprovalValue(value) == "Não informado" && DatabaseEnums.ApprovalLabel(value) == "Pendente"
  {
  }

  /** `getApprovalStyle`: a coloured bold style exactly for the three approval options. */
  function ApprovalStyle(value: Option<string>): (r: string)
    ensures value == Some("S") ==> r == "text-green-600 font-semibold"
    ensures value == Some("N") ==> r == "text-red-600 font-semibold"
    ensures value == Some("TBD") ==> r == "text-yellow-600 font-semibold"
    ensures r != "text-gray-900" <==> value.Some? && value.value in DatabaseEnums.ApprovalOptions
  {
    if value == Some("S") then "text-green-600 font-semibold"
    else if value == Some("N") then "text-red-600 font-semibold"
    else if value == Some("TBD") then "text-yellow-600 font-semibold"
    else "text-gray-900"
  }

  /** `deal[k] || 'Outros'`: the value a tag is coloured by. */
  function TagValue(deal: Deal, k: string): (r: string)
    ensures Get(deal, k).Str? && Get(deal, k).s != "" ==> r == Get(deal, k).s
    ensures !Truthy(Get(deal, k)) ==> r == "Outros"
  {
    ToJsString(Or(Get(deal, k), Str("Outros")))
  }

  /** The five tags: vehicle, indexer, sector, product and quota type, in the dialog's order. */
  function Tags(deal: Deal): (r: seq<Colors.ColorConfig>)
    ensures |r| == 5
    ensures r[0] == Colors.VehicleColor(TagValue(deal, "veiculo"))
    ensures r[4] == Colors.TipoColor(TagValue(deal, "tipo_cota"))
  {
    [Colors.VehicleColor(TagValue(deal, "veiculo")),
     Colors.IndexerColor(TagValue(deal, "principal_indexador")),
     Colors.SectorColor(TagValue(deal, "setor")),
     Colors.ProductColor(TagValue(deal, "produto")),
     Colors.TipoColor(TagValue(deal, "tipo_cota"))]
  }

  /** A deal without the five fields shows five grey 'Outros' tags. */
  lemma MissingTagsAreOutros(deal: Deal)
    requires !Truthy(Get(deal, "veiculo")) && !Truthy(Get(deal, "principal_indexador")) && !Truthy(Get(deal, "setor"))
    requires !Truthy(Get(deal, "produto")) && !Truthy(Get(deal, "tipo_cota"))
    ensures var g := Colors.ColorConfig("bg-gray-400", "text-gray-600", "Outros");
      Tags(deal) == [g, g, g, g, g]
  {
    TagsOutros(deal);
    Colors.OutrosIsUnknown();
  }

  lemma TagsOutros(deal: Deal)
    requires !Truthy(Get(deal, "veiculo")) && !Truthy(Get(deal, "principal_indexador")) && !Truthy(Get(deal, "setor"))
    requires !Truthy(Get(deal, "produto")) && !Truthy(Get(deal, "tipo_cota"))
    ensures Tags(deal) == [Colors.VehicleColor("Outros"), Colors.IndexerColor("Outros"), Colors.SectorColor("Outros"),
                           Colors.ProductColor("Outros"), Colors.TipoColor("Outros")]
  {
  }

  // ---------------------------------------------------------------- actions

  /** The outside calls the two actions make. */
  datatype Call =
    | UpdateDeal(id: Value, updates: Record)
    | WriteAudit(log: Audit.AuditLog)
    | DeleteDeal(id: Value)
    | NotifyUpdated(deal: Deal)
    | NotifyDeleted(id: Value)
    | RequestOpen(open: bool)

  /** `deal.nome_fundo || 'Unknown'`, the name both audit entries carry. */
  function LoggedName(deal: Deal): string {
    ToJsString(Or(Get(deal, "nome_fundo"), Str("Unknown")))
  }

  /** `deal.status_deal || ''`: the stored status, not the one the dropdown shows. */
  function StoredStatus(deal: Deal): string {
    ToJsString(Or(Get(deal, "status_deal"), Str("")))
  }

  /**
   * `handleStatusChange`: the new status is saved first; only when the
   * save returns the row (`saved`) is the change logged (by the system
   * user, as the dialog passes none) and the parent handed that row.
   */
  function StatusChangeCalls(deal: Deal, newStatus: StatusDropdown.DealStatus, saved: Option<Deal>): (r: seq<Call>)
    ensures |r| == if saved.Some? then 3 else 1
    ensures r[0] == UpdateDeal(Id(deal), map["status_deal" := Str(StatusDropdown.StatusName(newStatus))])
  {
    var status := StatusDropdown.StatusName(newStatus);
    [UpdateDeal(Id(deal), map["status_deal" := Str(status)])]
    + if saved.None? then []
      else [WriteAudit(Audit.LogStatusChange(ToJsString(Id(deal)), LoggedName(deal), StoredStatus(deal), status,
                                             Audit.SystemUser, Audit.SystemEmail)),
            NotifyUpdated(saved.value)]
  }

  /**
   * The status is always saved first and only the status is sent; the
   * change is logged, with the stored and the new status, exactly when
   * the save succeeded, and the parent then gets the saved row.
   */
  lemma StatusLoggedOnlyAfterSave(deal: Deal, newStatus: StatusDropdown.DealStatus, saved: Option<Deal>)
    ensures var calls := StatusChangeCalls(deal, newStatus, saved);
      calls[0] == UpdateDeal(Id(deal), map["status_deal" := Str(StatusDropdown.StatusName(newStatus))])
      && ((exists i :: 0 <= i < |calls| && calls[i].WriteAudit?) <==> saved.Some?)
    ensures saved.Some? ==> var calls := StatusChangeCalls(deal, newStatus, saved);
      |calls| == 3 && calls[2] == NotifyUpdated(saved.value)
      && calls[1].log.action == Audit.StatusChange
      && calls[1].log.oldValue == Some(StoredStatus(deal))
      && calls[1].log.newValue == Some(StatusDropdown.StatusName(newStatus))
  {
    var calls := StatusChangeCalls(deal, newStatus, saved);
    if saved.None? {
      assert calls == [calls[0]];
    } else {
      assert calls[1].WriteAudit?;
    }
  }

  /**
   * A deal without a status is shown as 'Ativa', but its change is logged
   * from '': the audit entry records the stored value.
   */
  lemma UnsetStatusLoggedAsEmpty(deal: Deal, newStatus: StatusDropdown.DealStatus, saved: Deal)
    requires "status_deal" !in deal
    ensures StatusDropdown.CurrentStatus(None) == "Ativa"
    ensures StatusChangeCalls(deal, newStatus, Some(saved))[1].log.oldValue == Some("")
  {
  }

  /** What `handleDeleteConfirm` does: its calls, and the message it throws with, if any. */
  datatype DeleteOutcome = DeleteOutcome(calls: seq<Call>, thrown: Option<string>)

  const DeleteFailedMessage := "Failed to delete deal"

  /**
   * `handleDeleteConfirm(reason)`: the deletion is logged with the reason
   * first, then the deal is deleted (`deleted` is `deleteDeal`'s answer);
   * on success the parent is told and the dialog closes, otherwise it throws.
   */
  function DeleteConfirm(deal: Deal, reason: string, deleted: bool): (r: DeleteOutcome)
    ensures |r.calls| >= 2
    ensures r.calls[0] == WriteAudit(Audit.LogDealDeletion(ToJsString(Id(deal)), LoggedName(deal), reason,
                                                           Audit.SystemUser, Audit.SystemEmail))
    ensures r.calls[1] == DeleteDeal(Id(deal))
    ensures r.thrown.None? <==> deleted
    ensures r.thrown.Some? ==> r.thrown.value == DeleteFailedMessage && |r.calls| == 2
    ensures deleted ==> r.calls[2..] == [NotifyDeleted(Id(deal)), RequestOpen(false)]
  {
    var logged := [WriteAudit(Audit.LogDealDeletion(ToJsString(Id(deal)), LoggedName(deal), reason,
                                                    Audit.SystemUser, Audit.SystemEmail)),
                   DeleteDeal(Id(deal))];
    if deleted then DeleteOutcome(logged + [NotifyDeleted(Id(deal)), RequestOpen(false)], None)
    else DeleteOutcome(logged, Some(DeleteFailedMessage))
  }

  /** The deletion is logged even when the delete then fails: the trail can name a deal that still exists. */
  lemma FailedDeleteStillLogged(deal: Deal, reason: string)
    ensures var r := DeleteConfirm(deal, reason, false);
      r.thrown == Some(DeleteFailedMessage)
      && r.calls[0].WriteAudit? && r.calls[0].log.action == Audit.Delete && r.calls[0].log.reason == Some(reason)
      && (forall i :: 0 <= i < |r.calls| ==> !r.calls[i].NotifyDeleted?)
  {
  }

  /**
   * The deletion dialog hands `handleDeleteConfirm` the trimmed reason, so
   * every logged deletion reason has at least ten characters and no
   * surrounding whitespace.
   */
  lemma LoggedReasonIsChecked(deal: Deal, text: string, deleted: bool)
    requires DeleteConfirmation.CheckReason(text).Accepted?
    ensures var reason := DeleteConfirm(deal, DeleteConfirmation.CheckReason(text).reason, deleted).calls[0].log.reason;
      reason == Some(Trim(text)) && |reason.value| >= DeleteConfirmation.MinReasonLength
      && !IsWhitespace(reason.value[0]) && !IsWhitespace(reason.value[|reason.value| - 1])
  {
    var t := DeleteConfirmation.CheckReason(text).reason;
    DeleteConfirmation.AcceptedReasonShape(text);
    assert t == Trim(text);
    var log := Audit.LogDealDeletion(ToJsString(Id(deal)), LoggedName(deal), t, Audit.SystemUser, Audit.SystemEmail);
    assert DeleteConfirm(deal, t, deleted).calls[0].log == log;
  }

  class DetailsModal {
    var isUpdatingStatus: bool

    /** `useState(false)`. */
    constructor()
      ensures !isUpdatingStatus
    {
      isUpdatingStatus := false;
    }

    /**
     * `handleStatusChange(newStatus)`: makes the calls of
     * `StatusChangeCalls` and clears `isUpdatingStatus` at the end. The
     * save returns the row or null and the audit helper returns null on
     * failure, so nothing here throws.
     */
    method StatusChange(deal: Deal, newStatus: StatusDropdown.DealStatus, saved: Option<Deal>) returns (calls: seq<Call>)
      modifies this
      ensures calls == StatusChangeCalls(deal, newStatus, saved)
      ensures !isUpdatingStatus
    {
      isUpdatingStatus := true;
      var status := StatusDropdown.StatusName(newStatus);
      var oldStatus := StoredStatus(deal);
      calls := [UpdateDeal(Id(deal), map["status_deal" := Str(status)])];
      if saved.Some? {
        var log := Audit.LogStatusChange(ToJsString(Id(deal)), LoggedName(deal), oldStatus, status,
                                         Audit.SystemUser, Audit.SystemEmail);
        calls := calls + [WriteAudit(log)];
        calls := calls + [NotifyUpdated(saved.value)];
      }
      isUpdatingStatus := false;
    }

    /**
     * The deletion dialog's confirm button wired to `handleDeleteConfirm`:
     * a reason the dialog rejects makes no call; an accepted one runs the
     * deletion with the trimmed reason, and the dialog closes exactly when
     * the delete succeeds (its failure is the dialog's `onConfirm` throwing).
     */
    method ConfirmDelete(dialog: DeleteConfirmation.Dialog, deal: Deal, deleted: bool) returns (calls: seq<Call>)
      modifies dialog
      ensures DeleteConfirmation.CheckReason(old(dialog.reason)).Rejected? ==>
        calls == [] && dialog.open == old(dialog.open)
      ensures DeleteConfirmation.CheckReason(old(dialog.reason)).Accepted? ==>
        calls == DeleteConfirm(deal, Trim(old(dialog.reason)), deleted).calls
        && (deleted ==> !dialog.open) && (!deleted ==> dialog.open == old(dialog.open))
        && !dialog.isDeleting
    {
      var checked := DeleteConfirmation.CheckReason(dialog.reason);
      var outcome: DeleteOutcome;
      if checked.Accepted? {
        outcome := DeleteConfirm(deal, checked.reason, deleted);
      }
      var confirmed := dialog.Confirm(!deleted);
      if confirmed.Some? {
        calls := outcome.calls;
      } else {
        calls := [];
      }
    }
  }
}
