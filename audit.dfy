/**
 * The audit trail (src/lib/audit.ts): the log entries the application
 * writes for created, updated, deleted and re-statused deals, and the
 * key-by-key diff of a deal before and after an edit.
 */
module Audit {
  import opened JsStrings
  import opened JsValues
  import opened Seqs
  import opened Supabase

  datatype AuditAction = Create | Update | Delete | StatusChange

  /** `Omit<AuditLog, 'id' | 'timestamp'>`: what a caller hands to `createAuditLog`. */
  datatype AuditLog = AuditLog(
    userId: string,
    userEmail: string,
    dealUuid: string,
    dealName: string,
    action: AuditAction,
    fieldName: Option<string>,
    oldValue: Option<string>,
    newValue: Option<string>,
    reason: Option<string>)

  /** The user the callers pass when they have none. */
  const SystemUser := "system"
  const SystemEmail := "system@app.com"

  /** `deal.nome_fundo || 'Unknown Deal'`, the name the callers give a deal's entries. */
  function DealName(deal: Record): string {
    ToJsString(Or(Get(deal, "nome_fundo"), Str("Unknown Deal")))
  }

  /** `createAuditLog`: the stored row, or null (never an exception) when the insert fails or throws. */
  function CreateAuditLog(log: AuditLog, inserted: Reply<AuditLog>): (r: Option<AuditLog>)
    ensures r.Some? <==> inserted.Data?
    ensures inserted.Data? ==> r.value == inserted.value
  {
    match inserted
    case Data(row) => Some(row)
    case _ => None
  }

  /** `String(v || '')`. */
  function OrEmpty(v: Value): (r: string)
    ensures !Truthy(v) ==> r == ""
    ensures v.Str? ==> r == v.s
  {
    if Truthy(v) then ToJsString(v) else ""
  }

  /** `logFieldUpdate`: nothing when the two values are identical, else an UPDATE of the field. */
  function LogFieldUpdate(dealUuid: string, dealName: string, fieldName: string, oldValue: Value, newValue: Value,
                          userId: string, userEmail: string): (r: Option<AuditLog>)
    ensures r.None? <==> oldValue == newValue
    ensures r.Some? ==> (r.value.action == Update && r.value.fieldName == Some(fieldName)
      && r.value.dealUuid == dealUuid && r.value.reason == None)
    ensures r.Some? ==> r.value.oldValue == Some(OrEmpty(oldValue)) && r.value.newValue == Some(OrEmpty(newValue))
  {
    if oldValue == newValue then None
    else Some(AuditLog(userId, userEmail, dealUuid, dealName, Update, Some(fieldName),
                       Some(OrEmpty(oldValue)), Some(OrEmpty(newValue)), None))
  }

  /**
   * A falsy value is logged as '': a field going from 0 to undefined, or
   * from false to null, is still logged, as a change from '' to ''.
   */
  lemma FalsyLoggedAsEmpty(dealUuid: string, dealName: string, fieldName: string)
    ensures var r := LogFieldUpdate(dealUuid, dealName, fieldName, Num(0.0), Undefined, SystemUser, SystemEmail);
      r.Some? && r.value.oldValue == Some("") && r.value.newValue == Some("")
  {
  }

  /** `logDealDeletion`: a DELETE entry with the reason. */
  function LogDealDeletion(dealUuid: string, dealName: string, reason: string, userId: string, userEmail: string): (r: AuditLog)
    ensures r.action == Delete && r.reason == Some(reason) && r.fieldName == None
    ensures r.dealUuid == dealUuid && r.dealName == dealName && r.userId == userId && r.userEmail == userEmail
  {
    AuditLog(userId, userEmail, dealUuid, dealName, Delete, None, None, None, Some(reason))
  }

  /** `logDealCreation`: a CREATE entry with no field. */
  function LogDealCreation(dealUuid: string, dealName: string, userId: string, userEmail: string): (r: AuditLog)
    ensures r.action == Create && r.fieldName == None && r.oldValue == None && r.newValue == None && r.reason == None
    ensures r.dealUuid == dealUuid && r.dealName == dealName
  {
    AuditLog(userId, userEmail, dealUuid, dealName, Create, None, None, None, None)
  }

  /** `logStatusChange`: a STATUS_CHANGE of the field 'status_deal' with both statuses. */
  function LogStatusChange(dealUuid: string, dealName: string, oldStatus: string, newStatus: string,
                           userId: string, userEmail: string): (r: AuditLog)
    ensures r.action == StatusChange && r.fieldName == Some("status_deal")
    ensures r.oldValue == Some(oldStatus) && r.newValue == Some(newStatus) && r.reason == None
    ensures r.dealUuid == dealUuid && r.dealName == dealName
  {
    AuditLog(userId, userEmail, dealUuid, dealName, StatusChange, Some("status_deal"), Some(oldStatus), Some(newStatus), None)
  }

  // ---------------------------------------------------------------- logObjectChanges

  /** `formatValueForAudit`. Deal values come from JSON, so there is no `Date` case. */
  function FormatValueForAudit(v: Value): (r: string)
    ensures v.Null? || v.Undefined? ==> r == ""
    ensures v.Str? ==> r == v.s
  {
    match v
    case Undefined => ""
    case Null => ""
    case Bool(b) => if b then "Sim" else "Não"
    case Num(x) => NumberToString(x)
    case Str(s) => s
  }

  /** The text is empty exactly for null, undefined and the empty string: a number never renders as ''. */
  lemma FormatValueEmpty(v: Value)
    ensures FormatValueForAudit(v) == "" <==> v.Null? || v.Undefined? || v == Str("")
  {
  }

  /** Null and undefined both render as '', and a string renders as itself. */
  lemma FormatValueCases(s: string, b: bool)
    ensures FormatValueForAudit(Null) == FormatValueForAudit(Undefined) == FormatValueForAudit(Str("")) == ""
    ensures FormatValueForAudit(Str(s)) == s
    ensures FormatValueForAudit(Bool(b)) == if b then "Sim" else "Não"
  {
  }

  /** The rendering is not one-to-one: `true` and the string 'Sim' read the same, and so do 1 and '1'. */
  lemma FormatValueCollisions()
    ensures FormatValueForAudit(Bool(true)) == FormatValueForAudit(Str("Sim"))
    ensures FormatValueForAudit(Num(1.0)) == FormatValueForAudit(Str("1"))
  {
    NumberToStringInteger(1);
  }

  /** The fields the diff never records. */
  predicate Skipped(k: string) {
    k == "deal_uuid" || k == "criado_em"
  }

  /** Key `k` is recorded: not skipped, and its two values render differently. */
  predicate Recorded(oldData: Record, newData: Record, k: string) {
    !Skipped(k) && FormatValueForAudit(Get(oldData, k)) != FormatValueForAudit(Get(newData, k))
  }

  /** The entry for a recorded key: `logFieldUpdate` with the two rendered values. */
  function FieldChange(dealUuid: string, dealName: string, oldData: Record, newData: Record, k: string,
                       userId: string, userEmail: string): AuditLog {
    var fo, fn := FormatValueForAudit(Get(oldData, k)), FormatValueForAudit(Get(newData, k));
    AuditLog(userId, userEmail, dealUuid, dealName, Update, Some(k), Some(fo), Some(fn), None)
  }

  /** What the diff logs for the keys `keys`, in their order. */
  function ObjectChanges(dealUuid: string, dealName: string, oldData: Record, newData: Record, keys: seq<string>,
                         userId: string, userEmail: string): (r: seq<AuditLog>)
    ensures |r| <= |keys|
  {
    if keys == [] then []
    else
      var k := keys[|keys| - 1];
      ObjectChanges(dealUuid, dealName, oldData, newData, keys[..|keys| - 1], userId, userEmail)
        + if Recorded(oldData, newData, k) then [FieldChange(dealUuid, dealName, oldData, newData, k, userId, userEmail)] else []
  }

  /** The entry `logFieldUpdate` writes for two different rendered values is the field change. */
  lemma FieldUpdateOfRendered(dealUuid: string, dealName: string, oldData: Record, newData: Record, k: string,
                              userId: string, userEmail: string)
    requires Recorded(oldData, newData, k)
    ensures LogFieldUpdate(dealUuid, dealName, k, Str(FormatValueForAudit(Get(oldData, k))), Str(FormatValueForAudit(Get(newData, k))), userId, userEmail)
      == Some(FieldChange(dealUuid, dealName, oldData, newData, k, userId, userEmail))
  {
  }

  /**
   * `logObjectChanges`: each key of the new data, in the order of
   * `Object.keys`, is skipped when its values are identical or it is an id
   * field, and otherwise logged when the rendered values differ.
   */
  method LogObjectChanges(dealUuid: string, dealName: string, oldData: Record, newData: Record, keys: seq<string>,
                          userId: string, userEmail: string) returns (logs: seq<AuditLog>)
    ensures logs == ObjectChanges(dealUuid, dealName, oldData, newData, keys, userId, userEmail)
  {
    logs := [];
    var i := 0;
    while i < |keys|
      invariant 0 <= i <= |keys|
      invariant logs == ObjectChanges(dealUuid, dealName, oldData, newData, keys[..i], userId, userEmail)
    {
      var key := keys[i];
      assert keys[..i + 1][..i] == keys[..i];
      var oldValue, newValue := Get(oldData, key), Get(newData, key);
      if !(oldValue == newValue || key == "deal_uuid" || key == "criado_em") {
        var formattedOld, formattedNew := FormatValueForAudit(oldValue), FormatValueForAudit(newValue);
        if formattedOld != formattedNew {
          FieldUpdateOfRendered(dealUuid, dealName, oldData, newData, key, userId, userEmail);
          var entry := LogFieldUpdate(dealUuid, dealName, key, Str(formattedOld), Str(formattedNew), userId, userEmail);
          logs := logs + [entry.value];
        }
      }
      i := i + 1;
    }
    assert keys[..i] == keys;
  }

  /** The key an entry of the diff is about. */
  function FieldOf(log: AuditLog): string {
    if log.fieldName.Some? then log.fieldName.value else ""
  }

  /** `log` is the entry of a recorded key of `keys`. */
  predicate IsEntryFor(dealUuid: string, dealName: string, oldData: Record, newData: Record, keys: seq<string>,
                       userId: string, userEmail: string, log: AuditLog) {
    FieldOf(log) in keys && Recorded(oldData, newData, FieldOf(log))
    && log == FieldChange(dealUuid, dealName, oldData, newData, FieldOf(log), userId, userEmail)
  }

  /** Every entry of the diff is the UPDATE of a recorded key of the list, with the two rendered values. */
  lemma {:induction false} ObjectChangesSound(dealUuid: string, dealName: string, oldData: Record, newData: Record,
                                              keys: seq<string>, userId: string, userEmail: string, j: nat)
    requires j < |ObjectChanges(dealUuid, dealName, oldData, newData, keys, userId, userEmail)|
    ensures IsEntryFor(dealUuid, dealName, oldData, newData, keys, userId, userEmail,
      ObjectChanges(dealUuid, dealName, oldData, newData, keys, userId, userEmail)[j])
  {
    var init, k := keys[..|keys| - 1], keys[|keys| - 1];
    assert keys == init + [k];
    var prev := ObjectChanges(dealUuid, dealName, oldData, newData, init, userId, userEmail);
    if j < |prev| {
      ObjectChangesSound(dealUuid, dealName, oldData, newData, init, userId, userEmail, j);
    }
  }

  /** Every recorded key of the list has an entry in the diff. */
  lemma {:induction false} ObjectChangesComplete(dealUuid: string, dealName: string, oldData: Record, newData: Record,
                                                 keys: seq<string>, userId: string, userEmail: string, x: string)
    requires x in keys && Recorded(oldData, newData, x)
    ensures exists j :: (0 <= j < |ObjectChanges(dealUuid, dealName, oldData, newData, keys, userId, userEmail)|
      && FieldOf(ObjectChanges(dealUuid, dealName, oldData, newData, keys, userId, userEmail)[j]) == x)
  {
    var init, k := keys[..|keys| - 1], keys[|keys| - 1];
    assert keys == init + [k];
    var prev := ObjectChanges(dealUuid, dealName, oldData, newData, init, userId, userEmail);
    var logs := ObjectChanges(dealUuid, dealName, oldData, newData, keys, userId, userEmail);
    ObjectChangesExtends(dealUuid, dealName, oldData, newData, keys, userId, userEmail);
    if x in init {
      ObjectChangesComplete(dealUuid, dealName, oldData, newData, init, userId, userEmail, x);
      var j :| 0 <= j < |prev| && FieldOf(prev[j]) == x;
      assert logs[j] == prev[j];
    } else {
      assert FieldOf(logs[|prev|]) == x;
    }
  }

  /** The diff of a list extends the diff of all keys but the last, by the last key's entry when it is recorded. */
  lemma ObjectChangesExtends(dealUuid: string, dealName: string, oldData: Record, newData: Record,
                             keys: seq<string>, userId: string, userEmail: string)
    requires keys != []
    ensures var prev := ObjectChanges(dealUuid, dealName, oldData, newData, keys[..|keys| - 1], userId, userEmail);
      var logs := ObjectChanges(dealUuid, dealName, oldData, newData, keys, userId, userEmail);
      |prev| <= |logs| && (forall j :: 0 <= j < |prev| ==> logs[j] == prev[j])
      && (Recorded(oldData, newData, keys[|keys| - 1]) ==> |prev| < |logs| && FieldOf(logs[|prev|]) == keys[|keys| - 1])
  {
    ObjectChangesStep(dealUuid, dealName, oldData, newData, keys, userId, userEmail);
  }

  /** The diff of a non-empty list: the diff of all keys but the last, then the last key's entry if it is recorded. */
  lemma ObjectChangesStep(dealUuid: string, dealName: string, oldData: Record, newData: Record,
                          keys: seq<string>, userId: string, userEmail: string)
    requires keys != []
    ensures var k := keys[|keys| - 1];
      ObjectChanges(dealUuid, dealName, oldData, newData, keys, userId, userEmail)
      == ObjectChanges(dealUuid, dealName, oldData, newData, keys[..|keys| - 1], userId, userEmail)
         + if Recorded(oldData, newData, k) then [FieldChange(dealUuid, dealName, oldData, newData, k, userId, userEmail)] else []
  {
  }

  /**
   * With the keys of the new data, a field has an entry exactly when it
   * is a key of the new data, is not an id field and renders differently:
   * keys only the old data has, and a null that became undefined, are
   * never logged.
   */
  lemma ChangeLoggedIff(dealUuid: string, dealName: string, oldData: Record, newData: Record, keys: seq<string>,
                        userId: string, userEmail: string, k: string)
    requires forall x :: x in keys <==> x in newData
    ensures var logs := ObjectChanges(dealUuid, dealName, oldData, newData, keys, userId, userEmail);
      (exists j :: 0 <= j < |logs| && FieldOf(logs[j]) == k) <==>
        k in newData && !Skipped(k) && FormatValueForAudit(Get(oldData, k)) != FormatValueForAudit(Get(newData, k))
  {
    var logs := ObjectChanges(dealUuid, dealName, oldData, newData, keys, userId, userEmail);
    if exists j :: 0 <= j < |logs| && FieldOf(logs[j]) == k {
      var j :| 0 <= j < |logs| && FieldOf(logs[j]) == k;
      ObjectChangesSound(dealUuid, dealName, oldData, newData, keys, userId, userEmail, j);
    }
    if k in newData && Recorded(oldData, newData, k) {
      ObjectChangesComplete(dealUuid, dealName, oldData, newData, keys, userId, userEmail, k);
    }
  }
}
