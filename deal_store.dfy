/**
 * The deal store hook (src/hooks/useDeals.ts): the list of deals, a
 * loading flag and an error message, and the operations that call the
 * data layer and then update the list. Each awaited call is a parameter:
 * what it resolved to, or that it was rejected.
 */
module DealStore {
  import opened JsStrings
  import opened JsValues
  import opened DealModel
  import opened DealLists
  import opened Supabase

  /** How an awaited promise settled; a rejection carries `err.message` when `err` is an `Error`. */
  datatype Awaited<T> = Resolved(value: T) | Rejected(error: Option<string>)

  /** `err instanceof Error ? err.message : 'Unknown error'`. */
  function ErrorMessage<T>(a: Awaited<T>): (r: string)
    requires a.Rejected?
    ensures a.error.Some? ==> r == a.error.value
    ensures a.error.None? ==> r == "Unknown error"
  {
    match a.error
    case Some(m) => m
    case None => "Unknown error"
  }

  const NoDealsMessage := "No deals found in database. The deals table may be empty or not exist."

  class Store {
    var deals: seq<Deal>
    var loading: bool
    var error: Option<string>

    /** The state before the first load: no deals, loading, no error. */
    constructor()
      ensures deals == [] && loading && error == None
    {
      deals := [];
      loading := true;
      error := None;
    }

    /** `loadDeals`: the fetched list replaces the old one; an empty list or a failure sets the error. */
    method LoadDeals(fetched: Awaited<seq<Deal>>)
      modifies this
      ensures !loading
      ensures fetched.Resolved? ==> deals == fetched.value
      ensures fetched.Resolved? ==> error == if |fetched.value| == 0 then Some(NoDealsMessage) else None
      ensures fetched.Rejected? ==> deals == [] && error == Some("Failed to load deals: " + ErrorMessage(fetched))
    {
      loading := true;
      error := None;
      match fetched {
        case Resolved(data) =>
          deals := data;
          if |data| == 0 {
            error := Some(NoDealsMessage);
          }
        case Rejected(_) =>
          error := Some("Failed to load deals: " + ErrorMessage(fetched));
          deals := [];
      }
      loading := false;
    }

    /** `updateDealData`: the updates are merged into the deal only when the server returned the row. */
    method UpdateDealData(dealId: Value, updates: Record, saved: Awaited<Option<Deal>>) returns (ok: bool)
      modifies this
      ensures ok <==> saved.Resolved? && saved.value.Some?
      ensures deals == if ok then MergeById(old(deals), dealId, updates) else old(deals)
      ensures loading == old(loading) && error == old(error)
    {
      ok := false;
      if saved.Resolved? && saved.value.Some? {
        deals := MergeById(deals, dealId, updates);
        ok := true;
      }
    }

    /** `createNewDeal`: the created deal is appended and returned; a failure returns nothing. */
    method CreateNewDeal(created: Awaited<Deal>) returns (r: Option<Deal>)
      modifies this
      ensures created.Resolved? ==> r == Some(created.value) && deals == old(deals) + [created.value]
      ensures created.Rejected? ==> r == None && deals == old(deals)
      ensures loading == old(loading) && error == old(error)
    {
      match created {
        case Resolved(d) =>
          deals := deals + [d];
          r := Some(d);
        case Rejected(_) =>
          r := None;
      }
    }

    /** `removeDeal`: the deal leaves the list only when the delete succeeded. */
    method RemoveDeal(dealId: Value, deleted: Awaited<bool>) returns (ok: bool)
      modifies this
      ensures ok <==> deleted == Resolved(true)
      ensures deals == if ok then RemoveById(old(deals), dealId) else old(deals)
      ensures loading == old(loading) && error == old(error)
    {
      ok := deleted == Resolved(true);
      if ok {
        deals := RemoveById(deals, dealId);
      }
    }

    /** `updateBacklogOrdering`: the new positions are applied only when every update was saved. */
    method UpdateBacklogOrdering(updates: seq<OrderUpdate>, saved: Awaited<bool>) returns (ok: bool)
      modifies this
      ensures ok <==> saved == Resolved(true)
      ensures deals == if ok then ApplyBacklogOrders(old(deals), updates) else old(deals)
      ensures loading == old(loading) && error == old(error)
    {
      ok := saved == Resolved(true);
      if ok {
        deals := ApplyBacklogOrders(deals, updates);
      }
    }

    /** `optimisticUpdate`: merge the updates into the deal before the server answers. */
    method OptimisticUpdate(dealId: Value, updates: Record)
      modifies this
      ensures deals == MergeById(old(deals), dealId, updates)
      ensures loading == old(loading) && error == old(error)
    {
      deals := MergeById(deals, dealId, updates);
    }

    /** `rollbackUpdate`: put the deal back as it was. */
    method RollbackUpdate(dealId: Value, originalDeal: Deal)
      modifies this
      ensures deals == ReplaceById(old(deals), dealId, originalDeal)
      ensures loading == old(loading) && error == old(error)
    {
      deals := ReplaceById(deals, dealId, originalDeal);
    }
  }

  /**
   * An optimistic update rolled back to the deal as it was leaves the
   * store as it found it, when the ids are unique and the update keeps
   * the id.
   */
  method OptimisticThenRollback(s: Store, k: nat, updates: Record)
    requires UniqueIds(s.deals) && k < |s.deals|
    requires "deal_uuid" in updates ==> updates["deal_uuid"] == Id(s.deals[k])
    modifies s
    ensures s.deals == old(s.deals)
  {
    var original := s.deals[k];
    RollbackRestores(s.deals, k, updates);
    s.OptimisticUpdate(Id(original), updates);
    s.RollbackUpdate(Id(original), original);
  }
}
