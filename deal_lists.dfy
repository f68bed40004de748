/**
 * The list updates that the deal store (src/hooks/useDeals.ts) and the
 * board (src/components/kanban/KanbanBoard.tsx) apply to their in-memory
 * list of deals: merge updates into the deal with an id, put a deal back
 * in place, drop a deal, and give deals new backlog positions.
 */
module DealLists {
  import opened JsStrings
  import opened JsValues
  import opened Seqs
  import opened DealModel
  import opened Supabase

  /** `deals.map(d => d.deal_uuid === id ? { ...d, ...updates } : d)`. */
  function MergeById(deals: seq<Deal>, id: Value, updates: Record): (r: seq<Deal>)
    ensures |r| == |deals|
    ensures forall i :: 0 <= i < |r| && Id(deals[i]) != id ==> r[i] == deals[i]
    ensures forall i :: 0 <= i < |r| && Id(deals[i]) == id ==>
      (forall k :: Get(r[i], k) == if k in updates then updates[k] else Get(deals[i], k))
  {
    seq(|deals|, i requires 0 <= i < |deals| => if Id(deals[i]) == id then Spread(deals[i], updates) else deals[i])
  }

  /** `deals.map(d => d.deal_uuid === id ? replacement : d)`. */
  function ReplaceById(deals: seq<Deal>, id: Value, replacement: Deal): (r: seq<Deal>)
    ensures |r| == |deals|
    ensures forall i :: 0 <= i < |r| ==> r[i] == if Id(deals[i]) == id then replacement else deals[i]
  {
    seq(|deals|, i requires 0 <= i < |deals| => if Id(deals[i]) == id then replacement else deals[i])
  }

  /** The deals that do not carry `id`, as a predicate `filter` can take. */
  function NotWithId(id: Value): Deal -> bool {
    d => Id(d) != id
  }

  /** `deals.filter(d => d.deal_uuid !== id)`. */
  function RemoveById(deals: seq<Deal>, id: Value): (r: seq<Deal>)
    ensures IsSubseq(r, deals)
    ensures forall i :: 0 <= i < |r| ==> Id(r[i]) != id
    ensures forall i :: 0 <= i < |deals| && Id(deals[i]) != id ==> deals[i] in r
    ensures forall x :: multiset(r)[x] == if Id(x) != id then multiset(deals)[x] else 0
  {
    FilterIsSubseq(deals, NotWithId(id));
    FilterCounts(deals, NotWithId(id));
    Filter(deals, NotWithId(id))
  }

  /** At most one deal carries each id. */
  predicate UniqueIds(deals: seq<Deal>) {
    forall i, j :: 0 <= i < j < |deals| ==> Id(deals[i]) != Id(deals[j])
  }

  /**
   * An optimistic merge followed by a rollback to the deal as it was
   * restores the list, provided the updates leave the id alone and the
   * ids are unique.
   */
  lemma RollbackRestores(deals: seq<Deal>, k: nat, updates: Record)
    requires UniqueIds(deals) && k < |deals|
    requires "deal_uuid" in updates ==> updates["deal_uuid"] == Id(deals[k])
    ensures ReplaceById(MergeById(deals, Id(deals[k]), updates), Id(deals[k]), deals[k]) == deals
  {
    var id := Id(deals[k]);
    var merged := MergeById(deals, id, updates);
    var back := ReplaceById(merged, id, deals[k]);
    forall i | 0 <= i < |deals| ensures back[i] == deals[i] {
      if Id(deals[i]) == id {
        assert i == k;
        assert Id(merged[i]) == id by {
          assert Get(merged[i], "deal_uuid") == if "deal_uuid" in updates then updates["deal_uuid"] else Get(deals[i], "deal_uuid");
        }
      } else {
        assert merged[i] == deals[i];
      }
    }
  }

  /** Replacing by an id nobody carries changes nothing. */
  lemma ReplaceAbsentId(deals: seq<Deal>, id: Value, replacement: Deal)
    requires forall i :: 0 <= i < |deals| ==> Id(deals[i]) != id
    ensures ReplaceById(deals, id, replacement) == deals
  {
  }

  // ---------------------------------------------------------------- backlog positions

  /** Entry `j` is the first one for `id`. */
  predicate FirstEntry(updates: seq<OrderUpdate>, id: Value, j: int) {
    0 <= j < |updates| && updates[j].dealId == id && forall l :: 0 <= l < j ==> updates[l].dealId != id
  }

  /** `updates.find(u => u.deal_uuid === id)`. */
  function FindOrder(updates: seq<OrderUpdate>, id: Value): (r: Option<int>)
    ensures r.None? <==> forall j :: 0 <= j < |updates| ==> updates[j].dealId != id
    ensures r.Some? ==>
      exists j :: FirstEntry(updates, id, j) && updates[j].backlogOrder == r.value
  {
    if updates == [] then None
    else if updates[0].dealId == id then
      assert FirstEntry(updates, id, 0);
      Some(updates[0].backlogOrder)
    else
      var r := FindOrder(updates[1..], id);
      assert forall j :: 1 <= j < |updates| ==> updates[j] == updates[1..][j - 1];
      if r.Some? then
        var j :| FirstEntry(updates[1..], id, j) && updates[1..][j].backlogOrder == r.value;
        assert FirstEntry(updates, id, j + 1);
        r
      else r
  }

  /** One deal after the batch: its new `backlog_order`, if it has an entry. */
  function WithOrder(d: Deal, updates: seq<OrderUpdate>): Deal {
    match FindOrder(updates, Id(d))
    case None => d
    case Some(n) => d["backlog_order" := Num(n as real)]
  }

  /**
   * `deals.map(deal => update ? { ...deal, backlog_order } : deal)`: a
   * listed deal gets the order of its first entry, and nothing else of any
   * deal changes.
   */
  function ApplyBacklogOrders(deals: seq<Deal>, updates: seq<OrderUpdate>): (r: seq<Deal>)
    ensures |r| == |deals|
    ensures forall i, k :: 0 <= i < |r| && k != "backlog_order" ==> Get(r[i], k) == Get(deals[i], k)
    ensures forall i :: 0 <= i < |r| ==> Id(r[i]) == Id(deals[i])
    ensures forall i :: 0 <= i < |r| && FindOrder(updates, Id(deals[i])).None? ==> r[i] == deals[i]
    ensures forall i :: 0 <= i < |r| && FindOrder(updates, Id(deals[i])).Some? ==>
      Get(r[i], "backlog_order") == Num(FindOrder(updates, Id(deals[i])).value as real)
  {
    seq(|deals|, i requires 0 <= i < |deals| => WithOrder(deals[i], updates))
  }
}
