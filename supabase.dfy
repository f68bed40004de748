/**
 * The data-access layer (src/lib/supabase.ts) with the queries themselves
 * taken as inputs: a reply is the data, an error object, or a thrown
 * exception. What is modelled is what the code does with a reply: the
 * order `fetchDeals` sorts into, the clean-up of enum values, the verdict
 * of a batch of backlog updates, and the defaults returned on failure.
 */
module Supabase {
  import opened JsStrings
  import opened JsValues
  import opened Seqs
  import DealModel

  type Deal = DealModel.Deal

  /** What a query can come back with. */
  datatype Reply<T> = Data(value: T) | ErrorReply | Exception

  // ---------------------------------------------------------------- fetchDeals order

  /** `backlog_order` when it is a number; anything else counts as null. */
  function BacklogOrder(d: Deal): Option<real> {
    var v := Get(d, "backlog_order");
    if v.Num? then Some(v.x) else None
  }

  /** The sign of `a - b`, which is all `sort` looks at. */
  function Sign(x: real): (r: int)
    ensures -1 <= r <= 1
    ensures r < 0 <==> x < 0.0
    ensures r > 0 <==> x > 0.0
  {
    if x < 0.0 then -1 else if x > 0.0 then 1 else 0
  }

  predicate Undated(d: Deal) {
    !Truthy(Get(d, "data_janela"))
  }

  /** The comparator `fetchDeals` hands to `sort`; `localeCompare` is taken as code-unit order. */
  function FetchOrder(a: Deal, b: Deal): (r: int)
    ensures Band(a) < Band(b) ==> r < 0
    ensures Band(a) > Band(b) ==> r > 0
  {
    if Undated(a) && Undated(b) then
      match (BacklogOrder(a), BacklogOrder(b))
      case (Some(x), Some(y)) => Sign(x - y)
      case (Some(_), None) => -1
      case (None, Some(_)) => 1
      case (None, None) => StrCmp(ToJsString(Get(a, "criado_em")), ToJsString(Get(b, "criado_em")))
    else if Undated(a) then -1
    else if Undated(b) then 1
    else StrCmp(ToJsString(Get(a, "data_janela")), ToJsString(Get(b, "data_janela")))
  }

  /** The three bands of the order: ordered backlog, unordered backlog, dated deals. */
  function Band(d: Deal): (r: nat)
    ensures r <= 2
  {
    if !Undated(d) then 2 else if BacklogOrder(d).Some? then 0 else 1
  }

  /** A deal without a date sorts before every dated deal. */
  lemma UndatedFirst(a: Deal, b: Deal)
    requires Undated(a) && !Undated(b)
    ensures FetchOrder(a, b) < 0 && FetchOrder(b, a) > 0
  {
  }

  /** Two backlog deals with an order sort by ascending order. */
  lemma BacklogByOrder(a: Deal, b: Deal)
    requires Undated(a) && Undated(b) && BacklogOrder(a).Some? && BacklogOrder(b).Some?
    ensures FetchOrder(a, b) < 0 <==> BacklogOrder(a).value < BacklogOrder(b).value
    ensures FetchOrder(a, b) == 0 <==> BacklogOrder(a).value == BacklogOrder(b).value
  {
  }

  /** A backlog deal with an order sorts before one without. */
  lemma OrderedBeforeUnordered(a: Deal, b: Deal)
    requires Undated(a) && Undated(b) && BacklogOrder(a).Some? && BacklogOrder(b).None?
    ensures FetchOrder(a, b) < 0 && FetchOrder(b, a) > 0
  {
  }

  /** Unordered backlog deals sort by creation time, dated deals by date, both as strings. */
  lemma StringFallbacks(a: Deal, b: Deal)
    ensures Band(a) == Band(b) == 1 ==>
      FetchOrder(a, b) == StrCmp(ToJsString(Get(a, "criado_em")), ToJsString(Get(b, "criado_em")))
    ensures Band(a) == Band(b) == 2 ==>
      FetchOrder(a, b) == StrCmp(ToJsString(Get(a, "data_janela")), ToJsString(Get(b, "data_janela")))
  {
  }

  /** The comparator orders by band first. */
  lemma BandsInOrder(a: Deal, b: Deal)
    requires Band(a) < Band(b)
    ensures FetchOrder(a, b) < 0 && FetchOrder(b, a) > 0
  {
  }

  lemma FetchOrderTotal(a: Deal, b: Deal)
    ensures FetchOrder(a, b) <= 0 || FetchOrder(b, a) <= 0
  {
    if Band(a) == Band(b) {
      StrCmpZero(ToJsString(Get(a, "criado_em")), ToJsString(Get(b, "criado_em")));
      StrCmpZero(ToJsString(Get(a, "data_janela")), ToJsString(Get(b, "data_janela")));
    }
  }

  lemma FetchOrderTrans(a: Deal, b: Deal, c: Deal)
    requires FetchOrder(a, b) <= 0 && FetchOrder(b, c) <= 0
    ensures FetchOrder(a, c) <= 0
  {
    if Band(a) < Band(b) || Band(b) < Band(c) {
      if Band(b) < Band(a) { BandsInOrder(b, a); }
      if Band(c) < Band(b) { BandsInOrder(c, b); }
      if Band(a) < Band(c) { BandsInOrder(a, c); }
    } else if Band(a) > Band(b) {
      BandsInOrder(b, a);
    } else if Band(b) > Band(c) {
      BandsInOrder(c, b);
    } else if Band(a) == 1 {
      StrCmpTrans(ToJsString(Get(a, "criado_em")), ToJsString(Get(b, "criado_em")), ToJsString(Get(c, "criado_em")));
    } else if Band(a) == 2 {
      StrCmpTrans(ToJsString(Get(a, "data_janela")), ToJsString(Get(b, "data_janela")), ToJsString(Get(c, "data_janela")));
    }
  }

  /** Any two elements are comparable. */
  ghost predicate Total<T(!new)>(cmp: (T, T) -> int) {
    forall x, y :: cmp(x, y) <= 0 || cmp(y, x) <= 0
  }

  ghost predicate Transitive<T(!new)>(cmp: (T, T) -> int) {
    forall x, y, z :: cmp(x, y) <= 0 && cmp(y, z) <= 0 ==> cmp(x, z) <= 0
  }

  /** The comparator is a total preorder on all deals. */
  lemma FetchOrderTotalPreorder()
    ensures Total(FetchOrder) && Transitive(FetchOrder)
  {
    forall x, y ensures FetchOrder(x, y) <= 0 || FetchOrder(y, x) <= 0 {
      FetchOrderTotal(x, y);
    }
    forall x, y, z | FetchOrder(x, y) <= 0 && FetchOrder(y, z) <= 0 ensures FetchOrder(x, z) <= 0 {
      FetchOrderTrans(x, y, z);
    }
  }

  /** `array.sort(cmp)`, in place. */
  method SortInPlace<T(!new)>(a: array<T>, cmp: (T, T) -> int)
    requires Total(cmp) && Transitive(cmp)
    modifies a
    ensures SortedBy(a[..], cmp)
    ensures multiset(a[..]) == multiset(old(a[..]))
  {
    var i := 0;
    while i < a.Length
      invariant 0 <= i <= a.Length
      invariant forall k, l :: 0 <= k < l < i ==> cmp(a[k], a[l]) <= 0
      invariant multiset(a[..]) == multiset(old(a[..]))
    {
      var j := SinkLast(a, i, cmp);
      SinkSettles(a[..], i, j, cmp);
      i := i + 1;
    }
  }

  /**
   * The prefix `s[..i + 1]` during one insertion step: in order except at
   * the hole `j`, which holds the sinking element, and that element is not
   * above anything to its right.
   */
  predicate Hole<T>(s: seq<T>, i: nat, j: nat, cmp: (T, T) -> int) {
    j <= i < |s|
    && (forall k, l :: 0 <= k < l <= i && l != j ==> cmp(s[k], s[l]) <= 0)
    && (forall l :: j < l <= i ==> cmp(s[j], s[l]) <= 0)
  }

  /**
   * One insertion step: `a[i]` is swapped leftwards past the elements it
   * is below, and stops at `j`.
   */
  method SinkLast<T(!new)>(a: array<T>, i: nat, cmp: (T, T) -> int) returns (j: nat)
    requires Total(cmp)
    requires i < a.Length
    requires forall k, l :: 0 <= k < l < i ==> cmp(a[k], a[l]) <= 0
    modifies a
    ensures j <= i && Hole(a[..], i, j, cmp)
    ensures j > 0 ==> cmp(a[j - 1], a[j]) <= 0
    ensures multiset(a[..]) == multiset(old(a[..]))
  {
    j := i;
    HoleAtEnd(a[..], i, cmp);
    while j > 0 && cmp(a[j - 1], a[j]) > 0
      invariant 0 <= j <= i
      invariant Hole(a[..], i, j, cmp)
      invariant multiset(a[..]) == multiset(old(a[..]))
      decreases j
    {
      ghost var before := a[..];
      a[j - 1], a[j] := a[j], a[j - 1];
      assert a[..] == before[j - 1 := before[j]][j := before[j - 1]];
      SwapKeepsOrder(before, a[..], i, j, cmp);
      SwapKeepsElements(before, j);
      j := j - 1;
    }
  }

  /** Before the step, the hole is the new element itself. */
  lemma HoleAtEnd<T>(s: seq<T>, i: nat, cmp: (T, T) -> int)
    requires i < |s|
    requires forall k, l :: 0 <= k < l < i ==> cmp(s[k], s[l]) <= 0
    ensures Hole(s, i, i, cmp)
  {
  }

  lemma SwapKeepsElements<T>(s: seq<T>, j: nat)
    requires 0 < j < |s|
    ensures multiset(s[j - 1 := s[j]][j := s[j - 1]]) == multiset(s)
  {
  }

  /** Swapping the sinking element with the larger left neighbour moves the hole one place left. */
  lemma SwapKeepsOrder<T(!new)>(s: seq<T>, t: seq<T>, i: nat, j: nat, cmp: (T, T) -> int)
    requires Total(cmp) && 0 < j && Hole(s, i, j, cmp)
    requires cmp(s[j - 1], s[j]) > 0
    requires t == s[j - 1 := s[j]][j := s[j - 1]]
    ensures Hole(t, i, j - 1, cmp)
  {
    assert cmp(s[j], s[j - 1]) <= 0;
  }

  /** Once the sinking element is not below its left neighbour, the whole prefix is in order. */
  lemma SinkSettles<T(!new)>(s: seq<T>, i: nat, j: nat, cmp: (T, T) -> int)
    requires Transitive(cmp) && Hole(s, i, j, cmp)
    requires j > 0 ==> cmp(s[j - 1], s[j]) <= 0
    ensures forall k, l :: 0 <= k < l <= i ==> cmp(s[k], s[l]) <= 0
  {
    forall k | 0 <= k < j - 1 ensures cmp(s[k], s[j]) <= 0 {
      assert cmp(s[k], s[j - 1]) <= 0;
    }
  }

  /**
   * `fetchDeals()`: the rows sorted by `FetchOrder`, and [] on an error
   * reply or an exception.
   */
  method FetchDeals(reply: Reply<seq<Deal>>) returns (deals: seq<Deal>)
    ensures !reply.Data? ==> deals == []
    ensures reply.Data? ==> multiset(deals) == multiset(reply.value) && SortedBy(deals, FetchOrder)
  {
    if !reply.Data? {
      return [];
    }
    var data := reply.value;
    if |data| > 0 {
      var a := new Deal[|data|](i requires 0 <= i < |data| => data[i]);
      assert a[..] == data;
      FetchOrderTotalPreorder();
      SortInPlace(a, FetchOrder);
      deals := a[..];
    } else {
      deals := data;
    }
  }

  // ---------------------------------------------------------------- the other replies

  /** `updateDeal` and `getDeal`: the row, or null on an error or an exception. */
  function RowOrNull(reply: Reply<Deal>): (r: Option<Deal>)
    ensures r.Some? <==> reply.Data?
    ensures reply.Data? ==> r.value == reply.value
  {
    match reply
    case Data(d) => Some(d)
    case _ => None
  }

  /** `deleteDeal`: true exactly when the delete came back without an error. */
  function DeleteSucceeded(reply: Reply<()>): (r: bool)
    ensures r <==> reply.Data?
  {
    reply.Data?
  }

  /** The reply of the deal-creation endpoint. */
  datatype ApiReply = ApiOk(data: Deal) | ApiNotOk(message: Value, error: Value) | NetworkFailure(reason: string)

  /** What `createDeal` gives its caller: the new deal, or an error it throws on. */
  datatype Created = NewDeal(deal: Deal) | Throws(message: string)

  /** `createDeal`: the only query that rethrows instead of returning a default. */
  function CreateDeal(reply: ApiReply): (r: Created)
    ensures reply.ApiOk? <==> r.NewDeal?
    ensures reply.ApiOk? ==> r.deal == reply.data
    ensures reply.ApiNotOk? && !Truthy(reply.message) && !Truthy(reply.error) ==> r == Throws("Failed to create deal")
    ensures reply.ApiNotOk? && Truthy(reply.message) ==> r == Throws(ToJsString(reply.message))
    ensures reply.ApiNotOk? && !Truthy(reply.message) && Truthy(reply.error) ==> r == Throws(ToJsString(reply.error))
    ensures reply.NetworkFailure? ==> r == Throws(reply.reason)
  {
    match reply
    case ApiOk(d) => NewDeal(d)
    case ApiNotOk(m, e) => Throws(ToJsString(Or(Or(m, e), Str("Failed to create deal"))))
    case NetworkFailure(why) => Throws(why)
  }

  // ---------------------------------------------------------------- getEnumValues

  /** A value the enum clean-up keeps: truthy and not blank once printed and trimmed. */
  predicate Kept(v: Value) {
    Truthy(v) && Trim(ToJsString(v)) != ""
  }

  function KeptStrings(rows: seq<Value>): (r: seq<string>)
    ensures forall s :: s in r <==> exists i :: 0 <= i < |rows| && Kept(rows[i]) && ToJsString(rows[i]) == s
  {
    if rows == [] then []
    else
      var rest := KeptStrings(rows[1..]);
      assert forall i :: 1 <= i < |rows| ==> rows[i] == rows[1..][i - 1];
      assert forall i :: 0 <= i < |rows| - 1 ==> rows[1..][i] == rows[i + 1];
      if Kept(rows[0]) then [ToJsString(rows[0])] + rest else rest
  }

  /**
   * `getEnumValues(table, column)`: the distinct non-blank values of the
   * column, ascending; [] on an error, on an exception and on no rows.
   */
  function GetEnumValues(reply: Reply<seq<Value>>): (r: seq<string>)
    ensures !reply.Data? ==> r == []
    ensures reply.Data? ==> forall s :: s in r <==>
      exists i :: 0 <= i < |reply.value| && Kept(reply.value[i]) && ToJsString(reply.value[i]) == s
    ensures forall s :: s in r ==> Trim(s) != ""
    ensures Distinct(r)
    ensures forall i, j :: 0 <= i < j < |r| ==> StrCmp(r[i], r[j]) < 0
  {
    match reply
    case Data(rows) =>
      if |rows| == 0 then [] else SortedDistinct(KeptStrings(rows))
    case _ => []
  }

  /** The columns `getAllDealEnums` asks for, in order. */
  const EnumFields: seq<string> := [
    "veiculo", "produto", "setor", "principal_indexador", "ipo_fon", "tipo", "publico_alvo", "status_deal", "tipo_cota"
  ]

  /**
   * `getAllDealEnums()`: one entry per enum column, the column's values,
   * or [] when its query failed.
   */
  method GetAllDealEnums(replies: string -> Reply<seq<Value>>) returns (enumMap: map<string, seq<string>>)
    ensures forall f :: f in enumMap <==> f in EnumFields
    ensures forall f :: f in enumMap ==> enumMap[f] == GetEnumValues(replies(f))
  {
    enumMap := CollectFields(EnumFields, f => GetEnumValues(replies(f)));
  }

  /** The loop of `getAllDealEnums`: one entry per field, in turn. */
  method CollectFields(fields: seq<string>, valuesOf: string -> seq<string>) returns (enumMap: map<string, seq<string>>)
    ensures forall f :: f in enumMap <==> f in fields
    ensures forall f :: f in enumMap ==> enumMap[f] == valuesOf(f)
  {
    enumMap := map[];
    var i := 0;
    while i < |fields|
      invariant 0 <= i <= |fields|
      invariant forall f :: f in enumMap <==> f in fields[..i]
      invariant forall f :: f in enumMap ==> enumMap[f] == valuesOf(f)
    {
      var field := fields[i];
      var values := valuesOf(field);
      if |values| > 0 {
        enumMap := enumMap[field := values];
      } else {
        enumMap := enumMap[field := []];
      }
      assert fields[..i + 1] == fields[..i] + [field];
      i := i + 1;
    }
    assert fields[..i] == fields;
  }

  // ---------------------------------------------------------------- updateBacklogOrder

  /** One `{ deal_uuid, backlog_order }` entry of a batch. */
  datatype OrderUpdate = OrderUpdate(dealId: Value, backlogOrder: int)

  /** Some reply of the batch carries an error. */
  function AnyError(failed: seq<bool>): bool {
    if failed == [] then false else failed[0] || AnyError(failed[1..])
  }

  lemma {:induction false} AnyErrorIff(failed: seq<bool>)
    ensures AnyError(failed) <==> exists i :: 0 <= i < |failed| && failed[i]
  {
    if failed != [] {
      AnyErrorIff(failed[1..]);
      assert forall i :: 1 <= i < |failed| ==> failed[i] == failed[1..][i - 1];
    }
  }

  /**
   * `updateBacklogOrder(updates)`: given, per update, whether its reply
   * carried an error (None when the batch threw), true exactly when no
   * update failed.
   */
  function BacklogOrderSaved(failed: Option<seq<bool>>): (r: bool)
    ensures r <==> failed.Some? && forall i :: 0 <= i < |failed.value| ==> !failed.value[i]
  {
    match failed
    case None => false
    case Some(f) => AnyErrorIff(f); !AnyError(f)
  }
}
