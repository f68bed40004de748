/**
 * The array operations the application builds on: `filter`, the
 * insertion-ordered de-duplication of `new Set(...)`, a stable sort by a
 * comparator (`Array.prototype.sort`), the code-unit order of the default
 * `sort()`, and sums (`reduce`).
 */
module Seqs {

  // ---------------------------------------------------------------- filter

  /** `s.filter(p)`. */
  function Filter<T(==)>(s: seq<T>, p: T -> bool): (r: seq<T>)
    ensures |r| <= |s|
    ensures forall i :: 0 <= i < |r| ==> p(r[i]) && r[i] in s
    ensures forall i :: 0 <= i < |s| && p(s[i]) ==> s[i] in r
  {
    if s == [] then []
    else if p(s[0]) then [s[0]] + Filter(s[1..], p)
    else Filter(s[1..], p)
  }

  lemma {:induction false} FilterAppend<T>(a: seq<T>, b: seq<T>, p: T -> bool)
    ensures Filter(a + b, p) == Filter(a, p) + Filter(b, p)
  {
    if a == [] {
      assert a + b == b;
    } else {
      assert (a + b)[0] == a[0] && (a + b)[1..] == a[1..] + b;
      FilterAppend(a[1..], b, p);
    }
  }

  /** Filtering one more element appends it when it is accepted. */
  lemma FilterSnoc<T>(s: seq<T>, i: nat, p: T -> bool)
    requires i < |s|
    ensures Filter(s[..i + 1], p) == Filter(s[..i], p) + if p(s[i]) then [s[i]] else []
  {
    assert s[..i + 1] == s[..i] + [s[i]];
    FilterAppend(s[..i], [s[i]], p);
    assert [s[i]][1..] == [];
  }

  /** Filtering twice is filtering once by the conjunction. */
  lemma {:induction false} FilterFilter<T>(s: seq<T>, p: T -> bool, q: T -> bool)
    ensures Filter(Filter(s, p), q) == Filter(s, x => p(x) && q(x))
  {
    if s != [] {
      FilterFilter(s[1..], p, q);
    }
  }

  /** A filter whose predicate every element meets keeps everything. */
  lemma {:induction false} FilterAll<T>(s: seq<T>, p: T -> bool)
    requires forall i :: 0 <= i < |s| ==> p(s[i])
    ensures Filter(s, p) == s
  {
    if s != [] {
      FilterAll(s[1..], p);
    }
  }

  /** Filters whose predicates agree on the elements give the same result. */
  lemma {:induction false} FilterExt<T>(s: seq<T>, p: T -> bool, q: T -> bool)
    requires forall i :: 0 <= i < |s| ==> p(s[i]) == q(s[i])
    ensures Filter(s, p) == Filter(s, q)
  {
    if s != [] {
      FilterExt(s[1..], p, q);
    }
  }

  /** The complement of a predicate. */
  function Not<T>(p: T -> bool): T -> bool {
    x => !p(x)
  }

  /** Complementary filters split the elements between them. */
  lemma {:induction false} FilterSplit<T>(s: seq<T>, p: T -> bool)
    ensures |Filter(s, p)| + |Filter(s, Not(p))| == |s|
    ensures multiset(Filter(s, p)) + multiset(Filter(s, Not(p))) == multiset(s)
  {
    if s != [] {
      FilterSplit(s[1..], p);
      assert s == [s[0]] + s[1..];
    }
  }

  /** A filter keeps every copy of an element it accepts and none of one it rejects. */
  lemma {:induction false} FilterCount<T>(s: seq<T>, p: T -> bool, x: T)
    ensures multiset(Filter(s, p))[x] == if p(x) then multiset(s)[x] else 0
  {
    if s != [] {
      FilterCount(s[1..], p, x);
      var head: seq<T> := if p(s[0]) then [s[0]] else [];
      assert Filter(s, p) == head + Filter(s[1..], p);
      assert s == [s[0]] + s[1..];
      assert multiset(s) == multiset([s[0]]) + multiset(s[1..]);
      assert multiset(Filter(s, p)) == multiset(head) + multiset(Filter(s[1..], p));
    }
  }

  lemma FilterCounts<T>(s: seq<T>, p: T -> bool)
    ensures forall x :: multiset(Filter(s, p))[x] == if p(x) then multiset(s)[x] else 0
  {
    forall x ensures multiset(Filter(s, p))[x] == if p(x) then multiset(s)[x] else 0 {
      FilterCount(s, p, x);
    }
  }

  /** An element is in a filter's result exactly when it is in the list and accepted. */
  lemma InFilterIff<T>(s: seq<T>, p: T -> bool, x: T)
    ensures x in Filter(s, p) <==> x in s && p(x)
  {
    FilterCount(s, p, x);
    assert x in Filter(s, p) <==> multiset(Filter(s, p))[x] > 0;
    assert x in s <==> multiset(s)[x] > 0;
  }

  // ---------------------------------------------------------------- subsequence

  /** `a` is `b` with some elements removed, the rest kept in order. */
  predicate IsSubseq<T(==)>(a: seq<T>, b: seq<T>) {
    if a == [] then true
    else if b == [] then false
    else if a[0] == b[0] then IsSubseq(a[1..], b[1..])
    else IsSubseq(a, b[1..])
  }

  lemma {:induction false} SubseqOfSelf<T>(s: seq<T>)
    ensures IsSubseq(s, s)
  {
    if s != [] { SubseqOfSelf(s[1..]); }
  }

  lemma {:induction false} FilterIsSubseq<T>(s: seq<T>, p: T -> bool)
    ensures IsSubseq(Filter(s, p), s)
  {
    if s != [] {
      FilterIsSubseq(s[1..], p);
    }
  }

  /** Dropping the first element of a subsequence leaves a subsequence. */
  lemma {:induction false} SubseqDropHead<T>(a: seq<T>, b: seq<T>)
    requires a != [] && IsSubseq(a, b)
    ensures IsSubseq(a[1..], b)
    decreases |a| + |b|
  {
    if a[0] == b[0] {
      SubseqExtend(a[1..], b);
    } else {
      SubseqDropHead(a, b[1..]);
      SubseqExtend(a[1..], b);
    }
  }

  /** A subsequence of the tail is a subsequence of the whole. */
  lemma {:induction false} SubseqExtend<T>(a: seq<T>, b: seq<T>)
    requires b != [] && IsSubseq(a, b[1..])
    ensures IsSubseq(a, b)
    decreases |a| + |b|
  {
    if a != [] && a[0] == b[0] {
      SubseqDropHead(a, b[1..]);
    }
  }

  lemma {:induction false} SubseqTrans<T>(a: seq<T>, b: seq<T>, c: seq<T>)
    requires IsSubseq(a, b) && IsSubseq(b, c)
    ensures IsSubseq(a, c)
    decreases |c|
  {
    if a != [] {
      if b[0] != c[0] {
        SubseqTrans(a, b, c[1..]);
        SubseqExtend(a, c);
      } else if a[0] == b[0] {
        SubseqTrans(a[1..], b[1..], c[1..]);
      } else {
        SubseqTrans(a, b[1..], c[1..]);
      }
    }
  }

  /** Two filters may be applied in either order. */
  lemma {:induction false} FilterCommute<T>(s: seq<T>, p: T -> bool, q: T -> bool)
    ensures Filter(Filter(s, p), q) == Filter(Filter(s, q), p)
  {
    if s != [] {
      FilterCommute(s[1..], p, q);
    }
  }

  // ---------------------------------------------------------------- de-duplication

  predicate Distinct<T(==)>(s: seq<T>) {
    forall i, j :: 0 <= i < j < |s| ==> s[i] != s[j]
  }

  /**
   * `Array.from(new Set(s))`: the first occurrence of every element, in
   * the order of first occurrence.
   */
  function Dedup<T(==)>(s: seq<T>): (r: seq<T>)
    ensures Distinct(r)
    ensures forall i :: 0 <= i < |r| ==> r[i] in s
    ensures forall i :: 0 <= i < |s| ==> s[i] in r
    ensures |r| <= |s|
  {
    if s == [] then []
    else
      var init := s[..|s| - 1];
      var d := Dedup(init);
      var x := s[|s| - 1];
      assert forall i :: 0 <= i < |s| - 1 ==> s[i] == init[i];
      if x in d then d else d + [x]
  }

  /** Appending one element after a concatenation. */
  lemma ConcatSnoc<T>(a: seq<T>, b: seq<T>, x: T)
    ensures a + (b + [x]) == (a + b) + [x]
  {
  }

  /** Adding one element to a `Set`: appended if new, ignored otherwise. */
  lemma DedupSnoc<T>(s: seq<T>, x: T)
    ensures Dedup(s + [x]) == if x in s then Dedup(s) else Dedup(s) + [x]
  {
    assert (s + [x])[..|s|] == s;
  }

  lemma DedupMembers<T>(s: seq<T>, x: T)
    ensures x in Dedup(s) <==> x in s
  {
    if x in s {
      var i :| 0 <= i < |s| && s[i] == x;
    }
  }

  /** A list without duplicates is its own de-duplication. */
  lemma {:induction false} DedupOfDistinct<T>(s: seq<T>)
    requires Distinct(s)
    ensures Dedup(s) == s
  {
    if s != [] {
      var init := s[..|s| - 1];
      assert Distinct(init);
      DedupOfDistinct(init);
      assert s[|s| - 1] !in init;
      assert s == init + [s[|s| - 1]];
    }
  }

  /** De-duplicating `a + b` starts with the de-duplication of `a`. */
  lemma {:induction false} DedupPrefix<T>(a: seq<T>, b: seq<T>)
    ensures |Dedup(a)| <= |Dedup(a + b)|
    ensures Dedup(a + b)[..|Dedup(a)|] == Dedup(a)
  {
    if b == [] {
      assert a + b == a;
    } else {
      var b0 := b[..|b| - 1];
      DedupPrefix(a, b0);
      assert (a + b)[..|a + b| - 1] == a + b0;
      var d0 := Dedup(a + b0);
      assert Dedup(a + b)[..|d0|] == d0;
      assert d0[..|Dedup(a)|] == Dedup(a);
    }
  }

  // ---------------------------------------------------------------- sorting

  /** `cmp` orders the elements of `s` consistently: a total preorder. */
  ghost predicate TotalPreorder<T(!new)>(cmp: (T, T) -> int, s: seq<T>) {
    (forall a, b :: a in s && b in s ==> cmp(a, b) <= 0 || cmp(b, a) <= 0)
    && (forall a, b, c :: a in s && b in s && c in s && cmp(a, b) <= 0 && cmp(b, c) <= 0 ==> cmp(a, c) <= 0)
  }

  predicate SortedBy<T>(s: seq<T>, cmp: (T, T) -> int) {
    forall i, j :: 0 <= i < j < |s| ==> cmp(s[i], s[j]) <= 0
  }

  /**
   * Inserts `x` before the first element it does not exceed; `x` goes
   * ahead of the elements it ties with, which keeps the sort stable.
   */
  function Insert<T(==)>(x: T, s: seq<T>, cmp: (T, T) -> int): (r: seq<T>)
    ensures |r| == |s| + 1
    ensures multiset(r) == multiset(s) + multiset{x}
    ensures forall i :: 0 <= i < |r| ==> r[i] == x || r[i] in s
  {
    if s == [] then [x]
    else if cmp(x, s[0]) <= 0 then [x] + s
    else
      assert s == [s[0]] + s[1..];
      [s[0]] + Insert(x, s[1..], cmp)
  }

  /** `s.slice().sort(cmp)`, as a stable insertion sort. */
  function SortBy<T(==)>(s: seq<T>, cmp: (T, T) -> int): (r: seq<T>)
    ensures |r| == |s|
    ensures multiset(r) == multiset(s)
    ensures forall i :: 0 <= i < |r| ==> r[i] in s
  {
    if s == [] then []
    else
      assert s == [s[0]] + s[1..];
      var t := SortBy(s[1..], cmp);
      assert forall y :: y in t ==> y in s;
      Insert(s[0], t, cmp)
  }

  lemma PreorderTrans<T(!new)>(cmp: (T, T) -> int, all: seq<T>, a: T, b: T, c: T)
    requires TotalPreorder(cmp, all) && a in all && b in all && c in all
    requires cmp(a, b) <= 0 && cmp(b, c) <= 0
    ensures cmp(a, c) <= 0
  {
  }

  lemma PreorderTotal<T(!new)>(cmp: (T, T) -> int, all: seq<T>, a: T, b: T)
    requires TotalPreorder(cmp, all) && a in all && b in all
    ensures cmp(a, b) <= 0 || cmp(b, a) <= 0
  {
  }

  /** Putting `x` in front of a sorted list it does not exceed keeps it sorted. */
  lemma InsertFrontSorted<T>(x: T, s: seq<T>, cmp: (T, T) -> int)
    requires s != [] && SortedBy(s, cmp) && cmp(x, s[0]) <= 0
    requires forall j :: 0 < j < |s| ==> cmp(x, s[j]) <= 0
    ensures SortedBy([x] + s, cmp)
  {
    var r := [x] + s;
    forall i, j | 0 <= i < j < |r| ensures cmp(r[i], r[j]) <= 0 {
      if i > 0 { assert r[i] == s[i - 1] && r[j] == s[j - 1]; }
      else { assert r[j] == s[j - 1]; }
    }
  }

  lemma {:induction false} InsertSorted<T(!new)>(x: T, s: seq<T>, cmp: (T, T) -> int, all: seq<T>)
    requires x in all && forall i :: 0 <= i < |s| ==> s[i] in all
    requires TotalPreorder(cmp, all)
    requires SortedBy(s, cmp)
    ensures SortedBy(Insert(x, s, cmp), cmp)
  {
    if s == [] {
    } else if cmp(x, s[0]) <= 0 {
      forall j | 0 < j < |s| ensures cmp(x, s[j]) <= 0 {
        PreorderTrans(cmp, all, x, s[0], s[j]);
      }
      InsertFrontSorted(x, s, cmp);
    } else {
      var t := s[1..];
      assert forall i :: 0 <= i < |t| ==> t[i] == s[i + 1];
      InsertSorted(x, t, cmp, all);
      var u := Insert(x, t, cmp);
      PreorderTotal(cmp, all, x, s[0]);
      forall j | 0 <= j < |u| ensures cmp(s[0], u[j]) <= 0 {
        if u[j] != x {
          var k :| 0 <= k < |t| && t[k] == u[j];
          assert s[k + 1] == u[j];
        }
      }
      assert Insert(x, s, cmp) == [s[0]] + u;
      InsertFrontSorted(s[0], u, cmp);
    }
  }

  /** Sorting by a total preorder yields a list sorted by it. */
  lemma {:induction false} SortBySorted<T(!new)>(s: seq<T>, cmp: (T, T) -> int)
    requires TotalPreorder(cmp, s)
    ensures SortedBy(SortBy(s, cmp), cmp)
  {
    if s != [] {
      var t := s[1..];
      assert forall y :: y in t ==> y in s;
      assert TotalPreorder(cmp, t);
      SortBySorted(t, cmp);
      var st := SortBy(t, cmp);
      InsertSorted(s[0], st, cmp, s);
    }
  }

  /**
   * An element that goes ahead of every element and that every other
   * element goes behind comes out first, whatever the other comparisons.
   */
  lemma {:induction false} LeastSortsFirst<T>(s: seq<T>, cmp: (T, T) -> int, m: T)
    requires m in s
    requires forall x :: x in s ==> cmp(m, x) <= 0
    requires forall x :: x in s && x != m ==> cmp(x, m) > 0
    ensures SortBy(s, cmp) != [] && SortBy(s, cmp)[0] == m
  {
    var t := SortBy(s[1..], cmp);
    assert SortBy(s, cmp) == Insert(s[0], t, cmp);
    if s[0] != m {
      assert m in s[1..];
      LeastSortsFirst(s[1..], cmp, m);
    } else if t != [] {
      assert t[0] in s[1..];
    }
  }

  lemma SortByMembers<T>(s: seq<T>, cmp: (T, T) -> int)
    ensures forall x :: x in SortBy(s, cmp) <==> x in s
  {
    var r := SortBy(s, cmp);
    assert forall x :: x in r <==> x in multiset(r);
  }

  lemma {:induction false} InsertDistinct<T>(x: T, s: seq<T>, cmp: (T, T) -> int)
    requires Distinct(s) && x !in s
    ensures Distinct(Insert(x, s, cmp))
  {
    if s != [] && cmp(x, s[0]) > 0 {
      var t := s[1..];
      assert Distinct(t);
      InsertDistinct(x, t, cmp);
      var u := Insert(x, t, cmp);
      assert s[0] !in t;
      forall j | 0 <= j < |u| ensures u[j] != s[0] {
        if u[j] != x {
          assert u[j] in t;
        }
      }
      var r := [s[0]] + u;
      forall i, j | 0 <= i < j < |r| ensures r[i] != r[j] {
        if i == 0 { assert r[j] == u[j - 1]; }
        else { assert r[i] == u[i - 1] && r[j] == u[j - 1]; }
      }
    }
  }

  /** Sorting keeps a duplicate-free list duplicate-free. */
  lemma {:induction false} SortByDistinct<T>(s: seq<T>, cmp: (T, T) -> int)
    requires Distinct(s)
    ensures Distinct(SortBy(s, cmp))
  {
    if s != [] {
      var t := s[1..];
      assert Distinct(t);
      SortByDistinct(t, cmp);
      SortByMembers(t, cmp);
      assert s[0] !in t;
      InsertDistinct(s[0], SortBy(t, cmp), cmp);
    }
  }

  // ---------------------------------------------------------------- string order

  /** `a < b ? -1 : a > b ? 1 : 0` on strings, compared code point by code point. */
  function StrCmp(a: string, b: string): int {
    if a == [] && b == [] then 0
    else if a == [] then -1
    else if b == [] then 1
    else if a[0] < b[0] then -1
    else if a[0] > b[0] then 1
    else StrCmp(a[1..], b[1..])
  }

  lemma {:induction false} StrCmpZero(a: string, b: string)
    ensures StrCmp(a, b) == 0 <==> a == b
    ensures StrCmp(a, b) == -StrCmp(b, a)
  {
    if a != [] && b != [] && a[0] == b[0] {
      StrCmpZero(a[1..], b[1..]);
      if a[1..] == b[1..] { assert a == [a[0]] + a[1..]; assert b == [b[0]] + b[1..]; }
    }
  }

  lemma {:induction false} StrCmpTrans(a: string, b: string, c: string)
    requires StrCmp(a, b) <= 0 && StrCmp(b, c) <= 0
    ensures StrCmp(a, c) <= 0
  {
    if a != [] && b != [] && c != [] && a[0] == b[0] && b[0] == c[0] {
      StrCmpTrans(a[1..], b[1..], c[1..]);
    }
  }

  lemma StrCmpTotalPreorder(s: seq<string>)
    ensures TotalPreorder(StrCmp, s)
  {
    forall a, b | a in s && b in s ensures StrCmp(a, b) <= 0 || StrCmp(b, a) <= 0 {
      StrCmpZero(a, b);
    }
    forall a, b, c | a in s && b in s && c in s && StrCmp(a, b) <= 0 && StrCmp(b, c) <= 0
      ensures StrCmp(a, c) <= 0
    {
      StrCmpTrans(a, b, c);
    }
  }

  lemma StrictlySorted(r: seq<string>)
    requires Distinct(r) && SortedBy(r, StrCmp)
    ensures forall i, j :: 0 <= i < j < |r| ==> StrCmp(r[i], r[j]) < 0
  {
    forall i, j | 0 <= i < j < |r| ensures StrCmp(r[i], r[j]) < 0 {
      StrCmpZero(r[i], r[j]);
    }
  }

  /** `[...new Set(s)].sort()`: the distinct strings of `s` ascending. */
  function SortedDistinct(s: seq<string>): (r: seq<string>)
    ensures forall x :: x in r <==> x in s
    ensures Distinct(r)
    ensures forall i, j :: 0 <= i < j < |r| ==> StrCmp(r[i], r[j]) < 0
  {
    var d := Dedup(s);
    var r := SortBy(d, StrCmp);
    SortByMembers(d, StrCmp);
    StrCmpTotalPreorder(d);
    SortBySorted(d, StrCmp);
    SortByDistinct(d, StrCmp);
    StrictlySorted(r);
    r
  }

  // ---------------------------------------------------------------- sums

  /** `[f(0), ..., f(n - 1)]`. */
  function Tabulate<T>(n: nat, f: nat -> T): (r: seq<T>)
    ensures |r| == n
    ensures forall i :: 0 <= i < n ==> r[i] == f(i)
  {
    if n == 0 then [] else Tabulate(n - 1, f) + [f(n - 1)]
  }

  /** `s.reduce((sum, x) => sum + f(x), 0)`. */
  function Sum<T>(s: seq<T>, f: T -> real): real {
    if s == [] then 0.0 else Sum(s[..|s| - 1], f) + f(s[|s| - 1])
  }

  lemma {:induction false} SumAppend<T>(a: seq<T>, b: seq<T>, f: T -> real)
    ensures Sum(a + b, f) == Sum(a, f) + Sum(b, f)
  {
    if b != [] {
      assert (a + b)[..|a + b| - 1] == a + b[..|b| - 1];
      SumAppend(a, b[..|b| - 1], f);
    } else {
      assert a + b == a;
    }
  }

  /** Sums of functions that agree on the elements are equal. */
  lemma {:induction false} SumExt<T>(s: seq<T>, f: T -> real, g: T -> real)
    requires forall i :: 0 <= i < |s| ==> f(s[i]) == g(s[i])
    ensures Sum(s, f) == Sum(s, g)
  {
    if s != [] {
      SumExt(s[..|s| - 1], f, g);
    }
  }
}
