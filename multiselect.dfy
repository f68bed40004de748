/**
 * The multi-select dropdown (src/components/ui/multiselect-dropdown.tsx):
 * the options matching the search box, and the new selection each handler
 * passes to `onSelectionChange`.
 */
module Multiselect {
  import opened JsStrings
  import opened Seqs

  /** The option contains the search term, both lower-cased. */
  function MatchesTerm(term: string): string -> bool {
    option => Includes(Lower(option), Lower(term))
  }

  /** `options.filter(option => option.toLowerCase().includes(searchTerm.toLowerCase()))`. */
  function FilteredOptions(options: seq<string>, term: string): (r: seq<string>)
    ensures IsSubseq(r, options)
  {
    FilterIsSubseq(options, MatchesTerm(term));
    Filter(options, MatchesTerm(term))
  }

  /** An option is listed exactly when it is an option that contains the term, ignoring case. */
  lemma FilteredOptionsIff(options: seq<string>, term: string, option: string)
    ensures option in FilteredOptions(options, term) <==>
      option in options && Includes(Lower(option), Lower(term))
  {
    InFilterIff(options, MatchesTerm(term), option);
  }

  /** An empty search box lists every option, in order. */
  lemma EmptyTermListsAll(options: seq<string>)
    ensures FilteredOptions(options, "") == options
  {
    assert Lower("") == "";
    forall i | 0 <= i < |options| ensures MatchesTerm("")(options[i]) {
      EmptyIncluded(Lower(options[i]));
    }
    FilterAll(options, MatchesTerm(""));
  }

  /** The values other than `value`, as a predicate `filter` can take. */
  function NotEqual(value: string): string -> bool {
    v => v != value
  }

  /** `handleRemoveValue`: `selectedValues.filter(v => v !== valueToRemove)`. */
  function RemoveValue(selected: seq<string>, value: string): (r: seq<string>)
    ensures value !in r
    ensures IsSubseq(r, selected)
  {
    FilterIsSubseq(selected, NotEqual(value));
    Filter(selected, NotEqual(value))
  }

  /** Removing a value drops every copy of it and keeps every copy of the others. */
  lemma RemoveValueCounts(selected: seq<string>, value: string, x: string)
    ensures multiset(RemoveValue(selected, value))[x] == if x == value then 0 else multiset(selected)[x]
  {
    FilterCount(selected, NotEqual(value), x);
  }

  /** Removing a value that is not selected changes nothing. */
  lemma RemoveAbsentValue(selected: seq<string>, value: string)
    requires value !in selected
    ensures RemoveValue(selected, value) == selected
  {
    FilterAll(selected, NotEqual(value));
  }

  /**
   * `handleOptionSelect`: with Ctrl or Meta held the value is toggled (all
   * its copies removed when selected, appended otherwise); a plain click
   * on the one selected value clears the selection, and any other plain
   * click selects that value alone.
   */
  function OptionSelect(selected: seq<string>, value: string, ctrlKey: bool, metaKey: bool): (r: seq<string>)
    ensures (ctrlKey || metaKey) && value in selected ==> r == RemoveValue(selected, value)
    ensures (ctrlKey || metaKey) && value !in selected ==> r == selected + [value]
    ensures !(ctrlKey || metaKey) ==> r == if selected == [value] then [] else [value]
  {
    if ctrlKey || metaKey then
      if value in selected then RemoveValue(selected, value) else selected + [value]
    else if value in selected && |selected| == 1 then []
    else [value]
  }

  /**
   * A modified click flips whether the value is selected and leaves the
   * number of copies of every other value alone.
   */
  lemma ToggleFlipsOnlyValue(selected: seq<string>, value: string, x: string)
    ensures value in OptionSelect(selected, value, true, false) <==> value !in selected
    ensures x != value ==>
      multiset(OptionSelect(selected, value, true, false))[x] == multiset(selected)[x]
  {
    if value in selected {
      RemoveValueCounts(selected, value, x);
    } else {
      assert multiset(selected + [value]) == multiset(selected) + multiset{value};
    }
  }

  /** Two modified clicks on a value that was not selected restore the selection. */
  lemma ToggleTwiceRestores(selected: seq<string>, value: string)
    requires value !in selected
    ensures OptionSelect(OptionSelect(selected, value, true, false), value, true, false) == selected
  {
    var once := selected + [value];
    assert value in once;
    FilterAppend(selected, [value], NotEqual(value));
    FilterAll(selected, NotEqual(value));
    assert Filter([value], NotEqual(value)) == [];
  }

  /** `handleClearAll`. */
  function ClearAll(): (r: seq<string>)
    ensures |r| == 0
  {
    []
  }

  /**
   * `handleSelectAll`: `Array.from(new Set([...selectedValues,
   * ...filteredOptions]))` — no duplicates, and every selected value and
   * every listed option is in it.
   */
  function SelectAll(selected: seq<string>, filtered: seq<string>): (r: seq<string>)
    ensures Distinct(r)
    ensures forall i :: 0 <= i < |filtered| ==> filtered[i] in r
    ensures forall i :: 0 <= i < |selected| ==> selected[i] in r
    ensures forall i :: 0 <= i < |r| ==> r[i] in selected || r[i] in filtered
  {
    var all := selected + filtered;
    assert forall i :: 0 <= i < |filtered| ==> filtered[i] == all[|selected| + i];
    assert forall i :: 0 <= i < |selected| ==> selected[i] == all[i];
    Dedup(all)
  }

  /**
   * Select all keeps the existing selection (without its duplicates) at
   * the front, and what follows are listed options that were not selected.
   */
  lemma {:induction false} SelectAllKeepsSelectionFirst(selected: seq<string>, filtered: seq<string>)
    ensures |Dedup(selected)| <= |SelectAll(selected, filtered)|
    ensures SelectAll(selected, filtered)[..|Dedup(selected)|] == Dedup(selected)
    ensures forall i :: |Dedup(selected)| <= i < |SelectAll(selected, filtered)| ==>
      SelectAll(selected, filtered)[i] in filtered && SelectAll(selected, filtered)[i] !in selected
  {
    var r := SelectAll(selected, filtered);
    var d := Dedup(selected);
    DedupPrefix(selected, filtered);
    forall i | |d| <= i < |r| ensures r[i] in filtered && r[i] !in selected {
      DedupMembers(selected, r[i]);
    }
  }

  /** With a duplicate-free selection, select all starts with exactly that selection. */
  lemma SelectAllOfDistinct(selected: seq<string>, filtered: seq<string>)
    requires Distinct(selected)
    ensures |selected| <= |SelectAll(selected, filtered)|
    ensures SelectAll(selected, filtered)[..|selected|] == selected
  {
    DedupOfDistinct(selected);
    SelectAllKeepsSelectionFirst(selected, filtered);
  }

  /** De-duplicating a list followed by elements it already has gives the list back. */
  lemma {:induction false} DedupAbsorbs<T>(a: seq<T>, b: seq<T>)
    requires Distinct(a)
    requires forall i :: 0 <= i < |b| ==> b[i] in a
    ensures Dedup(a + b) == a
  {
    if b == [] {
      assert a + b == a;
      DedupOfDistinct(a);
    } else {
      var b0 := b[..|b| - 1];
      var x := b[|b| - 1];
      assert forall i :: 0 <= i < |b0| ==> b0[i] == b[i];
      DedupAbsorbs(a, b0);
      assert b == b0 + [x];
      ConcatSnoc(a, b0, x);
      DedupSnoc(a + b0, x);
    }
  }

  /** Pressing select all a second time, with the same options listed, changes nothing. */
  lemma SelectAllIdempotent(selected: seq<string>, filtered: seq<string>)
    ensures SelectAll(SelectAll(selected, filtered), filtered) == SelectAll(selected, filtered)
  {
    DedupAbsorbs(SelectAll(selected, filtered), filtered);
  }
}
