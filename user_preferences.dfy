/**
 * The per-browser view preferences (src/lib/user-preferences.ts): the
 * defaults, the "standard view" first-time users get, and the stored
 * entry that `loadUserPreferences` reads and `saveUserPreferences`
 * rewrites. The entry is a field of `LocalStore`; the clock is a
 * parameter.
 */
module UserPreferences {
  import opened JsStrings
  import opened DateUtils
  import Seqs

  /** `UserPreferences`; `sectionsCollapsed` is an object of flags by section name. */
  datatype Prefs = Prefs(
    zoomLevel: real,
    wideColumns: bool,
    defaultDateFilter: seq<string>,
    sectionsCollapsed: map<string, bool>,
    isFirstTimeUser: bool,
    hasAppliedDefaults: bool,
    lastVisit: string)

  /** `Partial<UserPreferences>`: a field is `None` when the object lacks that key. */
  datatype PartialPrefs = PartialPrefs(
    zoomLevel: Option<real>,
    wideColumns: Option<bool>,
    defaultDateFilter: Option<seq<string>>,
    sectionsCollapsed: Option<map<string, bool>>,
    isFirstTimeUser: Option<bool>,
    hasAppliedDefaults: Option<bool>,
    lastVisit: Option<string>)

  /**
   * What `localStorage.getItem(PREFERENCES_KEY)` holds: nothing (null or
   * ''), text that `JSON.parse` rejects or that parses to `null` (both
   * throw inside the `try`), or an object with some of the fields.
   */
  datatype Stored = Absent | Unreadable | Entry(fields: PartialPrefs)

  const PreferencesKey := "crono-tetris-preferences"

  /** `defaultPreferences`; `lastVisit` is the time the module was loaded. */
  function DefaultPreferences(loadedAt: string): (r: Prefs)
    ensures r.zoomLevel == 1.0 && !r.wideColumns && r.defaultDateFilter == []
    ensures r.sectionsCollapsed == map["filters" := false]
    ensures r.isFirstTimeUser && !r.hasAppliedDefaults && r.lastVisit == loadedAt
  {
    Prefs(1.0, false, [], map["filters" := false], true, false, loadedAt)
  }

  /** Every field of a full preferences object, as a partial one. */
  function Whole(p: Prefs): PartialPrefs {
    PartialPrefs(Some(p.zoomLevel), Some(p.wideColumns), Some(p.defaultDateFilter),
      Some(p.sectionsCollapsed), Some(p.isFirstTimeUser), Some(p.hasAppliedDefaults), Some(p.lastVisit))
  }

  function OrElse<T>(o: Option<T>, d: T): T {
    if o.Some? then o.value else d
  }

  /**
   * `{ ...base, ...over, sectionsCollapsed: { ...base.sectionsCollapsed,
   * ...over.sectionsCollapsed } }`: a field present in `over` wins, and
   * the sections are merged name by name.
   */
  function Overlay(base: Prefs, over: PartialPrefs): (r: Prefs)
    ensures over.zoomLevel.None? ==> r.zoomLevel == base.zoomLevel
    ensures over.wideColumns.None? ==> r.wideColumns == base.wideColumns
    ensures over.defaultDateFilter.None? ==> r.defaultDateFilter == base.defaultDateFilter
    ensures over.isFirstTimeUser.None? ==> r.isFirstTimeUser == base.isFirstTimeUser
    ensures over.hasAppliedDefaults.None? ==> r.hasAppliedDefaults == base.hasAppliedDefaults
    ensures over.lastVisit.None? ==> r.lastVisit == base.lastVisit
    ensures over.zoomLevel.Some? ==> r.zoomLevel == over.zoomLevel.value
    ensures over.wideColumns.Some? ==> r.wideColumns == over.wideColumns.value
    ensures over.defaultDateFilter.Some? ==> r.defaultDateFilter == over.defaultDateFilter.value
    ensures over.isFirstTimeUser.Some? ==> r.isFirstTimeUser == over.isFirstTimeUser.value
    ensures over.hasAppliedDefaults.Some? ==> r.hasAppliedDefaults == over.hasAppliedDefaults.value
    ensures over.lastVisit.Some? ==> r.lastVisit == over.lastVisit.value
    ensures forall s :: s in r.sectionsCollapsed <==>
      s in base.sectionsCollapsed || (over.sectionsCollapsed.Some? && s in over.sectionsCollapsed.value)
    ensures forall s :: s in r.sectionsCollapsed ==>
      (r.sectionsCollapsed[s] ==
        if over.sectionsCollapsed.Some? && s in over.sectionsCollapsed.value then over.sectionsCollapsed.value[s]
        else base.sectionsCollapsed[s])
  {
    Prefs(
      OrElse(over.zoomLevel, base.zoomLevel),
      OrElse(over.wideColumns, base.wideColumns),
      OrElse(over.defaultDateFilter, base.defaultDateFilter),
      base.sectionsCollapsed + OrElse(over.sectionsCollapsed, map[]),
      OrElse(over.isFirstTimeUser, base.isFirstTimeUser),
      OrElse(over.hasAppliedDefaults, base.hasAppliedDefaults),
      OrElse(over.lastVisit, base.lastVisit))
  }

  /**
   * `loadUserPreferences`: the defaults outside a browser and for a
   * missing or unreadable entry, else the stored fields over the defaults.
   */
  function LoadPrefs(inBrowser: bool, defaults: Prefs, stored: Stored): (r: Prefs)
    ensures !inBrowser || !stored.Entry? ==> r == defaults
    ensures inBrowser && stored.Entry? ==> r == Overlay(defaults, stored.fields)
  {
    if !inBrowser then defaults
    else match stored
      case Absent => defaults
      case Unreadable => defaults
      case Entry(fields) => Overlay(defaults, fields)
  }

  /** A loaded value has a flag for every section the defaults name. */
  lemma LoadedKeepsDefaultSections(inBrowser: bool, defaults: Prefs, stored: Stored, s: string)
    requires s in defaults.sectionsCollapsed
    ensures s in LoadPrefs(inBrowser, defaults, stored).sectionsCollapsed
  {
  }

  /** The object `saveUserPreferences` writes: the update over the current value, with a new `lastVisit`. */
  function Saved(current: Prefs, update: PartialPrefs, now: string): (r: Prefs)
    ensures r.lastVisit == now
    ensures r.sectionsCollapsed.Keys >= current.sectionsCollapsed.Keys
  {
    Overlay(current, update).(lastVisit := now)
  }

  /**
   * Saving changes exactly the fields the update names, plus `lastVisit`;
   * a section flag changes only when the update names that section.
   */
  lemma SavedChangesOnlyUpdatedFields(current: Prefs, update: PartialPrefs, now: string)
    ensures var r := Saved(current, update, now);
      (update.zoomLevel.None? ==> r.zoomLevel == current.zoomLevel)
      && (update.wideColumns.None? ==> r.wideColumns == current.wideColumns)
      && (update.defaultDateFilter.None? ==> r.defaultDateFilter == current.defaultDateFilter)
      && (update.isFirstTimeUser.None? ==> r.isFirstTimeUser == current.isFirstTimeUser)
      && (update.hasAppliedDefaults.None? ==> r.hasAppliedDefaults == current.hasAppliedDefaults)
      && (forall s ::
            (s in current.sectionsCollapsed && (update.sectionsCollapsed.None? || s !in update.sectionsCollapsed.value)) ==>
            r.sectionsCollapsed[s] == current.sectionsCollapsed[s])
  {
    var o := Overlay(current, update);
    assert Saved(current, update, now) == o.(lastVisit := now);
  }

  /**
   * Reading back what was saved gives exactly the saved object, provided
   * the current value had every default section (a loaded value always
   * has them).
   */
  lemma LoadAfterSave(defaults: Prefs, current: Prefs, update: PartialPrefs, now: string)
    requires defaults.sectionsCollapsed.Keys <= current.sectionsCollapsed.Keys
    ensures LoadPrefs(true, defaults, Entry(Whole(Saved(current, update, now)))) == Saved(current, update, now)
  {
    var p := Saved(current, update, now);
    var r := LoadPrefs(true, defaults, Entry(Whole(p)));
    assert r.sectionsCollapsed == p.sectionsCollapsed;
  }

  /** `isFirstTimeUser` and not `hasAppliedDefaults`, of a loaded value. */
  predicate StandardViewPending(p: Prefs) {
    p.isFirstTimeUser && !p.hasAppliedDefaults
  }

  /** On a fresh browser (nothing stored) the standard view is due. */
  lemma StandardViewDueOnEmptyStore(inBrowser: bool, loadedAt: string, stored: Stored)
    requires !stored.Entry?
    ensures StandardViewPending(LoadPrefs(inBrowser, DefaultPreferences(loadedAt), stored))
  {
  }

  /** The update `markStandardViewApplied` saves. */
  const AppliedUpdate := PartialPrefs(None, None, None, None, Some(false), Some(true), None)

  /** Once the applied flags are saved the standard view is no longer due. */
  lemma NotDueAfterMarking(defaults: Prefs, current: Prefs, now: string)
    requires defaults.sectionsCollapsed.Keys <= current.sectionsCollapsed.Keys
    ensures !StandardViewPending(LoadPrefs(true, defaults, Entry(Whole(Saved(current, AppliedUpdate, now)))))
  {
    LoadAfterSave(defaults, current, AppliedUpdate, now);
  }

  // ---------------------------------------------------------------- default month filter

  /**
   * `generateDefaultDateFilter`: the current month and the three after
   * it. `now` is the current local month (month index 0..11).
   */
  method GenerateDefaultDateFilter(now: YearMonth) returns (dates: seq<string>)
    requires 0 <= now.month < 12
    ensures |dates| == 4
    ensures forall i :: 0 <= i < 4 ==> dates[i] == MonthAfter(now, i)
    ensures now.year >= 100 ==> dates[0] == YearMonthKey(now)
  {
    dates := [];
    for i := 0 to 4
      invariant dates == Seqs.Tabulate(i, MonthsAfter(now))
    {
      var futureDate := ShiftMonth(now, i);
      var monthStr := YearMonthKey(futureDate);
      MonthsAfterSnoc(now, i);
      dates := dates + [monthStr];
    }
    if now.year >= 100 {
      MonthAfterZero(now);
    }
  }

  /**
   * The four months are consecutive: each is the month after the one
   * before it, December rolling over into January of the next year.
   */
  lemma DefaultMonthsConsecutive(now: YearMonth, i: nat)
    requires 0 <= now.month < 12 && now.year >= 100 && i < 3
    ensures var a, b := ShiftMonth(now, i), ShiftMonth(now, i + 1);
      MonthAfter(now, i) == YearMonthKey(a) && MonthAfter(now, i + 1) == YearMonthKey(b)
      && (if a.month == 11 then b == YearMonth(a.year + 1, 0) else b == YearMonth(a.year, a.month + 1))
  {
    ShiftMonthNext(now, i);
  }

  /**
   * `getStandardViewDefaults`: 80% zoom, wide columns, the filters
   * collapsed, the default month filter, and the first-visit flags set
   * to "applied".
   */
  method GetStandardViewDefaults(now: YearMonth) returns (p: PartialPrefs)
    requires 0 <= now.month < 12
    ensures p.zoomLevel == Some(0.8) && p.wideColumns == Some(true)
    ensures p.sectionsCollapsed == Some(map["filters" := true])
    ensures p.hasAppliedDefaults == Some(true) && p.isFirstTimeUser == Some(false)
    ensures p.lastVisit.None?
    ensures p.defaultDateFilter.Some? && |p.defaultDateFilter.value| == 4
    ensures forall i :: 0 <= i < 4 ==> p.defaultDateFilter.value[i] == MonthAfter(now, i)
  {
    var dates := GenerateDefaultDateFilter(now);
    p := PartialPrefs(Some(0.8), Some(true), Some(dates), Some(map["filters" := true]), Some(false), Some(true), None);
  }

  /** Saving the standard view also marks it as applied. */
  lemma StandardViewNotDueAfterSaving(defaults: Prefs, current: Prefs, view: PartialPrefs, now: string)
    requires defaults.sectionsCollapsed.Keys <= current.sectionsCollapsed.Keys
    requires view.hasAppliedDefaults == Some(true)
    ensures !StandardViewPending(LoadPrefs(true, defaults, Entry(Whole(Saved(current, view, now)))))
  {
    LoadAfterSave(defaults, current, view, now);
  }

  // ---------------------------------------------------------------- the stored entry

  /** `localStorage` under `PREFERENCES_KEY`, in a browser or (`!inBrowser`) on the server. */
  class LocalStore {
    const inBrowser: bool
    const defaults: Prefs
    var entry: Stored

    constructor(inBrowser: bool, loadedAt: string, entry: Stored)
      ensures this.inBrowser == inBrowser && defaults == DefaultPreferences(loadedAt) && this.entry == entry
    {
      this.inBrowser := inBrowser;
      defaults := DefaultPreferences(loadedAt);
      this.entry := entry;
    }

    /** `loadUserPreferences()`. */
    function Load(): (r: Prefs)
      reads this
      ensures !inBrowser || !entry.Entry? ==> r == defaults
      ensures inBrowser && entry.Entry? ==> r == Overlay(defaults, entry.fields)
      ensures forall s :: s in defaults.sectionsCollapsed ==> s in r.sectionsCollapsed
    {
      LoadPrefs(inBrowser, defaults, entry)
    }

    /**
     * `saveUserPreferences(update)`: in a browser whose storage accepts
     * the write (`writeFails` is a `setItem` that throws), the entry
     * becomes the update over what was loaded, with `lastVisit` = `now`.
     */
    method Save(update: PartialPrefs, now: string, writeFails: bool)
      modifies this
      ensures entry == if inBrowser && !writeFails then Entry(Whole(Saved(old(Load()), update, now))) else old(entry)
      ensures inBrowser && !writeFails ==> Load() == Saved(old(Load()), update, now)
    {
      if inBrowser {
        var current := LoadPrefs(inBrowser, defaults, entry);
        var updated := Saved(current, update, now);
        if !writeFails {
          forall s | s in defaults.sectionsCollapsed ensures s in current.sectionsCollapsed {
            LoadedKeepsDefaultSections(inBrowser, defaults, entry, s);
          }
          LoadAfterSave(defaults, current, update, now);
          entry := Entry(Whole(updated));
        }
      }
    }

    /** `isFirstTimeUser()`: the flag of what is loaded. */
    method IsFirstTimeUser() returns (b: bool)
      ensures b == Load().isFirstTimeUser
    {
      var preferences := LoadPrefs(inBrowser, defaults, entry);
      b := preferences.isFirstTimeUser;
    }

    /** `shouldApplyStandardView()`. */
    method ShouldApplyStandardView() returns (b: bool)
      ensures b <==> StandardViewPending(Load())
    {
      var preferences := LoadPrefs(inBrowser, defaults, entry);
      b := preferences.isFirstTimeUser && !preferences.hasAppliedDefaults;
    }

    /** `markStandardViewApplied()`: the standard view is no longer due once the write succeeds. */
    method MarkStandardViewApplied(now: string, writeFails: bool)
      modifies this
      ensures entry == if inBrowser && !writeFails then Entry(Whole(Saved(old(Load()), AppliedUpdate, now))) else old(entry)
      ensures inBrowser && !writeFails ==> !StandardViewPending(Load())
    {
      Save(AppliedUpdate, now, writeFails);
    }
  }
}
