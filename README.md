# crono-tetris deal pipeline, modelled in Dafny

The application is a kanban board for the deals of a fund-distribution
desk. Each deal is a row of the `deals` table: a fund, its vehicle, sector,
product and indexer tags, a window date, offer amounts and internal
approvals. The board splits the deals into a backlog strip and a grid of
(group × month) cells. Dragging a card turns into a field update or into a
renumbering of the backlog. A search box and nine multi-select filters
narrow what is shown. Forms and dialogs create, edit and delete deals, and
every edit writes an audit trail. A route guard keeps signed-out visitors
on the login page, and a reset page changes a user's password.

This project models that logic and proves its properties. It has a
module for each source file (the backlog strip and its cards share
`Backlog`), `DealLists` for the list updates the store and the board share,
and four modules for the JavaScript and the record the code leans on:

- `JsValues`: values, truthiness, `||`, object spread, `String(v)`;
- `JsStrings`: `trim`, case mapping, `indexOf`, `split`, `startsWith`,
  decimal rendering;
- `Seqs`: `filter`, `new Set(...)` de-duplication, a stable `sort`, `reduce`
  sums;
- `DealModel`: the deal record.

A deal is a `map<string, Value>` keyed by column name, because the code
reads and writes deals generically: spreads, `Object.keys`, `deal[groupBy]`.
`DealModel.WellTyped` states which values each column may hold.

The code's own form is kept:

- pure helpers are functions with lemmas;
- the forms, dialogs, the deal store, the board and the preference store
  are classes whose methods update their fields;
- the loops, such as the highlighter, the grid grouping, the audit diff and
  the comparator sort, are methods with loop invariants, each proved
  against a specification function.

Everything outside the process is a parameter:

- every answer of the hosted database and auth service (`Reply`,
  `Awaited` and the per-dialog reply types);
- the date library (`DateUtils.Calendar`);
- the clock;
- the browser's `localStorage` entry.

## Model

| member | source | states |
|---|---|---|
| `DateUtils.SafeParseISO` | src/lib/date-utils.ts:9-36 | null, undefined, non-strings and '' give no date; a string failing the anchored `YYYY-MM-DD` test gives no date without being parsed; any other string gives what the date library parses, nothing when that is invalid |
| `DateUtils.IsoPrefixIgnoresSuffix` | src/lib/date-utils.ts:16-17 | the pre-check is anchored only at the start: a passing string keeps passing whatever is appended to it |
| `DateUtils.RejectedWithoutParsing` | src/lib/date-utils.ts:17-20 | a string failing the pre-check is rejected whatever the date library would make of it |
| `DateUtils.IsValidDateString` | src/lib/date-utils.ts:63-65 | valid exactly when the value is a string passing the pre-check that the library parses to a valid date |
| `DateUtils.SafeFormatMonthYear` | src/lib/date-utils.ts:43-56 | 'Sem Data' when parsing fails, otherwise the 'MMM-yyyy' label of the parsed instant |
| `DateUtils.YearMonthKey` | src/lib/user-preferences.ts:44 | the key has at least four characters, the third from the end being the dash before the two-character month |
| `DateUtils.FormatInvalidIsSemData` | src/lib/date-utils.ts:44-48 | every value `isValidDateString` rejects is labelled 'Sem Data' |
| `DateUtils.YearMonthKeyShape` | src/components/filters/FilterControls.tsx:58 | the 'YYYY-MM' key of a four-digit year has seven characters: four digits, a dash, two digits |
| `DateUtils.KeyIsYearDashMonth` | src/lib/user-preferences.ts:44 | the key of a non-negative year is the year's digits, a dash and the month number padded to two digits |
| `DateUtils.YearMonthKeySplit` | src/components/kanban/SimplifiedKanbanGrid.tsx:127 | split at '-', the key of a non-negative year gives exactly the year's digits and the padded month number |
| `DateUtils.ShiftMonth` | src/lib/user-preferences.ts:43 | `new Date(y, m + i, 1)` lands on a month index 0..11 exactly `i` months after (y, m), two-digit years read as 19xx |
| `DateUtils.ShiftMonthNext` | src/components/filters/FilterControls.tsx:56-57 | shifting by `i + 1` gives the month after shifting by `i`; December rolls over into January of the next year |
| `DateUtils.MonthAfterZero` | src/lib/user-preferences.ts:42-44 | for years of three or more digits, the month zero months ahead is the current month |
| `UserPreferences.DefaultPreferences` | src/lib/user-preferences.ts:25-35 | zoom 1.0, narrow columns, no month filter, the filters section open, a first-time user with no defaults applied, last visit the load time |
| `UserPreferences.Overlay` | src/lib/user-preferences.ts:78-85 | each field the stored object has replaces the default; the sections are the union of both maps, the stored value winning on a shared key |
| `UserPreferences.LoadPrefs` | src/lib/user-preferences.ts:64-90 | the defaults on the server or with nothing stored; otherwise the stored entry laid over the defaults |
| `UserPreferences.LoadedKeepsDefaultSections` | src/lib/user-preferences.ts:81-84 | a section the defaults name is always present in what is loaded |
| `UserPreferences.Saved` | src/lib/user-preferences.ts:99-107 | the saved object's last visit is the save time and it keeps every section the current one has |
| `UserPreferences.SavedChangesOnlyUpdatedFields` | src/lib/user-preferences.ts:99-107 | a field the update leaves out keeps its current value, including each section the update does not name |
| `UserPreferences.LoadAfterSave` | src/lib/user-preferences.ts:64-113 | loading right after a save gives back exactly what was saved |
| `UserPreferences.StandardViewDueOnEmptyStore` | src/lib/user-preferences.ts:120-123 | with nothing stored, the standard view is due |
| `UserPreferences.NotDueAfterMarking` | src/lib/user-preferences.ts:125-130 | once the applied flags are saved and loaded back, the standard view is no longer due |
| `UserPreferences.GenerateDefaultDateFilter` | src/lib/user-preferences.ts:38-49 | four keys, the `i`-th being the month `i` months after the current one; the first is the current month |
| `UserPreferences.DefaultMonthsConsecutive` | src/lib/user-preferences.ts:42-46 | the four months are consecutive calendar months |
| `UserPreferences.GetStandardViewDefaults` | src/lib/user-preferences.ts:51-62 | 80% zoom, wide columns, the filters collapsed, the four default months, the applied flags set, no last visit |
| `UserPreferences.StandardViewNotDueAfterSaving` | src/lib/user-preferences.ts:51-62 | saving a view that sets the applied flag leaves the standard view no longer due |
| `UserPreferences.LocalStore.Load` | src/lib/user-preferences.ts:64-90 | the defaults outside a browser or with no readable entry, else the entry over the defaults; every default section keeps a flag |
| `UserPreferences.LocalStore.Save` | src/lib/user-preferences.ts:92-113 | with a browser and a successful write the entry becomes the update (with the new last visit) laid over what was loaded, and loading gives it back; otherwise the entry is untouched |
| `UserPreferences.LocalStore.IsFirstTimeUser` | src/lib/user-preferences.ts:115-118 | the first-time flag of what is loaded |
| `UserPreferences.LocalStore.ShouldApplyStandardView` | src/lib/user-preferences.ts:120-123 | true exactly when the loaded preferences are a first-time user's with no defaults applied |
| `UserPreferences.LocalStore.MarkStandardViewApplied` | src/lib/user-preferences.ts:125-130 | after a successful write the standard view is no longer due |
| `Formatting.CentsExact` | src/lib/formatting.ts:10 | `toFixed(2)` rounds a value with at most two decimals to exactly its own hundredths |
| `Formatting.GroupThousandsDigits` | src/lib/formatting.ts:15 | inserting the thousands separators and removing every comma again gives back the digits |
| `Formatting.GroupThousandsGrouped` | src/lib/formatting.ts:15 | the separated integer part is a group of one to three digits followed by comma-led groups of exactly three |
| `Formatting.FormatNumberForDisplay` | src/lib/formatting.ts:6-7 | null and undefined display as '' |
| `Formatting.FixedParts` | src/lib/formatting.ts:10-12 | splitting `toFixed(2)` at '.' gives the sign and whole part, and two decimal digits |
| `Formatting.FormatNumberShape` | src/lib/formatting.ts:6-19 | the display is the sign, the comma-grouped whole part, a point and two digits; without its commas it is `toFixed(2)` |
| `Formatting.DisplayParts` | src/lib/formatting.ts:10-18 | the display is the sign, then the grouped whole part, '.', and the two decimal digits |
| `Formatting.SignedSeparators` | src/lib/formatting.ts:15 | a leading minus sign is never followed by a separator: the boundary test sees it as a non-word character |
| `Formatting.ParseFormattedNumber` | src/lib/formatting.ts:25-33 | '' gives 0, and so does a string that is not a number once its commas are removed |
| `Formatting.ParseFloatToFixed` | src/lib/formatting.ts:29-30 | `parseFloat` reads `toFixed(2)` of a two-decimal value back as that value |
| `Formatting.ParseFormatRoundTrip` | src/lib/formatting.ts:6-33 | parsing the display of a value with at most two decimals gives the value back |
| `Formatting.FormatCurrencyForInput` | src/lib/formatting.ts:38-41 | '' for null or undefined; otherwise the display, which without commas is `toFixed(2)` |
| `Formatting.FormatPercentageForInput` | src/lib/formatting.ts:46-49 | '' for null or undefined; otherwise a string `parseFloat` reads as the value rounded to hundredths |
| `Formatting.ToFixedParsesToCents` | src/lib/formatting.ts:48 | `parseFloat(x.toFixed(2))` is `x` rounded half away from zero to hundredths |
| `Formatting.KeepNumericChars` | src/lib/formatting.ts:59 | only digits, '.', ',' and '-' remain, and a string of those alone is kept whole |
| `Formatting.HandleNumericInput` | src/lib/formatting.ts:54-74 | a cleaned '' or '-' is shown as it is with value 0; otherwise the value is the cleaned text parsed and the display is that value formatted (as a percentage or a number) |
| `Formatting.DisplayIsStable` | src/lib/formatting.ts:54-74 | typing back a value's own display leaves the display unchanged and yields the same value |
| `Formatting.IndexOfName` | src/lib/formatting.ts:103-104 | `indexOf`: -1 exactly when the name is absent, otherwise the first position holding it |
| `Formatting.ParseMonthYear` | src/lib/formatting.ts:94-110 | no date unless there are exactly two dash-separated parts, a known month name and an integer year; otherwise day 15 of that month of that year, two-digit years read as 19xx |
| `Formatting.MonthNamesDistinct` | src/lib/formatting.ts:80-83 | the twelve month names are distinct |
| `Formatting.ParseFormattedMonth` | src/lib/formatting.ts:79-110 | parsing the label of a month of a non-negative year gives day 15 of that month |
| `Formatting.FormatMonthYear` | src/lib/formatting.ts:79-88 | the label starts with the month's abbreviation followed by a dash |
| `Formatting.MonthYearRoundTrip` | src/lib/formatting.ts:79-110 | for years of three or more digits, `parseMonthYear(formatMonthYear(d))` is the 15th of `d`'s month |
| `Formatting.TwoDigitYearShifts` | src/lib/formatting.ts:109 | a label with a year 0..99 is read back as 1900 + year |
| `Formatting.NegativeYearUnreadable` | src/lib/formatting.ts:88-96 | the label of a negative year has three dash-separated parts and is not read back at all |
| `Search.ToSearchableString` | src/lib/search.ts:19-25 | null and undefined become '', strings are lower-cased, numbers rendered as by `toString` |
| `Search.BlankIffWhitespace` | src/lib/search.ts:11 | a term counts as blank exactly when it is empty or all whitespace |
| `Search.SearchDeals` | src/lib/search.ts:10-89 | a blank term returns the deals unchanged; otherwise the result keeps the input order, holds only deals with a listed field containing the lower-cased trimmed term, and every copy of every such deal |
| `Search.HighlightAsWritten` | src/lib/search.ts:97-138 | as written: a missing term or text gives the text as one plain part; otherwise (for a term that does not trim to nothing) the parts spell the text, the highlighted ones exactly the case-insensitive matches, taken left to right without overlap |
| `Search.SplitAtMatches` | src/lib/search.ts:103-137 | the loop's parts concatenate to the text, each highlighted part matches the term at its offset, no plain part holds a match start, and no two plain parts are adjacent |
| `Search.BlankTermStalls` | src/lib/search.ts:100-134 | with a term that trims to '', `indexOf` finds it at the current index and the index does not advance: the loop never ends |
| `Search.GetHighlightedTextParts` | src/lib/search.ts:97-138 | corrected: a term that trims to '' is treated like a missing one (one plain part); every other term is highlighted as above |
| `Search.PassesFiltersByKey` | src/lib/search.ts:146-225 | a deal passes exactly when its month passes the month filter and, for each list filter, the list is empty or holds the deal's (truthy) column value |
| `Search.FilterDeals` | src/lib/search.ts:146-225 | the result keeps the input order, holds only deals passing every filter, and every copy of every deal that does |
| `Search.ClearedKeepsAll` | src/lib/search.ts:146-225 | with every list empty, no deal is filtered out |
| `Search.UndatedPassMonthFilter` | src/lib/search.ts:148-165 | a deal without a window date passes any month filter, so it still reaches the backlog |
| `Search.TipoAndTipoCotaCommute` | src/lib/search.ts:202-214 | the 'tipo' and 'tipoCota' lists both test `tipo_cota`, so swapping them changes nothing |
| `Search.OptionsMatchFilters` | src/lib/search.ts:167-221 | each value a dropdown offers is the column the filter tests, and selecting it alone in that filter's list keeps at least one deal as far as that list test is concerned (the other lists and the month filter are not considered) |
| `Search.SearchAndFilterDeals` | src/lib/search.ts:234-242 | the result keeps the input order and holds exactly the deals that pass the filters and match the term |
| `Search.SearchFilterCommute` | src/lib/search.ts:234-242 | filtering then searching gives the same list as searching then filtering |
| `FilterControls.UpdateKey` | src/components/filters/FilterControls.tsx:184-189 | `{ ...filters, [key]: values }`: that key's list becomes the selection and every other list is unchanged |
| `FilterControls.NoActiveFilters` | src/components/filters/FilterControls.tsx:83-85 | the total is 0 exactly when every list is empty |
| `FilterControls.TotalActiveFilters` | src/components/filters/FilterControls.tsx:83-85 | the count is at least the length of every key's list |
| `FilterControls.UpdateCount` | src/components/filters/FilterControls.tsx:83-85 | replacing one key's list changes the total by the difference of the two lists' lengths |
| `FilterControls.ClearedHasNoActiveFilters` | src/components/filters/FilterControls.tsx:69-81 | after `clearAllFilters` the count is 0, so neither the badge nor the clear button shows |
| `FilterControls.UniqueValues` | src/components/filters/FilterControls.tsx:28-35 | the options are exactly the non-empty string values the column takes over the deals, each once, in ascending code-unit order |
| `FilterControls.DealMonths` | src/components/filters/FilterControls.tsx:40-51 | exactly the month keys of the deals with a window date, at most one per deal |
| `FilterControls.FutureMonths` | src/components/filters/FilterControls.tsx:54-60 | thirteen keys, the `i`-th being the month `i` months after the current one |
| `FilterControls.UniqueMonths` | src/components/filters/FilterControls.tsx:38-66 | exactly the deals' months and the thirteen coming months, each once, in ascending order |
| `FilterControls.KeyOrderIsChronological` | src/components/filters/FilterControls.tsx:65 | for four-digit years, sorting the keys as strings sorts the months chronologically |
| `FilterControls.MonthLabelOfKey` | src/components/filters/FilterControls.tsx:92-97 | the label of a month's own key is its short name, a space and its year |
| `FilterControls.MonthLabel` | src/components/filters/FilterControls.tsx:92-97 | a label is a month abbreviation or 'undefined', a space, and the value's part before the first dash |
| `FilterControls.MonthNameOf` | src/components/filters/FilterControls.tsx:94-96 | the month shown is one of the twelve abbreviations or 'undefined' |
| `FilterControls.UnreadableMonthLabel` | src/components/filters/FilterControls.tsx:93-96 | a month part that is not a number is shown as 'undefined' before the year |
| `FilterControls.MonthLabelOfDashed` | src/components/filters/FilterControls.tsx:93-96 | a key with one dash is labelled by the name of the month its second part gives, then its first part |
| `Multiselect.FilteredOptions` | src/components/ui/multiselect-dropdown.tsx:32-34 | the listed options keep the options' order |
| `Multiselect.FilteredOptionsIff` | src/components/ui/multiselect-dropdown.tsx:32-34 | an option is listed exactly when its lower-cased text contains the lower-cased search term |
| `Multiselect.EmptyTermListsAll` | src/components/ui/multiselect-dropdown.tsx:32-34 | with no search term every option is listed |
| `Multiselect.RemoveValue` | src/components/ui/multiselect-dropdown.tsx:58-60 | the removed value no longer occurs, and the rest keep their order |
| `Multiselect.RemoveValueCounts` | src/components/ui/multiselect-dropdown.tsx:58-60 | every occurrence of the value goes, and every other value keeps its number of occurrences |
| `Multiselect.RemoveAbsentValue` | src/components/ui/multiselect-dropdown.tsx:43 | removing a value that is not selected changes nothing |
| `Multiselect.OptionSelect` | src/components/ui/multiselect-dropdown.tsx:37-55 | a Ctrl or Meta click removes a selected value and appends an unselected one; a plain click on the only selected value clears the selection and otherwise selects that value alone |
| `Multiselect.ToggleFlipsOnlyValue` | src/components/ui/multiselect-dropdown.tsx:40-46 | a Ctrl click flips whether the value is selected and leaves every other value's occurrences alone |
| `Multiselect.ToggleTwiceRestores` | src/components/ui/multiselect-dropdown.tsx:40-46 | two Ctrl clicks on an unselected value give back the selection |
| `Multiselect.ClearAll` | src/components/ui/multiselect-dropdown.tsx:63-65 | clearing leaves nothing selected |
| `Multiselect.SelectAll` | src/components/ui/multiselect-dropdown.tsx:68-71 | no repeats; every selected and every listed value, and nothing else |
| `Multiselect.SelectAllKeepsSelectionFirst` | src/components/ui/multiselect-dropdown.tsx:69 | the selection (without repeats) comes first, in its order, followed only by listed values not yet selected |
| `Multiselect.SelectAllOfDistinct` | src/components/ui/multiselect-dropdown.tsx:69 | a selection without repeats is kept intact as the prefix |
| `Multiselect.SelectAllIdempotent` | src/components/ui/multiselect-dropdown.tsx:68-71 | pressing select all twice with the same options listed gives the same selection as once |
| `Colors.FirstIndex` | src/lib/colors.ts:85 | the first position of the key among a table's keys, -1 exactly when it is not one |
| `Colors.Lookup` | src/lib/colors.ts:85 | `TABLE[key]`: nothing for a key the table lacks, otherwise the colour declared for it |
| `Colors.ColorFor` | src/lib/colors.ts:75-113 | the table's colour for a known key; otherwise grey, captioned with the key, or 'Outros' when the key is '' |
| `Colors.VehicleColor` | src/lib/colors.ts:84-86 | a listed vehicle gets its own colour; any other gets grey captioned with itself, or 'Outros' for '' |
| `Colors.IndexerColor` | src/lib/colors.ts:91-93 | a listed indexer gets its own colour; any other gets grey captioned with itself, or 'Outros' for '' |
| `Colors.SectorColor` | src/lib/colors.ts:98-100 | a listed sector gets its own colour; any other gets grey captioned with itself, or 'Outros' for '' |
| `Colors.ProductColor` | src/lib/colors.ts:105-107 | a listed product gets its own colour; any other gets grey captioned with itself, or 'Outros' for '' |
| `Colors.TipoColor` | src/lib/colors.ts:112-114 | a listed share class gets its own colour; any other gets grey captioned with itself, or 'Outros' for '' |
| `Colors.AvailableVehicles` | src/lib/colors.ts:119-121 | the listed vehicles are exactly the keys that have a colour, each listed once |
| `Colors.AvailableIndexers` | src/lib/colors.ts:126-128 | the listed indexers are exactly the keys that have a colour, each listed once |
| `Colors.AvailableSectors` | src/lib/colors.ts:133-135 | the listed sectors are exactly the keys that have a colour, each listed once |
| `Colors.AvailableProducts` | src/lib/colors.ts:140-142 | the listed products are exactly the keys that have a colour, each listed once |
| `Colors.AvailableTipos` | src/lib/colors.ts:147-149 | the listed share classes are exactly the keys that have a colour, each listed once |
| `Colors.OutrosIsUnknown` | src/lib/colors.ts:75-113 | 'Outros' is in no table, so in every table it is grey and captioned 'Outros' |
| `Colors.TipoCaptions` | src/lib/colors.ts:65-73 | the classes A, B and C are captioned 'Tipo A', 'Tipo B' and 'Tipo C', not with their key |
| `DatabaseEnums.OptionListsDistinct` | src/lib/database-enums.ts:7-73 | each of the eleven option lists names each of its values once |
| `DatabaseEnums.DashedVehicles` | src/lib/database-enums.ts:13-22 | exactly three vehicle options hold a dash: 'FI-Agro', 'FI-Infra' and 'FIP-IE' |
| `DatabaseEnums.ApprovalLabel` | src/lib/database-enums.ts:89-93 | 'S' is 'Sim', 'N' is 'Não', anything else (null included) 'Pendente' |
| `DatabaseEnums.ApprovalLabelInjective` | src/lib/database-enums.ts:89-93 | two values with the same label agree on being 'S' and on being 'N' |
| `DatabaseEnums.ApprovalOptionsLabelled` | src/lib/database-enums.ts:70 | of the approval options only 'TBD' is labelled 'Pendente' |
| `StatusDropdown.ParseStatus` | src/components/ui/status-dropdown.tsx:14 | a recognised status string is the name of the status it gives |
| `StatusDropdown.ParseStatusName` | src/components/ui/status-dropdown.tsx:14 | every status's name is recognised as that status |
| `StatusDropdown.StatusName` | src/components/ui/status-dropdown.tsx:14 | every status is stored as one of the database's status options |
| `StatusDropdown.StatusConfig` | src/components/ui/status-dropdown.tsx:22-53 | every status but the pre-reading one is captioned with its own name; each colour is a text class and each background a bg class |
| `StatusDropdown.CurrentStatus` | src/components/ui/status-dropdown.tsx:56 | null or '' shows as 'Ativa', any other value as itself |
| `StatusDropdown.BadgeConfig` | src/components/ui/status-dropdown.tsx:56-57 | the badge of a known status is that status's; of anything else the badge of 'Ativa' |
| `StatusDropdown.UnknownShownActive` | src/components/ui/status-dropdown.tsx:56-57 | a missing, empty or unknown status is shown with the 'Ativa' badge |
| `StatusDropdown.MenuListsEveryStatusOnce` | src/components/ui/status-dropdown.tsx:80-90 | the menu lists every status, each once |
| `StatusDropdown.MenuMatchesDatabaseOptions` | src/components/ui/status-dropdown.tsx:22-53 | the menu's statuses are exactly the database's status options |
| `StatusDropdown.MenuIndex` | src/components/ui/status-dropdown.tsx:80-81 | each status has a place in the menu |
| `StatusDropdown.Select` | src/components/ui/status-dropdown.tsx:62 | the value handed to `onChange` is read back as the chosen status |
| `Auth.OrElse` | src/lib/auth.ts:19 | the fallback on an optional string: `a` when it is there and not '', otherwise `b` |
| `Auth.LocalPart` | src/lib/auth.ts:19 | `email.split('@')[0]` is a prefix of the email without any '@' |
| `Auth.MapSupabaseUser` | src/lib/auth.ts:15-25 | id, creation and last sign-in copied; email or ''; name the full name, else the name, else the email's local part; avatar copied; role the metadata role or 'user' |
| `Auth.NameOf` | src/lib/auth.ts:230-232 | an app user always has a name, its local part when the name is missing; a service user has none exactly when full name, name and email are all missing |
| `Auth.FirstChar` | src/lib/auth.ts:238 | `w[0]` in a template literal: the first character, or 'undefined' for an empty word |
| `Auth.UserInitialsAsWritten` | src/lib/auth.ts:229-241 | as written: '??' without a name, otherwise the space-split initials rule applied to the name |
| `Auth.NameInitialsAsWritten` | src/lib/auth.ts:236-240 | as written: a name without two space-split parts gives one or two characters; two non-empty first parts give two characters |
| `Auth.TwoWordInitialsAsWritten` | src/lib/auth.ts:236-238 | as written: two space-free words joined by one space, with anything after a further space, give the upper-cased first characters of the two words |
| `Auth.OneWordInitialsAsWritten` | src/lib/auth.ts:236-240 | as written: a name without a space gives its first one or two characters, upper-cased |
| `Auth.DoubleSpaceInitials` | src/lib/auth.ts:236-239 | as written, 'a  b' (two spaces) has an empty second word and gets ten characters, the first initial followed by 'UNDEFINED' |
| `Auth.Words` | src/lib/auth.ts:236 | the words of a name are non-empty and hold no space |
| `Auth.NameInitials` | src/lib/auth.ts:236-240 | corrected initials of a non-empty name: one or two characters |
| `Auth.WordsAfterSpaces` | src/lib/auth.ts:236 | spaces in front of a name add no words |
| `Auth.WordsCons` | src/lib/auth.ts:236 | a space-free word followed by a space is the first word, and the words after the space follow it |
| `Auth.TwoWordInitials` | src/lib/auth.ts:236-238 | corrected: two space-free words with any run of spaces between them and any spaces before, then anything from a further space on, give the upper-cased first characters of the two words |
| `Auth.OneWordInitials` | src/lib/auth.ts:236-240 | corrected: one space-free word with any spaces around it gives its first one or two characters, upper-cased |
| `Auth.BlankNameInitials` | src/lib/auth.ts:236-240 | corrected: a name of spaces only has no words and gets '??' |
| `Auth.UserInitials` | src/lib/auth.ts:229-241 | '??' without a name, otherwise the corrected initials of the name: never empty, at most two characters |
| `Auth.DoubleSpaceInitialsCorrected` | src/lib/auth.ts:236-239 | corrected, 'a  b' gets the two upper-cased initials |
| `Auth.InitialsAgreeOnSingleSpaces` | src/lib/auth.ts:236-240 | on a name whose words are separated by single spaces, the corrected initials equal the written ones |
| `Auth.UserDisplayName` | src/lib/auth.ts:243-251 | the derived name when there is one, otherwise 'Usuário'; never empty |
| `Auth.NoInitialsMeansDefaultName` | src/lib/auth.ts:229-251 | a user without a name has initials '??' and is displayed as 'Usuário' |
| `Auth.MappingKeepsNames` | src/lib/auth.ts:229-251 | mapping a service user first changes neither the derived name, nor the initials, nor the display name |
| `Auth.IsUserActive` | src/lib/auth.ts:221-227 | active exactly when the email confirmation time is set and not '' |
| `ResetPassword.Validate` | src/app/reset-password/page.tsx:57-79 | the empty-fields error exactly when a field is empty, the length error exactly when both are filled and the password is shorter than six, the mismatch error exactly when both are filled, long enough and different, and no error exactly when the password has six or more characters and equals its confirmation |
| `ResetPassword.LengthCheckedBeforeMatch` | src/app/reset-password/page.tsx:65-79 | a short password is reported as short even when the confirmation differs |
| `ResetPassword.SessionMessage` | src/app/reset-password/page.tsx:22-49 | no message exactly when a session is found; an error message otherwise |
| `ResetPassword.UpdateMessage` | src/app/reset-password/page.tsx:89-112 | a success message exactly on success; the service's error and a throw are reported with their own prefixes, 'Erro desconhecido' for a throw without a message |
| `ResetPassword.ViewOf` | src/app/reset-password/page.tsx:122-169 | the spinner while checking; the form exactly when the session check is over and the session is valid; otherwise the invalid-session page with the message |
| `ResetPassword.NoSessionNoForm` | src/app/reset-password/page.tsx:138-167 | after a check that finds no session, the invalid-session page shows an error and the form is not shown |
| `ResetPassword.Page.constructor` | src/app/reset-password/page.tsx:13-18 | empty fields, not loading, no message, no valid session, checking |
| `ResetPassword.Page.SetPassword` | src/app/reset-password/page.tsx:192 | only the password changes |
| `ResetPassword.Page.SetConfirmPassword` | src/app/reset-password/page.tsx:209 | only the confirmation changes |
| `ResetPassword.Page.CheckRecoverySession` | src/app/reset-password/page.tsx:20-52 | the session check ends; a session makes the page valid; any other answer sets its error message |
| `ResetPassword.Page.PasswordReset` | src/app/reset-password/page.tsx:54-116 | input failing a check sets that check's error and calls nothing; valid input calls the service with the password while loading, sets the answer's message, redirects to the login page only on success, and ends not loading |
| `ResetPassword.OnlyValidPasswordSent` | src/app/reset-password/page.tsx:57-86 | a password that reaches the service has at least six characters and equals its confirmation |
| `DeleteConfirmation.CheckReason` | src/components/modals/DeleteConfirmationDialog.tsx:35-49 | the blank error exactly for an all-whitespace reason, the length error exactly for a non-blank one shorter than ten once trimmed, and otherwise acceptance of the trimmed reason |
| `DeleteConfirmation.AcceptedReasonShape` | src/components/modals/DeleteConfirmationDialog.tsx:40-49 | an accepted reason has at least ten characters and starts and ends with a non-whitespace character |
| `DeleteConfirmation.CheckIgnoresPadding` | src/components/modals/DeleteConfirmationDialog.tsx:35-49 | surrounding whitespace does not change the verdict |
| `DeleteConfirmation.ConfirmDisabled` | src/components/modals/DeleteConfirmationDialog.tsx:130 | the confirm button is disabled exactly while deleting or while the reason is blank |
| `DeleteConfirmation.EnabledConfirmNotBlank` | src/components/modals/DeleteConfirmationDialog.tsx:130 | clicking an enabled button never gives the blank-reason error |
| `DeleteConfirmation.Dialog.constructor` | src/components/modals/DeleteConfirmationDialog.tsx:30-32 | empty reason, not deleting, no error |
| `DeleteConfirmation.Dialog.ReasonChange` | src/components/modals/DeleteConfirmationDialog.tsx:100-103 | typing replaces the reason and clears the error |
| `DeleteConfirmation.Dialog.Confirm` | src/components/modals/DeleteConfirmationDialog.tsx:34-58 | a rejected reason only sets the error and `onConfirm` is not called; an accepted one is passed trimmed; success clears the reason and closes, failure sets the deletion error and keeps the dialog; not deleting afterwards |
| `DeleteConfirmation.Dialog.Cancel` | src/components/modals/DeleteConfirmationDialog.tsx:60-64 | the reason and the error are cleared and the dialog closes |
| `CollapsibleSection.Displayed` | src/components/layout/CollapsibleSection.tsx:29 | the parent's value when given, the own state otherwise |
| `CollapsibleSection.Section.constructor` | src/components/layout/CollapsibleSection.tsx:26 | the own state starts at `defaultCollapsed` |
| `CollapsibleSection.Section.Toggle` | src/components/layout/CollapsibleSection.tsx:31-39 | with a handler the negation of what is shown goes to it and the own state stays; without one the own state becomes that negation |
| `CollapsibleSection.UncontrolledToggleFlips` | src/components/layout/CollapsibleSection.tsx:29-38 | an uncontrolled section shows the opposite after a toggle and the same after two |
| `CollapsibleSection.ControlledWithoutHandlerIgnoresToggle` | src/components/layout/CollapsibleSection.tsx:29-38 | a section given `isCollapsed` but no handler keeps showing the parent's value after a toggle, though its own state flips |
| `Backlog.Truncate` | src/components/backlog/BacklogCard.tsx:24-27 | 'N/A' for null or ''; the text itself when it fits; otherwise its first `maxLength` characters followed by '...', three longer than the limit |
| `Backlog.TruncateKeepsPrefix` | src/components/backlog/BacklogCard.tsx:24-27 | a truncated text keeps the first `maxLength` characters of the original and ends in '...' |
| `Backlog.BackgroundFor` | src/components/backlog/BacklogCard.tsx:30-52 | 'bg-white' for a null or empty product, otherwise the switch on the lower-cased, trimmed product |
| `Backlog.Classify` | src/components/backlog/BacklogCard.tsx:35-51 | white exactly for a product in none of the spelling lists; a retail-bond spelling, and no earlier one, gives yellow |
| `Backlog.BackgroundColorAsWritten` | src/components/backlog/BacklogCard.tsx:30-52 | as written (with the mis-encoded 'título ret' case): 'bg-white' for a null or empty product |
| `Backlog.BackgroundColor` | src/components/backlog/BacklogCard.tsx:30-52 | corrected: 'bg-white' for a null or empty product, and always one of the five background classes |
| `Backlog.NormalizeTituloRet` | src/components/backlog/BacklogCard.tsx:33 | 'Título Ret' lower-cases and trims to 'título ret' |
| `Backlog.TituloNotWritten` | src/components/backlog/BacklogCard.tsx:36-48 | 'título ret' is none of the spellings the switch lists |
| `Backlog.TituloRetMissed` | src/components/backlog/BacklogCard.tsx:44-48 | as written, a card for 'Título Ret' is white; corrected, it is yellow like the other retail-bond spellings |
| `Backlog.BackgroundOfNormalized` | src/components/backlog/BacklogCard.tsx:31-35 | the background of a non-empty product depends only on its normalised form |
| `Backlog.WrittenMissesTitulo` | src/components/backlog/BacklogCard.tsx:44-50 | the switch as written sends 'título ret' to the default 'bg-white' |
| `Backlog.CorrectedFindsTitulo` | src/components/backlog/BacklogCard.tsx:44-48 | the corrected switch sends 'título ret' to 'bg-yellow-100' |
| `Backlog.BackgroundOnlyTituloDiffers` | src/components/backlog/BacklogCard.tsx:30-52 | the correction changes the background of no product other than those normalising to the two accented spellings |
| `Backlog.ClassifyOnlyTituloDiffers` | src/components/backlog/BacklogCard.tsx:35-51 | the two switches agree on every normalised product but the two accented spellings |
| `Backlog.LowerCharIdempotent` | src/components/backlog/BacklogCard.tsx:33 | lower-casing a character twice is lower-casing it once |
| `Backlog.LowerIdempotent` | src/components/backlog/BacklogCard.tsx:33 | lower-casing a string twice is lower-casing it once |
| `Backlog.BackgroundIgnoresCase` | src/components/backlog/BacklogCard.tsx:33 | a product and its lower-cased form get the same background |
| `Backlog.BackgroundIgnoresPadding` | src/components/backlog/BacklogCard.tsx:33 | a space on either side of a product does not change its background |
| `Backlog.NormalizePadded` | src/components/backlog/BacklogCard.tsx:33 | normalising a space-padded product gives the product's own normal form |
| `Backlog.LowerPadded` | src/components/backlog/BacklogCard.tsx:33 | lower-casing keeps the surrounding spaces |
| `Backlog.LowerCharKeepsNonSpace` | src/components/backlog/BacklogCard.tsx:33 | lower-casing never turns a character into whitespace |
| `Backlog.RendaSpelling` | src/components/backlog/BacklogCard.tsx:40-43 | every 'r+', 'r +' or 'renda+' spelling gets 'bg-purple-100' |
| `Backlog.RendaNotOtherSpelling` | src/components/backlog/BacklogCard.tsx:36-43 | no 'renda+' spelling is also a listed or 'cetipado' one, so the earlier cases cannot take it |
| `Backlog.StripStats` | src/components/backlog/BacklogStrip.tsx:23-27 | the strip's count is the number of deals and its totals are the shared summary statistics of those deals |
| `Backlog.StripStatsSnoc` | src/components/backlog/BacklogStrip.tsx:23-27 | one more deal adds one to the count and its volume and revenue to the sums |
| `Backlog.Strip.constructor` | src/components/backlog/BacklogStrip.tsx:20 | the strip starts open |
| `Backlog.Strip.Toggle` | src/components/backlog/BacklogStrip.tsx:50 | the chevron flips the collapse state |
| `DealDetails.FormatDate` | src/components/modals/DealDetailsModal.tsx:98-105 | 'Não informado' for null or ''; otherwise the formatted date, or the text itself when formatting throws |
| `DealDetails.FormatPercentage` | src/components/modals/DealDetailsModal.tsx:107-110 | 'N/A' for null and 0; otherwise the value with two decimals followed by '%' |
| `DealDetails.PercentageReadsBack` | src/components/modals/DealDetailsModal.tsx:107-110 | a non-zero percentage with at most two decimals is shown exactly: the text before '%' parses back to the value |
| `DealDetails.PercentageText` | src/components/modals/DealDetailsModal.tsx:109 | the shown percentage is its two-decimal text followed by '%' |
| `DealDetails.FormatApprovalValue` | src/components/modals/DealDetailsModal.tsx:112-120 | 'Não informado' for null or ''; 'Sim', 'Não' and 'A definir' for 'S', 'N' and 'TBD'; any other value as it is |
| `DealDetails.ApprovalTextAgainstLabel` | src/components/modals/DealDetailsModal.tsx:112-120 | the modal agrees with the shared approval labels on 'S' and 'N' but says 'A definir' for 'TBD' and 'Não informado' for null where the labels say 'Pendente' |
| `DealDetails.ApprovalStyle` | src/components/modals/DealDetailsModal.tsx:122-129 | green, red and yellow for 'S', 'N' and 'TBD'; 'text-gray-900' exactly when the value is not one of the approval options |
| `DealDetails.TagValue` | src/components/modals/DealDetailsModal.tsx:88-92 | a non-empty string field is used as it is; a missing, null or empty one becomes 'Outros' |
| `DealDetails.Tags` | src/components/modals/DealDetailsModal.tsx:88-92 | five tag colours, the first from the vehicle and the last from the quota type |
| `DealDetails.MissingTagsAreOutros` | src/components/modals/DealDetailsModal.tsx:88-92 | a deal with none of the five fields gets five grey 'Outros' tags |
| `DealDetails.TagsOutros` | src/components/modals/DealDetailsModal.tsx:88-92 | a deal with none of the five fields gets each palette's 'Outros' colour |
| `DealDetails.StatusLoggedOnlyAfterSave` | src/components/modals/DealDetailsModal.tsx:42-63 | only the new status is saved, and saved first; the change is logged exactly when the save returns the row, with the stored and the new status, and the parent then gets that row |
| `DealDetails.StatusChangeCalls` | src/components/modals/DealDetailsModal.tsx:42-56 | the first call saves only the new status; three calls when the save returns the row, one otherwise |
| `DealDetails.UnsetStatusLoggedAsEmpty` | src/components/modals/DealDetailsModal.tsx:45 | a deal without a status is shown as 'Ativa' but its change is logged from '' |
| `DealDetails.DeleteConfirm` | src/components/modals/DealDetailsModal.tsx:65-80 | the deletion is logged with the reason, then the deal is deleted; on success the parent is told and the dialog is closed, otherwise 'Failed to delete deal' is thrown after the two calls |
| `DealDetails.FailedDeleteStillLogged` | src/components/modals/DealDetailsModal.tsx:65-80 | a failed delete has still been logged as a deletion with its reason, and the parent is never told |
| `DealDetails.LoggedReasonIsChecked` | src/components/modals/DealDetailsModal.tsx:65-71 | every logged deletion reason is the trimmed text the dialog accepted: ten characters or more, with no whitespace at either end |
| `DealDetails.DetailsModal.constructor` | src/components/modals/DealDetailsModal.tsx:38 | not updating at first |
| `DealDetails.DetailsModal.StatusChange` | src/components/modals/DealDetailsModal.tsx:42-63 | makes exactly the calls of the status-change specification and ends not updating |
| `DealDetails.DetailsModal.ConfirmDelete` | src/components/modals/DealDetailsModal.tsx:65-80 | a reason the dialog rejects makes no call; an accepted one makes the deletion's calls with the trimmed reason, and the dialog closes exactly when the delete succeeds |
| `AddDealForm.DefaultsAgainstOptions` | src/components/forms/AddDealForm.tsx:118-170 | the status and approval defaults are among their option lists, while the audience default 'Geral' is not an audience option |
| `AddDealForm.ProcessedData` | src/components/forms/AddDealForm.tsx:116-179 | the processed row has exactly the deal's columns other than the id and the creation time, each entry given by its column's rule |
| `AddDealForm.ProcessField` | src/components/forms/AddDealForm.tsx:116-179 | the three computed columns are null; otherwise a truthy form value is kept, and a falsy one becomes the column's default or null |
| `AddDealForm.NoIdentityColumns` | src/components/forms/AddDealForm.tsx:116 | the processed row leaves `deal_uuid` and `criado_em` to the database |
| `AddDealForm.ProcessedEntry` | src/components/forms/AddDealForm.tsx:116-179 | every processed column is present with its rule's value |
| `AddDealForm.TextColumnRule` | src/components/forms/AddDealForm.tsx:118-174 | a text column is processed, is not a number column nor a computed one, and only the status and the listed internal fields have defaults |
| `AddDealForm.NumberColumnRule` | src/components/forms/AddDealForm.tsx:136-175 | a number column is processed and has no default |
| `AddDealForm.EmptyFieldsTakeDefaults` | src/components/forms/AddDealForm.tsx:118-170 | the status, audience, approvals and DCM owner take their default when empty and are kept otherwise |
| `AddDealForm.EmptyTextBecomesNull` | src/components/forms/AddDealForm.tsx:121-174 | another text field becomes null when missing or '' and is kept otherwise |
| `AddDealForm.ZeroNumberBecomesNull` | src/components/forms/AddDealForm.tsx:136-175 | a number field becomes null when missing or 0 and is kept otherwise |
| `AddDealForm.ComputedColumnsNull` | src/components/forms/AddDealForm.tsx:160-178 | both revenues and the backlog position are always null |
| `AddDealForm.ProcessedRowWellTyped` | src/components/forms/AddDealForm.tsx:116-181 | from form values of the schema's types, the processed row with the database's id and creation time is a deal of the interface's types |
| `AddDealForm.EditableColumnsTyped` | src/components/forms/AddDealForm.tsx:118-170 | the defaulted columns always hold a string |
| `AddDealForm.TextColumnsTyped` | src/components/forms/AddDealForm.tsx:118-174 | every text column holds a string or null |
| `AddDealForm.NumberColumnsTyped` | src/components/forms/AddDealForm.tsx:136-178 | every number column holds a number or null |
| `AddDealForm.Submit` | src/components/forms/AddDealForm.tsx:181-191 | `onSuccess` is called with the created deal exactly when one is returned; otherwise the error alert is shown |
| `EditDealModal.InitialForm` | src/components/modals/EditDealModal.tsx:26-74 | the form starts with exactly the listed text and number fields, each filled by its field rule |
| `EditDealModal.NumberFieldNotText` | src/components/modals/EditDealModal.tsx:29-70 | no field of the form is both a text and a number field |
| `EditDealModal.InitialText` | src/components/modals/EditDealModal.tsx:29-70 | a null, missing or empty text column starts as ''; a filled one as itself |
| `EditDealModal.InitialNumber` | src/components/modals/EditDealModal.tsx:47-61 | a null, missing or zero number column starts as 0; any other number as itself |
| `EditDealModal.Sanitize` | src/components/modals/EditDealModal.tsx:85-90 | the sanitised form has the same keys, every '' turned into null and every other value kept, so no value is '' |
| `EditDealModal.SanitizeIdempotent` | src/components/modals/EditDealModal.tsx:85-90 | sanitising twice gives the same as once |
| `EditDealModal.NullNumberSubmittedAsZero` | src/components/modals/EditDealModal.tsx:47-90 | an untouched form sends 0 for a number column that was null |
| `EditDealModal.UntouchedTextSubmitted` | src/components/modals/EditDealModal.tsx:29-90 | an untouched form sends a text column back as it was, '' turned into null |
| `EditDealModal.NumberInput` | src/components/modals/EditDealModal.tsx:257 | a number input stores the parsed number, or 0 when the text does not parse |
| `EditDealModal.Modal.constructor` | src/components/modals/EditDealModal.tsx:21-23 | an empty form, not loading, no error |
| `EditDealModal.Modal.DealChanged` | src/components/modals/EditDealModal.tsx:26-74 | a new deal refills the form from it and clears the error; no deal changes nothing |
| `EditDealModal.Modal.InputChange` | src/components/modals/EditDealModal.tsx:108-113 | only the edited field of the form changes |
| `EditDealModal.Modal.Submit` | src/components/modals/EditDealModal.tsx:76-106 | without a deal nothing happens; otherwise the sanitised form is sent, the parent gets the saved row and the dialog closes, or the failure message is shown; loading ends off and the form is kept |
| `EditDealModalV2.FormattedEntries` | src/components/modals/EditDealModalV2.tsx:50-63 | a field has a display text exactly when it is one of the numeric fields and holds a number, and that text is the number formatted for display |
| `EditDealModalV2.Formatted` | src/components/modals/EditDealModalV2.tsx:57-63 | only listed fields holding numbers get a text, and the text is that number formatted for display |
| `EditDealModalV2.FormattedStep` | src/components/modals/EditDealModalV2.tsx:58-63 | each step of the `forEach` adds the next field's formatted number when it holds one and changes nothing otherwise |
| `EditDealModalV2.FormatFields` | src/components/modals/EditDealModalV2.tsx:50-63 | the loop builds exactly the display texts of the numeric fields |
| `EditDealModalV2.AuditWrites` | src/components/modals/EditDealModalV2.tsx:94-99 | one audit write per change entry, in order |
| `EditDealModalV2.ModalV2.constructor` | src/components/modals/EditDealModalV2.tsx:39-42 | empty form and display texts, not loading, no error |
| `EditDealModalV2.ModalV2.DealChanged` | src/components/modals/EditDealModalV2.tsx:45-67 | a new deal becomes the form and its numbers' display texts are rebuilt; no deal changes nothing |
| `EditDealModalV2.ModalV2.InputChange` | src/components/modals/EditDealModalV2.tsx:69-74 | only the edited field of the form changes |
| `EditDealModalV2.ModalV2.NumberChange` | src/components/modals/EditDealModalV2.tsx:76-84 | the typed text becomes the field's display text and its parsed number the field's value |
| `EditDealModalV2.ModalV2.Submit` | src/components/modals/EditDealModalV2.tsx:86-114 | without a deal nothing happens; otherwise the changes are logged, as the user 'system' / 'system@app.com' since the call passes none, before the form is sent, the parent gets the deal overlaid with the form and the dialog closes on success, the failure message is shown otherwise, and loading ends off |
| `EditDealModalV2.AuditBeforeUpdate` | src/components/modals/EditDealModalV2.tsx:94-102 | every audit write comes before the single update, which is the last call |
| `EditDealModalV2.SubmittedDealOverlay` | src/components/modals/EditDealModalV2.tsx:104 | `{ ...deal, ...formData }` takes a field from the form when the form has it and from the deal otherwise |
| `KanbanBoard.NullOrBlankIsNoDate` | src/components/kanban/KanbanBoard.tsx:248-261 | a null, blank, 'null' or 'undefined' window date is never a valid date |
| `KanbanBoard.BacklogIffNoValidDate` | src/components/kanban/KanbanBoard.tsx:274-282 | a deal goes to the backlog exactly when its status is a backlog status or its window date is not a valid date |
| `KanbanBoard.NotBlankIsTruthy` | src/components/kanban/KanbanBoard.tsx:248-280 | a window date that is not null or blank is truthy, so the validity test is the one that decides |
| `KanbanBoard.PartitionBy` | src/components/kanban/KanbanBoard.tsx:270-289 | the loop puts each item in the first list when it satisfies the test and in the second otherwise, keeping their order |
| `KanbanBoard.Partition` | src/components/kanban/KanbanBoard.tsx:269-290 | the backlog deals are the filtered deals that go to the backlog, in order, and the dated deals are the others |
| `KanbanBoard.PartitionIsExact` | src/components/kanban/KanbanBoard.tsx:269-290 | backlog and dated deals together are the filtered deals (as multisets), each is a subsequence of them, and a deal is in the backlog exactly when it goes there and dated exactly when not |
| `KanbanBoard.OrganizeBoard` | src/components/kanban/KanbanBoard.tsx:293-315 | the grid files every dated deal, in order, under its grouping row and its month |
| `KanbanBoard.BoardRowKeysAreGridRows` | src/components/kanban/KanbanBoard.tsx:318-337 | grouped by anything but tipo, the row keys are exactly the rows of the grid |
| `KanbanBoard.LastDayOfMonth` | src/components/kanban/KanbanBoard.tsx:400-405 | the day `new Date(year, month + 1, 0)` gives: always between 28 and 31 |
| `KanbanBoard.WithYear` | src/components/kanban/KanbanBoard.tsx:384-389 | a key without '-' gets '-' and the current year; a key with one is kept |
| `KanbanBoard.ParseMonthYearToDate` | src/components/kanban/KanbanBoard.tsx:380-417 | null exactly when the key (completed with the year) does not parse as 'MMM-yyyy'; otherwise that month's last day, or its 15th, as an ISO date |
| `KanbanBoard.FindById` | src/components/kanban/KanbanBoard.tsx:450 | `find` by id: absent exactly when no deal has the id, otherwise the first deal of the list with that id |
| `KanbanBoard.IndexOfId` | src/components/kanban/KanbanBoard.tsx:474-475 | `findIndex` by id: -1 exactly when no deal has the id, otherwise the first position holding it |
| `KanbanBoard.MaxOrder` | src/components/kanban/KanbanBoard.tsx:516 | the largest backlog position of the strip, treating missing ones as 0, and never below 0 |
| `KanbanBoard.BacklogPatch` | src/components/kanban/KanbanBoard.tsx:511-517 | a drop on the backlog clears the window date and gives a backlog position above every position in the strip |
| `KanbanBoard.GroupColumnIsOwn` | src/components/kanban/KanbanBoard.tsx:529 | the grouping column a drop writes is never the id, the window date or the backlog position |
| `KanbanBoard.MonthPatch` | src/components/kanban/KanbanBoard.tsx:546-562 | a drop on a month sets the window date to that month's last day, clearing the backlog position of an undated deal, and gives no update when the month does not parse |
| `KanbanBoard.CellPatch` | src/components/kanban/KanbanBoard.tsx:518-545 | a drop on a cell needs both keys; it sets the month like a month drop, and an undated deal also takes the row's grouping value, null for 'Outros' |
| `KanbanBoard.LastIndexOfChar` | src/components/kanban/KanbanBoard.tsx:567-570 | the last position of a character: -1 exactly when it does not occur, otherwise no later position holds it |
| `KanbanBoard.LastIndexOfCharAfter` | src/components/kanban/KanbanBoard.tsx:567-570 | in `p + c + q` with no `c` in `q`, the last `c` is right after `p` |
| `KanbanBoard.FirstDashRecovers` | src/components/kanban/KanbanBoard.tsx:567-570 | the first-dash split gives the row and the month back when the row key has no '-' |
| `KanbanBoard.FirstDashBreaksDashedRow` | src/components/kanban/KanbanBoard.tsx:567-570 | the cell of row 'FI-Agro' and month 'jan-2025' is read back as row 'FI' and month 'Agro-jan-2025' |
| `KanbanBoard.SplitAtFirstDash` | src/components/kanban/KanbanBoard.tsx:567-570 | as written: an id with a dash is the row part, a dash and the column part, the row part holding no dash; without one the row part is empty |
| `KanbanBoard.SplitBeforeMonthRecovers` | src/components/kanban/KanbanBoard.tsx:567-570 | the corrected split gives back any row key and a 'MMM-yyyy' month whole |
| `KanbanBoard.SplitBeforeMonth` | src/components/kanban/KanbanBoard.tsx:567-570 | corrected: an id with a dash is the row part, a dash and the column part, which holds at most one dash; without one the row part is empty |
| `KanbanBoard.SplitBeforeMonthAt` | src/components/kanban/KanbanBoard.tsx:567-570 | the corrected split cuts at the last '-' but one |
| `KanbanBoard.SplitBeforeMonthPlainKeys` | src/components/kanban/KanbanBoard.tsx:567-570 | the corrected split also recovers keys that hold no '-' |
| `KanbanBoard.SplitBeforeMonthDashedRow` | src/components/kanban/KanbanBoard.tsx:567-570 | the corrected split reads the cell of row 'FI-Agro' and month 'jan-2025' back whole |
| `KanbanBoard.DropPatch` | src/components/kanban/KanbanBoard.tsx:511-599 | corrected: the update a drop makes: the backlog patch on the backlog, the cell patch for a cell, the month patch for a month, the cell patch from the id split before the month for a bare id with a '-', and none for any other target |
| `KanbanBoard.DropPatchShape` | src/components/kanban/KanbanBoard.tsx:511-599 | every update a drop makes sets the window date and never the id |
| `KanbanBoard.DropPatchAsWritten` | src/components/kanban/KanbanBoard.tsx:511-599 | as written: a bare id with a '-' gives the cell patch of the id split at its first '-'; every other target gives the corrected update; every update sets the window date and never the id |
| `KanbanBoard.DropPatchAsWrittenAgrees` | src/components/kanban/KanbanBoard.tsx:564-572 | on the bare id of a row key without '-' and a 'MMM-yyyy' month, the update as written is the corrected one |
| `KanbanBoard.DashedRowDropDiverges` | src/components/kanban/KanbanBoard.tsx:564-580 | a backlog deal dropped on the bare id of row 'FI-Agro', month 'jan-2025', is given the group 'FI' as written and 'FI-Agro' when corrected; 'FI-Agro' is one of the vehicle options |
| `KanbanBoard.PlanDrop` | src/components/kanban/KanbanBoard.tsx:444-599 | no target, a drop on itself or an unknown deal does nothing; a reorder moves between the two backlog positions of the dragged and the target deal, both undated; an update is for the dragged deal, sets the window date and never the id, and is the as-written update or the corrected one as asked |
| `KanbanBoard.MovedIndex` | src/components/kanban/KanbanBoard.tsx:479-482 | the spliced strip has the same length, and each position holds the element the move brings there |
| `KanbanBoard.RemovedIndex` | src/components/kanban/KanbanBoard.tsx:479 | `splice(from, 1)` shifts every later element down by one |
| `KanbanBoard.InsertedIndex` | src/components/kanban/KanbanBoard.tsx:482 | `splice(to, 0, x)` puts `x` at `to` and shifts every later element up by one |
| `KanbanBoard.MovedIsPermutation` | src/components/kanban/KanbanBoard.tsx:479-482 | the move is a permutation that puts the moved deal at the target and keeps the others in order |
| `KanbanBoard.MovedFromInjective` | src/components/kanban/KanbanBoard.tsx:479-482 | different positions of the spliced strip come from different positions of the original |
| `KanbanBoard.MovedKeepsUniqueIds` | src/components/kanban/KanbanBoard.tsx:479-482 | moving a deal keeps the ids of the strip unique |
| `KanbanBoard.MoveInPlace` | src/components/kanban/KanbanBoard.tsx:471-482 | the two splices on the array copy leave it holding the move of the original |
| `KanbanBoard.RenumberedPositions` | src/components/kanban/KanbanBoard.tsx:485-488 | with unique ids, each deal's new backlog position is its index plus one |
| `KanbanBoard.ReorderPutsDealAtTarget` | src/components/kanban/KanbanBoard.tsx:471-495 | after a reorder the dragged deal's backlog position is its target index plus one, wherever it sits in the whole list |
| `KanbanBoard.AfterPatchAsWritten` | src/components/kanban/KanbanBoard.tsx:601-626 | as written: other deals unchanged, the dropped deal carries the update whatever the reply, and a returned row gives the intended list |
| `KanbanBoard.FailedPatchKeptAsWritten` | src/components/kanban/KanbanBoard.tsx:601-626 | as written, a failed save still leaves the updated deal on the board |
| `KanbanBoard.AfterPatch` | src/components/kanban/KanbanBoard.tsx:601-626 | corrected: a returned row leaves the update in place; a failed save puts the original deal back wherever its id is |
| `KanbanBoard.FailedPatchRestores` | src/components/kanban/KanbanBoard.tsx:620-626 | with the intended rollback and unique ids, a failed save gives back exactly the original list |
| `KanbanBoard.AfterReorderAsWritten` | src/components/kanban/KanbanBoard.tsx:497-504 | as written: same length and ids whatever the reply, and a saved batch gives the intended list |
| `KanbanBoard.FailedReorderKeptAsWritten` | src/components/kanban/KanbanBoard.tsx:497-504 | as written, a renumbering the server refused stays on the board |
| `KanbanBoard.AfterReorder` | src/components/kanban/KanbanBoard.tsx:491-504 | with the intended reload, a refused renumbering is replaced by the reloaded list; a saved one keeps every deal in place with its id |
| `KanbanBoard.CreatedThenDeletedRestores` | src/components/kanban/KanbanBoard.tsx:636-657 | creating a deal with a new id and deleting it gives the list back, and creating it keeps ids unique |
| `KanbanBoard.UpdatedKeepsUniqueIds` | src/components/kanban/KanbanBoard.tsx:648-652 | replacing a deal by an updated copy keeps the ids unique and each position's id |
| `KanbanBoard.Board.constructor` | src/components/kanban/KanbanBoard.tsx:48 | the board starts with the given list |
| `KanbanBoard.Board.DealCreated` | src/components/kanban/KanbanBoard.tsx:636-639 | the new deal goes first |
| `KanbanBoard.Board.DealUpdated` | src/components/kanban/KanbanBoard.tsx:648-652 | the deal with the updated deal's id is replaced by it |
| `KanbanBoard.Board.DealDeleted` | src/components/kanban/KanbanBoard.tsx:655-657 | the deals with that id leave the list |
| `KanbanBoard.DropAuditFields` | src/components/kanban/KanbanBoard.tsx:612-617 | a drop's audit has an entry for a field exactly when the update sets it to a value that renders differently, the id and the creation date aside, and every entry is by 'system' |
| `KanbanBoard.ReorderedStrip` | src/components/kanban/KanbanBoard.tsx:471-488 | the renumbering sent for a reorder is that of the strip with the dragged deal moved to the target position |
| `KanbanBoard.Board.DragEndAsWritten` | src/components/kanban/KanbanBoard.tsx:444-631 | as written: an ignored drop changes nothing and writes no audit; a reorder applies the renumbered spliced strip even when refused; an update is applied, its changes are audited as 'system', and it stays when the save fails |
| `KanbanBoard.Board.DragEnd` | src/components/kanban/KanbanBoard.tsx:444-631 | corrected: an ignored drop changes nothing; a reorder applies the renumbered spliced strip, or the reload when refused; an update is applied, audited as in the as-written handler, and rolled back when the save fails, which with unique ids gives back the original list |
| `KanbanGrid.GroupKey` | src/components/kanban/SimplifiedKanbanGrid.tsx:83-86 | the row key of a deal: 'Outros' for a missing or falsy value, the string itself when there is one |
| `KanbanGrid.DealMonth` | src/components/kanban/SimplifiedKanbanGrid.tsx:80-89 | a deal's month label, or 'Sem Data' when it has no window date |
| `KanbanGrid.RowKey` | src/components/kanban/SimplifiedKanbanGrid.tsx:75-90 | the row of a deal: its month when transposed, its group otherwise |
| `KanbanGrid.ColKey` | src/components/kanban/SimplifiedKanbanGrid.tsx:75-90 | the column of a deal: its group when transposed, its month otherwise |
| `KanbanGrid.TransposeSwapsKeys` | src/components/kanban/SimplifiedKanbanGrid.tsx:78-90 | transposing swaps every deal's row and column |
| `KanbanGrid.Push` | src/components/kanban/SimplifiedKanbanGrid.tsx:92-100 | appending a deal to a cell changes that cell alone, which gets the deal at its end |
| `KanbanGrid.OrganizeStep` | src/components/kanban/SimplifiedKanbanGrid.tsx:74-101 | each step of the `forEach` keeps the grid organised over the deals seen so far |
| `KanbanGrid.PushCell` | src/components/kanban/SimplifiedKanbanGrid.tsx:92-100 | after a push every cell holds, in order, the deals seen so far that belong to it |
| `KanbanGrid.FilterOne` | src/components/kanban/SimplifiedKanbanGrid.tsx:100 | one deal lands in a cell exactly when it belongs there |
| `KanbanGrid.PushNoEmptyCells` | src/components/kanban/SimplifiedKanbanGrid.tsx:92-100 | pushing creates no empty row or cell |
| `KanbanGrid.GroupByCell` | src/components/kanban/SimplifiedKanbanGrid.tsx:71-104 | the loop leaves each cell holding, in order, exactly the deals with that row and column, and no row or cell empty |
| `KanbanGrid.OrganizeData` | src/components/kanban/SimplifiedKanbanGrid.tsx:71-104 | `organizedData` is the grid of the deals under the layout's row and column |
| `KanbanGrid.CellExistsIffDeal` | src/components/kanban/SimplifiedKanbanGrid.tsx:92-100 | a cell exists exactly when some deal has its row and its column |
| `KanbanGrid.ExactlyOneCell` | src/components/kanban/SimplifiedKanbanGrid.tsx:74-101 | every deal is filed, as many times as it occurs, in its own cell and in no other |
| `KanbanGrid.TransposedCells` | src/components/kanban/SimplifiedKanbanGrid.tsx:78-90 | the transposed grid's cell (r, c) holds the deals of the normal grid's cell (c, r) |
| `KanbanGrid.ChooseMembers` | src/components/kanban/SimplifiedKanbanGrid.tsx:113-134 | the labels collected are exactly those the items give |
| `KanbanGrid.AddLabelStep` | src/components/kanban/SimplifiedKanbanGrid.tsx:113-134 | adding one item to the set adds its label when it has a new one and changes nothing otherwise |
| `KanbanGrid.AddLabels` | src/components/kanban/SimplifiedKanbanGrid.tsx:113-134 | the `forEach` over the items builds the set of their labels, each once, in order of first addition |
| `KanbanGrid.MonthFilterParts` | src/components/kanban/SimplifiedKanbanGrid.tsx:127-128 | a selected month gives a year and a month exactly when it splits at '-' into at least two parts whose first two both parse as integers, and then they are those integers |
| `KanbanGrid.FilterMonthLabel` | src/components/kanban/SimplifiedKanbanGrid.tsx:123-134 | a selected month gives a label exactly when both halves parse, and then it is the formatted 15th of that month |
| `KanbanGrid.FilterMonthLabelOfKey` | src/components/kanban/SimplifiedKanbanGrid.tsx:123-134 | the 'YYYY-MM' key of a month of a non-negative year parses back to that year and month, and is labelled as the 15th of that month |
| `KanbanGrid.MonthSetMembers` | src/components/kanban/SimplifiedKanbanGrid.tsx:110-135 | the month set holds each label once: every dated deal's month ('Sem Data' for an undated one when transposed) and every selected month that parses, and nothing else |
| `KanbanGrid.CollectMonths` | src/components/kanban/SimplifiedKanbanGrid.tsx:110-135 | the loops build exactly the month set |
| `KanbanGrid.FindDated` | src/components/kanban/SimplifiedKanbanGrid.tsx:145-150 | the date found is a dated deal's with that month label; none is found only when no dated deal has that label |
| `KanbanGrid.SemDataFirst` | src/components/kanban/SimplifiedKanbanGrid.tsx:137-139 | transposed, 'Sem Data' heads the row keys whenever it is one of them |
| `KanbanGrid.MonthsChronological` | src/components/kanban/SimplifiedKanbanGrid.tsx:241-274 | when every month label has a date, the month keys come out in chronological order |
| `KanbanGrid.SortedKeys` | src/components/kanban/SimplifiedKanbanGrid.tsx:177-188 | `Array.from(new Set(...)).sort()`: the keys some deal has, each once, in strictly increasing string order |
| `KanbanGrid.TipoLanesCoverRows` | src/components/kanban/SimplifiedKanbanGrid.tsx:175-182 | grouped by tipo, every filtered deal's lane is among the row keys, which come from the whole list |
| `KanbanGrid.RowKeysAreNonEmptyRows` | src/components/kanban/SimplifiedKanbanGrid.tsx:184-188 | grouped by anything else, a row key exists exactly when some cell of that row holds a deal |
| `KanbanGrid.RowKeys` | src/components/kanban/SimplifiedKanbanGrid.tsx:107-191 | the row keys hold no key twice |
| `KanbanGrid.ColKeys` | src/components/kanban/SimplifiedKanbanGrid.tsx:194-239 | the column keys hold no key twice |
| `KanbanGrid.ColKeysHoldMonths` | src/components/kanban/SimplifiedKanbanGrid.tsx:215-239 | the column keys are distinct and hold the month of every dated deal and of every selected month that parses |
| `KanbanGrid.RowTotalIsSumOfCells` | src/components/kanban/SimplifiedKanbanGrid.tsx:291-298 | a row's statistics are the sum of the statistics of its cells |
| `KanbanGrid.ColTotalIsSumOfCells` | src/components/kanban/SimplifiedKanbanGrid.tsx:301-308 | a column's statistics are the sum of the statistics of its cells |
| `KanbanGrid.RowDealsAreRow` | src/components/kanban/SimplifiedKanbanGrid.tsx:294 | the deals a row total counts are exactly the deals of that row whose column is shown |
| `KanbanGrid.RowDealsMembers` | src/components/kanban/SimplifiedKanbanGrid.tsx:294 | a deal is in a row's `flatMap` exactly when its one cell is in that row and its column is shown |
| `KanbanGrid.ColDealsAreColumn` | src/components/kanban/SimplifiedKanbanGrid.tsx:304 | the deals a column total counts are exactly the deals of that column whose row is shown |
| `KanbanGrid.ColDealsMembers` | src/components/kanban/SimplifiedKanbanGrid.tsx:304 | a deal is in a column's `flatMap` exactly when its one cell is in that column and its row is shown |
| `KanbanGrid.RowTotals` | src/components/kanban/SimplifiedKanbanGrid.tsx:291-298 | one total per row key: the statistics of the row's deals under the shown columns |
| `KanbanGrid.ColTotals` | src/components/kanban/SimplifiedKanbanGrid.tsx:301-308 | one total per column key: the statistics of the column's deals under the shown rows |
| `KanbanGrid.CellIdShape` | src/components/kanban/SimplifiedKanbanGrid.tsx:323 | a cell id is the row key followed by '-' |
| `KanbanGrid.CellIdRowNotShorter` | src/components/kanban/SimplifiedKanbanGrid.tsx:323 | when a cell id equals one whose row key has no '-', its own row key is not shorter |
| `KanbanGrid.CellIdInjective` | src/components/kanban/SimplifiedKanbanGrid.tsx:323 | row keys without '-' give different cells different ids |
| `KanbanGrid.NumberOrZero` | src/components/kanban/SimplifiedKanbanGrid.tsx:317-322 | a number is taken as it is and anything else as 0 |
| `KanbanGrid.OfferTotalIsVolumeWhenOffered` | src/components/kanban/SimplifiedKanbanGrid.tsx:317-319 | a cell's offer equals the volume the row and column totals use when every deal has a non-zero numeric offer |
| `KanbanGrid.DashFreeSuffix` | src/components/kanban/SimplifiedKanbanGrid.tsx:323 | in two equal ids whose parts after the joining '-' hold no '-', the parts on both sides agree |
| `KanbanGrid.MonthLabelParts` | src/components/kanban/SimplifiedKanbanGrid.tsx:323 | a 'MMM-yyyy' label is its month name and its year joined by its only '-' |
| `KanbanGrid.YearIsNotSemData` | src/components/kanban/SimplifiedKanbanGrid.tsx:80-89 | the year of a month label is never 'Sem Data' |
| `KanbanGrid.MonthColumnIdsDistinct` | src/components/kanban/SimplifiedKanbanGrid.tsx:323 | two cells whose columns are months or 'Sem Data' have the same id only when they are the same cell, whatever their row keys |
| `KanbanGrid.MonthRowIdsDistinct` | src/components/kanban/SimplifiedKanbanGrid.tsx:323 | two cells whose rows are months or 'Sem Data' have the same id only when they are the same cell, whatever their column keys |
| `KanbanGrid.MonthColumnsDistinct` | src/components/kanban/SimplifiedKanbanGrid.tsx:314-323 | a grid whose column keys are all month keys gives different pairs different ids |
| `KanbanGrid.MonthRowsDistinct` | src/components/kanban/SimplifiedKanbanGrid.tsx:314-323 | a grid whose row keys are all month keys gives different pairs different ids |
| `KanbanGrid.MonthLabelAt` | src/components/kanban/SimplifiedKanbanGrid.tsx:80-89 | a calendar whose format gives month labels gives one for every instant |
| `KanbanGrid.DealMonthIsMonthKey` | src/components/kanban/SimplifiedKanbanGrid.tsx:80-89 | with such a calendar a deal's month is a month label or 'Sem Data' |
| `KanbanGrid.FilterLabelIsMonthLabel` | src/components/kanban/SimplifiedKanbanGrid.tsx:123-134 | with such a calendar a selected month's label is a month label |
| `KanbanGrid.MonthSetKeys` | src/components/kanban/SimplifiedKanbanGrid.tsx:107-134 | with such a calendar every key of a month set is a month label or 'Sem Data' |
| `KanbanGrid.GridCellIdsDistinct` | src/components/kanban/SimplifiedKanbanGrid.tsx:311-323 | with such a calendar the grid's own row and column keys give different pairs different ids, normal or transposed, whatever the group values |
| `KanbanGrid.CellTotals` | src/components/kanban/SimplifiedKanbanGrid.tsx:311-333 | the ids are exactly those of the (row, column) pairs, each holding the summed offer and potential revenue of a pair with that id; when the pairs have distinct ids, each pair's id holds its own cell's sums |
| `KanbanGrid.CellTotalsLookup` | src/components/kanban/SimplifiedKanbanGrid.tsx:311-333 | when the pairs have distinct ids, each pair's id holds its own cell's sums |
| `Supabase.Sign` | src/lib/supabase.ts:37 | `sort` reads only the sign of `a.backlog_order - b.backlog_order`: negative, zero or positive with the difference |
| `Supabase.Band` | src/lib/supabase.ts:32-51 | ordered backlog deals, unordered backlog deals and dated deals form three bands |
| `Supabase.UndatedFirst` | src/lib/supabase.ts:46-47 | a deal without a window date sorts before every dated deal |
| `Supabase.FetchOrder` | src/lib/supabase.ts:32-51 | a deal in an earlier band (ordered backlog, unordered backlog, dated) sorts before one in a later band |
| `Supabase.BacklogByOrder` | src/lib/supabase.ts:34-38 | two backlog deals with a position sort by ascending position, equal positions tying |
| `Supabase.OrderedBeforeUnordered` | src/lib/supabase.ts:39-40 | a backlog deal with a position sorts before one without |
| `Supabase.StringFallbacks` | src/lib/supabase.ts:42-50 | unordered backlog deals sort by creation time and dated deals by date, both as strings |
| `Supabase.BandsInOrder` | src/lib/supabase.ts:32-51 | the comparator orders by band first |
| `Supabase.FetchOrderTotal` | src/lib/supabase.ts:32-51 | of any two deals, one is not after the other |
| `Supabase.FetchOrderTrans` | src/lib/supabase.ts:32-51 | the comparator is transitive |
| `Supabase.FetchOrderTotalPreorder` | src/lib/supabase.ts:32-51 | the comparator is a total preorder on all deals, so sorting by it is well defined |
| `Supabase.SortInPlace` | src/lib/supabase.ts:32 | `array.sort(cmp)` on an array: afterwards sorted by the comparator and a permutation of the original |
| `Supabase.SinkLast` | src/lib/supabase.ts:32 | one insertion step moves the next element left until the prefix up to it is in order, keeping the elements |
| `Supabase.SwapKeepsElements` | src/lib/supabase.ts:32 | swapping two neighbours keeps the elements |
| `Supabase.SwapKeepsOrder` | src/lib/supabase.ts:32 | swapping the sinking element past a larger neighbour keeps the rest of the prefix in order |
| `Supabase.SinkSettles` | src/lib/supabase.ts:32 | once the sinking element is not below its left neighbour the whole prefix is in order |
| `Supabase.FetchDeals` | src/lib/supabase.ts:8-61 | [] on an error or an exception; otherwise the rows, as a permutation, sorted by the comparator |
| `Supabase.RowOrNull` | src/lib/supabase.ts:64-111 | `updateDeal` and `getDeal` give the row exactly when the query returns one, otherwise null |
| `Supabase.DeleteSucceeded` | src/lib/supabase.ts:353-377 | `deleteDeal` is true exactly when the delete came back without an error |
| `Supabase.CreateDeal` | src/lib/supabase.ts:114-166 | the new deal exactly when the endpoint answers ok; otherwise it throws with the message, the error or 'Failed to create deal', or with the network failure |
| `Supabase.KeptStrings` | src/lib/supabase.ts:195-199 | the strings kept are exactly those of the truthy values that are not blank once trimmed |
| `Supabase.GetEnumValues` | src/lib/supabase.ts:169-207 | [] on an error, an exception or no rows; otherwise exactly the kept values of the column, none blank, each once, in ascending order |
| `Supabase.GetAllDealEnums` | src/lib/supabase.ts:210-251 | one entry for each of the nine enum columns and no other, each that column's values |
| `Supabase.CollectFields` | src/lib/supabase.ts:229-242 | the loop makes one entry per field, each that field's values, [] included |
| `Supabase.AnyErrorIff` | src/lib/supabase.ts:416 | `results.some(r => r.error)` holds exactly when some reply failed |
| `Supabase.BacklogOrderSaved` | src/lib/supabase.ts:402-426 | `updateBacklogOrder` is true exactly when the batch ran and no update in it failed |
| `DealStore.ErrorMessage` | src/hooks/useDeals.ts:36 | a rejection's `Error` message, or 'Unknown error' for anything else thrown |
| `DealStore.Store.constructor` | src/hooks/useDeals.ts:20-22 | no deals, loading, no error |
| `DealStore.Store.LoadDeals` | src/hooks/useDeals.ts:24-43 | the fetched list replaces the old one, with the no-deals error exactly when it is empty; a failure empties the list and sets the load error; loading ends off |
| `DealStore.Store.UpdateDealData` | src/hooks/useDeals.ts:45-59 | true exactly when the server returned the row, and only then are the updates merged into the deal with that id |
| `DealStore.Store.CreateNewDeal` | src/hooks/useDeals.ts:61-73 | a created deal is appended and returned; a failure returns null and leaves the list |
| `DealStore.Store.RemoveDeal` | src/hooks/useDeals.ts:75-87 | true exactly when the delete succeeded, and only then does the deal leave the list |
| `DealStore.Store.UpdateBacklogOrdering` | src/hooks/useDeals.ts:89-104 | true exactly when the batch was saved, and only then are the new positions applied |
| `DealStore.Store.OptimisticUpdate` | src/hooks/useDeals.ts:106-110 | the updates are merged into the deal with that id |
| `DealStore.Store.RollbackUpdate` | src/hooks/useDeals.ts:112-116 | the deal with that id is replaced by the original |
| `DealStore.OptimisticThenRollback` | src/hooks/useDeals.ts:106-116 | with unique ids and an update that keeps the id, an optimistic update rolled back leaves the list as it was |
| `Audit.CreateAuditLog` | src/lib/audit.ts:24-88 | a row exactly when the insert answers data, and then that row; an error answer or a throw gives null |
| `Audit.OrEmpty` | src/lib/audit.ts:112-113 | a falsy value is logged as ''; a string is logged as itself |
| `Audit.LogFieldUpdate` | src/lib/audit.ts:93-115 | nothing is written exactly when the old and the new value are the same; otherwise one update entry for the field and deal, with no reason and both values as logged text |
| `Audit.FalsyLoggedAsEmpty` | src/lib/audit.ts:103-113 | a change from 0 to undefined passes the equality check and is still logged, as '' to '' |
| `Audit.LogDealDeletion` | src/lib/audit.ts:120-135 | a delete entry carrying the reason, no field, and the deal's id and name and the user |
| `Audit.LogDealCreation` | src/lib/audit.ts:140-153 | a create entry with no field, no values and no reason |
| `Audit.LogStatusChange` | src/lib/audit.ts:158-176 | a status-change entry on 'status_deal' with the old and the new status and no reason |
| `Audit.FormatValueCases` | src/lib/audit.ts:248-253 | null, undefined and '' all render as ''; a string renders as itself; a boolean as 'Sim' or 'Não' |
| `Audit.FormatValueForAudit` | src/lib/audit.ts:248-253 | null and undefined give ''; a string gives itself |
| `Audit.FormatValueEmpty` | src/lib/audit.ts:248-253 | the text is empty exactly for null, undefined and '': a number never renders as '' |
| `Audit.FormatValueCollisions` | src/lib/audit.ts:248-253 | the rendering is not injective: true and 'Sim' render alike, and so do 1 and '1' |
| `Audit.FieldUpdateOfRendered` | src/lib/audit.ts:223-237 | an entry logged from two rendered values carries those rendered texts |
| `Audit.LogObjectChanges` | src/lib/audit.ts:204-243 | the entries written are those of the change list specified in order over the new data's keys |
| `Audit.ObjectChanges` | src/lib/audit.ts:204-243 | no more entries than keys of the new data |
| `Audit.ObjectChangesSound` | src/lib/audit.ts:215-239 | every entry is for a key of the new data, not skipped, whose old and new renderings differ |
| `Audit.ObjectChangesComplete` | src/lib/audit.ts:215-239 | every such key has an entry |
| `Audit.ChangeLoggedIff` | src/lib/audit.ts:215-239 | a key has an entry exactly when it is in the new data, is not skipped and renders differently before and after |
| `Middleware.DiffersAt` | src/middleware.ts:106-108 | two paths that differ at a shared index do not start with each other, so a prefix rule cannot match |
| `Middleware.Guard` | src/middleware.ts:91-120 | '/auth/...' always passes; the redirect home happens exactly for a signed-in user on '/login'; the redirect to '/login' happens exactly for a protected, non-public, non-'/auth/' path without a user; no other redirect target exists |
| `Middleware.SignedInPassesExceptLogin` | src/middleware.ts:91-120 | a signed-in user passes on every path except '/login' |
| `Middleware.PublicPathsOpen` | src/middleware.ts:91-102 | the public paths and '/auth/...' pass without a user |
| `Middleware.RootIsExactOnly` | src/middleware.ts:6-12 | '/' is protected only as the exact path: '/about' passes without a user |
| `Middleware.DealsPrefixProtected` | src/middleware.ts:105-112 | other entries match by prefix, so '/dealsX' sends a visitor without a user to '/login' |
| `Middleware.AuthEntriesShadowed` | src/middleware.ts:15-20 | the '/auth/callback' and '/auth/error' public entries are already let through by the '/auth/' rule |
| `DealModel.TextNotNumber` | src/lib/types.ts:1-66 | no column typed string is also typed number |
| `DealModel.TextNotNumberLow` | src/lib/types.ts:1-66 | the first third of the text columns are not number columns |
| `DealModel.TextNotNumberMiddle` | src/lib/types.ts:1-66 | the middle third of the text columns are not number columns |
| `DealModel.TextNotNumberHigh` | src/lib/types.ts:1-66 | the last third of the text columns are not number columns |
| `DealModel.EditableNotNumber` | src/lib/types.ts:1-66 | the non-null editable string columns are neither number columns nor nullable text columns |
| `DealModel.ColumnOf` | src/lib/types.ts:68 | every grouping field names a nullable text column of the deal |
| `DealModel.Volume` | src/components/kanban/SimplifiedKanbanGrid.tsx:281-283 | a deal's volume is its base offer when that is truthy, and otherwise its settled volume (0 if neither is a number) |
| `DealModel.CalculateStats` | src/components/kanban/SimplifiedKanbanGrid.tsx:279-288 | the count is the number of deals |
| `DealModel.StatsAppend` | src/components/kanban/SimplifiedKanbanGrid.tsx:279-288 | stats are additive: the stats of two lists joined are the sums of count, volume and revenue |
| `DealLists.MergeById` | src/hooks/useDeals.ts:106-110 | the list keeps its length; deals with other ids are unchanged; the deal with the id reads each key from the updates when present, from itself otherwise |
| `DealLists.ReplaceById` | src/hooks/useDeals.ts:112-116 | the list keeps its length and every deal with the id is replaced, no other |
| `DealLists.RemoveById` | src/hooks/useDeals.ts:79 | the result is a subsequence of the list with no deal carrying the id; every deal with another id keeps its number of occurrences |
| `DealLists.RollbackRestores` | src/hooks/useDeals.ts:106-116 | with unique ids and updates that keep the id, an optimistic merge followed by the rollback restores the list |
| `DealLists.ReplaceAbsentId` | src/hooks/useDeals.ts:112-116 | replacing by an id no deal carries changes nothing |
| `DealLists.FindOrder` | src/hooks/useDeals.ts:94 | no order exactly when no entry has the id; otherwise the order of the first entry for it |
| `DealLists.ApplyBacklogOrders` | src/hooks/useDeals.ts:93-96 | the list keeps its length and ids; only backlog_order can change; an unlisted deal is unchanged and a listed one gets its first entry's order |

## Left out

- Hosted calls. Every reply of the database, the audit insert and the auth service is a parameter: a Supabase query is given as data, an error object or an exception. The query builders themselves are not modelled.
- `checkDatabasePermissions` (src/lib/supabase.ts:254-350) is a sequence of probing queries with no logic of its own beyond them.
- `getDealAuditLogs` (src/lib/audit.ts:181-199) is a query whose answer is returned unchanged.
- The network and session functions of src/lib/auth.ts are left out: `getCurrentUser`, `isAuthenticated`, sign-in, sign-up, sign-out, profile and password changes, invitations, user listing, session refresh and the stored-session helpers. Only the pure user helpers are modelled.
- Async ordering. The `Promise.all` batches of `updateBacklogOrder` and `logObjectChanges` run in list order. The delayed sign-out and redirect of the reset page (`setTimeout`) are reported as the path it goes to.
- Numbers are exact reals. There is no NaN and no binary rounding. `String(x)` of a number writes its exact decimal expansion, not the shortest round-trip rendering of a double. `toFixed(2)` rounds half away from zero on the exact value.
- `parseFloat` of text that is not a number gives no value (`None`), which the code then turns into 0 as the source does. The NaN itself is never a field value.
- Strings are sequences of code points. JavaScript counts UTF-16 code units, so lengths (the six-character password rule, `truncate`) and the default `sort` order can differ from the source for characters outside the Basic Multilingual Plane.
- `toLowerCase` and `toUpperCase` map ASCII and Latin-1 letters only.
- JsStrings.ParseInt: reads base 10 only. `parseInt` without a radix reads a '0x' or '0X' prefix as hexadecimal; the model reads such text as 0.
- Formatting.ParseFloat: 'Infinity' (with or without a sign) gives no value here, while `parseFloat` gives an infinite number.
- Formatting.ToFixed2: always writes a fixed-point text. For |x| >= 1e21 `toFixed` writes the exponential form instead.
- Colors.Lookup: looks only at the keys a table declares. `TABLE[key]` would also find a key inherited from `Object.prototype` (such as 'constructor').
- StatusDropdown.BadgeConfig: looks only at the declared statuses. `statusConfig[currentStatus]` would also find a key inherited from `Object.prototype` (such as 'constructor') and use it instead of the 'Ativa' fallback.
- KanbanBoard.SplitBeforeMonth: corrects the bare cell id in its untransposed order `${group}-${month}` only. With the grid transposed the bare id is `${month}-${group}`, and neither the first-dash split of the source nor the corrected split reads it back as group and month (for 'jan-2025-CRI' the corrected split gives 'jan' and '2025-CRI'); the model does not correct that order.
- `localeCompare` is taken as code-unit order, the same as the default `sort()`.
- The date library (date-fns with the pt-BR locale) and `Date` are the `DateUtils.Calendar` parameter. This covers parsing and formatting, validity, local-time getters and `toISOString`. Every result is proved for any calendar, so nothing is assumed of the library beyond the code's own checks. The lemmas that need the format's 'MMM-yyyy' shape take it as a premise (`KanbanGrid.GridCellIdsDistinct`).
- The `Date` branch of `formatValueForAudit` (src/lib/audit.ts:252) is not modelled, because the records being compared hold JSON values and never a `Date`.
- `Object.keys` order is a parameter of the audit diff. `Audit.ChangeLoggedIff` states the result for any listing of the new data's keys.
- The board's own column keys and `calculateStats` (src/components/kanban/KanbanBoard.tsx:340-378) are left out, and so are its row and column totals (lines 418-437), which are computed and discarded. They repeat the grid's versions, which are modelled in `KanbanGrid`.
- `useUserPreferences` (src/lib/user-preferences.ts:133) is React state wiring around the modelled load and save.
- The route matcher (`config.matcher`) and the cookie callbacks of src/middleware.ts are left out. The guard takes the path and whether a user was found.
- The user metadata fields read by src/lib/auth.ts are taken to be strings or absent.
- React rendering, effects and memoisation, the drag-and-drop sensors and collision detection, and the scroll synchronisation are left out. A drop reaches the model as its active and target ids.
- Error boundaries, presentational components, the environment schema, the logger and `cn` are left out.
- Formatting.FormatNumberForDisplay: its own contract states only the null and undefined case. The shape of every other display (sign, grouped whole part, two decimals) is proved in `Formatting.FormatNumberShape` and `Formatting.DisplayParts`.
- DealModel.CalculateStats: its own contract states only the count. The volume and revenue sums are stated through `DealModel.Volume` and the additivity lemma `DealModel.StatsAppend`.

## Findings

| source | as written | input that shows it | evidently intended | confidence | as-written member | corrected member |
|---|---|---|---|---|---|---|
| src/lib/search.ts:98-134 | the early return tests only `!searchTerm`, then the loop searches for the trimmed term; a term of spaces searches for '' and `indexOf('', i)` is `i`, so `currentIndex` never advances | text 'abc', term ' ' (the backlog card passes the raw search box text) | a term that trims to '' highlights nothing, like an empty one | not executed | `Search.HighlightAsWritten`, `Search.BlankTermStalls` | `Search.GetHighlightedTextParts` |
| src/components/kanban/KanbanBoard.tsx:567-570 | the cell id `${rowKey}-${colKey}` is split at its first '-' | row 'FI-Agro' (one of the vehicle options), month 'jan-2025': read back as row 'FI', month 'Agro-jan-2025' | split before the month, which itself holds one '-' | not executed | `KanbanBoard.DropPatchAsWritten`, `KanbanBoard.DashedRowDropDiverges` | `KanbanBoard.DropPatch`, `KanbanBoard.SplitBeforeMonthRecovers` |
| src/components/kanban/KanbanBoard.tsx:619-626 | the rollback is in the `catch` of `updateDeal`, which returns null on failure and never throws | any cell drop the server refuses: the optimistic update stays on the board | restore the original deal when the save fails | not executed | `KanbanBoard.Board.DragEndAsWritten`, `KanbanBoard.FailedPatchKeptAsWritten` | `KanbanBoard.Board.DragEnd`, `KanbanBoard.FailedPatchRestores` |
| src/components/kanban/KanbanBoard.tsx:497-504 | the reload after a failed renumbering is in the `catch` of `updateBacklogOrder`, which returns false and never throws | a reorder whose batch the server refuses: the local renumbering stays | reload the deals when the batch fails | not executed | `KanbanBoard.Board.DragEndAsWritten`, `KanbanBoard.FailedReorderKeptAsWritten` | `KanbanBoard.Board.DragEnd`, `KanbanBoard.AfterReorder` |
| src/components/backlog/BacklogCard.tsx:46 | the case label for 'título ret' is mis-encoded, so it never equals the lower-cased product | product 'Título Ret' gets 'bg-white' | 'bg-yellow-100', like the other retail-bond spellings | not executed | `Backlog.BackgroundColorAsWritten`, `Backlog.TituloRetMissed` | `Backlog.BackgroundColor`, `Backlog.CorrectedFindsTitulo` |
| src/lib/auth.ts:236-239 | the name is split on single spaces and `words[1][0]` taken unchecked | name 'a  b' (two spaces): `words[1]` is '', so the initials read 'AUNDEFINED' | the first letters of the first two words | not executed | `Auth.NameInitialsAsWritten`, `Auth.DoubleSpaceInitials` | `Auth.NameInitials`, `Auth.DoubleSpaceInitialsCorrected` |
