# Implantation dashboard and new-client form, modelled in Dafny

The system is a small web front end for tracking client implantations.
Its dashboard (`app.js`) loads a payload of rows and normalises each row:
it trims the text fields, parses the `dd/mm/yyyy` dates, derives a status
label and flags rows with no real start date. It then filters the rows
with the filter controls, counts the KPIs, draws one bar per implantador
and sorts the table by the column the user clicked. Its new-client form
(`novo-cliente.js`) collects the inputs and rewrites the date inputs from
`yyyy-mm-dd` to `dd/mm/yyyy`. It refuses a record without a client or an
implantador, and turns the server's reply into a success or error message.

Modules:

- `JsValues`: the JSON-like values, their truthiness, `String(v)` and the type tag.
- `Text`: JavaScript `trim`, lower-casing, `includes`, `split` and decimal text.
- `Calendar`: ECMAScript day numbers and `new Date(y, m - 1, d)` with its rollover.
- `Collation`: the `localeCompare` used for text columns.
- `Seqs`: `Array.prototype.filter` and subsequences.
- `StableSort`: the stable `Array.prototype.sort`.
- `Records`: the helpers and `normalizeRows`.
- `Filters`: the test that `applyFilters` applies to each row.
- `RowOrder`: `sortState`, `compareAny` and `applySort`.
- `Aggregates`: the counts that `renderAll` shows.
- `App`: the page state, as a `Dashboard` class whose methods are the event handlers.
- `NewClient`: `toBrDate`, `collect` and `onSave`.

The counting loop of `renderAll` is the method `Aggregates.Tally`. It is
proved against the specification function `TallyOf`.

Where the documented behaviour and the code differ, the model follows the code:

- An impossible date such as `31/02/2024` is not rejected. `new Date` rolls it over into the next month, and so does the model (`Records.ParseBrDateRollsOver`).
- The status filter "concluido" tests only the `concluido` field. It therefore also keeps rows handed to support whose `concluido` is yes, although their label is "Passado para suporte" (`Filters.StatusChoices`).
- Each successful load binds the sort buttons again (see Findings).

## Model

| member | source | states |
|---|---|---|
| JsValues.ErrorText | app.js:412 | the text shown for an error is never empty, and it is the error's message when that is not empty |
| Text.Trim | app.js:24-26 | the result has no leading or trailing JavaScript white space, and it is a slice of the input with only white space cut off either side |
| Text.TrimCore | app.js:24-26 | trimming white space + a trimmed middle + white space gives the middle back |
| Text.TrimOfTrimmed | app.js:24-26 | a trimmed text trims to itself |
| Text.TrimIdempotent | app.js:24-26 | trimming twice is trimming once |
| Text.LeadingSpaceRun | app.js:25 | the leading run counted is all white space and is followed by a non-space or the end |
| Text.TrailingSpaceRun | app.js:25 | the trailing run counted is all white space and is preceded by a non-space or the start |
| Text.LeadingSpaceSkips | app.js:25 | white space put in front lengthens the leading run by exactly its length |
| Text.TrailingSpaceSkips | app.js:25 | white space put behind lengthens the trailing run by exactly its length |
| Text.Lower | app.js:38 | each ASCII or Latin-1 capital is lowered and every other character is kept, so the length is kept |
| Text.ContainsPrefix | app.js:46-57 | a text that contains a phrase contains every prefix of it |
| Text.NotContainsForeign | app.js:46-57 | a text whose characters all pass a test cannot contain a phrase with a character that fails it |
| Text.NatDecimalValue | app.js:19 | the decimal digits of a number read back as that number |
| Text.Split | app.js:19 | a split yields at least one piece, and no piece holds the separator |
| Text.JoinSplit | app.js:19 | joining the pieces of a split with the separator gives the text back |
| Text.SplitWhole | novo-cliente.js:41 | a text without the separator splits into itself alone |
| Text.SplitFirst | novo-cliente.js:41 | splitting `a + sep + b`, `a` free of the separator, yields `a` then the pieces of `b` |
| Calendar.DaysInMonth | app.js:20 | a month has 28 to 31 days |
| Calendar.MakeDay | app.js:20 | a month index 0 to 11 counts from that month of the year; index 12 is January of the next year and -1 is December of the year before |
| Calendar.DaysBeforeNextMonth | app.js:20 | the days before month m+1 are those before month m plus the days of month m |
| Calendar.TimeOrder | app.js:299-307 | comparing two dates' times is comparing their day numbers |
| Calendar.LeapCorrections | app.js:20 | the year length is 365 plus the Gregorian leap-year rule |
| Calendar.DayFromYearStep | app.js:20 | the first day of the next year is this year's first day plus its length |
| Calendar.DayFromYearIncreasing | app.js:20 | a later year starts after the whole of an earlier year |
| Calendar.DaysBeforeMonthIncreasing | app.js:20 | a later month starts after the whole of an earlier month |
| Calendar.DaysBeforeYearEnd | app.js:20 | the twelve months fill the year |
| Calendar.DayOfBounds | app.js:20 | a valid date's day number falls inside its year, at its offset from the year's start |
| Calendar.DayOfIncreasing | app.js:20 | an earlier valid calendar date has a smaller day number |
| Calendar.DayOfInjective | app.js:20 | two valid dates with the same day number are the same date |
| Calendar.RolloverIntoNextMonth | app.js:20 | day n past the end of a month is day n of the next month, December into January included |
| Calendar.RolloverExample | app.js:20 | 31 February 2024 is 2 March 2024 |
| Collation.DigitRun | app.js:214 | a digit run is maximal and made of digits only |
| Collation.Sign | app.js:214 | the comparison's sign is kept and its value is -1, 0 or 1 |
| Collation.LocaleCompare | app.js:214 | `localeCompare` returns -1, 0 or 1 |
| Collation.LexCmpAntisymmetric | app.js:214 | swapping the operands of the element-wise comparison negates it |
| Collation.LexCmpTransitive | app.js:214 | the element-wise comparison is transitive |
| Collation.LocaleCompareAntisymmetric | app.js:214 | swapping the operands of `localeCompare` negates it |
| Collation.LocaleCompareTransitive | app.js:214 | `localeCompare` is transitive |
| Collation.CollateAppend | app.js:214 | a prefix without digits collates on its own |
| Collation.LexCmpCommonPrefix | app.js:214 | a common prefix does not change the comparison |
| Collation.NumericCollation | app.js:214 | with `numeric: true`, "Cliente 2" sorts before "Cliente 10" |
| Collation.BaseSensitivity | app.js:214 | with `sensitivity: "base"`, accents and case do not count ("Ávila" equals "avila") |
| Seqs.Select | app.js:275-311 | the filter keeps exactly the elements that pass, and no more of them than the input has |
| Seqs.SubsequenceLength | app.js:275-311 | a subsequence is no longer than its sequence |
| Seqs.SelectIsSubsequence | app.js:275-311 | the filtered rows are a subsequence of the rows, in their order |
| Seqs.SelectAll | app.js:275-311 | a filter every element passes returns the sequence unchanged |
| Seqs.SelectStronger | app.js:328-332 | a stronger test keeps no more elements, and keeps a subsequence of the weaker test's result |
| Seqs.SelectIdempotent | app.js:275-311 | filtering twice with the same test is filtering once |
| Seqs.SelectAppend | app.js:275-311 | filtering a concatenation is concatenating the filtered parts |
| Seqs.SelectConjunction | app.js:275-311 | filtering with a conjunction is filtering with one test and then the other |
| Seqs.SelectNone | app.js:275-311 | a filter no element passes returns the empty sequence |
| Seqs.SelectSplitsCount | app.js:321-323 | a test and its negation split the count between them |
| Seqs.MapUnless | app.js:166-202 | the map either gives one result per element, in order, or stops at the first element the guard rejects |
| StableSort.InsertBy | app.js:228-235 | insertion adds the element to the multiset |
| StableSort.SortBy | app.js:228-235 | the sort keeps the length and the multiset of elements |
| StableSort.InsertBySorted | app.js:228-235 | inserting into a sorted sequence keeps it sorted under a consistent comparator |
| StableSort.SortBySorted | app.js:228-235 | the result is sorted under a consistent comparator |
| StableSort.InsertByStable | app.js:228-235 | insertion keeps the relative order of elements that compare equal |
| StableSort.SortByStable | app.js:228-235 | the sort is stable: the elements tied with any value keep their input order |
| StableSort.ReversedConsistent | app.js:226-234 | a comparator multiplied by -1 is still consistent |
| Records.StrNorm | app.js:24-26 | the result is trimmed; it is "" for null and undefined; otherwise it is `String(v)` with only blanks cut from its two ends |
| Records.StrNormStripsBlanks | app.js:24-26 | blanks + a trimmed core + blanks normalises to the core |
| Records.StrNormOfTrimmed | app.js:24-26 | a trimmed string normalises to itself |
| Records.BrSplit | app.js:18-19 | a text matching `dd/mm/yyyy` splits at "/" into its three digit fields |
| Records.ParseBrDate | app.js:15-22 | a date is found exactly when the value is a string whose trimmed text matches `dd/mm/yyyy` |
| Records.ParseBrDateOfParts | app.js:15-22 | any two, two and four digit fields parse to `MakeDay` of their values |
| Records.PatternIsTrimmed | app.js:17-18 | a text matching the pattern is trimmed |
| Records.ParseBrDateRoundTrip | app.js:15-22 | a valid date written as `dd/mm/yyyy` parses back to that date |
| Records.ParseBrDateRollsOver | app.js:20-21 | "31/02/2024" is accepted and read as 2 March 2024 |
| Records.Pad2 | app.js:18-19 | two digits whose value is the number |
| Records.Pad4 | app.js:18-19 | four digits whose value is the number |
| Records.StrNormOfText | app.js:24-26 | a value whose `String` is trimmed normalises to that text |
| Records.TrueIsSim | app.js:37-40 | the boolean true is yes |
| Records.FalseIsNotSim | app.js:37-40 | the boolean false is not yes |
| Records.IsSimOfBoolean | app.js:37-40 | a boolean is yes exactly when it is true |
| Records.OneIsSim | app.js:37-40 | the number 1 is yes |
| Records.ZeroIsNotSim | app.js:37-40 | the number 0 is not yes |
| Records.IsSimOfBit | app.js:37-40 | of 0 and 1, only 1 is yes |
| Records.IsSimIgnoresSpace | app.js:37-40 | surrounding white space does not change whether a text is yes |
| Records.IsSimIgnoresCase | app.js:37-40 | "SIM" is yes |
| Records.IsSim | app.js:37-44 | null and undefined are never a yes |
| Records.NoForecastPrefixes | app.js:51-53 | "sem previs" is a prefix of both longer phrases |
| Records.NoForecastPhrasesSubsumed | app.js:46-57 | the two longer phrases add nothing to the test |
| Records.IsNoStartRealText | app.js:46-57 | null and undefined count as not started, and a yes-token never does |
| Records.LowerOfPattern | app.js:18 | a `dd/mm/yyyy` text is unchanged by lower-casing and has only digits and "/" |
| Records.PhrasesOpenWithS | app.js:50-53 | each phrase starts with "s" |
| Records.DateCharsHaveNoPhrase | app.js:50-53 | a text of digits and "/" contains none of the phrases |
| Records.DateTextIsStarted | app.js:46-57 | a text that parses as a date is never a "no start real" text |
| Records.StatusOf | app.js:184-186 | handed to support exactly when `passado_suporte` is yes; concluded exactly when it is not and `concluido` is yes; in progress otherwise |
| Records.NormalizeRow | app.js:166-202 | each of the seven text fields is `strNorm` of the raw field of the same name, the two dates are parsed from those texts, and the status and the no-start flag are derived from them |
| Records.NormalizedFromUnique | app.js:166-202 | that description fixes the row: any row that meets it for a raw record is the normalised row |
| Records.NoStartRealIffUndated | app.js:200 | `noStartReal` holds exactly when the start-real text yields no date |
| Records.StrNormField | app.js:167-174 | a field that holds a trimmed string normalises to it |
| Records.NormalizeRowIdempotent | app.js:166-202 | a record that holds a normalised row's texts normalises to that row |
| Records.PayloadRows | app.js:156-159 | the rows come from a bare array, then `{ok: true, data: [...]}`, then `{ok: true, data: {data: [...]}}`; no other shape has rows |
| Records.NormalizeRows | app.js:153-203 | an unrecognised payload is an "unexpected" error; a result has one row per raw row, each normalised from the raw row at the same index; a nullish-row error names the first null or undefined row |
| Records.NormalizeRowsPreservesOrder | app.js:166-202 | a recognised payload gives one row per raw row, in order, each of its seven text fields `strNorm` of the raw field, unless a raw row is null or undefined |
| Records.NormalizeRowsRejects | app.js:159-164 | an unrecognised payload throws with its own `error` when truthy, else with the "Resposta inesperada" message naming its type |
| Filters.FilterRows | app.js:275-311 | the kept rows are rows of the input, each passes the test, and every row that passes is kept |
| Filters.Keep | app.js:275-311 | a kept row has the chosen implantador, has no start date when only those are asked for, and has the date of every date block that has a bound |
| Filters.FilterKeepsOrder | app.js:275-311 | the shown rows are a subsequence of the loaded rows |
| Filters.ClearedControlsKeepAll | app.js:416-427 | with every control cleared, every row is shown |
| Filters.FilterIdempotent | app.js:262-314 | applying the same filters again changes nothing |
| Filters.StatusChoices | app.js:278-286 | "suporte" keeps the rows handed to support, "andamento" keeps the rows in progress, "concluido" keeps the concluded rows and the support rows whose `concluido` is yes, and any other value keeps every row |
| Filters.DayBoundsInclusive | app.js:269-273 | from midnight and until 23:59:59 of a day bound its dates inclusively |
| Filters.InRangeByDay | app.js:296-308 | a date block passes when it has no bounds, or when the row has a date within the inclusive bounds |
| Filters.SearchFindsClient | app.js:290-293 | searching for a row's whole client name keeps the row |
| Filters.TrimEmpty | app.js:265 | the empty search trims to empty |
| Filters.SearchCombined | app.js:290-293 | when at most one of two control sets has a search, the combined search is both searches |
| Filters.InRangeCombined | app.js:296-308 | a date block whose bounds come from two sets, each bound from at most one, is both blocks |
| Filters.KeepCombined | app.js:275-311 | a row passes two disjoint control sets combined exactly when it passes each |
| Filters.FilterComposes | app.js:275-311 | filtering with disjoint controls combined is filtering by one set then the other, in either order |
| RowOrder.Toggle | app.js:242-249 | a click with no key changes nothing; a click on the current column flips the direction; a click on another column sorts it ascending |
| RowOrder.ToggleTwiceRestores | app.js:244-245 | two clicks on the current column restore the direction |
| RowOrder.ToggleNewColumn | app.js:246-249 | a first click on a new column sorts it ascending, a second descending |
| RowOrder.DateVal | app.js:220-224 | on a date column the sort value is the date's time when the row has a date, and +Infinity exactly when it has none |
| RowOrder.FieldVal | app.js:223 | on the other columns the value read is a string, a boolean or undefined, so `compareAny` may compare it |
| RowOrder.CompareAny | app.js:210-215 | the result is -1, 0 or 1; equal values tie; a missing or empty value goes after any other |
| RowOrder.ApplySort | app.js:217-236 | the table is a permutation of the shown rows |
| RowOrder.CompareAnySameKind | app.js:210-215 | two strings, two booleans or two undefineds compare as their texts, the empty text last |
| RowOrder.CompareAnyAsText | app.js:220-234 | on a text column two rows compare as their texts |
| RowOrder.TextCmpAntisymmetric | app.js:210-215 | swapping the operands of the text comparison negates its sign |
| RowOrder.TextCmpTransitive | app.js:210-215 | the text comparison is transitive |
| RowOrder.BaseCmpAntisymmetric | app.js:228-234 | swapping two rows negates the sign of the column comparison |
| RowOrder.BaseCmpTransitive | app.js:228-234 | the column comparison is transitive |
| RowOrder.RowCmpConsistent | app.js:226-234 | the comparator in either direction is consistent, as the sort needs |
| RowOrder.ApplySortCorrect | app.js:217-236 | the table is a permutation of the rows, sorted by the column in the chosen direction, with ties left in their filtered order |
| RowOrder.DateColumnOrder | app.js:220-233 | on a date column, ascending puts dated rows in date order and undated rows last; descending reverses both |
| RowOrder.EmptyTextOrder | app.js:210-215 | on a text column, empty values come last ascending and first descending |
| Aggregates.KpisOf | app.js:320-332 | total is the number of rows; done counts the rows whose `concluido` is yes, support those whose `passado_suporte` is yes, late those that the late test keeps; open is total minus done; support is at most total and late at most open |
| Aggregates.LateByDay | app.js:325-332 | a row is late exactly when it is not concluded and its start-real day is before today |
| Aggregates.LateGrowsWithToday | app.js:325-332 | a later today never has fewer late rows |
| Aggregates.GroupKey | app.js:345 | the bar name is the implantador, or "(Sem implantador)" when that is empty |
| Aggregates.GroupKeys | app.js:344-345 | one bar name per row |
| Aggregates.FirstSeen | app.js:343-348 | the map's keys are distinct, and they are exactly the names seen |
| Aggregates.Pairs | app.js:348 | each name is paired with its count |
| Aggregates.TallyOf | app.js:343-348 | every entry names a bar name of the rows and carries its number of rows |
| Aggregates.CountSnoc | app.js:346 | one more row adds one to its own name's count and nothing to the others |
| Aggregates.CountAbsent | app.js:346 | a name never seen has count 0 |
| Aggregates.CountPresent | app.js:346 | a name seen has count at least 1 |
| Aggregates.CountDistinct | app.js:343-348 | a distinct name occurs once among the keys |
| Aggregates.SumOfSnoc | app.js:343-347 | one more row adds one to the total of its own name |
| Aggregates.FirstSeenSum | app.js:343-347 | the counts of the distinct names add up to the number of names seen |
| Aggregates.SumCountsSnoc | app.js:348 | the total of the entries grows by the count of the added entry |
| Aggregates.SumCountsPairs | app.js:348 | the entries' counts add up to the names' counts |
| Aggregates.TallyCorrect | app.js:343-348 | each name is listed once; the names are exactly the bar names; each count is that name's number of rows, at least 1; the counts add up to the number of rows |
| Aggregates.TallyInFirstSeenOrder | app.js:343-348 | the names are listed in the order in which the rows first show them, as the `Map` keeps its keys |
| Aggregates.FirstIndex | app.js:346 | the first occurrence of a name: an occurrence with none before it |
| Aggregates.FirstIndexUnique | app.js:346 | only one occurrence has none before it |
| Aggregates.FirstIndexSnoc | app.js:346 | a later row does not move an earlier name's first occurrence |
| Aggregates.FirstSeenOrder | app.js:343-347 | the first-seen names are in the order of their first occurrences |
| Aggregates.PairsKeepOrder | app.js:348 | the entries keep the order of their names |
| Aggregates.FirstSeenSnoc | app.js:346 | a new name is appended to the keys; a known one leaves them unchanged |
| Aggregates.CountsStep | app.js:346 | the map update keeps every count equal to the number of rows seen |
| Aggregates.CountedStep | app.js:344-347 | one loop step keeps the map and its key order in step with the rows seen |
| Aggregates.EntriesOfCounts | app.js:348 | when the loop is done, the map's entries are the tally |
| Aggregates.KeysUpTo | app.js:344-345 | one name per row seen |
| Aggregates.KeysUpToSnoc | app.js:344-345 | the next row adds its name at the end |
| Aggregates.CountedNext | app.js:344-347 | the loop body keeps the invariant for the next row |
| Aggregates.CountedAll | app.js:348 | after the last row, the map's entries in insertion order are the tally |
| Aggregates.Tally | app.js:343-348 | the loop over the shown rows yields the tally, names in first-seen order with their counts |
| Aggregates.ByCountDescConsistent | app.js:348 | the count comparator is consistent |
| Aggregates.DivBetween | app.js:352 | integer division brackets its dividend |
| Aggregates.MulBelow | app.js:352 | multiplication by a positive factor preserves strict order |
| Aggregates.Percent | app.js:352 | the width is `n / max * 100` rounded to the nearest whole, halves up; at most 100 when `n <= max`; exactly 100 for the largest |
| Aggregates.SortedByCount | app.js:348 | the sorted entries have non-increasing counts |
| Aggregates.Scale | app.js:349-352 | one bar per entry, same name and count, each bar's width `Math.round(n / max * 100)` of its count against the first (largest) count, rounded half up; so the first bar is 100% and none exceeds 100% |
| Aggregates.BarsOf | app.js:348-352 | the bars are the entries in non-increasing count order, each bar's width the rounded percentage of its count against the first bar's count; the first bar is 100% and none exceeds 100% |
| Aggregates.SumCountsInsert | app.js:348 | inserting an entry adds its count to the total |
| Aggregates.SumCountsSorted | app.js:348 | sorting keeps the total of the counts |
| Aggregates.TallyPositive | app.js:343-347 | every count is at least 1 |
| Aggregates.RowBars | app.js:343-360 | the bars are the rows' tally entries sorted by count, larger first, each with its name and count and the rounded percentage of its count against the first bar's; the first bar is 100% and none exceeds 100% |
| Aggregates.BarsCorrect | app.js:343-352 | the bars are a permutation of the tally, larger counts first, equal counts in first-seen order, and their counts add up to the number of rows |
| App.Dashboard.constructor | app.js:208 | no rows loaded or shown, sorted by start-real date ascending |
| App.Dashboard.ApplyFilters | app.js:262-314 | the shown rows become the loaded rows that pass the controls; nothing else changes; the invariant is kept |
| App.Dashboard.ClearFilters | app.js:416-427 | every loaded row is shown, and the loaded rows and the sort are unchanged |
| App.Dashboard.Init | app.js:390-414 | on a good payload the rows are replaced and filtered; on a bad one nothing changes and the error text is returned; the sort is kept |
| App.Dashboard.ClickSort | app.js:240-250 | one click toggles the sort state once; the rows are unchanged and the page state stays consistent |
| App.Dashboard.Render | app.js:319-385 | the KPIs and bars of the shown rows; shown and loaded counts with shown no more than loaded; the table is the sorted permutation of the shown rows |
| App.ClickWithHandlers | app.js:238-257 | with no key nothing changes; with a key and at least one handler the sort column becomes that key |
| App.RefreshBreaksSortButtons | app.js:409 | after a refresh, with two handlers bound, clicking the current column leaves the state as it was, and clicking another column sorts it descending |
| App.ClickWithHandlersParity | app.js:409 | with n handlers bound, a click on the current column flips the direction exactly when n is odd |
| NewClient.ToBrDate | novo-cliente.js:38-44 | empty in gives empty out; the result is non-empty exactly when the split at "-" has three non-empty leading parts |
| NewClient.ToBrDateOfFields | novo-cliente.js:38-44 | `y-m-d` followed by nothing or by a further "-" part becomes `d/m/y` |
| NewClient.ToBrDateMissingPart | novo-cliente.js:41-42 | a text with fewer than three parts becomes "" |
| NewClient.DigitsHaveNoDash | novo-cliente.js:41 | a digit field has no "-" |
| NewClient.IsoDigitsReadBack | novo-cliente.js:38-44 | a `yyyy-mm-dd` of digits is rewritten as `dd/mm/yyyy`, which the dashboard parses |
| NewClient.IsoRoundTrip | novo-cliente.js:38-44 | a valid picked date is sent as `dd/mm/yyyy` and read back by the dashboard as the same day |
| NewClient.Collect | novo-cliente.js:72-88 | the action is "createClient", the five text inputs are trimmed, and each of the four date inputs is sent as `toBrDate` of it: an empty date stays "", and no sent date holds "-" |
| NewClient.CollectTrimsTexts | novo-cliente.js:75-86 | each of the five text inputs is sent as typed less the blanks around it |
| NewClient.CollectRewritesDates | novo-cliente.js:79-84 | each of the four date inputs holding `yyyy-mm-dd` is sent as `dd/mm/yyyy` |
| NewClient.Validate | novo-cliente.js:96-97 | the record is accepted exactly when client and implantador are both non-empty; the client is checked first |
| NewClient.BlankClienteRejected | novo-cliente.js:75-96 | a client name of white space only is refused as missing |
| NewClient.InterpretReply | novo-cliente.js:104-120 | success exactly when the reply is an object with `ok === true`, and the message starts with the saved header; otherwise the reply's error, or "Erro inesperado ao salvar." when it has none, never empty |
| NewClient.SavedMessageLines | novo-cliente.js:111-113 | the saved message is the header, then the "Pasta:" line when the reply has a folder, then the "Linha/ID:" line when it has a row, in all four cases |
| NewClient.OnSave | novo-cliente.js:90-125 | a record is sent exactly when it validates, and then it is the collected record; a refusal shows the validation message; a decoded reply is shown as `InterpretReply` reads it, its error or "Erro inesperado ao salvar." included; a failed call shows the call's error |
| NewClient.StartRealReadsBack | app.js:166-200 | a start-real field written as `dd/mm/yyyy` is read by the dashboard as that day, and the row counts as started |
| NewClient.EmptyStartRealReadsBack | novo-cliente.js:81 | a start date left empty is sent as "", and the dashboard reads the stored row as undated and not started |
| NewClient.CollectedRecordReadsBack | novo-cliente.js:72-88 | a saved client stored as sent reappears on the dashboard with the same client, implantador and start-real day, counted as started |

## Left out

- The network is not modelled: `fetchData`, the JSONP fallback and `postJson`. `init` takes the payload, and `onSave` takes the reply or the call's error, as parameters.
- The DOM is not modelled: element lookups, `innerHTML`, `escapeHtml`, the active class on the sort button, the spinner and the disabled state of the save button in `finally`, and the "Carregando…"/"Atualizado" texts.
- The implantador dropdown filled by `init` (app.js:400-403) is not modelled. The filter takes the selected implantador as a plain text.
- The date inputs of the filters are given as day numbers. The parsing of the `yyyy-mm-dd` text of an `<input type="date">` is not modelled.
- Today is a parameter of `Render`. The clock is not modelled.
- Dates are ECMAScript day numbers times milliseconds per day. The local time zone and daylight saving are not modelled, so every date is at midnight of its day.
- `new Date(y, m, d)` maps years 0 to 99 to 1900 to 1999. This quirk is out of scope: the model reads such a year as itself.
- JavaScript numbers are modelled as integers. `Math.round(n / max * 100)` is computed exactly in integers, not in floating point.
- Collation.LocaleCompare: weaker than ICU's pt-BR collation. It folds case and strips Latin-1 accents, and orders digit runs by value. It does not model the full Unicode collation tables, punctuation weights or tie-breaking between digit runs with leading zeros.
- NewClient.CollectedRecordReadsBack: assumes the server stores the sent fields as plain strings. The spreadsheet behind the API is not modelled.
- Text.Lower: lowers only ASCII and Latin-1 capitals (U+00C0 to U+00DE). JavaScript lowers every Unicode capital (Ł, Œ, Greek, Cyrillic) and can lengthen a text (U+0130 becomes two code points), so the search filter finds fewer rows here for names outside Latin-1.
- App.Dashboard.Init: takes the filter controls as given. On a refresh, `init` rebuilds the implantador select (app.js:400-403), which resets it to "Todos"; the model does not clear that control itself.
- RowOrder.FieldVal: the keys `dInicio` and `dStartReal` of a row object hold `Date` objects; no sort button carries them, and the model reads them as undefined.

## Findings

| source | as written | input that shows it | evidently intended | confidence | as-written member | corrected member |
|---|---|---|---|---|---|---|
| app.js:409 | every successful `init` calls `bindSortButtons` again, and the refresh button (app.js:437) runs `init`, so each load adds one more click handler to every sort button and a click toggles the sort state once per handler | load the page, then click "Atualizar" once: a click on the current sort column leaves the direction unchanged, and a click on another column sorts it descending instead of ascending | one toggle of the sort state per click, however often the data is reloaded | medium, not executed | App.RefreshBreaksSortButtons | App.Dashboard.ClickSort |
