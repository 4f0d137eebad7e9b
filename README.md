# Personal Finance Tracker — a verified model of its core

This project models, in Dafny, the logic of the Personal Finance Tracker
front end: the recurring-payment engine (`recurrence.js`) and the profile
screens built on it, the month-by-month expense calendar, the two
expense-analysis views, the expense summary with its date-range controls,
the header's year and month pickers, the daily expenses page, the date and
category helpers of `expenseUtils.js`, and the sign-up and change-password
forms.

Pure helpers (recurrence arithmetic, category normalisation, label
mapping, date arithmetic, validators) are Dafny functions with lemmas about
them. Loops of the source (`for … of`, `forEach`, `reduce` with a Map) are
methods with loop invariants, each proved equal to a specification
function whose properties are proved as lemmas. Component state that a
handler changes step by step (the profile's item list and snapshot, the
daily editor, the range controls, the sign-up and change-password forms,
the daily page) is a class whose methods say the whole new state.

Shared modules:

- `Wrappers` holds Option, and Result for the profile's sync outcome (`Profile.ProfileState.FinishSync`).
- `Text` models JavaScript string operations: `trim` with JavaScript white space, ASCII `toLowerCase`, `includes`, code-point order, and `Number()` of an optional sign followed by decimal digits.
- `DateText` holds (year, month, day) dates, day counts, `toYMD` and `parseYMD`, and the day of a date string as a `Map` key (`PartKey`), where the `undefined` of a missing day part and NaN are two keys.
- `Seqs` holds filtering, flattening and a stable insertion sort.
- `OrderedMap` models a JavaScript `Map` as an insertion-ordered list of pairs.
- `Expenses` holds the expense records and category keys shared by both analysis views.

A JavaScript value that `Number()` may turn into `NaN` is an `Option<int>`, with `None` standing for `NaN`. The parts `parseYMD` reads are `Option<int>` too: a missing part is `undefined`, which, like `NaN`, equals no number.

## Model

| member | source | states |
|---|---|---|
| Recurrence.PeriodMonths | src/components/profile/utils/recurrence.js:5-10 | exactly the four cadences monthly, quarterly, half-yearly and yearly have a period, and it is 1, 3, 6 or 12 months |
| Recurrence.MonthStart | src/components/profile/utils/recurrence.js:16 | `new Date(y, m, 1)` is a valid date, day 1, in month index `12y + m` (a month outside 0..11 rolls over) |
| Recurrence.MonthEnd | src/components/profile/utils/recurrence.js:17 | `new Date(y, m + 1, 0)` is a valid date in the same month and its day is the month's last day |
| Recurrence.MonthsBetween | src/components/profile/utils/recurrence.js:20-22 | the whole months from `a` to `b` are the difference of their month indices |
| Recurrence.MonthsBetweenAntisymmetric | src/components/profile/utils/recurrence.js:20-22 | swapping the two dates negates the month difference |
| Recurrence.IndexOrder | src/components/profile/utils/recurrence.js:29-32 | a date in an earlier month is chronologically earlier; two dates with the same month index share year and month |
| Recurrence.InRangeByIndex | src/components/profile/utils/recurrence.js:24-34 | an item is in range in a month iff it has a start date, the start's month is not later, and, when there is an end date, the month is not after the end's month |
| Recurrence.OccursPeriodic | src/components/profile/utils/recurrence.js:36-50 | a periodic item occurs in a month iff the month is not before its start month and the month difference is a multiple of the period |
| Recurrence.OccursUnknownNever | src/components/profile/utils/recurrence.js:37-38 | an item without a start date, or with a recurrence that is neither one-time nor a known cadence, occurs in no month |
| Recurrence.StepUpK | src/components/profile/utils/recurrence.js:52-63 | the step-up cycle count is never negative and is positive only for an item with a start date and an enabled step-up rule |
| Recurrence.StepUpKCycles | src/components/profile/utils/recurrence.js:58-62 | with step-up on and the month not before the step-up origin, `k` is the floor of the elapsed months over 6 or 12: `k * every <= diff < (k + 1) * every` |
| Recurrence.StepUpKMonotone | src/components/profile/utils/recurrence.js:52-63 | the cycle count never decreases as the month advances |
| Recurrence.RoundHalfUp | src/components/profile/utils/recurrence.js:74 | `Math.round(num / den)` is the integer nearest the quotient, halves rounded up |
| Recurrence.ApplyStepUp | src/components/profile/utils/recurrence.js:65-77 | without a rule, with the rule disabled, with no completed cycle, or with an unknown mode, the base amount is returned unchanged |
| Recurrence.AmountModeStep | src/components/profile/utils/recurrence.js:67-70 | in amount mode each further cycle, from cycle 0 on, adds exactly the rule's value (`Number(value || 0)`) |
| Recurrence.PercentModeGrows | src/components/profile/utils/recurrence.js:71-75 | in percent mode a non-negative percentage never lowers a non-negative base amount |
| Recurrence.AmountModeClosedForm | src/components/profile/utils/recurrence.js:67-70 | in amount mode the amount after k cycles is the base plus k times the rule's value |
| Recurrence.PercentModeRounding | src/components/profile/utils/recurrence.js:71-75 | in percent mode the amount after k cycles is the compounded value `base * ((100 + v) / 100)^k` rounded to the nearest integer, halves up |
| Recurrence.RoundMonotone | src/components/profile/utils/recurrence.js:74 | `Math.round` of fractions never goes down when the fraction does not |
| Recurrence.PercentModeMonotone | src/components/profile/utils/recurrence.js:71-75 | in percent mode a non-negative percentage on a non-negative base never lowers the amount from one cycle to the next |
| Recurrence.ApplyStepUpMonotone | src/components/profile/utils/recurrence.js:65-77 | with a non-negative base and rule value, more completed cycles never give a smaller amount, in every mode |
| Recurrence.LaterDueNotCheaper | src/components/profile/utils/recurrence.js:79-86 | for an item with a non-negative amount and rule, a later month in which it is due never costs less than an earlier one |
| Recurrence.InRangeMonth | src/components/profile/utils/recurrence.js:24-34 | `inRangeMonth`: false without a start date; otherwise the month does not end before the start and does not begin after the end, if any |
| Recurrence.OccursInMonth | src/components/profile/utils/recurrence.js:36-50 | `occursInMonth`: a one-time item in the month of its start, a periodic one when a whole number of periods separates the month from the start month (stated by `OccursPeriodic`) |
| Recurrence.AmountForMonth | src/components/profile/utils/recurrence.js:109-114 | `amountForMonth`: the sum, over the items of the filtered type (all items without a filter), of each item's amount in the month |
| Recurrence.AmountForItemInMonth | src/components/profile/utils/recurrence.js:79-86 | out of range or off cadence the amount is 0; due with no completed step-up cycle it is the base amount; due with an enabled amount-mode rule it is the base plus the number of completed cycles times the rule's value |
| Recurrence.AmountNonNegative | src/components/profile/utils/recurrence.js:79-86 | an item with a non-negative amount and step-up value never costs a negative amount in any month |
| Recurrence.OfKind | src/components/profile/utils/recurrence.js:101 | the type filter keeps only items of the given type, all taken from the input |
| Recurrence.FilterIsOfKind | src/components/profile/utils/recurrence.js:109-114 | `amountForMonth` with a non-empty type filter equals the unfiltered sum over that type's items |
| Recurrence.TwoKindsWithinTotal | src/components/profile/utils/recurrence.js:109-114 | for non-negative items, the totals for two different types together never exceed the unfiltered total |
| Recurrence.AmountForMonthSnoc | src/components/profile/utils/recurrence.js:110-113 | the reduce adds each item's monthly amount to the running sum |
| Recurrence.MonthlyTotals | src/components/profile/utils/recurrence.js:88-96 | twelve totals; slot `m` is `amountForMonth(items, y, m)` without a type filter |
| Recurrence.AddToMonths | src/components/profile/utils/recurrence.js:91-93 | the inner loop adds one item's amount into every month slot, so each slot then sums the items so far plus this one |
| Recurrence.MonthlyTotalsByType | src/components/profile/utils/recurrence.js:98-107 | twelve totals; slot `m` sums only the items of the requested type |
| Recurrence.MakeDate | src/components/profile/utils/recurrence.js:134 | `new Date(y, m, day)` is a valid date: the requested day when the month has it, otherwise rolled into the next month by the excess days |
| Recurrence.DueInMonth | src/components/profile/utils/recurrence.js:133 | due in month index `12y + m` iff the item occurs in that month and is in range |
| Recurrence.PastEndStaysPast | src/components/profile/utils/recurrence.js:138 | once a month starts after the end date, no later month is due |
| Recurrence.FirstDueSpec | src/components/profile/utils/recurrence.js:130-140 | the bounded search finds nothing iff no month from `i` to 59 is due, and otherwise finds the earliest due month |
| Recurrence.PastEndNoneDue | src/components/profile/utils/recurrence.js:138 | breaking out once past the end date loses nothing: no later month within the bound is due |
| Recurrence.NextDueDate | src/components/profile/utils/recurrence.js:116-141 | no start date or an unknown cadence gives null; a one-time item gives its start date when that is not before the first of `fromDate`'s month, else null; a periodic item gives the start's day in the earliest due month among the next 60, or null |
| Recurrence.DueAfterAt | src/components/profile/utils/recurrence.js:131-137 | the loop's `(y, m)` after `i` increments is month `i` after `fromDate`'s month, and the date built there is that month's `new Date(y, m, startDay)` |
| Recurrence.ScanMonths | src/components/profile/utils/recurrence.js:130-140 | the 60-month loop returns the date of the earliest due month, or null when there is none |
| Profile.EqItemSymmetric | src/components/profile/Profile.jsx:42-62 | `eqItem` is symmetric |
| Profile.EqItem | src/components/profile/Profile.jsx:42-62 | `eqItem`: false when either item is missing or an amount is NaN, otherwise field-by-field equality with the step-up rule compared through its defaults |
| Profile.EqItemTransitive | src/components/profile/Profile.jsx:42-62 | `eqItem` is transitive |
| Profile.EqItemReflexive | src/components/profile/Profile.jsx:42-62 | an item equals itself exactly when its amount is a number (`NaN === NaN` is false) |
| Profile.NormalizeForWire | src/components/profile/Profile.jsx:63-81 | the wire form keeps id, type, label, amount, recurrence and dates, and always carries a step-up rule with a mode, a cadence and a numeric value |
| Profile.NormalizeIdempotent | src/components/profile/Profile.jsx:63-81 | normalizing twice is normalizing once |
| Profile.NormalizeEqItem | src/components/profile/Profile.jsx:42-81 | the wire form still `eqItem`s its source item iff the amount is a number and the item's step-up rule already had a mode and a cadence |
| Profile.Ids | src/components/profile/Profile.jsx:84 | the ids of a list, position by position |
| Profile.ById | src/components/profile/Profile.jsx:84-86 | a lookup in `new Map(list.map(x => [x.id, x]))` misses iff no item has the id, and otherwise returns an item of the list with that id |
| Profile.EqualListReflexive | src/components/profile/Profile.jsx:82-90 | a list with distinct ids and numeric amounts is `isEqualList` to itself |
| Profile.ByIdDistinct | src/components/profile/Profile.jsx:84-86 | with distinct ids, looking up an item's id returns that very item |
| Profile.IsEqualList | src/components/profile/Profile.jsx:82-90 | the loop answers true iff the lengths agree and every item of `a` `eqItem`s the item `b`'s map holds for its id |
| Profile.IdMap | src/components/profile/Profile.jsx:84 | the map built from `b` answers every id exactly as the lookup by id does |
| Profile.ReplaceById | src/components/profile/Profile.jsx:274 | `prev.map`: same length, every item with the new item's id replaced by it, the others unchanged |
| Profile.Upsert | src/components/profile/Profile.jsx:271-283 | an existing id keeps the length and every other item; a new id is appended at the end |
| Profile.RemoveId | src/components/profile/Profile.jsx:286-297 | the filter never grows the list and leaves no item with the deleted id |
| Profile.RemoveIdSpec | src/components/profile/Profile.jsx:288 | every item with another id survives the filter, and nothing else appears |
| Profile.UpsertFinds | src/components/profile/Profile.jsx:271-283 | after add-or-update, looking up the item's id finds exactly the new item |
| Profile.UpsertFindsReplaced | src/components/profile/Profile.jsx:274 | in the replaced list, the lookup of the id finds the new item in every prefix that held the id |
| Profile.DeleteAfterUpsert | src/components/profile/Profile.jsx:271-297 | deleting an id right after adding or updating it gives what deleting it would have given before |
| Profile.RemoveReplaced | src/components/profile/Profile.jsx:274-288 | deleting an id after replacing its items equals deleting it from the original |
| Profile.RemoveIdIdempotent | src/components/profile/Profile.jsx:286-297 | deleting the same id twice is deleting it once |
| Profile.NoIdUnchanged | src/components/profile/Profile.jsx:288 | deleting an id no item has leaves the list unchanged |
| Profile.ProfileState.constructor | src/components/profile/Profile.jsx:191-194 | after a successful load the items and the server snapshot are both the server list |
| Profile.ProfileState.AddOrUpdate | src/components/profile/Profile.jsx:271-283 | the items become the add-or-update of the old items; the snapshot is untouched (nothing is synced) |
| Profile.ProfileState.Delete | src/components/profile/Profile.jsx:286-297 | the items lose the deleted id; the snapshot is untouched |
| Profile.ProfileState.OnClose | src/components/profile/Profile.jsx:262-268 | the dialog closes iff the items are `isEqualList` to the snapshot; a dirty list keeps it open and changes nothing |
| Profile.ProfileState.FinishSync | src/components/profile/Profile.jsx:319-364 | with a token and a successful refetch, items and snapshot both become the refetched list (`[]` for none); without a token or on a failure both are unchanged |
| Profile.MapById | src/components/profile/Profile.jsx:328-329 | the ordered map built from a list has distinct keys and answers every id as the lookup by id does |
| Profile.PickSpec | src/components/profile/Profile.jsx:335-339 | over distinct keys, the picked requests name exactly the selected local ids, once each, each with the wire form of its local item |
| Profile.PickIds | src/components/profile/Profile.jsx:335-339 | the picked ids are exactly the keys that are selected and held locally, without repeats |
| Profile.LocalPass | src/components/profile/Profile.jsx:335-339 | creates are exactly the local ids absent on the server; updates are exactly the ids on both sides whose items are not `eqItem`; each carries the wire form of the local item; no id repeats |
| Profile.ServerPass | src/components/profile/Profile.jsx:340-342 | deletes are exactly the server ids absent locally, without repeats |
| Profile.SyncDiff | src/components/profile/Profile.jsx:327-342 | the create/update/delete partition of a sync satisfies all of the above together |
| Profile.ToMap | src/components/profile/Profile.jsx:328 | the id map of a list has exactly the list's ids, each mapped to what the lookup by id returns |
| Profile.DiffReconciles | src/components/profile/Profile.jsx:344-346 | applying the creates, updates and deletes leaves the server with exactly the local ids, each holding the wire form of the local item or a server item that already equalled it |
| SummaryBar.MonthAt | src/components/profile/MonthlySummaryBar.jsx:18-19 | `(y + floor((m + i) / 12), (m + i) % 12)` is a 0-based month that lies exactly `i` months after month `m` of year `y` |
| SummaryBar.YearSuffix | src/components/profile/MonthlySummaryBar.jsx:21 | `String(yy).slice(-2)` is the last two characters of the year, or all of a shorter one |
| SummaryBar.YearSuffixDigits | src/components/profile/MonthlySummaryBar.jsx:21 | from year 10 on the suffix is the tens digit followed by the units digit |
| SummaryBar.PillLabel | src/components/profile/MonthlySummaryBar.jsx:21 | a pill label starts with the month's short name and a space |
| SummaryBar.Next6 | src/components/profile/MonthlySummaryBar.jsx:16-24 | the loop builds six pills; pill `i` is labelled with the month `i` months ahead and carries `amountForMonth` of that month |
| SummaryBar.MonthNamesDistinct | src/components/profile/MonthlySummaryBar.jsx:5 | the twelve short month names are pairwise different |
| SummaryBar.MonthsDiffer | src/components/profile/MonthlySummaryBar.jsx:18 | fewer than twelve months apart, two months of the walk never have the same month number |
| SummaryBar.Next6LabelsDistinct | src/components/profile/MonthlySummaryBar.jsx:44-45 | the six pill labels, used as React keys, are pairwise different |
| SummaryBar.MonthTiles | src/components/profile/MonthlySummaryBar.jsx:12-14 | the three tiles are the month's total, the total of the EMI items and the total of the SIP items |
| SummaryBar.TilesWithinTotal | src/components/profile/MonthlySummaryBar.jsx:12-14 | for non-negative items the EMI and SIP tiles together never exceed the total tile |
| SummaryBar.FirstPillIsThisMonth | src/components/profile/MonthlySummaryBar.jsx:12-22 | the first pill is this month: its amount is the total tile and its label is this month's label |
| RecurringEditor.NumberOf | src/components/profile/RecurringItemEditor.jsx:56 | `Number(field)`: a number loaded from the edited item is kept as is; typed text is read as `Number` reads blank text, an optional sign and decimal digits (None, standing for NaN, for anything else) |
| RecurringEditor.FromItem | src/components/profile/RecurringItemEditor.jsx:37-53 | loading an item copies its id, type, label and amount into the form, and an item without a step-up rule gets the default rule |
| RecurringEditor.BlankTitleBlocks | src/components/profile/RecurringItemEditor.jsx:55-60 | a label of only white space can never be submitted |
| RecurringEditor.CanSubmit | src/components/profile/RecurringItemEditor.jsx:55-60 | `canSubmit`: a type, a label that is not blank, a positive amount, and a start date unless the item is one-time |
| RecurringEditor.Normalized | src/components/profile/RecurringItemEditor.jsx:65-79 | the submitted item always has an id (the form's own, or `rec_<now>`), keeps type, label, recurrence and dates, has `Number(amount)` as amount and a step-up rule whose value is 0 and origin empty when step-up is off, and whose origin falls back to the start date when it is on |
| RecurringEditor.EditRoundTrip | src/components/profile/RecurringItemEditor.jsx:37-79 | loading a well-formed item into the form and submitting it unchanged passes the guard and hands back exactly that item |
| RecurringEditor.SubmitThenEdit | src/components/profile/RecurringItemEditor.jsx:37-79 | every submitted item, loaded back into the form, can be submitted again |
| RecurringEditor.Patched | src/components/profile/RecurringItemEditor.jsx:62 | `update(patch)` never changes the id or the step-up rule |
| RecurringEditor.StepPatchKeepsGuard | src/components/profile/RecurringItemEditor.jsx:55-63 | step-up edits never change whether the form may be submitted |
| RecurringEditor.AmountPatchGuard | src/components/profile/RecurringItemEditor.jsx:55-62 | after typing an amount, the form can be submitted only if the text reads as a positive number; a submittable form stays submittable when the new text reads as a positive number |
| RecurringEditor.Editor.constructor | src/components/profile/RecurringItemEditor.jsx:20-35 | the editor starts with the empty monthly SIP form and is not editing |
| RecurringEditor.Editor.LoadEdit | src/components/profile/RecurringItemEditor.jsx:37-53 | the form becomes the loaded item's form |
| RecurringEditor.Editor.Update | src/components/profile/RecurringItemEditor.jsx:62 | the form becomes the patched form |
| RecurringEditor.Editor.UpdateStep | src/components/profile/RecurringItemEditor.jsx:63 | only the step-up rule of the form is patched |
| RecurringEditor.Editor.Submit | src/components/profile/RecurringItemEditor.jsx:65-93 | a form failing the guard hands on nothing and stays as it is; otherwise the normalized item is handed on and the form resets unless an item is being edited |
| RecurringEditor.SubmittedShape | src/components/profile/RecurringItemEditor.jsx:55-79 | a submitted item has a positive amount, a start date unless it is one-time, and the form's step-up mode and cadence |
| ExpenseUtils.YearLength | src/utils/expenseUtils.js:5 | the day count of `new Date(y, m, d)` advances by 366 days over a leap year and 365 over any other |
| ExpenseUtils.DayOrder | src/utils/expenseUtils.js:10-14 | for real dates, comparing the day counts of the `Date`s built from year, month and day is comparing the dates chronologically |
| ExpenseUtils.FilterDays | src/utils/expenseUtils.js:12-15 | the range filter never adds elements |
| ExpenseUtils.FilterDaysMembers | src/utils/expenseUtils.js:12-15 | an element is kept iff it was in the input and its parsed day is a valid date between the two bounds inclusive (an Invalid Date compares false both ways) |
| ExpenseUtils.MissingBound | src/utils/expenseUtils.js:9 | a missing start or end date gives no groups at all |
| ExpenseUtils.FilterByCustomRange | src/utils/expenseUtils.js:8-15 | `filterByCustomRange`: no groups without both bounds, otherwise the groups whose date falls between the two days, bounds included |
| ExpenseUtils.MakeDay | src/utils/expenseUtils.js:5 | `new Date(y, m - 1, d)` as a day count: years 0..99 mean 1900 onwards, and the month and day roll over (ordered by `DayOrder`) |
| ExpenseUtils.ParsedDay | src/utils/expenseUtils.js:3-6 | the day count `parseYMD` builds, or the Invalid Date when a part is not a number |
| ExpenseUtils.GroupDay | src/utils/expenseUtils.js:13 | `parseYMD(group.date)` as a day count |
| ExpenseUtils.DayOf | src/utils/expenseUtils.js:10-11 | the local midnight of a picked date as a day count |
| ExpenseUtils.FilterDaysConcat | src/utils/expenseUtils.js:12-15 | the filter keeps order: filtering a concatenation is concatenating the filtered parts |
| ExpenseUtils.FilterDaysOne | src/utils/expenseUtils.js:12-15 | a single element is kept iff its day is in range |
| ExpenseUtils.EmptyRange | src/utils/expenseUtils.js:14 | an upper bound before the lower bound keeps nothing |
| ExpenseUtils.ReversedRangeEmpty | src/utils/expenseUtils.js:8-15 | an end date before the start date gives no groups |
| ExpenseUtils.FormattedDay | src/utils/expenseUtils.js:3-6 | `parseYMD` of a date written as `yyyy-mm-dd` gives that date's day count |
| ExpenseUtils.KeptWhenBetween | src/utils/expenseUtils.js:8-15 | a group dated `yyyy-mm-dd` is kept iff its date lies between the start and end dates inclusive |
| ExpenseUtils.CategoryTotalsMap | src/utils/expenseUtils.js:18-27 | the nested loops build exactly the insertion-ordered accumulation of every item's `Number(amount) \|\| 0` under its raw category |
| ExpenseUtils.CategoryTotalsSpec | src/utils/expenseUtils.js:18-27 | the Map holds exactly the raw categories that occur, each once, each with the sum of its items' amounts, and its values add up to the amounts of all items |
| DateText.DateLeTransitive | src/utils/expenseUtils.js:14 | chronological order of dates is transitive |
| DateText.DaysInMonth | src/components/daily/ExpenseAnalysis.jsx:35 | `new Date(y, m, 0).getDate()` is between 28 and 31, and February has 29 days exactly in leap years |
| DateText.Pad2 | src/components/daily/ExpenseAnalysis.jsx:20 | `padStart(2, "0")` gives at least two characters |
| DateText.Pad2Reads | src/components/daily/ExpenseAnalysis.jsx:20 | for 0..99 the padded text is two digits that read back as the number |
| DateText.ParseToYMD | src/components/daily/ExpenseAnalysis.jsx:30-34 | `parseYMD(toYMD(y, m, d))` gives back `y`, `m` and `d` |
| DateText.ToYMD | src/components/daily/ExpenseAnalysis.jsx:34 | `toYMD(y, m, d)`: the year, then the month and the day padded to two digits, joined by "-" (read back by `ParseToYMD`) |
| DateText.ParseYMD | src/components/daily/ExpenseAnalysis.jsx:30-33 | `parseYMD(s)`: the numbers of the first three pieces of `s.split("-")`, None for NaN or a missing piece (inverse of `ToYMD` by `ParseToYMD`) |
| DateText.DayPartKeySpec | src/components/daily/ExpenseAnalysis.jsx:129 | the day key of a date string is a number exactly when `parseYMD` reads a day, that day, and `undefined` exactly when the split gives fewer than three pieces |
| DateText.DayPartKeyOfYMD | src/components/daily/ExpenseAnalysis.jsx:129 | a date string the client formats has its day as its key |
| DateText.MissingAndNaNDayDiffer | src/components/monthly/MonthlyExpenseCalendar.jsx:76-85 | "y-m" and "y-m-d" with an unreadable day both read no day, yet are the two keys `undefined` and NaN |
| DateText.SplitYMD | src/components/daily/ExpenseAnalysis.jsx:31-34 | splitting a formatted date on "-" gives the year, the padded month and the padded day |
| DateText.DigitsNumber | src/components/daily/ExpenseAnalysis.jsx:31 | `Number` of a non-empty digit string is its decimal value |
| DateText.ToYMDLength | src/components/daily/ExpenseAnalysis.jsx:34 | a four-digit year's date string has exactly ten characters |
| DateText.ByDatePreorder | src/components/daily/DailyExpensesPage.jsx:77 | the `localeCompare` comparator on date text is a total preorder, so sorting by it is well defined |
| DateText.SortByDateOrdered | src/components/expense-summary/ExpenseSummary.jsx:125 | sorting by date text leaves the dates in ascending order |
| ExpenseSummary.PrettyLabelSpec | src/components/expense-summary/ExpenseSummary.jsx:32-45 | a label is never empty, and it is either one of the fixed labels or the trimmed raw text |
| ExpenseSummary.LabelOfTrimmedSpec | src/components/expense-summary/ExpenseSummary.jsx:34-44 | on already trimmed text, the mapping gives a non-empty fixed label or the text itself |
| ExpenseSummary.LabelOfTrimmed | src/components/expense-summary/ExpenseSummary.jsx:34-44 | the mapping of `toPrettyLabel` after the trim (stated by `LabelOfTrimmedSpec`) |
| ExpenseSummary.BlankIsOther | src/components/expense-summary/ExpenseSummary.jsx:33-44 | a missing or blank category is labelled "Other" |
| ExpenseSummary.PrettyLabelIgnoresPadding | src/components/expense-summary/ExpenseSummary.jsx:33 | white space around the raw category never changes its label |
| ExpenseSummary.KeywordDecides | src/components/expense-summary/ExpenseSummary.jsx:36-41 | text other than "Credit Card" and "EMIs" takes the label its first matching lowered keyword gives |
| ExpenseSummary.PrettyOfTrimmed | src/components/expense-summary/ExpenseSummary.jsx:33 | text with nothing to trim is labelled as it stands |
| ExpenseSummary.FixedLabelTrimmed | src/components/expense-summary/ExpenseSummary.jsx:34-42 | each label the mapping produces maps to itself |
| ExpenseSummary.FixedLabelUnpadded | src/components/expense-summary/ExpenseSummary.jsx:34-42 | no fixed label has white space at its ends |
| ExpenseSummary.FixedLabelStable | src/components/expense-summary/ExpenseSummary.jsx:32-45 | `toPrettyLabel` of a fixed label is that label |
| ExpenseSummary.PrettyLabelIdempotent | src/components/expense-summary/ExpenseSummary.jsx:32-45 | labelling a label again changes nothing |
| ExpenseSummary.DateStringParses | src/components/expense-summary/ExpenseSummary.jsx:11-26 | `parseInputDate(toYMD(date))` reads back the date's year, month and day |
| ExpenseSummary.ClampBounds | src/components/expense-summary/ExpenseSummary.jsx:97-102 | with ordered bounds the clamped date lies between them, and a date already between them is unchanged |
| ExpenseSummary.Clamp | src/components/expense-summary/ExpenseSummary.jsx:97-102 | `Math.max(min, Math.min(x, max))` of valid dates (stated by `ClampBounds` and `ClampMonotone`) |
| ExpenseSummary.Later | src/components/expense-summary/ExpenseSummary.jsx:83-94 | `a > b` of input dates: false whenever either is an Invalid Date |
| ExpenseSummary.ClampMonotone | src/components/expense-summary/ExpenseSummary.jsx:97-102 | clamping keeps the order of two dates, so an applied range is never reversed |
| ExpenseSummary.SortedByDateSpec | src/components/expense-summary/ExpenseSummary.jsx:125 | the stored groups are a permutation of the fetched ones, in ascending date-string order |
| ExpenseSummary.SortedByDate | src/components/expense-summary/ExpenseSummary.jsx:125 | `[...data].sort` by date text (stated by `SortedByDateSpec`) |
| ExpenseSummary.ClampInput | src/components/expense-summary/ExpenseSummary.jsx:97-102 | `Math.max(min, Math.min(x, max))` of a date: an Invalid Date stays invalid, and a valid one lands between the bounds when they are ordered |
| ExpenseSummary.InputString | src/components/expense-summary/ExpenseSummary.jsx:21-26 | `toYMD` of an input date: the `yyyy-mm-dd` text of a valid date, "NaN-NaN-NaN" of an Invalid Date |
| ExpenseSummary.PrettyLabel | src/components/expense-summary/ExpenseSummary.jsx:32-45 | `toPrettyLabel`: the trimmed category, kept for "Credit Card" and "EMIs", mapped by the first matching keyword, "Other" for "other", "Other" or blank, and the trimmed text otherwise |
| ExpenseSummary.RangeControls.constructor | src/components/expense-summary/ExpenseSummary.jsx:67-75 | the pending and applied ranges start as 1 January of this year to today, with no error and no groups |
| ExpenseSummary.RangeControls.OnPendingStartChange | src/components/expense-summary/ExpenseSummary.jsx:80-84 | the pending start becomes the new input date, and the error is set exactly when both dates are valid and the start is after the pending end (an Invalid Date compares false and sets none); nothing else changes |
| ExpenseSummary.RangeControls.OnPendingEndChange | src/components/expense-summary/ExpenseSummary.jsx:86-90 | the pending end becomes the new input date, and the error is set exactly when both dates are valid and the end is before the pending start (an Invalid Date compares false and sets none); nothing else changes |
| ExpenseSummary.RangeControls.Apply | src/components/expense-summary/ExpenseSummary.jsx:92-124 | a pending range of two valid, reversed dates only sets the invalid-range error; otherwise the applied range becomes the clamped pending range (ordered when both are valid, an Invalid Date staying invalid), and a request for their two `toYMD` strings ("NaN-NaN-NaN" for an Invalid Date) is made exactly when there is a token, the not-logged-in error otherwise |
| ExpenseSummary.RangeControls.Receive | src/components/expense-summary/ExpenseSummary.jsx:125-126 | a successful fetch stores the groups sorted by date and changes nothing else |
| ExpenseSummary.RangeControls.Fail | src/components/expense-summary/ExpenseSummary.jsx:134-136 | a failed fetch stores its message (or the default when it has none) and clears the groups |
| ExpenseSummary.LabelTotals | src/components/expense-summary/ExpenseSummary.jsx:207-225 | the loop yields the keys and values of the insertion-ordered accumulation of amounts by pretty label, and the grand total of all amounts |
| ExpenseSummary.LabelTotalsSpec | src/components/expense-summary/ExpenseSummary.jsx:207-225 | the chart labels are distinct and are exactly the items' labels, each value is that label's total, and the values add up to the grand total |
| Text.TrimStartSpec | src/components/expense-summary/ExpenseSummary.jsx:33 | trimming the start keeps a suffix that is empty or starts with a non-space, and cuts only white space |
| Text.TrimEndSpec | src/components/expense-summary/ExpenseSummary.jsx:33 | trimming the end keeps a prefix that is empty or ends with a non-space, and cuts only white space |
| Text.TrimSpec | src/components/expense-summary/ExpenseSummary.jsx:33 | `trim` keeps a contiguous slice with only white space cut on either side, and the slice is empty or has a non-space at both ends |
| Text.TrimEmptyIff | src/components/profile/RecurringItemEditor.jsx:57 | the trimmed text is empty exactly when the text is all white space |
| Text.TrimNoSpace | src/components/expense-summary/ExpenseSummary.jsx:33 | text without any white space trims to itself |
| Text.TrimIdempotent | src/components/expense-summary/ExpenseSummary.jsx:33 | trimming twice is trimming once |
| Text.ToLower | src/components/expense-summary/ExpenseSummary.jsx:36 | `toLowerCase` keeps the length and folds each character on its own |
| Text.MissingCharNotContained | src/components/expense-summary/ExpenseSummary.jsx:37-41 | text lacking one of the pattern's characters does not `include` the pattern |
| Text.ContainsSpec | src/components/expense-summary/ExpenseSummary.jsx:37-41 | `includes` holds exactly when the pattern occurs at some index |
| Text.LexLeTotal | src/components/expense-summary/ExpenseSummary.jsx:125 | `localeCompare` order on the date strings is total |
| Text.LexLeTransitive | src/components/expense-summary/ExpenseSummary.jsx:125 | that order is transitive |
| Text.LexLeAntisymmetric | src/components/expense-summary/ExpenseSummary.jsx:125 | two strings each no later than the other are equal |
| Text.NatToString | src/components/profile/MonthlySummaryBar.jsx:21 | `String(n)` is a non-empty run of digits with no leading zero except for 0 itself |
| Text.IntToString | src/components/profile/MonthlySummaryBar.jsx:21 | `String(n)` of a negative number starts with a minus sign |
| Text.ParseNatToString | src/utils/expenseUtils.js:4 | the digits of `String(n)` read back as `n` |
| Text.JsNumberBlank | src/components/profile/RecurringItemEditor.jsx:56 | `Number` of blank text is 0 |
| Text.JsNumber | src/components/profile/RecurringItemEditor.jsx:56 | `Number(text)` of trimmed text: 0 for blank, the integer for an optional sign and decimal digits, NaN (None) otherwise |
| Text.Utf16Length | src/components/auth/SignupPage.jsx:25 | `length` in UTF-16 code units: at least the number of characters and at most twice it |
| Text.Utf16LengthBmp | src/components/auth/SignupPage.jsx:25 | for text inside the Basic Multilingual Plane `length` is the number of characters |
| Text.Utf16LengthAstral | src/components/auth/SignupPage.jsx:25 | for text made only of characters beyond U+FFFF `length` is twice the number of characters |
| Text.Utf16LengthConcat | src/components/auth/SignupPage.jsx:25 | `length` adds up over concatenation |
| Text.JsNumberOfInt | src/components/profile/RecurringItemEditor.jsx:56 | `Number(String(n))` gives `n` back |
| Text.JsNumberOfNegative | src/components/profile/RecurringItemEditor.jsx:56 | `Number` of a minus sign followed by digits is the negative value |
| Text.Split | src/utils/expenseUtils.js:4 | `split` always yields at least one piece |
| Text.SplitNoSep | src/utils/expenseUtils.js:4 | text without the separator splits into itself alone |
| Text.SplitCons | src/utils/expenseUtils.js:4 | a separator-free head followed by the separator splits off as the first piece |
| DailyAnalysis.MonthExpenses | src/components/daily/ExpenseAnalysis.jsx:101-108 | the month filter keeps exactly the expenses whose parsed year and month are the selected ones, never more than there were |
| DailyAnalysis.InMonth | src/components/daily/ExpenseAnalysis.jsx:104-105 | the parsed year and month equal the selected ones; NaN and `undefined` equal nothing |
| DailyAnalysis.OwnDateInMonth | src/components/daily/ExpenseAnalysis.jsx:30-34 | an expense dated by `toYMD(y, m, d)` belongs to month `m` of year `y` |
| DailyAnalysis.AsItems | src/components/daily/ExpenseAnalysis.jsx:113 | each expense is read for its amount and category, one item per expense |
| DailyAnalysis.MonthTotal | src/components/daily/ExpenseAnalysis.jsx:111-115 | the loop's total is the sum of `Number(e.amount) \|\| 0` over the month's expenses |
| DailyAnalysis.MonthByCategory | src/components/daily/ExpenseAnalysis.jsx:117-123 | the six category totals each sum their category's amounts, and together they add up to the month total |
| DailyAnalysis.DaysOf | src/components/daily/ExpenseAnalysis.jsx:129 | the parsed day of each expense, in order |
| DailyAnalysis.DayFilter | src/components/daily/ExpenseAnalysis.jsx:128-129 | the expenses of one day are exactly the month's expenses with that parsed day |
| DailyAnalysis.DayOf | src/components/daily/ExpenseAnalysis.jsx:129 | the day `parseYMD(e.date).d` as a `Map` key: `undefined`, NaN or a number |
| DailyAnalysis.Bump | src/components/daily/ExpenseAnalysis.jsx:133-135 | bumping a day record keeps all six category keys |
| DailyAnalysis.DayRecOf | src/components/daily/ExpenseAnalysis.jsx:132-135 | a day's record always has the six category keys |
| DailyAnalysis.DayRecTotal | src/components/daily/ExpenseAnalysis.jsx:126-138 | a day's total is the sum of that day's amounts |
| DailyAnalysis.BumpCat | src/components/daily/ExpenseAnalysis.jsx:134-135 | bumping adds the amount to the expense's own category and to no other |
| DailyAnalysis.DayRecCat | src/components/daily/ExpenseAnalysis.jsx:126-138 | each category of a day's record sums that day's amounts in the category |
| DailyAnalysis.DayRecSpec | src/components/daily/ExpenseAnalysis.jsx:126-138 | a day's total and category amounts are that day's sums, and the categories add up to the day's total |
| DailyAnalysis.DayRecAbsent | src/components/daily/ExpenseAnalysis.jsx:132 | a day no expense falls on keeps the empty record |
| DailyAnalysis.TotalsByDay | src/components/daily/ExpenseAnalysis.jsx:126-138 | the Map holds exactly the day keys that occur (a date without a day part, a NaN day and each numeric day are different keys), each with its record, and the day totals add up to the month total |
| DailyAnalysis.Pct | src/components/daily/ExpenseAnalysis.jsx:257 | `pct` is 0 when the whole is 0 |
| DailyAnalysis.PctBounds | src/components/daily/ExpenseAnalysis.jsx:257-267 | a share of a positive whole is a percentage in 0..100, and the whole itself is 100 |
| DailyAnalysis.ShareBounds | src/components/daily/ExpenseAnalysis.jsx:257 | `Math.round(part / whole * 100)` of a share of a positive whole lies in 0..100 |
| DailyAnalysis.PatchRows | src/components/daily/ExpenseAnalysis.jsx:193-197 | `updateRow` merges the patch into the rows with the given id only, keeping the number of rows |
| DailyAnalysis.PatchRowsKeeps | src/components/daily/ExpenseAnalysis.jsx:193-197 | a patch never changes a row's id, original index or newness, and an id no row has changes nothing |
| DailyAnalysis.SomeAll | src/components/daily/ExpenseAnalysis.jsx:218 | `expenses.slice()` is a copy with every slot filled |
| DailyAnalysis.RowAt | src/components/daily/ExpenseAnalysis.jsx:224 | the row found for an entry is a row opened for that entry's index |
| DailyAnalysis.Slots | src/components/daily/ExpenseAnalysis.jsx:221-235 | each entry of the copy meets the fate its row gives it |
| DailyAnalysis.Compact | src/components/daily/ExpenseAnalysis.jsx:227 | removing the deleted slots keeps exactly the surviving entries |
| DailyAnalysis.SaveChanges | src/components/daily/ExpenseAnalysis.jsx:208-250 | the save loop, with each row acting on the entry it was opened for, gives the surviving (rewritten) entries in order followed by the unflagged new rows |
| DailyAnalysis.SaveAsWritten | src/components/daily/ExpenseAnalysis.jsx:218-246 | the save loop as written: each row applied in turn to the copy, splicing at the index it was opened with |
| DailyAnalysis.SaveSpec | src/components/daily/ExpenseAnalysis.jsx:207-250 | the intended saved list: the surviving, rewritten entries in their order, then the new rows not flagged for deletion |
| DailyAnalysis.SaveSpecKeeps | src/components/daily/ExpenseAnalysis.jsx:221-246 | an entry no row was opened for survives, an entry whose row is not flagged survives rewritten with the day's date, amount and category, and every unflagged new row is added |
| DailyAnalysis.CompactAllSome | src/components/daily/ExpenseAnalysis.jsx:218-235 | without deletions no slot is removed |
| DailyAnalysis.OverwriteTwice | src/components/daily/ExpenseAnalysis.jsx:229-234 | rewriting an entry twice leaves only the second rewrite |
| DailyAnalysis.AsWrittenWithoutDeletes | src/components/daily/ExpenseAnalysis.jsx:221-246 | with nothing flagged and every original index inside the list, the loop as written equals the intended save on slots |
| DailyAnalysis.ExistingRowStep | src/components/daily/ExpenseAnalysis.jsx:224-235 | an unflagged existing row rewrites its entry in place |
| DailyAnalysis.Overwrite | src/components/daily/ExpenseAnalysis.jsx:229-234 | `{ ...next[i], date, amount, category }`: the other fields of the entry are kept |
| DailyAnalysis.NewRowStep | src/components/daily/ExpenseAnalysis.jsx:236-245 | an unflagged new row is pushed after the others |
| DailyAnalysis.AsWrittenAgreesWithoutDeletes | src/components/daily/ExpenseAnalysis.jsx:216-246 | with nothing flagged, the loop as written leaves no holes, equals the intended save, and its length is the input length plus the new rows |
| DailyAnalysis.SecondDeletionLost | src/components/daily/ExpenseAnalysis.jsx:226-227 | two existing rows flagged for deletion: the loop as written keeps the second expense, the intended save removes both |
| DailyAnalysis.DayEditor.constructor | src/components/daily/ExpenseAnalysis.jsx:141-143 | no day is open, there are no rows and nothing is flagged |
| DailyAnalysis.DayEditor.Open | src/components/daily/ExpenseAnalysis.jsx:169-171 | opening a day sets the day and its rows and clears the flags |
| DailyAnalysis.DayEditor.AddRow | src/components/daily/ExpenseAnalysis.jsx:180-191 | one new row is appended, worth 0 in "other" and tied to no entry |
| DailyAnalysis.DayEditor.UpdateRow | src/components/daily/ExpenseAnalysis.jsx:193-197 | the rows become the patched rows; nothing else changes |
| DailyAnalysis.DayEditor.ToggleDelete | src/components/daily/ExpenseAnalysis.jsx:199-206 | the flagged set is toggled at the id; nothing else changes |
| DailyAnalysis.DayEditor.Save | src/components/daily/ExpenseAnalysis.jsx:208-250 | with a callback, it receives the intended save of the open day's rows; without one nothing is saved; either way the editor closes |
| Expenses.NormalizeCatSpec | src/components/daily/ExpenseAnalysis.jsx:38-46 | "mutual" decides mutual fund whatever else the text holds; "stock" without "mutual" decides stock; "other" only when no keyword matches |
| Expenses.NormalizeCat | src/components/daily/ExpenseAnalysis.jsx:38-46 | `normalizeCat`: the first matching substring test on the lower-cased text decides, "other" when none matches |
| Expenses.NormalizeCatKey | src/components/daily/ExpenseAnalysis.jsx:38-46 | each of the six keys classifies as itself, so normalising a normalised category changes nothing |
| Expenses.NormalizeCatIgnoresCase | src/components/daily/ExpenseAnalysis.jsx:39 | the classification ignores ASCII case |
| Expenses.RowValueTyped | src/components/daily/ExpenseAnalysis.jsx:232-241 | `Number(r.amount) \|\| 0` gives a typed number back and reads an empty input as 0 |
| Expenses.ItemsSumConcat | src/components/daily/ExpenseAnalysis.jsx:111-115 | the amount sum of two lists together is the sum of their sums |
| Expenses.GroupTotal | src/components/expense-analysis/ExpenseAnalysis.jsx:115-122 | a group counts its numeric `total` when it has one, else the sum of its items |
| Expenses.CatSumSnoc | src/components/daily/ExpenseAnalysis.jsx:119-121 | one more expense adds its amount to its own category's sum only |
| Expenses.CatSumsAddUp | src/components/daily/ExpenseAnalysis.jsx:111-123 | the six category sums add up to the total of all amounts |
| Expenses.ZeroCatsComplete | src/components/daily/ExpenseAnalysis.jsx:69-76 | `emptyCats` has the six keys, each 0 |
| Expenses.AddToCats | src/components/daily/ExpenseAnalysis.jsx:119-121 | adding an expense to category totals that hold the sums so far gives the sums with that expense |
| Expenses.Toggle | src/components/daily/ExpenseAnalysis.jsx:199-206 | the toggled set holds the id iff the old one did not, and agrees on every other id |
| Expenses.ToggleTwice | src/components/daily/ExpenseAnalysis.jsx:199-206 | toggling the same id twice restores the flagged set |
| GroupAnalysis.CmpYM | src/components/expense-analysis/ExpenseAnalysis.jsx:63 | `cmpYM` is positive exactly for a later (year, month) and negative exactly for an earlier one |
| GroupAnalysis.CanEditDay | src/components/expense-analysis/ExpenseAnalysis.jsx:64-71 | no day of a month after today's month is editable, every day of an earlier month is, and in today's month exactly the days up to today |
| GroupAnalysis.FlatGroup | src/components/expense-analysis/ExpenseAnalysis.jsx:76-83 | a group gives one flat entry per item (`g.items \|\| []`) |
| GroupAnalysis.FlatAll | src/components/expense-analysis/ExpenseAnalysis.jsx:73-86 | the nested loops push, group after group, one entry per item |
| GroupAnalysis.PushGroup | src/components/expense-analysis/ExpenseAnalysis.jsx:76-83 | the inner loop appends the group's entries to what was already pushed |
| GroupAnalysis.FlatAt | src/components/expense-analysis/ExpenseAnalysis.jsx:73-86 | there is exactly one entry per item across all groups, and item `i` of group `j` sits after the items of the earlier groups, with its group's date, its amount and its normalised category |
| GroupAnalysis.GroupsForMonth | src/components/expense-analysis/ExpenseAnalysis.jsx:107-113 | the month filter keeps exactly the groups whose parsed year and month are the selected ones |
| GroupAnalysis.InMonth | src/components/expense-analysis/ExpenseAnalysis.jsx:108-109 | the parsed year and month of the group's date equal the selected ones |
| GroupAnalysis.ItemsTotal | src/components/expense-analysis/ExpenseAnalysis.jsx:119 | the reduce sums `Number(it.amount) \|\| 0` over the items |
| GroupAnalysis.MonthTotal | src/components/expense-analysis/ExpenseAnalysis.jsx:115-122 | the month total adds each group's numeric `total` when it has one, else the sum of its items |
| GroupAnalysis.GroupsSum | src/components/expense-analysis/ExpenseAnalysis.jsx:115-122 | the sum over the groups of the numeric `total`, or of the items when there is none |
| GroupAnalysis.ConsistentTotal | src/components/expense-analysis/ExpenseAnalysis.jsx:115-122 | when every group's `total` is missing or equals its items' sum, the month total is the sum of all items |
| GroupAnalysis.AddItems | src/components/expense-analysis/ExpenseAnalysis.jsx:127-129 | the inner loop adds one group's items into the category totals |
| GroupAnalysis.MonthByCategory | src/components/expense-analysis/ExpenseAnalysis.jsx:124-132 | the six category totals each sum their category's item amounts, and add up to the items' total |
| GroupAnalysis.FindDate | src/components/expense-analysis/ExpenseAnalysis.jsx:216 | the search finds the first group with the date, or reports that no group has it |
| GroupAnalysis.OpenRows | src/components/expense-analysis/ExpenseAnalysis.jsx:159-173 | without a group for the day there are no rows; otherwise one existing row per item, carrying the item's id as its `expenseId` |
| GroupAnalysis.ItemRows | src/components/expense-analysis/ExpenseAnalysis.jsx:164-172 | one row per item, in order |
| GroupAnalysis.BuildRows | src/components/expense-analysis/ExpenseAnalysis.jsx:161-173 | the loop pushes exactly those rows |
| GroupAnalysis.PatchRows | src/components/expense-analysis/ExpenseAnalysis.jsx:194-196 | `updateRow` merges the patch into the rows with the given id only, keeping the number of rows |
| GroupAnalysis.PatchRowsKeepsIds | src/components/expense-analysis/ExpenseAnalysis.jsx:194-196 | a patch never changes a row's id, `expenseId` or newness |
| GroupAnalysis.RowItem | src/components/expense-analysis/ExpenseAnalysis.jsx:223-230 | a saved item keeps the row's `expenseId` when it is truthy and takes a fresh id otherwise, with amount `Number(r.amount) \|\| 0` |
| GroupAnalysis.KeptItemsSound | src/components/expense-analysis/ExpenseAnalysis.jsx:218-231 | every saved item comes from a row not flagged for deletion |
| GroupAnalysis.KeptItems | src/components/expense-analysis/ExpenseAnalysis.jsx:218-231 | the items of the rows not flagged for deletion, in row order (stated by `KeptItemsSound` and `KeptItemsComplete`) |
| GroupAnalysis.KeptItemsComplete | src/components/expense-analysis/ExpenseAnalysis.jsx:218-231 | every row not flagged for deletion yields its item |
| GroupAnalysis.AllFlaggedSavesNothing | src/components/expense-analysis/ExpenseAnalysis.jsx:219-221 | with every row flagged, no items remain |
| GroupAnalysis.SaveGroups | src/components/expense-analysis/ExpenseAnalysis.jsx:235-241 | no items and no group: unchanged; no items and a group: one group fewer; items and a group: same length; items and no group: one group more |
| GroupAnalysis.SaveChanges | src/components/expense-analysis/ExpenseAnalysis.jsx:207-245 | the save builds the kept items, then removes, replaces or appends the day's group accordingly |
| GroupAnalysis.SaveKeepsOtherDates | src/components/expense-analysis/ExpenseAnalysis.jsx:215-241 | the groups of every other date are unchanged and in the same order |
| GroupAnalysis.SaveStoresDay | src/components/expense-analysis/ExpenseAnalysis.jsx:233-240 | with items left, the day's group holds exactly them and a `total` equal to their sum |
| GroupAnalysis.Dates | src/components/expense-analysis/ExpenseAnalysis.jsx:216 | the dates of the groups, in order |
| GroupAnalysis.SaveEmptyRemovesDay | src/components/expense-analysis/ExpenseAnalysis.jsx:235-236 | with distinct dates and no items left, no group for the day remains |
| GroupAnalysis.SaveKeepsConsistent | src/components/expense-analysis/ExpenseAnalysis.jsx:233-241 | when every group's total agrees with its items, it still does after the save |
| GroupAnalysis.GroupEditor.constructor | src/components/expense-analysis/ExpenseAnalysis.jsx:153-155 | no day is open, there are no rows and nothing is flagged |
| GroupAnalysis.GroupEditor.OpenEditor | src/components/expense-analysis/ExpenseAnalysis.jsx:157-178 | a day that cannot be edited changes nothing; otherwise the day opens with its rows and nothing flagged |
| GroupAnalysis.GroupEditor.AddRow | src/components/expense-analysis/ExpenseAnalysis.jsx:186-192 | with a non-editable open day nothing changes; otherwise one new row is appended, worth 0 in "other" and tied to no item |
| GroupAnalysis.GroupEditor.UpdateRow | src/components/expense-analysis/ExpenseAnalysis.jsx:194-196 | the rows become the patched rows; nothing else changes |
| GroupAnalysis.GroupEditor.ToggleDelete | src/components/expense-analysis/ExpenseAnalysis.jsx:198-205 | the flagged set is toggled at the id; nothing else changes |
| GroupAnalysis.GroupEditor.Save | src/components/expense-analysis/ExpenseAnalysis.jsx:207-245 | with a callback, it receives the saved groups for the open day; without one nothing is saved; either way the editor closes |
| OrderedMap.Get | src/utils/expenseUtils.js:23 | `Map.get` finds a value exactly for a key present, and that value is stored under the key |
| OrderedMap.Set | src/utils/expenseUtils.js:23 | `Map.set` keeps an existing key in its place and appends a new one last, and the key then maps to the new value |
| OrderedMap.SetOthers | src/utils/expenseUtils.js:23 | `Map.set` leaves every other key's value as it was |
| OrderedMap.SetKeepsDistinct | src/utils/expenseUtils.js:23 | a Map holds each key once after `set` as before |
| OrderedMap.AddTo | src/utils/expenseUtils.js:23 | `set(k, (get(k) \|\| 0) + amt)` keeps the key order rule of `set` and adds `amt` to the key's total, starting from 0 |
| OrderedMap.SumAddTo | src/utils/expenseUtils.js:23 | adding an amount to one key raises the sum of all values by exactly that amount |
| OrderedMap.MapSumSet | src/utils/expenseUtils.js:23 | replacing a key's value changes the sum of the values by the difference |
| MonthlyCalendar.ToMondayFirst | src/components/monthly/MonthlyExpenseCalendar.jsx:42 | a Sunday-first weekday becomes a Monday-first one in 0..6, one place earlier cyclically (Sunday goes last) |
| MonthlyCalendar.Offset | src/components/monthly/MonthlyExpenseCalendar.jsx:43 | the number of blank cells before day 1 is a weekday position 0..6 |
| MonthlyCalendar.Cells | src/components/monthly/MonthlyExpenseCalendar.jsx:119-127 | the grid has 42 cells when the month fits (more otherwise, as `Math.max(0, …)` pads nothing), a cell holds a day exactly inside the month's span, and the cell `offset + d - 1` holds day `d` |
| MonthlyCalendar.GridFits | src/components/monthly/MonthlyExpenseCalendar.jsx:39-43 | every month of every year fits six weeks: exactly 42 cells, day `d` at position `offset + d - 1`, every other cell blank |
| MonthlyCalendar.OfMonthNumber | src/components/monthly/MonthlyExpenseCalendar.jsx:325 | every month count is the count of a valid (year, month) pair |
| MonthlyCalendar.MonthNumberInjective | src/components/monthly/MonthlyExpenseCalendar.jsx:325 | two valid pairs with the same month count are the same month |
| MonthlyCalendar.FirstOfMonth.constructor | src/components/monthly/MonthlyExpenseCalendar.jsx:323 | `new Date(year, monthIndex, 1)` normalises the month index into 0..11 and keeps the month count |
| MonthlyCalendar.FirstOfMonth.SetMonth | src/components/monthly/MonthlyExpenseCalendar.jsx:324 | `setMonth` rolls an out-of-range month into the year while keeping the month count |
| MonthlyCalendar.AddMonths | src/components/monthly/MonthlyExpenseCalendar.jsx:322-326 | the result is a valid (year, month) exactly `delta` months from the start |
| MonthlyCalendar.ForwardThenBack | src/components/monthly/MonthlyExpenseCalendar.jsx:322-326 | a month forward and then one back returns to the valid month one started from |
| MonthlyCalendar.IsBefore | src/components/monthly/MonthlyExpenseCalendar.jsx:327-329 | on valid pairs, strictly before means a smaller month count |
| MonthlyCalendar.IsAfter | src/components/monthly/MonthlyExpenseCalendar.jsx:330-332 | `a` is after `b` exactly when `b` is before `a` |
| MonthlyCalendar.IsBeforeOrEqual | src/components/monthly/MonthlyExpenseCalendar.jsx:333 | not after means before or the same month |
| MonthlyCalendar.IsAfterOrEqual | src/components/monthly/MonthlyExpenseCalendar.jsx:334 | not before means after or the same month |
| MonthlyCalendar.BeforeIsStrictTotal | src/components/monthly/MonthlyExpenseCalendar.jsx:327-329 | `isBefore` is irreflexive and transitive, and any two different pairs are ordered one way |
| MonthlyCalendar.PrevMonth | src/components/monthly/MonthlyExpenseCalendar.jsx:130-140 | the month handed to `onChange` is the month before, never before the lower bound, and for valid months one moves exactly when there is no bound or the bound is earlier |
| MonthlyCalendar.CanGoPrev | src/components/monthly/MonthlyExpenseCalendar.jsx:130 | `canGoPrev`: no lower bound, or the month is not before it |
| MonthlyCalendar.CanGoNext | src/components/monthly/MonthlyExpenseCalendar.jsx:131-133 | `canGoNext`: the month is before the upper bound and not on it |
| MonthlyCalendar.NextMonth | src/components/monthly/MonthlyExpenseCalendar.jsx:131-146 | the month handed to `onChange` is the month after, never after the upper bound, and for valid months one moves exactly when the current month is before the bound |
| MonthlyCalendar.TotalsByDay | src/components/monthly/MonthlyExpenseCalendar.jsx:72-90 | only the groups of the shown month count; each of their day keys (`undefined`, NaN or a number, kept apart as a `Map` keeps them) appears once with the sum of its groups' totals and the concatenation of its items, other keys are absent, and the totals add up to the month's total |
| MonthlyCalendar.DayKey | src/components/monthly/MonthlyExpenseCalendar.jsx:76 | the `d` of `g.date.split('-').map(Number)` as a `Map` key |
| MonthlyCalendar.ItemsSumOf | src/components/monthly/MonthlyExpenseCalendar.jsx:97-99 | the sum of a day's item amounts is the sum of what the category loop adds |
| MonthlyCalendar.DayBreakdownSpec | src/components/monthly/MonthlyExpenseCalendar.jsx:96-104 | a day's badges list each of its categories once, with that category's total, largest first, and together they add up to the day's total |
| MonthlyCalendar.DayBreakdown | src/components/monthly/MonthlyExpenseCalendar.jsx:96-104 | one day's category Map, sorted largest total first (stated by `DayBreakdownSpec`) |
| MonthlyCalendar.SortedTotals | src/components/monthly/MonthlyExpenseCalendar.jsx:96-104 | accumulating into a Map and sorting largest first keeps each key once with its total and sorts the list, and the values add up to the whole |
| MonthlyCalendar.SortedTotalsKeys | src/components/monthly/MonthlyExpenseCalendar.jsx:100-102 | the sorted entries hold exactly the keys met, each once |
| MonthlyCalendar.SortedTotalsEntries | src/components/monthly/MonthlyExpenseCalendar.jsx:100-104 | every sorted entry holds its key's total |
| MonthlyCalendar.CategoryTotals | src/components/monthly/MonthlyExpenseCalendar.jsx:96-101 | the inner loop builds the category Map of the day's items |
| MonthlyCalendar.CategoryTotalsByDay | src/components/monthly/MonthlyExpenseCalendar.jsx:93-108 | one entry per day of `itemsByDay`, in the same order, holding that day's sorted breakdown |
| MonthlyCalendar.BreakdownLookup | src/components/monthly/MonthlyExpenseCalendar.jsx:105 | looking a day up in the breakdown Map finds the breakdown of that day's items, and nothing for a day without items |
| MonthlyCalendar.PrefixDominates | src/components/monthly/MonthlyExpenseCalendar.jsx:113-114 | in a list sorted largest first, an entry kept by the slice totals at least as much as one cut off |
| MonthlyCalendar.Top3Days | src/components/monthly/MonthlyExpenseCalendar.jsx:111-116 | `top3Days`: the days of the three largest totals, largest first |
| MonthlyCalendar.Top3Chosen | src/components/monthly/MonthlyExpenseCalendar.jsx:111-116 | at most three days are chosen (all of them when fewer), none twice, each a day with a total |
| MonthlyCalendar.Top3Dominates | src/components/monthly/MonthlyExpenseCalendar.jsx:111-116 | no day left out totals more than a day chosen |
| MonthlyCalendar.Top3Spec | src/components/monthly/MonthlyExpenseCalendar.jsx:111-116 | the three days shown are the (at most) three most expensive days, each once |
| HeaderControls.InsertYear | src/components/expense-analysis/HeaderControls.jsx:22 | adding a year to the Set keeps the list ascending without repeats and adds exactly that year |
| HeaderControls.YearsFrom | src/components/expense-analysis/HeaderControls.jsx:25-27 | the offered years run strictly upwards, so none appears twice |
| HeaderControls.YearsFromMembers | src/components/expense-analysis/HeaderControls.jsx:25-27 | a year is offered exactly when it is a candidate and not before `MIN_YEAR` |
| HeaderControls.YearsFromAtLeastMin | src/components/expense-analysis/HeaderControls.jsx:26 | no offered year is before `MIN_YEAR` |
| HeaderControls.YearsSpec | src/components/expense-analysis/HeaderControls.jsx:9-27 | the year options are ascending and distinct, and a year is offered exactly when it is at least 2025 and is a year of the data, the current year or the selected year |
| HeaderControls.Months | src/components/expense-analysis/HeaderControls.jsx:29 | the month options are 1 to 12 in order |
| HeaderControls.MonthsAreTheMonths | src/components/expense-analysis/HeaderControls.jsx:29 | a month is offered exactly when it is in 1..12 |
| HeaderControls.YearChange | src/components/expense-analysis/HeaderControls.jsx:33-36 | the year handed on is never before `MIN_YEAR`, a picked year from `MIN_YEAR` on passes unchanged, a non-number stays a non-number, and the month is kept |
| HeaderControls.MonthChange | src/components/expense-analysis/HeaderControls.jsx:38-40 | `handleMonthChange`: the selected year is kept and the picked month is handed on |
| HeaderControls.DataYears | src/components/expense-analysis/HeaderControls.jsx:12-14 | `parseYMD(e.date).y` of every expense, one per expense (their Set and order are taken by `YearsFrom`) |
| HeaderControls.Years | src/components/expense-analysis/HeaderControls.jsx:22-27 | the year options built from the data years, the current year and the selected year (stated by `YearsSpec`) |
| DailyPage.CategoryOr | src/components/daily/DailyExpensesPage.jsx:20 | `category \|\| "other"` is never empty and keeps a non-empty category |
| DailyPage.RowsOf | src/components/daily/DailyExpensesPage.jsx:15-30 | a group gives one row per item, in order, under the group's date; a flat record gives exactly one row |
| DailyPage.ToFlatExpenses | src/components/daily/DailyExpensesPage.jsx:11-33 | a non-array gives no rows; otherwise the loop yields the rows of every entry in input order |
| DailyPage.PushItems | src/components/daily/DailyExpensesPage.jsx:16-22 | the inner loop appends one row per item of the group to what was already pushed |
| DailyPage.FlatLength | src/components/daily/DailyExpensesPage.jsx:11-33 | the flat list has one row per group item plus one per flat record |
| DailyPage.FlatOrder | src/components/daily/DailyExpensesPage.jsx:14-22 | item `i` of entry `j` lands right after the rows of the entries before `j`, with the group's date, the item's amount and category |
| DailyPage.FlatOrderSingle | src/components/daily/DailyExpensesPage.jsx:23-30 | a flat record lands right after the rows of the entries before it |
| DailyPage.FlatRowsComplete | src/components/daily/DailyExpensesPage.jsx:19-28 | every row carries a number amount and a non-empty category |
| DailyPage.Page.constructor | src/components/daily/DailyExpensesPage.jsx:37-67 | the page opens on December 2025 with the sample groups flattened |
| DailyPage.Page.HandleChange | src/components/daily/DailyExpensesPage.jsx:69-72 | the shown year and month become the ones chosen, the list unchanged |
| DailyPage.Page.HandleUpdateExpenses | src/components/daily/DailyExpensesPage.jsx:75-79 | the stored list is the update, rearranged and sorted by date, the month unchanged |
| DailyPage.UpdateSorted | src/components/daily/DailyExpensesPage.jsx:77 | sorting the update by date keeps exactly its rows and puts them in date order |
| Seqs.SortBy | src/components/daily/DailyExpensesPage.jsx:77 | `Array.prototype.sort` rearranges: the result has the same elements, each as often |
| Seqs.SortBySorted | src/components/daily/DailyExpensesPage.jsx:77 | under a comparator that is a total preorder the result is in order |
| Signup.AtIndex | src/components/auth/SignupPage.jsx:20-21 | the index found is the first '@' of the text, or its length when there is none |
| Signup.ValidSplits | src/components/auth/SignupPage.jsx:20-21 | an address the validator accepts splits into the pattern's three runs without white space or '@', joined by '@' and then '.' |
| Signup.IsEmailValid | src/components/auth/SignupPage.jsx:20-21 | the email pattern read directly: no white space, one '@' with text before it, and a '.' with text on both sides after it (tied to the pattern by `ValidSplits`) |
| Signup.JoinedValid | src/components/auth/SignupPage.jsx:20-21 | three such runs joined by '@' and '.' are accepted |
| Signup.EmailValidIffPattern | src/components/auth/SignupPage.jsx:20-21 | the validator accepts exactly the texts that match `/^[^\s@]+@[^\s@]+\.[^\s@]+$/` |
| Signup.ValidEmailUntrimmed | src/components/auth/SignupPage.jsx:36-44 | an accepted address has no white space, so the `email.trim()` sent is the address checked |
| Signup.HasLetterSpec | src/components/auth/SignupPage.jsx:26 | `/[A-Za-z]/` holds exactly when some character is an ASCII letter |
| Signup.HasDigitSpec | src/components/auth/SignupPage.jsx:27 | `/\d/` holds exactly when some character is an ASCII digit |
| Signup.PasswordStrengthSpec | src/components/auth/SignupPage.jsx:23-29 | `longEnough` means a `length` of at least eight UTF-16 code units, and `ok` means that length together with an ASCII letter and a digit |
| Signup.PasswordStrength | src/components/auth/SignupPage.jsx:23-29 | `passwordStrength`: the three checks and their conjunction (stated by `PasswordStrengthSpec`) |
| Signup.SymbolsOnlyWeak | src/components/auth/SignupPage.jsx:23-29 | eight symbols are long enough but not strong |
| Signup.FirstFailureSpec | src/components/auth/SignupPage.jsx:35-40 | each message is shown exactly when its check fails and all earlier ones pass (blank name, invalid e-mail, weak password, mismatch, terms), and no message only when all hold |
| Signup.FirstFailure | src/components/auth/SignupPage.jsx:35-40 | the checks of `handleSubmit` in their order, the first failing one or none (stated by `FirstFailureSpec`) |
| Signup.Validate | src/components/auth/SignupPage.jsx:35-40 | the chain of early returns reports the first failing check, or none |
| Signup.SignupForm.constructor | src/components/auth/SignupPage.jsx:8-17 | the form starts with empty fields, terms not accepted, no error and not loading |
| Signup.SignupForm.SetFields | src/components/auth/SignupPage.jsx:8-14 | the inputs take the typed values; error and loading stay |
| Signup.SignupForm.HandleSubmit | src/components/auth/SignupPage.jsx:31-44 | a failed check shows its message and sends nothing; otherwise the error is cleared, loading starts and the trimmed name and e-mail are sent with the password |
| Signup.SignupForm.SignupSettled | src/components/auth/SignupPage.jsx:45-50 | loading always ends; a failure shows its message or "Signup failed" when it has none; success leaves the error as it was |
| Signup.RequestOnlyWhenValid | src/components/auth/SignupPage.jsx:35-44 | a request is only built when the trimmed name is non-empty, the e-mail needs no trimming, the password is strong, confirmed and the terms accepted |
| Signup.PassedChecks | src/components/auth/SignupPage.jsx:35-40 | passing every check means a non-blank name, a valid e-mail, a strong confirmed password and accepted terms |
| Signup.BlankNameRejected | src/components/auth/SignupPage.jsx:35 | a blank name is always the reported failure, whatever else is wrong |
| ChangePassword.ChangeFailureSpec | src/components/profile/ChangePasswordForm.jsx:28-43 | each toast is raised exactly when its check fails and every earlier one passes (an empty field, a new password under eight UTF-16 code units, a mismatch, no token), and none only when all hold |
| ChangePassword.LengthIsEnough | src/components/profile/ChangePasswordForm.jsx:32-39 | any confirmed new password of eight UTF-16 code units passes, with no letter or digit required |
| ChangePassword.AstralCharsLongEnough | src/components/profile/ChangePasswordForm.jsx:32 | a confirmed new password of four or more characters beyond U+FFFF has a `length` of twice its characters, so it passes every check when the other fields and the token are present |
| ChangePassword.ChangeFailure | src/components/profile/ChangePasswordForm.jsx:28-43 | the checks of `handleSubmit` in their order, the first failing one's message or none (stated by `ChangeFailureSpec`) |
| ChangePassword.ChangePasswordForm.constructor | src/components/profile/ChangePasswordForm.jsx:13-19 | the form starts blank, passwords hidden, not loading |
| ChangePassword.ChangePasswordForm.Update | src/components/profile/ChangePasswordForm.jsx:22 | the fields the patch names take its values and the rest stay |
| ChangePassword.ChangePasswordForm.Submit | src/components/profile/ChangePasswordForm.jsx:24-51 | while loading nothing happens; otherwise the first failing check's message is raised and nothing sent, or loading starts and the current and new password are sent with the token; the fields are unchanged |
| ChangePassword.ChangePasswordForm.Settled | src/components/profile/ChangePasswordForm.jsx:52-58 | success says "Password updated" and blanks the form; a failure shows its message or "Failed to update password" and keeps the fields; loading always ends |
| ChangePassword.DoubleSubmit | src/components/profile/ChangePasswordForm.jsx:26 | a second submit while the first is in flight sends nothing |

## Left out

- Floating point: every amount is an integer. The percent step-up of a recurring item is computed as an exact rational, and `Math.round` is modelled as rounding half up.
- JavaScript `Date` objects are (year, month, day) triples or day counts. Time of day, time zones, daylight saving and local-midnight parsing are not modelled. `new Date(y, m, d)` and `setMonth` are modelled only through their day and month rollover.
- "Today", the current year, fresh ids and the stored auth token are parameters, because they come from the clock, the random generator or `localStorage`.
- Network calls, `localStorage`, `async`/`await`, toasts and `console` output are not modelled. A request is a returned value, and its outcome is a later call (`Settled`, `Receive`, `Fail`, `FinishSync`). The chain of awaits in the profile's `syncNow` and the `localStorage` fallbacks are left out.
- Locale formatting is not modelled: `Intl.DateTimeFormat` month names, `toLocaleString`, `formatINR` and the currency display.
- `toLowerCase` is modelled for ASCII letters only. `localeCompare` is modelled as code-point order, which agrees with it on `yyyy-mm-dd` strings.
- Strings are sequences of Unicode scalar values with no normalisation. `length` is counted in UTF-16 code units by `Text.Utf16Length`, which `Signup.PasswordStrength` and `ChangePassword.ChangeFailure` use. White space (`\s`, `trim`) is JavaScript's full set; nothing else Unicode-aware is modelled.
- NumberOf: typed text is read by `Text.JsNumber`, which accepts blank text and an optional sign followed by decimal digits only; a fraction such as "5.0", an exponent such as "1e3" or hexadecimal "0x10" read as NaN in the model although `Number` gives a number, so `RecurringEditor.CanSubmit` refuses them.
- EqItemReflexive: a step-up `value` is a number or missing (read as 0 by `Profile.EqStep`); text that `Number(value || 0)` turns into NaN, which makes `eqItem` false even of an item and itself, is not modelled.
- NormalizeEqItem: for the same reason, a step-up `value` whose text is NaN (written to the wire form as 0, so no longer `eqItem` to its source) is not modelled.
- EqualListReflexive: for the same reason, a list holding a step-up `value` whose text is NaN (not `isEqualList` to itself in the source) is not modelled.
- `Recurrence.StepUpK`: a date field (`startDate`, `endDate`, `stepUp.from`) is a date or missing. Text that `parseDate` turns into a truthy Invalid Date is not modelled. For `startDate` and `endDate` the outcome equals the model's missing date. For `stepUp.from` it does not: the source's cycle count is NaN, while the model counts from the start date.
- `Recurrence.AmountForItemInMonth`: for the same reason, the NaN amount that a malformed `stepUp.from` gives an enabled rule is not modelled.
- `Recurrence.AmountForItemInMonth`: does not model the `baseAmount` fallback of `item.amount || item.baseAmount || 0`. Only the item's own amount, or 0, is read.
- `ExpenseUtils.CategoryTotalsMap`: requires every group to carry an `items` array, because the source throws a `TypeError` on a group without one.
- `DailyPage.ToFlatExpenses`: a `null` entry in the list is not modelled. The source throws on it when it reads `e.date`.
- `String(raw || "")` of a category that is not a string is not modelled. A category is either missing or text.
- The daily analysis's `openEditor` (building the rows of one day) is not modelled. `DailyAnalysis.DayEditor.Open` takes the built rows as given.
- The year and month options and the default month of both analysis views (`allYM`, the year select) are not modelled. The group view's `totalsByDayInMonth` is not modelled either.
- In the calendar, the `date` field that `itemsByDay` adds to each item is not modelled, and neither is `onDayClick` with its selected-day modal. The weekday of the month's first day is a parameter.
- HeaderControls: the handlers return the new (year, month) instead of calling `onChangeYM`.
- Presentational components and hooks are not part of this model, because they hold no logic beyond rendering: `BudgetAdvisorPanel`, `CategoryChartSwitcher`, `RecurringItemList`, `useTween`, `Loader`, `Modal` and the editor event bus.

## Findings

| source | as written | input that shows it | evidently intended | confidence | as-written member | corrected member |
|---|---|---|---|---|---|---|
| src/components/daily/ExpenseAnalysis.jsx:226-227 | each flagged row calls `next.splice(r.originalIndex, 1)` with the index it had before any deletion, so after one removal the later indices point one place too far | two expenses dated 2025-01-05 at indices 0 and 1, both rows flagged for deletion: the first splice removes index 0, the second splice finds nothing at index 1, and the second expense survives | every flagged expense is removed, and every other row overwrites its own entry | not executed | DailyAnalysis.SecondDeletionLost | DailyAnalysis.SaveChanges |
