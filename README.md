# ExpenseTracker: settlements, spending report and expense views

This project models the parts of ExpenseTracker that decide who still owes whom
and what a user sees:

- **Settlement routes** (`/api/settlements`):
  - `POST /` records a settlement. It rejects a body that lacks one of the four
    fields with a 400 and appends a row to `settled_debts` otherwise.
  - `GET /` lists settlements newest first.
  - `GET /suggestions` lists every split row (`shared_expenses`) that no
    settlement matches on the 4-tuple (expense, ower, payee, amount).
  - `GET /fully-settled` returns the expenses whose split count equals their
    settlement count.
- **Spending report** (`GET /api/users/:userId/spending`):
  - JavaScript `parseInt` of the path parameter.
  - The four summary sums, `net_spent` and the top category.
  - The per-expense list of ower names.
  - The transactions query, a left join that gives one row per
    (expense, split, matching settlement).
  - The loop that merges those rows into one entry per expense.
- **Expense list view** (`GroupedExpenses`): the sort on a copy with the
  selected comparator, and `groupByKey`, the `reduce` that groups the sorted
  list by one field.
- **Dashboard**: the date-range filter and the list update after a delete.
- **Spending trends chart**: the month axis, one dataset per category and
  the colour of each dataset.

The database is modelled as a snapshot `Ledger.Tables` of four row sequences.
Each query is a function over the snapshot. The settlement table that POST
appends to is a class, `SettlementsRoutes.SettledDebtsTable`. The spending
route's merge loop and the list view's sort and reduce are methods with loop
invariants, and each is proved against a specification function
(`UserRoutes.Merged`, `GroupedExpenses.Ordered`, `GroupedExpenses.Grouped`).
Amounts are exact integers in the smallest currency unit. Timestamps are
integers in milliseconds.

## Model

| member | source | states |
|---|---|---|
| Ledger.NameOf | backend/routes/settlementsRoutes.js:41-42 | the join with `users` finds a name exactly when a user row with that id exists, and the name is that row's |
| SettlementsRoutes.InsertedRow | backend/routes/settlementsRoutes.js:14-19 | the inserted row carries the body's ower, payee, amount and expense id; the expense id is present and the amount is non-zero |
| SettlementsRoutes.SettledDebtsTable.Post | backend/routes/settlementsRoutes.js:6-26 | if a field is missing or zero: 400 with the exact message, table unchanged; if the insert fails: 500 "Internal server error" and no row is added, the serial id being used up when the failure comes after `nextval`; otherwise 201 with the new row, which is appended with the next serial id; ids stay increasing |
| SettlementsRoutes.AmountGuard | backend/routes/settlementsRoutes.js:9-11 | an amount of 0 is rejected like a missing one, and a negative amount passes the guard |
| Sorting.SortDesc | backend/routes/settlementsRoutes.js:43 | `ORDER BY .. DESC` gives a permutation of the rows that is sorted by the key, largest first |
| SettlementsRoutes.ListSettlements | backend/routes/settlementsRoutes.js:29-45 | newest first; as a multiset, exactly the views of the settlements whose ower and payee both exist, one per such settlement |
| SettlementsRoutes.Suggestions | backend/routes/settlementsRoutes.js:53-73 | as a multiset, exactly the rows of the splits whose users exist and that no settlement matches, one per such split |
| SettlementsRoutes.SameRowSameMatches | backend/routes/settlementsRoutes.js:66-70 | the anti-join condition depends only on the four values a suggestion shows |
| SettlementsRoutes.SuggestedIff | backend/routes/settlementsRoutes.js:66-71 | a split whose users exist is suggested exactly when no settlement matches its 4-tuple |
| SettlementsRoutes.RecordingNeverAddsSuggestions | backend/routes/settlementsRoutes.js:66-71 | after any settlement is appended, the suggestions are a subsequence of the suggestions before it |
| SettlementsRoutes.PostingSuggestionRemovesIt | backend/routes/settlementsRoutes.js:66-71 | posting a suggestion's own four values removes that suggestion |
| SettlementsRoutes.AmountMismatchKeepsSuggestion | backend/routes/settlementsRoutes.js:70 | a settlement that differs from a split only in its amount leaves the split's suggestion as it was |
| SettlementsRoutes.SplitCountPositive | backend/routes/settlementsRoutes.js:83-86 | an expense has a group in `GROUP BY se.expense_id` exactly when it has a split row |
| SettlementsRoutes.FullySettled | backend/routes/settlementsRoutes.js:82-91 | an id is returned exactly when the expense has split rows and its split count equals the number of settlements carrying its id |
| SettlementsRoutes.ExtraSettlementUnsettles | backend/routes/settlementsRoutes.js:86-89 | under the count rule, one more settlement for a fully settled expense makes it not fully settled |
| SettlementsRoutes.CountRuleDoubleSettlement | backend/routes/settlementsRoutes.js:86-89 | a share recorded twice makes the count rule report the expense fully settled while another share is still unmatched and suggested |
| SettlementsRoutes.FullySettledByMatch | backend/routes/settlementsRoutes.js:82-91 | corrected rule: an id is returned exactly when the expense has split rows and every one of them has a matching settlement |
| SettlementsRoutes.ByMatchOnlyMovesForward | backend/routes/settlementsRoutes.js:82-91 | under the matching rule, recording a settlement never removes an expense from the fully settled set |
| SettlementsRoutes.ByMatchIffNoSuggestion | backend/routes/settlementsRoutes.js:66-71 | under the matching rule, an expense whose users exist is fully settled exactly when it has splits and none of them is suggested |
| SettlementsRoutes.SettledHasNoSuggestion | backend/routes/settlementsRoutes.js:66-71 | an expense whose splits are all matched has no suggestion |
| SettlementsRoutes.NoSuggestionMeansMatched | backend/routes/settlementsRoutes.js:66-71 | an expense whose users exist and that has no suggestion has every split matched |
| SettlementsRoutes.SettlingEachShareClosesExpense | backend/routes/settlementsRoutes.js:82-91 | with one of two shares settled the expense is open under both rules; with both settled it is closed under both |
| JsParseInt.TrimStart | backend/routes/userRoutes.js:6 | leading white space is dropped: the result is a suffix of the input, everything dropped is white space, and the result does not start with white space |
| JsParseInt.ParseInt | backend/routes/userRoutes.js:6-8 | a number is returned only when the text holds a decimal digit, so text without one is NaN |
| JsParseInt.DigitPrefix | backend/routes/userRoutes.js:6 | the longest prefix of digits valid in the radix; the character after it is not such a digit |
| JsParseInt.DigitPrefixStops | backend/routes/userRoutes.js:6 | digit scanning stops at the first character that is not a digit |
| JsParseInt.DecimalRoundTrip | backend/routes/userRoutes.js:6 | `parseInt` of the decimal text of any natural number gives that number |
| JsParseInt.TrailingTextIgnored | backend/routes/userRoutes.js:6 | text after the digits is ignored: `parseInt("12abc")` is 12 |
| JsParseInt.LeadingSpaceIgnored | backend/routes/userRoutes.js:6 | leading white space does not change the result |
| JsParseInt.NoDecimalDigitIsNaN | backend/routes/userRoutes.js:6-10 | a parameter with no decimal digit at all is NaN, so the route answers 400 |
| JsParseInt.DecimalExample | backend/routes/userRoutes.js:6 | `parseInt("42")` is 42 |
| JsParseInt.TrailingLettersExample | backend/routes/userRoutes.js:6 | `parseInt("12abc")` is 12 |
| JsParseInt.SignAndSpaceExample | backend/routes/userRoutes.js:6 | `parseInt("  -7")` is -7 |
| JsParseInt.NegativeExample | backend/routes/userRoutes.js:6 | `parseInt("-7")` is -7 |
| JsParseInt.HexExample | backend/routes/userRoutes.js:6 | `parseInt("0x1A")` is 26 |
| JsParseInt.NaNExamples | backend/routes/userRoutes.js:6-8 | `"abc"` and `"-"` are NaN |
| JsParseInt.BareHexPrefixIsNaN | backend/routes/userRoutes.js:6-8 | `"0x"` with no digits after it is NaN |
| UserRoutes.TotalPaid | backend/routes/userRoutes.js:16-20 | `COALESCE(SUM(amount), 0)`: 0 when the user paid no expense, and non-negative when the user's amounts are |
| UserRoutes.TotalSharedPaid | backend/routes/userRoutes.js:23-27 | 0 when the user paid no split, and non-negative when those splits' amounts are |
| UserRoutes.TotalReimbursed | backend/routes/userRoutes.js:30-34 | 0 when no settlement is paid to the user, and non-negative when those amounts are |
| UserRoutes.TotalOwed | backend/routes/userRoutes.js:37-46 | 0 when every split the user owes is matched by a settlement, and non-negative when the user's split amounts are |
| UserRoutes.RecordingReimburses | backend/routes/userRoutes.js:30-34 | a recorded settlement adds its amount to its payee's reimbursed total and changes no other user's total |
| UserRoutes.TotalOwedMatchesSuggestions | backend/routes/userRoutes.js:37-46 | when every split's users exist, the unsettled amount a user owes is the sum of that user's settle-up suggestions |
| UserRoutes.RecordingLowersOwed | backend/routes/userRoutes.js:37-46 | appending a settlement lowers the amount owed by exactly the amounts of the owed rows it matches |
| UserRoutes.RecordingNeverRaisesOwed | backend/routes/userRoutes.js:37-46 | with non-negative split amounts, recording a settlement never raises the amount owed |
| UserRoutes.CategoryNames | backend/routes/userRoutes.js:49-54 | the grouped names are exactly the categories of the user's expenses |
| UserRoutes.MaxByTotal | backend/routes/userRoutes.js:55-56 | the chosen name is one of the candidates and no candidate has a larger total |
| UserRoutes.TopCategory | backend/routes/userRoutes.js:49-57 | a returned category is non-empty, is one of the user's categories and has the largest total; null means the user has no categorised expense or the largest total belongs to the empty name (falsy) |
| UserRoutes.SharedWithMap | backend/routes/userRoutes.js:60-70 | an expense has an entry exactly when one of its splits has an ower with a user row; every entry is non-empty and holds no name twice |
| UserRoutes.SharedOfIsDedup | backend/routes/userRoutes.js:60-70 | an expense's entry in the shared-with map is its distinct ower names; an expense without owers reads as the empty list |
| UserRoutes.OwerNamesMembers | backend/routes/userRoutes.js:61-63 | the aggregated names are exactly the names of the owers of the expense's splits that have a user row |
| UserRoutes.SharedWithNames | backend/routes/userRoutes.js:60-70 | a name is in an expense's shared-with list exactly when it names the ower of one of its splits |
| UserRoutes.SplitRows | backend/routes/userRoutes.js:74-93 | a split gives one row per matching settlement, or one row when none matches; every row is the split's row with the settled flag, which holds exactly when a settlement matches the split's 4-tuple |
| UserRoutes.IncludedSplits | backend/routes/userRoutes.js:88-95 | a split is joined for the user exactly when it belongs to the expense and the user created the expense, owes the split or is paid by it |
| UserRoutes.ExpenseRows | backend/routes/userRoutes.js:86-95 | an expense gives rows exactly when it has no splits and the user created it, or one of its splits is joined for the user; without splits its row is the plain expense row; with splits every row is the row of a joined split, every joined split contributes its row, and there are as many as the joined splits' row counts add up to |
| UserRoutes.SharedExpenseRows | backend/routes/userRoutes.js:86-95 | the left join of a shared expense: a row exists exactly when a split is joined, each row is a joined split's row, each joined split's row is present, and the count is the sum of the splits' row counts |
| UserRoutes.TransactionRows | backend/routes/userRoutes.js:73-97 | the rows are newest first and are, counted with multiplicity, exactly the rows each expense contributes |
| UserRoutes.FirstRowOf | backend/routes/userRoutes.js:106-108 | the row kept for an expense is its first row in query order |
| UserRoutes.Merged | backend/routes/userRoutes.js:102-123 | one entry per distinct expense id in order of first appearance; each is built from the first row, the distinct ower names and every row's settled flag |
| UserRoutes.AddNames | backend/routes/userRoutes.js:114 | adding names one by one to an insertion-ordered set gives the set with each new name appended once |
| UserRoutes.MergeTransactions | backend/routes/userRoutes.js:102-123 | the de-duplicating loop returns exactly the merged list |
| UserRoutes.MergedOnePerExpense | backend/routes/userRoutes.js:102-117 | no two entries share an id, every row's expense has an entry, and every entry comes from a row |
| UserRoutes.MergedNewestFirst | backend/routes/userRoutes.js:104-117 | rows sorted newest first give entries sorted newest first |
| UserRoutes.MergedSettledIff | backend/routes/userRoutes.js:110-122 | an entry is settled exactly when every row of its expense is settled |
| UserRoutes.MergedSharedWith | backend/routes/userRoutes.js:109-121 | `shared_with` lists each name of the expense's shared-with map entry exactly once |
| UserRoutes.RowsOfExpense | backend/routes/userRoutes.js:88-95 | the query rows with an expense's id are exactly the rows that expense contributes |
| UserRoutes.ExpenseRowsSettled | backend/routes/userRoutes.js:86-95 | all rows of an expense are settled exactly when it has split rows and each split the query includes for the user is matched |
| UserRoutes.AllRowsOfExpenseSettled | backend/routes/userRoutes.js:86-95 | the same as the previous row, for the rows of the whole query |
| UserRoutes.SpendingEntrySettled | backend/routes/userRoutes.js:73-122 | a transaction entry is settled exactly when its expense has split rows and each of those the user is involved in has a matching settlement |
| UserRoutes.GetSpending | backend/routes/userRoutes.js:5-141 | NaN id: 400 "Invalid user ID"; database failure: 500 "Failed to calculate user spending"; otherwise the four sums, `net_spent` = paid − reimbursed, the top category and the merged transactions |
| GroupedExpenses.Compare | frontend/src/components/GroupedExpenses.js:12-16 | the comparator is negative exactly when `a` goes first: the smaller amount, the larger amount, or the later creation time, as the option selects; zero exactly on a tie |
| GroupedExpenses.CompareIsKeyDifference | frontend/src/components/GroupedExpenses.js:12-16 | each comparator is the difference of a numeric key, so it is antisymmetric and consistent |
| GroupedExpenses.SinkLeft | frontend/src/components/GroupedExpenses.js:12 | moving the next element left into the ordered prefix extends the prefix, keeps the same elements and leaves everything after it in place |
| GroupedExpenses.SortInPlace | frontend/src/components/GroupedExpenses.js:12 | the array ends up ordered by the comparator and is a permutation of what it held |
| GroupedExpenses.SortExpenses | frontend/src/components/GroupedExpenses.js:12-16 | the sorted copy is a permutation of the list: amount ascending, amount descending, or newest first, as the option selects |
| GroupedExpenses.GroupOf | frontend/src/components/GroupedExpenses.js:5 | the group name is the field's value when it is non-empty, otherwise "Unspecified"; it is never empty |
| GroupedExpenses.GroupNamesMembers | frontend/src/components/GroupedExpenses.js:3-9 | the group names are distinct and are exactly the names the items carry |
| GroupedExpenses.Grouped | frontend/src/components/GroupedExpenses.js:3-9 | corrected grouping: one group per distinct name in order of first appearance, holding that name's items in list order |
| GroupedExpenses.GroupByKey | frontend/src/components/GroupedExpenses.js:3-22 | the reduce throws exactly when an item's group name is a property every object inherits; otherwise it returns the grouping |
| GroupedExpenses.InGroupIff | frontend/src/components/GroupedExpenses.js:5-7 | an item is in a group exactly when it is in the list and its name is the group's |
| GroupedExpenses.ExactlyOneGroup | frontend/src/components/GroupedExpenses.js:3-9 | every item is in exactly one group, the one with its name |
| GroupedExpenses.GroupKeepsOrder | frontend/src/components/GroupedExpenses.js:7 | a group's items keep their order from the sorted list |
| GroupedExpenses.GroupsArePermutation | frontend/src/components/GroupedExpenses.js:3-9 | the groups together hold each item exactly as often as the list does |
| GroupedExpenses.GroupsDistinctNonEmpty | frontend/src/components/GroupedExpenses.js:6-7 | group names are distinct and no group is empty |
| GroupedExpenses.ConstructorCategoryCrashes | frontend/src/components/GroupedExpenses.js:6-7 | grouping by category a list that holds an expense in category "constructor" throws |
| Dashboard.FilterByDate | frontend/src/components/Dashboard.js:79-84 | an expense is shown exactly when it is in the list and lies at or after midnight of the start day and at or before midnight of the end day, for each bound that is set |
| Dashboard.FilteredIsSubsequence | frontend/src/components/Dashboard.js:79-84 | the filtered list keeps the expenses' order |
| Dashboard.NoDatesKeepsAll | frontend/src/components/Dashboard.js:81-83 | with neither date set every expense is shown |
| Dashboard.EndDayNoonExcluded | frontend/src/components/Dashboard.js:82-83 | an expense made at noon on the end day is not shown |
| Dashboard.DayBounds | frontend/src/components/Dashboard.js:81-83 | a time is at or after midnight of a day exactly when its day is that day or later |
| Dashboard.FilterByDayRange | frontend/src/components/Dashboard.js:79-84 | corrected filter: an expense is shown exactly when its day lies between the picked days, both included |
| Dashboard.DayRangeKeepsMore | frontend/src/components/Dashboard.js:79-84 | the corrected filter keeps everything the written one keeps, in the same order |
| Dashboard.AfterDelete | frontend/src/components/Dashboard.js:69-77 | a failed request keeps the list; a successful one keeps exactly the entries with another id |
| Dashboard.DeleteKeepsOrder | frontend/src/components/Dashboard.js:72 | the remaining entries keep their order |
| Dashboard.DeleteRemovesExactly | frontend/src/components/Dashboard.js:72 | each entry with another id keeps its count and the deleted id's entries are gone |
| Dashboard.DeleteAbsentIsIdentity | frontend/src/components/Dashboard.js:72 | deleting an id that is not in the list leaves it unchanged |
| SpendingTrends.FindEntry | frontend/src/components/SpendingTrendsChart.js:25 | `find` returns the first entry for the month, or nothing when no entry has that month |
| SpendingTrends.Months | frontend/src/components/SpendingTrendsChart.js:18 | the month axis holds each month of every category's entries exactly once, and nothing else |
| SpendingTrends.MonthsInFirstOccurrenceOrder | frontend/src/components/SpendingTrendsChart.js:18 | months appear in the order they first occur across the categories' entries |
| SpendingTrends.Datasets | frontend/src/components/SpendingTrendsChart.js:22-30 | one dataset per category, in order, labelled with the category, with one value per month; dataset `k` gets palette colour `k mod 10` |
| SpendingTrends.DataValue | frontend/src/components/SpendingTrendsChart.js:24-26 | a value is the amount of the category's first entry for that month, or 0 when there is no entry or no amount |
| SpendingTrends.ColorsDistinctNearby | frontend/src/components/SpendingTrendsChart.js:30 | datasets fewer than ten apart get different colours |
| SpendingTrends.ColorsCycle | frontend/src/components/SpendingTrendsChart.js:30 | the palette repeats: datasets ten apart share a colour |

## Left out

- Database and network errors of the three settlement GETs (500 responses): each of those handlers only forwards the error.
- The 500 of the spending route stands for any failing query, modelled as the `dbFails` parameter. The client's connection and release are not modelled.
- `parseFloat` of the sums and money as floating point: amounts are exact integers, and Postgres `numeric` is exact.
- `toFixed` and the other display formatting; the chart's tooltip callbacks and options; all markup.
- JsParseInt.ParseInt: values above 2^53 are not rounded to the nearest double.
- The POST body's fields are JSON values of any type. The model takes integers or absent fields, so a string amount is not modelled.
- Dashboard.FilterByDate: `new Date` on a date string is modelled as midnight UTC of a day number. Invalid dates and time zones are left out.
- Sorting.SortDesc: the order of rows with equal keys under `ORDER BY` is left to the database; the model fixes one order.
- SettlementsRoutes.Suggestions: the query has no `ORDER BY`, so the model lists rows in table order.
- UserRoutes.TopCategory: on ties `LIMIT 1` may pick any category with the largest total; the model picks the first in order of first use. Category names that are NULL are not modelled.
- UserRoutes.SharedWithMap: `ARRAY_AGG(DISTINCT ..)` returns the names sorted; the model keeps order of first use. Membership and uniqueness are proved, the order is not.
- GroupedExpenses.SortInPlace, GroupedExpenses.SortExpenses: `Array.prototype.sort` is stable; the model sorts by insertion, and stability is not proved.
- GroupedExpenses.GroupByKey: `Object.entries` puts integer-like keys first, in ascending order; the model lists groups in insertion order. Field values that are not strings are not modelled.
- Dashboard.AfterDelete: React state updates, stale closures and the refetch of fully settled ids after a delete are left out.
- Ledger.NameOf: user ids are a primary key. If a table held two rows with one id, the model would take the first.
- The expense planner and per-user balance totals are not part of this model; the routes modelled here have neither.
- Authentication, the machine-learning service and the other routes and components are not part of this model.
- The POST handler does not require `amount > 0`: it rejects only a missing or zero amount, accepts negatives, and also requires `expense_id`. The model follows the code, and `SettlementsRoutes.AmountGuard` states this.

## Findings

| source | as written | input that shows it | evidently intended | confidence | as-written member | corrected member |
|---|---|---|---|---|---|---|
| backend/routes/settlementsRoutes.js:86-89 | an expense is fully settled when its split count equals the number of settlements carrying its id | two splits of 10 for expense 1 (owers 2 and 3); ower 2's share is recorded twice and ower 3's share is not | fully settled when every split has a settlement matching its 4-tuple, the rule the suggestions and the spending route use | not executed | SettlementsRoutes.CountRuleDoubleSettlement | SettlementsRoutes.ByMatchIffNoSuggestion |
| frontend/src/components/Dashboard.js:83 | the end bound is midnight at the start of the end day | an expense at noon on the picked end day | the picked end day is included whole | not executed | Dashboard.EndDayNoonExcluded | Dashboard.DayRangeKeepsMore |
| frontend/src/components/GroupedExpenses.js:6-7 | `if (!acc[group])` sees inherited properties of `{}`, so a group named "constructor" or "toString" calls `push` on a function and throws | one expense whose category is "constructor", grouped by category | each distinct name gets its own group | not executed | GroupedExpenses.ConstructorCategoryCrashes | GroupedExpenses.GroupsArePermutation |
