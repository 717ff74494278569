# Income ledger of a personal-finance app, in Dafny

This project models the income ledger of an Android personal-finance app. That is the
`IncomeViewModel` state holder, the default-category seed, and the hash used to detect
when the shipped defaults change. It proves properties of the model.

The view model is an immutable `State`. Its fields are the category list, the
transactions, the per-category totals (`categoryIncomes`), the total (`totalIncome`),
the active sort key, and the two views `sortedTransactions` and `filteredTransactions`.
The state also holds the `IncomePrefs` preference file it writes through to (`Prefs`,
one field per key). Each public method is a pure function from the state before to the
state after. A coroutine body runs as one atomic step. The update-broadcast hook is a
no-op.

Modules, one per file:

- `Maybe`: the `Option` used for absent keys and failed parses.
- `Seqs`: filtering, subsequences and `MutableList.remove`.
- `Text`: Kotlin string ordering and `joinToString()`.
- `Digits`: fixed-width digit fields and `Int.toString()`.
- `Dates`: `LocalDate` parsing of `yyyy-MM-dd` and calendar order.
- `JavaHash`: `String.hashCode()`.
- `StandardCategories`: the default lists and the hash of a list.
- `Ledger`: transactions, sums, the stable sorts and replace-by-id.
- `IncomeViewModel`: the view model.
- `IncomeActivity`: start-up and the hash-triggered re-seed.

In these places the code does something a reader might not expect, and the model follows the code:

- `deleteTransaction` and `updateTransaction` save and re-sort but do not call
  `updateIncomes`. Their aggregates are refreshed only when the broadcast makes the screen
  call `loadDataIncome`. `DeleteTransactionThenReload` and `UpdateTransactionThenReload`
  state the effect of that round trip.
- Sorting and the period filters' ordering compare the stored date TEXT. Only the period
  filters parse dates. `IsoOrder` shows that the two orders agree for canonical
  `yyyy-MM-dd` texts.
- `updateIncomeTransactions` appends to the list read back from the preference file, not
  to the list in memory. The two agree when `Synced` holds.
- `filterByPeriodForAllTransactions` writes `sortedTransactions`, not
  `filteredTransactions`.
- The total counts every transaction, but only listed categories get a per-category
  entry. With no name listed twice, the total is the sum of the per-category totals plus
  the amounts filed under unlisted names (`UnlistedCategoryCountsOnlyInTotal`). So the two
  agree when every transaction's category is listed (`TotalIsSumOfCategoryIncomes`).
- At start-up the stored "incomes" map is read before the view model is first used. That
  first use builds the view model, which already rewrites "incomes". The stored map is then
  shown only until the category list is loaded, which recomputes the totals.
- The add-category dialog path does not deduplicate (`DialogAddMayDuplicate`).

## Model

| member | source | states |
|---|---|---|
| `IncomeViewModel.UpdateIncomes` | IncomeActivity.kt:348-355 | a non-empty map passed in becomes the per-category totals; otherwise the keys are exactly the listed categories, each value is the sum of that category's amounts, and the total sums every transaction; the totals are written to "incomes" and nothing else changes |
| `IncomeViewModel.TotalIsSumOfCategoryIncomes` | IncomeActivity.kt:348-355 | with no duplicate names and every transaction's category listed, the total equals the sum of the per-category totals |
| `IncomeViewModel.UnlistedCategoryCountsOnlyInTotal` | IncomeActivity.kt:348-355 | for any consistent state with no duplicate names, the total is the sum of the per-category totals plus the amounts of transactions under unlisted names |
| `Ledger.CategorySumPlusUnlisted` | IncomeActivity.kt:350-353 | over any duplicate-free list, the total of all transactions is the per-category sums plus the total of the unlisted transactions |
| `Ledger.CategorySumIsTotal` | IncomeActivity.kt:350-353 | summing the per-category totals over a duplicate-free list that covers every transaction gives the grand total |
| `Ledger.TotalSplitsOnCategory` | IncomeActivity.kt:350-353 | every amount is counted once, either under a category or outside it |
| `IncomeViewModel.SortTransactions` | IncomeActivity.kt:339-346 | the sort key is remembered; the sorted view is a permutation of the transactions, ordered by the key, and stable |
| `Ledger.SortBy` | IncomeActivity.kt:342-344 | the result is a permutation of the input, in the key's order (dates and amounts descending, categories ascending), and keeps every class of equal keys in its original order |
| `Ledger.TiesAreSameKey` | IncomeActivity.kt:342-344 | two transactions may stand in either order exactly when their sort keys are equal |
| `Ledger.InsertSorted` | IncomeActivity.kt:342-344 | inserting into an ordered list keeps it ordered |
| `Ledger.InsertKeyClass` | IncomeActivity.kt:342-344 | insertion puts the new element at the front of its key class and leaves every other class as it was |
| `IncomeViewModel.AddCategory` | IncomeActivity.kt:308-315 | a listed name changes nothing; a new name is appended and nothing else in the list changes; "categories" and "incomes" are rewritten and no other key changes; the aggregates are recomputed; the sort key and both views are untouched, and a synced state stays synced |
| `IncomeViewModel.AddCategoryKeepsDistinct` | IncomeActivity.kt:309-310 | adding through `addCategory` never creates a duplicate name |
| `IncomeViewModel.UpdateCategories` | IncomeActivity.kt:357-362 | the list is replaced as given and saved, the transactions are untouched, and the aggregates match the new list |
| `IncomeViewModel.DialogAddMayDuplicate` | IncomeActivity.kt:646 | the dialog's add path lists an existing name twice |
| `IncomeViewModel.RemoveName` | IncomeActivity.kt:382 | the name is gone, and every other name keeps its occurrences and relative order |
| `Ledger.NotOfCategory` | IncomeActivity.kt:383 | no transaction of the category survives, and every other transaction survives in its original relative order |
| `IncomeViewModel.DeleteCategory` | IncomeActivity.kt:380-390 | the name and every transaction under it are gone, and everything else survives in order; the name has no total; the aggregates are consistent and the total drops by exactly that category's sum; the sorted view is a stable re-sort; the filtered view and the hash key are untouched |
| `IncomeViewModel.DeleteThenReAddIsEmpty` | IncomeActivity.kt:308-315 | after a delete, re-adding the name brings back no transactions, and its total is 0 |
| `IncomeViewModel.RenameCategories` | IncomeActivity.kt:393 | the length is preserved; every entry equal to the old name becomes the new name and every other entry is unchanged |
| `IncomeViewModel.RenameTransactions` | IncomeActivity.kt:394-396 | the length is preserved; only the category field changes, and only where it equalled the old name |
| `IncomeViewModel.EditCategory` | IncomeActivity.kt:392-404 | both lists keep their lengths; only matching names and matching category fields change; the aggregates are consistent; both lists and "incomes" are saved, and the hash key is untouched; the sorted view is a stable re-sort and the filtered view is untouched |
| `IncomeViewModel.RenameKeepsTotal` | IncomeActivity.kt:394-396 | renaming does not change the sum of the amounts |
| `IncomeViewModel.RenameMergesCategory` | IncomeActivity.kt:394-396 | after renaming to a different name, nothing is left under the old name and the new name holds both sums |
| `IncomeViewModel.EditCategoryKeepsTotal` | IncomeActivity.kt:392-404 | the total is unchanged by a rename |
| `IncomeViewModel.EditCategoryRemovesOldName` | IncomeActivity.kt:392-404 | after renaming to a different name, the old name is in neither the list, the totals nor any transaction |
| `IncomeViewModel.EditCategoryMerges` | IncomeActivity.kt:392-404 | the new name's total is the sum of what both names held before |
| `IncomeViewModel.EditCategoryRoundTrip` | IncomeActivity.kt:392-404 | renaming to an unused name and back restores both lists |
| `Seqs.RemoveFirst` | IncomeActivity.kt:273 | the length drops by one when the element is present, and the list is unchanged when it is absent |
| `Seqs.RemoveFirstMultiset` | IncomeActivity.kt:273 | exactly one occurrence is removed, and nothing else |
| `Seqs.RemoveFirstCutsFirstOccurrence` | IncomeActivity.kt:273 | the removed element sits at the first index holding an equal value; the result is the list with that index cut out |
| `Seqs.RemoveFirstUndoesAppend` | IncomeActivity.kt:273 | removing an element that was just appended and was not already there restores the list |
| `IncomeViewModel.DeleteTransaction` | IncomeActivity.kt:270-279 | the first equal transaction is cut out and the rest keep their order; an absent transaction changes nothing; only the transaction list, its stored copy and the stably re-sorted view change, so the aggregates, the categories, the filtered view and the other keys stay as they were |
| `Seqs.RemoveFirstCutsSomeFirstOccurrence` | IncomeActivity.kt:273 | removing a present element cuts out exactly its first occurrence, and everything else keeps its order |
| `Ledger.TotalRemoveFirst` | IncomeActivity.kt:273 | removing one occurrence takes exactly its amount off the total |
| `IncomeViewModel.DeleteTransactionThenReload` | IncomeActivity.kt:270-279 | after the delete and the reload it triggers, the aggregates are consistent and the total has dropped by the amount |
| `Ledger.IndexOfId` | IncomeActivity.kt:284 | returns the first index with the id, or -1 exactly when no transaction has it |
| `Ledger.ReplaceById` | IncomeActivity.kt:283-287 | the length is preserved; the first transaction with the id is replaced and no other index changes; without a match the list is unchanged |
| `Ledger.ReplaceByIdIdempotent` | IncomeActivity.kt:283-287 | replacing again with the same record changes nothing more |
| `Ledger.ReplaceByIdTotal` | IncomeActivity.kt:283-287 | the total moves by the new amount minus the replaced amount |
| `Ledger.TotalUpdate` | IncomeActivity.kt:286 | overwriting one element moves the total by the difference of the two amounts |
| `IncomeViewModel.UpdateTransaction` | IncomeActivity.kt:281-293 | replace-by-id on the list; only the transaction list, its stored copy and the stably re-sorted view change, so the aggregates, the categories, the filtered view and the other keys stay as they were |
| `IncomeViewModel.UpdateTransactionThenReload` | IncomeActivity.kt:281-293 | after the update and the reload it triggers, the aggregates are consistent and the total has moved by the difference in amount |
| `IncomeViewModel.AddTransaction` | IncomeActivity.kt:364-378 | the list read back from the preference file gains one last element, the record with its date converted; when memory and file agree, this is the list in memory plus that element; the total grows by the amount; the result is consistent and stably sorted; only "IncomeTransactions" and "incomes" are rewritten, and the filtered view is untouched |
| `IncomeViewModel.AddThenDeleteRestores` | IncomeActivity.kt:364-378 | adding a new record and deleting it again restores the transaction list |
| `IncomeViewModel.StoredTransactions` | IncomeActivity.kt:427-434 | the stored transaction list, or the empty list when the key is absent |
| `IncomeViewModel.SaveCategories` | IncomeActivity.kt:406-409 | the list is written to "categories", and no other key and nothing in memory changes |
| `IncomeViewModel.SaveTransactions` | IncomeActivity.kt:295-299 | the list is written to "IncomeTransactions", and no other key and nothing in memory changes |
| `IncomeViewModel.SaveThenLoadRoundTrip` | IncomeActivity.kt:406-434 | a reload after saving both lists brings back exactly the saved lists |
| `IncomeViewModel.LoadDataIncome` | IncomeActivity.kt:301-306 | the lists in memory become the stored ones, with the default categories seeded and saved when none is stored; only "categories" and "incomes" are rewritten; the aggregates are consistent and the sorted view is a stable sort under the current key; the filtered view is untouched |
| `IncomeViewModel.Create` | IncomeActivity.kt:262-264 | a new view model holds the stored lists (or the defaults), with consistent aggregates, the date key selected, the sorted view a stable date sort and the filtered view empty; construction rewrites only "categories" and "incomes" and leaves the hash key alone |
| `IncomeViewModel.FilterByCategory` | IncomeActivity.kt:333-337 | the result holds exactly the transactions of that category, each as often as in the list, newest date text first; transactions with the same date text keep their original order |
| `IncomeViewModel.FilterByPeriodForCategory` | IncomeActivity.kt:326-331 | fails exactly when some stored date does not parse, naming such a date; otherwise the result holds exactly the transactions of that category dated within the inclusive range, newest date text first, and same-date transactions keep their original order |
| `IncomeViewModel.FilterByPeriodForAllTransactions` | IncomeActivity.kt:318-324 | fails exactly when some stored date does not parse; otherwise the sorted view holds exactly the transactions dated within the inclusive range, newest date text first, and same-date transactions keep their original order |
| `IncomeViewModel.FirstUnparsable` | IncomeActivity.kt:320 | returns the first transaction whose date does not parse, or -1 exactly when every date parses |
| `IncomeViewModel.InPeriodAsText` | IncomeActivity.kt:320-321 | for parsable texts, the calendar range check is the string range check against the bounds' storage texts |
| `IncomeViewModel.DateOrderIsCalendarOrder` | IncomeActivity.kt:322 | a list in descending date-text order whose dates all parse is in descending calendar order |
| `IncomeViewModel.PeriodFilterAllIsCalendarDescending` | IncomeActivity.kt:318-324 | the all-transactions period filter's result is in descending calendar order |
| `IncomeViewModel.PeriodFilterIsCalendarDescending` | IncomeActivity.kt:326-331 | the period filter's result is in descending calendar order |
| `Dates.Parse` | IncomeActivity.kt:320 | `LocalDate.parse` of a `yyyy-MM-dd` text: every date it yields is a valid calendar date |
| `Dates.ParseIso` | IncomeActivity.kt:320 | every valid date's storage text parses back to that date |
| `Dates.IsoParse` | IncomeActivity.kt:320 | any text that parses is exactly the storage text of the parsed date |
| `Dates.IsoOrder` | IncomeActivity.kt:322 | for valid dates, string order of the storage texts is calendar order |
| `Text.LexLeIsLexicographic` | IncomeActivity.kt:342-344 | `LexLe`, the model of `String.compareTo(..) <= 0`, is exactly the lexicographic order: a prefix comes first, otherwise the first differing character decides |
| `Text.LexLeAppend` | IncomeActivity.kt:342 | with prefixes of equal length, the prefixes decide the order unless they are equal |
| `Text.LexLeTotal` | IncomeActivity.kt:342 | any two strings are ordered one way or the other |
| `Text.LexLeTransitive` | IncomeActivity.kt:342 | string order is transitive |
| `Text.LexLeAntisymmetric` | IncomeActivity.kt:342 | strings ordered both ways are equal |
| `StandardCategories.ExpenseCategories` | StandardCategories.kt:6-22 | 13 default expense names, no duplicates |
| `StandardCategories.IncomeCategories` | StandardCategories.kt:24-31 | 4 default income names, no duplicates |
| `StandardCategories.DefaultsShareOneName` | StandardCategories.kt:6-31 | the two default lists share exactly one name |
| `StandardCategories.CategoriesHash` | StandardCategories.kt:33-35 | a non-empty decimal text that reads back as the 32-bit Java hash of the ", "-joined list |
| `StandardCategories.CategoriesHashEqual` | StandardCategories.kt:33-35 | two lists get the same hash text exactly when their joined texts have the same Java hash |
| `StandardCategories.CategoriesHashCollision` | StandardCategories.kt:33-35 | different lists that join to the same text get the same hash, so the hash is not injective |
| `Text.Join` | StandardCategories.kt:34 | `joinToString()`: the text starts with the first item, and its length is the items' lengths plus two per separator |
| `Text.JoinSnoc` | StandardCategories.kt:34 | the text is built left to right, with each further item appended after ", " |
| `Text.JoinCollides` | StandardCategories.kt:34 | a name containing ", " joins to the same text as the two names around it |
| `JavaHash.ComputeHashCode` | StandardCategories.kt:34 | the wrapping loop `h = 31*h + c` computes the documented polynomial hash of the UTF-16 code units, in int arithmetic |
| `JavaHash.HashCode` | StandardCategories.kt:34 | the hash lies in the 32-bit signed range |
| `JavaHash.HornerStep` | StandardCategories.kt:34 | one more code unit multiplies the polynomial sum by 31 and adds the unit |
| `Digits.IntToStringRoundTrip` | StandardCategories.kt:34 | the decimal text of an integer reads back as that integer, so distinct hashes give distinct texts |
| `IncomeActivity.UpdateCategoriesIfNeeded` | IncomeActivity.kt:94-104 | the defaults' hash is always stored afterwards; a matching stored hash changes nothing; otherwise the list is overwritten with the defaults and the totals recomputed, only "categories", the hash and "incomes" are rewritten, and the transactions, sort key and views are kept |
| `IncomeActivity.UpdateCategoriesIfNeededIdempotent` | IncomeActivity.kt:94-104 | a second check changes nothing |
| `IncomeActivity.FirstRunSeedsDefaults` | IncomeActivity.kt:94-104 | with no stored hash, the defaults are always seeded |
| `IncomeActivity.LoadIncomesFromPrefs` | IncomeActivity.kt:216-224 | the stored map is read first; the view model is then built from the file, and a stored non-empty map becomes its per-category totals (otherwise they are recomputed); the totals shown are written back to "incomes"; the sorted view is a stable date sort and the filtered view is empty |
| `IncomeActivity.LoadCategoriesFromPrefs` | IncomeActivity.kt:226-236 | the stored list, or the saved defaults when none is stored, becomes the list, with consistent aggregates; only the list, the aggregates, "categories" and "incomes" change |
| `IncomeActivity.OnCreate` | IncomeActivity.kt:112-204 | stored totals, then categories, then the hash check; afterwards the ledger is consistent and matches the file, the sorted view is a stable date sort, the filtered view is empty, and the defaults' hash is stored; custom categories are kept only when the stored hash already matched |
| `IncomeActivity.StoredIncomesDoNotSurviveStartup` | IncomeActivity.kt:216-236 | a stored non-empty map is shown after the first load step, but by the end of start-up the totals are recomputed, a stored entry for an unlisted name is gone, and the file holds the recomputed map |

## Left out

- Compose UI: the screen, rows, dialogs, menus and drawer are presentation. Dialog input
  validation (blank names, trimming, numeric amount text) is not modelled; operations
  accept any name and amount.
- Android plumbing is not modelled: the activity lifecycle, the broadcast receiver and
  manager, and `viewModelScope`. The update hook is a no-op, and each coroutine is one
  atomic step. The reload a broadcast triggers is modelled as an explicit call to
  `LoadDataIncome`.
- SharedPreferences and Gson: preferences are a record of decoded values, and the JSON
  round trip is taken as the identity. `apply()` is treated as an immediate write.
  Malformed JSON is not modelled.
- `DateUtils.formatDate` is not part of this model. `AddTransaction` takes the conversion
  as a function parameter.
- Amounts are whole numbers rather than `Double`. Floating-point rounding and
  `incomeFormatAmount` are not modelled.
- UUID generation is not modelled. The id is part of the record passed in.
- `SettingsMenu.kt` (a two-key settings write) and `ReminderWorker.kt` (notification I/O)
  are not modelled.
- `Dates.Parse`: accepts only the plain `yyyy-MM-dd` form with an unsigned four-digit year.
  `ISO_DATE` also accepts a negative four-digit year (`-0001-01-01`), signed years of more
  than four digits, and a trailing offset. The model assumes that stored dates never take
  those forms. `DateUtils.formatDate` and the edit screen that supplies the records are not
  part of this model, so the assumption is not shown.
- `IncomeViewModel.InPeriodAsText`: requires both bounds to have four-digit years.
  `LocalDate` also allows years outside 0-9999.
- `Text.LexLe`: compares Unicode scalar values. Kotlin compares UTF-16 code units, and the
  two orders differ only between supplementary characters and U+E000-U+FFFF.
  `JavaHash.Utf16` does encode surrogate pairs for the hash.
