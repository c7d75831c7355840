# Budget grid (BudgetBuilder) in Dafny

This project models the budget grid of BudgetBuilder's `BudgetComponent`. The grid has income and expense lists of parent categories. Each parent holds subcategories, and each subcategory holds one number per month of a chosen range. The model covers:

- resolving the month range, and the `"YYYY-MM"` month inputs;
- the positional resize that keeps every row as long as the range;
- the edits of the category tree (add, rename, remove);
- the cell edit with its text-to-number rule;
- the subtotals, totals, profit or loss, and the opening and closing balances;
- "apply to all", which fills one row with the value that was right-clicked.

Modules:

- `Decimal` (decimal.dfy): digit strings, used by `parseInt`, `parseFloat` and the month key.
- `Months` (months.dfy): a JavaScript Date at the first of a month is its month number `year * 12 + monthIndex`, or the Invalid Date. The module holds `rangeMonths` as a loop and the specification it meets, `monthKeyFromDate`, and the split-and-`parseInt` month input.
- `CellInput` (cell_input.dfy): the character filter, the first-comma replacement and `parseFloat`.
- `Grid` (grid.dfy): the grid as values. It holds the resize loops and what they compute, the tree edits as functions of the old lists, the aggregates, and lemmas about how every edit moves the grid invariant, the totals and the balances.
- `Budget` (budget.dfy): the class `BudgetComponent` with the component's fields and one method per handler. Each method's `ensures` gives the new lists in terms of the old ones through the `Grid` functions.
- `Wrappers` (wrappers.dfy): `Option`.

Behaviours of the code worth noting, all of which the model reproduces:

- An input month string that does not parse is not ignored. `parseInt` yields NaN, the bound becomes the Invalid Date, and the range is then empty (`Months.DateFromInput`, `Months.MonthsBetween`).
- A cell write past the end of a row does not do nothing. It extends the row (`Grid.SetCell`). Only a missing parent or subcategory makes `updateValue` do nothing.
- The grid is resized only when a month input changes. Adding or removing a subcategory does not trigger a resize. New subcategories are created with the right length anyway, so the grid invariant is kept by every handler except a cell write past the end (`Grid.CellPastEndBreaksFit`).
- Handlers change parent and subcategory objects in place rather than copying them. The model treats the lists as values; the component never shares one row object between two places, so nothing observable is lost.
- JavaScript's `new Date(y, m, 1)` reads a year from 0 to 99 as 1900 to 1999. It is modelled (`Months.FullYear`), so the `"YYYY-MM"` round trip returns the same Date only for years from 100 on (`Months.DateFromMonthKey`).
- Renaming a subcategory resets its values to zero, unlike renaming a parent. The model reproduces this.

## Model

| member | source | states |
|---|---|---|
| `Months.KeyOf` | src/app/budget/budget.component.ts:78 | the year and 1-based month read off a Date form a valid calendar month whose month number is the Date's |
| `Months.KeyOfIndex` | src/app/budget/budget.component.ts:78 | every valid calendar month is the month of its own month number, so month numbers and months correspond one to one |
| `Months.KeyOfMonotone` | src/app/budget/budget.component.ts:125 | comparing two Dates (`cur <= last`) agrees with comparing their months year first, then month |
| `Months.KeyOfSucc` | src/app/budget/budget.component.ts:127 | `setMonth(getMonth() + 1)` moves to the next calendar month, December rolling over to January of the next year |
| `Months.RebuildEffect` | src/app/budget/budget.component.ts:123-124 | copying a bound with `new Date(getFullYear(), getMonth(), 1)` keeps it, except that a year from 0 to 99 moves 1900 years on |
| `Months.RangeMonths` | src/app/budget/budget.component.ts:121-130 | the loop returns exactly the months from the copied start to the copied end inclusive, and nothing for an Invalid Date |
| `Months.RangeLength` | src/app/budget/budget.component.ts:121-130 | the range has `last - first + 1` months, and none when the end precedes the start or a bound is the Invalid Date |
| `Months.RangeEndpoints` | src/app/budget/budget.component.ts:123-126 | a non-empty range starts with the start month and ends with the end month |
| `Months.RangeIncreasing` | src/app/budget/budget.component.ts:125-128 | the months of the range are strictly increasing in calendar order |
| `Months.RangeConsecutive` | src/app/budget/budget.component.ts:125-128 | each month of the range is followed by the next calendar month, with December rolling over to January |
| `Months.RangeMembership` | src/app/budget/budget.component.ts:121-130 | a calendar month is in the range if and only if it lies between the two bounds |
| `Months.RangeSingleMonth` | src/app/budget/budget.component.ts:121-130 | January 2025 to January 2025 gives exactly January 2025 |
| `Months.RangeReversed` | src/app/budget/budget.component.ts:121-130 | March 2025 to January 2025 gives no month |
| `Months.RangeAcrossYearEnd` | src/app/budget/budget.component.ts:121-130 | November 2024 to February 2025 gives November, December, January and February |
| `Months.PadStart2` | src/app/budget/budget.component.ts:78 | `padStart(2, '0')` gives at least two characters and ends with the original string |
| `Months.Split` | src/app/budget/budget.component.ts:94 | `split('-')` always yields at least one piece |
| `Months.MonthKeyFormat` | src/app/budget/budget.component.ts:78 | for a year of 0 or more, the key is the year's shortest decimal spelling, a dash, and the month as exactly two digits whose value is the month |
| `Months.MonthKeyRoundTrip` | src/app/budget/budget.component.ts:78-94 | for a year of 0 or more, splitting the `"YYYY-MM"` key on `-` and reading both parts with `parseInt` gives back the year and the month |
| `Months.DateFromMonthKey` | src/app/budget/budget.component.ts:94-95 | the Date built from a month key is the keyed month for years from 100 on, and 1900 years later for years 0 to 99 |
| `Decimal.NatToString` | src/app/budget/budget.component.ts:78 | a number prints as its shortest decimal spelling: non-empty digits, no leading zero except for 0 itself, one digit exactly for numbers below 10 |
| `Decimal.ValueOfNatToString` | src/app/budget/budget.component.ts:78-94 | reading back the printed digits gives the number |
| `Decimal.LeadingZero` | src/app/budget/budget.component.ts:94 | the zero that `padStart` puts before a one-digit month does not change the value `parseInt` reads |
| `Decimal.DigitRun` | src/app/budget/budget.component.ts:94 | the digit prefix read by `parseInt`/`parseFloat` is all digits and stops at the first non-digit |
| `CellInput.Clean` | src/app/budget/budget.component.ts:234 | the cleaned text contains only digits, `-`, `.` and `,`, and is no longer than the input |
| `CellInput.CleanIdentity` | src/app/budget/budget.component.ts:234 | cleaning leaves a text unchanged if and only if every character of it is a digit, `-`, `.` or `,` |
| `CellInput.CleanIdempotent` | src/app/budget/budget.component.ts:234 | cleaning twice is cleaning once |
| `CellInput.CleanAppend` | src/app/budget/budget.component.ts:234 | the filter works character by character: it distributes over concatenation |
| `CellInput.CellValueEmpty` | src/app/budget/budget.component.ts:234-236 | a text with no digit, `-`, `.` or `,` in it stores 0 |
| `CellInput.ReplaceFirstComma` | src/app/budget/budget.component.ts:234 | the replacement keeps the length and changes nothing but commas, each into `.` |
| `CellInput.ReplaceNoComma` | src/app/budget/budget.component.ts:234 | a text without a comma is left as it is |
| `CellInput.ReplaceFirstCommaAt` | src/app/budget/budget.component.ts:234 | the first comma becomes `.` and every later comma stays a comma |
| `CellInput.ParseWhole` | src/app/budget/budget.component.ts:235 | `parseFloat` reads a run of digits as its value |
| `CellInput.ParseNegative` | src/app/budget/budget.component.ts:235 | a `-` in front of an unsigned number negates what `parseFloat` reads, and NaN stays NaN |
| `CellInput.ParseDecimal` | src/app/budget/budget.component.ts:235 | digits, `.` and digits read as the whole part plus the fraction |
| `CellInput.FractionBelowOne` | src/app/budget/budget.component.ts:235 | the digits after the decimal point add a value from 0 up to but not including 1 |
| `CellInput.ParseNaN` | src/app/budget/budget.component.ts:235-236 | `parseFloat` is NaN if and only if, after an optional `-`, the text neither starts with a digit nor with `.` and a digit |
| `CellInput.CommaDecimal` | src/app/budget/budget.component.ts:232-236 | `"1,5"` stores 1.5 |
| `CellInput.SecondCommaEndsNumber` | src/app/budget/budget.component.ts:232-236 | `"1,2,3"` stores 1.2, because only the first comma becomes a point |
| `CellInput.NoDigitsStoreZero` | src/app/budget/budget.component.ts:232-236 | `"--"`, `"-"`, `"."` and `""` all store 0 |
| `CellInput.LettersDropped` | src/app/budget/budget.component.ts:232-236 | `"-12 EUR"` stores -12 |
| `Grid.ResizeValues` | src/app/budget/budget.component.ts:301-312 | the inner loop builds exactly the old values cut or padded with zeros to the month count |
| `Grid.SyncItems` | src/app/budget/budget.component.ts:299-313 | resizing the subcategories of one parent resizes each of them and nothing else |
| `Grid.SyncParents` | src/app/budget/budget.component.ts:297-315 | resizing one list resizes every subcategory of every parent and keeps parents and names |
| `Grid.ResizedCell` | src/app/budget/budget.component.ts:303-310 | after a resize to `n` months a row has `n` values; a shown month reads as before and any other reads 0 |
| `Grid.ResizedTwice` | src/app/budget/budget.component.ts:303-310 | shrinking and then growing a row pads with zeros: a value dropped by the shrink does not come back |
| `Grid.ResizeExample` | src/app/budget/budget.component.ts:303-310 | `[10, 20, 30]` over two months is `[10, 20]`, and then over four months is `[10, 20, 0, 0]` |
| `Grid.SyncedFits` | src/app/budget/budget.component.ts:294-320 | after the resize every subcategory of the list has exactly the month count of values |
| `Grid.SyncedShape` | src/app/budget/budget.component.ts:294-320 | the resize keeps the parents, their names, their subcategories and the subcategories' names, in order |
| `Grid.SyncedIdentity` | src/app/budget/budget.component.ts:294-320 | the resize leaves a list unchanged if and only if it already fits the month count |
| `Grid.SyncedIdempotent` | src/app/budget/budget.component.ts:294-320 | resizing twice is resizing once |
| `Grid.SyncedItemsSum` | src/app/budget/budget.component.ts:303-310 | on a shown month, resizing leaves a parent's sum unchanged |
| `Grid.SyncedSum` | src/app/budget/budget.component.ts:294-320 | on a shown month, resizing leaves the income and expense totals unchanged |
| `Grid.SumMissingCells` | src/app/budget/budget.component.ts:410-413 | a parent without subcategories, or a month no row reaches, sums to 0: missing cells count as 0 |
| `Grid.SumItemsUpdate` | src/app/budget/budget.component.ts:412 | replacing one subcategory changes the parent's sum by the difference of the two cells |
| `Grid.SumItemsRemove` | src/app/budget/budget.component.ts:412 | removing one subcategory takes its cell out of the parent's sum |
| `Grid.SumParentsUpdate` | src/app/budget/budget.component.ts:415-421 | replacing one parent changes the total by the difference of the two parent sums |
| `Grid.AggregationExample` | src/app/budget/budget.component.ts:410-417 | subcategories of 100 and 50 under one parent sum to 150; with a second parent of 40 the income total is 190 |
| `Grid.BalanceRecurrence` | src/app/budget/budget.component.ts:423-440 | the first month opens at 0; each month opens at the previous month's close; closing is opening plus profit or loss |
| `Grid.OpeningShift` | src/app/budget/budget.component.ts:428-436 | when one month's profit or loss moves by `d`, every later opening balance moves by `d` and no earlier one moves |
| `Grid.OpeningSame` | src/app/budget/budget.component.ts:428-436 | an opening balance depends only on the profit or loss of the months before it |
| `Grid.BalanceExample` | src/app/budget/budget.component.ts:423-440 | profit or loss of 50, -20 and 30 opens at 0, 50, 30 and closes at 50, 30, 60 |
| `Grid.SetCellRead` | src/app/budget/budget.component.ts:243-258 | after a cell write the written month reads the new value and every other month reads as before; a write past the end lengthens the row to the month plus one |
| `Grid.WithoutSubShape` | src/app/budget/budget.component.ts:200-201 | removal drops exactly the one subcategory: the ones before stay, the ones after move down by one in order, and other parents are unchanged |
| `Grid.EditsKeepFit` | src/app/budget/budget.component.ts:136-292 | adding a parent, adding a subcategory and renaming a parent keep every row as long as the range |
| `Grid.SubEditsKeepFit` | src/app/budget/budget.component.ts:158-478 | renaming or removing a subcategory, filling a row and writing a shown cell keep every row as long as the range |
| `Grid.CellPastEndBreaksFit` | src/app/budget/budget.component.ts:243-244 | a cell write past the month count makes its row longer than the range |
| `Grid.AddAndRenameKeepTotals` | src/app/budget/budget.component.ts:136-292 | adding a parent or a subcategory and renaming a parent leave every total unchanged |
| `Grid.SubEditsTotals` | src/app/budget/budget.component.ts:158-221 | renaming or removing a subcategory takes its old cell out of every month's total |
| `Grid.WithCellTotals` | src/app/budget/budget.component.ts:243-258 | a cell write moves the total of its month by the change of the cell and leaves every other month's total unchanged |
| `Grid.WithRowTotals` | src/app/budget/budget.component.ts:464 | filling a row moves each shown month's total by the value less the old cell |
| `Grid.IncomeCellBalances` | src/app/budget/budget.component.ts:423-436 | writing an income cell moves every later opening balance up by the change of the cell, and no earlier one |
| `Grid.ExpenseCellBalances` | src/app/budget/budget.component.ts:423-436 | writing an expense cell moves every later opening balance down by the change of the cell, and no earlier one |
| `Budget.BudgetComponent.constructor` | src/app/budget/budget.component.ts:41-53 | the range is January to December of the current year, both lists are empty, the selection is `""` with zeros, and the grid invariant holds |
| `Budget.BudgetComponent.SyncAllCategoryValuesToMonths` | src/app/budget/budget.component.ts:294-328 | both lists are resized to the month count, nothing else changes, and afterwards every row has one value per month |
| `Budget.BudgetComponent.OnStartChange` | src/app/budget/budget.component.ts:89-98 | an empty input changes nothing; otherwise the start becomes the parsed month (Invalid Date on NaN), the input is remembered and the grid is resized |
| `Budget.BudgetComponent.OnEndChange` | src/app/budget/budget.component.ts:100-107 | the same for the end month |
| `Budget.BudgetComponent.AddParent` | src/app/budget/budget.component.ts:136-145 | the chosen list (income here, expense at lines 384-390) gains one parent with an empty name and no subcategories; the other list, the range and the selection are unchanged; the grid invariant is kept |
| `Budget.BudgetComponent.AddSub` | src/app/budget/budget.component.ts:147-156 | parent `p` (income here, expense at lines 392-401) gains one unnamed subcategory with one zero per month; everything else is unchanged; the grid invariant is kept |
| `Budget.BudgetComponent.UpdateSubValue` | src/app/budget/budget.component.ts:158-187 | subcategory `s` becomes one named `raw` with one zero per month; every other subcategory and parent is unchanged |
| `Budget.BudgetComponent.RemoveSubValue` | src/app/budget/budget.component.ts:189-221 | the overwrite and the splice together delete subcategory `s`, keeping the others in order |
| `Budget.BudgetComponent.UpdateValue` | src/app/budget/budget.component.ts:225-260 | a missing parent or subcategory changes nothing; otherwise only that one cell changes, to the cleaned and parsed value; the invariant is kept for a shown month |
| `Budget.BudgetComponent.UpdateParentValue` | src/app/budget/budget.component.ts:262-292 | only parent `p`'s name changes; its subcategories and the other parents are kept |
| `Budget.BudgetComponent.OpeningBalance` | src/app/budget/budget.component.ts:428-436 | the loop returns the opening balance: 0 for the first month, else the profit or loss of every earlier month added up |
| `Budget.BudgetComponent.ClosingBalance` | src/app/budget/budget.component.ts:438-440 | the closing balance is the opening balance plus the month's profit or loss, and equals the next month's opening balance |
| `Budget.BudgetComponent.OnRightClick` | src/app/budget/budget.component.ts:445-455 | the selection records the kind, parent, subcategory and value; the lists and the range are unchanged |
| `Budget.BudgetComponent.ApplyAll` | src/app/budget/budget.component.ts:458-478 | the selected row becomes one copy of the selected value per month, in the income list only for kind `"income"`, otherwise in the expense list; the other list and the selection are unchanged |
| `Budget.RightClickThenApplyAll` | src/app/budget/budget.component.ts:445-478 | a right click and then "apply to all" leave the clicked row holding one copy of the value per month, the other list unchanged, and the selection still set |

## Left out

- Angular machinery is not modelled: the component decorator, `@HostListener`, signals and `computed`, and change detection by replacing arrays. Each signal is modelled as the number or string it holds. `ngOnInit` only calls `addIncomeParent` (`AddParent(Income)`), and `ngAfterViewInit` only calls the resize (`SyncAllCategoryValuesToMonths`). The lifecycle order is not modelled.
- The getters `incomeCategories`, `expenseCategories`, `startMonth`, `endMonth`, `incomeSubTotal` and `expenseSubTotal` only return a field or call `sumParentMonth`. They are covered by the fields and by `Grid.SumParentMonth`.
- Month labels from `toLocaleString` depend on the locale and are not modelled. The `months` rows are modelled by their months (`Months.MonthsBetween`).
- The `console.log`, `event.preventDefault`, the context-menu position and `showContextMenu` (with `onDocumentClick`) are user-interface state. They are not modelled.
- `seedDemoNumbersIfEmpty` is not modelled. It has no effect: `.apply(n)` on a signal getter only reads the signal.
- Cell values are `real`. Floating-point rounding in `parseFloat` and in the sums is not modelled.
- `CellInput.ParseFloat` covers only the characters left after cleaning. The model does not cover `parseFloat`'s handling of whitespace, `+`, exponents or `Infinity`, which cannot reach it.
- `Months.ParseInt` does not skip leading whitespace the way `parseInt` does. No part of a `"YYYY-MM"` value from a month input has any.
- Dates beyond JavaScript's Date range (about 275,000 years either side of 1970) are not turned into the Invalid Date. The time of day and time zones are not modelled either: every Date is the first of a month.
- `Budget.BudgetComponent.UpdateValue` takes a non-negative month index. A negative index would only set a non-index property on the JavaScript array.
- `Budget.BudgetComponent.AddSub`, `UpdateSubValue`, `RemoveSubValue`, `UpdateParentValue` and `ApplyAll` require the parent and subcategory they address to exist. The model does not follow what the code does with other indices, which differs by handler:
  - `AddSub` with a missing parent throws a TypeError when it reads `p.items`.
  - `ApplyAll` throws a TypeError when the selected parent or the selected subcategory is missing.
  - `UpdateSubValue` and `RemoveSubValue` throw a TypeError when the parent is missing.
  - `UpdateSubValue` with a subcategory index equal to the length appends the new subcategory. With a larger index it puts the subcategory at that index and leaves holes before it.
  - `RemoveSubValue` at the end index changes nothing: the assignment appends the new subcategory and `splice` removes it again. Beyond the end it leaves holes.
  - `UpdateParentValue` with an index at or past the end appends a parent that has a name and no `items` field. The next resize then throws when it reads that parent's `items`.
- Handlers mutate shared parent objects in place. The model does not capture this aliasing: the lists are values, and no row object is ever shared between two places.
