# Personal-finance dashboard: a verified model of its transaction logic

This project models, in Dafny, the transaction handling of a small
personal-finance dashboard: a FastAPI backend that stores a user's
transactions, and a React client that lists, filters, totals and charts
them.

- **Backend (new/backend/app/main.py).** The store is a class
  `Store.TransactionStore` whose `rows` are the transaction table in
  primary-key order. Each request handler is one method of that class:
  - listing with filters;
  - CSV import and export;
  - monthly per-category statistics;
  - duplicate removal;
  - patch and delete with an ownership check.

  The demo-data month walk is in `Seeding`. Each method is proved against
  a specification function in `StoreSpec`, `MonthlyStats` or `Duplicates`.
  The properties the code promises are lemmas about those functions.
- **Data model (new/backend/app/models.py).** The transaction record and its
  defaults are in `Models`. The record carries the `user_id` that main.py
  reads and writes, although models.py does not declare it.
- **Rules (new/backend/app/rules_engine.py).** `RulesEngine` loads rules
  and evaluates them in order. A condition that raises counts as false.
- **Client (new/frontend/src/App.tsx, MonthlyCategoryChart.tsx).**
  - `Dashboard` holds the summary totals, the category list and the
    required-field check.
  - `Dashboard` also holds the filter query string, with the component
    state as the class `Dashboard.DashboardState`.
  - `Chart` regroups the statistics into one record per month and colours
    each category by a 32-bit string hash.

Amounts are integers (cents). The demo-data base amounts and their
random variations are whole euros in the source, so they appear
multiplied by 100. Dates are `Models.Date`. The parsers
`strptime` and `float` are parameters. So are the condition evaluator, the
random draws and the clock. The month label of a chart record can be
overwritten by a category named `month`, as in the source
(`Chart.RecordKeys`). A category named `__proto__` stores nothing in the
record, because the inherited `__proto__` setter ignores a number
(`Chart.ProtoCategoryDropped`).

## Model

| member | source | states |
|---|---|---|
| Models.NewTransaction | new/backend/app/models.py:5-14 | a new record has the given date and amount, currency "EUR", no description, merchant or category, and no id until the store assigns one |
| Models.NewCreate | new/backend/app/models.py:5-17 | a create payload carries exactly the base fields with their defaults and has no id |
| Models.FromCreate | new/backend/app/main.py:111 | building a record from a payload keeps every base field and leaves id and owner unset |
| Models.DaysInMonth | new/backend/app/main.py:416 | month length as `monthrange` gives it: 31 exactly for the long months, 30 exactly for April, June, September and November, 29 exactly for February of a leap year, 28 otherwise |
| Models.DateLeTotal | new/backend/app/main.py:160 | the date order used for sorting is total and antisymmetric |
| Models.DateLeTransitive | new/backend/app/main.py:160 | the date order is transitive |
| StoreSpec.NextId | new/backend/app/models.py:14 | the next primary key is positive and larger than every stored id |
| StoreSpec.Owned | new/backend/app/main.py:78 | a user's rows are exactly the stored rows with that owner |
| StoreSpec.Lower | new/backend/app/main.py:138 | lower-casing keeps the length, leaves no ASCII capital and leaves every other character as it is |
| StoreSpec.ContainsCIExample | new/backend/app/main.py:138 | the description match ignores case and needs the text to occur |
| StoreSpec.AllHoldAppend | new/backend/app/main.py:157-159 | adding a `where` clause conjoins its condition |
| StoreSpec.SelectionIsListing | new/backend/app/main.py:134-159 | conditions equivalent to the query select exactly the listed rows |
| StoreSpec.SelectionNoConditions | new/backend/app/main.py:134 | with no filters the caller's own rows are selected |
| StoreSpec.InsertByDateDesc | new/backend/app/main.py:160 | inserting keeps a list sorted by date descending and adds exactly that row |
| StoreSpec.RemoveAtAscending | new/backend/app/main.py:237 | removing a row keeps ids strictly ascending |
| StoreSpec.CsvRow | new/backend/app/main.py:84-90 | an export row has five cells; date and amount are the row's; a missing category or description is written empty |
| StoreSpec.CsvNameExamples | new/backend/app/main.py:53-54 | only a present filename ending in ".csv" (case-sensitive) is accepted |
| StoreSpec.ImportedCategory | new/backend/app/main.py:65 | an absent or empty category column is stored as None, any other value as given |
| StoreSpec.ParseRecord | new/backend/app/main.py:60-67 | a CSV row becomes a transaction exactly when date and amount parse and the description column exists; the result is owned by the caller |
| StoreSpec.Imported | new/backend/app/main.py:58-71 | import never yields more transactions than rows |
| StoreSpec.ImportedAppend | new/backend/app/main.py:59-71 | rows are imported independently: a failing row skips only itself |
| StoreSpec.ImportedCount | new/backend/app/main.py:58-73 | the count equals the number of accepted rows; each import is the caller's, unsaved, and comes from some input row |
| StoreSpec.ImportedStep | new/backend/app/main.py:59-71 | one more record adds its transaction exactly when it parses |
| StoreSpec.StampKeeps | new/backend/app/main.py:72 | committing keeps each new row's fields and owner, and gives the rows ids ascending from the next key |
| StoreSpec.ItemsFields | new/backend/app/main.py:219 | the set payload fields: date and amount first, then an item for an optional field exactly when the payload sets it, with its value |
| StoreSpec.SetAllAppend | new/backend/app/main.py:220-221 | applying assignments in two parts equals applying them all |
| StoreSpec.SetAllItems | new/backend/app/main.py:219-221 | patching overwrites exactly the set fields and keeps id, owner and unset fields |
| MonthlyStats.Label | new/backend/app/main.py:177 | the category label is the category, or "Unbekannt" when it is missing or empty |
| MonthlyStats.Contributing | new/backend/app/main.py:170-175 | contributing rows are the caller's, in the year filter when it is truthy |
| MonthlyStats.TotalAppend | new/backend/app/main.py:178 | one row adds its amount to the total of its own (month, label) key only |
| MonthlyStats.KeysAppend | new/backend/app/main.py:178 | one row adds its own key to the key set |
| MonthlyStats.ContributingStep | new/backend/app/main.py:173-175 | a row contributes exactly when it is the caller's and passes the year filter |
| MonthlyStats.TotalOutsideKeys | new/backend/app/main.py:178 | a key no row has totals zero |
| MonthlyStats.UncategorisedKeys | new/backend/app/main.py:177 | rows of one month without a category, or with an empty one, fall only into the key "Unbekannt" |
| MonthlyStats.UncategorisedPooled | new/backend/app/main.py:177-178 | the "Unbekannt" total of such rows is the sum of all their amounts |
| MonthlyStats.StatKeysAppend | new/backend/app/main.py:183 | emitting one item adds its key |
| MonthlyStats.InsertMonth | new/backend/app/main.py:181 | insertion keeps months strictly ascending and adds exactly that month |
| MonthlyStats.SortMonths | new/backend/app/main.py:181 | sorting yields the same months strictly ascending |
| MonthlyStats.Bump | new/backend/app/main.py:178 | `stats[month][cat] += amount` starts a missing key at zero and changes no other key |
| MonthlyStats.AccumulateStep | new/backend/app/main.py:173-178 | after one more row the table still holds exactly the totals of every key seen |
| MonthlyStats.EmittedStep | new/backend/app/main.py:181-183 | the output grows by the items of one month per outer iteration |
| MonthlyStats.EmittedItems | new/backend/app/main.py:180-184 | every output item is a (month, category) of the table with its sum, and every such pair is output |
| MonthlyStats.EmittedDistinct | new/backend/app/main.py:180-184 | no (month, category) pair is output twice |
| MonthlyStats.EmittedOrdered | new/backend/app/main.py:180-184 | output months never decrease |
| MonthlyStats.StatsOutput | new/backend/app/main.py:168-184 | each output sum is the total of its key; the keys are exactly those of contributing rows; no key repeats; months ascend |
| Duplicates.CollectStep | new/backend/app/main.py:194-199 | a row is marked exactly when its key was already seen among the caller's earlier rows |
| Duplicates.WithoutIds | new/backend/app/main.py:201-202 | deleting never adds rows |
| Duplicates.WithoutIdsMembers | new/backend/app/main.py:201-202 | a row survives exactly when its id is not deleted |
| Duplicates.WithoutNoIds | new/backend/app/main.py:203-204 | deleting nothing changes nothing |
| Duplicates.WithoutIdsAscending | new/backend/app/main.py:201-202 | deleting keeps ids strictly ascending |
| Duplicates.IndexOfId | new/backend/app/main.py:194 | with ascending ids, ids identify and order rows |
| Duplicates.Survives | new/backend/app/main.py:194-199 | a row is deleted exactly when an earlier row of the caller has its key |
| Duplicates.DeduplicatedKeysDistinct | new/backend/app/main.py:190-205 | afterwards no two of the caller's rows share (date, amount, description, category) |
| Duplicates.WithoutIdsKeeps | new/backend/app/main.py:201-202 | rows whose ids are not deleted are kept in order |
| Duplicates.OthersUntouched | new/backend/app/main.py:190 | other users' rows are unchanged |
| Duplicates.FirstOccurrenceKept | new/backend/app/main.py:196-199 | for every key of the caller, the caller's earliest row with that key is still in the table |
| Duplicates.RemoveOne | new/backend/app/main.py:202 | deleting one present id removes exactly one row |
| Duplicates.WithoutIdsStep | new/backend/app/main.py:201-202 | deleting ids one at a time equals deleting them together |
| Duplicates.DeleteStep | new/backend/app/main.py:201-202 | each deletion of a present, not yet deleted id removes one row and keeps ids ascending |
| Store.BuildConditions | new/backend/app/main.py:135-156 | the filter list holds for a row exactly when the row matches the query; malformed dates add no condition |
| Store.AddToStats | new/backend/app/main.py:176-178 | the nested table gains the amount under its key and keeps its shape |
| Store.EmitStats | new/backend/app/main.py:180-183 | the output is the table's items, month by sorted month |
| Store.TransactionStore.Add | new/backend/app/main.py:113-115 | a saved row gets the next id and is appended; nothing else changes |
| Store.TransactionStore.Get | new/backend/app/main.py:216 | the lookup finds the row with that id, or reports that none has it |
| Store.TransactionStore.CreateTransaction | new/backend/app/main.py:110-117 | the stored row has the payload's fields, the caller as owner and a fresh id |
| Store.TransactionStore.Select | new/backend/app/main.py:157-161 | the result is the selected rows, sorted by date descending, as a permutation |
| Store.TransactionStore.ListTransactions | new/backend/app/main.py:123-162 | the result holds exactly the caller's rows matching every filter, sorted by date descending |
| Store.TransactionStore.ExportCsv | new/backend/app/main.py:76-91 | the header, then one row per caller transaction in date-descending order |
| Store.TransactionStore.ImportCsv | new/backend/app/main.py:47-73 | a non-CSV filename is refused with 400 and nothing changes; otherwise the accepted rows are appended and counted |
| Store.TransactionStore.UpdateTransaction | new/backend/app/main.py:209-225 | missing or foreign rows give 404 and nothing changes; otherwise only that row changes, and only its set fields |
| Store.TransactionStore.DeleteTransaction | new/backend/app/main.py:228-239 | missing or foreign rows give 404 and nothing changes; otherwise exactly that row is removed |
| Store.TransactionStore.GroupStats | new/backend/app/main.py:170-178 | the table holds, per (month, label), the total of the contributing rows |
| Store.TransactionStore.StatsMonthlyCategory | new/backend/app/main.py:168-184 | each item's sum is its key's total; the keys are exactly those with a contributing row; no key repeats; months ascend |
| Store.TransactionStore.CollectDuplicates | new/backend/app/main.py:188-199 | the marked ids are exactly the caller's later duplicates, in id order |
| Store.TransactionStore.DeleteAll | new/backend/app/main.py:201-204 | exactly the marked rows are removed |
| Store.TransactionStore.DeleteDuplicates | new/backend/app/main.py:187-205 | the table becomes the deduplicated table, and the count is the number of rows removed |
| Seeding.NextMonth | new/backend/app/main.py:426-429 | the next month keeps the day; December rolls to January of the next year; it fails exactly when the day does not exist there or the year passes 9999 |
| Seeding.ExpenseDay | new/backend/app/main.py:416 | the i-th expense day is min(3 + 2i, last day of the month): never past 3 + 2i, never past month end, and one of the two |
| Seeding.Seeded | new/backend/app/main.py:405-411 | a seeded row is the user's, with the given fields and no id |
| Seeding.ExpenseRows | new/backend/app/main.py:413-425 | expense row i is drawn entry i, on its description and category, with its amount moved by that entry's variation |
| Seeding.MonthAmounts | new/backend/app/main.py:402-425 | for draws in the generator's ranges: the income is on day 1 and within 100 euros, a whole number of euros, of the base; the expense rows are a shuffle of the user's expenses, one row each, each moved by at most 20 euros |
| Seeding.WalkDates | new/backend/app/main.py:401-429 | every seeded row is the user's, on a real date, in a month from the start month to the current month |
| Seeding.WalkFromFirst | new/backend/app/main.py:401-429 | from the first of a month the walk never fails before year 9999 |
| Seeding.SeedStartWalks | new/backend/app/main.py:267 | from the fixed start date the walk always completes |
| Seeding.WalkFromThirtyFirst | new/backend/app/main.py:426-429 | a walk from 31 January fails at the step to February |
| Seeding.AddMonth | new/backend/app/main.py:402-425 | the loop body appends exactly the month's transactions |
| Seeding.SeedMonthly | new/backend/app/main.py:387-430 | a user with more than 50 rows in range is skipped; otherwise the walk's transactions are produced month by month |
| RulesEngine.Eval | new/backend/app/rules_engine.py:14-18 | a rule holds exactly when its condition yields a truthy value; raising counts as false |
| RulesEngine.RuleOf | new/backend/app/rules_engine.py:23 | an entry becomes a rule exactly when id and condition exist; description defaults to "" and severity to "info" |
| RulesEngine.RulesOf | new/backend/app/rules_engine.py:23 | loading succeeds exactly when every entry has id and condition, giving one rule per entry in order |
| RulesEngine.LoadRules | new/backend/app/rules_engine.py:21-23 | a document without "rules" has no rules; otherwise the entries are loaded |
| RulesEngine.IssueOf | new/backend/app/rules_engine.py:33 | an issue carries exactly the rule's id, description and severity |
| RulesEngine.IssuesBound | new/backend/app/rules_engine.py:29-34 | there are never more issues than rules |
| RulesEngine.IssuesAppend | new/backend/app/rules_engine.py:31-33 | rules are evaluated independently, so the issues of concatenated lists concatenate |
| RulesEngine.RaisingRuleSkipped | new/backend/app/rules_engine.py:14-18 | a raising rule adds no issue and does not stop later rules |
| RulesEngine.IssuesOfHolding | new/backend/app/rules_engine.py:29-34 | the issues are those of the holding rules, in rule order |
| RulesEngine.IssuesMembers | new/backend/app/rules_engine.py:31-33 | an issue is raised exactly when a holding rule carries it |
| RulesEngine.EvaluateRules | new/backend/app/rules_engine.py:29-34 | the loop returns exactly the specified issues |
| Dashboard.IncomeStep | new/frontend/src/App.tsx:34 | income adds exactly the positive amounts |
| Dashboard.ExpenseStep | new/frontend/src/App.tsx:35 | expense adds exactly the negative amounts |
| Dashboard.TotalsStep | new/frontend/src/App.tsx:34-35 | one more transaction adds to the matching total only |
| Dashboard.TotalsSigns | new/frontend/src/App.tsx:34-35 | income is at least 0 and expense at most 0 |
| Dashboard.BalanceIsSum | new/frontend/src/App.tsx:34-36 | the balance equals the sum of all amounts |
| Dashboard.TotalsExample | new/frontend/src/App.tsx:34-36 | 1200, 0 and -50 give income 1200, expense -50 and balance 1150 |
| Dashboard.Defined | new/frontend/src/App.tsx:79 | the kept categories are exactly the defined ones |
| Dashboard.DefinedNoDup | new/frontend/src/App.tsx:79 | dropping missing values keeps the list duplicate-free |
| Dashboard.DefinedOrder | new/frontend/src/App.tsx:79 | dropping missing values keeps the order |
| Dashboard.CategoriesSpec | new/frontend/src/App.tsx:79 | the category list is duplicate-free, holds exactly the defined categories, and keeps first-appearance order |
| Dashboard.WithField | new/frontend/src/App.tsx:115-117 | a change stores the raw text in exactly that field |
| Dashboard.CompleteSpec | new/frontend/src/App.tsx:123-126 | a text amount is falsy exactly when it is "", a number exactly when it is 0; the reset form and an untouched 0 are refused, a typed "0" passes |
| Dashboard.QuerySpec | new/frontend/src/App.tsx:84-90 | a parameter is sent exactly when its value is non-empty, with that value, in fixed order |
| Dashboard.EmptyFiltersEmptyQuery | new/frontend/src/App.tsx:261 | with every filter reset the query is empty |
| Dashboard.QueryUnfold | new/frontend/src/App.tsx:84-90 | the append sequence gives exactly the query |
| Dashboard.QueryStep | new/frontend/src/App.tsx:85-90 | each conditional append extends the query by that parameter when it is non-empty |
| Dashboard.DashboardState.BuildQuery | new/frontend/src/App.tsx:84-90 | the appended parameters are the specified query of the current filters |
| Dashboard.DashboardState.ResetFilters | new/frontend/src/App.tsx:258-262 | every filter becomes "" and the query is empty; nothing else changes |
| Dashboard.DashboardState.HandleChange | new/frontend/src/App.tsx:115-117 | only the changed form field changes, to the raw text |
| Dashboard.DashboardState.HandleSubmit | new/frontend/src/App.tsx:119-131 | messages are cleared; a complete form is sent unchanged, an incomplete one is not sent and the error is set |
| Dashboard.DashboardState.OnSaved | new/frontend/src/App.tsx:136-139 | after a save the success message is set and the form is reset to a value that cannot be submitted |
| Dashboard.EditModal.HandleChange | new/frontend/src/App.tsx:456-458 | only the changed field changes |
| Dashboard.EditModal.HandleSubmit | new/frontend/src/App.tsx:460-468 | the same check; only a complete form is passed to `onSave` |
| Chart.RecordLastWins | new/frontend/src/MonthlyCategoryChart.tsx:10-13 | a category other than `__proto__` holds the sum of the last item with that month and category |
| Chart.RecordKeys | new/frontend/src/MonthlyCategoryChart.tsx:11-12 | a record holds exactly "month" and its month's categories except `__proto__`; the label survives unless a category is named "month" |
| Chart.ProtoCategoryDropped | new/frontend/src/MonthlyCategoryChart.tsx:12 | an item in category `__proto__` leaves its month's record with only the label |
| Chart.GroupStep | new/frontend/src/MonthlyCategoryChart.tsx:10-13 | one item updates only its month's record and adds the month if new |
| Chart.AddDatum | new/frontend/src/MonthlyCategoryChart.tsx:11-12 | one item adds its month to the key set and nothing else |
| Chart.TabledStep | new/frontend/src/MonthlyCategoryChart.tsx:9-13 | the forEach body keeps the keys in first-appearance order and the records specified |
| Chart.Group | new/frontend/src/MonthlyCategoryChart.tsx:8-15 | one record per distinct month, in first-appearance order, each the specified record |
| Chart.MonthAbsent | new/frontend/src/MonthlyCategoryChart.tsx:11 | a month seen for the first time starts as `{ month }` |
| Chart.ChartCategoriesSpec | new/frontend/src/MonthlyCategoryChart.tsx:17 | the bar categories are exactly the data's, each once, in first-appearance order |
| Chart.ToInt32 | new/frontend/src/MonthlyCategoryChart.tsx:41 | the 32-bit conversion is a signed value congruent modulo 2^32 |
| Chart.HashMod | new/frontend/src/MonthlyCategoryChart.tsx:40-42 | the reference hash, `c + 31·h` modulo 2^32 per code unit, lies in [0, 2^32) |
| Chart.HashStepMod | new/frontend/src/MonthlyCategoryChart.tsx:41 | each loop step computes `c + 31·h` modulo 2^32 |
| Chart.ShiftMask | new/frontend/src/MonthlyCategoryChart.tsx:45 | `(hash >> 8i) & 0xFF` is a byte |
| Chart.ShiftMaskMod | new/frontend/src/MonthlyCategoryChart.tsx:45 | that byte is byte i of the hash modulo 2^32, lowest first |
| Chart.HexDigit | new/frontend/src/MonthlyCategoryChart.tsx:45 | a digit is a lower-case hex digit with that value |
| Chart.Hex | new/frontend/src/MonthlyCategoryChart.tsx:45 | `toString(16)` of a byte has one or two digits |
| Chart.LastTwo | new/frontend/src/MonthlyCategoryChart.tsx:45 | `slice(-2)` keeps two characters |
| Chart.HexByte | new/frontend/src/MonthlyCategoryChart.tsx:45 | padding gives the byte's two hex digits, zero-padded |
| Chart.ColorPrefix | new/frontend/src/MonthlyCategoryChart.tsx:43-46 | after k bytes the colour is "#" and 2k characters |
| Chart.ColorOf | new/frontend/src/MonthlyCategoryChart.tsx:38-48 | a colour is "#" and six characters |
| Chart.ByteOf | new/frontend/src/MonthlyCategoryChart.tsx:45 | each extracted byte is in [0, 256) |
| Chart.ColorPrefixDigits | new/frontend/src/MonthlyCategoryChart.tsx:43-46 | characters 1+2i and 2+2i are byte i's hex digits |
| Chart.ColorBytes | new/frontend/src/MonthlyCategoryChart.tsx:43-47 | the colour is six lower-case hex digits whose pairs read back as bytes 0, 1 and 2 of the hash |
| Chart.EmptyColor | new/frontend/src/MonthlyCategoryChart.tsx:39-47 | the empty string is "#000000" |
| Chart.StringToColor | new/frontend/src/MonthlyCategoryChart.tsx:38-48 | the loops compute the specified colour of the string |
| Common.Dedup | new/frontend/src/App.tsx:79 | `new Set` keeps each element once, and exactly the elements given |
| Common.DedupFirstAppearance | new/frontend/src/App.tsx:79 | `new Set` keeps first-appearance order |
| Common.Filter | new/frontend/src/App.tsx:34 | `filter` keeps only elements of the input that pass, and never adds any |
| Common.FilterOrder | new/frontend/src/App.tsx:84-90 | filtering keeps relative order |

## Left out

- Authentication and the database session are not modelled. The caller's
  user id is an input, and the table is an in-memory sequence in primary-key
  order. auth.py and db.py are not part of this model.
- CSV tokenising, quoting, UTF-8 decoding and the stringification of cells
  are left out. Import rows arrive as column maps. Export rows are cell
  sequences.
- Floating-point amounts are integers (cents), so `float()` parsing and
  rounding are not modelled. `strptime` and `float` are parameters.
- Store.TransactionStore.ListTransactions: `ilike` is modelled as ASCII
  case-insensitive substring containment. `%` and `_` inside `q` are not
  treated as wildcards.
- Store.TransactionStore.ListTransactions: rows with equal dates may come in
  any order. The contract states the sort and the permutation, not the
  order of ties.
- Store.TransactionStore.ListTransactions: the date bounds are compared
  as calendar dates, inclusive at both ends. The handler parses them into
  `datetime` values and compares them with the `date` column
  (new/backend/app/main.py:147-148 and 153-154). How SQLAlchemy binds that
  value on SQLite is not modelled. If it is bound as date-and-time text,
  a row dated exactly `from_date` sorts before the bound and is left out,
  while `to_date` stays inclusive.
- Store.TransactionStore.ExportCsv: the order of rows with equal dates is
  not stated, for the same reason.
- Store.TransactionStore.StatsMonthlyCategory: the order of categories
  within a month is not stated. Months are compared as (year, month) pairs,
  which agrees with sorting the "YYYY-MM" strings for years 1000 to 9999.
- Store.TransactionStore.CreateTransaction: the plausibility issues are
  not returned. The context mapping in rules.py is not part of this model.
- Store.TransactionStore.DeleteDuplicates: rows are scanned in primary-key
  order, taken as the order SQLite returns them without `order_by`.
- RulesEngine.Eval: Python `eval` is a parameter, `run`. rules_config.yaml
  is not part of this model, so the concrete rule ids are not modelled.
- RulesEngine.LoadRules: YAML values are taken as strings, and reading the
  rule file is not modelled.
- Seeding.SeedMonthly: the random draws are a parameter, `draw`.
  `Seeding.Drawn` states their ranges: whole euros, at most 100 either
  way for the income and 20 for each expense. The number of existing rows is a
  parameter, and the loop over demo users and the final commit are left
  out. `date.today()` is the parameter `today`.
- Chart.StringToColor: the running hash is an exact integer. JavaScript
  numbers are exact only below 2^53. Each step can grow the hash by at
  most 2^32, so the model differs only for strings longer than about two
  million code units.
- Chart.Group: `Object.values` lists integer-like keys first, and a month
  label that names an `Object.prototype` member (`constructor`, `__proto__`)
  makes `if (!map[month])` find the inherited value, so no record is created.
  Month labels ("YYYY-MM") are never integer-like and never such names, so
  neither case is modelled.
- Dashboard.DashboardState.BuildQuery: the percent-encoding of
  `URLSearchParams.toString` is not modelled; the query is its list of
  pairs.
- Fetching, rendering, `window.confirm` and the effect chains of App.tsx
  are not modelled. AdminPanel.tsx and AuthForm.tsx are not part of this
  model.
