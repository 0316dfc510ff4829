# Personal-finance API core, modelled in Dafny

This project models the core of a personal-finance back end: the expense,
revenue and debt controllers, the dashboard's monthly and annual summaries,
and the Mongoose schemas of Expense, Revenue and Debt, with the Debt
pre-save hook that splits a debt into monthly installments.

- Every expense and revenue carries a `yearMonth` bucket key,
  `"<year>-<MM>"`, derived from its date. The dashboard filters on that key:
  an exact match for a month, and a `"<year>-"` prefix for a year. Module
  `BucketKey` models the key. Its lemmas prove the key's shape, that the key
  reads back to its year and month, and that for a non-negative year the
  annual prefix selects exactly the keys of that year.
- Module `Collection` models a collection as a sequence of documents in
  stored order, each with an id, an owner and its data. The controllers are
  classes over such a sequence plus the next free id (`ExpenseStore`,
  `RevenueStore`, `DebtStore`). Their methods state their whole new state and
  keep an invariant: ids are distinct and below the next id, and every
  document satisfies its schema. Each method also proves that other owners'
  documents are left as they were, except the owner a PATCH or a debt PUT
  hands the document to through the body's `userId`.
- Validation is module `EntrySchema`, function `Admit`. For debts it is
  `DebtModel.AdmitDebt`. Casting and validation run before the user's
  pre-save hook, as in Mongoose.
- A partial update is the patch merged over the stored document, then
  validated. The update validators check only the paths the patch names.
  `PatchValidIffMergeValid` proves this is equivalent to validating the
  whole merge, since the stored document was valid.
- The installment hook is `DebtModel.GenerateInstallments`, a loop method
  proved equal to the specification function `Schedule`. The lemmas about
  `Schedule` prove:
  - the installment count;
  - equal amounts that add up to the total;
  - valid dates that strictly increase;
  - where a month lacks the start day, the due date rolls into the next
    month on the start day minus that month's length, as JavaScript's
    `Date` does.
- `ApplyUpdate` models updateDebt: the body's keys are assigned to the
  loaded debt, the result is saved, and the hook regenerates the
  installments exactly when the total or the count changed.
- The dashboard (module `Dashboard`) computes its sums and its
  group-by-category over the matched documents. Its lemmas prove:
  - the grouping is correct;
  - summaries are isolated between owners;
  - over consistent documents, the annual total equals the sum of the
    twelve monthly totals.

Some inputs are parameters:
- the clock's current date is `now`;
- a failure of the persistence layer is `fault: Option<Fault>`. `CastFault`
  is an id or value that cannot be cast; `StorageFault` is any other storage
  error.

Errors are `Result` values: `NotFound` is 404, `BadRequest` and `Validation`
are 400, and `Internal` is 500.

Where the code and its own API documentation (the Swagger comments in
`routes/*.js`) disagree, the model follows the code:
- `expenseRoutes.js:86` documents a 400 for a validation error on expense
  create; the code answers 500 for every expense failure
  (`expenseController.js:23-27`). The model answers 500, and likewise for a
  validation failure on debt update or on a revenue patch. A validation
  failure answers 400 only for revenue create, revenue full replace and
  debt create.

The code also behaves in ways the model keeps as they are:
- `totalInstallments` is required but never checked to be positive. A value
  of 0 or below gives a debt with no installments.
- `getRevenueById` passes the filter object to `findById`, which matches on
  `_id` alone, so it is not owner-scoped. See Findings.
- A PATCH, and a debt PUT, may carry a `userId` key. The key is merged like
  any other and hands the document to that owner. The model keeps this.

## Model

| member | source | states |
|---|---|---|
| Calendar.DaysInMonth | back-end/src/models/Debt.js:60-64 | Month lengths of the Gregorian calendar: between 28 and 31, and February has 29 days exactly in leap years |
| Calendar.MakeDate | back-end/src/models/Debt.js:60-64 | `new Date(y, m, day)` is a real date. It stays in month `y*12+m` on the same day exactly when that month has at least `day` days. Otherwise it rolls into the next month on day `day` minus the month's length. Days up to 28 never roll over |
| Text.NatToString | back-end/src/controllers/expenseController.js:8-12 | Decimal rendering of a number: non-empty, all digits, no leading zero, one digit exactly below 10 |
| Text.IntToString | back-end/src/controllers/expenseController.js:8 | `IntToString` renders the year as the template literal does: at least one character, all digits for a non-negative year, a minus sign and digits otherwise |
| Text.IntToStringRoundTrip | back-end/src/controllers/expenseController.js:8 | The year rendered by the template literal reads back to the same integer |
| Text.IntToStringInjective | back-end/src/controllers/expenseController.js:8 | Two years render the same exactly when they are equal |
| Text.PadStart | back-end/src/controllers/expenseController.js:11-12 | `padStart(width, pad)` keeps the string as its suffix. It reaches the width, or leaves a string already that long unchanged. Everything added is the pad character |
| Text.Trim | back-end/src/models/Expense.js:4-8 | The `trim` setter returns the infix left after dropping whitespace from both ends. Everything dropped is whitespace, and the result neither starts nor ends with whitespace |
| Text.TrimFixedIffTrimmed | back-end/src/models/Expense.js:4-8 | `trim` leaves a string unchanged exactly when it has no whitespace at either end |
| Text.TrimIdempotent | back-end/src/models/Expense.js:4-8 | Trimming twice gives the same as trimming once, so re-saving a stored description keeps it |
| Text.TrimEmpty | back-end/src/models/Expense.js:4-8 | A description fails `required` after trimming exactly when it is all whitespace |
| BucketKey.MonthTextDigits | back-end/src/controllers/expenseController.js:8-12 | The month part of the key is two digits holding the month number 1..12 |
| BucketKey.KeyShape | back-end/src/controllers/expenseController.js:8-12 | `YearMonthKey` (the year by `IntToString`, a dash, and `MonthText`, the padded month): for a four-digit year the key is `YYYY-MM`: 7 characters, a dash at position 4, the year's digits, and a month from 01 to 12 |
| BucketKey.KeyRoundTrip | back-end/src/controllers/expenseController.js:8-12 | `YearMonthKey`: parsing the key gives back exactly the year and month it was made from |
| BucketKey.KeyInjective | back-end/src/controllers/expenseController.js:8-12 | Two dates share a key exactly when they share year and month |
| BucketKey.KeyDash | back-end/src/controllers/expenseController.js:8-12 | The key's first dash follows the year's digits, or is the leading minus of a negative year |
| BucketKey.YearPrefixMatch | back-end/src/controllers/dashboardController.js:65 | For a year text without a minus sign, a key matches the prefix `^<year>-` exactly when the text is its year's rendering |
| BucketKey.MonthInsideYear | back-end/src/controllers/dashboardController.js:21 | Every monthly key lies inside the annual prefix of its own year |
| Collection.Owned | back-end/src/controllers/expenseController.js:32 | `find({ userId })` returns only the owner's documents, each taken from the collection, and every one of them |
| Collection.FindFirst | back-end/src/controllers/expenseController.js:44 | `findOne({ _id, userId })` returns the first matching position. No earlier document matches, and None means no document matches |
| Collection.RemoveAt | back-end/src/controllers/expenseController.js:86-89 | `findOneAndDelete` removes one document. The rest keep their order: one fewer, and every other document at its shifted position |
| Collection.AppendFresh | back-end/src/controllers/expenseController.js:21 | Saving under a fresh id keeps ids distinct and leaves every other owner's documents as they were |
| Collection.ReplaceSameId | back-end/src/controllers/expenseController.js:66-70 | Replacing a document under its own id keeps ids distinct. Owners that are neither the old nor the new owner are unaffected |
| Collection.RemoveAtForgetsId | back-end/src/controllers/expenseController.js:86-89 | After the delete no document with the id remains, ids stay distinct, and other owners are unaffected |
| Collection.OwnedConcat | back-end/src/controllers/expenseController.js:32 | The owner filter distributes over concatenation of the collection |
| EntrySchema.Admit | back-end/src/models/Expense.js:3-35 | `Admit`, with `ValidEntry` and the type enum `KindAllowed` (also Revenue.js:3-31): validation of an expense or revenue accepts exactly the bodies with every required path present (the description non-blank after trimming, the strings non-empty, the date real) and, for an expense, a `type` of fixed or variable. An accepted document is valid, holds the body's values with the description trimmed, and for a revenue has no `type` |
| EntrySchema.AdmitToFields | back-end/src/models/Revenue.js:3-31 | A stored valid document passes validation unchanged |
| EntrySchema.AmountUnconstrained | back-end/src/models/Expense.js:9-12 | The amount has no validator: changing its value never changes the verdict |
| EntrySchema.RevenueIgnoresKind | back-end/src/models/Revenue.js:3-31 | The Revenue schema has no `type` path: the key is dropped, whatever its value |
| EntrySchema.StampedConsistent | back-end/src/controllers/expenseController.js:5-19 | `Stamped` (the body with `DateKey` of its date and the caller as owner, expenseController.js:14-19 and 66-69): create and full replace store a key that agrees with the stored date. The body's own `yearMonth` and `userId` have no effect |
| EntrySchema.PatchDoc | back-end/src/controllers/expenseController.js:107-111 | `findOneAndUpdate` keeps the id, stores a valid document, and moves the document to the patch's `userId` if it has one |
| EntrySchema.PatchValidIffMergeValid | back-end/src/controllers/expenseController.js:107-111 | `PatchValid` against `Overlay` (`findOneAndUpdate` with `runValidators`): the update validators, run on the patched paths only, reject exactly the patches whose merge is invalid |
| EntrySchema.PatchMerges | back-end/src/controllers/revenueController.js:123-127 | `Overlay`: a patch sets every path it names, trimming the description, and keeps every other path |
| EntrySchema.PatchDateDesyncs | back-end/src/controllers/revenueController.js:119-127 | A patch that moves the date to another month without naming `yearMonth` leaves a key that disagrees with the date |
| EntrySchema.PatchDocRekeyed | back-end/src/controllers/revenueController.js:119-127 | Corrected partial update: the key is derived again from the merged date, so the stored key always agrees with the date |
| EntrySchema.RekeyedAgreesWithoutDate | back-end/src/controllers/revenueController.js:119-127 | The correction changes nothing for a patch that names neither the date nor the key |
| ExpenseController.ExpenseStore.Create | back-end/src/controllers/expenseController.js:3-28 | createExpense appends the validated document under a fresh id, owned by the caller, with a key that agrees with the date. Any failure is 500, and other owners are unaffected. The next id advances by one exactly on success |
| ExpenseController.ExpenseStore.All | back-end/src/controllers/expenseController.js:30-39 | getAllExpense: a fault exactly gives 500. Without one it succeeds with exactly the caller's documents, in stored order |
| ExpenseController.ExpenseStore.Get | back-end/src/controllers/expenseController.js:41-54 | getExpense: 500 on a fault, 404 exactly when the caller owns no document with this id. Otherwise it succeeds with the first such document |
| ExpenseController.ExpenseStore.Replace | back-end/src/controllers/expenseController.js:56-82 | updateExpense: an invalid body or a fault gives 500 and a missing document gives 404. Otherwise the caller's document is replaced in place by the body, with the derived key |
| ExpenseController.ExpenseStore.Patch | back-end/src/controllers/expenseController.js:103-123 | patchExpense: an invalid patch or a fault gives 500 and a missing document gives 404. Otherwise the merge replaces the document in place. Only the caller and the patch's new owner can see a change |
| ExpenseController.ExpenseStore.Delete | back-end/src/controllers/expenseController.js:84-101 | deleteExpense removes exactly the caller's document with this id: no document with the id remains. 404 when there is none, and other owners are unaffected |
| RevenueController.RevenueStore.Create | back-end/src/controllers/revenueController.js:3-34 | createRevenue: a validation failure is 400 and any other failure is 500. Otherwise a document with no `type` and a consistent key is appended under a fresh id. The next id advances by one exactly on success |
| RevenueController.RevenueStore.All | back-end/src/controllers/revenueController.js:36-45 | getAllRevenues: a fault exactly gives 500. Without one it succeeds with exactly the caller's documents, in stored order |
| RevenueController.RevenueStore.GetById | back-end/src/controllers/revenueController.js:47-62 | getRevenueById: 500 on a fault, 404 exactly when no document has the id, whoever owns it. Otherwise it succeeds with the first document with the id |
| RevenueController.RevenueStore.GetByIdCrossesOwners | back-end/src/controllers/revenueController.js:49-52 | Any stored revenue, of any owner, is returned for its id |
| RevenueController.RevenueStore.Get | back-end/src/controllers/revenueController.js:47-62 | Corrected lookup: 500 on a fault, 404 exactly when the caller owns no document with this id. Otherwise it succeeds with the first such document |
| RevenueController.RevenueStore.Replace | back-end/src/controllers/revenueController.js:64-98 | updateRevenue: an uncastable id is 404, then a validation failure is 400, then a storage fault is 500, then a missing document is 404. Otherwise the document is replaced in place |
| RevenueController.RevenueStore.Patch | back-end/src/controllers/revenueController.js:119-139 | patchRevenue: an invalid patch or a fault is 500 and a missing document is 404. Otherwise the merge replaces the document in place |
| RevenueController.RevenueStore.Delete | back-end/src/controllers/revenueController.js:100-117 | deleteRevenue removes exactly the caller's document with this id. 404 when there is none, and other owners are unaffected |
| Dashboard.Matching | back-end/src/controllers/dashboardController.js:20-23 | `$match` keeps only documents in the bucket, and no more than there are |
| Dashboard.MatchingKeeps | back-end/src/controllers/dashboardController.js:21 | Every document of the owner in the bucket is matched |
| Dashboard.NonMatchingIgnored | back-end/src/controllers/dashboardController.js:21 | A document of another owner, or outside the bucket, contributes nothing wherever it sits |
| Dashboard.MatchingOwned | back-end/src/controllers/dashboardController.js:21 | Matching sees only the owner's own documents |
| Dashboard.AddToCategories | back-end/src/controllers/dashboardController.js:32 | A `$group` accumulator step adds a row for the entry's category only when there was none |
| Dashboard.AddToDistinct | back-end/src/controllers/dashboardController.js:32 | Accumulating keeps one row per category |
| Dashboard.AddToLookup | back-end/src/controllers/dashboardController.js:32 | `AddTo`, the `$group` accumulator: accumulating raises the entry's category total by its amount and no other total |
| Dashboard.AddToSumTotals | back-end/src/controllers/dashboardController.js:32 | Accumulating raises the sum of all rows by the entry's amount |
| Dashboard.GroupByCategory | back-end/src/controllers/dashboardController.js:30-33 | `$group` by category, with `AddTo` as the accumulator and `Sum` as `$sum`: one row per category that occurs and no other. Each row's total is its category's sum, and the rows add up to the overall sum |
| Dashboard.GroupEmptyIff | back-end/src/controllers/dashboardController.js:30-33 | The breakdown is empty exactly when no expense matched |
| Dashboard.GroupRows | back-end/src/controllers/dashboardController.js:30-33 | Every row's total is the sum of its category's amounts |
| Dashboard.MonthlyKey | back-end/src/controllers/dashboardController.js:11-18 | With both parameters the key is the query's key. A month of one or two digits and a decimal year select the bucket that reads back as that year and month. Without both parameters the key is the one create stores for the clock's current date |
| Dashboard.QueryKeyReadsBack | back-end/src/controllers/dashboardController.js:12 | `QueryKey`, `${year}-${month.padStart(2, "0")}` for a one- or two-digit month and a decimal year reads back as exactly that year and month |
| Dashboard.MonthlyKeyAgrees | back-end/src/controllers/dashboardController.js:11-12 | A query with the month number, plain or padded, and the year selects the key create stores for that month |
| Dashboard.MonthlySummary | back-end/src/controllers/dashboardController.js:4-51 | A fault exactly gives 500, and without one the answer is always a success. Its totals are the sums over the caller's matched revenues and expenses, the balance is their difference, and the breakdown groups the matched expenses and adds up to the expense total |
| Dashboard.AnnualSummary | back-end/src/controllers/dashboardController.js:53-87 | A missing or empty year exactly gives 400, and a fault after it exactly gives 500. With a year and no fault the answer is always a success: it echoes the year, with the prefix-matched sums and their difference |
| Dashboard.MonthlyIsolated | back-end/src/controllers/dashboardController.js:4-51 | Two states that show the caller the same documents give the same monthly summary: other owners' data never reaches it |
| Dashboard.AnnualIsolated | back-end/src/controllers/dashboardController.js:53-87 | The same isolation for the annual summary |
| Dashboard.MonthlyWithoutRecords | back-end/src/controllers/dashboardController.js:35-44 | A month with no records of the caller gives zeros and an empty breakdown, not an error |
| Dashboard.AnnualWithoutRecords | back-end/src/controllers/dashboardController.js:73-81 | A year with no records gives zeros, not an error |
| Dashboard.InMonthBucket | back-end/src/controllers/dashboardController.js:21 | `InBucket`, the `$match` on `yearMonth`: a consistent document is in a month's bucket exactly when it is dated in that month |
| Dashboard.InYearBucket | back-end/src/controllers/dashboardController.js:65 | `InBucket` with the annual prefix: a consistent document is in a year's bucket exactly when the query text is its year's rendering |
| Dashboard.InOwnYearBucket | back-end/src/controllers/dashboardController.js:65 | For a non-negative year, a consistent document is in that year's bucket exactly when it is dated in that year |
| Dashboard.AnnualIsSumOfMonths | back-end/src/controllers/dashboardController.js:64-72 | Over documents whose keys agree with their dates, the annual total is the sum of the twelve monthly totals |
| DebtModel.AdmitDebt | back-end/src/models/Debt.js:19-52 | `AdmitDebt` and the stored-debt invariant `ValidDebt`: debt validation accepts exactly the bodies with a description non-blank after trimming, a total, a non-empty category and an installment count, whose installments, if given, have valid dates. An accepted debt holds the body's values, with the description trimmed, current installment 1 and no installments by default |
| DebtModel.DueDate | back-end/src/models/Debt.js:60-64 | Each due date built by the hook is a real date |
| DebtModel.GenerateInstallments | back-end/src/models/Debt.js:56-71 | The hook's loop builds exactly the schedule `Schedule(total, n, now)` |
| DebtModel.NewDebt | back-end/src/models/Debt.js:54-74 | A new debt is rejected exactly when validation rejects the body. Otherwise it is the validated body with its installments replaced by a fresh schedule from now |
| DebtModel.ApplyUpdate | back-end/src/controllers/debtController.js:57-61 | An update keeps the id, moves the debt to the body's `userId` if given, and saves a valid debt |
| DebtModel.ScheduleValid | back-end/src/models/Debt.js:7-10 | Every generated installment has a real due date |
| DebtModel.ScheduleShape | back-end/src/models/Debt.js:56-71 | `Schedule`, the hook's installments: `n` installments when `n` is positive and none otherwise. Each is `total / n`, unpaid, without a payment date, and installment `i` is due on the date built from month start+i |
| DebtModel.ScheduleConservesTotal | back-end/src/models/Debt.js:57 | With at least one installment, the installment amounts add up to the total |
| DebtModel.DueDateMonth | back-end/src/models/Debt.js:60-64 | Installment `i` falls in month start+i on the start day exactly when that month has the start day. Otherwise it falls in the following month, on the start day minus the length of month start+i |
| DebtModel.DueDatesIncrease | back-end/src/models/Debt.js:59-64 | Due dates strictly increase along the schedule |
| DebtModel.UpdateAssigns | back-end/src/controllers/debtController.js:57-59 | `Assign`, the `Object.assign` of debtController.js:57-59: every key the body names is assigned, with the description trimmed, and every other field keeps its stored value |
| DebtModel.UpdateKeepsInstallments | back-end/src/models/Debt.js:55 | `Regenerates`, the hook's guard: when neither total nor count changes, the installments are the body's or the stored ones, never regenerated |
| DebtModel.UpdateRegenerates | back-end/src/models/Debt.js:55-71 | `Regenerates`: when the total or the count changes, the installments are a fresh schedule of the new values from now |
| DebtModel.UpdateRejectedIff | back-end/src/controllers/debtController.js:57-61 | An update fails validation exactly when the body blanks the description or the category, or gives installments without valid dates |
| DebtModel.EmptyUpdateNoChange | back-end/src/controllers/debtController.js:57-61 | Saving with an empty body leaves the debt as it was |
| DebtController.DebtStore.Create | back-end/src/controllers/debtController.js:3-19 | createDebt: a validation failure is 400 and any other failure is 500. Otherwise the new debt, with its schedule, is appended under a fresh id and owned by the caller. The next id advances by one exactly on success |
| DebtController.DebtStore.All | back-end/src/controllers/debtController.js:21-30 | getAllDebts: a fault exactly gives 500. Without one it succeeds with exactly the caller's debts, in stored order |
| DebtController.DebtStore.Get | back-end/src/controllers/debtController.js:32-47 | getDebtById: 500 on a fault, 404 exactly when the caller owns no debt with this id. Otherwise it succeeds with the first such debt |
| DebtController.DebtStore.Update | back-end/src/controllers/debtController.js:49-67 | updateDebt: a fault is 500, a missing debt is 404 and a failed validation is 500. Otherwise the debt is replaced in place by `ApplyUpdate` of it |
| DebtController.DebtStore.Delete | back-end/src/controllers/debtController.js:69-86 | deleteDebt removes exactly the caller's debt with this id. 404 when there is none, and other owners are unaffected |

## Left out

- HTTP routing, status-code plumbing, response bodies and messages, Swagger docs and the authentication middleware. The caller's id arrives as a parameter.
- The database connection, indexes, concurrency between requests and async scheduling. Each operation is one atomic step on the collection.
- Clock and time zone: the current date is the parameter `now`, taken as the server's local calendar date. Timestamps (`createdAt`, `updatedAt`) are not modelled.
- Parsing of the request's `date` string: dates arrive as calendar triples. An absent or unusable date is `None` or an invalid triple, and gives the key `"NaN-NaN"`, which validation then rejects through the date.
- Calendar.MakeDate: only the days 1..31 a Date can report are modelled, and the two-digit-year rule of `new Date` is not.
- Amounts are exact reals: JavaScript's floating-point rounding is not modelled, so `ScheduleConservesTotal` holds exactly where JavaScript holds it only up to rounding.
- DebtModel.GenerateInstallments: with zero installments JavaScript computes `Infinity` or `NaN` for the unused per-installment amount. The model uses 0, which no installment carries.
- DebtModel.AdmitDebt: the installment count is a whole number. A fractional `totalInstallments`, which JavaScript would round up through the loop, is not modelled.
- Casting of body values: JSON `null`, strings given for numbers, and an `_id` in a body are not modelled. A body key is either absent or of the right type.
- Text.Trim: only the whitespace characters listed in `IsSpace` are removed. Other Unicode space separators are not modelled.
- Dashboard.AnnualSummary: the year text is matched as a literal prefix. A year containing regular-expression metacharacters is not modelled.
- Dashboard.MonthlyKey: a query parameter given several times (an array) is not modelled.
- Dashboard.AnnualSummary: a `year` parameter given several times is not modelled. Its `toString` joins the values with commas, as in `"2023,2024"`, a prefix no stored key has.
- Dashboard.AnnualSummary: that the prefix selects exactly one year's keys is proved only for a year text without a minus sign, that is, for non-negative years. Negative years are not covered.
- Dashboard.GroupByCategory: rows come in order of first appearance. MongoDB leaves the order unspecified, so only the set of rows and their totals are promised.
- The User model, registration and login are not part of this model.

## Findings

| source | as written | input that shows it | evidently intended | confidence | as-written member | corrected member |
|---|---|---|---|---|---|---|
| back-end/src/controllers/revenueController.js:49-52 | `findById` is given `{ _id, userId }` and matches on `_id` alone, so any caller reads any revenue | a revenue of owner 1 requested by owner 2 with its id is returned with status 200 | `findOne({ _id, userId })`: another owner's revenue answers 404, as in every other lookup | high (not executed) | RevenueController.RevenueStore.GetByIdCrossesOwners | RevenueController.RevenueStore.Get |
| back-end/src/controllers/revenueController.js:119-127 | a patch merges `date` but never derives `yearMonth` again (the same in expenseController.js:103-111) | a document of 2024-05 patched with date 2024-06-10 keeps key "2024-05" and still counts in May | the key is derived again from the merged date, as create and full replace do | high (not executed) | EntrySchema.PatchDateDesyncs | EntrySchema.PatchDocRekeyed |
