# Monthly commission invoices — a Dafny model

This project models the billing core of a small back-office application for
an emergency-service broker. The broker passes jobs ("Einsätze") to partner
companies and charges each company a net referral fee per completed job.
Once a month, one invoice per company collects these fees.

The model covers:

- **The store.** The three tables `jobs`, `invoices` and `invoice_items`,
  with their primary-key and serial-counter invariants.
- **The server's invoice operations:**
  - recomputing an invoice's stored gross from its items;
  - merging duplicate invoices of one (company, month);
  - the monthly generation run;
  - marking an invoice paid;
  - e-mailing an invoice;
  - the storage layer's `createInvoice`, `updateInvoice`, the dashboard
    counters and the settings stub.
- **The client's views of the same data:**
  - the invoices page: grouping, shown totals, status badge, search, and the
    default month;
  - the totals block of the invoice PDF;
  - the URL builder and the generate request body;
  - the job dialog's status buttons and trade filter;
  - the generic search table.

All of it is written as pure functions over immutable datatypes:

- Money is integer cents. Every rounding to two decimals is an explicit
  half-up division, `Money.RoundHalfUp`.
- A job's date-time is a broken-down calendar instant.
- The clock, the mail transport's outcome and the settings lookup are
  parameters.

Modules follow the program's structure:

| Module | What it holds |
|---|---|
| `Schema` | the rows and the store |
| `Money` | cents, VAT and gross |
| `Calendar` | month windows and the `yyyy-MM` key |
| `JobStatus` | tolerant status predicates |
| `Totals` | `recalcInvoiceTotals` |
| `Merge` | `mergeDuplicateInvoices` |
| `Generate` | the generate handler |
| `Storage` | `getStats`, `createInvoice`, `updateInvoice` |
| `InvoiceActions` | mark paid, send |
| `InvoiceList` | the invoices page |
| `PdfTotals` | the invoice PDF |
| `Api` | `buildUrl` and the generate input |
| `JobsPage` | the jobs page |
| `DataTable` | the search table |

Three modules are general-purpose helpers: `Text` (the JavaScript string
built-ins), `Seqs` (filter, de-duplication, counting) and `Sorting` (an insertion
sort under a comparator).

Observations about how the source behaves are stated and proved as lemmas,
not as claims about intent. The main ones:

- **Exact versus tolerant status matching.** The generation run bills only
  jobs whose status is exactly `done`. The dashboard counts `Done` or
  ` erledigt ` as done. So a job can count as done and still never be billed
  (`JobsPage.TolerantDoneNotBilled`).
- **Merge master versus page row.** The merge keeps the invoice with the
  latest `createdAt` as master. The invoices page shows the one with the
  highest id. For two duplicates these can differ
  (`InvoiceList.MasterAndDisplayedCanDiffer`).
- **`buildUrl` prefix quirk.** `buildUrl` substitutes a parameter inside a
  longer placeholder whose name it prefixes (`Api.PrefixKeyQuirk`).
- **PDF trusts the stored total.** The PDF prints a stored total even when it
  is stale (`PdfTotals.PdfPrintsStaleTotal`).

## Model

| member | source | states |
|---|---|---|
| Money.RoundHalfUp | server/pdf.ts:15-19 | the result is the integer within half a unit of num/den, an exact half going up (`Math.round` of a scaled amount) |
| Money.RoundHalfUpUnique | server/pdf.ts:17 | only one integer meets those bounds, so the rounding is determined |
| Money.RoundHalfUpExact | server/pdf.ts:17 | rounding an exact multiple gives the exact quotient |
| Money.Vat | server/routes.ts:38-41 | VAT is net × 20 % rounded half-up to the cent (the bound pins it down) |
| Money.Gross | server/routes.ts:41 | gross exceeds net by exactly the VAT |
| Money.FeeExamples | server/routes.ts:18-19 | 49.00 net carries 9.80 VAT and 58.80 gross; the 14.90 cancellation fee carries 2.98 VAT and 17.88 gross |
| Money.GrossMonotone | server/routes.ts:38-41 | a larger net never gives a smaller VAT or gross |
| Money.VatBounds | server/routes.ts:40 | VAT of a non-negative net lies between 0 and the net |
| Money.FormatCents | server/routes.ts:45 | `toFixed(2)` output: a minus sign exactly for negative amounts, a dot and two digits at the end |
| Money.FormatCentsValue | server/routes.ts:45 | after the optional sign come whole digits without a leading zero; the whole digits times 100 plus the two decimals give the absolute amount in cents |
| Calendar.DaysInMonth | server/storage.ts:284 | day 0 of the next month is the last day: 28–31, 29 in February exactly in leap years, 30 for April, June, September, November |
| Calendar.LeapExamples | server/storage.ts:284 | 2024 and 2000 are leap years, 1900 and 2023 are not |
| Calendar.MonthStart | server/routes.ts:263-264 | `startOfMonth` is a valid instant of the month not later than any other instant of it |
| Calendar.MonthEnd | server/routes.ts:265 | `endOfMonth` (23:59:59.999 of the last day) is a valid instant of the month not earlier than any other |
| Calendar.MonthWindowExact | server/routes.ts:275 | `between(dateTime, start, end)` holds for a valid instant iff it lies in that calendar month |
| Calendar.FormatYearMonth | server/storage.ts:286 | `format(now, "yyyy-MM")` yields at least seven characters with a dash before the two month digits |
| Calendar.ParseMonthYear | server/routes.ts:263 | `parseISO(monthYear + "-01")` accepts only four digits, dash, month 01–12; the result is a real month |
| Calendar.FormatThenParse | server/routes.ts:263 | parsing the formatted key of any four-digit year gives the month back |
| Calendar.ParseThenFormat | server/routes.ts:263 | a key that parses is exactly the formatted form of its month |
| Calendar.DigitsInjective | server/routes.ts:263 | two equally long digit strings with the same value are equal |
| Schema.JobFromInsert | shared/schema.ts:43-59 | an inserted job gets the generated id, number and `createdAt`, status "open" and fee 49.00 unless given |
| Schema.InvoiceFromInsert | shared/schema.ts:62-72 | an inserted invoice keeps the caller's columns, defaults to "unpaid", is neither sent nor paid |
| Schema.SchemaAllowsDuplicates | shared/schema.ts:62-79 | no database constraint forbids two invoices of one (company, month) or two items billing one job |
| JobStatus.Normalize | server/storage.ts:67-69 | the normal form is no longer than the status and has no whitespace at either end |
| JobStatus.NormalizeInfix | server/storage.ts:67-69 | the normal form is the lower-cased infix of the status between whitespace-only ends |
| JobStatus.NormalizeIdempotent | server/storage.ts:67-69 | normalising twice equals normalising once |
| JobStatus.ClassifyNormalized | server/storage.ts:76-89 | each class predicate gives the same answer on a status and on its normal form |
| JobStatus.CancelledExactly | server/storage.ts:76-79 | a status is cancelled iff it normalises to canceled, cancelled or storniert; the two literals with a trailing blank never match |
| JobStatus.ClassesExclusive | server/storage.ts:76-89 | no status is in two of cancelled, done, open |
| JobStatus.NormalFormFixpoint | server/storage.ts:67-69 | a trimmed status without capitals is its own normal form |
| JobStatus.OpenIsOpen | server/storage.ts:86-89 | the status "open" is an open status |
| JobStatus.DoneIsDone | server/storage.ts:81-84 | the status "done" is a done status |
| JobStatus.CanceledIsCancelled | server/storage.ts:76-79 | the status "canceled" is a cancelled status |
| JobStatus.CanceledNotOpen | server/storage.ts:76-89 | the status "canceled" is not an open status |
| JobStatus.DoneNotOpen | server/storage.ts:81-89 | the status "done" is not an open status |
| JobStatus.OpenNotDone | server/storage.ts:81-89 | the status "open" is not a done status |
| Totals.TotalsOf | server/routes.ts:29-49 | net is the sum of the invoice's item amounts and count the number of its items; VAT is `Money.Vat` of the net and gross is net + VAT; without items, net and gross are 0 |
| Totals.ItemsNetNoItems | server/routes.ts:33 | `coalesce(sum, 0)`: an invoice with no items has net 0 |
| Totals.ItemsNetAppend | server/routes.ts:33 | the net of a concatenation of item lists is the sum of the nets |
| Totals.ItemsNetSame | server/routes.ts:33-37 | only items pointing into the invoice set contribute to the net |
| Totals.SetTotal | server/routes.ts:43-46 | `UPDATE ... WHERE id` rewrites exactly the rows with that id |
| Totals.Recalc | server/routes.ts:29-49 | the invoice's rows store the gross of its items; every other row, item and job is unchanged |
| Totals.RecalcConsistent | server/routes.ts:43-46 | after a recalculation the stored total is derived from the items |
| Totals.RecalcNoOp | server/routes.ts:29-49 | recalculating an already consistent invoice changes nothing |
| Totals.RecalcIdempotent | server/routes.ts:29-49 | a second recalculation leaves the store unchanged |
| Totals.SingleFeeExample | server/routes.ts:38-48 | one 49.00 item gives net 49.00, VAT 9.80, gross 58.80, count 1 |
| Merge.ForPair | server/routes.ts:53-56 | the invoices of (company, month): exactly the store's invoices of that pair |
| Merge.Newest | server/routes.ts:55-64 | the first row of `ORDER BY created_at DESC` (NULLs first) is in the group and at least as new as every member |
| Merge.RemoveIds | server/routes.ts:75-76 | deleting by id keeps exactly the invoices whose id is not deleted |
| Merge.Repoint | server/routes.ts:68-72 | every item of a duplicate points to the master; nothing else about items changes |
| Merge.Merge | server/routes.ts:51-81 | with no invoice or one invoice, nothing changes; otherwise the newest is master, items of the others move to it, other fields of items and all jobs are kept |
| Merge.MergeShape | server/routes.ts:63-79 | after merging two or more, the invoices are the store minus the duplicates, with the master's total set to the gross of the whole group's items |
| Merge.MergePair | server/routes.ts:51-81 | afterwards the pair has exactly one invoice (the master) if it had any, carrying the gross of all the group's items |
| Merge.MergeFrame | server/routes.ts:51-81 | invoices of every other (company, month) are untouched |
| Merge.MergeIds | server/routes.ts:74-76 | ids stay distinct and no new id appears |
| Merge.MergeWellFormed | server/routes.ts:51-81 | primary-key invariants are kept, and a job billed once stays billed once |
| Merge.MergeItemsUnion | server/routes.ts:66-72 | an item ends on the master iff it was on one of the group's invoices |
| Merge.MergeIdempotent | server/routes.ts:58-60 | merging twice equals merging once: the second call finds a single invoice |
| Merge.ForPairRemove | server/routes.ts:75-76 | deleting rows commutes with selecting a pair |
| Merge.ForPairSetTotal | server/routes.ts:78-79 | rewriting a total commutes with selecting a pair |
| Merge.ForPairAppend | server/routes.ts:313-325 | an appended invoice joins its own pair and no other |
| Merge.PairIdsDisjoint | server/routes.ts:51-56 | under distinct ids, invoices of two different pairs never share an id |
| Merge.RemoveAllButOne | server/routes.ts:62-76 | deleting every member but the master leaves the master alone |
| Merge.CollapseGroup | server/routes.ts:62-79 | deleting a group but its master and resetting the total leaves the group as one row |
| Merge.ForPairDistinct | server/routes.ts:53-56 | the invoices of one pair have distinct ids |
| Merge.RemoveIdsDistinct | server/routes.ts:75-76 | deleting rows keeps ids distinct |
| Merge.RemoveSetDistinct | server/routes.ts:75-79 | deleting and rewriting a total keeps ids distinct and introduces none |
| Generate.CompanyIds | server/routes.ts:289 | `doneJobs.map(j => j.companyId)` pairs each job with its company |
| Generate.CompaniesOf | server/routes.ts:289 | `[...new Set(companyIds)]`: each company of the jobs once, nothing else, as many as distinct companies |
| Generate.JobsOfCompany | server/routes.ts:297-301 | `byCompany.get(c)` holds exactly the jobs of company c |
| Generate.FilterJobIds | server/routes.ts:284 | filtering jobs keeps ids distinct |
| Generate.NewItems | server/routes.ts:331-337 | one item per job, in order, on the master at the fee, with fresh serial ids |
| Generate.ClockSuffix | server/routes.ts:311 | `Date.now().toString().slice(-4)`: one to four digits, the whole clock when it is that short |
| Generate.InvoiceNumberParts | server/routes.ts:311 | the number is the month without its dash, the company id and the suffix; splitting at dashes gives all three back |
| Generate.GetOrCreate | server/routes.ts:307-328 | merge the pair; if it had no invoice, append a fresh unpaid one with the next id; items keep jobs and amounts |
| Generate.GetOrCreateWellFormed | server/routes.ts:307-328 | get-or-create keeps the primary-key invariants |
| Generate.AppendFreshWellFormed | server/routes.ts:313-325 | appending an invoice with the next serial id keeps the invariants |
| Generate.GetOrCreatePair | server/routes.ts:307-328 | afterwards the pair has exactly one invoice, the master |
| Generate.GetOrCreateFrame | server/routes.ts:307-328 | invoices of other pairs are untouched |
| Generate.BillCompany | server/routes.ts:305-343 | one loop pass appends one item per job of the company, keeping old items' jobs and amounts |
| Generate.RecalcForPair | server/routes.ts:340 | recomputing a total changes no invoice's pair or id |
| Generate.AppendAndRecalcWellFormed | server/routes.ts:331-340 | appending items and recomputing keeps the invariants |
| Generate.BillCompanyWellFormed | server/routes.ts:305-343 | a loop pass keeps the invariants |
| Generate.BillCompanyBills | server/routes.ts:305-343 | after a pass the company has one invoice for the month, billing each of its jobs at the fee |
| Generate.AppendAndRecalcBills | server/routes.ts:331-340 | items appended to the pair's single invoice bill every job |
| Generate.BillCompanyKeeps | server/routes.ts:305-343 | a pass for one company keeps other companies' billed jobs billed |
| Generate.BillCompanyOtherMonth | server/routes.ts:305-343 | a pass leaves invoices of other months unchanged |
| Generate.ExtendedJobIds | server/routes.ts:331-337 | the billed job set grows by exactly the appended jobs, without double billing when they were unbilled |
| Generate.BillCompanyJobIds | server/routes.ts:331-337 | a pass adds exactly its jobs' ids to the billed set |
| Generate.BillAll | server/routes.ts:305-343 | the loop keeps jobs and every existing item's job and amount |
| Generate.BillAllWellFormed | server/routes.ts:305-343 | the loop keeps the invariants |
| Generate.BillAllKeeps | server/routes.ts:305-343 | the loop never un-bills a job of an unlisted company |
| Generate.BillAllBills | server/routes.ts:305-343 | every job of a listed company is billed on that company's single invoice for the month |
| Generate.BillAllBilledSet | server/routes.ts:305-343 | the loop adds exactly the jobs of the listed companies to the billed set |
| Generate.BillAllNoDoubleBilling | server/routes.ts:281-343 | with unbilled, distinct jobs, no job ends up on two items |
| Generate.RestStillUnbilled | server/routes.ts:305-343 | after billing the first company the others' jobs are still unbilled |
| Generate.MergeAll | server/routes.ts:289-292 | merging every company keeps jobs and every item's job and amount |
| Generate.MergeAllSpec | server/routes.ts:286-294 | afterwards each listed company has at most one invoice for the month; invariants and single billing hold |
| Generate.MergeAllKeepsSingle | server/routes.ts:290-292 | once a pair has at most one invoice, later merges keep it so |
| Generate.BillAllOtherMonth | server/routes.ts:305-343 | the loop leaves other months' invoices unchanged |
| Generate.MergeAllOtherMonth | server/routes.ts:290-292 | merging leaves other months' invoices unchanged |
| Generate.DoneJobs | server/routes.ts:272-275 | exactly the jobs with status "done" inside the month window |
| Generate.ToBill | server/routes.ts:282-284 | exactly the month's done jobs that no item bills yet |
| Generate.Generate | server/routes.ts:260-346 | an unreadable month fails; otherwise jobs and old items' jobs and amounts are kept, the count is the number of companies with new jobs, and a month without done jobs changes nothing, and a month with nothing new to bill adds no item |
| Generate.GenerateBillsNewJobs | server/routes.ts:281-343 | every unbilled done job of the month ends up billed at the fee on its company's single invoice for the month |
| Generate.BillingBranch | server/routes.ts:296-343 | the billing branch keeps invariants, adds exactly the new jobs to the billed set, never double-bills |
| Generate.AllCompaniesListed | server/routes.ts:297-305 | looping over every company of the new jobs covers all of them |
| Generate.ToBillDistinct | server/routes.ts:284 | the jobs to bill have distinct ids |
| Generate.GenerateNoDoubleBilling | server/routes.ts:260-346 | generation bills exactly the month's unbilled done jobs, never twice, keeping the invariants |
| Generate.GenerateRerun | server/routes.ts:281-294 | a second run for the same month reports 0 generated invoices and adds no item |
| Generate.GenerateOtherMonth | server/routes.ts:260-346 | generating one month never changes an invoice of another month |
| Generate.GenerateMergesOnly | server/routes.ts:286-294 | with nothing new to bill, every company of a done job has at most one invoice for the month |
| Generate.EffectiveFee | server/routes.ts:268-269 | the configured `standardProvision` if any, otherwise 49.00 (also when the lookup fails) |
| Generate.StubFee | server/storage.ts:256-265 | with the settings stub every job is billed at 49.00, whatever `defaultReferralFee` says |
| Storage.GetStats | server/storage.ts:273-323 | counters are bounded by the table sizes; each is 0 iff no row qualifies; unpaid equals the invoice count iff every invoice is "unpaid" |
| Storage.DoneJobsMonthExact | server/storage.ts:281-299 | for valid dates the done-this-month counter counts done jobs dated in that calendar month |
| Storage.NewJobCountsAsOpen | server/storage.ts:291 | a job inserted without status raises the open counter by one |
| Storage.RevenueAppend | server/storage.ts:310-315 | a new invoice adds its total to its own month's revenue only |
| Storage.RevenueNoInvoices | server/storage.ts:310-315 | a month without invoices has revenue 0 |
| Storage.ItemRows | server/storage.ts:238-245 | one item row per requested line, on the new invoice, with consecutive ids |
| Storage.CreateInvoice | server/storage.ts:235-248 | the header gets the next id and the clock; items are appended only for a non-empty list, each on the new header with its job and amount |
| Storage.CreateInvoiceWellFormed | server/storage.ts:235-248 | creating an invoice keeps the primary-key invariants |
| Storage.CreateInvoiceNet | server/storage.ts:235-248 | the new invoice owns exactly the requested lines: their count and the sum of their amounts |
| Storage.OldItemsNotOn | server/storage.ts:236-240 | items of earlier invoices contribute nothing to a new invoice's net or count |
| Storage.RowsOn | server/storage.ts:238-245 | the new rows' net is the sum of the requested amounts and their count is the number of lines |
| Storage.ItemCountAppend | server/routes.ts:34 | item counts add over concatenation |
| Storage.ApplyPatch | server/storage.ts:250-251 | each present field of `Partial<Invoice>` takes its new value, each absent one keeps the old; the id is kept |
| Storage.FindInvoice | server/storage.ts:220-222 | the first position with the id, or none iff no invoice has it |
| Storage.PatchRows | server/storage.ts:251 | `UPDATE ... WHERE id` patches exactly the rows with the id |
| Storage.UpdateInvoice | server/storage.ts:250-253 | an empty patch fails (an empty `SET` is refused); an unknown id fails; otherwise only the rows with the id are patched, and the returned row has that id and is in the store |
| Storage.UpdateIdempotent | server/storage.ts:250-253 | applying the same update twice equals applying it once |
| Storage.UpdateStoreIs | server/storage.ts:250-253 | the store left behind is the patched table, and the id is still present |
| Storage.PatchRowsIdempotent | server/storage.ts:251 | patching the rows twice equals patching once |
| Storage.PatchIdempotent | server/storage.ts:251 | applying a patch to a row twice equals applying it once |
| Storage.UpdateWellFormed | server/storage.ts:250-253 | an update keeps every id and so the invariants |
| InvoiceActions.MarkPaid | server/routes.ts:348-351 | the invoice becomes "paid" with `paidAt` = clock, other columns and rows unchanged; unknown id fails |
| InvoiceActions.MarkPaidLowersUnpaid | server/routes.ts:348-351 | marking an unpaid invoice paid lowers the dashboard's unpaid counter by exactly one |
| InvoiceActions.MarkPaidIdempotent | server/routes.ts:348-351 | marking paid twice equals marking paid once |
| InvoiceActions.MailFor | server/routes.ts:376-382 | recipient, subject "Rechnung month - number", attachment "invoice-number.pdf" |
| InvoiceActions.GetInvoice | server/storage.ts:220-233 | an invoice with the id, or none iff there is none |
| InvoiceActions.SendInvoice | server/routes.ts:365-390 | 404 iff the id is unknown, 400 iff the e-mail is missing or empty; only a successful send changes the store, by setting `sentAt` |
| InvoiceActions.SentAtOnlyOnSuccess | server/routes.ts:377-389 | with a valid address, `sentAt` moves iff the transport succeeds; the code is 200 or 500 accordingly |
| InvoiceActions.SendKeepsPayment | server/routes.ts:365-390 | sending keeps status, `paidAt` and total of every invoice |
| InvoiceList.LeadingDigits | client/src/pages/Invoices.tsx:205 | the leading digits are a prefix of the string |
| InvoiceList.LeadingDigitsPrefix | client/src/pages/Invoices.tsx:205 | the digits of a number followed by a non-digit are recovered |
| InvoiceList.MapKeyInjective | client/src/pages/Invoices.tsx:203-208 | the `${companyId}__${monthYear}` key identifies the pair, so grouping by it is grouping by (company, month) |
| InvoiceList.NewestWithKey | client/src/pages/Invoices.tsx:209-214 | none iff no invoice has the key; otherwise an input invoice of the key with the highest id, the first such |
| InvoiceList.KeyList | client/src/pages/Invoices.tsx:204-205 | the key of every invoice in order |
| InvoiceList.Keys | client/src/pages/Invoices.tsx:203-211 | the map's keys: distinct, each of some invoice, every invoice's key present |
| InvoiceList.Representatives | client/src/pages/Invoices.tsx:210-214 | one newest invoice per key, in key order |
| InvoiceList.LexTotal | client/src/pages/Invoices.tsx:221 | two different strings compare one way or the other |
| InvoiceList.LexAsymmetric | client/src/pages/Invoices.tsx:221 | never both ways |
| InvoiceList.BeforeTotal | client/src/pages/Invoices.tsx:216-222 | the comparator orders any two rows |
| InvoiceList.BeforeIsTotal | client/src/pages/Invoices.tsx:216-222 | the comparator is total |
| InvoiceList.Grouped | client/src/pages/Invoices.tsx:202-224 | the rows are sorted by month descending, then id descending, and are at most as many as the input |
| InvoiceList.GroupedRowsAreNewest | client/src/pages/Invoices.tsx:209-214 | every row is an input invoice with the highest id of its (company, month) |
| InvoiceList.GroupedMembers | client/src/pages/Invoices.tsx:216-223 | the rows are the representatives reordered |
| InvoiceList.RepresentativeMember | client/src/pages/Invoices.tsx:210-214 | each representative is an input invoice and the newest of its key |
| InvoiceList.RepresentativeIsNewest | client/src/pages/Invoices.tsx:212-213 | the j-th representative is an input invoice and the newest of its key |
| InvoiceList.GroupedCoversKeys | client/src/pages/Invoices.tsx:202-224 | every (company, month) of the input has a row |
| InvoiceList.GroupedOnePerKey | client/src/pages/Invoices.tsx:202-224 | no (company, month) has two rows |
| InvoiceList.GroupedKeepsDistinct | client/src/pages/Invoices.tsx:199-224 | with one invoice per pair, grouping only reorders: the same multiset comes out |
| InvoiceList.RepresentativesOfDistinct | client/src/pages/Invoices.tsx:210-214 | with distinct keys, the representatives are the input |
| InvoiceList.NewestOfDistinct | client/src/pages/Invoices.tsx:212-213 | with distinct keys, each key's newest is its only invoice |
| InvoiceList.MasterAndDisplayedCanDiffer | client/src/pages/Invoices.tsx:209-213 | for two duplicates the server's merge master (latest `createdAt`) and the displayed row (highest id) can differ |
| InvoiceList.ClientNet | client/src/pages/Invoices.tsx:226-234 | net is the item sum when there are items, otherwise the stored `totalAmount` |
| InvoiceList.ClientVat | client/src/pages/Invoices.tsx:236-238 | the page's VAT equals the server's `Money.Vat` |
| InvoiceList.ClientGross | client/src/pages/Invoices.tsx:240-242 | the page's gross equals the server's `Money.Gross` |
| InvoiceList.ItemAmounts | server/storage.ts:205-218 | the attached item amounts number `ItemCount` and sum to `ItemsNet` |
| InvoiceList.ClientGrossMatchesStored | client/src/pages/Invoices.tsx:226-242 | for a consistent invoice the shown gross equals the stored total, with or without items |
| InvoiceList.FallbackTreatsGrossAsNet | client/src/pages/Invoices.tsx:232-233 | the fallback reads the stored gross as a net: 58.80 stored and no items shows 70.56 gross |
| InvoiceList.StatusLabel | client/src/pages/Invoices.tsx:76-80 | the label is "Bezahlt" or "Offen" |
| InvoiceList.StatusVariant | client/src/pages/Invoices.tsx:82-86 | the variant is "default" or "secondary" |
| InvoiceList.LabelAndVariantAgree | client/src/pages/Invoices.tsx:76-86 | the badge shows "default" iff it reads "Bezahlt" |
| InvoiceList.LabelIgnoresCase | client/src/pages/Invoices.tsx:77 | the label ignores letter case |
| InvoiceList.MarkPaidShowsPaid | client/src/pages/Invoices.tsx:76-80 | after mark-paid the invoice reads "Bezahlt" |
| InvoiceList.PaidReadsPaid | client/src/pages/Invoices.tsx:78 | "paid" reads "Bezahlt" |
| InvoiceList.UnpaidReadsOpen | client/src/pages/Invoices.tsx:79 | "unpaid" reads "Offen" |
| InvoiceList.NewInvoiceShowsOpen | client/src/pages/Invoices.tsx:76-80 | a new invoice with the default status reads "Offen" |
| InvoiceList.BadgeAndDashboardUnpaid | client/src/pages/Invoices.tsx:76-80 | every invoice the dashboard counts unpaid reads "Offen", but "Unpaid" reads "Offen" and is not counted |
| InvoiceList.CapitalUnpaidReadsOpen | client/src/pages/Invoices.tsx:77-79 | "Unpaid" reads "Offen" |
| InvoiceList.FilteredInvoices | client/src/pages/Invoices.tsx:248-275 | an empty normalised query shows all rows; otherwise an order-preserving sub-list with exactly the rows whose text contains the query |
| InvoiceList.SearchFindsNumber | client/src/pages/Invoices.tsx:260-273 | a query found in the invoice number, in any case, finds the row |
| InvoiceList.SearchIgnoresCase | client/src/pages/Invoices.tsx:249 | the search ignores letter case |
| InvoiceList.SearchNarrows | client/src/pages/Invoices.tsx:248-275 | a query containing another finds a subset of its rows |
| InvoiceList.CurrentMonthMatchesServer | client/src/pages/Invoices.tsx:92-97 | the default month equals the server's "yyyy-MM" key iff the year has four digits |
| InvoiceList.CurrentMonthAccepted | client/src/pages/Invoices.tsx:92-97 | for years 1000–9999 the default month is accepted by generate and names the current month |
| PdfTotals.Coalesce | server/pdf.ts:246 | `a ?? b` takes b exactly when a is absent |
| PdfTotals.ToMoney | server/pdf.ts:15-19 | a finite number is rounded half-up to the cent; anything else is 0 |
| PdfTotals.ToMoneyExact | server/pdf.ts:15-19 | a value with at most two decimals is kept exactly |
| PdfTotals.ToMoneyCents | server/pdf.ts:15-19 | cents survive `toMoney` |
| PdfTotals.ToMoneyIdempotent | server/pdf.ts:15-19 | `toMoney` of a rounded amount changes nothing |
| PdfTotals.OrElse | server/pdf.ts:250 | `a \|\| b`: the first unless it is 0 |
| PdfTotals.PdfTotalsOf | server/pdf.ts:245-260 | stored non-zero totals win; otherwise net is the item sum, VAT is net × rate rounded, gross is net + VAT; rate defaults to 0.2 |
| PdfTotals.PdfDefaultsMatchServer | server/pdf.ts:245-260 | with nothing stored, rate 20 and the server's VAT and gross of the item sum |
| PdfTotals.AmountsOf | server/pdf.ts:252 | one amount per item of the invoice |
| PdfTotals.AmountsOfSum | server/pdf.ts:252 | the summed item amounts are the invoice's net |
| PdfTotals.PdfOfConsistentInvoice | server/pdf.ts:245-260 | for a consistent invoice: net = item sum, VAT = 20 %, gross = stored total = net + VAT |
| PdfTotals.RowTotals | server/pdf.ts:245-260 | for a stored row: item sum as net, 20 % VAT, the stored total unless it is 0 |
| PdfTotals.PdfPrintsStaleTotal | server/pdf.ts:258-260 | a stale stored total is printed even though it differs from net + VAT |
| PdfTotals.LineAmount | server/pdf.ts:218 | a line prints `toMoney` of `amount` when it is not null or undefined (0 for a non-finite one), else of `amountNet`, else of `amount_net` |
| PdfTotals.AmountFields | server/pdf.ts:252 | the `amount` field of every item, in order |
| PdfTotals.LinesMatchItemSum | server/pdf.ts:218-252 | when every item carries `amount`, the printed lines add up to the item sum the totals block falls back to |
| PdfTotals.LineAndTotalsDisagree | server/pdf.ts:218-252 | an item with only `amountNet` = 49.00 prints 49.00 on its line but counts 0 in the totals fallback |
| PdfTotals.TruncateAddress | server/pdf.ts:223-224 | over 40 characters, the first 37 plus "..." (40 in all); otherwise unchanged |
| PdfTotals.TruncateIdempotent | server/pdf.ts:223-224 | truncating a printed address again changes nothing |
| Api.Substitute | shared/routes.ts:272-274 | without `:key` the URL is unchanged; otherwise, when the value holds no `$`, the first occurrence is replaced by the value |
| Api.SubstituteMatchPattern | shared/routes.ts:272-274 | the value `$&` re-inserts the matched `:key`, so the URL is unchanged |
| Api.SubstituteDollarPattern | shared/routes.ts:272-274 | the value `$$` puts a single `$` in place of the first `:key` |
| Api.SubstituteIsReplace | shared/routes.ts:272-274 | the `includes` guard is redundant: a step is plain `replace` |
| Api.BuildUrl | shared/routes.ts:268-278 | without parameters, or with none given, the path is returned unchanged |
| Api.SubstituteAllAppend | shared/routes.ts:271-275 | substituting a list is substituting its halves in turn |
| Api.NoPlaceholderUnchanged | shared/routes.ts:268-278 | a path without `:` is never changed |
| Api.PrefixKeyQuirk | shared/routes.ts:272-273 | a key that prefixes a longer placeholder's name is substituted inside it ("/a/:idx" with id = 7 gives "/a/7x") |
| Api.ParseGenerateInput | shared/routes.ts:225 | accepted iff the body is an object whose `monthYear` is a string, and that string is returned |
| Api.HandleGenerate | server/routes.ts:260-265 | accepted iff the body parses and names a real month; a bad body is refused as such; jobs are never changed |
| Api.GenerateRequestAccepted | client/src/pages/Invoices.tsx:145-151 | the page's request for "2024-03" is accepted |
| JobsPage.StatusActions | client/src/pages/Jobs.tsx:490-504 | buttons exist iff the status is exactly "open" or "done", at most two |
| JobsPage.OpenActionsLeaveOpen | client/src/pages/Jobs.tsx:490-498 | an open job offers "canceled" and "done", and neither is an open status |
| JobsPage.DoneActionsLeaveDone | client/src/pages/Jobs.tsx:500-504 | a done job offers only "open", which is not a done status |
| JobsPage.CompletingMakesBillable | client/src/pages/Jobs.tsx:495 | "Abschluss" sets exactly the status the billing run selects |
| JobsPage.TolerantDoneNotBilled | client/src/pages/Jobs.tsx:490-504 | a job with status "Done" counts as done on the dashboard, is never billed and gets no button |
| JobsPage.FilteredCompanies | client/src/pages/Jobs.tsx:159-161 | no list gives nothing; no trade gives all; otherwise exactly the companies offering the trade, in order |
| JobsPage.FlatTrades | client/src/pages/Jobs.tsx:163 | the trades of all companies |
| JobsPage.AllTrades | client/src/pages/Jobs.tsx:163 | the distinct trades of all companies, each once |
| JobsPage.OfferedTradeHasCompany | client/src/pages/Jobs.tsx:159-163 | a trade some company offers appears in the trade list, and choosing it leaves at least one company |
| Js.Field | client/src/components/DataTable.tsx:45 | the value of a property with that name, or none iff no property has it |
| DataTable.ArrayIndex | client/src/components/DataTable.tsx:45 | a key indexes an array iff it is the canonical decimal form of a number |
| DataTable.Prop | client/src/components/DataTable.tsx:45 | `cur[p]`: an object's property or `undefined`, a `length` of an array or string, `undefined` on primitives |
| DataTable.PropIndex | client/src/components/DataTable.tsx:45 | the key `String(i)` reaches element i |
| DataTable.Walk | client/src/components/DataTable.tsx:42-47 | an empty path returns the value; a null or undefined value with a piece left gives `undefined` |
| DataTable.WalkAppend | client/src/components/DataTable.tsx:43-46 | walking a concatenated path walks both parts in turn |
| DataTable.GetByPath | client/src/components/DataTable.tsx:38-48 | a falsy object or an empty path gives `undefined` |
| DataTable.PlainKeyIsProp | client/src/components/DataTable.tsx:38-48 | a key without a dot reads the property |
| DataTable.PathAppend | client/src/components/DataTable.tsx:41-47 | a path a.b walks b's pieces from the value at a |
| DataTable.GetByPathDotted | client/src/components/DataTable.tsx:38-48 | a.b equals reading b from the value at a when that value is truthy |
| DataTable.FalsyIntermediateDiffers | client/src/components/DataTable.tsx:38-48 | the walk passes through a falsy value: `{a: ""}` has `a.length` 0, but `""` itself has no path |
| DataTable.EmptyStringLength | client/src/components/DataTable.tsx:45 | the empty string's `length` is 0 |
| DataTable.NormalizeValue | client/src/components/DataTable.tsx:50-58 | null and undefined give ""; strings are themselves; numbers and booleans their `String` |
| DataTable.ArrayTextHasElements | client/src/components/DataTable.tsx:52 | an array's text contains whatever one element's text contains |
| DataTable.ObjectTextHasValues | client/src/components/DataTable.tsx:53-56 | an object's text contains whatever one value's text contains |
| DataTable.EffectiveSearchKeys | client/src/components/DataTable.tsx:71-75 | non-empty `searchKeys` wins, else a non-empty `searchKey`, else none |
| DataTable.Query | client/src/components/DataTable.tsx:78 | the query is empty iff the term is all whitespace, and has no capitals |
| DataTable.FilteredData | client/src/components/DataTable.tsx:77-91 | empty query or no keys shows all; otherwise exactly the rows where some key's text contains the query, in order |
| DataTable.SearchIgnoresCase | client/src/components/DataTable.tsx:78 | capitals in the term make no difference |
| DataTable.QueryIgnoresCase | client/src/components/DataTable.tsx:78 | the query of a lower-cased term is the same |
| DataTable.MoreKeysWiden | client/src/components/DataTable.tsx:83-89 | searching more keys never hides a row |
| DataTable.LongerQueryNarrows | client/src/components/DataTable.tsx:83-89 | a query containing another finds only rows the shorter one finds |
| DataTable.ArrayFieldMatches | client/src/components/DataTable.tsx:84-87 | a row whose searched array has a matching element is shown |
| Text.Trim | server/storage.ts:68 | `trim()` leaves no whitespace at either end, and is empty iff the string is all whitespace |
| Text.TrimInfix | server/storage.ts:68 | `trim()` is the infix of the string whose cut-off ends are all whitespace |
| Text.TrimIdempotent | server/storage.ts:68 | trimming twice equals trimming once |
| Text.Lower | server/storage.ts:68 | `toLowerCase()` maps each character, keeping the length |
| Text.LowerIdempotent | server/storage.ts:68 | lower-casing twice equals lower-casing once |
| Text.LowerTrimCommute | client/src/pages/Invoices.tsx:89 | `trim().toLowerCase()` equals `toLowerCase().trim()` |
| Text.IndexOf | shared/routes.ts:273 | the first occurrence of the pattern, or none iff it never occurs |
| Text.ContainsIff | shared/routes.ts:272 | `includes` holds iff the pattern occurs somewhere |
| Text.ReplaceFirst | shared/routes.ts:273 | without an occurrence the string is unchanged; when the replacement holds no `$`, `replace` puts it in place of the first occurrence only |
| Text.ExpandPatterns | shared/routes.ts:273 | in the replacement, `$$` inserts `$`, `$&` the match, `` $` `` the text before and `$'` the text after it |
| Text.ExpandLoneDollar | shared/routes.ts:273 | a `$` that starts none of the four patterns is copied |
| Text.ExpandMatchAlone | shared/routes.ts:273 | the replacement `$&` inserts the match |
| Text.ExpandDollarAlone | shared/routes.ts:273 | the replacement `$$` inserts one `$` |
| Text.Split | client/src/components/DataTable.tsx:41 | `split(".")` gives at least one piece, none containing the separator |
| Text.SplitJoin | client/src/components/DataTable.tsx:41 | joining the pieces with the separator gives back the string |
| Text.JoinSplit | client/src/components/DataTable.tsx:41 | splitting a join of separator-free pieces gives the pieces back |
| Text.SplitAppend | client/src/components/DataTable.tsx:41 | splitting at a separator splits each side on its own |
| Text.NatToString | client/src/pages/Invoices.tsx:265 | `String(n)`: digits without a leading zero whose value is n |
| Text.PadZero | client/src/pages/Invoices.tsx:95 | `padStart(width, "0")`: at least width digits with value n |
| Text.NatToStringLength | client/src/pages/Invoices.tsx:94-96 | a number has more than k digits iff it is at least 10^k |
| Text.JoinContains | client/src/pages/Invoices.tsx:260-273 | a query found in one lower-cased part is found in the lower-cased join |
| Text.ContainsTrans | client/src/pages/Invoices.tsx:273 | substring containment is transitive |
| Seqs.Filter | client/src/components/DataTable.tsx:83 | `filter` keeps exactly the elements satisfying the predicate, in order |
| Seqs.Dedup | client/src/pages/Jobs.tsx:163 | `Array.from(new Set(s))`: each element once and nothing else |
| Seqs.FirstIndex | client/src/pages/Jobs.tsx:163 | the position where an element first occurs |
| Seqs.DedupFirstAppearance | server/routes.ts:289 | the de-duplicated elements come in the order of their first appearance, as a `Set` iterates them |
| Seqs.DedupCardinality | server/routes.ts:289 | there are as many de-duplicated elements as distinct values |
| Seqs.Count | server/storage.ts:291 | `filter(p).length`: 0 iff none qualifies, the length iff all do |
| Seqs.CountUpdate | server/storage.ts:302-307 | replacing one element changes the count by its own contribution only |
| Sorting.Sort | client/src/pages/Invoices.tsx:216-222 | the sorted list is a permutation of the input |
| Sorting.SortSorted | client/src/pages/Invoices.tsx:216-222 | with a total comparator the result is ordered |
| Sorting.SortDistinct | client/src/pages/Invoices.tsx:216-222 | sorting keeps keys distinct |

## Left out

- Floating point. Amounts are exact cents and every `toFixed(2)`, `Math.round` or `round2` is a half-up division. Effects of binary floating point are not modelled: `Number.EPSILON`, values like 1.005, NaN and infinities. A non-finite number appears only as `NotFinite`, which `toMoney` maps to 0.
- JavaScript numbers in search and JSON values are integers (`Js.JsValue` `Num`). The text of fractional numbers is not modelled.
- `toLowerCase` and `trim` work on ASCII letters and the ECMAScript whitespace set. Non-ASCII case mapping is not modelled, and string lengths count code points, not UTF-16 units.
- `localeCompare` in the page's month sort is modelled as code-unit lexicographic order. Locale collation is not modelled, because month keys are digits and a dash.
- Calendar.ParseMonthYear: accepts only `yyyy-MM` with a month 01–12, the form the client sends. `parseISO(monthYear + "-01")` also accepts other strings: `2024` (read as January), `202403`, `+002024-03` and `2024-03T10`. The model rejects these. For a string `parseISO` rejects, the source gets an Invalid Date. Binding it as a timestamp parameter throws a `RangeError` before the select at server/routes.ts:272 runs, so the request fails. The model's `InvalidMonth` error stands for that failure.
- Time zones and the database's timestamp conversion are left out. Job date-times are broken-down local instants, and invoice timestamps are opaque integers.
- Concurrency, transactions and the interleaving of the `await`ed queries are left out. Each handler is one atomic step on the store.
- Authentication, sessions, the e-mail transport (an input flag `delivered`), PDF layout and drawing, and HTTP framing beyond status codes and bodies are left out.
- Foreign-key constraints are not modelled. The store keeps only primary keys and serial counters, and the lemmas that need more (e.g. items pointing at existing invoices) say so in their preconditions.
- The order of `getInvoices` and `getJobs` (`ORDER BY id DESC`) is not modelled. The page's grouping takes its input in any order.
- Generate.Generate: the done-jobs select (server/routes.ts:272-275) has no `ORDER BY`, so the order of the company loop and which new invoice gets which id are unspecified in the source. The model takes the jobs in table order.
- Generate.Generate: the clock is read once per run, as one `now`. The source reads `Date.now()` and `new Date()` again for each invoice it creates (server/routes.ts:311, 319), so two companies' invoice numbers can carry different suffixes.
- `Merge.Newest`: among invoices with equal `createdAt`, PostgreSQL's order is unspecified. The model picks the first one in table order.
- `Js.Field`: a duplicated property name yields the first value, whereas JSON parsing keeps the last. Objects from the database and JSON bodies have distinct keys.
- `DataTable.Prop` models own properties and the `length` and index properties of arrays and strings. Prototype properties (methods, `constructor`) are not modelled, nor `length` on objects. `Object.values` is taken in insertion order, ignoring the integer-key-first rule.
- `DataTable.NormalizeValue`: its contract states the primitive cases. The array and object cases are stated by `ArrayTextHasElements` and `ObjectTextHasValues` (containment), not as an exact string.
- `Schema.Job`: the per-job `referralFee` column is kept but unused, as in the generation run, which bills the settings fee.
- The code bills exactly the status "done" (server/routes.ts:275).
- `Generate.ClockSuffix`: the clock is a natural number of milliseconds. Negative clocks are not modelled.
- `Calendar.FormatYearMonth` and `InvoiceList.CurrentMonthKey` take non-negative years only.
- The property managers, private customers, companies CRUD, job CRUD, the job PDF and e-mail, and the login flow are outside the invoice core. They are not modelled.
- Api.Substitute: with a `$` in the value, the contracts of `Substitute` and `Text.ReplaceFirst` say nothing about the result. `Text.ExpandPatterns`, `Text.ExpandLoneDollar`, `SubstituteMatchPattern` and `SubstituteDollarPattern` cover values holding one pattern only. Values that mix several patterns are modelled in the body only.
- Sorting.Sort: its contracts do not state stability, i.e. that ties keep their input order. No property of the invoice page depends on it.
- `Storage.GetStats`: its contract characterises the three counters. For revenue, `RevenueAppend` and `RevenueNoInvoices` relate it to the invoices of the month, rather than a closed formula in the contract.
