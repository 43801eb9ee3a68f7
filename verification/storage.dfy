/**
 * The invoice-related operations of the storage layer (server/storage.ts):
 * the dashboard counters, `createInvoice` and `updateInvoice`.
 */
module Storage {
  import opened Wrappers
  import opened Schema
  import Seqs
  import Calendar
  import JobStatus
  import Totals

  // ---------------------------------------------------------------------
  // Dashboard statistics.
  // ---------------------------------------------------------------------

  /** The four counters of the dashboard. */
  datatype Stats = Stats(openJobs: nat, doneJobsMonth: nat, unpaidInvoices: nat, monthlyRevenue: int)

  /** `coalesce(sum(total_amount), 0)` over the invoices whose month key is `monthYear`. */
  function RevenueOf(invs: seq<Invoice>, monthYear: string): int
    decreases |invs|
  {
    if |invs| == 0 then 0
    else (if invs[0].monthYear == monthYear then invs[0].totalAmount else 0) + RevenueOf(invs[1..], monthYear)
  }

  predicate OpenJob(j: Job) {
    JobStatus.IsOpen(j.status)
  }

  predicate DoneJobInMonth(j: Job, y: int, m: int)
    requires 1 <= m <= 12
  {
    JobStatus.IsDone(j.status) && Calendar.InMonthWindow(j.dateTime, y, m)
  }

  predicate UnpaidInvoice(inv: Invoice) {
    inv.status == "unpaid"
  }

  /**
   * `getStats()` at a clock reading in month (y, m): open jobs of any date
   * (tolerant status match), done jobs whose date lies in the month window,
   * invoices whose status is exactly "unpaid", and the summed stored totals
   * of the invoices keyed by the current "yyyy-MM".
   */
  function GetStats(s: Store, y: nat, m: int): (st: Stats)
    requires 1 <= m <= 12
    ensures st.openJobs <= |s.jobs| && st.doneJobsMonth <= |s.jobs| && st.unpaidInvoices <= |s.invoices|
    ensures st.openJobs == 0 <==> forall i :: 0 <= i < |s.jobs| ==> !OpenJob(s.jobs[i])
    ensures st.doneJobsMonth == 0 <==> forall i :: 0 <= i < |s.jobs| ==> !DoneJobInMonth(s.jobs[i], y, m)
    ensures st.unpaidInvoices == 0 <==> forall i :: 0 <= i < |s.invoices| ==> !UnpaidInvoice(s.invoices[i])
    ensures st.unpaidInvoices == |s.invoices| <==> forall i :: 0 <= i < |s.invoices| ==> UnpaidInvoice(s.invoices[i])
  {
    Stats(Seqs.Count(s.jobs, OpenJob),
          Seqs.Count(s.jobs, (j: Job) => DoneJobInMonth(j, y, m)),
          Seqs.Count(s.invoices, UnpaidInvoice),
          RevenueOf(s.invoices, Calendar.FormatYearMonth(y, m)))
  }

  /** For jobs with real calendar dates, the month window counts exactly the done jobs dated in that month. */
  lemma DoneJobsMonthExact(s: Store, y: nat, m: int)
    requires 1 <= m <= 12
    requires forall i :: 0 <= i < |s.jobs| ==> Calendar.Valid(s.jobs[i].dateTime)
    ensures GetStats(s, y, m).doneJobsMonth
            == Seqs.Count(s.jobs, (j: Job) => JobStatus.IsDone(j.status) && j.dateTime.year == y && j.dateTime.month == m)
  {
    forall i | 0 <= i < |s.jobs|
      ensures DoneJobInMonth(s.jobs[i], y, m)
              == (JobStatus.IsDone(s.jobs[i].status) && s.jobs[i].dateTime.year == y && s.jobs[i].dateTime.month == m)
    {
      Calendar.MonthWindowExact(s.jobs[i].dateTime, y, m);
    }
    Seqs.CountSame(s.jobs, (j: Job) => DoneJobInMonth(j, y, m),
                   (j: Job) => JobStatus.IsDone(j.status) && j.dateTime.year == y && j.dateTime.month == m);
  }

  /** A job inserted without a status gets the default "open" and so raises the open-jobs counter by one. */
  lemma NewJobCountsAsOpen(s: Store, y: nat, m: int, input: InsertJob, id: nat, jobNumber: nat, now: int)
    requires 1 <= m <= 12 && input.status.None?
    ensures GetStats(s.(jobs := s.jobs + [JobFromInsert(input, id, jobNumber, now)]), y, m).openJobs
            == GetStats(s, y, m).openJobs + 1
  {
    var j := JobFromInsert(input, id, jobNumber, now);
    DefaultJobIsOpen(input, id, jobNumber, now);
    StatsCounts(s, y, m);
    StatsCounts(s.(jobs := s.jobs + [j]), y, m);
    Seqs.CountAppend(s.jobs, j, OpenJob);
  }

  /** A job inserted without a status is open. */
  lemma DefaultJobIsOpen(input: InsertJob, id: nat, jobNumber: nat, now: int)
    requires input.status.None?
    ensures OpenJob(JobFromInsert(input, id, jobNumber, now))
  {
    JobStatus.NormalFormFixpoint("open");
  }

  /** The open-jobs and unpaid-invoices counters are plain counts over the tables. */
  lemma StatsCounts(s: Store, y: nat, m: int)
    requires 1 <= m <= 12
    ensures GetStats(s, y, m).openJobs == Seqs.Count(s.jobs, OpenJob)
    ensures GetStats(s, y, m).unpaidInvoices == Seqs.Count(s.invoices, UnpaidInvoice)
  {
  }

  /** A new invoice adds its total to the revenue of its own month and nothing to any other month. */
  lemma {:induction false} RevenueAppend(invs: seq<Invoice>, x: Invoice, monthYear: string)
    ensures RevenueOf(invs + [x], monthYear)
            == RevenueOf(invs, monthYear) + (if x.monthYear == monthYear then x.totalAmount else 0)
    decreases |invs|
  {
    if |invs| == 0 {
      assert invs + [x] == [x];
      assert [x][1..] == [];
    } else {
      assert (invs + [x])[1..] == invs[1..] + [x];
      RevenueAppend(invs[1..], x, monthYear);
    }
  }

  /** Only the invoices of the month contribute: with none of them the revenue is 0. */
  lemma {:induction false} RevenueNoInvoices(invs: seq<Invoice>, monthYear: string)
    requires forall i :: 0 <= i < |invs| ==> invs[i].monthYear != monthYear
    ensures RevenueOf(invs, monthYear) == 0
    decreases |invs|
  {
    if |invs| > 0 {
      RevenueNoInvoices(invs[1..], monthYear);
    }
  }

  // ---------------------------------------------------------------------
  // createInvoice.
  // ---------------------------------------------------------------------

  /** One requested line of a new invoice. */
  datatype NewItem = NewItem(jobId: nat, amount: int)

  /** The item rows for the requested lines, all on invoice `invoiceId`, numbered from `firstId`. */
  function ItemRows(items: seq<NewItem>, invoiceId: nat, firstId: nat): (r: seq<InvoiceItem>)
    ensures |r| == |items|
    ensures forall i :: 0 <= i < |items| ==> r[i] == InvoiceItem(firstId + i, invoiceId, items[i].jobId, items[i].amount)
    decreases |items|
  {
    if |items| == 0 then []
    else [InvoiceItem(firstId, invoiceId, items[0].jobId, items[0].amount)] + ItemRows(items[1..], invoiceId, firstId + 1)
  }

  /**
   * `createInvoice(invoice, items)`: insert the header, then (only for a
   * non-empty list) one item per requested line pointing at the new header.
   */
  function CreateInvoice(s: Store, input: InsertInvoice, items: seq<NewItem>, now: int): (r: (Store, Invoice))
    ensures r.1.id == s.nextInvoiceId && r.1.companyId == input.companyId && r.1.monthYear == input.monthYear
    ensures r.1.createdAt == Some(now) && r.1.sentAt.None? && r.1.paidAt.None?
    ensures r.0.invoices == s.invoices + [r.1]
    ensures r.0.jobs == s.jobs
    ensures |r.0.items| == |s.items| + |items| && r.0.items[..|s.items|] == s.items
    ensures forall i :: 0 <= i < |items| ==>
              && r.0.items[|s.items| + i].invoiceId == r.1.id
              && r.0.items[|s.items| + i].jobId == items[i].jobId
              && r.0.items[|s.items| + i].amount == items[i].amount
    ensures |items| == 0 ==> r.0.items == s.items
  {
    var inv := InvoiceFromInsert(input, s.nextInvoiceId, now);
    var s1 := s.(invoices := s.invoices + [inv], nextInvoiceId := s.nextInvoiceId + 1);
    if |items| > 0 then
      (s1.(items := s.items + ItemRows(items, inv.id, s.nextItemId), nextItemId := s.nextItemId + |items|), inv)
    else
      (s1, inv)
  }

  /** Sum of the requested amounts. */
  function AmountSum(items: seq<NewItem>): int
    decreases |items|
  {
    if |items| == 0 then 0 else items[0].amount + AmountSum(items[1..])
  }

  /** Creating an invoice keeps the primary-key invariants: header and items take fresh serial ids. */
  lemma CreateInvoiceWellFormed(s: Store, input: InsertInvoice, items: seq<NewItem>, now: int)
    requires WellFormed(s)
    ensures WellFormed(CreateInvoice(s, input, items, now).0)
  {
    var (r, inv) := CreateInvoice(s, input, items, now);
    forall i, j | 0 <= i < j < |r.invoices| ensures r.invoices[i].id != r.invoices[j].id {
      assert r.invoices[i] == s.invoices[i];
      if j < |s.invoices| { assert r.invoices[j] == s.invoices[j]; }
    }
    if |items| > 0 {
      var rows := ItemRows(items, inv.id, s.nextItemId);
      assert r.items == s.items + rows;
      forall i, j | 0 <= i < j < |r.items| ensures r.items[i].id != r.items[j].id {
        if j < |s.items| {
          assert r.items[i] == s.items[i] && r.items[j] == s.items[j];
        } else if i < |s.items| {
          assert r.items[i] == s.items[i] && r.items[j] == rows[j - |s.items|];
        } else {
          assert r.items[i] == rows[i - |s.items|] && r.items[j] == rows[j - |s.items|];
        }
      }
    }
  }

  /**
   * When every existing item points at an invoice created earlier, the new
   * invoice owns exactly the requested lines: its item count is their number
   * and its net is the sum of their amounts.
   */
  lemma CreateInvoiceNet(s: Store, input: InsertInvoice, items: seq<NewItem>, now: int)
    requires forall k :: 0 <= k < |s.items| ==> s.items[k].invoiceId < s.nextInvoiceId
    ensures var (r, inv) := CreateInvoice(s, input, items, now);
            Totals.ItemsNet(r.items, inv.id) == AmountSum(items) && Totals.ItemCount(r.items, inv.id) == |items|
  {
    var (r, inv) := CreateInvoice(s, input, items, now);
    OldItemsNotOn(s.items, inv.id);
    var rows := ItemRows(items, inv.id, s.nextItemId);
    RowsOn(items, inv.id, s.nextItemId);
    Totals.ItemsNetAppend(s.items, rows, {inv.id});
    ItemCountAppend(s.items, rows, inv.id);
    if |items| == 0 {
      assert r.items == s.items + rows;
    }
  }

  lemma {:induction false} OldItemsNotOn(items: seq<InvoiceItem>, id: nat)
    requires forall k :: 0 <= k < |items| ==> items[k].invoiceId < id
    ensures Totals.ItemsNet(items, id) == 0 && Totals.ItemCount(items, id) == 0
    decreases |items|
  {
    if |items| > 0 {
      OldItemsNotOn(items[1..], id);
    }
  }

  lemma {:induction false} RowsOn(items: seq<NewItem>, id: nat, firstId: nat)
    ensures Totals.ItemsNet(ItemRows(items, id, firstId), id) == AmountSum(items)
    ensures Totals.ItemCount(ItemRows(items, id, firstId), id) == |items|
    decreases |items|
  {
    if |items| > 0 {
      RowsOn(items[1..], id, firstId + 1);
      assert ItemRows(items, id, firstId)[1..] == ItemRows(items[1..], id, firstId + 1);
    }
  }

  lemma {:induction false} ItemCountAppend(a: seq<InvoiceItem>, b: seq<InvoiceItem>, id: nat)
    ensures Totals.ItemCount(a + b, id) == Totals.ItemCount(a, id) + Totals.ItemCount(b, id)
    decreases |a|
  {
    if |a| == 0 {
      assert a + b == b;
    } else {
      assert (a + b)[1..] == a[1..] + b;
      ItemCountAppend(a[1..], b, id);
    }
  }

  // ---------------------------------------------------------------------
  // updateInvoice.
  // ---------------------------------------------------------------------

  /**
   * A `Partial<Invoice>`: a field is either absent (`None`) or set to a value;
   * the nullable timestamps can be set to `null` (`Some(None)`).
   */
  datatype InvoicePatch = InvoicePatch(
    invoiceNumber: Option<string>,
    monthYear: Option<string>,
    companyId: Option<nat>,
    status: Option<string>,
    totalAmount: Option<int>,
    sentAt: Option<Option<int>>,
    paidAt: Option<Option<int>>,
    createdAt: Option<Option<int>>)

  const EmptyPatch: InvoicePatch := InvoicePatch(None, None, None, None, None, None, None, None)

  /** `SET` of the present fields: each present field takes its new value, each absent one keeps the old. */
  function ApplyPatch(inv: Invoice, p: InvoicePatch): (r: Invoice)
    ensures r.id == inv.id
    ensures r.invoiceNumber == (if p.invoiceNumber.Some? then p.invoiceNumber.value else inv.invoiceNumber)
    ensures r.monthYear == (if p.monthYear.Some? then p.monthYear.value else inv.monthYear)
    ensures r.companyId == (if p.companyId.Some? then p.companyId.value else inv.companyId)
    ensures r.status == (if p.status.Some? then p.status.value else inv.status)
    ensures r.totalAmount == (if p.totalAmount.Some? then p.totalAmount.value else inv.totalAmount)
    ensures r.sentAt == (if p.sentAt.Some? then p.sentAt.value else inv.sentAt)
    ensures r.paidAt == (if p.paidAt.Some? then p.paidAt.value else inv.paidAt)
    ensures r.createdAt == (if p.createdAt.Some? then p.createdAt.value else inv.createdAt)
  {
    Invoice(inv.id,
            p.invoiceNumber.GetOr(inv.invoiceNumber),
            p.monthYear.GetOr(inv.monthYear),
            p.companyId.GetOr(inv.companyId),
            p.status.GetOr(inv.status),
            p.totalAmount.GetOr(inv.totalAmount),
            p.sentAt.GetOr(inv.sentAt),
            p.paidAt.GetOr(inv.paidAt),
            p.createdAt.GetOr(inv.createdAt))
  }

  /** The position of the first invoice with id `id`. */
  function FindInvoice(invs: seq<Invoice>, id: nat): (r: Option<nat>)
    ensures r.Some? ==> r.value < |invs| && invs[r.value].id == id
    ensures r.Some? ==> forall k :: 0 <= k < r.value ==> invs[k].id != id
    ensures r.None? <==> forall k :: 0 <= k < |invs| ==> invs[k].id != id
    decreases |invs|
  {
    if |invs| == 0 then None
    else if invs[0].id == id then Some(0)
    else match FindInvoice(invs[1..], id)
      case None => None
      case Some(k) => Some(k + 1)
  }

  /** `UPDATE invoices SET ... WHERE id = id` on every matching row. */
  function PatchRows(invs: seq<Invoice>, id: nat, p: InvoicePatch): (r: seq<Invoice>)
    ensures |r| == |invs|
    ensures forall k :: 0 <= k < |invs| ==> r[k] == (if invs[k].id == id then ApplyPatch(invs[k], p) else invs[k])
    decreases |invs|
  {
    if |invs| == 0 then []
    else [if invs[0].id == id then ApplyPatch(invs[0], p) else invs[0]] + PatchRows(invs[1..], id, p)
  }

  /**
   * Why `updateInvoice` fails: the patch sets no column (the query builder
   * refuses an empty `SET` before anything is sent), or no invoice has the
   * requested id (the `returning()` row is missing).
   */
  datatype UpdateError = NoValues | NotFound

  /**
   * `updateInvoice(id, data)`: the invoice with id `id` takes the present
   * fields of `data`; nothing else in the store changes.  The updated row is
   * returned; an empty patch fails with `NoValues`, and an unknown id with
   * `NotFound` (store unchanged either way).
   */
  function UpdateInvoice(s: Store, id: nat, p: InvoicePatch): (r: Result<(Store, Invoice), UpdateError>)
    ensures r == Err(NoValues) <==> p == EmptyPatch
    ensures r == Err(NotFound) <==> p != EmptyPatch && forall k :: 0 <= k < |s.invoices| ==> s.invoices[k].id != id
    ensures r.Ok? ==> && r.value.0.jobs == s.jobs && r.value.0.items == s.items
                      && r.value.0.nextInvoiceId == s.nextInvoiceId && r.value.0.nextItemId == s.nextItemId
                      && |r.value.0.invoices| == |s.invoices|
    ensures r.Ok? ==> forall k :: 0 <= k < |s.invoices| && s.invoices[k].id == id ==>
              r.value.0.invoices[k] == ApplyPatch(s.invoices[k], p)
    ensures r.Ok? ==> forall k :: 0 <= k < |s.invoices| && s.invoices[k].id != id ==>
              r.value.0.invoices[k] == s.invoices[k]
    ensures r.Ok? ==> r.value.1.id == id && r.value.1 in r.value.0.invoices
  {
    if p == EmptyPatch then Err(NoValues)
    else match FindInvoice(s.invoices, id)
    case None => Err(NotFound)
    case Some(k) =>
      var invs := PatchRows(s.invoices, id, p);
      Ok((s.(invoices := invs), invs[k]))
  }

  /** Applying the same update twice is applying it once. */
  lemma UpdateIdempotent(s: Store, id: nat, p: InvoicePatch)
    requires UpdateInvoice(s, id, p).Ok?
    ensures UpdateInvoice(UpdateInvoice(s, id, p).value.0, id, p).Ok?
    ensures UpdateInvoice(UpdateInvoice(s, id, p).value.0, id, p).value.0 == UpdateInvoice(s, id, p).value.0
  {
    UpdateStoreIs(s, id, p);
    var s1 := s.(invoices := PatchRows(s.invoices, id, p));
    UpdateStoreIs(s1, id, p);
    PatchRowsIdempotent(s.invoices, id, p);
  }

  /** The store an update leaves behind; the id stays present in it. */
  lemma UpdateStoreIs(s: Store, id: nat, p: InvoicePatch)
    requires UpdateInvoice(s, id, p).Ok?
    ensures UpdateInvoice(s, id, p).value.0 == s.(invoices := PatchRows(s.invoices, id, p))
    ensures UpdateInvoice(s.(invoices := PatchRows(s.invoices, id, p)), id, p).Ok?
  {
    var f := FindInvoice(s.invoices, id);
    assert f.Some?;
    var invs := PatchRows(s.invoices, id, p);
    assert UpdateInvoice(s, id, p) == Ok((s.(invoices := invs), invs[f.value]));
    assert invs[f.value].id == id;
  }

  lemma {:induction false} PatchRowsIdempotent(invs: seq<Invoice>, id: nat, p: InvoicePatch)
    ensures PatchRows(PatchRows(invs, id, p), id, p) == PatchRows(invs, id, p)
  {
    var r1 := PatchRows(invs, id, p);
    var r2 := PatchRows(r1, id, p);
    forall j | 0 <= j < |invs| ensures r2[j] == r1[j] {
      if invs[j].id == id {
        PatchIdempotent(invs[j], p);
      }
    }
  }

  lemma PatchIdempotent(inv: Invoice, p: InvoicePatch)
    ensures ApplyPatch(ApplyPatch(inv, p), p) == ApplyPatch(inv, p)
  {
  }

  /** An update keeps every id, so it keeps the primary-key invariants. */
  lemma UpdateWellFormed(s: Store, id: nat, p: InvoicePatch)
    requires WellFormed(s) && UpdateInvoice(s, id, p).Ok?
    ensures WellFormed(UpdateInvoice(s, id, p).value.0)
  {
    var r := UpdateInvoice(s, id, p).value.0;
    assert forall k :: 0 <= k < |s.invoices| ==> r.invoices[k].id == s.invoices[k].id;
  }
}
