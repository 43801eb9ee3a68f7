/**
 * The rows of the `jobs`, `invoices` and `invoice_items` tables
 * (shared/schema.ts) and the relational snapshot the invoice engine works
 * on.  Money columns are integer cents; timestamps of invoices are opaque
 * integers (milliseconds), a job's date-time is a calendar instant.
 */
module Schema {
  import opened Wrappers
  import Calendar
  import Money

  /** A job ("Einsatz").  `companyId` is NOT NULL, so every job belongs to exactly one company. */
  datatype Job = Job(
    id: nat,
    jobNumber: nat,
    dateTime: Calendar.DateTime,
    companyId: nat,
    trade: string,
    serviceAddress: string,
    status: string,
    referralFee: int,
    createdAt: Option<int>)

  /** An invoice header.  `totalAmount` is the stored gross in cents. */
  datatype Invoice = Invoice(
    id: nat,
    invoiceNumber: string,
    monthYear: string,
    companyId: nat,
    status: string,
    totalAmount: int,
    sentAt: Option<int>,
    paidAt: Option<int>,
    createdAt: Option<int>)

  /** One line of an invoice: the job it bills and the net amount in cents.  All columns are NOT NULL. */
  datatype InvoiceItem = InvoiceItem(id: nat, invoiceId: nat, jobId: nat, amount: int)

  /**
   * The snapshot of the three tables, plus the next values of the `serial`
   * sequences that number new invoices and items.
   */
  datatype Store = Store(
    jobs: seq<Job>,
    invoices: seq<Invoice>,
    items: seq<InvoiceItem>,
    nextInvoiceId: nat,
    nextItemId: nat)

  /** Column default of `jobs.status`. */
  const DefaultJobStatus: string := "open"

  /** Column default of `invoices.status`. */
  const DefaultInvoiceStatus: string := "unpaid"

  /** Column default of `jobs.referral_fee`: "49", in cents. */
  const DefaultReferralFee: int := Money.DefaultFeeNet

  /**
   * What the insert schema of `jobs` accepts: `id`, `jobNumber` and
   * `createdAt` are omitted, so a caller cannot choose them; `status` and
   * `referralFee` have column defaults.
   */
  datatype InsertJob = InsertJob(
    dateTime: Calendar.DateTime,
    companyId: nat,
    trade: string,
    serviceAddress: string,
    status: Option<string>,
    referralFee: Option<int>)

  /** The row the database stores for an insert: generated columns from the database, defaults where the input is silent. */
  function JobFromInsert(input: InsertJob, id: nat, jobNumber: nat, now: int): (j: Job)
    ensures j.id == id && j.jobNumber == jobNumber && j.createdAt == Some(now)
    ensures j.dateTime == input.dateTime && j.companyId == input.companyId
    ensures input.status.None? ==> j.status == "open"
    ensures input.referralFee.None? ==> j.referralFee == 4900
    ensures input.status.Some? ==> j.status == input.status.value
    ensures input.referralFee.Some? ==> j.referralFee == input.referralFee.value
  {
    Job(id, jobNumber, input.dateTime, input.companyId, input.trade, input.serviceAddress,
        input.status.GetOr(DefaultJobStatus), input.referralFee.GetOr(DefaultReferralFee), Some(now))
  }

  /**
   * The columns of a new invoice row a caller supplies: `id` is generated
   * and `createdAt` is taken from the clock; `status` has a default.
   */
  datatype InsertInvoice = InsertInvoice(
    invoiceNumber: string,
    monthYear: string,
    companyId: nat,
    status: Option<string>,
    totalAmount: int)

  /** The row stored for an invoice insert at time `now`: not yet sent, not yet paid. */
  function InvoiceFromInsert(input: InsertInvoice, id: nat, now: int): (inv: Invoice)
    ensures inv.id == id && inv.companyId == input.companyId && inv.monthYear == input.monthYear
    ensures inv.invoiceNumber == input.invoiceNumber && inv.totalAmount == input.totalAmount
    ensures input.status.None? ==> inv.status == "unpaid"
    ensures input.status.Some? ==> inv.status == input.status.value
    ensures inv.createdAt == Some(now) && inv.sentAt.None? && inv.paidAt.None?
  {
    Invoice(id, input.invoiceNumber, input.monthYear, input.companyId,
            input.status.GetOr(DefaultInvoiceStatus), input.totalAmount, None, None, Some(now))
  }

  // ---------------------------------------------------------------------
  // The constraints the database enforces: primary keys and serial counters.
  // ---------------------------------------------------------------------

  predicate InvoiceIdsDistinct(invs: seq<Invoice>) {
    forall i, j :: 0 <= i < j < |invs| ==> invs[i].id != invs[j].id
  }

  predicate JobIdsDistinctIn(jobs: seq<Job>) {
    forall i, j :: 0 <= i < j < |jobs| ==> jobs[i].id != jobs[j].id
  }

  predicate ItemIdsDistinct(items: seq<InvoiceItem>) {
    forall i, j :: 0 <= i < j < |items| ==> items[i].id != items[j].id
  }

  /** The primary-key and sequence invariants of the three tables. */
  predicate WellFormed(s: Store) {
    && InvoiceIdsDistinct(s.invoices)
    && JobIdsDistinctIn(s.jobs)
    && ItemIdsDistinct(s.items)
    && (forall k :: 0 <= k < |s.invoices| ==> s.invoices[k].id < s.nextInvoiceId)
    && (forall k :: 0 <= k < |s.items| ==> s.items[k].id < s.nextItemId)
  }

  // ---------------------------------------------------------------------
  // The two application-level invariants; neither is a database constraint.
  // ---------------------------------------------------------------------

  /** No job is billed by two items. */
  predicate ItemJobIdsDistinct(items: seq<InvoiceItem>) {
    forall i, j :: 0 <= i < j < |items| ==> items[i].jobId != items[j].jobId
  }

  /** At most one invoice per (company, month). */
  predicate OneInvoicePerPair(invs: seq<Invoice>) {
    forall i, j :: 0 <= i < j < |invs| ==>
      invs[i].companyId != invs[j].companyId || invs[i].monthYear != invs[j].monthYear
  }

  /**
   * The schema does not rule out two invoices of one (company, month) or two
   * items billing one job: a store with both satisfies every database constraint.
   */
  lemma SchemaAllowsDuplicates()
    ensures exists s: Store :: WellFormed(s) && !OneInvoicePerPair(s.invoices) && !ItemJobIdsDistinct(s.items)
  {
    var inv1 := Invoice(1, "202403-7-1111", "2024-03", 7, "unpaid", 5880, None, None, Some(10));
    var inv2 := Invoice(2, "202403-7-2222", "2024-03", 7, "unpaid", 5880, None, None, Some(20));
    var s := Store([], [inv1, inv2], [InvoiceItem(1, 1, 5, 4900), InvoiceItem(2, 2, 5, 4900)], 3, 3);
    assert s.invoices[0].companyId == s.invoices[1].companyId && s.invoices[0].monthYear == s.invoices[1].monthYear;
    assert s.items[0].jobId == s.items[1].jobId;
    assert WellFormed(s);
  }
}
