/**
 * Monthly invoice generation (server/routes.ts, `POST /api/invoices/generate`):
 * every job of the month whose status is exactly "done" and that no item
 * bills yet is billed at the net fee, on the one invoice of its company and
 * month; duplicate invoices of a touched pair are merged first.
 */
module Generate {
  import opened Wrappers
  import opened Schema
  import Text
  import Calendar
  import Seqs
  import Totals
  import Money
  import Merge

  // ---------------------------------------------------------------------
  // Selecting the jobs to bill.
  // ---------------------------------------------------------------------

  /** `status = 'done' AND date_time BETWEEN startOfMonth AND endOfMonth`: an exact, case-sensitive match. */
  predicate DoneInMonth(j: Job, y: int, m: int)
    requires 1 <= m <= 12
  {
    j.status == "done" && Calendar.InMonthWindow(j.dateTime, y, m)
  }

  /** The job ids some item already bills (`new Set(existing.map(x => x.jobId))`). */
  function BilledJobIds(items: seq<InvoiceItem>): set<nat> {
    set it | it in items :: it.jobId
  }

  /** The company ids of the jobs, in order. */
  function CompanyIds(jobs: seq<Job>): (r: seq<nat>)
    ensures |r| == |jobs|
    ensures forall k :: 0 <= k < |jobs| ==> r[k] == jobs[k].companyId
    decreases |jobs|
  {
    if |jobs| == 0 then [] else [jobs[0].companyId] + CompanyIds(jobs[1..])
  }

  /**
   * The companies of the jobs, each once, in order of first appearance: the
   * key order of the `byCompany` map and of `[...new Set(companyIds)]`.
   */
  function CompaniesOf(jobs: seq<Job>): (r: seq<nat>)
    ensures Seqs.NoDups(r)
    ensures forall c :: c in r <==> exists j :: j in jobs && j.companyId == c
    ensures |r| == |set j | j in jobs :: j.companyId|
  {
    var ids := CompanyIds(jobs);
    assert forall c :: c in ids <==> exists j :: j in jobs && j.companyId == c by {
      forall c ensures c in ids <==> exists j :: j in jobs && j.companyId == c {
        if c in ids {
          var k :| 0 <= k < |ids| && ids[k] == c;
          assert jobs[k] in jobs;
        }
        if exists j :: j in jobs && j.companyId == c {
          var j :| j in jobs && j.companyId == c;
          var k :| 0 <= k < |jobs| && jobs[k] == j;
          assert ids[k] == c;
        }
      }
    }
    var r := Seqs.Dedup(ids);
    Seqs.NoDupsCardinality(r);
    assert Seqs.Elements(r) == (set j | j in jobs :: j.companyId);
    r
  }

  /** The jobs of company `c`, in order (`byCompany.get(c)`). */
  function JobsOfCompany(jobs: seq<Job>, c: nat): (r: seq<Job>)
    ensures forall j :: j in r <==> j in jobs && j.companyId == c
  {
    Seqs.Filter(jobs, (j: Job) => j.companyId == c)
  }

  /** A filtered list of jobs keeps the ids distinct. */
  lemma {:induction false} FilterJobIds(jobs: seq<Job>, p: Job -> bool)
    requires JobIdsDistinctIn(jobs)
    ensures JobIdsDistinctIn(Seqs.Filter(jobs, p))
    decreases |jobs|
  {
    if |jobs| > 0 {
      var t := jobs[1..];
      assert JobIdsDistinctIn(t) by {
        forall i, j | 0 <= i < j < |t| ensures t[i].id != t[j].id {
          assert t[i] == jobs[i + 1] && t[j] == jobs[j + 1];
        }
      }
      FilterJobIds(t, p);
      if p(jobs[0]) {
        var r := Seqs.Filter(t, p);
        var all := [jobs[0]] + r;
        forall i, j | 0 <= i < j < |all| ensures all[i].id != all[j].id {
          assert all[j] == r[j - 1] && r[j - 1] in t;
          if i == 0 {
            var q :| 0 <= q < |t| && t[q] == r[j - 1];
            assert t[q] == jobs[q + 1];
          } else {
            assert all[i] == r[i - 1];
          }
        }
      }
    }
  }

  /** Two jobs with the same id in a list with distinct ids are the same job. */
  lemma SameIdSameJob(jobs: seq<Job>, a: Job, b: Job)
    requires JobIdsDistinctIn(jobs) && a in jobs && b in jobs && a.id == b.id
    ensures a == b
  {
    var i :| 0 <= i < |jobs| && jobs[i] == a;
    var j :| 0 <= j < |jobs| && jobs[j] == b;
    assert i == j;
  }

  // ---------------------------------------------------------------------
  // Billing one company.
  // ---------------------------------------------------------------------

  /**
   * One new item per job, in order, all on invoice `invoiceId` at the net
   * `fee`, numbered from `firstId` on.
   */
  function NewItems(jobs: seq<Job>, invoiceId: nat, fee: int, firstId: nat): (r: seq<InvoiceItem>)
    ensures |r| == |jobs|
    ensures forall k :: 0 <= k < |jobs| ==> r[k] == InvoiceItem(firstId + k, invoiceId, jobs[k].id, fee)
    decreases |jobs|
  {
    if |jobs| == 0 then []
    else [InvoiceItem(firstId, invoiceId, jobs[0].id, fee)] + NewItems(jobs[1..], invoiceId, fee, firstId + 1)
  }

  /** `Date.now().toString().slice(-4)`: the last four digits of the clock, or all of them when there are fewer. */
  function ClockSuffix(now: nat): (r: string)
    ensures 1 <= |r| <= 4
    ensures forall i :: 0 <= i < |r| ==> Text.IsDigit(r[i])
    ensures |Text.NatToString(now)| <= 4 ==> r == Text.NatToString(now)
  {
    var d := Text.NatToString(now);
    if |d| <= 4 then d else d[|d| - 4..]
  }

  /** `${monthYear.replace("-", "")}-${companyId}-${suffix}`. */
  function InvoiceNumber(monthYear: string, c: nat, now: nat): string {
    Text.ReplaceFirst(monthYear, "-", "") + "-" + Text.NatToString(c) + "-" + ClockSuffix(now)
  }

  /**
   * For a well-formed month key the invoice number is the month without its
   * dash, the company id and the clock suffix, joined by dashes; splitting it
   * at the dashes recovers all three.
   */
  lemma InvoiceNumberParts(monthYear: string, c: nat, now: nat)
    requires Calendar.ParseMonthYear(monthYear).Some?
    ensures InvoiceNumber(monthYear, c, now)
            == Text.Join([monthYear[..4] + monthYear[5..], Text.NatToString(c), ClockSuffix(now)], "-")
    ensures Text.Split(InvoiceNumber(monthYear, c, now), '-')
            == [monthYear[..4] + monthYear[5..], Text.NatToString(c), ClockSuffix(now)]
  {
    assert Text.OccursAt(monthYear, "-", 4);
    forall i: nat | i < 4 ensures !Text.OccursAt(monthYear, "-", i) {
      assert Text.IsDigit(monthYear[i]);
    }
    var ym := monthYear[..4] + monthYear[5..];
    var parts := [ym, Text.NatToString(c), ClockSuffix(now)];
    assert Text.ReplaceFirst(monthYear, "-", "") == ym;
    assert Text.Join(parts, "-") == ym + "-" + Text.NatToString(c) + "-" + ClockSuffix(now) by {
      assert parts[1..] == [Text.NatToString(c), ClockSuffix(now)];
      assert parts[1..][1..] == [ClockSuffix(now)];
    }
    forall k | 0 <= k < |parts| ensures '-' !in parts[k] {
      if k == 0 {
        forall i | 0 <= i < |ym| ensures ym[i] != '-' {
          if i < 4 { assert ym[i] == monthYear[i]; } else { assert ym[i] == monthYear[i + 1]; }
        }
      } else if k == 1 {
        forall i | 0 <= i < |parts[1]| ensures parts[1][i] != '-' { assert Text.IsDigit(parts[1][i]); }
      } else {
        forall i | 0 <= i < |parts[2]| ensures parts[2][i] != '-' { assert Text.IsDigit(parts[2][i]); }
      }
    }
    Text.JoinSplit(parts, '-');
  }

  /**
   * `mergeDuplicateInvoices(c, monthYear)` and, when the pair has no
   * invoice, `storage.createInvoice` of an empty "unpaid" one created now.
   */
  function GetOrCreate(s: Store, c: nat, monthYear: string, now: nat): (r: (Store, Invoice))
    ensures r.0.jobs == s.jobs && r.0.nextItemId == s.nextItemId
    ensures |r.0.items| == |s.items|
    ensures forall k :: 0 <= k < |s.items| ==>
              r.0.items[k].jobId == s.items[k].jobId && r.0.items[k].amount == s.items[k].amount
    ensures Merge.ForPair(s.invoices, c, monthYear) == [] ==>
              && r.1.id == s.nextInvoiceId && r.1.status == "unpaid" && r.1.totalAmount == 0
              && r.1.createdAt == Some(now) && r.1.sentAt.None? && r.1.paidAt.None?
              && r.1.companyId == c && r.1.monthYear == monthYear
    ensures Merge.ForPair(s.invoices, c, monthYear) != [] ==> r.1 in Merge.ForPair(s.invoices, c, monthYear)
    ensures forall k :: 0 <= k < |s.items| && s.items[k].invoiceId !in Merge.IdsOf(Merge.ForPair(s.invoices, c, monthYear)) ==>
              r.0.items[k] == s.items[k]
  {
    var mr := Merge.Merge(s, c, monthYear);
    match mr.master
    case Some(inv) => (mr.store, inv)
    case None =>
      var input := InsertInvoice(InvoiceNumber(monthYear, c, now), monthYear, c, Some(DefaultInvoiceStatus), 0);
      var inv := InvoiceFromInsert(input, mr.store.nextInvoiceId, now);
      (mr.store.(invoices := mr.store.invoices + [inv], nextInvoiceId := mr.store.nextInvoiceId + 1), inv)
  }

  /** Get-or-create keeps the primary-key invariants: a created invoice takes the next serial id. */
  lemma GetOrCreateWellFormed(s: Store, c: nat, monthYear: string, now: nat)
    requires WellFormed(s)
    ensures WellFormed(GetOrCreate(s, c, monthYear, now).0)
  {
    var mr := Merge.Merge(s, c, monthYear);
    Merge.MergeWellFormed(s, c, monthYear);
    if mr.master.None? {
      var input := InsertInvoice(InvoiceNumber(monthYear, c, now), monthYear, c, Some(DefaultInvoiceStatus), 0);
      AppendFreshWellFormed(mr.store, InvoiceFromInsert(input, mr.store.nextInvoiceId, now));
    }
  }

  /** Appending an invoice that takes the next serial id keeps the primary-key invariants. */
  lemma AppendFreshWellFormed(s: Store, inv: Invoice)
    requires WellFormed(s) && inv.id == s.nextInvoiceId
    ensures WellFormed(s.(invoices := s.invoices + [inv], nextInvoiceId := s.nextInvoiceId + 1))
  {
    var invs := s.invoices + [inv];
    forall i, j | 0 <= i < j < |invs| ensures invs[i].id != invs[j].id {
      assert invs[i] == s.invoices[i];
      if j < |s.invoices| {
        assert invs[j] == s.invoices[j];
      }
    }
  }

  /** After get-or-create the pair has exactly one invoice, and it is the master. */
  lemma GetOrCreatePair(s: Store, c: nat, monthYear: string, now: nat)
    requires InvoiceIdsDistinct(s.invoices)
    ensures var (s1, master) := GetOrCreate(s, c, monthYear, now);
            && |Merge.ForPair(s1.invoices, c, monthYear)| == 1
            && Merge.ForPair(s1.invoices, c, monthYear)[0].id == master.id
  {
    var mr := Merge.Merge(s, c, monthYear);
    Merge.MergePair(s, c, monthYear);
    if mr.master.None? {
      var (s1, inv) := GetOrCreate(s, c, monthYear, now);
      Merge.ForPairAppend(mr.store.invoices, inv, c, monthYear);
    }
  }

  /** Get-or-create leaves the invoices of every other (company, month) as they were. */
  lemma GetOrCreateFrame(s: Store, c: nat, monthYear: string, now: nat, c': nat, m': string)
    requires InvoiceIdsDistinct(s.invoices)
    requires !(c' == c && m' == monthYear)
    ensures Merge.ForPair(GetOrCreate(s, c, monthYear, now).0.invoices, c', m') == Merge.ForPair(s.invoices, c', m')
  {
    var mr := Merge.Merge(s, c, monthYear);
    Merge.MergeFrame(s, c, monthYear, c', m');
    if mr.master.None? {
      var (s1, inv) := GetOrCreate(s, c, monthYear, now);
      Merge.ForPairAppend(mr.store.invoices, inv, c', m');
    }
  }

  /** `db.insert(invoiceItems)` of the new items, then `recalcInvoiceTotals(master.id)`. */
  function AppendAndRecalc(s: Store, masterId: nat, jobs: seq<Job>, fee: int): Store {
    var s2 := s.(items := s.items + NewItems(jobs, masterId, fee, s.nextItemId), nextItemId := s.nextItemId + |jobs|);
    Totals.Recalc(s2, masterId)
  }

  /** One pass of the loop over `byCompany`: merge or create the master, append one item per job, recompute its total. */
  function BillCompany(s: Store, c: nat, monthYear: string, jobs: seq<Job>, fee: int, now: nat): (r: Store)
    ensures r.jobs == s.jobs
    ensures |r.items| == |s.items| + |jobs|
    ensures forall k :: 0 <= k < |s.items| ==>
              r.items[k].jobId == s.items[k].jobId && r.items[k].amount == s.items[k].amount
    ensures forall i :: 0 <= i < |jobs| ==>
              r.items[|s.items| + i].jobId == jobs[i].id && r.items[|s.items| + i].amount == fee
  {
    var (s1, master) := GetOrCreate(s, c, monthYear, now);
    AppendAndRecalc(s1, master.id, jobs, fee)
  }

  // ---------------------------------------------------------------------
  // What one billing step does.
  // ---------------------------------------------------------------------

  /**
   * Job `j` is billed for the month: its company has exactly one invoice for
   * `monthYear`, and some item on that invoice bills `j` at `fee`.
   */
  predicate BilledOn(s: Store, j: Job, monthYear: string, fee: int) {
    var g := Merge.ForPair(s.invoices, j.companyId, monthYear);
    && |g| == 1
    && exists k :: 0 <= k < |s.items| && s.items[k].jobId == j.id && s.items[k].invoiceId == g[0].id && s.items[k].amount == fee
  }

  /** Recomputing a total changes no invoice's pair membership or id. */
  lemma RecalcForPair(s: Store, id: nat, c: nat, m: string)
    ensures |Merge.ForPair(Totals.Recalc(s, id).invoices, c, m)| == |Merge.ForPair(s.invoices, c, m)|
    ensures forall k :: 0 <= k < |Merge.ForPair(s.invoices, c, m)| ==>
              Merge.ForPair(Totals.Recalc(s, id).invoices, c, m)[k].id == Merge.ForPair(s.invoices, c, m)[k].id
  {
    Merge.ForPairSetTotal(s.invoices, id, Totals.TotalsOf(s.items, id).gross, c, m);
  }

  /** Appending items with new serial ids and recomputing a total keeps the primary-key invariants. */
  lemma AppendAndRecalcWellFormed(s: Store, masterId: nat, jobs: seq<Job>, fee: int)
    requires WellFormed(s)
    ensures WellFormed(AppendAndRecalc(s, masterId, jobs, fee))
  {
    var added := NewItems(jobs, masterId, fee, s.nextItemId);
    var items := s.items + added;
    forall i, j | 0 <= i < j < |items| ensures items[i].id != items[j].id {
      if j < |s.items| {
        assert items[i] == s.items[i] && items[j] == s.items[j];
      } else if i < |s.items| {
        assert items[i] == s.items[i] && items[j] == added[j - |s.items|];
      } else {
        assert items[i] == added[i - |s.items|] && items[j] == added[j - |s.items|];
      }
    }
    var r := AppendAndRecalc(s, masterId, jobs, fee);
    forall i, j | 0 <= i < j < |r.invoices| ensures r.invoices[i].id != r.invoices[j].id {
      assert r.invoices[i].id == s.invoices[i].id && r.invoices[j].id == s.invoices[j].id;
    }
    forall k | 0 <= k < |r.invoices| ensures r.invoices[k].id < r.nextInvoiceId {
      assert r.invoices[k].id == s.invoices[k].id;
    }
  }

  /** A billing step keeps the primary-key invariants. */
  lemma BillCompanyWellFormed(s: Store, c: nat, monthYear: string, jobs: seq<Job>, fee: int, now: nat)
    requires WellFormed(s)
    ensures WellFormed(BillCompany(s, c, monthYear, jobs, fee, now))
  {
    var (s1, master) := GetOrCreate(s, c, monthYear, now);
    GetOrCreateWellFormed(s, c, monthYear, now);
    AppendAndRecalcWellFormed(s1, master.id, jobs, fee);
  }

  /** After a billing step the company has one invoice for the month, and it bills every job of the step at `fee`. */
  lemma BillCompanyBills(s: Store, c: nat, monthYear: string, jobs: seq<Job>, fee: int, now: nat)
    requires InvoiceIdsDistinct(s.invoices)
    requires forall j :: j in jobs ==> j.companyId == c
    ensures forall j :: j in jobs ==> BilledOn(BillCompany(s, c, monthYear, jobs, fee, now), j, monthYear, fee)
  {
    var (s1, master) := GetOrCreate(s, c, monthYear, now);
    GetOrCreatePair(s, c, monthYear, now);
    AppendAndRecalcBills(s1, master.id, jobs, fee, c, monthYear);
  }

  /** Appending items for the jobs to the pair's single invoice bills every one of them. */
  lemma AppendAndRecalcBills(s: Store, masterId: nat, jobs: seq<Job>, fee: int, c: nat, monthYear: string)
    requires |Merge.ForPair(s.invoices, c, monthYear)| == 1 && Merge.ForPair(s.invoices, c, monthYear)[0].id == masterId
    requires forall j :: j in jobs ==> j.companyId == c
    ensures forall j :: j in jobs ==> BilledOn(AppendAndRecalc(s, masterId, jobs, fee), j, monthYear, fee)
  {
    var added := NewItems(jobs, masterId, fee, s.nextItemId);
    var s2 := s.(items := s.items + added, nextItemId := s.nextItemId + |jobs|);
    var r := AppendAndRecalc(s, masterId, jobs, fee);
    assert r == Totals.Recalc(s2, masterId);
    RecalcForPair(s2, masterId, c, monthYear);
    var g := Merge.ForPair(r.invoices, c, monthYear);
    assert |g| == 1 && g[0].id == masterId;
    assert r.items == s.items + added;
    forall j | j in jobs ensures BilledOn(r, j, monthYear, fee) {
      var i :| 0 <= i < |jobs| && jobs[i] == j;
      var k := |s.items| + i;
      assert r.items[k] == added[i];
      assert r.items[k].jobId == j.id && r.items[k].invoiceId == g[0].id && r.items[k].amount == fee;
    }
  }

  /** A billing step for company `c` keeps every other company's billed jobs billed. */
  lemma BillCompanyKeeps(s: Store, c: nat, monthYear: string, jobs: seq<Job>, fee: int, now: nat, j: Job)
    requires InvoiceIdsDistinct(s.invoices)
    requires j.companyId != c && BilledOn(s, j, monthYear, fee)
    ensures BilledOn(BillCompany(s, c, monthYear, jobs, fee, now), j, monthYear, fee)
  {
    var g := Merge.ForPair(s.invoices, j.companyId, monthYear);
    var k :| 0 <= k < |s.items| && s.items[k].jobId == j.id && s.items[k].invoiceId == g[0].id && s.items[k].amount == fee;
    Merge.PairIdsDisjoint(s.invoices, j.companyId, monthYear, c, monthYear);
    assert g[0] in g;
    var (s1, master) := GetOrCreate(s, c, monthYear, now);
    assert s1.items[k] == s.items[k];
    GetOrCreateFrame(s, c, monthYear, now, j.companyId, monthYear);
    var added := NewItems(jobs, master.id, fee, s1.nextItemId);
    var s2 := s1.(items := s1.items + added, nextItemId := s1.nextItemId + |jobs|);
    var r := BillCompany(s, c, monthYear, jobs, fee, now);
    assert r == Totals.Recalc(s2, master.id);
    RecalcForPair(s2, master.id, j.companyId, monthYear);
    assert r.items[k] == s.items[k];
  }

  /** A billing step for month `monthYear` leaves every invoice of another month exactly as it was. */
  lemma BillCompanyOtherMonth(s: Store, c: nat, monthYear: string, jobs: seq<Job>, fee: int, now: nat, c': nat, m': string)
    requires WellFormed(s) && m' != monthYear
    ensures Merge.ForPair(BillCompany(s, c, monthYear, jobs, fee, now).invoices, c', m') == Merge.ForPair(s.invoices, c', m')
  {
    var (s1, master) := GetOrCreate(s, c, monthYear, now);
    GetOrCreateWellFormed(s, c, monthYear, now);
    GetOrCreatePair(s, c, monthYear, now);
    GetOrCreateFrame(s, c, monthYear, now, c', m');
    var added := NewItems(jobs, master.id, fee, s1.nextItemId);
    var s2 := s1.(items := s1.items + added, nextItemId := s1.nextItemId + |jobs|);
    var t := Totals.TotalsOf(s2.items, master.id).gross;
    var h := Merge.ForPair(s1.invoices, c', m');
    Merge.PairIdsDisjoint(s1.invoices, c', m', c, monthYear);
    assert Merge.ForPair(s1.invoices, c, monthYear)[0] in Merge.ForPair(s1.invoices, c, monthYear);
    Merge.SetTotalNone(h, master.id, t);
    Merge.ForPairSetTotal(s2.invoices, master.id, t, c', m');
  }

  /** The job ids an extended item list bills: the old ones plus those of the appended jobs. */
  lemma ExtendedJobIds(a: seq<InvoiceItem>, r: seq<InvoiceItem>, jobs: seq<Job>)
    requires |r| == |a| + |jobs|
    requires forall k :: 0 <= k < |a| ==> r[k].jobId == a[k].jobId
    requires forall i :: 0 <= i < |jobs| ==> r[|a| + i].jobId == jobs[i].id
    ensures BilledJobIds(r) == BilledJobIds(a) + set j | j in jobs :: j.id
    ensures ItemJobIdsDistinct(a) && JobIdsDistinctIn(jobs) && (forall j :: j in jobs ==> j.id !in BilledJobIds(a))
            ==> ItemJobIdsDistinct(r)
  {
    forall x | x in BilledJobIds(r) ensures x in BilledJobIds(a) + set j | j in jobs :: j.id {
      var it :| it in r && it.jobId == x;
      var k :| 0 <= k < |r| && r[k] == it;
      if k < |a| { assert a[k] in a; } else { assert jobs[k - |a|] in jobs; }
    }
    forall x | x in BilledJobIds(a) + set j | j in jobs :: j.id ensures x in BilledJobIds(r) {
      if x in BilledJobIds(a) {
        var it :| it in a && it.jobId == x;
        var k :| 0 <= k < |a| && a[k] == it;
        assert r[k] in r;
      } else {
        var j :| j in jobs && j.id == x;
        var i :| 0 <= i < |jobs| && jobs[i] == j;
        assert r[|a| + i] in r;
      }
    }
    if ItemJobIdsDistinct(a) && JobIdsDistinctIn(jobs) && (forall j :: j in jobs ==> j.id !in BilledJobIds(a)) {
      forall p, q | 0 <= p < q < |r| ensures r[p].jobId != r[q].jobId {
        if q < |a| {
          assert r[p].jobId == a[p].jobId && r[q].jobId == a[q].jobId;
        } else if p < |a| {
          assert a[p] in a;
          assert jobs[q - |a|] in jobs;
        } else {
          assert r[p].jobId == jobs[p - |a|].id && r[q].jobId == jobs[q - |a|].id;
        }
      }
    }
  }

  // ---------------------------------------------------------------------
  // The loop over the companies.
  // ---------------------------------------------------------------------

  /** `for (const [companyId, companyJobs] of byCompany.entries())`: one billing step per company, in order. */
  function BillAll(s: Store, companies: seq<nat>, toBill: seq<Job>, monthYear: string, fee: int, now: nat): (r: Store)
    ensures r.jobs == s.jobs
    ensures |r.items| >= |s.items|
    ensures forall k :: 0 <= k < |s.items| ==>
              r.items[k].jobId == s.items[k].jobId && r.items[k].amount == s.items[k].amount
    decreases |companies|
  {
    if |companies| == 0 then s
    else
      var s1 := BillCompany(s, companies[0], monthYear, JobsOfCompany(toBill, companies[0]), fee, now);
      BillAll(s1, companies[1..], toBill, monthYear, fee, now)
  }

  lemma {:induction false} BillAllWellFormed(s: Store, companies: seq<nat>, toBill: seq<Job>, monthYear: string, fee: int, now: nat)
    requires WellFormed(s)
    ensures WellFormed(BillAll(s, companies, toBill, monthYear, fee, now))
    decreases |companies|
  {
    if |companies| > 0 {
      var s1 := BillCompany(s, companies[0], monthYear, JobsOfCompany(toBill, companies[0]), fee, now);
      BillCompanyWellFormed(s, companies[0], monthYear, JobsOfCompany(toBill, companies[0]), fee, now);
      BillAllWellFormed(s1, companies[1..], toBill, monthYear, fee, now);
    }
  }

  /** Billing other companies never un-bills a job. */
  lemma {:induction false} BillAllKeeps(s: Store, companies: seq<nat>, toBill: seq<Job>, monthYear: string, fee: int, now: nat, j: Job)
    requires WellFormed(s)
    requires j.companyId !in companies && BilledOn(s, j, monthYear, fee)
    ensures BilledOn(BillAll(s, companies, toBill, monthYear, fee, now), j, monthYear, fee)
    decreases |companies|
  {
    if |companies| > 0 {
      var jobsC := JobsOfCompany(toBill, companies[0]);
      var s1 := BillCompany(s, companies[0], monthYear, jobsC, fee, now);
      BillCompanyWellFormed(s, companies[0], monthYear, jobsC, fee, now);
      BillCompanyKeeps(s, companies[0], monthYear, jobsC, fee, now, j);
      BillAllKeeps(s1, companies[1..], toBill, monthYear, fee, now, j);
    }
  }

  /** Every job of a listed company ends up billed, on that company's single invoice of the month. */
  lemma {:induction false} BillAllBills(s: Store, companies: seq<nat>, toBill: seq<Job>, monthYear: string, fee: int, now: nat)
    requires WellFormed(s) && Seqs.NoDups(companies)
    ensures forall j :: j in toBill && j.companyId in companies ==>
              BilledOn(BillAll(s, companies, toBill, monthYear, fee, now), j, monthYear, fee)
    decreases |companies|
  {
    if |companies| > 0 {
      var c := companies[0];
      var rest := companies[1..];
      var jobsC := JobsOfCompany(toBill, c);
      var s1 := BillCompany(s, c, monthYear, jobsC, fee, now);
      BillCompanyWellFormed(s, c, monthYear, jobsC, fee, now);
      BillCompanyBills(s, c, monthYear, jobsC, fee, now);
      Seqs.NoDupsTail(companies);
      BillAllBills(s1, rest, toBill, monthYear, fee, now);
      forall j | j in toBill && j.companyId in companies
        ensures BilledOn(BillAll(s, companies, toBill, monthYear, fee, now), j, monthYear, fee)
      {
        if j.companyId == c {
          BillAllKeeps(s1, rest, toBill, monthYear, fee, now, j);
        }
      }
    }
  }

  /** The ids of the jobs of the listed companies. */
  function IdsOfCompanies(toBill: seq<Job>, companies: seq<nat>): set<nat> {
    set j | j in toBill && j.companyId in companies :: j.id
  }

  /** A billing step adds exactly the ids of its jobs to the billed set, and bills none of them twice. */
  lemma BillCompanyJobIds(s: Store, c: nat, monthYear: string, jobs: seq<Job>, fee: int, now: nat)
    ensures BilledJobIds(BillCompany(s, c, monthYear, jobs, fee, now).items) == BilledJobIds(s.items) + set j | j in jobs :: j.id
    ensures ItemJobIdsDistinct(s.items) && JobIdsDistinctIn(jobs) && (forall j :: j in jobs ==> j.id !in BilledJobIds(s.items))
            ==> ItemJobIdsDistinct(BillCompany(s, c, monthYear, jobs, fee, now).items)
  {
    ExtendedJobIds(s.items, BillCompany(s, c, monthYear, jobs, fee, now).items, jobs);
  }

  /** The loop adds exactly the jobs of the listed companies to the billed set. */
  lemma {:induction false} BillAllBilledSet(s: Store, companies: seq<nat>, toBill: seq<Job>, monthYear: string, fee: int, now: nat)
    ensures BilledJobIds(BillAll(s, companies, toBill, monthYear, fee, now).items)
            == BilledJobIds(s.items) + IdsOfCompanies(toBill, companies)
    decreases |companies|
  {
    if |companies| > 0 {
      var c := companies[0];
      var jobsC := JobsOfCompany(toBill, c);
      var s1 := BillCompany(s, c, monthYear, jobsC, fee, now);
      BillCompanyJobIds(s, c, monthYear, jobsC, fee, now);
      BillAllBilledSet(s1, companies[1..], toBill, monthYear, fee, now);
      IdsOfCompaniesCons(toBill, companies);
    }
  }

  /**
   * No double billing across the loop: when the jobs to bill have distinct
   * ids and none is billed yet, no job ends up on two items.
   */
  lemma {:induction false} BillAllNoDoubleBilling(s: Store, companies: seq<nat>, toBill: seq<Job>, monthYear: string, fee: int, now: nat)
    requires ItemJobIdsDistinct(s.items) && JobIdsDistinctIn(toBill) && Seqs.NoDups(companies)
    requires forall j :: j in toBill && j.companyId in companies ==> j.id !in BilledJobIds(s.items)
    ensures ItemJobIdsDistinct(BillAll(s, companies, toBill, monthYear, fee, now).items)
    decreases |companies|
  {
    if |companies| > 0 {
      var c := companies[0];
      var jobsC := JobsOfCompany(toBill, c);
      var s1 := BillCompany(s, c, monthYear, jobsC, fee, now);
      FilterJobIds(toBill, (j: Job) => j.companyId == c);
      BillCompanyJobIds(s, c, monthYear, jobsC, fee, now);
      Seqs.NoDupsTail(companies);
      RestStillUnbilled(s.items, s1.items, companies, toBill);
      BillAllNoDoubleBilling(s1, companies[1..], toBill, monthYear, fee, now);
    }
  }

  lemma IdsOfCompaniesCons(toBill: seq<Job>, companies: seq<nat>)
    requires |companies| > 0
    ensures IdsOfCompanies(toBill, companies)
            == (set x | x in JobsOfCompany(toBill, companies[0]) :: x.id) + IdsOfCompanies(toBill, companies[1..])
  {
    assert forall c :: c in companies <==> c == companies[0] || c in companies[1..];
  }

  /** After billing the first company, the jobs of the remaining companies are still unbilled. */
  lemma RestStillUnbilled(before: seq<InvoiceItem>, after: seq<InvoiceItem>, companies: seq<nat>, toBill: seq<Job>)
    requires |companies| > 0 && companies[0] !in companies[1..]
    requires JobIdsDistinctIn(toBill)
    requires forall j :: j in toBill && j.companyId in companies ==> j.id !in BilledJobIds(before)
    requires BilledJobIds(after) == BilledJobIds(before) + set j | j in JobsOfCompany(toBill, companies[0]) :: j.id
    ensures forall j :: j in toBill && j.companyId in companies[1..] ==> j.id !in BilledJobIds(after)
  {
    var jobsC := JobsOfCompany(toBill, companies[0]);
    forall j | j in toBill && j.companyId in companies[1..] ensures j.id !in BilledJobIds(after) {
      assert j.companyId in companies;
      if j.id in set x | x in jobsC :: x.id {
        var x :| x in jobsC && x.id == j.id;
        SameIdSameJob(toBill, x, j);
      }
    }
  }

  /** The no-new-jobs branch: `mergeDuplicateInvoices` for every company of the month's done jobs. */
  function MergeAll(s: Store, companies: seq<nat>, monthYear: string): (r: Store)
    ensures r.jobs == s.jobs
    ensures |r.items| == |s.items|
    ensures forall k :: 0 <= k < |s.items| ==>
              r.items[k].jobId == s.items[k].jobId && r.items[k].amount == s.items[k].amount
    decreases |companies|
  {
    if |companies| == 0 then s
    else MergeAll(Merge.Merge(s, companies[0], monthYear).store, companies[1..], monthYear)
  }

  /** Merging every listed company leaves each of them with at most one invoice for the month, and keeps the invariants. */
  lemma {:induction false} MergeAllSpec(s: Store, companies: seq<nat>, monthYear: string)
    requires WellFormed(s)
    ensures WellFormed(MergeAll(s, companies, monthYear))
    ensures ItemJobIdsDistinct(s.items) ==> ItemJobIdsDistinct(MergeAll(s, companies, monthYear).items)
    ensures forall c :: c in companies ==> |Merge.ForPair(MergeAll(s, companies, monthYear).invoices, c, monthYear)| <= 1
    decreases |companies|
  {
    if |companies| > 0 {
      var c := companies[0];
      var s1 := Merge.Merge(s, c, monthYear).store;
      Merge.MergeWellFormed(s, c, monthYear);
      Merge.MergePair(s, c, monthYear);
      MergeAllSpec(s1, companies[1..], monthYear);
      MergeAllKeepsSingle(s1, companies[1..], monthYear, c);
    }
  }

  /** Once a pair has at most one invoice, later merges keep it so. */
  lemma {:induction false} MergeAllKeepsSingle(s: Store, companies: seq<nat>, monthYear: string, c: nat)
    requires WellFormed(s)
    requires |Merge.ForPair(s.invoices, c, monthYear)| <= 1
    ensures |Merge.ForPair(MergeAll(s, companies, monthYear).invoices, c, monthYear)| <= 1
    decreases |companies|
  {
    if |companies| > 0 {
      var s1 := Merge.Merge(s, companies[0], monthYear).store;
      Merge.MergeWellFormed(s, companies[0], monthYear);
      if companies[0] == c {
        Merge.MergePair(s, c, monthYear);
      } else {
        Merge.MergeFrame(s, companies[0], monthYear, c, monthYear);
      }
      MergeAllKeepsSingle(s1, companies[1..], monthYear, c);
    }
  }

  /** Every invoice of another month survives a billing loop unchanged. */
  lemma {:induction false} BillAllOtherMonth(s: Store, companies: seq<nat>, toBill: seq<Job>, monthYear: string, fee: int, now: nat, c': nat, m': string)
    requires WellFormed(s) && m' != monthYear
    ensures Merge.ForPair(BillAll(s, companies, toBill, monthYear, fee, now).invoices, c', m') == Merge.ForPair(s.invoices, c', m')
    decreases |companies|
  {
    if |companies| > 0 {
      var jobsC := JobsOfCompany(toBill, companies[0]);
      var s1 := BillCompany(s, companies[0], monthYear, jobsC, fee, now);
      BillCompanyWellFormed(s, companies[0], monthYear, jobsC, fee, now);
      BillCompanyOtherMonth(s, companies[0], monthYear, jobsC, fee, now, c', m');
      BillAllOtherMonth(s1, companies[1..], toBill, monthYear, fee, now, c', m');
    }
  }

  /** Every invoice of another month survives a merge loop unchanged. */
  lemma {:induction false} MergeAllOtherMonth(s: Store, companies: seq<nat>, monthYear: string, c': nat, m': string)
    requires WellFormed(s) && m' != monthYear
    ensures Merge.ForPair(MergeAll(s, companies, monthYear).invoices, c', m') == Merge.ForPair(s.invoices, c', m')
    decreases |companies|
  {
    if |companies| > 0 {
      Merge.MergeWellFormed(s, companies[0], monthYear);
      Merge.MergeFrame(s, companies[0], monthYear, c', m');
      MergeAllOtherMonth(Merge.Merge(s, companies[0], monthYear).store, companies[1..], monthYear, c', m');
    }
  }

  // ---------------------------------------------------------------------
  // The request handler.
  // ---------------------------------------------------------------------

  /** The month's done jobs, in table order. */
  function DoneJobs(jobs: seq<Job>, y: int, m: int): (r: seq<Job>)
    requires 1 <= m <= 12
    ensures forall j :: j in r <==> j in jobs && DoneInMonth(j, y, m)
  {
    Seqs.Filter(jobs, (j: Job) => DoneInMonth(j, y, m))
  }

  /** The month's done jobs that no item bills yet (`jobsToInvoice`). */
  function ToBill(s: Store, y: int, m: int): (r: seq<Job>)
    requires 1 <= m <= 12
    ensures forall j :: j in r <==> j in s.jobs && DoneInMonth(j, y, m) && j.id !in BilledJobIds(s.items)
  {
    Seqs.Filter(DoneJobs(s.jobs, y, m), (j: Job) => j.id !in BilledJobIds(s.items))
  }

  /** A month key that `parseISO` cannot read makes the handler fail before it touches the store. */
  datatype GenerateError = InvalidMonth

  /** The new store and the JSON body `{ generatedCount, message }`. */
  datatype GenerateOutput = GenerateOutput(store: Store, generatedCount: nat, message: string)

  const NoDoneJobsMessage: string := "No done jobs found for this month"
  const MergedOnlyMessage: string := "No new jobs to invoice. Duplicates (if any) were merged."

  /**
   * `POST /api/invoices/generate` with body `{ monthYear }`, net fee `fee`
   * in cents and clock `now` in milliseconds.  The count is the number of
   * companies with new jobs: one invoice each, created or updated.
   */
  function Generate(s: Store, monthYear: string, fee: int, now: nat): (r: Result<GenerateOutput, GenerateError>)
    ensures r.Err? <==> Calendar.ParseMonthYear(monthYear).None?
    ensures r.Ok? ==> r.value.store.jobs == s.jobs
    ensures r.Ok? ==> |r.value.store.items| >= |s.items|
    ensures r.Ok? ==> forall k :: 0 <= k < |s.items| ==>
              r.value.store.items[k].jobId == s.items[k].jobId && r.value.store.items[k].amount == s.items[k].amount
    ensures r.Ok? ==>
              var (y, m) := Calendar.ParseMonthYear(monthYear).value;
              && r.value.generatedCount == |set j | j in ToBill(s, y, m) :: j.companyId|
              && (|DoneJobs(s.jobs, y, m)| == 0 ==> r.value.store == s)
              && (|ToBill(s, y, m)| == 0 ==> |r.value.store.items| == |s.items|)
  {
    match Calendar.ParseMonthYear(monthYear)
    case None => Err(InvalidMonth)
    case Some((y, m)) =>
      var done := DoneJobs(s.jobs, y, m);
      var todo := ToBill(s, y, m);
      if |done| == 0 then
        assert todo == [];
        Ok(GenerateOutput(s, 0, NoDoneJobsMessage))
      else if |todo| == 0 then
        assert (set j | j in todo :: j.companyId) == {};
        Ok(GenerateOutput(MergeAll(s, CompaniesOf(done), monthYear), 0, MergedOnlyMessage))
      else
        var companies := CompaniesOf(todo);
        Ok(GenerateOutput(BillAll(s, companies, todo, monthYear, fee, now), |companies|,
                          "Updated/created " + Text.NatToString(|companies|) + " invoices"))
  }

  /**
   * Every done job of the month that was not billed before is billed
   * afterwards, at the fee, on the single invoice of its company and month.
   */
  lemma GenerateBillsNewJobs(s: Store, monthYear: string, fee: int, now: nat)
    requires WellFormed(s) && Calendar.ParseMonthYear(monthYear).Some?
    ensures var (y, m) := Calendar.ParseMonthYear(monthYear).value;
            forall j :: j in s.jobs && DoneInMonth(j, y, m) && j.id !in BilledJobIds(s.items) ==>
              BilledOn(Generate(s, monthYear, fee, now).value.store, j, monthYear, fee)
  {
    var (y, m) := Calendar.ParseMonthYear(monthYear).value;
    var todo := ToBill(s, y, m);
    if |todo| > 0 {
      BillAllBills(s, CompaniesOf(todo), todo, monthYear, fee, now);
    }
  }

  /** The billing branch of generation: the loop over the companies of the new jobs. */
  lemma BillingBranch(s: Store, y: int, m: int, monthYear: string, fee: int, now: nat)
    requires WellFormed(s) && 1 <= m <= 12
    ensures var todo := ToBill(s, y, m);
            var r := BillAll(s, CompaniesOf(todo), todo, monthYear, fee, now);
            && WellFormed(r)
            && BilledJobIds(r.items) == BilledJobIds(s.items) + (set j | j in todo :: j.id)
            && (ItemJobIdsDistinct(s.items) ==> ItemJobIdsDistinct(r.items))
  {
    var todo := ToBill(s, y, m);
    var companies := CompaniesOf(todo);
    BillAllWellFormed(s, companies, todo, monthYear, fee, now);
    BillAllBilledSet(s, companies, todo, monthYear, fee, now);
    AllCompaniesListed(todo);
    if ItemJobIdsDistinct(s.items) {
      ToBillDistinct(s, y, m);
      BillAllNoDoubleBilling(s, companies, todo, monthYear, fee, now);
    }
  }

  /** Listing every company of the jobs selects all of their ids. */
  lemma AllCompaniesListed(todo: seq<Job>)
    ensures IdsOfCompanies(todo, CompaniesOf(todo)) == set j | j in todo :: j.id
  {
    var companies := CompaniesOf(todo);
    assert forall j :: j in todo ==> j.companyId in companies;
  }

  /** The jobs to bill have distinct ids, since the jobs table does. */
  lemma ToBillDistinct(s: Store, y: int, m: int)
    requires WellFormed(s) && 1 <= m <= 12
    ensures JobIdsDistinctIn(ToBill(s, y, m))
  {
    var done := DoneJobs(s.jobs, y, m);
    FilterJobIds(s.jobs, (j: Job) => DoneInMonth(j, y, m));
    assert JobIdsDistinctIn(done);
    FilterJobIds(done, (j: Job) => j.id !in BilledJobIds(s.items));
  }

  /**
   * Generation bills exactly the month's unbilled done jobs: the billed set
   * grows by their ids and nothing else, no job is billed twice, and the
   * primary-key invariants hold.
   */
  lemma GenerateNoDoubleBilling(s: Store, monthYear: string, fee: int, now: nat)
    requires WellFormed(s) && Calendar.ParseMonthYear(monthYear).Some?
    ensures var (y, m) := Calendar.ParseMonthYear(monthYear).value;
            var r := Generate(s, monthYear, fee, now).value.store;
            && WellFormed(r)
            && BilledJobIds(r.items) == BilledJobIds(s.items) + (set j | j in ToBill(s, y, m) :: j.id)
            && (ItemJobIdsDistinct(s.items) ==> ItemJobIdsDistinct(r.items))
  {
    var (y, m) := Calendar.ParseMonthYear(monthYear).value;
    var done := DoneJobs(s.jobs, y, m);
    var todo := ToBill(s, y, m);
    var r := Generate(s, monthYear, fee, now).value.store;
    if |done| == 0 {
      assert todo == [];
    } else if |todo| == 0 {
      MergeAllSpec(s, CompaniesOf(done), monthYear);
      ExtendedJobIds(s.items, r.items, []);
    } else {
      BillingBranch(s, y, m, monthYear, fee, now);
    }
  }

  /** A second run for the same month finds nothing new to bill and adds no item. */
  lemma GenerateRerun(s: Store, monthYear: string, fee: int, now: nat, later: nat)
    requires WellFormed(s) && Calendar.ParseMonthYear(monthYear).Some?
    ensures var r := Generate(s, monthYear, fee, now).value.store;
            && Generate(r, monthYear, fee, later).value.generatedCount == 0
            && |Generate(r, monthYear, fee, later).value.store.items| == |r.items|
  {
    var (y, m) := Calendar.ParseMonthYear(monthYear).value;
    var r := Generate(s, monthYear, fee, now).value.store;
    GenerateNoDoubleBilling(s, monthYear, fee, now);
    var todo := ToBill(s, y, m);
    forall j | j in s.jobs && DoneInMonth(j, y, m) ensures j.id in BilledJobIds(r.items) {
      if j.id !in BilledJobIds(s.items) {
        assert j in todo;
      }
    }
    var again := ToBill(r, y, m);
    assert forall j :: j !in again;
    assert (set j | j in again :: j.companyId) == {};
  }

  /** Generating one month never changes an invoice of another month. */
  lemma GenerateOtherMonth(s: Store, monthYear: string, fee: int, now: nat, c': nat, m': string)
    requires WellFormed(s) && Calendar.ParseMonthYear(monthYear).Some? && m' != monthYear
    ensures Merge.ForPair(Generate(s, monthYear, fee, now).value.store.invoices, c', m') == Merge.ForPair(s.invoices, c', m')
  {
    var (y, m) := Calendar.ParseMonthYear(monthYear).value;
    var done := DoneJobs(s.jobs, y, m);
    var todo := ToBill(s, y, m);
    if |done| > 0 && |todo| == 0 {
      MergeAllOtherMonth(s, CompaniesOf(done), monthYear, c', m');
    } else if |done| > 0 {
      BillAllOtherMonth(s, CompaniesOf(todo), todo, monthYear, fee, now, c', m');
    }
  }

  /** When every done job is billed already, each of their companies is left with at most one invoice for the month. */
  lemma GenerateMergesOnly(s: Store, monthYear: string, fee: int, now: nat)
    requires WellFormed(s) && Calendar.ParseMonthYear(monthYear).Some?
    ensures var (y, m) := Calendar.ParseMonthYear(monthYear).value;
            var r := Generate(s, monthYear, fee, now).value;
            |ToBill(s, y, m)| == 0 ==>
              && r.generatedCount == 0
              && forall j :: j in s.jobs && DoneInMonth(j, y, m) ==>
                   |Merge.ForPair(r.store.invoices, j.companyId, monthYear)| <= 1
  {
    var (y, m) := Calendar.ParseMonthYear(monthYear).value;
    var done := DoneJobs(s.jobs, y, m);
    if |done| > 0 && |ToBill(s, y, m)| == 0 {
      MergeAllSpec(s, CompaniesOf(done), monthYear);
      forall j | j in s.jobs && DoneInMonth(j, y, m)
        ensures j.companyId in CompaniesOf(done)
      {
        assert j in done;
      }
    }
  }

  // ---------------------------------------------------------------------
  // The fee.
  // ---------------------------------------------------------------------

  /** The settings object of the storage layer (fees in cents, VAT in percent). */
  datatype Settings = Settings(standardProvision: Option<int>, defaultReferralFee: int, vatRate: int, cancelFeeNet: int)

  /** `storage.getSettings()`: a fixed stub, which has no `standardProvision` key. */
  function SettingsStub(): Settings {
    Settings(None, Money.DefaultFeeNet, Money.VatPercent, Money.CancelFeeNet)
  }

  /**
   * `Number(settings?.standardProvision ?? DEFAULT_FEE_NET)`: the configured
   * provision when the settings have one, else 49.00; a failed settings
   * lookup (`null`) counts as none.
   */
  function EffectiveFee(settings: Option<Settings>): (fee: int)
    ensures settings.Some? && settings.value.standardProvision.Some? ==> fee == settings.value.standardProvision.value
    ensures (settings.None? || settings.value.standardProvision.None?) ==> fee == 4900
  {
    match settings
    case None => Money.DefaultFeeNet
    case Some(st) => st.standardProvision.GetOr(Money.DefaultFeeNet)
  }

  /**
   * With the stub settings every job is billed at 49.00, and the
   * `defaultReferralFee` setting has no influence on the fee.
   */
  lemma StubFee(x: int)
    ensures EffectiveFee(Some(SettingsStub())) == Money.DefaultFeeNet
    ensures EffectiveFee(Some(SettingsStub().(defaultReferralFee := x))) == Money.DefaultFeeNet
  {
  }
}
