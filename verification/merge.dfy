/**
 * Duplicate-invoice repair (server/routes.ts `mergeDuplicateInvoices`):
 * among the invoices of one (company, month) the newest by `createdAt`
 * becomes the master, every item of the others is re-pointed to it, the
 * others are deleted and the master's total is recomputed.
 */
module Merge {
  import opened Wrappers
  import opened Schema
  import Totals
  import Money

  /** The invoice belongs to company `c` and month key `m`. */
  predicate OfPair(inv: Invoice, c: nat, m: string) {
    inv.companyId == c && inv.monthYear == m
  }

  /** The invoices of (c, m) in store order (`WHERE company_id = c AND month_year = m`). */
  function ForPair(invs: seq<Invoice>, c: nat, m: string): (g: seq<Invoice>)
    ensures |g| <= |invs|
    ensures forall x :: x in g <==> x in invs && OfPair(x, c, m)
    decreases |invs|
  {
    if |invs| == 0 then []
    else (if OfPair(invs[0], c, m) then [invs[0]] else []) + ForPair(invs[1..], c, m)
  }

  /** The ids of a list of invoices. */
  function IdsOf(invs: seq<Invoice>): set<nat> {
    set x | x in invs :: x.id
  }

  /**
   * `a` sorts no later than `b` under `ORDER BY created_at DESC`; PostgreSQL
   * sorts NULLs first in descending order, so a row without `createdAt` counts
   * as the newest.
   */
  predicate NewerOrSame(a: Invoice, b: Invoice) {
    match a.createdAt
    case None => true
    case Some(ta) => b.createdAt.Some? && ta >= b.createdAt.value
  }

  /** The first row of the descending `createdAt` order: an invoice at least as new as every other one. */
  function Newest(g: seq<Invoice>): (r: Invoice)
    requires |g| > 0
    ensures r in g
    ensures forall x :: x in g ==> NewerOrSame(r, x)
    decreases |g|
  {
    if |g| == 1 then g[0]
    else
      var rest := Newest(g[1..]);
      assert forall x :: x in g ==> x == g[0] || x in g[1..];
      if NewerOrSame(g[0], rest) then g[0] else rest
  }

  /** The invoices whose id is not in `ids` (`DELETE FROM invoices WHERE id = dup.id`, for every dup). */
  function RemoveIds(invs: seq<Invoice>, ids: set<nat>): (r: seq<Invoice>)
    ensures |r| <= |invs|
    ensures forall x :: x in r <==> x in invs && x.id !in ids
    decreases |invs|
  {
    if |invs| == 0 then []
    else (if invs[0].id in ids then [] else [invs[0]]) + RemoveIds(invs[1..], ids)
  }

  /** One item after `UPDATE invoice_items SET invoice_id = target WHERE invoice_id IN ids`. */
  function RepointItem(it: InvoiceItem, ids: set<nat>, target: nat): InvoiceItem {
    if it.invoiceId in ids then it.(invoiceId := target) else it
  }

  /** Every item of an invoice in `ids` now belongs to `target`; nothing else about any item changes. */
  function Repoint(items: seq<InvoiceItem>, ids: set<nat>, target: nat): (r: seq<InvoiceItem>)
    ensures |r| == |items|
    ensures forall k :: 0 <= k < |items| ==> r[k] == RepointItem(items[k], ids, target)
    decreases |items|
  {
    if |items| == 0 then []
    else [RepointItem(items[0], ids, target)] + Repoint(items[1..], ids, target)
  }

  /** The store after the merge and the master it returns (`null` when the pair has no invoice). */
  datatype MergeResult = MergeResult(store: Store, master: Option<Invoice>)

  /**
   * `mergeDuplicateInvoices(c, m)`.  With at most one invoice for the pair
   * nothing changes and that invoice (or none) is returned; otherwise the
   * newest one is the master and absorbs the items of the others.
   */
  function Merge(s: Store, c: nat, m: string): (r: MergeResult)
    ensures r.store.jobs == s.jobs
    ensures r.store.nextInvoiceId == s.nextInvoiceId && r.store.nextItemId == s.nextItemId
    ensures |ForPair(s.invoices, c, m)| == 0 ==> r == MergeResult(s, None)
    ensures |ForPair(s.invoices, c, m)| == 1 ==> r == MergeResult(s, Some(ForPair(s.invoices, c, m)[0]))
    ensures r.master.Some? ==> r.master.value in ForPair(s.invoices, c, m)
    ensures r.master.Some? ==> forall x :: x in ForPair(s.invoices, c, m) ==> NewerOrSame(r.master.value, x)
    ensures |ForPair(s.invoices, c, m)| > 0 ==> r.master.Some?
    ensures |r.store.items| == |s.items|
    ensures forall k :: 0 <= k < |s.items| ==>
              && r.store.items[k].jobId == s.items[k].jobId
              && r.store.items[k].amount == s.items[k].amount
              && r.store.items[k].id == s.items[k].id
    ensures r.master.Some? ==> forall k :: 0 <= k < |s.items| ==>
              r.store.items[k].invoiceId ==
                (if s.items[k].invoiceId in IdsOf(ForPair(s.invoices, c, m)) then r.master.value.id
                 else s.items[k].invoiceId)
  {
    var g := ForPair(s.invoices, c, m);
    if |g| <= 1 then
      assert |g| == 1 ==> IdsOf(g) == {g[0].id};
      MergeResult(s, if |g| == 0 then None else Some(g[0]))
    else
      var master := Newest(g);
      var dups := IdsOf(g) - {master.id};
      RepointGroup(s.items, g, master);
      var s1 := s.(invoices := RemoveIds(s.invoices, dups), items := Repoint(s.items, dups, master.id));
      MergeResult(Totals.Recalc(s1, master.id), Some(master))
  }

  /**
   * Re-pointing the duplicates of a group to its master moves every item of
   * the group to the master and changes nothing else about any item.
   */
  lemma RepointGroup(items: seq<InvoiceItem>, g: seq<Invoice>, master: Invoice)
    requires master in g
    ensures var r := Repoint(items, IdsOf(g) - {master.id}, master.id);
            && |r| == |items|
            && forall k :: 0 <= k < |items| ==>
                 && r[k].jobId == items[k].jobId && r[k].amount == items[k].amount && r[k].id == items[k].id
                 && r[k].invoiceId == (if items[k].invoiceId in IdsOf(g) then master.id else items[k].invoiceId)
  {
    var dups := IdsOf(g) - {master.id};
    var r := Repoint(items, dups, master.id);
    assert master.id in IdsOf(g);
    forall k | 0 <= k < |items|
      ensures r[k].invoiceId == (if items[k].invoiceId in IdsOf(g) then master.id else items[k].invoiceId)
    {
      assert r[k] == RepointItem(items[k], dups, master.id);
    }
  }

  // ---------------------------------------------------------------------
  // Facts about identifiers.
  // ---------------------------------------------------------------------

  /** Under the primary key two rows with the same id are the same row. */
  lemma SameIdSameInvoice(invs: seq<Invoice>, x: Invoice, y: Invoice)
    requires InvoiceIdsDistinct(invs) && x in invs && y in invs && x.id == y.id
    ensures x == y
  {
    var i :| 0 <= i < |invs| && invs[i] == x;
    var j :| 0 <= j < |invs| && invs[j] == y;
    assert i == j;
  }

  lemma {:induction false} DistinctCons(x: Invoice, r: seq<Invoice>)
    requires InvoiceIdsDistinct(r)
    requires forall y :: y in r ==> y.id != x.id
    ensures InvoiceIdsDistinct([x] + r)
  {
    var t := [x] + r;
    forall i, j | 0 <= i < j < |t| ensures t[i].id != t[j].id {
      if i == 0 {
        assert t[j] == r[j - 1];
      } else {
        assert t[i] == r[i - 1] && t[j] == r[j - 1];
      }
    }
  }

  lemma DistinctTail(invs: seq<Invoice>)
    requires |invs| > 0 && InvoiceIdsDistinct(invs)
    ensures InvoiceIdsDistinct(invs[1..])
    ensures forall y :: y in invs[1..] ==> y.id != invs[0].id
  {
    forall y | y in invs[1..] ensures y.id != invs[0].id {
      var j :| 0 <= j < |invs[1..]| && invs[1..][j] == y;
      assert invs[j + 1] == y;
    }
  }

  /** The invoices of one pair have distinct ids. */
  lemma {:induction false} ForPairDistinct(invs: seq<Invoice>, c: nat, m: string)
    requires InvoiceIdsDistinct(invs)
    ensures InvoiceIdsDistinct(ForPair(invs, c, m))
    decreases |invs|
  {
    if |invs| > 0 {
      DistinctTail(invs);
      ForPairDistinct(invs[1..], c, m);
      if OfPair(invs[0], c, m) {
        DistinctCons(invs[0], ForPair(invs[1..], c, m));
      }
    }
  }

  /** Deleting rows keeps the remaining ids distinct. */
  lemma {:induction false} RemoveIdsDistinct(invs: seq<Invoice>, ids: set<nat>)
    requires InvoiceIdsDistinct(invs)
    ensures InvoiceIdsDistinct(RemoveIds(invs, ids))
    decreases |invs|
  {
    if |invs| > 0 {
      DistinctTail(invs);
      RemoveIdsDistinct(invs[1..], ids);
      if invs[0].id !in ids {
        DistinctCons(invs[0], RemoveIds(invs[1..], ids));
      }
    }
  }

  // ---------------------------------------------------------------------
  // How selecting a pair commutes with deleting and updating rows.
  // ---------------------------------------------------------------------

  lemma {:induction false} ForPairRemove(invs: seq<Invoice>, ids: set<nat>, c: nat, m: string)
    ensures ForPair(RemoveIds(invs, ids), c, m) == RemoveIds(ForPair(invs, c, m), ids)
    decreases |invs|
  {
    if |invs| > 0 {
      ForPairRemove(invs[1..], ids, c, m);
      var x := invs[0];
      var rest := RemoveIds(invs[1..], ids);
      var gr := ForPair(invs[1..], c, m);
      if x.id in ids {
        assert RemoveIds(invs, ids) == rest;
        if OfPair(x, c, m) {
          assert ForPair(invs, c, m) == [x] + gr;
          assert ([x] + gr)[1..] == gr;
        } else {
          assert ForPair(invs, c, m) == gr;
        }
      } else {
        assert RemoveIds(invs, ids) == [x] + rest;
        assert ([x] + rest)[1..] == rest;
        if OfPair(x, c, m) {
          assert ForPair(invs, c, m) == [x] + gr;
          assert ([x] + gr)[1..] == gr;
        } else {
          assert ForPair(invs, c, m) == gr;
        }
      }
    }
  }

  lemma {:induction false} ForPairSetTotal(invs: seq<Invoice>, id: nat, t: int, c: nat, m: string)
    ensures ForPair(Totals.SetTotal(invs, id, t), c, m) == Totals.SetTotal(ForPair(invs, c, m), id, t)
    decreases |invs|
  {
    if |invs| > 0 {
      ForPairSetTotal(invs[1..], id, t, c, m);
      var st := Totals.SetTotal(invs, id, t);
      assert st[1..] == Totals.SetTotal(invs[1..], id, t);
      var gr := ForPair(invs[1..], c, m);
      if OfPair(invs[0], c, m) {
        assert ForPair(invs, c, m) == [invs[0]] + gr;
        assert ([invs[0]] + gr)[1..] == gr;
      } else {
        assert ForPair(invs, c, m) == gr;
      }
    }
  }

  /** Appending a row adds it to its own pair and to no other. */
  lemma {:induction false} ForPairAppend(invs: seq<Invoice>, x: Invoice, c: nat, m: string)
    ensures ForPair(invs + [x], c, m) == ForPair(invs, c, m) + (if OfPair(x, c, m) then [x] else [])
    decreases |invs|
  {
    if |invs| == 0 {
      assert invs + [x] == [x];
      assert ForPair([x], c, m) == (if OfPair(x, c, m) then [x] else []) + ForPair([], c, m);
    } else {
      assert (invs + [x])[1..] == invs[1..] + [x];
      ForPairAppend(invs[1..], x, c, m);
    }
  }

  /** Under distinct ids, invoices of two different pairs never share an id. */
  lemma PairIdsDisjoint(invs: seq<Invoice>, c1: nat, m1: string, c2: nat, m2: string)
    requires InvoiceIdsDistinct(invs)
    requires !(c1 == c2 && m1 == m2)
    ensures forall x, y :: x in ForPair(invs, c1, m1) && y in ForPair(invs, c2, m2) ==> x.id != y.id
  {
    forall x, y | x in ForPair(invs, c1, m1) && y in ForPair(invs, c2, m2) ensures x.id != y.id {
      if x.id == y.id { SameIdSameInvoice(invs, x, y); }
    }
  }

  lemma {:induction false} RemoveIdsNone(invs: seq<Invoice>, ids: set<nat>)
    requires forall x :: x in invs ==> x.id !in ids
    ensures RemoveIds(invs, ids) == invs
    decreases |invs|
  {
    if |invs| > 0 {
      RemoveIdsNone(invs[1..], ids);
      assert invs == [invs[0]] + invs[1..];
    }
  }

  lemma SetTotalNone(invs: seq<Invoice>, id: nat, t: int)
    requires forall x :: x in invs ==> x.id != id
    ensures Totals.SetTotal(invs, id, t) == invs
  {
    var r := Totals.SetTotal(invs, id, t);
    assert forall k :: 0 <= k < |invs| ==> r[k] == invs[k];
  }

  lemma {:induction false} RemoveIdsAll(invs: seq<Invoice>, ids: set<nat>)
    requires forall x :: x in invs ==> x.id in ids
    ensures RemoveIds(invs, ids) == []
    decreases |invs|
  {
    if |invs| > 0 {
      RemoveIdsAll(invs[1..], ids);
    }
  }

  /** Deleting every id of a duplicate-free group but the master's leaves the master alone. */
  lemma {:induction false} RemoveAllButOne(g: seq<Invoice>, ids: set<nat>, master: Invoice)
    requires InvoiceIdsDistinct(g) && master in g && master.id !in ids
    requires forall x :: x in g && x != master ==> x.id in ids
    ensures RemoveIds(g, ids) == [master]
    decreases |g|
  {
    DistinctTail(g);
    if g[0] == master {
      RemoveIdsAll(g[1..], ids);
    } else {
      RemoveAllButOne(g[1..], ids, master);
    }
  }

  /** Sums over two item lists agree when the lists pair up item by item. */
  lemma {:induction false} ItemsNetMatch(a: seq<InvoiceItem>, b: seq<InvoiceItem>, ia: set<nat>, ib: set<nat>)
    requires |a| == |b|
    requires forall k :: 0 <= k < |a| ==> (a[k].invoiceId in ia <==> b[k].invoiceId in ib)
    requires forall k :: 0 <= k < |a| ==> a[k].amount == b[k].amount
    ensures Totals.ItemsNetIn(a, ia) == Totals.ItemsNetIn(b, ib)
    decreases |a|
  {
    if |a| > 0 {
      ItemsNetMatch(a[1..], b[1..], ia, ib);
    }
  }

  // ---------------------------------------------------------------------
  // What a merge does to the invoices.
  // ---------------------------------------------------------------------

  /** The invoices after a merge of a pair with two or more invoices, spelled out. */
  lemma MergeShape(s: Store, c: nat, m: string)
    requires |ForPair(s.invoices, c, m)| >= 2
    ensures var g := ForPair(s.invoices, c, m);
            var master := Newest(g);
            var dups := IdsOf(g) - {master.id};
            var t := Money.Gross(Totals.ItemsNetIn(s.items, IdsOf(g)));
            && Merge(s, c, m).master == Some(master)
            && Merge(s, c, m).store.invoices == Totals.SetTotal(RemoveIds(s.invoices, dups), master.id, t)
  {
    var g := ForPair(s.invoices, c, m);
    var master := Newest(g);
    var dups := IdsOf(g) - {master.id};
    var items1 := Repoint(s.items, dups, master.id);
    ItemsNetMatch(items1, s.items, {master.id}, IdsOf(g));
  }

  /** Deleting all of a group but its master and updating the master's total leaves the group as that one row. */
  lemma {:induction false} CollapseGroup(invs: seq<Invoice>, c: nat, m: string, master: Invoice, t: int)
    requires InvoiceIdsDistinct(invs)
    requires master in ForPair(invs, c, m)
    ensures var dups := IdsOf(ForPair(invs, c, m)) - {master.id};
            ForPair(Totals.SetTotal(RemoveIds(invs, dups), master.id, t), c, m) == [master.(totalAmount := t)]
  {
    var g := ForPair(invs, c, m);
    var dups := IdsOf(g) - {master.id};
    var inv1 := RemoveIds(invs, dups);
    ForPairDistinct(invs, c, m);
    OthersAreDups(g, master);
    RemoveAllButOne(g, dups, master);
    calc {
      ForPair(Totals.SetTotal(inv1, master.id, t), c, m);
      { ForPairSetTotal(inv1, master.id, t, c, m); }
      Totals.SetTotal(ForPair(inv1, c, m), master.id, t);
      { ForPairRemove(invs, dups, c, m); }
      Totals.SetTotal([master], master.id, t);
      [master.(totalAmount := t)];
    }
  }

  lemma OthersAreDups(g: seq<Invoice>, master: Invoice)
    requires InvoiceIdsDistinct(g) && master in g
    ensures forall x :: x in g && x != master ==> x.id in IdsOf(g) - {master.id}
  {
    forall x | x in g && x != master ensures x.id in IdsOf(g) - {master.id} {
      if x.id == master.id { SameIdSameInvoice(g, x, master); }
    }
  }

  /**
   * After a merge the pair has exactly one invoice if it had any: the
   * master, carrying the gross of every item the group held.
   */
  lemma MergePair(s: Store, c: nat, m: string)
    requires InvoiceIdsDistinct(s.invoices)
    ensures var g := ForPair(s.invoices, c, m);
            var r := Merge(s, c, m);
            && (|g| == 0 ==> ForPair(r.store.invoices, c, m) == [])
            && (|g| >= 1 ==> |ForPair(r.store.invoices, c, m)| == 1
                             && ForPair(r.store.invoices, c, m)[0].id == r.master.value.id)
            && (|g| >= 2 ==> ForPair(r.store.invoices, c, m)[0] ==
                             r.master.value.(totalAmount := Money.Gross(Totals.ItemsNetIn(s.items, IdsOf(g)))))
  {
    var g := ForPair(s.invoices, c, m);
    if |g| >= 2 {
      MergeShape(s, c, m);
      CollapseGroup(s.invoices, c, m, Newest(g), Money.Gross(Totals.ItemsNetIn(s.items, IdsOf(g))));
    }
  }

  /** A merge leaves the invoices of every other (company, month) exactly as they were. */
  lemma MergeFrame(s: Store, c: nat, m: string, c': nat, m': string)
    requires InvoiceIdsDistinct(s.invoices)
    requires !(c' == c && m' == m)
    ensures ForPair(Merge(s, c, m).store.invoices, c', m') == ForPair(s.invoices, c', m')
  {
    var g := ForPair(s.invoices, c, m);
    if |g| >= 2 {
      MergeShape(s, c, m);
      var master := Newest(g);
      var mid := master.id;
      var dups := IdsOf(g) - {mid};
      var inv1 := RemoveIds(s.invoices, dups);
      var t := Money.Gross(Totals.ItemsNetIn(s.items, IdsOf(g)));
      var h := ForPair(s.invoices, c', m');
      forall x | x in h ensures x.id !in IdsOf(g) {
        if x.id in IdsOf(g) {
          var y :| y in g && y.id == x.id;
          SameIdSameInvoice(s.invoices, x, y);
        }
      }
      ForPairSetTotal(inv1, mid, t, c', m');
      ForPairRemove(s.invoices, dups, c', m');
      RemoveIdsNone(h, dups);
      SetTotalNone(h, mid, t);
    }
  }

  /** Deleting rows and rewriting one total keeps the ids distinct and introduces none. */
  lemma RemoveSetDistinct(invs: seq<Invoice>, ids: set<nat>, id: nat, t: int)
    requires InvoiceIdsDistinct(invs)
    ensures InvoiceIdsDistinct(Totals.SetTotal(RemoveIds(invs, ids), id, t))
    ensures forall x :: x in Totals.SetTotal(RemoveIds(invs, ids), id, t) ==> x.id in IdsOf(invs)
  {
    var inv1 := RemoveIds(invs, ids);
    var st := Totals.SetTotal(inv1, id, t);
    RemoveIdsDistinct(invs, ids);
    forall x | x in st ensures x.id in IdsOf(invs) {
      var k :| 0 <= k < |st| && st[k] == x;
      assert inv1[k] in inv1;
    }
    forall i, j | 0 <= i < j < |st| ensures st[i].id != st[j].id {
      assert st[i].id == inv1[i].id && st[j].id == inv1[j].id;
    }
  }

  /** A merge only deletes invoice rows and rewrites totals: the ids stay distinct and no id is new. */
  lemma MergeIds(s: Store, c: nat, m: string)
    requires InvoiceIdsDistinct(s.invoices)
    ensures InvoiceIdsDistinct(Merge(s, c, m).store.invoices)
    ensures forall x :: x in Merge(s, c, m).store.invoices ==> x.id in IdsOf(s.invoices)
  {
    var g := ForPair(s.invoices, c, m);
    if |g| >= 2 {
      MergeShape(s, c, m);
      var master := Newest(g);
      RemoveSetDistinct(s.invoices, IdsOf(g) - {master.id}, master.id, Money.Gross(Totals.ItemsNetIn(s.items, IdsOf(g))));
    }
  }

  /** The merge keeps the primary-key invariants and never bills a job twice that was billed once. */
  lemma MergeWellFormed(s: Store, c: nat, m: string)
    requires WellFormed(s)
    ensures WellFormed(Merge(s, c, m).store)
    ensures ItemJobIdsDistinct(s.items) ==> ItemJobIdsDistinct(Merge(s, c, m).store.items)
  {
    MergeIds(s, c, m);
    var r := Merge(s, c, m).store;
    forall k | 0 <= k < |r.invoices| ensures r.invoices[k].id < r.nextInvoiceId {
      assert r.invoices[k] in r.invoices;
      var x :| x in s.invoices && x.id == r.invoices[k].id;
    }
  }

  /**
   * With two or more invoices, an item ends up on the master exactly when it
   * was on one of the group's invoices: the master holds the union of the
   * group's items, each with its job and amount unchanged.
   */
  lemma MergeItemsUnion(s: Store, c: nat, m: string)
    requires |ForPair(s.invoices, c, m)| >= 2
    ensures var r := Merge(s, c, m);
            forall k :: 0 <= k < |s.items| ==>
              ((r.store.items[k].invoiceId == r.master.value.id) <==>
               (s.items[k].invoiceId in IdsOf(ForPair(s.invoices, c, m))))
  {
    var r := Merge(s, c, m);
    assert r.master.value.id in IdsOf(ForPair(s.invoices, c, m));
  }

  /** Merging twice is merging once: the second call finds a single invoice and changes nothing. */
  lemma MergeIdempotent(s: Store, c: nat, m: string)
    requires InvoiceIdsDistinct(s.invoices)
    ensures Merge(Merge(s, c, m).store, c, m).store == Merge(s, c, m).store
  {
    MergePair(s, c, m);
  }
}
