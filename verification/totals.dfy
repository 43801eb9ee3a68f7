/**
 * Invoice totals derived from line items (server/routes.ts
 * `recalcInvoiceTotals`): net is the sum of the invoice's item amounts,
 * VAT is net × 20 % rounded to the cent, and gross = net + VAT is what the
 * invoice row stores as `totalAmount`.
 */
module Totals {
  import opened Schema
  import Money

  /** Sum of the amounts of the items whose invoice is one of `ids` (0 when there are none). */
  function ItemsNetIn(items: seq<InvoiceItem>, ids: set<nat>): int
    decreases |items|
  {
    if |items| == 0 then 0
    else (if items[0].invoiceId in ids then items[0].amount else 0) + ItemsNetIn(items[1..], ids)
  }

  /** `coalesce(sum(amount), 0)` over the items of invoice `id`. */
  function ItemsNet(items: seq<InvoiceItem>, id: nat): int {
    ItemsNetIn(items, {id})
  }

  /** `coalesce(count(*), 0)` over the items of invoice `id`. */
  function ItemCount(items: seq<InvoiceItem>, id: nat): nat
    decreases |items|
  {
    if |items| == 0 then 0
    else (if items[0].invoiceId == id then 1 else 0) + ItemCount(items[1..], id)
  }

  /** The figures `recalcInvoiceTotals` reports. */
  datatype InvoiceTotals = InvoiceTotals(net: int, vat: int, gross: int, count: nat)

  /** The derived totals of invoice `id`: net from its items, VAT on net, gross = net + VAT. */
  function TotalsOf(items: seq<InvoiceItem>, id: nat): (t: InvoiceTotals)
    ensures t.net == ItemsNet(items, id) && t.count == ItemCount(items, id)
    ensures t.vat == Money.Vat(t.net) && t.gross == t.net + t.vat
    ensures t.count == 0 ==> t.net == 0 && t.gross == 0
  {
    ItemsNetNoItems(items, id);
    var net := ItemsNet(items, id);
    InvoiceTotals(net, Money.Vat(net), Money.Gross(net), ItemCount(items, id))
  }

  /** An invoice without items has net 0. */
  lemma {:induction false} ItemsNetNoItems(items: seq<InvoiceItem>, id: nat)
    ensures ItemCount(items, id) == 0 ==> ItemsNet(items, id) == 0
    decreases |items|
  {
    if |items| > 0 {
      ItemsNetNoItems(items[1..], id);
    }
  }

  /** The net of a concatenation is the sum of the nets. */
  lemma {:induction false} ItemsNetAppend(a: seq<InvoiceItem>, b: seq<InvoiceItem>, ids: set<nat>)
    ensures ItemsNetIn(a + b, ids) == ItemsNetIn(a, ids) + ItemsNetIn(b, ids)
    decreases |a|
  {
    if |a| == 0 {
      assert a + b == b;
    } else {
      assert (a + b)[1..] == a[1..] + b;
      ItemsNetAppend(a[1..], b, ids);
    }
  }

  /** Only the items pointing into `ids` contribute to the net. */
  lemma {:induction false} ItemsNetSame(a: seq<InvoiceItem>, b: seq<InvoiceItem>, ids: set<nat>)
    requires |a| == |b|
    requires forall k :: 0 <= k < |a| ==> (a[k].invoiceId in ids <==> b[k].invoiceId in ids)
    requires forall k :: 0 <= k < |a| && a[k].invoiceId in ids ==> a[k].amount == b[k].amount
    ensures ItemsNetIn(a, ids) == ItemsNetIn(b, ids)
    decreases |a|
  {
    if |a| > 0 {
      ItemsNetSame(a[1..], b[1..], ids);
    }
  }

  /** Sets `totalAmount` on every row whose id is `id` (`UPDATE invoices SET total_amount = ... WHERE id = ...`). */
  function SetTotal(invs: seq<Invoice>, id: nat, total: int): (r: seq<Invoice>)
    ensures |r| == |invs|
    ensures forall k :: 0 <= k < |invs| ==>
              r[k] == (if invs[k].id == id then invs[k].(totalAmount := total) else invs[k])
    decreases |invs|
  {
    if |invs| == 0 then []
    else [if invs[0].id == id then invs[0].(totalAmount := total) else invs[0]] + SetTotal(invs[1..], id, total)
  }

  /**
   * `recalcInvoiceTotals(id)`: invoice `id` stores the gross of its items;
   * no other invoice row, no item and no job changes.
   */
  function Recalc(s: Store, id: nat): (r: Store)
    ensures r.jobs == s.jobs && r.items == s.items
    ensures r.nextInvoiceId == s.nextInvoiceId && r.nextItemId == s.nextItemId
    ensures |r.invoices| == |s.invoices|
    ensures forall k :: 0 <= k < |s.invoices| && s.invoices[k].id == id ==>
              r.invoices[k] == s.invoices[k].(totalAmount := Money.Gross(ItemsNet(s.items, id)))
    ensures forall k :: 0 <= k < |s.invoices| && s.invoices[k].id != id ==> r.invoices[k] == s.invoices[k]
  {
    s.(invoices := SetTotal(s.invoices, id, TotalsOf(s.items, id).gross))
  }

  /** Invoice `id`'s stored total equals the gross of its items. */
  predicate TotalConsistent(s: Store, id: nat) {
    forall k :: 0 <= k < |s.invoices| && s.invoices[k].id == id ==>
      s.invoices[k].totalAmount == Money.Gross(ItemsNet(s.items, id))
  }

  /** After a recalculation the invoice's stored total is derived from its items. */
  lemma RecalcConsistent(s: Store, id: nat)
    ensures TotalConsistent(Recalc(s, id), id)
  {
  }

  /** Recalculating an invoice whose total is already derived from its items leaves the store as it was. */
  lemma RecalcNoOp(s: Store, id: nat)
    requires TotalConsistent(s, id)
    ensures Recalc(s, id) == s
  {
    var r := Recalc(s, id);
    assert forall k :: 0 <= k < |s.invoices| ==> r.invoices[k] == s.invoices[k];
    assert r.invoices == s.invoices;
  }

  /** `recalcInvoiceTotals` is idempotent: a second call leaves the store unchanged. */
  lemma RecalcIdempotent(s: Store, id: nat)
    ensures Recalc(Recalc(s, id), id) == Recalc(s, id)
  {
    RecalcConsistent(s, id);
    RecalcNoOp(Recalc(s, id), id);
  }

  /** One item of 49.00 gives a stored total of 58.80. */
  lemma SingleFeeExample(s: Store, id: nat)
    requires s.items == [InvoiceItem(1, id, 5, Money.DefaultFeeNet)]
    ensures TotalsOf(s.items, id) == InvoiceTotals(4900, 980, 5880, 1)
  {
    Money.FeeExamples();
    assert s.items[1..] == [];
    assert ItemsNetIn(s.items[1..], {id}) == 0;
    assert ItemsNet(s.items, id) == 4900;
    assert ItemCount(s.items, id) == 1;
  }
}
