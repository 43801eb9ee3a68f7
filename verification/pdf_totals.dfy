/**
 * The totals block and the line formatting of the invoice PDF
 * (server/pdf.ts `generateInvoicePdf`).  The generator reads loosely typed
 * fields: each is `Number(...)`-converted and rounded to two decimals by
 * `toMoney`, stored totals are preferred, and a zero result falls back to a
 * figure computed from the items.  Amounts are in cents; a numeric field is
 * a decimal `units × 10^-scale`.
 */
module PdfTotals {
  import opened Wrappers
  import opened Schema
  import Money
  import Text
  import Totals

  /** A field value as `Number(...)` sees it: absent (`null`/`undefined`), not a finite number, or a decimal. */
  datatype JsNum = Nullish | NotFinite | Dec(units: int, scale: nat)

  /** `a ?? b`. */
  function Coalesce(a: JsNum, b: JsNum): (r: JsNum)
    ensures a.Nullish? ==> r == b
    ensures !a.Nullish? ==> r == a
  {
    if a.Nullish? then b else a
  }

  /** A whole number of cents as the decimal the database returns for a `numeric(10, 2)` column. */
  function Cents(c: int): JsNum {
    Dec(c, 2)
  }

  /**
   * `toMoney(v)` in cents: a finite number rounded half-up to two decimals
   * (`Math.round(v * 100) / 100`); anything that is not a finite number,
   * including an absent field, counts as 0.
   */
  function ToMoney(v: JsNum): (c: int)
    ensures !v.Dec? ==> c == 0
    ensures v.Dec? ==> 2 * Text.Pow10(v.scale) * c <= 2 * v.units * 100 + Text.Pow10(v.scale)
                       < 2 * Text.Pow10(v.scale) * c + 2 * Text.Pow10(v.scale)
  {
    if v.Dec? then Money.RoundHalfUp(v.units * 100, Text.Pow10(v.scale)) else 0
  }

  /** A value that already has at most two decimals is kept exactly. */
  lemma ToMoneyExact(units: int, scale: nat)
    requires scale <= 2
    ensures ToMoney(Dec(units, scale)) == units * Text.Pow10(2 - scale)
  {
    var p := Text.Pow10(scale);
    assert p * Text.Pow10(2 - scale) == 100 by {
      if scale == 0 { } else if scale == 1 { assert Text.Pow10(1) == 10; } else { assert Text.Pow10(2) == 100; }
    }
    assert units * 100 == (units * Text.Pow10(2 - scale)) * p;
    Money.RoundHalfUpExact(units * Text.Pow10(2 - scale), p);
  }

  /** Cents survive `toMoney` unchanged. */
  lemma ToMoneyCents(c: int)
    ensures ToMoney(Cents(c)) == c
  {
    ToMoneyExact(c, 2);
  }

  /** `toMoney` is idempotent: rounding an already rounded amount changes nothing. */
  lemma ToMoneyIdempotent(v: JsNum)
    ensures ToMoney(Cents(ToMoney(v))) == ToMoney(v)
  {
    ToMoneyCents(ToMoney(v));
  }

  /** `a || b` on two amounts: the first unless it is zero. */
  function OrElse(a: int, b: int): (r: int)
    ensures a != 0 ==> r == a
    ensures a == 0 ==> r == b
  {
    if a != 0 then a else b
  }

  /** The fields of the invoice object the generator probes, in both spellings. */
  datatype PdfInvoice = PdfInvoice(
    vatRate: JsNum, vat_rate: JsNum,
    subtotalNet: JsNum, subtotal_net: JsNum,
    vatAmount: JsNum, vat_amount: JsNum,
    totalGross: JsNum, total_gross: JsNum, totalAmount: JsNum, total_amount: JsNum)

  /** The figures printed under the items: the rate in hundredths (0.2 is 20) and three amounts in cents. */
  datatype PdfTotalsBlock = PdfTotalsBlock(rate: int, net: int, vat: int, gross: int)

  /** The sum of the rounded item amounts. */
  function SumAmounts(amounts: seq<JsNum>): int
    decreases |amounts|
  {
    if |amounts| == 0 then 0 else ToMoney(amounts[0]) + SumAmounts(amounts[1..])
  }

  /** The default VAT rate 0.2. */
  const DefaultRate: JsNum := Dec(2, 1)

  /**
   * The totals block for an invoice and the `amount` fields of its items.
   * Each figure prefers a stored non-zero value; otherwise the net is the
   * sum of the item amounts, the VAT is net × rate rounded to the cent, and
   * the gross is net + VAT.
   */
  function PdfTotalsOf(inv: PdfInvoice, amounts: seq<JsNum>): (t: PdfTotalsBlock)
    ensures t.rate == ToMoney(Coalesce(inv.vatRate, Coalesce(inv.vat_rate, DefaultRate)))
    ensures ToMoney(Coalesce(inv.subtotalNet, inv.subtotal_net)) != 0 ==>
              t.net == ToMoney(Coalesce(inv.subtotalNet, inv.subtotal_net))
    ensures ToMoney(Coalesce(inv.subtotalNet, inv.subtotal_net)) == 0 ==> t.net == SumAmounts(amounts)
    ensures ToMoney(Coalesce(inv.vatAmount, inv.vat_amount)) != 0 ==>
              t.vat == ToMoney(Coalesce(inv.vatAmount, inv.vat_amount))
    ensures ToMoney(Coalesce(inv.vatAmount, inv.vat_amount)) == 0 ==> t.vat == Money.RoundHalfUp(t.net * t.rate, 100)
    ensures var stored := ToMoney(Coalesce(inv.totalGross, Coalesce(inv.total_gross, Coalesce(inv.totalAmount, inv.total_amount))));
            (stored != 0 ==> t.gross == stored) && (stored == 0 ==> t.gross == t.net + t.vat)
  {
    var rate := ToMoney(Coalesce(inv.vatRate, Coalesce(inv.vat_rate, DefaultRate)));
    var itemsSum := SumAmounts(amounts);
    ToMoneyCents(itemsSum);
    var net := OrElse(ToMoney(Coalesce(inv.subtotalNet, inv.subtotal_net)), ToMoney(Cents(itemsSum)));
    var vatRaw := Money.RoundHalfUp(net * rate, 100);
    ToMoneyCents(vatRaw);
    var vat := OrElse(ToMoney(Coalesce(inv.vatAmount, inv.vat_amount)), ToMoney(Cents(vatRaw)));
    ToMoneyCents(net + vat);
    var gross := OrElse(ToMoney(Coalesce(inv.totalGross, Coalesce(inv.total_gross, Coalesce(inv.totalAmount, inv.total_amount)))),
                        ToMoney(Cents(net + vat)));
    PdfTotalsBlock(rate, net, vat, gross)
  }

  /** With nothing stored, the PDF's VAT and gross are the system's 20 % VAT and gross of the item sum. */
  lemma PdfDefaultsMatchServer(amounts: seq<JsNum>)
    ensures var t := PdfTotalsOf(PdfInvoice(Nullish, Nullish, Nullish, Nullish, Nullish, Nullish,
                                            Nullish, Nullish, Nullish, Nullish), amounts);
            t.rate == Money.VatPercent && t.net == SumAmounts(amounts)
            && t.vat == Money.Vat(t.net) && t.gross == Money.Gross(t.net)
  {
    ToMoneyExact(2, 1);
    assert Text.Pow10(1) == 10;
  }

  /** The invoice object a stored row becomes: only `totalAmount` is present. */
  function RowFields(inv: Invoice): PdfInvoice {
    PdfInvoice(Nullish, Nullish, Nullish, Nullish, Nullish, Nullish, Nullish, Nullish, Cents(inv.totalAmount), Nullish)
  }

  /** The `amount` fields of the items of invoice `id`, in table order. */
  function AmountsOf(items: seq<InvoiceItem>, id: nat): (r: seq<JsNum>)
    ensures |r| == Totals.ItemCount(items, id)
    decreases |items|
  {
    if |items| == 0 then []
    else (if items[0].invoiceId == id then [Cents(items[0].amount)] else []) + AmountsOf(items[1..], id)
  }

  lemma {:induction false} AmountsOfSum(items: seq<InvoiceItem>, id: nat)
    ensures SumAmounts(AmountsOf(items, id)) == Totals.ItemsNet(items, id)
    decreases |items|
  {
    if |items| > 0 {
      AmountsOfSum(items[1..], id);
      var rest := AmountsOf(items[1..], id);
      if items[0].invoiceId == id {
        assert AmountsOf(items, id) == [Cents(items[0].amount)] + rest;
        assert (AmountsOf(items, id))[1..] == rest;
        ToMoneyCents(items[0].amount);
      } else {
        assert AmountsOf(items, id) == rest;
      }
    }
  }

  /**
   * For an invoice whose stored total is derived from its items, the PDF
   * prints the item sum as net, 20 % of it as VAT, and a gross equal to
   * both the stored total and net + VAT.
   */
  lemma PdfOfConsistentInvoice(s: Store, k: nat)
    requires k < |s.invoices| && Totals.TotalConsistent(s, s.invoices[k].id)
    ensures var inv := s.invoices[k];
            var t := PdfTotalsOf(RowFields(inv), AmountsOf(s.items, inv.id));
            t.net == Totals.ItemsNet(s.items, inv.id) && t.vat == Money.Vat(t.net)
            && t.gross == inv.totalAmount && t.gross == t.net + t.vat
  {
    var inv := s.invoices[k];
    AmountsOfSum(s.items, inv.id);
    RowTotals(inv, AmountsOf(s.items, inv.id));
  }

  /** The totals block of a stored row: item sum as net, 20 % VAT, the stored total unless it is 0. */
  lemma RowTotals(inv: Invoice, amounts: seq<JsNum>)
    ensures var t := PdfTotalsOf(RowFields(inv), amounts);
            t.net == SumAmounts(amounts) && t.vat == Money.Vat(t.net)
            && t.gross == (if inv.totalAmount != 0 then inv.totalAmount else t.net + t.vat)
  {
    ToMoneyCents(inv.totalAmount);
    ToMoneyExact(2, 1);
    assert Text.Pow10(1) == 10;
    var t := PdfTotalsOf(RowFields(inv), amounts);
    assert t.rate == Money.VatPercent;
  }

  /** The PDF trusts a stored total: a stale one is printed even though it differs from net + VAT. */
  lemma PdfPrintsStaleTotal()
    ensures var t := PdfTotalsOf(RowFields(Invoice(1, "202403-7-1234", "2024-03", 7, "unpaid", 1000, None, None, None)),
                                 [Cents(4900)]);
            t.net == 4900 && t.vat == 980 && t.gross == 1000 && t.gross != t.net + t.vat
  {
    ToMoneyCents(1000);
    ToMoneyCents(4900);
    ToMoneyExact(2, 1);
    assert Text.Pow10(1) == 10;
    assert [Cents(4900)][1..] == [];
    Money.FeeExamples();
  }

  /** `toMoney(item.amount ?? item.amountNet ?? item.amount_net)`: the net printed on an item's line. */
  function LineAmount(amount: JsNum, amountNet: JsNum, amount_net: JsNum): (c: int)
    ensures !amount.Nullish? ==> c == ToMoney(amount)
    ensures amount.Nullish? && !amountNet.Nullish? ==> c == ToMoney(amountNet)
    ensures amount.Nullish? && amountNet.Nullish? ==> c == ToMoney(amount_net)
  {
    ToMoney(Coalesce(amount, Coalesce(amountNet, amount_net)))
  }

  /** The three amount fields of an item as the line loop probes them. */
  datatype PdfItem = PdfItem(amount: JsNum, amountNet: JsNum, amount_net: JsNum)

  /** The sum of the amounts printed on the item lines. */
  function LinesSum(items: seq<PdfItem>): int
    decreases |items|
  {
    if |items| == 0 then 0
    else LineAmount(items[0].amount, items[0].amountNet, items[0].amount_net) + LinesSum(items[1..])
  }

  /** The `amount` fields the totals fallback sums. */
  function AmountFields(items: seq<PdfItem>): (r: seq<JsNum>)
    ensures |r| == |items|
    ensures forall k :: 0 <= k < |items| ==> r[k] == items[k].amount
    decreases |items|
  {
    if |items| == 0 then [] else [items[0].amount] + AmountFields(items[1..])
  }

  /**
   * When every item carries `amount`, the printed lines add up to the item
   * sum the totals block falls back to.
   */
  lemma {:induction false} LinesMatchItemSum(items: seq<PdfItem>)
    requires forall k :: 0 <= k < |items| ==> !items[k].amount.Nullish?
    ensures LinesSum(items) == SumAmounts(AmountFields(items))
    decreases |items|
  {
    if |items| > 0 {
      LinesMatchItemSum(items[1..]);
      assert AmountFields(items)[1..] == AmountFields(items[1..]);
    }
  }

  /**
   * The line and the totals disagree on an item that carries only
   * `amountNet`: its line prints 49.00, while the totals fallback, which
   * reads `amount` alone, counts it as 0.
   */
  lemma LineAndTotalsDisagree()
    ensures var items := [PdfItem(Nullish, Cents(4900), Nullish)];
            LinesSum(items) == 4900 && SumAmounts(AmountFields(items)) == 0
  {
    var items := [PdfItem(Nullish, Cents(4900), Nullish)];
    ToMoneyCents(4900);
    assert items[1..] == [];
    assert AmountFields(items) == [Nullish];
    assert [Nullish][1..] == [];
  }

  /** Longest service address printed on an item line. */
  const AddressWidth: nat := 40

  /**
   * An address longer than 40 characters is cut to its first 37 followed by
   * "..."; a shorter one is printed whole.
   */
  function TruncateAddress(addr: string): (r: string)
    ensures |r| <= AddressWidth
    ensures |addr| <= AddressWidth <==> r == addr
    ensures |addr| > AddressWidth ==> |r| == AddressWidth && r[..37] == addr[..37] && r[37..] == "..."
  {
    if |addr| > AddressWidth then addr[..37] + "..." else addr
  }

  /** A printed address is printed unchanged when truncated again. */
  lemma TruncateIdempotent(addr: string)
    ensures TruncateAddress(TruncateAddress(addr)) == TruncateAddress(addr)
  {
  }
}
