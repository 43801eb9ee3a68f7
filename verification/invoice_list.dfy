/**
 * The invoices page (client/src/pages/Invoices.tsx): the defensive
 * one-row-per-(company, month) grouping, the totals the table shows, the
 * payment-status badge, the search box and the default month of the
 * generate dialog.
 */
module InvoiceList {
  import opened Wrappers
  import opened Schema
  import Seqs
  import Sorting
  import Text
  import Money
  import Totals
  import Merge
  import Calendar
  import Storage
  import InvoiceActions

  /**
   * An invoice as the page receives it: the row, the joined company's name
   * and the net amounts of its items (cents), when the payload carries them.
   */
  datatype ClientInvoice = ClientInvoice(
    id: nat,
    invoiceNumber: string,
    monthYear: string,
    companyId: nat,
    status: string,
    totalAmount: int,
    companyName: Option<string>,
    items: Option<seq<int>>)

  // ---------------------------------------------------------------------
  // Grouping: one row per (company, month), the highest id wins.
  // ---------------------------------------------------------------------

  type GroupKey = (nat, string)

  function KeyOf(inv: ClientInvoice): GroupKey {
    (inv.companyId, inv.monthYear)
  }

  /** The page's map key `${companyId}__${monthYear}`. */
  function MapKey(c: nat, m: string): string {
    Text.NatToString(c) + "__" + m
  }

  /** The longest prefix of decimal digits. */
  function LeadingDigits(s: string): (r: string)
    ensures |r| <= |s| && r == s[..|r|]
    decreases |s|
  {
    if |s| > 0 && Text.IsDigit(s[0]) then [s[0]] + LeadingDigits(s[1..]) else ""
  }

  lemma {:induction false} LeadingDigitsPrefix(d: string, t: string)
    requires forall i :: 0 <= i < |d| ==> Text.IsDigit(d[i])
    requires |t| > 0 && !Text.IsDigit(t[0])
    ensures LeadingDigits(d + t) == d
    decreases |d|
  {
    if |d| > 0 {
      assert (d + t)[1..] == d[1..] + t;
      LeadingDigitsPrefix(d[1..], t);
    } else {
      assert d + t == t;
    }
  }

  /**
   * The string key identifies the pair: a company id has no `_` among its
   * digits, so the key splits back into the id and the month.  Grouping by
   * the key is therefore grouping by (company, month).
   */
  lemma MapKeyInjective(c1: nat, m1: string, c2: nat, m2: string)
    requires MapKey(c1, m1) == MapKey(c2, m2)
    ensures c1 == c2 && m1 == m2
  {
    var d1, d2 := Text.NatToString(c1), Text.NatToString(c2);
    assert MapKey(c1, m1) == d1 + ("__" + m1);
    assert MapKey(c2, m2) == d2 + ("__" + m2);
    LeadingDigitsPrefix(d1, "__" + m1);
    LeadingDigitsPrefix(d2, "__" + m2);
    assert d1 == d2;
    assert m1 == MapKey(c1, m1)[|d1| + 2..];
    assert m2 == MapKey(c2, m2)[|d2| + 2..];
  }

  /**
   * The group member a descending sort by id puts first: the highest id,
   * and among equal ids the one that came first.
   */
  function NewestWithKey(invs: seq<ClientInvoice>, key: GroupKey): (r: Option<ClientInvoice>)
    ensures r.None? <==> forall i :: 0 <= i < |invs| ==> KeyOf(invs[i]) != key
    ensures r.Some? ==> r.value in invs && KeyOf(r.value) == key
    ensures r.Some? ==> forall i :: 0 <= i < |invs| && KeyOf(invs[i]) == key ==> invs[i].id <= r.value.id
    ensures r.Some? ==> exists i :: 0 <= i < |invs| && invs[i] == r.value
                                    && forall j :: 0 <= j < i && KeyOf(invs[j]) == key ==> invs[j].id < r.value.id
    decreases |invs|
  {
    if |invs| == 0 then None
    else
      var rest := NewestWithKey(invs[1..], key);
      if KeyOf(invs[0]) == key && (rest.None? || invs[0].id >= rest.value.id) then Some(invs[0])
      else
        assert rest.Some? ==> forall i :: 1 <= i < |invs| ==> invs[i] == invs[1..][i - 1];
        rest
  }

  /** The key of every invoice, in input order. */
  function KeyList(invs: seq<ClientInvoice>): (r: seq<GroupKey>)
    ensures |r| == |invs|
    ensures forall i :: 0 <= i < |invs| ==> r[i] == KeyOf(invs[i])
    decreases |invs|
  {
    if |invs| == 0 then [] else [KeyOf(invs[0])] + KeyList(invs[1..])
  }

  /** The keys in input order, each once (the iteration order of the page's `Map`). */
  function Keys(invs: seq<ClientInvoice>): (r: seq<GroupKey>)
    ensures Seqs.NoDups(r) && |r| <= |invs|
    ensures forall k :: k in r ==> NewestWithKey(invs, k).Some?
    ensures forall i :: 0 <= i < |invs| ==> KeyOf(invs[i]) in r
  {
    var all := KeyList(invs);
    forall k | k in all ensures NewestWithKey(invs, k).Some? {
      var i :| 0 <= i < |all| && all[i] == k;
    }
    Seqs.Dedup(all)
  }

  /** One representative per key, in key order. */
  function Representatives(invs: seq<ClientInvoice>, keys: seq<GroupKey>): (r: seq<ClientInvoice>)
    requires forall k :: k in keys ==> NewestWithKey(invs, k).Some?
    ensures |r| == |keys|
    ensures forall i :: 0 <= i < |keys| ==> NewestWithKey(invs, keys[i]) == Some(r[i])
  {
    seq(|keys|, i requires 0 <= i < |keys| => NewestWithKey(invs, keys[i]).value)
  }

  // ---------------------------------------------------------------------
  // Sorting: month descending (after lower-casing and trimming), then id descending.
  // ---------------------------------------------------------------------

  /** Code-unit lexicographic order: `a` sorts strictly before `b`. */
  predicate LexLess(a: string, b: string)
    decreases |a|
  {
    if |a| == 0 then |b| > 0
    else if |b| == 0 then false
    else if a[0] != b[0] then a[0] < b[0]
    else LexLess(a[1..], b[1..])
  }

  /** Two different strings are always ordered one way or the other. */
  lemma {:induction false} LexTotal(a: string, b: string)
    ensures a == b || LexLess(a, b) || LexLess(b, a)
    decreases |a|
  {
    if |a| > 0 && |b| > 0 && a[0] == b[0] {
      LexTotal(a[1..], b[1..]);
      if a[1..] == b[1..] {
        assert a == [a[0]] + a[1..] && b == [b[0]] + b[1..];
      }
    }
  }

  /** Never both ways. */
  lemma {:induction false} LexAsymmetric(a: string, b: string)
    ensures !(LexLess(a, b) && LexLess(b, a))
    decreases |a|
  {
    if |a| > 0 && |b| > 0 && a[0] == b[0] {
      LexAsymmetric(a[1..], b[1..]);
    }
  }

  /** `normalizeText(inv.monthYear)`. */
  function MonthKey(inv: ClientInvoice): string {
    Text.Trim(Text.Lower(inv.monthYear))
  }

  /** `a` may stay in front of `b`: a later month, or the same month and an id at least as high. */
  predicate Before(a: ClientInvoice, b: ClientInvoice) {
    if MonthKey(a) == MonthKey(b) then a.id >= b.id else LexLess(MonthKey(b), MonthKey(a))
  }

  lemma BeforeTotal(a: ClientInvoice, b: ClientInvoice)
    ensures Before(a, b) || Before(b, a)
  {
    LexTotal(MonthKey(a), MonthKey(b));
  }

  lemma BeforeIsTotal()
    ensures Sorting.Total(Before)
  {
    forall a, b ensures Before(a, b) || Before(b, a) {
      BeforeTotal(a, b);
    }
  }

  predicate SortedDesc(s: seq<ClientInvoice>) {
    Sorting.SortedBy(s, Before)
  }

  /** No two rows share a (company, month). */
  predicate KeysDistinct(s: seq<ClientInvoice>) {
    Sorting.DistinctBy(s, KeyOf)
  }

  /**
   * `groupedInvoices`: the newest (highest-id) invoice of every
   * (company, month), sorted by month descending and then id descending.
   */
  function Grouped(invs: seq<ClientInvoice>): (r: seq<ClientInvoice>)
    ensures SortedDesc(r)
    ensures |r| <= |invs|
  {
    var u := Representatives(invs, Keys(invs));
    BeforeIsTotal();
    Sorting.SortSorted(u, Before);
    Sorting.Sort(u, Before)
  }

  /** Every grouped row is an input invoice carrying the highest id of its (company, month). */
  lemma GroupedRowsAreNewest(invs: seq<ClientInvoice>)
    ensures forall x :: x in Grouped(invs) ==> x in invs
    ensures forall x, i :: x in Grouped(invs) && 0 <= i < |invs| && KeyOf(invs[i]) == KeyOf(x) ==> invs[i].id <= x.id
  {
    GroupedMembers(invs);
    forall x | x in Grouped(invs) ensures x in invs && IsNewest(invs, x) {
      RepresentativeMember(invs, Keys(invs), x);
    }
  }

  /** The grouped rows are the representatives, reordered. */
  lemma GroupedMembers(invs: seq<ClientInvoice>)
    ensures forall x :: x in Grouped(invs) <==> x in Representatives(invs, Keys(invs))
  {
    var u := Representatives(invs, Keys(invs));
    assert Grouped(invs) == Sorting.Sort(u, Before);
    Sorting.SortMembers(u, Before);
  }

  /** `x` is an input invoice with the highest id of its (company, month). */
  predicate IsNewest(invs: seq<ClientInvoice>, x: ClientInvoice) {
    forall i :: 0 <= i < |invs| && KeyOf(invs[i]) == KeyOf(x) ==> invs[i].id <= x.id
  }

  lemma RepresentativeMember(invs: seq<ClientInvoice>, keys: seq<GroupKey>, x: ClientInvoice)
    requires forall k :: k in keys ==> NewestWithKey(invs, k).Some?
    requires x in Representatives(invs, keys)
    ensures x in invs && IsNewest(invs, x)
  {
    var u := Representatives(invs, keys);
    var j :| 0 <= j < |u| && u[j] == x;
    RepresentativeIsNewest(invs, keys, j);
  }

  lemma RepresentativeIsNewest(invs: seq<ClientInvoice>, keys: seq<GroupKey>, j: nat)
    requires forall k :: k in keys ==> NewestWithKey(invs, k).Some?
    requires j < |keys|
    ensures Representatives(invs, keys)[j] in invs
    ensures IsNewest(invs, Representatives(invs, keys)[j])
  {
    var x := NewestWithKey(invs, keys[j]);
    assert x == Some(Representatives(invs, keys)[j]);
  }

  /** Every (company, month) of the input has a row. */
  lemma GroupedCoversKeys(invs: seq<ClientInvoice>)
    ensures forall i :: 0 <= i < |invs| ==> exists x :: x in Grouped(invs) && KeyOf(x) == KeyOf(invs[i])
  {
    var keys := Keys(invs);
    var u := Representatives(invs, keys);
    var r := Grouped(invs);
    assert r == Sorting.Sort(u, Before);
    Sorting.SortMembers(u, Before);
    forall i | 0 <= i < |invs| ensures exists x :: x in r && KeyOf(x) == KeyOf(invs[i]) {
      var j :| 0 <= j < |keys| && keys[j] == KeyOf(invs[i]);
      assert u[j] in u;
      assert NewestWithKey(invs, keys[j]) == Some(u[j]);
    }
  }

  /** No (company, month) has two rows. */
  lemma GroupedOnePerKey(invs: seq<ClientInvoice>)
    ensures KeysDistinct(Grouped(invs))
  {
    var keys := Keys(invs);
    var u := Representatives(invs, keys);
    assert forall i :: 0 <= i < |u| ==> KeyOf(u[i]) == keys[i];
    Sorting.SortDistinct(u, Before, KeyOf);
  }

  /** When the server kept one invoice per (company, month), grouping drops nothing: it only reorders. */
  lemma GroupedKeepsDistinct(invs: seq<ClientInvoice>)
    requires KeysDistinct(invs)
    ensures multiset(Grouped(invs)) == multiset(invs)
  {
    var all := KeyList(invs);
    assert Seqs.NoDups(all);
    Seqs.DedupNoDups(all);
    RepresentativesOfDistinct(invs);
  }

  lemma RepresentativesOfDistinct(invs: seq<ClientInvoice>)
    requires KeysDistinct(invs)
    requires forall k :: k in KeyList(invs) ==> NewestWithKey(invs, k).Some?
    ensures Representatives(invs, KeyList(invs)) == invs
  {
    var u := Representatives(invs, KeyList(invs));
    forall i | 0 <= i < |invs| ensures u[i] == invs[i] {
      NewestOfDistinct(invs, i);
    }
  }

  /** With distinct keys, the newest invoice of a key is the only one. */
  lemma NewestOfDistinct(invs: seq<ClientInvoice>, i: nat)
    requires KeysDistinct(invs) && i < |invs|
    ensures NewestWithKey(invs, KeyOf(invs[i])) == Some(invs[i])
  {
    var x := NewestWithKey(invs, KeyOf(invs[i])).value;
    var j :| 0 <= j < |invs| && invs[j] == x;
    assert KeyOf(invs[j]) == KeyOf(invs[i]);
  }

  /** The page's view of a stored row. */
  function FromRow(inv: Invoice, companyName: Option<string>, items: Option<seq<int>>): ClientInvoice {
    ClientInvoice(inv.id, inv.invoiceNumber, inv.monthYear, inv.companyId, inv.status, inv.totalAmount, companyName, items)
  }

  /**
   * The server keeps the invoice with the latest `createdAt` as the merge
   * master, the page shows the one with the highest id: for two duplicates
   * they can differ.
   */
  lemma MasterAndDisplayedCanDiffer()
    ensures var a := Invoice(1, "202403-7-1111", "2024-03", 7, "unpaid", 5880, None, None, Some(20));
            var b := Invoice(2, "202403-7-2222", "2024-03", 7, "unpaid", 5880, None, None, Some(10));
            Merge.Newest([a, b]).id == 1
            && Grouped([FromRow(a, None, None), FromRow(b, None, None)]) == [FromRow(b, None, None)]
  {
    var a := Invoice(1, "202403-7-1111", "2024-03", 7, "unpaid", 5880, None, None, Some(20));
    var b := Invoice(2, "202403-7-2222", "2024-03", 7, "unpaid", 5880, None, None, Some(10));
    assert [a, b][1..] == [b];
    var ca, cb := FromRow(a, None, None), FromRow(b, None, None);
    var invs := [ca, cb];
    assert KeyOf(ca) == KeyOf(cb);
    var keys := Keys(invs);
    assert keys == [KeyOf(ca)] by {
      var all := KeyList(invs);
      assert all == [KeyOf(ca), KeyOf(ca)];
      var first: seq<GroupKey> := all[..1];
      assert first == [KeyOf(ca)];
      assert first[..0] == [];
    }
    assert invs[1..] == [cb];
    assert [cb][1..] == [];
    assert NewestWithKey(invs, KeyOf(ca)) == Some(cb);
    var u := Representatives(invs, keys);
    assert u == [cb];
    assert Sorting.Sort([cb], Before) == [cb] by { assert [cb][1..] == []; }
  }

  // ---------------------------------------------------------------------
  // The amounts the table shows.
  // ---------------------------------------------------------------------

  function SumCents(amounts: seq<int>): int
    decreases |amounts|
  {
    if |amounts| == 0 then 0 else amounts[0] + SumCents(amounts[1..])
  }

  /**
   * `computeInvoiceNet`: the sum of the item amounts when the payload has
   * items, otherwise the stored `totalAmount`.
   */
  function ClientNet(inv: ClientInvoice): (net: int)
    ensures inv.items.Some? && |inv.items.value| > 0 ==> net == SumCents(inv.items.value)
    ensures (inv.items.None? || |inv.items.value| == 0) ==> net == inv.totalAmount
  {
    var items := inv.items.GetOr([]);
    if |items| > 0 then SumCents(items) else inv.totalAmount
  }

  /** `computeInvoiceVat`: net × 0.2 rounded to the cent, the server's VAT. */
  function ClientVat(net: int): (v: int)
    ensures v == Money.Vat(net)
  {
    Money.RoundHalfUp(net * 20, 100)
  }

  /** `computeInvoiceGross`: net plus VAT. */
  function ClientGross(net: int): (g: int)
    ensures g == Money.Gross(net)
  {
    net + ClientVat(net)
  }

  /** `computeInvoiceCount`: the number of items in the payload. */
  function ClientCount(inv: ClientInvoice): nat {
    |inv.items.GetOr([])|
  }

  /** The item amounts of invoice `id` as `getInvoices` attaches them. */
  function ItemAmounts(items: seq<InvoiceItem>, id: nat): (r: seq<int>)
    ensures |r| == Totals.ItemCount(items, id)
    ensures SumCents(r) == Totals.ItemsNet(items, id)
    decreases |items|
  {
    if |items| == 0 then []
    else
      var rest := ItemAmounts(items[1..], id);
      if items[0].invoiceId == id then
        assert ([items[0].amount] + rest)[1..] == rest;
        [items[0].amount] + rest
      else rest
  }

  /**
   * For an invoice whose stored total is derived from its items, the page's
   * gross equals the stored total, with or without items: an invoice
   * without items stores 0 and shows 0.
   */
  lemma ClientGrossMatchesStored(s: Store, k: nat, companyName: Option<string>)
    requires k < |s.invoices| && Totals.TotalConsistent(s, s.invoices[k].id)
    ensures var inv := s.invoices[k];
            ClientGross(ClientNet(FromRow(inv, companyName, Some(ItemAmounts(s.items, inv.id))))) == inv.totalAmount
  {
    var inv := s.invoices[k];
    Totals.ItemsNetNoItems(s.items, inv.id);
    assert Money.Vat(0) == 0;
  }

  /**
   * The fallback reads the stored `totalAmount`, a gross, as a net: an
   * invoice shown without items and a stored 58.80 is displayed with a
   * gross of 70.56.
   */
  lemma FallbackTreatsGrossAsNet()
    ensures var inv := ClientInvoice(1, "202403-7-1234", "2024-03", 7, "unpaid", 5880, None, Some([]));
            ClientNet(inv) == 5880 && ClientGross(ClientNet(inv)) == 7056
  {
  }

  // ---------------------------------------------------------------------
  // Payment-status badge.
  // ---------------------------------------------------------------------

  /** `statusLabel`: "Bezahlt" for "paid" or "bezahlt" in any letter case, "Offen" otherwise. */
  function StatusLabel(status: string): (r: string)
    ensures r == "Bezahlt" || r == "Offen"
  {
    var s := Text.Lower(status);
    if s == "paid" || s == "bezahlt" then "Bezahlt" else "Offen"
  }

  /** `statusVariant`: the badge colour. */
  function StatusVariant(status: string): (r: string)
    ensures r == "default" || r == "secondary"
  {
    var s := Text.Lower(status);
    if s == "paid" || s == "bezahlt" then "default" else "secondary"
  }

  /** The badge's colour and text always agree. */
  lemma LabelAndVariantAgree(status: string)
    ensures StatusVariant(status) == "default" <==> StatusLabel(status) == "Bezahlt"
  {
  }

  /** The badge ignores letter case. */
  lemma LabelIgnoresCase(status: string)
    ensures StatusLabel(Text.Lower(status)) == StatusLabel(status)
  {
    Text.LowerIdempotent(status);
  }

  /** After `markPaid` the invoice's badge reads "Bezahlt". */
  lemma MarkPaidShowsPaid(s: Store, id: nat, now: int)
    requires exists k :: 0 <= k < |s.invoices| && s.invoices[k].id == id
    ensures InvoiceActions.MarkPaid(s, id, now).Ok?
    ensures var r := InvoiceActions.MarkPaid(s, id, now).value.0;
            forall k :: 0 <= k < |r.invoices| && r.invoices[k].id == id ==> StatusLabel(r.invoices[k].status) == "Bezahlt"
  {
    var r := InvoiceActions.MarkPaid(s, id, now).value.0;
    PaidReadsPaid();
    forall k | 0 <= k < |r.invoices| && r.invoices[k].id == id
      ensures StatusLabel(r.invoices[k].status) == "Bezahlt"
    {
      assert r.invoices[k].status == "paid";
    }
  }

  lemma PaidReadsPaid()
    ensures StatusLabel("paid") == "Bezahlt"
  {
    Text.LowerFixpoint("paid");
  }

  lemma UnpaidReadsOpen()
    ensures StatusLabel("unpaid") == "Offen"
  {
    Text.LowerFixpoint("unpaid");
  }

  /** A freshly generated invoice (default status) reads "Offen". */
  lemma NewInvoiceShowsOpen(input: InsertInvoice, id: nat, now: int)
    requires input.status.None? || input.status == Some("unpaid")
    ensures StatusLabel(InvoiceFromInsert(input, id, now).status) == "Offen"
  {
    UnpaidReadsOpen();
    assert InvoiceFromInsert(input, id, now).status == "unpaid";
  }

  /**
   * Every invoice the dashboard counts as unpaid reads "Offen", but not
   * conversely: "Unpaid" reads "Offen" and is not counted.
   */
  lemma BadgeAndDashboardUnpaid(inv: Invoice)
    ensures Storage.UnpaidInvoice(inv) ==> StatusLabel(inv.status) == "Offen"
    ensures StatusLabel("Unpaid") == "Offen" && !Storage.UnpaidInvoice(inv.(status := "Unpaid"))
  {
    UnpaidReadsOpen();
    CapitalUnpaidReadsOpen();
  }

  lemma CapitalUnpaidReadsOpen()
    ensures StatusLabel("Unpaid") == "Offen"
  {
    assert Text.Lower("Unpaid") == "unpaid";
  }

  // ---------------------------------------------------------------------
  // Search.
  // ---------------------------------------------------------------------

  /** `normalizeText`: lower-cased, then trimmed. */
  function NormalizeText(s: string): string {
    Text.Trim(Text.Lower(s))
  }

  /** The searchable text of a row: number, company, month, badge, item count and the three amounts, lower-cased. */
  function Haystack(inv: ClientInvoice): string {
    var net := ClientNet(inv);
    Text.Lower(Text.Join([inv.invoiceNumber, inv.companyName.GetOr(""), inv.monthYear, StatusLabel(inv.status),
                          Text.NatToString(ClientCount(inv)), Money.FormatCents(net),
                          Money.FormatCents(ClientVat(net)), Money.FormatCents(ClientGross(net))], " "))
  }

  /**
   * `filteredInvoices`: an empty normalised query shows every grouped row;
   * otherwise the rows whose searchable text contains the query, in order.
   */
  function FilteredInvoices(grouped: seq<ClientInvoice>, search: string): (r: seq<ClientInvoice>)
    ensures NormalizeText(search) == "" ==> r == grouped
    ensures NormalizeText(search) != "" ==> Seqs.IsSubsequence(r, grouped)
    ensures NormalizeText(search) != "" ==>
              forall x :: x in r <==> x in grouped && Text.Contains(Haystack(x), NormalizeText(search))
  {
    var q := NormalizeText(search);
    if q == "" then grouped
    else Seqs.Filter(grouped, (inv: ClientInvoice) => Text.Contains(Haystack(inv), q))
  }

  /** Searching for (part of) an invoice number, in any letter case, finds that invoice. */
  lemma SearchFindsNumber(grouped: seq<ClientInvoice>, search: string, inv: ClientInvoice)
    requires inv in grouped
    requires Text.Contains(Text.Lower(inv.invoiceNumber), NormalizeText(search))
    ensures inv in FilteredInvoices(grouped, search)
  {
    var q := NormalizeText(search);
    if q != "" {
      var net := ClientNet(inv);
      var parts := [inv.invoiceNumber, inv.companyName.GetOr(""), inv.monthYear, StatusLabel(inv.status),
                    Text.NatToString(ClientCount(inv)), Money.FormatCents(net),
                    Money.FormatCents(ClientVat(net)), Money.FormatCents(ClientGross(net))];
      Text.JoinHeadContains(parts, " ", q);
      assert Haystack(inv) == Text.Lower(Text.Join(parts, " "));
    }
  }

  /** The search ignores letter case. */
  lemma SearchIgnoresCase(grouped: seq<ClientInvoice>, search: string)
    ensures FilteredInvoices(grouped, Text.Lower(search)) == FilteredInvoices(grouped, search)
  {
    Text.LowerIdempotent(search);
  }

  /** Typing more narrows the result: a query containing another finds a subset of its rows. */
  lemma SearchNarrows(grouped: seq<ClientInvoice>, shorter: string, longer: string)
    requires Text.Contains(NormalizeText(longer), NormalizeText(shorter))
    ensures forall x :: x in FilteredInvoices(grouped, longer) ==> x in FilteredInvoices(grouped, shorter)
  {
    var q1, q2 := NormalizeText(shorter), NormalizeText(longer);
    if q1 != "" && q2 != "" {
      forall x | x in FilteredInvoices(grouped, longer) ensures x in FilteredInvoices(grouped, shorter) {
        Text.ContainsTrans(Haystack(x), q2, q1);
      }
    }
  }

  // ---------------------------------------------------------------------
  // The generate dialog's default month.
  // ---------------------------------------------------------------------

  /** `currentMonthYYYYMM` for a clock in year `year` and 0-based month `monthIndex`: the year is not padded. */
  function CurrentMonthKey(year: nat, monthIndex: int): string
    requires 0 <= monthIndex <= 11
  {
    Text.NatToString(year) + "-" + Text.PadZero(monthIndex + 1, 2)
  }

  /**
   * The dialog's default agrees with the dashboard's "yyyy-MM" key exactly
   * for four-digit years (from 1000 on).
   */
  lemma CurrentMonthMatchesServer(year: nat, monthIndex: int)
    requires 0 <= monthIndex <= 11
    ensures CurrentMonthKey(year, monthIndex) == Calendar.FormatYearMonth(year, monthIndex + 1) <==> year >= 1000
  {
    Text.NatToStringLength(year, 3);
    assert Text.Pow10(3) == 1000 by { assert Text.Pow10(2) == 100; assert Text.Pow10(1) == 10; }
    if year < 1000 {
      assert |CurrentMonthKey(year, monthIndex)| != |Calendar.FormatYearMonth(year, monthIndex + 1)|;
    }
  }

  /** For years 1000 to 9999 the default month is accepted by the generate endpoint and names the current month. */
  lemma CurrentMonthAccepted(year: nat, monthIndex: int)
    requires 0 <= monthIndex <= 11 && 1000 <= year <= 9999
    ensures Calendar.ParseMonthYear(CurrentMonthKey(year, monthIndex)) == Some((year, monthIndex + 1))
  {
    CurrentMonthMatchesServer(year, monthIndex);
    Calendar.FormatThenParse(year, monthIndex + 1);
  }
}
