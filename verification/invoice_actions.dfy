/**
 * The two invoice actions of the HTTP layer (server/routes.ts): marking an
 * invoice paid and e-mailing it to the company.  Both are thin wrappers
 * around `updateInvoice`; the mail transport is a parameter that either
 * succeeds or fails.
 */
module InvoiceActions {
  import opened Wrappers
  import opened Schema
  import Seqs
  import Storage

  /** The patch `{ status: "paid", paidAt: now }`. */
  function PaidPatch(now: int): Storage.InvoicePatch {
    Storage.EmptyPatch.(status := Some("paid"), paidAt := Some(Some(now)))
  }

  /** The patch `{ sentAt: now }`. */
  function SentPatch(now: int): Storage.InvoicePatch {
    Storage.EmptyPatch.(sentAt := Some(Some(now)))
  }

  /**
   * `POST /api/invoices/:id/paid`: the invoice becomes "paid" with `paidAt`
   * set to the clock reading; its number, month, company, total and
   * `sentAt` are kept, and no other row changes.  An unknown id fails.
   */
  function MarkPaid(s: Store, id: nat, now: int): (r: Result<(Store, Invoice), Storage.UpdateError>)
    ensures r.Err? <==> forall k :: 0 <= k < |s.invoices| ==> s.invoices[k].id != id
    ensures r.Ok? ==> r.value.1.id == id && r.value.1.status == "paid" && r.value.1.paidAt == Some(now)
    ensures r.Ok? ==> && r.value.0.jobs == s.jobs && r.value.0.items == s.items
                      && |r.value.0.invoices| == |s.invoices|
    ensures r.Ok? ==> forall k :: 0 <= k < |s.invoices| && s.invoices[k].id == id ==>
              r.value.0.invoices[k] == s.invoices[k].(status := "paid", paidAt := Some(now))
    ensures r.Ok? ==> forall k :: 0 <= k < |s.invoices| && s.invoices[k].id != id ==>
              r.value.0.invoices[k] == s.invoices[k]
  {
    assert PaidPatch(now).status.Some?;
    Storage.UpdateInvoice(s, id, PaidPatch(now))
  }

  /**
   * Marking an "unpaid" invoice paid lowers the dashboard's unpaid counter
   * by exactly one (invoice ids are unique).
   */
  lemma MarkPaidLowersUnpaid(s: Store, id: nat, now: int, y: nat, m: int)
    requires WellFormed(s) && 1 <= m <= 12
    requires exists k :: 0 <= k < |s.invoices| && s.invoices[k].id == id && s.invoices[k].status == "unpaid"
    ensures MarkPaid(s, id, now).Ok?
    ensures Storage.GetStats(MarkPaid(s, id, now).value.0, y, m).unpaidInvoices
            == Storage.GetStats(s, y, m).unpaidInvoices - 1
  {
    var k :| 0 <= k < |s.invoices| && s.invoices[k].id == id && s.invoices[k].status == "unpaid";
    var r := MarkPaid(s, id, now).value.0;
    var x := s.invoices[k].(status := "paid", paidAt := Some(now));
    assert r.invoices == s.invoices[k := x];
    Storage.StatsCounts(s, y, m);
    Storage.StatsCounts(r, y, m);
    Seqs.CountUpdate(s.invoices, k, x, Storage.UnpaidInvoice);
  }

  /** Marking paid twice at the same clock reading is marking paid once. */
  lemma MarkPaidIdempotent(s: Store, id: nat, now: int)
    requires exists k :: 0 <= k < |s.invoices| && s.invoices[k].id == id
    ensures MarkPaid(s, id, now).Ok?
    ensures MarkPaid(MarkPaid(s, id, now).value.0, id, now).Ok?
    ensures MarkPaid(MarkPaid(s, id, now).value.0, id, now).value.0 == MarkPaid(s, id, now).value.0
  {
    Storage.UpdateIdempotent(s, id, PaidPatch(now));
  }

  // ---------------------------------------------------------------------
  // Sending an invoice by e-mail.
  // ---------------------------------------------------------------------

  /** The message handed to the mail transport. */
  datatype Mail = Mail(to: string, subject: string, attachmentName: string)

  /** Recipient, subject "Rechnung <month> - <number>" and attachment "invoice-<number>.pdf". */
  function MailFor(inv: Invoice, to: string): (r: Mail)
    ensures r.to == to
    ensures r.subject == "Rechnung " + inv.monthYear + " - " + inv.invoiceNumber
    ensures r.attachmentName == "invoice-" + inv.invoiceNumber + ".pdf"
  {
    Mail(to, "Rechnung " + inv.monthYear + " - " + inv.invoiceNumber, "invoice-" + inv.invoiceNumber + ".pdf")
  }

  /** The HTTP outcome of `POST /api/invoices/:id/email`. */
  datatype SendResponse = InvoiceNotFound | NoCompanyEmail | SendFailed | Sent(mail: Mail)

  function StatusCode(r: SendResponse): nat {
    match r
    case InvoiceNotFound => 404
    case NoCompanyEmail => 400
    case SendFailed => 500
    case Sent(_) => 200
  }

  /** The first invoice with id `id`, if any (`getInvoice`). */
  function GetInvoice(s: Store, id: nat): (r: Option<Invoice>)
    ensures r.Some? ==> r.value in s.invoices && r.value.id == id
    ensures r.None? <==> forall k :: 0 <= k < |s.invoices| ==> s.invoices[k].id != id
  {
    match Storage.FindInvoice(s.invoices, id)
    case None => None
    case Some(k) => Some(s.invoices[k])
  }

  /**
   * `POST /api/invoices/:id/email` with the joined company's e-mail address
   * `companyEmail` and the transport's outcome `delivered`: 404 for an
   * unknown invoice, 400 when the address is missing or empty, 500 when the
   * transport fails, and otherwise the invoice's `sentAt` becomes `now`.
   * Only the last case changes the store.
   */
  function SendInvoice(s: Store, id: nat, companyEmail: Option<string>, delivered: bool, now: int)
    : (r: (Store, SendResponse))
    ensures r.1 == InvoiceNotFound <==> forall k :: 0 <= k < |s.invoices| ==> s.invoices[k].id != id
    ensures r.1 == NoCompanyEmail <==>
              (exists k :: 0 <= k < |s.invoices| && s.invoices[k].id == id) && (companyEmail.None? || companyEmail.value == "")
    ensures r.1.Sent? ==> delivered && companyEmail.Some? && companyEmail.value != "" && r.1.mail.to == companyEmail.value
    ensures !r.1.Sent? ==> r.0 == s
    ensures r.1.Sent? ==> && r.0.jobs == s.jobs && r.0.items == s.items && |r.0.invoices| == |s.invoices|
                          && (forall k :: 0 <= k < |s.invoices| ==>
                                r.0.invoices[k] == (if s.invoices[k].id == id then s.invoices[k].(sentAt := Some(now))
                                                    else s.invoices[k]))
  {
    match GetInvoice(s, id)
    case None => (s, InvoiceNotFound)
    case Some(inv) =>
      if companyEmail.None? || companyEmail.value == "" then (s, NoCompanyEmail)
      else if !delivered then (s, SendFailed)
      else
        assert SentPatch(now).sentAt.Some?;
        var u := Storage.UpdateInvoice(s, id, SentPatch(now));
        assert u.Ok?;
        (u.value.0, Sent(MailFor(inv, companyEmail.value)))
  }

  /** `sentAt` moves only when the mail was handed over successfully; a failed send can be retried on the same store. */
  lemma SentAtOnlyOnSuccess(s: Store, id: nat, companyEmail: Option<string>, delivered: bool, now: int)
    requires exists k :: 0 <= k < |s.invoices| && s.invoices[k].id == id
    requires companyEmail.Some? && companyEmail.value != ""
    ensures SendInvoice(s, id, companyEmail, delivered, now).1.Sent? <==> delivered
    ensures StatusCode(SendInvoice(s, id, companyEmail, delivered, now).1) == (if delivered then 200 else 500)
  {
  }

  /** Sending does not touch the payment state: status and `paidAt` are kept. */
  lemma SendKeepsPayment(s: Store, id: nat, companyEmail: Option<string>, delivered: bool, now: int)
    ensures var r := SendInvoice(s, id, companyEmail, delivered, now).0;
            |r.invoices| == |s.invoices| &&
            forall k :: 0 <= k < |s.invoices| ==>
              r.invoices[k].status == s.invoices[k].status && r.invoices[k].paidAt == s.invoices[k].paidAt
              && r.invoices[k].totalAmount == s.invoices[k].totalAmount
  {
  }
}
