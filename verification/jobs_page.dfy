/**
 * The jobs page (client/src/pages/Jobs.tsx): the status buttons of the job
 * dialog and the trade filter of the new-job form.
 */
module JobsPage {
  import opened Wrappers
  import Seqs
  import Text
  import JobStatus
  import Generate
  import Schema
  import Calendar

  // ---------------------------------------------------------------------
  // Status buttons.
  // ---------------------------------------------------------------------

  /**
   * The status changes the dialog offers: an exactly "open" job can be
   * cancelled or completed, an exactly "done" job reopened, any other
   * status gets no button.
   */
  function StatusActions(status: string): (r: seq<string>)
    ensures |r| <= 2
    ensures |r| > 0 <==> status == "open" || status == "done"
  {
    if status == "open" then ["canceled", "done"]
    else if status == "done" then ["open"]
    else []
  }

  /**
   * Both buttons of an open job ("Stornieren" sets "canceled", "Abschluss"
   * sets "done") move it out of the open class.
   */
  lemma OpenActionsLeaveOpen()
    ensures StatusActions("open") == ["canceled", "done"]
    ensures JobStatus.IsOpen("open") && !JobStatus.IsOpen("canceled") && !JobStatus.IsOpen("done")
  {
    OpenButtons();
    JobStatus.OpenIsOpen();
    JobStatus.CanceledNotOpen();
    JobStatus.DoneNotOpen();
  }

  /** The one button of a done job ("Wieder öffnen" sets "open") moves it out of the done class. */
  lemma DoneActionsLeaveDone()
    ensures StatusActions("done") == ["open"]
    ensures JobStatus.IsDone("done") && !JobStatus.IsDone("open")
  {
    DoneButtons();
    JobStatus.DoneIsDone();
    JobStatus.OpenNotDone();
  }

  /** The buttons of an open job, as a fact on its own. */
  lemma OpenButtons()
    ensures StatusActions("open") == ["canceled", "done"]
  {
  }

  /** The button of a done job, as a fact on its own. */
  lemma DoneButtons()
    ensures StatusActions("done") == ["open"]
  {
  }

  /** "Abschluss" sets exactly the status the billing pass looks for. */
  lemma CompletingMakesBillable(j: Schema.Job, y: int, m: int)
    requires 1 <= m <= 12 && Calendar.InMonthWindow(j.dateTime, y, m)
    ensures StatusActions("open")[1] == "done"
    ensures Generate.DoneInMonth(j.(status := StatusActions("open")[1]), y, m)
  {
  }

  /**
   * The buttons and the billing pass match the status exactly, the
   * dashboard tolerantly: a job whose status is "Done" counts as done on
   * the dashboard, is never billed, and offers no button.
   */
  lemma TolerantDoneNotBilled(j: Schema.Job, y: int, m: int)
    requires 1 <= m <= 12 && j.status == "Done"
    ensures JobStatus.IsDone(j.status)
    ensures !Generate.DoneInMonth(j, y, m)
    ensures StatusActions(j.status) == []
  {
    assert Text.Trim("Done") == "Done" by { Text.TrimFixpoint("Done"); }
    assert Text.Lower("Done") == "done";
  }

  // ---------------------------------------------------------------------
  // Trade filter.
  // ---------------------------------------------------------------------

  /** A company as the form needs it: its trades (`text[]`, NOT NULL). */
  datatype Company = Company(id: nat, companyName: string, trades: seq<string>)

  /**
   * `filteredCompanies`: no list yet gives nothing; no selected trade gives
   * every company; otherwise the companies offering exactly that trade.
   */
  function FilteredCompanies(companies: Option<seq<Company>>, trade: string): (r: seq<Company>)
    ensures companies.None? ==> r == []
    ensures companies.Some? && trade == "" ==> r == companies.value
    ensures companies.Some? && trade != "" ==> forall c :: c in r <==> c in companies.value && trade in c.trades
    ensures companies.Some? ==> Seqs.IsSubsequence(r, companies.value)
  {
    match companies
    case None => []
    case Some(cs) =>
      if trade == "" then
        Seqs.SubsequenceRefl(cs);
        cs
      else Seqs.Filter(cs, (c: Company) => trade in c.trades)
  }

  /** Every trade of every company, in order (`flatMap`). */
  function FlatTrades(cs: seq<Company>): (r: seq<string>)
    ensures forall t :: t in r <==> exists c :: c in cs && t in c.trades
    decreases |cs|
  {
    if |cs| == 0 then []
    else
      assert cs == [cs[0]] + cs[1..];
      cs[0].trades + FlatTrades(cs[1..])
  }

  /** `allTrades`: the distinct trades of all companies, in order of first appearance. */
  function AllTrades(companies: Option<seq<Company>>): (r: seq<string>)
    ensures Seqs.NoDups(r)
    ensures companies.None? ==> r == []
    ensures companies.Some? ==> forall t :: t in r <==> exists c :: c in companies.value && t in c.trades
  {
    match companies
    case None => []
    case Some(cs) => Seqs.Dedup(FlatTrades(cs))
  }

  /** Choosing any offered trade leaves at least one company to pick. */
  lemma OfferedTradeHasCompany(companies: Option<seq<Company>>, trade: string)
    requires companies.Some? && exists c :: c in companies.value && trade in c.trades
    ensures trade in AllTrades(companies)
    ensures |FilteredCompanies(companies, trade)| > 0
  {
    var cs := companies.value;
    var c :| c in cs && trade in c.trades;
    assert c in FilteredCompanies(companies, trade);
  }
}
