/**
 * The tolerant job-status predicates of the storage layer
 * (server/storage.ts `normalizeStatus`, `isCancelledStatus`,
 * `isDoneStatus`, `isOpenStatus`): a status is compared after trimming
 * whitespace and lower-casing it.
 */
module JobStatus {
  import Text

  /** `String(s ?? "").trim().toLowerCase()`; the status column is NOT NULL, so `s` is a string. */
  function Normalize(s: string): (r: string)
    ensures |r| <= |s|
    ensures |r| > 0 ==> !Text.IsSpace(r[0]) && !Text.IsSpace(r[|r| - 1])
  {
    var t := Text.Trim(s);
    Text.LowerKeepsEnds(t);
    Text.Lower(t)
  }

  /** The normal form is the lower-cased infix left after cutting whitespace off both ends. */
  lemma NormalizeInfix(s: string)
    ensures exists a: nat, b: nat :: a <= b <= |s| && Normalize(s) == Text.Lower(s[a..b]) && Text.SpaceOutside(s, a, b)
  {
    Text.TrimInfix(s);
    var a: nat, b: nat :| a <= b <= |s| && Text.Trim(s) == s[a..b] && Text.SpaceOutside(s, a, b);
    assert Normalize(s) == Text.Lower(s[a..b]);
  }

  /** Normalising twice is normalising once. */
  lemma NormalizeIdempotent(s: string)
    ensures Normalize(Normalize(s)) == Normalize(s)
  {
    var t := Text.Trim(s);
    Text.LowerTrimCommute(Text.Lower(t));
    Text.TrimIdempotent(Text.Lower(t));
    Text.LowerTrimCommute(t);
    Text.TrimFixpoint(t);
    Text.LowerIdempotent(t);
  }

  predicate IsCancelled(status: string) {
    var v := Normalize(status);
    v == "canceled" || v == "cancelled" || v == "storniert" || v == "canceled " || v == "cancelled "
  }

  predicate IsDone(status: string) {
    var v := Normalize(status);
    v == "done" || v == "erledigt"
  }

  predicate IsOpen(status: string) {
    var v := Normalize(status);
    v == "open" || v == "offen"
  }

  /** The predicates ignore case and surrounding whitespace: a status and its normal form classify alike. */
  lemma ClassifyNormalized(s: string)
    ensures IsCancelled(s) == IsCancelled(Normalize(s))
    ensures IsDone(s) == IsDone(Normalize(s))
    ensures IsOpen(s) == IsOpen(Normalize(s))
  {
    NormalizeIdempotent(s);
  }

  /**
   * A cancelled status normalises to exactly canceled, cancelled or storniert:
   * the two literals with a trailing blank can never equal a trimmed string.
   */
  lemma CancelledExactly(s: string)
    ensures IsCancelled(s) <==> Normalize(s) in {"canceled", "cancelled", "storniert"}
  {
    var v := Normalize(s);
    assert |v| > 0 ==> !Text.IsSpace(v[|v| - 1]);
    assert "canceled "[8] == ' ' && "cancelled "[9] == ' ';
  }

  /** No status is in two classes at once. */
  lemma ClassesExclusive(s: string)
    ensures !(IsCancelled(s) && IsDone(s))
    ensures !(IsCancelled(s) && IsOpen(s))
    ensures !(IsDone(s) && IsOpen(s))
  {
    // The first letter tells the three classes apart.
    var v := Normalize(s);
    assert IsCancelled(s) ==> |v| > 0 && (v[0] == 'c' || v[0] == 's');
    assert IsDone(s) ==> |v| > 0 && (v[0] == 'd' || v[0] == 'e');
    assert IsOpen(s) ==> |v| > 0 && v[0] == 'o';
  }

  /** A status already in normal form is its own normal form. */
  lemma NormalFormFixpoint(s: string)
    requires |s| > 0 ==> !Text.IsSpace(s[0]) && !Text.IsSpace(s[|s| - 1])
    requires forall i :: 0 <= i < |s| ==> !('A' <= s[i] <= 'Z')
    ensures Normalize(s) == s
  {
    Text.TrimFixpoint(s);
    Text.LowerFixpoint(s);
  }

  /** "open" is an open status. */
  lemma OpenIsOpen()
    ensures IsOpen("open")
  {
    NormalFormFixpoint("open");
  }

  /** "done" is a done status. */
  lemma DoneIsDone()
    ensures IsDone("done")
  {
    NormalFormFixpoint("done");
  }

  /** "canceled" is a cancelled status. */
  lemma CanceledIsCancelled()
    ensures IsCancelled("canceled")
  {
    NormalFormFixpoint("canceled");
  }

  /** "canceled" is not an open status. */
  lemma CanceledNotOpen()
    ensures !IsOpen("canceled")
  {
    CanceledIsCancelled();
    ClassesExclusive("canceled");
  }

  /** "done" is not an open status. */
  lemma DoneNotOpen()
    ensures !IsOpen("done")
  {
    DoneIsDone();
    ClassesExclusive("done");
  }

  /** "open" is not a done status. */
  lemma OpenNotDone()
    ensures !IsDone("open")
  {
    OpenIsOpen();
    ClassesExclusive("open");
  }
}
