/**
 * Money as integer cents.  The system computes amounts in binary floating
 * point and rounds them to two decimals at each step (`toFixed(2)`,
 * `Math.round(x * 100) / 100`); here every stored amount is a whole number
 * of cents and each rounding is an explicit half-up division.
 */
module Money {
  import Text

  /** The fixed VAT rate of 20 %, in percent (server/routes.ts `VAT_RATE`, Invoices page `VAT_RATE`). */
  const VatPercent: int := 20

  /** The fallback net fee per billed job, 49.00 in cents (server/routes.ts `DEFAULT_FEE_NET`). */
  const DefaultFeeNet: int := 4900

  /** The cancellation net fee the settings stub reports, 14.90 in cents. */
  const CancelFeeNet: int := 1490

  /**
   * `num / den` rounded to the nearest integer, halves rounded up
   * (`Math.round`): the unique integer within half a unit of the quotient,
   * counting an exact half as belonging to the upper neighbour.
   */
  function RoundHalfUp(num: int, den: int): (r: int)
    requires den > 0
    ensures 2 * den * r <= 2 * num + den < 2 * den * r + 2 * den
  {
    (2 * num + den) / (2 * den)
  }

  /** Only one integer satisfies the half-up bounds, so `RoundHalfUp` is the rounding and not just a rounding. */
  lemma RoundHalfUpUnique(num: int, den: int, r: int)
    requires den > 0
    requires 2 * den * r <= 2 * num + den < 2 * den * r + 2 * den
    ensures r == RoundHalfUp(num, den)
  {
    var q := RoundHalfUp(num, den);
    if r != q {
      var lo, hi := if r < q then r else q, if r < q then q else r;
      MulMono(2 * den, lo + 1, hi);
    }
  }

  lemma MulMono(k: int, a: int, b: int)
    requires k > 0 && a <= b
    ensures k * a <= k * b
  {
  }

  /** Rounding an exact multiple returns the exact quotient. */
  lemma RoundHalfUpExact(q: int, den: int)
    requires den > 0
    ensures RoundHalfUp(q * den, den) == q
  {
    RoundHalfUpUnique(q * den, den, q);
  }

  /** VAT in cents on a net amount in cents: round2(net × 0.20). */
  function Vat(net: int): (v: int)
    ensures 2 * 100 * v <= 2 * net * VatPercent + 100 < 2 * 100 * v + 2 * 100
  {
    RoundHalfUp(net * VatPercent, 100)
  }

  /** Gross in cents: net plus its VAT, the amount stored as an invoice's `totalAmount`. */
  function Gross(net: int): (g: int)
    ensures g - net == Vat(net)
  {
    net + Vat(net)
  }

  /** 49.00 net carries 9.80 VAT and 58.80 gross; 14.90 net carries 2.98 VAT and 17.88 gross. */
  lemma FeeExamples()
    ensures Vat(DefaultFeeNet) == 980 && Gross(DefaultFeeNet) == 5880
    ensures Vat(CancelFeeNet) == 298 && Gross(CancelFeeNet) == 1788
  {
    RoundHalfUpExact(980, 100);
    RoundHalfUpExact(298, 100);
  }

  /** A larger net never yields a smaller VAT or gross. */
  lemma GrossMonotone(a: int, b: int)
    requires a <= b
    ensures Vat(a) <= Vat(b) && Gross(a) <= Gross(b)
  {
    assert 200 * Vat(a) <= 2 * a * VatPercent + 100 <= 2 * b * VatPercent + 100 < 200 * Vat(b) + 200;
  }

  /** VAT of a non-negative net lies between zero and the net itself. */
  lemma VatBounds(net: int)
    requires net >= 0
    ensures 0 <= Vat(net) <= net
  {
  }

  /**
   * `n.toFixed(2)` for an amount of `c` cents: optional minus sign,
   * the whole part, a dot and exactly two digits.
   */
  function FormatCents(c: int): (s: string)
    ensures |s| >= 4 && s[|s| - 3] == '.'
    ensures Text.IsDigit(s[|s| - 2]) && Text.IsDigit(s[|s| - 1])
    ensures (s[0] == '-') <==> c < 0
  {
    var a := if c < 0 then -c else c;
    var whole := Text.NatToString(a / 100);
    var frac := Text.PadZero(a % 100, 2);
    (if c < 0 then "-" else "") + whole + "." + frac
  }

  /**
   * The digits of `toFixed(2)` denote the amount: after the optional sign,
   * the whole digits (without a leading zero) times 100 plus the two
   * decimals give the absolute number of cents.
   */
  lemma FormatCentsValue(c: int)
    ensures var s := FormatCents(c);
            var k := if c < 0 then 1 else 0;
            && k < |s| - 3
            && (forall i :: k <= i < |s| - 3 ==> Text.IsDigit(s[i]))
            && (|s| - 3 - k > 1 ==> s[k] != '0')
            && Text.DigitsValue(s[k..|s| - 3]) * 100 + Text.DigitsValue(s[|s| - 2..]) == (if c < 0 then -c else c)
  {
    var a := if c < 0 then -c else c;
    var whole := Text.NatToString(a / 100);
    var frac := Text.PadZero(a % 100, 2);
    var sign := if c < 0 then "-" else "";
    var s := FormatCents(c);
    assert s == sign + whole + "." + frac;
    assert |frac| == 2;
    FormattedParts(sign, whole, frac);
    var k := |sign|;
    assert s[k..|s| - 3] == whole && s[|s| - 2..] == frac;
    assert Text.DigitsValue(s[k..|s| - 3]) == a / 100;
    assert Text.DigitsValue(s[|s| - 2..]) == a % 100;
    assert a / 100 * 100 + a % 100 == a;
  }

  /** The parts of `sign + whole + "." + frac` with two decimals, recovered by position. */
  lemma FormattedParts(sign: string, whole: string, frac: string)
    requires |frac| == 2
    ensures var s := sign + whole + "." + frac;
            && |s| == |sign| + |whole| + 3
            && s[|sign|..|s| - 3] == whole
            && s[|s| - 2..] == frac
            && (forall i :: |sign| <= i < |s| - 3 ==> s[i] == whole[i - |sign|])
  {
  }
}
