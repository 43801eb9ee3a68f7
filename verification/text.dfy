/**
 * The JavaScript string operations the system relies on: `trim`,
 * `toLowerCase`, `includes` / `indexOf`, `replace` with a string pattern,
 * `split` on one character, `join`, `padStart` and number-to-string.
 */
module Text {
  import opened Wrappers

  /** The characters `String.prototype.trim` removes: WhiteSpace and LineTerminator of ECMAScript. */
  predicate IsSpace(c: char) {
    c == '\t' || c == '\n' || c == '\U{000B}' || c == '\U{000C}' || c == '\r' || c == ' '
    || c == '\U{00A0}' || c == '\U{1680}' || ('\U{2000}' <= c <= '\U{200A}')
    || c == '\U{2028}' || c == '\U{2029}' || c == '\U{202F}' || c == '\U{205F}'
    || c == '\U{3000}' || c == '\U{FEFF}'
  }

  /** `s` with its leading whitespace removed. */
  function TrimStart(s: string): (r: string)
    ensures |r| <= |s| && r == s[|s| - |r|..]
    ensures forall i :: 0 <= i < |s| - |r| ==> IsSpace(s[i])
    ensures |r| > 0 ==> !IsSpace(r[0])
    decreases |s|
  {
    if |s| > 0 && IsSpace(s[0]) then TrimStart(s[1..]) else s
  }

  /** `s` with its trailing whitespace removed. */
  function TrimEnd(s: string): (r: string)
    ensures |r| <= |s| && r == s[..|r|]
    ensures forall i :: |r| <= i < |s| ==> IsSpace(s[i])
    ensures |r| > 0 ==> !IsSpace(r[|r| - 1])
    decreases |s|
  {
    if |s| > 0 && IsSpace(s[|s| - 1]) then TrimEnd(s[..|s| - 1]) else s
  }

  /** `String.prototype.trim`. */
  function Trim(s: string): (r: string)
    ensures |r| <= |s|
    ensures |r| > 0 ==> !IsSpace(r[0]) && !IsSpace(r[|r| - 1])
    ensures |r| == 0 <==> forall i :: 0 <= i < |s| ==> IsSpace(s[i])
  {
    var t := TrimStart(s);
    var r := TrimEnd(t);
    assert |r| > 0 ==> r[0] == t[0];
    r
  }

  /** Everything of `s` outside `s[a..b]` is whitespace. */
  predicate SpaceOutside(s: string, a: nat, b: nat)
    requires a <= b <= |s|
  {
    && (forall i :: 0 <= i < a ==> IsSpace(s[i]))
    && (forall i :: b <= i < |s| ==> IsSpace(s[i]))
  }

  /**
   * The trimmed string is the infix of `s` left after cutting whitespace
   * off both ends; with the ends of the result non-space, this fixes it.
   */
  lemma TrimInfix(s: string)
    ensures exists a: nat, b: nat :: a <= b <= |s| && Trim(s) == s[a..b] && SpaceOutside(s, a, b)
  {
    var t := TrimStart(s);
    var r := TrimEnd(t);
    assert Trim(s) == r;
    var a := |s| - |t|;
    var b := a + |r|;
    InfixOfSuffix(s, a, |r|);
    assert r == s[a..b];
    TrimSpaceOutside(s, t, r);
  }

  lemma TrimSpaceOutside(s: string, t: string, r: string)
    requires t == TrimStart(s) && r == TrimEnd(t)
    ensures SpaceOutside(s, |s| - |t|, |s| - |t| + |r|)
  {
    var a := |s| - |t|;
    forall i | a + |r| <= i < |s|
      ensures IsSpace(s[i])
    {
      assert s[i] == t[i - a];
    }
  }

  /** A prefix of a suffix is an infix. */
  lemma InfixOfSuffix(s: string, a: nat, n: nat)
    requires a + n <= |s|
    ensures s[a..][..n] == s[a..a + n]
  {
  }

  /** A string with no whitespace at either end is its own trim. */
  lemma TrimFixpoint(s: string)
    requires |s| > 0 ==> !IsSpace(s[0]) && !IsSpace(s[|s| - 1])
    ensures Trim(s) == s
  {
  }

  /** Trimming twice is trimming once. */
  lemma TrimIdempotent(s: string)
    ensures Trim(Trim(s)) == Trim(s)
  {
    TrimFixpoint(Trim(s));
  }

  /** `toLowerCase` on one character: A–Z map to a–z, every other character is kept. */
  function LowerChar(c: char): char {
    if 'A' <= c <= 'Z' then (c as int + 32) as char else c
  }

  /** `String.prototype.toLowerCase`, character by character. */
  function Lower(s: string): (r: string)
    ensures |r| == |s|
    ensures forall i :: 0 <= i < |s| ==> r[i] == LowerChar(s[i])
    decreases |s|
  {
    if |s| == 0 then "" else [LowerChar(s[0])] + Lower(s[1..])
  }

  /** Lower-casing an already lower-cased string changes nothing. */
  lemma LowerIdempotent(s: string)
    ensures Lower(Lower(s)) == Lower(s)
  {
    var a := Lower(Lower(s));
    var b := Lower(s);
    assert forall i :: 0 <= i < |a| ==> a[i] == b[i];
  }

  /** A string without upper-case ASCII letters is already lower case. */
  lemma LowerFixpoint(s: string)
    requires forall i :: 0 <= i < |s| ==> !('A' <= s[i] <= 'Z')
    ensures Lower(s) == s
  {
    assert forall i :: 0 <= i < |s| ==> Lower(s)[i] == s[i];
  }

  /** Lower-casing keeps whitespace where it was and never creates any. */
  lemma LowerCharSpace(c: char)
    ensures IsSpace(LowerChar(c)) <==> IsSpace(c)
  {
  }

  /** Lower-casing keeps whitespace at the two ends of a string. */
  lemma LowerKeepsEnds(s: string)
    ensures |s| > 0 ==> (IsSpace(Lower(s)[0]) <==> IsSpace(s[0]))
    ensures |s| > 0 ==> (IsSpace(Lower(s)[|s| - 1]) <==> IsSpace(s[|s| - 1]))
  {
    if |s| > 0 {
      LowerCharSpace(s[0]);
      LowerCharSpace(s[|s| - 1]);
    }
  }

  /** Trimming commutes with lower-casing, so `trim().toLowerCase()` equals `toLowerCase().trim()`. */
  lemma {:induction false} LowerTrimCommute(s: string)
    ensures Lower(Trim(s)) == Trim(Lower(s))
  {
    LowerTrimStart(s);
    LowerTrimEnd(TrimStart(s));
  }

  lemma {:induction false} LowerTrimStart(s: string)
    ensures Lower(TrimStart(s)) == TrimStart(Lower(s))
    decreases |s|
  {
    if |s| > 0 {
      LowerCharSpace(s[0]);
      assert Lower(s)[0] == LowerChar(s[0]);
      if IsSpace(s[0]) {
        assert Lower(s)[1..] == Lower(s[1..]);
        LowerTrimStart(s[1..]);
      }
    }
  }

  lemma {:induction false} LowerTrimEnd(s: string)
    ensures Lower(TrimEnd(s)) == TrimEnd(Lower(s))
    decreases |s|
  {
    if |s| > 0 {
      var n := |s| - 1;
      LowerCharSpace(s[n]);
      assert Lower(s)[n] == LowerChar(s[n]);
      if IsSpace(s[n]) {
        var a := Lower(s)[..n];
        var b := Lower(s[..n]);
        assert |a| == |b| && forall i :: 0 <= i < |a| ==> a[i] == b[i];
        assert a == b;
        LowerTrimEnd(s[..n]);
      }
    }
  }

  /** `pat` occurs in `s` starting at index `i`. */
  predicate OccursAt(s: string, pat: string, i: nat) {
    i + |pat| <= |s| && s[i..i + |pat|] == pat
  }

  /** The first occurrence of `pat` in `s` at or after `from`. */
  function IndexOfFrom(s: string, pat: string, from: nat): (r: Option<nat>)
    ensures r.Some? ==> from <= r.value && OccursAt(s, pat, r.value)
    ensures r.Some? ==> forall i: nat :: from <= i < r.value ==> !OccursAt(s, pat, i)
    ensures r.None? ==> forall i: nat :: from <= i ==> !OccursAt(s, pat, i)
    decreases |s| - from
  {
    if from + |pat| > |s| then None
    else if s[from..from + |pat|] == pat then Some(from)
    else IndexOfFrom(s, pat, from + 1)
  }

  /** `String.prototype.indexOf`: the first occurrence of `pat`, if any. */
  function IndexOf(s: string, pat: string): (r: Option<nat>)
    ensures r.Some? ==> OccursAt(s, pat, r.value)
    ensures r.Some? ==> forall i: nat :: i < r.value ==> !OccursAt(s, pat, i)
    ensures r.None? <==> forall i: nat :: !OccursAt(s, pat, i)
  {
    IndexOfFrom(s, pat, 0)
  }

  /** `String.prototype.includes`. */
  predicate Contains(s: string, pat: string) {
    IndexOf(s, pat).Some?
  }

  /** `includes` holds exactly when the pattern occurs somewhere. */
  lemma ContainsIff(s: string, pat: string)
    ensures Contains(s, pat) <==> exists i: nat :: OccursAt(s, pat, i)
  {
  }

  /** Every string contains the empty string. */
  lemma ContainsEmpty(s: string)
    ensures Contains(s, "")
  {
    assert OccursAt(s, "", 0);
  }

  /**
   * The replacement text `String.prototype.replace` inserts for a string
   * pattern: `$$` is `$`, `$&` is the match, `` $` `` the text before it,
   * `$'` the text after it; everything else is copied.
   */
  function ExpandReplacement(repl: string, matched: string, before: string, after: string): (r: string)
    ensures '$' !in repl ==> r == repl
    decreases |repl|
  {
    if |repl| == 0 then ""
    else if repl[0] == '$' && |repl| >= 2 && repl[1] == '$' then
      "$" + ExpandReplacement(repl[2..], matched, before, after)
    else if repl[0] == '$' && |repl| >= 2 && repl[1] == '&' then
      matched + ExpandReplacement(repl[2..], matched, before, after)
    else if repl[0] == '$' && |repl| >= 2 && repl[1] == '`' then
      before + ExpandReplacement(repl[2..], matched, before, after)
    else if repl[0] == '$' && |repl| >= 2 && repl[1] == '\'' then
      after + ExpandReplacement(repl[2..], matched, before, after)
    else
      assert repl == [repl[0]] + repl[1..];
      [repl[0]] + ExpandReplacement(repl[1..], matched, before, after)
  }

  /**
   * The four patterns, each followed by text without `$`: `$$` inserts a
   * dollar sign, `$&` the match, `` $` `` the text before the match and
   * `$'` the text after it.
   */
  lemma ExpandPatterns(t: string, matched: string, before: string, after: string)
    requires '$' !in t
    ensures ExpandReplacement("$$" + t, matched, before, after) == "$" + t
    ensures ExpandReplacement("$&" + t, matched, before, after) == matched + t
    ensures ExpandReplacement("$`" + t, matched, before, after) == before + t
    ensures ExpandReplacement("$'" + t, matched, before, after) == after + t
  {
    assert ("$$" + t)[2..] == t;
    assert ("$&" + t)[2..] == t;
    assert ("$`" + t)[2..] == t;
    assert ("$'" + t)[2..] == t;
  }

  /** A `$` that starts none of the four patterns is copied as it is. */
  lemma ExpandLoneDollar(t: string, matched: string, before: string, after: string)
    requires '$' !in t
    requires |t| > 0 ==> t[0] != '&' && t[0] != '`' && t[0] != '\''
    ensures ExpandReplacement("$" + t, matched, before, after) == "$" + t
  {
    assert ("$" + t)[1..] == t;
  }

  /** `$&` on its own inserts the match. */
  lemma ExpandMatchAlone(matched: string, before: string, after: string)
    ensures ExpandReplacement("$&", matched, before, after) == matched
  {
    assert "$&"[2..] == "";
  }

  /** `$$` on its own inserts one dollar sign. */
  lemma ExpandDollarAlone(matched: string, before: string, after: string)
    ensures ExpandReplacement("$$", matched, before, after) == "$"
  {
    assert "$$"[2..] == "";
  }

  /** `s.replace(pat, repl)` with a string pattern: only the first occurrence is replaced. */
  function ReplaceFirst(s: string, pat: string, repl: string): (r: string)
    ensures IndexOf(s, pat).None? ==> r == s
    ensures IndexOf(s, pat).Some? && '$' !in repl ==>
              var i := IndexOf(s, pat).value;
              r == s[..i] + repl + s[i + |pat|..]
  {
    match IndexOf(s, pat)
    case None => s
    case Some(i) =>
      s[..i] + ExpandReplacement(repl, pat, s[..i], s[i + |pat|..]) + s[i + |pat|..]
  }

  /** `parts.join(sep)`. */
  function Join(parts: seq<string>, sep: string): (r: string)
    ensures |parts| == 0 ==> r == ""
    ensures |parts| == 1 ==> r == parts[0]
    decreases |parts|
  {
    if |parts| == 0 then ""
    else if |parts| == 1 then parts[0]
    else parts[0] + sep + Join(parts[1..], sep)
  }

  /** `s.split(sep)` for a one-character separator: the pieces between separators, empty ones included. */
  function Split(s: string, sep: char): (r: seq<string>)
    ensures |r| >= 1
    ensures forall k :: 0 <= k < |r| ==> sep !in r[k]
    decreases |s|
  {
    if |s| == 0 then [""]
    else
      var rest := Split(s[1..], sep);
      if s[0] == sep then [""] + rest
      else [[s[0]] + rest[0]] + rest[1..]
  }

  /** Joining the pieces of a split with the separator gives back the string. */
  lemma {:induction false} SplitJoin(s: string, sep: char)
    ensures Join(Split(s, sep), [sep]) == s
    decreases |s|
  {
    if |s| > 0 {
      var rest := Split(s[1..], sep);
      SplitJoin(s[1..], sep);
      if s[0] == sep {
        assert Split(s, sep) == [""] + rest;
        assert (([""] + rest)[1..]) == rest;
        assert s == [sep] + s[1..];
      } else {
        var r := Split(s, sep);
        assert r == [[s[0]] + rest[0]] + rest[1..];
        if |rest| == 1 {
          assert r == [[s[0]] + rest[0]];
        } else {
          assert r[1..] == rest[1..];
          assert Join(rest, [sep]) == rest[0] + [sep] + Join(rest[1..], [sep]);
        }
      }
    }
  }

  /** A string without the separator splits into itself alone. */
  lemma {:induction false} SplitNoSep(a: string, sep: char)
    requires sep !in a
    ensures Split(a, sep) == [a]
    decreases |a|
  {
    if |a| > 0 {
      SplitNoSep(a[1..], sep);
      assert a == [a[0]] + a[1..];
    }
  }

  /** A separator after a separator-free prefix ends the first piece. */
  lemma {:induction false} SplitCons(a: string, sep: char, b: string)
    requires sep !in a
    ensures Split(a + [sep] + b, sep) == [a] + Split(b, sep)
    decreases |a|
  {
    var t := a + [sep] + b;
    if |a| == 0 {
      assert t == [sep] + b;
      assert t[1..] == b;
    } else {
      assert t[1..] == a[1..] + [sep] + b;
      SplitCons(a[1..], sep, b);
      assert [a[0]] + a[1..] == a;
    }
  }

  /** Splitting a join of separator-free pieces gives the pieces back. */
  lemma {:induction false} JoinSplit(parts: seq<string>, sep: char)
    requires |parts| >= 1
    requires forall k :: 0 <= k < |parts| ==> sep !in parts[k]
    ensures Split(Join(parts, [sep]), sep) == parts
    decreases |parts|
  {
    if |parts| == 1 {
      SplitNoSep(parts[0], sep);
    } else {
      JoinSplit(parts[1..], sep);
      SplitCons(parts[0], sep, Join(parts[1..], [sep]));
      assert parts == [parts[0]] + parts[1..];
    }
  }

  /** The character of one decimal digit. */
  function DigitChar(d: nat): char
    requires d < 10
  {
    "0123456789"[d]
  }

  predicate IsDigit(c: char) {
    '0' <= c <= '9'
  }

  /** The value of a string of decimal digits. */
  function DigitsValue(s: string): nat
    requires forall i :: 0 <= i < |s| ==> IsDigit(s[i])
    decreases |s|
  {
    if |s| == 0 then 0
    else
      assert IsDigit(s[|s| - 1]);
      DigitsValue(s[..|s| - 1]) * 10 + (s[|s| - 1] as int - '0' as int)
  }

  /** `String(n)` for a non-negative integer: decimal digits without leading zeros. */
  function NatToString(n: nat): (r: string)
    ensures |r| >= 1
    ensures forall i :: 0 <= i < |r| ==> IsDigit(r[i])
    ensures |r| > 1 ==> r[0] != '0'
    ensures DigitsValue(r) == n
    ensures |r| == 1 <==> n < 10
    ensures n < 100 ==> |r| <= 2
    decreases n
  {
    if n < 10 then [DigitChar(n)]
    else
      var p := NatToString(n / 10);
      var r := p + [DigitChar(n % 10)];
      assert r[..|r| - 1] == p;
      r
  }

  /** `String(n)` for any integer. */
  function IntToString(n: int): (r: string)
    ensures |r| >= 1
    ensures n >= 0 ==> r == NatToString(n)
    ensures n < 0 ==> r == "-" + NatToString(-n)
  {
    if n >= 0 then NatToString(n) else "-" + NatToString(-n)
  }

  /** `String(n).padStart(width, "0")`. */
  function PadZero(n: nat, width: nat): (r: string)
    ensures |r| == if |NatToString(n)| >= width then |NatToString(n)| else width
    ensures forall i :: 0 <= i < |r| ==> IsDigit(r[i])
    ensures DigitsValue(r) == n
  {
    var d := NatToString(n);
    if |d| >= width then d else ZeroPrefix(width - |d|, d)
  }

  /** `k` zeros in front of the digit string `d`. */
  function ZeroPrefix(k: nat, d: string): (r: string)
    requires forall i :: 0 <= i < |d| ==> IsDigit(d[i])
    ensures |r| == k + |d|
    ensures forall i :: 0 <= i < |r| ==> IsDigit(r[i])
    ensures DigitsValue(r) == DigitsValue(d)
    decreases k
  {
    if k == 0 then d
    else
      var r := "0" + ZeroPrefix(k - 1, d);
      LeadingZero(ZeroPrefix(k - 1, d));
      r
  }

  /** A leading zero does not change the value of a digit string. */
  lemma {:induction false} LeadingZero(d: string)
    requires forall i :: 0 <= i < |d| ==> IsDigit(d[i])
    ensures DigitsValue("0" + d) == DigitsValue(d)
    decreases |d|
  {
    if |d| > 0 {
      var n := |d| - 1;
      assert ("0" + d)[..|"0" + d| - 1] == "0" + d[..n];
      LeadingZero(d[..n]);
    }
  }

  /** 10 to the power `k`. */
  function Pow10(k: nat): (p: nat)
    ensures p >= 1
  {
    if k == 0 then 1 else 10 * Pow10(k - 1)
  }

  /** A number has more than `k` decimal digits exactly when it is at least 10^k. */
  lemma {:induction false} NatToStringLength(n: nat, k: nat)
    requires k >= 1
    ensures |NatToString(n)| > k <==> n >= Pow10(k)
    decreases k
  {
    if k > 1 {
      var p := Pow10(k - 1);
      assert Pow10(k) == 10 * p;
      if n >= 10 {
        NatToStringLength(n / 10, k - 1);
        assert |NatToString(n)| == |NatToString(n / 10)| + 1;
        assert n == 10 * (n / 10) + n % 10;
        assert Pow10(k - 1) >= 10 by { assert Pow10(k - 1) == 10 * Pow10(k - 2); }
        if n / 10 >= p {
          assert n >= 10 * p;
        } else {
          assert n / 10 + 1 <= p;
          assert 10 * (n / 10) + 10 <= 10 * p;
        }
      }
    }
  }

  /** A string of `k` digits denotes a number below 10^k. */
  lemma {:induction false} DigitsValueBound(s: string)
    requires forall i :: 0 <= i < |s| ==> IsDigit(s[i])
    ensures DigitsValue(s) < Pow10(|s|)
    decreases |s|
  {
    if |s| > 0 {
      var n := |s| - 1;
      DigitsValueBound(s[..n]);
      assert DigitsValue(s[..n]) + 1 <= Pow10(n);
      assert DigitsValue(s) <= DigitsValue(s[..n]) * 10 + 9;
      assert (DigitsValue(s[..n]) + 1) * 10 <= Pow10(n) * 10;
    }
  }

  /** Lower-casing works piecewise on a concatenation. */
  lemma LowerAppend(a: string, b: string)
    ensures Lower(a + b) == Lower(a) + Lower(b)
  {
    var l, r := Lower(a + b), Lower(a) + Lower(b);
    assert forall i :: 0 <= i < |l| ==> l[i] == r[i];
  }

  /** A string found in `a` is found in `a` followed by anything. */
  lemma ContainsPrefix(a: string, b: string, pat: string)
    requires Contains(a, pat)
    ensures Contains(a + b, pat)
  {
    var i := IndexOf(a, pat).value;
    assert (a + b)[i..i + |pat|] == a[i..i + |pat|];
    assert OccursAt(a + b, pat, i);
  }

  /** Substring containment is transitive. */
  lemma ContainsTrans(s: string, mid: string, pat: string)
    requires Contains(s, mid) && Contains(mid, pat)
    ensures Contains(s, pat)
  {
    var i := IndexOf(s, mid).value;
    var j := IndexOf(mid, pat).value;
    assert s[i..i + |mid|] == mid;
    assert mid[j..j + |pat|] == pat;
    forall t | 0 <= t < |pat|
      ensures s[i + j + t] == pat[t]
    {
      assert s[i + j + t] == s[i..i + |mid|][j + t] == mid[j + t] == mid[j..j + |pat|][t];
    }
    assert s[i + j..i + j + |pat|] == pat;
    assert OccursAt(s, pat, i + j);
  }

  /** A string found in the lower-cased first part is found in the lower-cased join. */
  lemma JoinHeadContains(parts: seq<string>, sep: string, pat: string)
    requires |parts| >= 1 && Contains(Lower(parts[0]), pat)
    ensures Contains(Lower(Join(parts, sep)), pat)
  {
    if |parts| > 1 {
      var rest := sep + Join(parts[1..], sep);
      assert Join(parts, sep) == parts[0] + rest;
      LowerAppend(parts[0], rest);
      ContainsPrefix(Lower(parts[0]), Lower(rest), pat);
    }
  }

  /** A string found in `b` is found in anything followed by `b`. */
  lemma ContainsSuffix(a: string, b: string, pat: string)
    requires Contains(b, pat)
    ensures Contains(a + b, pat)
  {
    var i := IndexOf(b, pat).value;
    assert (a + b)[|a| + i..|a| + i + |pat|] == b[i..i + |pat|];
    assert OccursAt(a + b, pat, |a| + i);
  }

  /** A string found in any lower-cased part is found in the lower-cased join. */
  lemma {:induction false} JoinContains(parts: seq<string>, sep: string, k: nat, pat: string)
    requires k < |parts| && Contains(Lower(parts[k]), pat)
    ensures Contains(Lower(Join(parts, sep)), pat)
    decreases k
  {
    if k == 0 {
      JoinHeadContains(parts, sep, pat);
    } else {
      var tail := Join(parts[1..], sep);
      JoinContains(parts[1..], sep, k - 1, pat);
      assert Join(parts, sep) == (parts[0] + sep) + tail;
      LowerAppend(parts[0] + sep, tail);
      ContainsSuffix(Lower(parts[0] + sep), Lower(tail), pat);
    }
  }

  /** Splitting at a separator splits each side on its own. */
  lemma {:induction false} SplitAppend(a: string, sep: char, b: string)
    ensures Split(a + [sep] + b, sep) == Split(a, sep) + Split(b, sep)
    decreases |a|
  {
    var t := a + [sep] + b;
    if |a| == 0 {
      assert t == [sep] + b;
      assert t[1..] == b;
    } else {
      assert t[0] == a[0] && t[1..] == a[1..] + [sep] + b;
      SplitAppend(a[1..], sep, b);
      if a[0] != sep {
        PieceAppend(a[0], Split(a[1..], sep), Split(b, sep));
      }
    }
  }

  lemma PieceAppend(c: char, x: seq<string>, y: seq<string>)
    requires |x| >= 1
    ensures [[c] + (x + y)[0]] + (x + y)[1..] == ([[c] + x[0]] + x[1..]) + y
  {
    assert (x + y)[0] == x[0];
    assert (x + y)[1..] == x[1..] + y;
  }
}
