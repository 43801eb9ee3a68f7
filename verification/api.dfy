/**
 * The shared API layer (shared/routes.ts): the client's URL builder and the
 * request-body check of the generate endpoint, with the endpoint composed
 * from it and the billing run.
 */
module Api {
  import opened Wrappers
  import opened Schema
  import Text
  import Js
  import Calendar
  import Generate

  // ---------------------------------------------------------------------
  // buildUrl.
  // ---------------------------------------------------------------------

  /** A route parameter value. */
  datatype ParamValue = PStr(s: string) | PNum(n: int)

  /** `String(value)`. */
  function ValueString(v: ParamValue): string {
    match v
    case PStr(s) => s
    case PNum(n) => Text.IntToString(n)
  }

  /**
   * One step of `buildUrl`: when `:key` occurs in the URL, its first
   * occurrence is replaced by the value (the value's text taken literally
   * when it holds no `$`).
   */
  function Substitute(url: string, key: string, v: ParamValue): (r: string)
    ensures !Text.Contains(url, ":" + key) ==> r == url
    ensures Text.Contains(url, ":" + key) && '$' !in ValueString(v) ==>
              var i := Text.IndexOf(url, ":" + key).value;
              r == url[..i] + ValueString(v) + url[i + |key| + 1..]
  {
    if Text.Contains(url, ":" + key) then Text.ReplaceFirst(url, ":" + key, ValueString(v)) else url
  }

  /** The `includes` guard is redundant: a step is exactly `replace` of the first `:key`. */
  lemma SubstituteIsReplace(url: string, key: string, v: ParamValue)
    ensures Substitute(url, key, v) == Text.ReplaceFirst(url, ":" + key, ValueString(v))
  {
  }

  /**
   * A value holding a `$` pattern is not inserted literally: the value
   * `$&` re-inserts the matched `:key`, so the URL comes back unchanged.
   */
  lemma SubstituteMatchPattern(url: string, key: string)
    ensures Substitute(url, key, PStr("$&")) == url
  {
    var pat := ":" + key;
    if Text.Contains(url, pat) {
      var i := Text.IndexOf(url, pat).value;
      Text.ExpandMatchAlone(pat, url[..i], url[i + |pat|..]);
      assert url[i..i + |pat|] == pat;
      assert url == url[..i] + pat + url[i + |pat|..];
    }
  }

  /** The value `$$` puts a single `$` in place of the first `:key`. */
  lemma SubstituteDollarPattern(url: string, key: string)
    requires Text.Contains(url, ":" + key)
    ensures var i := Text.IndexOf(url, ":" + key).value;
            Substitute(url, key, PStr("$$")) == url[..i] + "$" + url[i + |key| + 1..]
  {
    var pat := ":" + key;
    var i := Text.IndexOf(url, pat).value;
    Text.ExpandDollarAlone(pat, url[..i], url[i + |pat|..]);
  }

  /** The parameter entries applied in order. */
  function SubstituteAll(url: string, params: seq<(string, ParamValue)>): string
    decreases |params|
  {
    if |params| == 0 then url
    else SubstituteAll(Substitute(url, params[0].0, params[0].1), params[1..])
  }

  /** `buildUrl(path, params)`: without parameters the path is returned as it is. */
  function BuildUrl(path: string, params: Option<seq<(string, ParamValue)>>): (r: string)
    ensures params.None? ==> r == path
    ensures params.Some? && |params.value| == 0 ==> r == path
  {
    match params
    case None => path
    case Some(ps) => SubstituteAll(path, ps)
  }

  /** Substituting a list of parameters is substituting its two halves one after the other. */
  lemma {:induction false} SubstituteAllAppend(url: string, a: seq<(string, ParamValue)>, b: seq<(string, ParamValue)>)
    ensures SubstituteAll(url, a + b) == SubstituteAll(SubstituteAll(url, a), b)
    decreases |a|
  {
    if |a| == 0 {
      assert a + b == b;
    } else {
      assert (a + b)[1..] == a[1..] + b;
      SubstituteAllAppend(Substitute(url, a[0].0, a[0].1), a[1..], b);
    }
  }

  /** A path without any `:` has no placeholder, so every parameter list leaves it unchanged. */
  lemma {:induction false} NoPlaceholderUnchanged(path: string, params: seq<(string, ParamValue)>)
    requires ':' !in path
    ensures SubstituteAll(path, params) == path
    decreases |params|
  {
    if |params| > 0 {
      var pat := ":" + params[0].0;
      forall i: nat ensures !Text.OccursAt(path, pat, i) {
        if i + |pat| <= |path| {
          assert path[i..i + |pat|][0] == path[i] != ':';
        }
      }
      NoPlaceholderUnchanged(path, params[1..]);
    }
  }

  /**
   * A parameter whose name is a prefix of a longer placeholder's name is
   * substituted inside it: with `key` = "id", the URL "/a/:idx" becomes
   * "/a/7x".  The first `:key` after a colon-free prefix is the one replaced.
   */
  lemma PrefixKeyQuirk(prefix: string, key: string, tail: string, v: ParamValue)
    requires ':' !in prefix && '$' !in ValueString(v)
    ensures BuildUrl(prefix + ":" + key + tail, Some([(key, v)])) == prefix + ValueString(v) + tail
  {
    var url := prefix + ":" + key + tail;
    var pat := ":" + key;
    var n := |prefix|;
    assert url[n..n + |pat|] == pat;
    assert Text.OccursAt(url, pat, n);
    forall i: nat | i < n ensures !Text.OccursAt(url, pat, i) {
      assert url[i] == prefix[i] && prefix[i] in prefix;
      if i + |pat| <= |url| {
        assert url[i..i + |pat|][0] == url[i] != pat[0];
      }
    }
    assert Text.IndexOf(url, pat) == Some(n);
    assert url[..n] == prefix;
    assert url[n + |key| + 1..] == tail;
    assert Text.Contains(url, pat);
    assert Substitute(url, key, v) == prefix + ValueString(v) + tail;
    assert [(key, v)][1..] == [];
    assert SubstituteAll(url, [(key, v)]) == SubstituteAll(Substitute(url, key, v), []);
  }

  // ---------------------------------------------------------------------
  // POST /api/invoices/generate.
  // ---------------------------------------------------------------------

  /** Why a generate request is refused. */
  datatype RequestError = BadBody | BadMonth

  /**
   * `z.object({ monthYear: z.string() }).parse(body)`: the body must be an
   * object whose `monthYear` property is a string; other properties are
   * ignored.
   */
  function ParseGenerateInput(body: Js.JsValue): (r: Result<string, RequestError>)
    ensures r.Ok? <==> body.Obj? && Js.Field(body.fields, "monthYear").Some?
                       && Js.Field(body.fields, "monthYear").value.Str?
    ensures r.Ok? ==> r.value == Js.Field(body.fields, "monthYear").value.s
    ensures r.Err? ==> r.error == BadBody
  {
    if !body.Obj? then Err(BadBody)
    else match Js.Field(body.fields, "monthYear")
      case Some(Str(m)) => Ok(m)
      case _ => Err(BadBody)
  }

  /**
   * The generate endpoint: parse the body, then run the billing pass on the
   * month it names.  A body without a string `monthYear` and a month that
   * is not a calendar month are both refused without touching the store.
   */
  function HandleGenerate(s: Store, body: Js.JsValue, fee: int, now: nat)
    : (r: Result<Generate.GenerateOutput, RequestError>)
    ensures r.Ok? <==> ParseGenerateInput(body).Ok?
                       && Calendar.ParseMonthYear(ParseGenerateInput(body).value).Some?
    ensures ParseGenerateInput(body).Err? ==> r == Err(BadBody)
    ensures r.Ok? ==> r.value.store.jobs == s.jobs
  {
    match ParseGenerateInput(body)
    case Err(e) => Err(e)
    case Ok(m) =>
      match Generate.Generate(s, m, fee, now)
      case Err(_) => Err(BadMonth)
      case Ok(out) => Ok(out)
  }

  /** The request the invoices page sends for March 2024 is accepted. */
  lemma GenerateRequestAccepted(s: Store, fee: int, now: nat)
    ensures HandleGenerate(s, Js.Obj([("monthYear", Js.Str("2024-03"))]), fee, now).Ok?
  {
    var m := "2024-03";
    assert forall i :: 0 <= i < 7 && i != 4 ==> Text.IsDigit(m[i]);
    assert m[5..] == "03";
    assert Text.DigitsValue(m[5..]) == 3 by {
      assert "03"[..1] == "0";
      assert Text.DigitsValue("0") == 0 by { assert "0"[..0] == ""; }
    }
    assert Calendar.ParseMonthYear(m).Some?;
  }
}
