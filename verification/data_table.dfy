/**
 * The generic search table of the client (client/src/components/DataTable.tsx):
 * dotted-path property lookup, flattening a value to searchable text, the
 * choice of searched keys and the case-insensitive substring filter.
 */
module DataTable {
  import opened Wrappers
  import opened Js
  import Text
  import Seqs

  // ---------------------------------------------------------------------
  // Property access.
  // ---------------------------------------------------------------------

  /**
   * The array index a property key names: a key is an index exactly when it
   * is the decimal form of a natural number ("0", "12"; not "01" or "").
   */
  function ArrayIndex(key: string): (r: Option<nat>)
    ensures r.Some? ==> Text.NatToString(r.value) == key
    ensures r.Some? <==> exists i: nat :: Text.NatToString(i) == key
  {
    if forall k :: 0 <= k < |key| ==> Text.IsDigit(key[k]) then
      var i := Text.DigitsValue(key);
      if Text.NatToString(i) == key then Some(i) else None
    else None
  }

  /**
   * `v[key]` for a value that is not `null`/`undefined`: an object's own
   * property, an array's or string's `length` and indexed element, and
   * `undefined` for anything the value does not have.
   */
  function Prop(v: JsValue, key: string): (r: JsValue)
    ensures v.Obj? ==> (r == match Field(v.fields, key) case Some(x) => x case None => Undefined)
    ensures v.Arr? && key == "length" ==> r == Num(|v.elems|)
    ensures v.Str? && key == "length" ==> r == Num(|v.s|)
    ensures v.Bool? || v.Num? || Nullish(v) ==> r == Undefined
  {
    match v
    case Obj(fields) =>
      (match Field(fields, key) case Some(x) => x case None => Undefined)
    case Arr(elems) =>
      if key == "length" then Num(|elems|)
      else (match ArrayIndex(key) case Some(i) => if i < |elems| then elems[i] else Undefined case None => Undefined)
    case Str(s) =>
      if key == "length" then Num(|s|)
      else (match ArrayIndex(key) case Some(i) => if i < |s| then Str([s[i]]) else Undefined case None => Undefined)
    case _ => Undefined
  }

  /** An array's element `i` is reached by the key `String(i)`. */
  lemma PropIndex(elems: seq<JsValue>, i: nat)
    requires i < |elems|
    ensures Prop(Arr(elems), Text.NatToString(i)) == elems[i]
  {
    var key := Text.NatToString(i);
    assert key != "length" by { assert Text.IsDigit(key[0]); }
    assert ArrayIndex(key) == Some(i);
  }

  /**
   * The loop of `getByPath` over the path's pieces: stop with `undefined`
   * when the current value is `null`/`undefined` and a piece remains,
   * otherwise step into the property.
   */
  function Walk(cur: JsValue, parts: seq<string>): (r: JsValue)
    ensures |parts| == 0 ==> r == cur
    ensures |parts| > 0 && Nullish(cur) ==> r == Undefined
    decreases |parts|
  {
    if |parts| == 0 then cur
    else if Nullish(cur) then Undefined
    else Walk(Prop(cur, parts[0]), parts[1..])
  }

  /** Walking a concatenated path walks the first part, then the second from where the first ended. */
  lemma {:induction false} WalkAppend(cur: JsValue, p: seq<string>, q: seq<string>)
    ensures Walk(cur, p + q) == Walk(Walk(cur, p), q)
    decreases |p|
  {
    if |p| == 0 {
      assert p + q == q;
    } else if Nullish(cur) {
      assert Walk(Undefined, q) == Undefined;
    } else {
      assert (p + q)[1..] == p[1..] + q;
      WalkAppend(Prop(cur, p[0]), p[1..], q);
    }
  }

  /**
   * `getByPath(obj, path)`: `undefined` for a falsy object or an empty
   * path, otherwise the walk along the path split at '.'.
   */
  function GetByPath(obj: JsValue, path: string): (r: JsValue)
    ensures Falsy(obj) || path == "" ==> r == Undefined
  {
    if Falsy(obj) then Undefined
    else if path == "" then Undefined
    else Walk(obj, Text.Split(path, '.'))
  }

  /** A key without a dot on an object is that object's own property. */
  lemma PlainKeyIsProp(obj: JsValue, key: string)
    requires !Falsy(obj) && key != "" && '.' !in key
    ensures GetByPath(obj, key) == Prop(obj, key)
  {
    Text.SplitNoSep(key, '.');
  }

  /** A dotted path `a.b` walks `b`'s pieces from wherever the walk along `a` ends. */
  lemma PathAppend(obj: JsValue, a: string, b: string)
    requires !Falsy(obj) && a != ""
    ensures GetByPath(obj, a + "." + b) == Walk(GetByPath(obj, a), Text.Split(b, '.'))
  {
    assert a + "." + b == a + ['.'] + b;
    Text.SplitAppend(a, '.', b);
    WalkAppend(obj, Text.Split(a, '.'), Text.Split(b, '.'));
  }

  /**
   * A dotted path `a.b` reads `b` from the value at `a`, as long as that
   * value is truthy (`getByPath` itself refuses a falsy start).
   */
  lemma GetByPathDotted(obj: JsValue, a: string, b: string)
    requires a != "" && b != ""
    requires !Falsy(obj) && !Falsy(GetByPath(obj, a))
    ensures GetByPath(obj, a + "." + b) == GetByPath(GetByPath(obj, a), b)
  {
    PathAppend(obj, a, b);
  }

  /**
   * The walk does not stop at a falsy intermediate value, while a second
   * `getByPath` from that value would: `{a: ""}` has `a.length` 0, and `""`
   * has no path at all.
   */
  lemma FalsyIntermediateDiffers(a: string, obj: JsValue)
    requires a != "" && '.' !in a && obj == Obj([(a, Str(""))])
    ensures GetByPath(obj, a) == Str("")
    ensures GetByPath(obj, a + "." + "length") == Num(0)
    ensures GetByPath(GetByPath(obj, a), "length") == Undefined
  {
    PlainKeyIsProp(obj, a);
    PathAppend(obj, a, "length");
    EmptyStringLength();
  }

  lemma EmptyStringLength()
    ensures Walk(Str(""), Text.Split("length", '.')) == Num(0)
  {
    Text.SplitNoSep("length", '.');
    var path: seq<string> := ["length"];
    assert path[1..] == [];
    assert Prop(Str(""), path[0]) == Num(0);
  }

  // ---------------------------------------------------------------------
  // Searchable text.
  // ---------------------------------------------------------------------

  /**
   * `normalizeValue(v)`: `""` for `null`/`undefined`, the elements of an
   * array or the property values of an object normalised and joined with
   * spaces, `String(v)` for everything else.
   */
  function NormalizeValue(v: JsValue): (r: string)
    ensures Nullish(v) ==> r == ""
    ensures v.Str? ==> r == v.s
    ensures v.Num? ==> r == Text.IntToString(v.n)
    ensures v.Bool? ==> r == (if v.b then "true" else "false")
    decreases v
  {
    match v
    case Undefined => ""
    case Null => ""
    case Arr(elems) =>
      Text.Join(seq(|elems|, i requires 0 <= i < |elems| => NormalizeValue(elems[i])), " ")
    case Obj(fields) =>
      Text.Join(seq(|fields|, i requires 0 <= i < |fields| => NormalizeValue(fields[i].1)), " ")
    case Bool(b) => if b then "true" else "false"
    case Num(n) => Text.IntToString(n)
    case Str(s) => s
  }

  /** An array's text contains every query one of its elements' text contains. */
  lemma ArrayTextHasElements(elems: seq<JsValue>, k: nat, q: string)
    requires k < |elems| && Text.Contains(Text.Lower(NormalizeValue(elems[k])), q)
    ensures Text.Contains(Text.Lower(NormalizeValue(Arr(elems))), q)
  {
    var parts := seq(|elems|, i requires 0 <= i < |elems| => NormalizeValue(elems[i]));
    assert NormalizeValue(Arr(elems)) == Text.Join(parts, " ");
    Text.JoinContains(parts, " ", k, q);
  }

  /** An object's text contains every query one of its property values' text contains. */
  lemma ObjectTextHasValues(fields: seq<(string, JsValue)>, k: nat, q: string)
    requires k < |fields| && Text.Contains(Text.Lower(NormalizeValue(fields[k].1)), q)
    ensures Text.Contains(Text.Lower(NormalizeValue(Obj(fields))), q)
  {
    var parts := seq(|fields|, i requires 0 <= i < |fields| => NormalizeValue(fields[i].1));
    assert NormalizeValue(Obj(fields)) == Text.Join(parts, " ");
    Text.JoinContains(parts, " ", k, q);
  }

  // ---------------------------------------------------------------------
  // Searched keys and the filter.
  // ---------------------------------------------------------------------

  /**
   * `effectiveSearchKeys`: a non-empty `searchKeys` list wins, otherwise a
   * non-empty single `searchKey`, otherwise no key (and no search box).
   */
  function EffectiveSearchKeys(searchKeys: Option<seq<string>>, searchKey: Option<string>): (r: seq<string>)
    ensures |r| > 0 <==> (searchKeys.Some? && |searchKeys.value| > 0) || (searchKey.Some? && searchKey.value != "")
    ensures searchKeys.Some? && |searchKeys.value| > 0 ==> r == searchKeys.value
    ensures |r| > 0 && (searchKeys.None? || |searchKeys.value| == 0) ==> r == [searchKey.value]
  {
    if searchKeys.Some? && |searchKeys.value| > 0 then searchKeys.value
    else if searchKey.Some? && searchKey.value != "" then [searchKey.value]
    else []
  }

  /** The search term as compared: trimmed, then lower-cased. */
  function Query(term: string): (q: string)
    ensures |q| == 0 <==> forall i :: 0 <= i < |term| ==> Text.IsSpace(term[i])
    ensures forall i :: 0 <= i < |q| ==> !('A' <= q[i] <= 'Z')
  {
    Text.Lower(Text.Trim(term))
  }

  /** The lower-cased text of `item` at `key` contains `q`. */
  predicate KeyMatches(item: JsValue, key: string, q: string) {
    Text.Contains(Text.Lower(NormalizeValue(GetByPath(item, key))), q)
  }

  /** Some searched key of `item` matches `q`. */
  predicate Matches(item: JsValue, keys: seq<string>, q: string) {
    exists i :: 0 <= i < |keys| && KeyMatches(item, keys[i], q)
  }

  /**
   * `filteredData`: everything when the trimmed term is empty or no key is
   * searched; otherwise the rows, in order, where some key's text contains
   * the query.
   */
  function FilteredData(data: seq<JsValue>, term: string, keys: seq<string>): (r: seq<JsValue>)
    ensures Query(term) == "" || |keys| == 0 ==> r == data
    ensures Query(term) != "" && |keys| > 0 ==>
              forall x :: x in r <==> x in data && Matches(x, keys, Query(term))
    ensures Seqs.IsSubsequence(r, data)
  {
    var q := Query(term);
    if q == "" then (Seqs.SubsequenceRefl(data); data)
    else if |keys| == 0 then (Seqs.SubsequenceRefl(data); data)
    else Seqs.Filter(data, item => Matches(item, keys, q))
  }

  /** Upper-case letters in the term make no difference. */
  lemma SearchIgnoresCase(data: seq<JsValue>, term: string, keys: seq<string>)
    ensures FilteredData(data, Text.Lower(term), keys) == FilteredData(data, term, keys)
  {
    QueryIgnoresCase(term);
  }

  lemma QueryIgnoresCase(term: string)
    ensures Query(Text.Lower(term)) == Query(term)
  {
    Text.LowerTrimCommute(term);
    Text.LowerTrimCommute(Text.Lower(term));
    Text.LowerIdempotent(term);
  }

  /** Searching more keys never hides a row that fewer keys show. */
  lemma MoreKeysWiden(data: seq<JsValue>, term: string, keys: seq<string>, more: seq<string>)
    requires |keys| > 0
    requires forall i :: 0 <= i < |keys| ==> keys[i] in more
    ensures forall x :: x in FilteredData(data, term, keys) ==> x in FilteredData(data, term, more)
  {
    var q := Query(term);
    if q != "" {
      forall x | x in FilteredData(data, term, keys)
        ensures x in FilteredData(data, term, more)
      {
        var i :| 0 <= i < |keys| && KeyMatches(x, keys[i], q);
        var j :| 0 <= j < |more| && more[j] == keys[i];
        assert KeyMatches(x, more[j], q);
      }
    }
  }

  /** A query that contains another finds only rows the shorter query finds. */
  lemma LongerQueryNarrows(data: seq<JsValue>, term: string, longer: string, keys: seq<string>)
    requires Query(term) != ""
    requires Text.Contains(Query(longer), Query(term))
    ensures forall x :: x in FilteredData(data, longer, keys) ==> x in FilteredData(data, term, keys)
  {
    var q, q2 := Query(term), Query(longer);
    assert q2 != "" by { assert |q2| >= |q|; }
    if |keys| > 0 {
      forall x | x in FilteredData(data, longer, keys)
        ensures x in FilteredData(data, term, keys)
      {
        var i :| 0 <= i < |keys| && KeyMatches(x, keys[i], q2);
        Text.ContainsTrans(Text.Lower(NormalizeValue(GetByPath(x, keys[i]))), q2, q);
        assert KeyMatches(x, keys[i], q);
      }
    }
  }

  /** A row whose searched array holds a matching element is shown. */
  lemma ArrayFieldMatches(data: seq<JsValue>, term: string, keys: seq<string>, x: JsValue, i: nat, k: nat)
    requires x in data && i < |keys| && Query(term) != ""
    requires GetByPath(x, keys[i]).Arr? && k < |GetByPath(x, keys[i]).elems|
    requires Text.Contains(Text.Lower(NormalizeValue(GetByPath(x, keys[i]).elems[k])), Query(term))
    ensures x in FilteredData(data, term, keys)
  {
    ArrayTextHasElements(GetByPath(x, keys[i]).elems, k, Query(term));
    assert KeyMatches(x, keys[i], Query(term));
  }
}
