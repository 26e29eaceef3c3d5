/**
 * The reference resolver `fetch_names`: fetch every URL of one reference
 * field, keep the `name` of each result that has one, join them with ", ".
 */
module Resolver {

  import opened Wrappers
  import opened Json
  import opened Seqs
  import opened Fetcher

  /** How the comprehension `res['name'] for res in results if res and 'name' in res` treats one result. */
  datatype Selection = Skip | Take(name: Json) | Raise

  predicate IsTake(s: Selection) {
    s.Take?
  }

  /** Python's `p in s` on strings. */
  predicate IsSubstring(p: string, s: string) {
    p <= s || (s != [] && IsSubstring(p, s[1..]))
  }

  /**
   * A falsy result is skipped.  On an object, `'name' in res` is a key test.
   * On a string it is a substring test and on a list a membership test, and
   * when it succeeds `res['name']` raises; on a number or `True` the `in`
   * test itself raises.
   */
  function Select(res: Json): (r: Selection)
    ensures r.Take? <==> res.JObj? && "name" in res.fields
    ensures r.Take? ==> r.name == res.fields["name"]
  {
    if !Truthy(res) then Skip
    else match res
      case JObj(fields) => if "name" in fields then Take(fields["name"]) else Skip
      case JStr(s) => if IsSubstring("name", s) then Raise else Skip
      case JArr(items) => if JStr("name") in items then Raise else Skip
      case _ => Raise
  }

  /** The values `for url in urls` visits for a truthy `urls`; `None` where the model raises. */
  function Iterate(urls: Json): (r: Option<seq<Json>>)
    ensures urls.JArr? ==> r == Some(urls.items)
    ensures urls.JStr? ==> r.Some? && |r.value| == |urls.s| && forall i | 0 <= i < |urls.s| :: r.value[i] == JStr([urls.s[i]])
    ensures !urls.JArr? && !urls.JStr? ==> r.None?
  {
    match urls
    case JArr(items) => Some(items)
    case JStr(s) => Some(seq(|s|, i requires 0 <= i < |s| => JStr([s[i]])))
    case _ => None
  }

  /** `await asyncio.gather(*[fetch_character(session, url) for url in urls])`, in argument order. */
  function Gather(web: Web, urls: seq<Json>): (results: seq<Json>)
    ensures |results| == |urls|
    ensures forall k | 0 <= k < |urls| :: results[k] == FetchUrl(web, urls[k])
  {
    seq(|urls|, k requires 0 <= k < |urls| => FetchUrl(web, urls[k]))
  }

  function Selections(results: seq<Json>): (sels: seq<Selection>)
    ensures |sels| == |results|
    ensures forall k | 0 <= k < |results| :: sels[k] == Select(results[k])
  {
    seq(|results|, k requires 0 <= k < |results| => Select(results[k]))
  }

  /** The names the comprehension collects, if it and the join's string check do not raise. */
  function NamesOf(results: seq<Json>): (r: Option<seq<string>>)
    ensures r.Some? ==> |r.value| <= |results|
  {
    if results == [] then Some([])
    else match Select(results[0])
      case Raise => None
      case Skip => NamesOf(results[1..])
      case Take(name) =>
        if !name.JStr? then None
        else match NamesOf(results[1..])
          case None => None
          case Some(rest) => Some([name.s] + rest)
  }

  /** `", ".join(names)` */
  function Join(names: seq<string>): (s: string)
    ensures names == [] ==> s == ""
    ensures names != [] ==> names[0] <= s
  {
    if names == [] then ""
    else if |names| == 1 then names[0]
    else names[0] + ", " + Join(names[1..])
  }

  /** The joined string ends with the last name. */
  lemma {:induction false} JoinEndsWithLast(names: seq<string>)
    requires names != []
    ensures var last := names[|names| - 1];
      |last| <= |Join(names)| && Join(names)[|Join(names)| - |last|..] == last
  {
    if |names| > 1 {
      JoinEndsWithLast(names[1..]);
      assert names[1..][|names[1..]| - 1] == names[|names| - 1];
    }
  }

  /** `fetch_names(urls)`; `None` where the coroutine raises. */
  function FetchNames(web: Web, urls: Json): (r: Option<string>)
    ensures !Truthy(urls) ==> r == Some("")
  {
    if !Truthy(urls) then Some("")
    else match Iterate(urls)
      case None => None
      case Some(items) =>
        match NamesOf(Gather(web, items))
        case None => None
        case Some(names) => Some(Join(names))
  }

  /** Every result either raises, or has a string `name`, or is skipped. */
  predicate WellFormedResults(results: seq<Json>) {
    forall k | 0 <= k < |results| :: Select(results[k]) != Raise
      && (Select(results[k]).Take? ==> Select(results[k]).name.JStr?)
  }

  /**
   * The collected names are exactly the names of the results that have one,
   * in input order; with K results of which M have no name, there are K - M
   * names.  Collection fails exactly when some result makes Python raise.
   */
  lemma {:induction false} NamesOfSpec(results: seq<Json>)
    ensures NamesOf(results).Some? <==> WellFormedResults(results)
    ensures NamesOf(results).Some? ==>
      var names := NamesOf(results).value;
      var taken := Filter(Selections(results), IsTake);
      && |names| == |taken|
      && (forall j | 0 <= j < |names| :: taken[j] == Take(JStr(names[j])))
      && |names| + |Filter(Selections(results), Not(IsTake))| == |results|
  {
    FilterCount(Selections(results), IsTake);
    if results != [] {
      var rest := results[1..];
      NamesOfSpec(rest);
      var sels := Selections(results);
      assert sels[1..] == Selections(rest);
      assert sels == [sels[0]] + sels[1..];
      assert WellFormedResults(results) <==>
        (Select(results[0]) != Raise && (Select(results[0]).Take? ==> Select(results[0]).name.JStr?)
         && WellFormedResults(rest)) by {
        if WellFormedResults(rest) && Select(results[0]) != Raise
           && (Select(results[0]).Take? ==> Select(results[0]).name.JStr?) {
          forall k | 0 <= k < |results|
            ensures Select(results[k]) != Raise && (Select(results[k]).Take? ==> Select(results[k]).name.JStr?)
          {
            if k > 0 {
              assert results[k] == rest[k - 1];
            }
          }
        }
        if WellFormedResults(results) {
          forall k | 0 <= k < |rest|
            ensures Select(rest[k]) != Raise && (Select(rest[k]).Take? ==> Select(rest[k]).name.JStr?)
          {
            assert rest[k] == results[k + 1];
          }
        }
      }
    }
  }

  /**
   * `fetch_names` over a non-empty list whose results are well formed: the
   * names of exactly the results that have one, in input order, joined with
   * ", "; the empty string when every fetch failed.
   */
  lemma FetchNamesSpec(web: Web, items: seq<Json>)
    requires items != []
    requires WellFormedResults(Gather(web, items))
    ensures var results := Gather(web, items);
      var taken := Filter(Selections(results), IsTake);
      exists names: seq<string> ::
        && FetchNames(web, JArr(items)) == Some(Join(names))
        && |names| == |taken|
        && (forall j | 0 <= j < |names| :: taken[j] == Take(JStr(names[j])))
        && |names| + |Filter(Selections(results), Not(IsTake))| == |items|
        && (taken == [] ==> FetchNames(web, JArr(items)) == Some(""))
  {
    NamesOfSpec(Gather(web, items));
  }

  // The joined string splits back into the names.

  /** The position of the first ", " in `s`, `None` when there is none. */
  function FindSep(s: string): (r: Option<nat>)
    ensures r.Some? ==> r.value + 2 <= |s| && s[r.value] == ',' && s[r.value + 1] == ' '
    ensures r.Some? ==> forall i | 0 <= i < r.value :: !(s[i] == ',' && s[i + 1] == ' ')
    ensures r.None? ==> forall i | 0 <= i < |s| - 1 :: !(s[i] == ',' && s[i + 1] == ' ')
  {
    if |s| < 2 then None
    else if s[0] == ',' && s[1] == ' ' then Some(0)
    else match FindSep(s[1..])
      case None => None
      case Some(i) => Some(i + 1)
  }

  /** Cut `s` at every ", ". */
  function Split(s: string): seq<string>
    decreases |s|
  {
    match FindSep(s)
    case None => [s]
    case Some(i) => [s[..i]] + Split(s[i + 2..])
  }

  predicate NoComma(s: string) {
    forall i | 0 <= i < |s| :: s[i] != ','
  }

  lemma {:induction false} FindSepNoComma(x: string, rest: string)
    requires NoComma(x)
    ensures FindSep(x) == None
    ensures FindSep(x + ", " + rest) == Some(|x|)
  {
    if x != [] {
      FindSepNoComma(x[1..], rest);
      assert (x + ", " + rest)[1..] == x[1..] + ", " + rest;
    }
  }

  /** Splitting a join of comma-free names at ", " gives the names back. */
  lemma {:induction false} SplitJoin(names: seq<string>)
    requires names != []
    requires forall k | 0 <= k < |names| :: NoComma(names[k])
    ensures Split(Join(names)) == names
  {
    FindSepNoComma(names[0], "");
    if |names| > 1 {
      var rest := Join(names[1..]);
      FindSepNoComma(names[0], rest);
      var s := names[0] + ", " + rest;
      assert Join(names) == s;
      assert s[..|names[0]|] == names[0];
      assert s[|names[0]| + 2..] == rest;
      assert Split(s) == [names[0]] + Split(rest);
      SplitJoin(names[1..]);
      assert names == [names[0]] + names[1..];
    }
  }
}
