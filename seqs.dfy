/**
 * Order-preserving filtering, the shape of the loader's list
 * comprehensions `[x for x in xs if p(x)]`.
 */
module Seqs {

  function Filter<T>(s: seq<T>, keep: T -> bool): seq<T> {
    if s == [] then []
    else if keep(s[0]) then [s[0]] + Filter(s[1..], keep)
    else Filter(s[1..], keep)
  }

  /** The complement of a filter condition. */
  function Not<T>(keep: T -> bool): T -> bool {
    x => !keep(x)
  }

  /** An element survives the filter exactly when it was in the input and is kept. */
  lemma {:induction false} FilterMembers<T>(s: seq<T>, keep: T -> bool, x: T)
    ensures x in Filter(s, keep) <==> x in s && keep(x)
  {
    if s != [] {
      FilterMembers(s[1..], keep, x);
      assert s == [s[0]] + s[1..];
    }
  }

  /** The kept and the dropped elements together account for the whole input. */
  lemma {:induction false} FilterCount<T>(s: seq<T>, keep: T -> bool)
    ensures |Filter(s, keep)| + |Filter(s, Not(keep))| == |s|
  {
    if s != [] {
      FilterCount(s[1..], keep);
    }
  }

  /** Nothing is dropped when everything is kept, and nothing survives when nothing is. */
  lemma {:induction false} FilterExtremes<T>(s: seq<T>, keep: T -> bool)
    ensures (forall i | 0 <= i < |s| :: keep(s[i])) ==> Filter(s, keep) == s
    ensures (forall i | 0 <= i < |s| :: !keep(s[i])) ==> Filter(s, keep) == []
  {
    if s != [] {
      FilterExtremes(s[1..], keep);
      assert forall i | 0 <= i < |s[1..]| :: s[1..][i] == s[i + 1];
      assert s == [s[0]] + s[1..];
    }
  }
}
