/** Order-related facts about sequences shared by the linkage and the query. */
module Sequences {

  /** No element occurs twice. */
  ghost predicate Distinct<T>(s: seq<T>) {
    forall i, j :: 0 <= i < j < |s| ==> s[i] != s[j]
  }

  /** `idx` picks out `r` from `s` at strictly increasing positions. */
  ghost predicate EmbeddedBy<T>(r: seq<T>, s: seq<T>, idx: seq<int>) {
    && |idx| == |r|
    && (forall k :: 0 <= k < |idx| ==> 0 <= idx[k] < |s| && r[k] == s[idx[k]])
    && (forall k, l :: 0 <= k < l < |idx| ==> idx[k] < idx[l])
  }

  /** `r` is `s` with some elements removed and the rest kept in their order. */
  ghost predicate IsSubsequence<T>(r: seq<T>, s: seq<T>) {
    exists idx :: EmbeddedBy(r, s, idx)
  }

  /** Appending one element to `s`, and optionally to `r` as well, keeps `r` a subsequence. */
  lemma SubsequenceGrow<T>(r: seq<T>, s: seq<T>, x: T, keep: bool)
    requires IsSubsequence(r, s)
    ensures IsSubsequence(if keep then r + [x] else r, s + [x])
  {
    var idx :| EmbeddedBy(r, s, idx);
    if keep {
      assert EmbeddedBy(r + [x], s + [x], idx + [|s|]);
    } else {
      assert EmbeddedBy(r, s + [x], idx);
    }
  }

  lemma EmptyIsSubsequence<T>(s: seq<T>)
    ensures IsSubsequence([], s)
  {
    assert EmbeddedBy([], s, []);
  }
}
