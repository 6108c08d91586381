/** What the store's linkage pass and point lookups compute, stated on the
    NEO and close-approach collections. */
module Linkage {
  import opened Models
  import opened Sequences

  /** The approaches of `s` whose designation reference is `d`, in the order of `s`:
      what the linkage pass appends to the `approaches` of an NEO designated `d`. */
  function Matches(d: string, s: seq<CloseApproach>): (r: seq<CloseApproach>)
    ensures |r| <= |s|
    ensures forall a :: a in r ==> a in s && a.designation == d
    ensures forall a :: a in s && a.designation == d ==> a in r
  {
    if s == [] then []
    else
      var last := s[|s| - 1];
      Matches(d, s[..|s| - 1]) + (if last.designation == d then [last] else [])
  }

  /** Matching against one more stored approach appends it exactly when it refers to `d`. */
  lemma MatchesStep(s: seq<CloseApproach>, x: int)
    requires 0 <= x < |s|
    ensures forall d ::
      Matches(d, s[..x + 1]) == Matches(d, s[..x]) + if s[x].designation == d then [s[x]] else []
  {
    assert s[..x + 1][..x] == s[..x];
  }

  /** Matches keeps the approaches in their stored order. */
  lemma {:induction false} MatchesInOrder(d: string, s: seq<CloseApproach>)
    ensures IsSubsequence(Matches(d, s), s)
  {
    if s == [] {
      EmptyIsSubsequence(s);
    } else {
      var init, last := s[..|s| - 1], s[|s| - 1];
      var keep := last.designation == d;
      assert s == init + [last];
      var r0 := Matches(d, init);
      assert Matches(d, s) == if keep then r0 + [last] else r0;
      MatchesInOrder(d, init);
      SubsequenceGrow(r0, init, last, keep);
    }
  }

  /** The two exact-match lookups of the store: by primary designation and by name. */
  datatype Key = ByDesignation | ByName

  function KeyOf(n: NearEarthObject, k: Key): string {
    match k
    case ByDesignation => n.designation
    case ByName => n.name
    }

  /** The position of the last NEO of `neos` whose key `k` equals `v`, or -1. */
  function LastIndex(neos: seq<NearEarthObject>, k: Key, v: string): (i: int)
    ensures -1 <= i < |neos|
  {
    if neos == [] then -1
    else if KeyOf(neos[|neos| - 1], k) == v then |neos| - 1
    else LastIndex(neos[..|neos| - 1], k, v)
  }

  /** LastIndex points at an NEO with the key, and no NEO after it has the key. */
  lemma {:induction false} LastIndexSpec(neos: seq<NearEarthObject>, k: Key, v: string)
    ensures var i := LastIndex(neos, k, v);
      && (0 <= i ==> KeyOf(neos[i], k) == v)
      && forall j :: i < j < |neos| ==> KeyOf(neos[j], k) != v
  {
    if neos != [] && KeyOf(neos[|neos| - 1], k) != v {
      LastIndexSpec(neos[..|neos| - 1], k, v);
    }
  }

  /** The last NEO of `neos` whose key `k` equals `v`, or `null` when there is none:
      what a lookup scan that overwrites its result on every match ends with. */
  function LastWith(neos: seq<NearEarthObject>, k: Key, v: string): NearEarthObject? {
    var i := LastIndex(neos, k, v);
    if i < 0 then null else neos[i]
  }

  /** LastWith finds nothing exactly when no NEO has the key; otherwise no later NEO
      shares the key of the one it finds. */
  lemma LastWithSpec(neos: seq<NearEarthObject>, k: Key, v: string)
    ensures LastWith(neos, k, v) == null <==> forall n :: n in neos ==> KeyOf(n, k) != v
    ensures LastWith(neos, k, v) != null ==>
      var i := LastIndex(neos, k, v);
      0 <= i && neos[i] == LastWith(neos, k, v) && KeyOf(neos[i], k) == v
  {
    LastIndexSpec(neos, k, v);
    var i := LastIndex(neos, k, v);
    if i < 0 {
      forall n | n in neos
        ensures KeyOf(n, k) != v
      {
        var j :| 0 <= j < |neos| && neos[j] == n;
      }
    }
  }

  /** An NEO whose designation no other NEO shares is what a lookup of that designation finds. */
  lemma OnlyOneWith(neos: seq<NearEarthObject>, i: int)
    requires 0 <= i < |neos|
    requires forall j :: 0 <= j < |neos| && j != i ==> neos[j].designation != neos[i].designation
    ensures LastWith(neos, ByDesignation, neos[i].designation) == neos[i]
  {
    LastIndexSpec(neos, ByDesignation, neos[i].designation);
  }

  /** Scanning one more NEO: it becomes the result exactly when its key matches. */
  lemma LastWithStep(neos: seq<NearEarthObject>, k: Key, v: string, i: int)
    requires 0 <= i < |neos|
    ensures LastWith(neos[..i + 1], k, v) ==
      if KeyOf(neos[i], k) == v then neos[i] else LastWith(neos[..i], k, v)
  {
    assert neos[..i + 1][..i] == neos[..i];
  }

  /** A name lookup compares names exactly, so an empty name finds an NEO stored with an
      empty name just like any other name. */
  lemma EmptyNameFindsStoredEmptyName(neos: seq<NearEarthObject>)
    requires exists n <- neos :: n.name == ""
    ensures LastWith(neos, ByName, "") != null && LastWith(neos, ByName, "").name == ""
  {
    LastWithSpec(neos, ByName, "");
  }
}
