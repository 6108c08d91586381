/** What a query over the stored close approaches produces. */
module Query {
  import opened Models
  import opened Sequences
  import opened Filters

  /** The approaches of `s` that every active criterion of `f` accepts, in the order of `s`:
      what a query yields from the approaches it scans before any failure. */
  function Selection(f: FilterSet, s: seq<CloseApproach>): (r: seq<CloseApproach>)
    reads s
    ensures |r| <= |s|
  {
    if s == [] then []
    else
      var last := s[|s| - 1];
      Selection(f, s[..|s| - 1]) + (if Judge(f, last) == Yield then [last] else [])
  }

  /** An approach is in the selection exactly when it is in `s` and every active
      criterion accepts it. */
  lemma {:induction false} SelectionMembers(f: FilterSet, s: seq<CloseApproach>)
    ensures forall a :: a in Selection(f, s) ==> a in s && Selected(f, a)
    ensures forall a :: a in s && Selected(f, a) ==> a in Selection(f, s)
  {
    if s != [] {
      var init, last := s[..|s| - 1], s[|s| - 1];
      assert s == init + [last];
      SelectionMembers(f, init);
    }
  }

  /** The position of the first approach of `s` on which the query raises, or |s|. */
  function FirstRaise(f: FilterSet, s: seq<CloseApproach>): (k: nat)
    reads s
    ensures k <= |s|
  {
    if s == [] || Judge(f, s[0]) == Fail then 0 else 1 + FirstRaise(f, s[1..])
  }

  /** No approach before FirstRaise makes the query raise, and the one at FirstRaise does. */
  lemma {:induction false} FirstRaiseSpec(f: FilterSet, s: seq<CloseApproach>)
    ensures forall j :: 0 <= j < FirstRaise(f, s) ==> !Raises(f, s[j])
    ensures FirstRaise(f, s) < |s| ==> Raises(f, s[FirstRaise(f, s)])
  {
    if s != [] && !Raises(f, s[0]) {
      FirstRaiseSpec(f, s[1..]);
    }
  }

  /** The query raises at all exactly when some stored approach makes it raise. */
  lemma RaisesSomewhere(f: FilterSet, s: seq<CloseApproach>)
    ensures FirstRaise(f, s) < |s| <==> exists j :: 0 <= j < |s| && Raises(f, s[j])
  {
    FirstRaiseSpec(f, s);
  }

  /** Scanning past position `i` without having raised: the query raises at `i` exactly
      when the approach there makes it raise. */
  lemma FirstRaiseStep(f: FilterSet, s: seq<CloseApproach>, i: int, v: Verdict)
    requires 0 <= i < |s| && i <= FirstRaise(f, s) && v == Judge(f, s[i])
    ensures FirstRaise(f, s) == i <==> v == Fail
  {
    FirstRaiseSpec(f, s);
  }

  /** Selecting from one more stored approach adds it at the end exactly when its
      verdict is to yield it. */
  lemma SelectionStep(f: FilterSet, s: seq<CloseApproach>, i: int, v: Verdict)
    requires 0 <= i < |s| && v == Judge(f, s[i])
    ensures Selection(f, s[..i + 1]) == Selection(f, s[..i]) + if v == Yield then [s[i]] else []
  {
    assert s[..i + 1][..i] == s[..i];
  }

  /** The query keeps the approaches in their stored order. */
  lemma {:induction false} SelectionInOrder(f: FilterSet, s: seq<CloseApproach>)
    ensures IsSubsequence(Selection(f, s), s)
  {
    if s == [] {
      EmptyIsSubsequence(s);
    } else {
      var init, last := s[..|s| - 1], s[|s| - 1];
      var keep := Selected(f, last);
      assert s == init + [last];
      var r0 := Selection(f, init);
      assert Selection(f, s) == if keep then r0 + [last] else r0;
      SelectionInOrder(f, init);
      SubsequenceGrow(r0, init, last, keep);
    }
  }

  /** With no active criterion the query yields every approach, in order, and never raises. */
  lemma {:induction false} InactiveSelectsAll(f: FilterSet, s: seq<CloseApproach>)
    requires Inactive(f)
    ensures Selection(f, s) == s
    ensures FirstRaise(f, s) == |s|
  {
    if s != [] {
      InactiveSelectsAll(f, s[..|s| - 1]);
      InactiveKeepsAll(f, s[|s| - 1]);
      assert s[..|s| - 1] + [s[|s| - 1]] == s;
    }
    if FirstRaise(f, s) < |s| {
      FirstRaiseSpec(f, s);
      InactiveKeepsAll(f, s[FirstRaise(f, s)]);
    }
  }

  /** The selection by two filter sets on different keys together is the selection by
      one from the selection by the other. This is what the queries yield when none of
      them fails; see `NEODatabase.MatchedQueriesIntersect`. */
  lemma {:induction false} MeetSelectsIntersection(f: FilterSet, g: FilterSet, s: seq<CloseApproach>)
    requires Disjoint(f, g)
    ensures Selection(Meet(f, g), s) == Selection(f, Selection(g, s))
  {
    if s != [] {
      var init, last := s[..|s| - 1], s[|s| - 1];
      MeetSelectsIntersection(f, g, init);
      MeetIsConjunction(f, g, last);
      var rg := Selection(g, init);
      if Selected(g, last) {
        assert Selection(g, s) == rg + [last];
        assert (rg + [last])[..|rg|] == rg;
      } else {
        assert Selection(g, s) == rg;
      }
    }
  }

  /** The selection by two filter sets on different keys together holds exactly the
      approaches that each of the two selects on its own. */
  lemma MeetIsIntersection(f: FilterSet, g: FilterSet, s: seq<CloseApproach>)
    requires Disjoint(f, g)
    ensures forall a :: a in Selection(Meet(f, g), s) <==> a in Selection(f, s) && a in Selection(g, s)
  {
    SelectionMembers(Meet(f, g), s);
    SelectionMembers(f, s);
    SelectionMembers(g, s);
    forall a
      ensures a in Selection(Meet(f, g), s) <==> a in Selection(f, s) && a in Selection(g, s)
    {
      MeetIsConjunction(f, g, a);
    }
  }
}
