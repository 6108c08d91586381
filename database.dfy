/** The in-memory store of near-Earth objects and their close approaches. */
module Database {
  import opened Models
  import opened Sequences
  import opened Linkage
  import opened Filters
  import opened Query

  /** No two NEOs share a primary designation. */
  ghost predicate UniqueDesignations(neos: seq<NearEarthObject>) {
    forall i, j :: 0 <= i < |neos| && 0 <= j < |neos| && neos[i].designation == neos[j].designation ==> i == j
  }

  /** With unique designations, looking up any stored NEO's designation finds that NEO. */
  lemma UniqueLookupFindsEach(neos: seq<NearEarthObject>, k: int)
    requires UniqueDesignations(neos) && 0 <= k < |neos|
    ensures LastWith(neos, ByDesignation, neos[k].designation) == neos[k]
  {
    OnlyOneWith(neos, k);
  }

  class NEODatabase {
    const neos: seq<NearEarthObject>
    const approaches: seq<CloseApproach>

    /** Each NEO lists exactly the approaches that refer to its designation, in stored
        order, and each approach refers back to the last NEO with its designation
        (`null` when there is none). */
    ghost predicate Linked()
      reads neos, approaches
    {
      && (forall k :: 0 <= k < |neos| ==> Lists(neos[k], approaches))
      && (forall j :: 0 <= j < |approaches| ==> Owned(approaches[j]))
    }

    /** `n` lists exactly the approaches of `s` that refer to its designation. */
    ghost predicate Lists(n: NearEarthObject, s: seq<CloseApproach>)
      reads n
    {
      n.approaches == Matches(n.designation, s)
    }

    /** `a` refers back to the last stored NEO with its designation, or to none. */
    ghost predicate Owned(a: CloseApproach)
      reads a
    {
      a.neo == LastWith(neos, ByDesignation, a.designation)
    }

    ghost predicate Valid()
      reads neos, approaches
    {
      Distinct(neos) && Linked()
    }

    /** Links the given, not yet linked, NEOs and close approaches: every pair with equal
        designations is joined, the approach appended to the NEO's list and the NEO
        recorded as the approach's owner. */
    constructor (neos: seq<NearEarthObject>, approaches: seq<CloseApproach>)
      requires Distinct(neos)
      requires forall k :: 0 <= k < |neos| ==> neos[k].approaches == []
      requires forall j :: 0 <= j < |approaches| ==> approaches[j].neo == null
      modifies neos, approaches
      ensures this.neos == neos && this.approaches == approaches
      ensures Valid()
    {
      this.neos := neos;
      this.approaches := approaches;
      new;
      for x := 0 to |approaches|
        invariant LinkedUpTo(x)
      {
        LinkNext(x);
      }
      assert approaches[..|approaches|] == approaches;
    }

    /** The linkage pass has handled the first `x` approaches: each NEO lists the matching
        ones among them, each of them refers back to its owner, and every later approach is
        unlinked or, being listed again earlier, already refers to its owner. */
    ghost predicate LinkedUpTo(x: int)
      requires 0 <= x <= |approaches|
      reads neos, approaches
    {
      && (forall k :: 0 <= k < |neos| ==> Lists(neos[k], approaches[..x]))
      && (forall j :: 0 <= j < x ==> Owned(approaches[j]))
      && (forall j :: x <= j < |approaches| ==> approaches[j].neo == null || Owned(approaches[j]))
    }

    /** Handles the approach at position `x` in the linkage pass. */
    method LinkNext(x: int)
      requires 0 <= x < |approaches|
      requires Distinct(neos) && LinkedUpTo(x)
      modifies neos, approaches
      ensures LinkedUpTo(x + 1)
    {
      MatchesStep(approaches, x);
      var a := approaches[x];
      label before:
      LinkApproach(a);
      assert Owned(a);
      forall j | 0 <= j < |approaches|
        ensures approaches[j] != a ==> approaches[j].neo == old@before(approaches[j].neo)
        ensures approaches[j] != a ==> (Owned(approaches[j]) <==> old@before(Owned(approaches[j])))
      {
      }
    }

    /** One round of the linkage pass: `a` is appended to every NEO with its designation,
        and its owner becomes the last of them, or stays as it was if there is none. */
    method LinkApproach(a: CloseApproach)
      requires Distinct(neos)
      modifies neos, a
      ensures forall k :: 0 <= k < |neos| ==>
        neos[k].approaches == old(neos[k].approaches) + (if neos[k].designation == a.designation then [a] else [])
      ensures a.neo == (var m := LastWith(neos, ByDesignation, a.designation);
                        if m != null then m else old(a.neo))
    {
      for i := 0 to |neos|
        invariant forall k :: 0 <= k < i ==>
          neos[k].approaches == old(neos[k].approaches) + (if neos[k].designation == a.designation then [a] else [])
        invariant forall k :: i <= k < |neos| ==> neos[k].approaches == old(neos[k].approaches)
        invariant a.neo == (var m := LastWith(neos[..i], ByDesignation, a.designation);
                            if m != null then m else old(a.neo))
      {
        LastWithStep(neos, ByDesignation, a.designation, i);
        if neos[i].designation == a.designation {
          neos[i].approaches := neos[i].approaches + [a];
          a.neo := neos[i];
        }
      }
      assert neos[..|neos|] == neos;
    }

    /** After linkage the approach at position `j` refers to the last NEO with its designation. */
    lemma OwnerAt(j: int)
      requires Valid() && 0 <= j < |approaches|
      ensures approaches[j].neo == LastWith(neos, ByDesignation, approaches[j].designation)
    {
      assert Owned(approaches[j]);
    }

    /** After linkage an NEO lists an approach exactly when the approach is stored and
        refers to the NEO's designation. */
    lemma ListedIffMatching(k: int, a: CloseApproach)
      requires Valid() && 0 <= k < |neos|
      ensures a in neos[k].approaches <==> a in approaches && a.designation == neos[k].designation
    {
      assert Lists(neos[k], approaches);
    }

    /** Each NEO lists its approaches in their stored order. */
    lemma ListedInOrder(k: int)
      requires Valid() && 0 <= k < |neos|
      ensures IsSubsequence(neos[k].approaches, approaches)
    {
      assert Lists(neos[k], approaches);
      MatchesInOrder(neos[k].designation, approaches);
    }

    /** A stored approach has an owner exactly when some NEO carries its designation. The
        owner is then a stored NEO with that designation that lists the approach, and no
        NEO stored after it carries the designation. */
    lemma OwnerIsLastMatch(a: CloseApproach)
      requires Valid() && a in approaches
      ensures a.neo == null <==> forall n <- neos :: n.designation != a.designation
      ensures a.neo != null ==> a.neo in neos && a.neo.designation == a.designation && a in a.neo.approaches
      ensures forall k :: 0 <= k < |neos| && neos[k] == a.neo ==>
        forall l :: k < l < |neos| ==> neos[l].designation != a.designation
    {
      var j :| 0 <= j < |approaches| && approaches[j] == a;
      assert Owned(approaches[j]);
      LastWithSpec(neos, ByDesignation, a.designation);
      LastIndexSpec(neos, ByDesignation, a.designation);
      var i := LastIndex(neos, ByDesignation, a.designation);
      if 0 <= i {
        assert Lists(neos[i], approaches);
      }
    }

    /** An approach has no owner exactly when no NEO lists it. */
    lemma OrphanIffUnlisted(a: CloseApproach)
      requires Valid() && a in approaches
      ensures a.neo == null <==> forall n <- neos :: a !in n.approaches
    {
      OwnerIsLastMatch(a);
      if a.neo == null {
        forall n | n in neos
          ensures a !in n.approaches
        {
          var k :| 0 <= k < |neos| && neos[k] == n;
          ListedIffMatching(k, a);
        }
      }
    }

    /** With unique designations the two directions of the link agree: an NEO lists an
        approach exactly when the approach refers to that NEO. */
    lemma MutualLink(k: int, a: CloseApproach)
      requires Valid() && UniqueDesignations(neos)
      requires 0 <= k < |neos| && a in approaches
      ensures a in neos[k].approaches <==> a.neo == neos[k]
    {
      OwnerIsLastMatch(a);
      ListedIffMatching(k, a);
      if a in neos[k].approaches {
        var i :| 0 <= i < |neos| && neos[i] == a.neo;
        assert i == k;
      }
    }

    /** When two NEOs share a designation, an approach with that designation is listed by
        the earlier one but does not refer to it. */
    lemma DuplicateDesignationSplitsLink(i: int, l: int, a: CloseApproach)
      requires Valid() && 0 <= i < l < |neos| && neos[i].designation == neos[l].designation
      requires a in approaches && a.designation == neos[i].designation
      ensures a in neos[i].approaches && a.neo != neos[i]
    {
      ListedIffMatching(i, a);
      OwnerIsLastMatch(a);
    }

    /** A query on a store where every approach has a matching NEO never fails. */
    lemma MatchedStoreNeverRaises(f: FilterSet)
      requires Valid()
      requires forall a <- approaches :: exists n <- neos :: n.designation == a.designation
      ensures FirstRaise(f, approaches) == |approaches|
    {
      var r := FirstRaise(f, approaches);
      if r < |approaches| {
        FirstRaiseSpec(f, approaches);
        OwnerIsLastMatch(approaches[r]);
      }
    }

    /** When every approach matches some NEO, no query fails, so querying with two filter
        sets on different keys together yields exactly the approaches that each of the two
        queries yields on its own. */
    lemma MatchedQueriesIntersect(f: FilterSet, g: FilterSet)
      requires Valid() && Disjoint(f, g)
      requires forall a <- approaches :: exists n <- neos :: n.designation == a.designation
      ensures var h := Meet(f, g);
        forall a :: a in Selection(h, approaches[..FirstRaise(h, approaches)]) <==>
          && a in Selection(f, approaches[..FirstRaise(f, approaches)])
          && a in Selection(g, approaches[..FirstRaise(g, approaches)])
    {
      MatchedStoreNeverRaises(f);
      MatchedStoreNeverRaises(g);
      MatchedStoreNeverRaises(Meet(f, g));
      assert approaches[..|approaches|] == approaches;
      MeetIsIntersection(f, g, approaches);
    }

    /** The NEO with the given primary designation; the last one if several have it,
        `null` if none does. */
    method GetNeoByDesignation(designation: string) returns (neo: NearEarthObject?)
      ensures neo == LastWith(neos, ByDesignation, designation)
      ensures neo == null <==> forall n <- neos :: n.designation != designation
      ensures neo != null ==> neo in neos && neo.designation == designation
    {
      neo := null;
      for i := 0 to |neos|
        invariant neo == LastWith(neos[..i], ByDesignation, designation)
      {
        LastWithStep(neos, ByDesignation, designation, i);
        if neos[i].designation == designation {
          neo := neos[i];
        }
      }
      assert neos[..|neos|] == neos;
      LastWithSpec(neos, ByDesignation, designation);
    }

    /** The NEO with the given name; the last one if several have it, `null` if none does. */
    method GetNeoByName(name: string) returns (neo: NearEarthObject?)
      ensures neo == LastWith(neos, ByName, name)
      ensures neo == null <==> forall n <- neos :: n.name != name
      ensures neo != null ==> neo in neos && neo.name == name
    {
      neo := null;
      for i := 0 to |neos|
        invariant neo == LastWith(neos[..i], ByName, name)
      {
        LastWithStep(neos, ByName, name, i);
        if neos[i].name == name {
          neo := neos[i];
        }
      }
      assert neos[..|neos|] == neos;
      LastWithSpec(neos, ByName, name);
    }

    /** Runs a query over the stored approaches in order. `yielded` is what the stream
        produces; `raised` tells whether it then fails on an approach that has no NEO
        while a criterion on the NEO is active. */
    method Query(f: FilterSet) returns (yielded: seq<CloseApproach>, raised: bool)
      ensures raised == (FirstRaise(f, approaches) < |approaches|)
      ensures yielded == Selection(f, approaches[..FirstRaise(f, approaches)])
    {
      yielded, raised := [], false;
      var i := 0;
      while i < |approaches| && !raised
        invariant i <= FirstRaise(f, approaches)
        invariant raised ==> i == FirstRaise(f, approaches) < |approaches|
        invariant yielded == Selection(f, approaches[..i])
        decreases |approaches| - i, if raised then 0 else 1
      {
        var a := approaches[i];
        var v := Screen(f, a);
        FirstRaiseStep(f, approaches, i, v);
        SelectionStep(f, approaches, i, v);
        if v == Fail {
          raised := true;
        } else {
          if v == Yield {
            yielded := yielded + [a];
          }
          i := i + 1;
        }
      }
    }
  }
}
