/** Two small stores worked through end to end. The first has three NEOs and two close
    approaches and is given a hazard query, a minimum-diameter query and a lookup miss; the
    second has an approach that matches no NEO, on which a hazard query fails. */
module Scenario {
  import opened Models
  import opened Linkage
  import opened Filters
  import opened Query
  import opened Database

  /** The filter record with every key present and no criterion active. */
  function NoCriteria(): (f: FilterSet)
    ensures Inactive(f)
  {
    FilterSet(None, None, None, None, None, None, None, None, None, None)
  }

  /** Builds the store of NEOs A (0.5 km, not hazardous), B (unknown diameter, hazardous)
      and C (2.0 km, not hazardous) with one approach to A on 2020-01-01 and one to B on
      2020-06-01. */
  method BuildExample() returns (db: NEODatabase, a: NearEarthObject, b: NearEarthObject, c: NearEarthObject,
                                 toA: CloseApproach, toB: CloseApproach)
    ensures db.Valid() && db.neos == [a, b, c] && db.approaches == [toA, toB]
    ensures a.designation == "A" && a.diameter == Km(0.5) && !a.hazardous
    ensures b.designation == "B" && b.diameter == Unknown && b.hazardous
    ensures c.designation == "C"
    ensures toA.designation == "A" && toB.designation == "B"
  {
    a := new NearEarthObject("A", "", Km(0.5), false);
    b := new NearEarthObject("B", "", Unknown, true);
    c := new NearEarthObject("C", "", Km(2.0), false);
    toA := new CloseApproach("A", DateTime(Date(2020, 1, 1), 0, 0), 0.1, 5.0);
    toB := new CloseApproach("B", DateTime(Date(2020, 6, 1), 0, 0), 0.2, 7.0);
    db := new NEODatabase([a, b, c], [toA, toB]);
  }

  /** In that store, linkage gives the approach to A the NEO A and the approach to B the
      NEO B, and no NEO carries the designation "2020 AB". */
  lemma ExampleLinks(db: NEODatabase, a: NearEarthObject, b: NearEarthObject, c: NearEarthObject,
                     toA: CloseApproach, toB: CloseApproach)
    requires db.Valid() && db.neos == [a, b, c] && db.approaches == [toA, toB]
    requires a.designation == "A" && b.designation == "B" && c.designation == "C"
    requires toA.designation == "A" && toB.designation == "B"
    ensures toA.neo == a && toB.neo == b
    ensures LastWith(db.neos, ByDesignation, "2020 AB") == null
  {
    LastWithSpec(db.neos, ByDesignation, "2020 AB");
    db.OwnerAt(0);
    db.OwnerAt(1);
    OnlyOneWith(db.neos, 0);
    OnlyOneWith(db.neos, 1);
  }

  /** On that store, asking for hazardous NEOs yields the approach to B only, and so does
      asking for a diameter of at least 1.0 km: A is too small, B's unknown diameter is
      never excluded and C has no approach. Neither query fails. Looking up the
      designation "2020 AB" finds nothing. */
  method BoundaryExample() returns (toB: CloseApproach, hazardous: seq<CloseApproach>, hazardousRaised: bool,
                                    large: seq<CloseApproach>, largeRaised: bool, missing: NearEarthObject?)
    ensures hazardous == [toB] && !hazardousRaised
    ensures large == [toB] && !largeRaised
    ensures toB.designation == "B" && toB.neo != null && toB.neo.diameter.Unknown?
    ensures missing == null
  {
    var db, a, b, c, toA;
    db, a, b, c, toA, toB := BuildExample();
    ExampleLinks(db, a, b, c, toA, toB);
    Verdicts(toA, toB);

    var onlyHazardous := NoCriteria().(hazardous := Some(true));
    hazardous, hazardousRaised := db.Query(onlyHazardous);
    SecondOfTwo(onlyHazardous, db.approaches);

    var atLeastOneKm := NoCriteria().(diameterMin := Some(1.0));
    large, largeRaised := db.Query(atLeastOneKm);
    SecondOfTwo(atLeastOneKm, db.approaches);

    missing := db.GetNeoByDesignation("2020 AB");
  }

  /** Builds a store of one hazardous NEO "N" with two approaches: one to "X", which no NEO
      carries, at 1.0 au, then one to "N" at 3.0 au. The first stays without an NEO. */
  method BuildOrphanExample() returns (db: NEODatabase, toX: CloseApproach, toN: CloseApproach)
    ensures db.Valid() && db.approaches == [toX, toN]
    ensures toX.neo == null && toX.distance == 1.0
    ensures toN.neo != null && toN.neo.hazardous && toN.distance == 3.0
  {
    var n := new NearEarthObject("N", "", Unknown, true);
    toX := new CloseApproach("X", DateTime(Date(2020, 1, 1), 0, 0), 1.0, 5.0);
    toN := new CloseApproach("N", DateTime(Date(2020, 2, 1), 0, 0), 3.0, 5.0);
    var neos := [n];
    db := new NEODatabase(neos, [toX, toN]);
    db.OwnerAt(0);
    db.OwnerAt(1);
    LastIndexSpec(neos, ByDesignation, "X");
    OnlyOneWith(neos, 0);
  }

  /** On that store, asking for hazardous NEOs fails on the unmatched approach before
      yielding anything, while asking in addition for a distance of at least 2.0 au skips
      that approach on its distance and yields the approach to "N". So on a store with an
      unmatched approach, what a combined query yields is not what the two queries yield
      in common. */
  method OrphanExample() returns (toN: CloseApproach, hazardous: seq<CloseApproach>, hazardousRaised: bool,
                                  combined: seq<CloseApproach>, combinedRaised: bool)
    ensures hazardous == [] && hazardousRaised
    ensures combined == [toN] && !combinedRaised
  {
    var db, toX;
    db, toX, toN := BuildOrphanExample();
    OrphanVerdicts(toX, toN);

    var onlyHazardous := NoCriteria().(hazardous := Some(true));
    hazardous, hazardousRaised := db.Query(onlyHazardous);
    FailsFirst(onlyHazardous, db.approaches);

    var both := Meet(NoCriteria().(distanceMin := Some(2.0)), onlyHazardous);
    combined, combinedRaised := db.Query(both);
    SecondOfTwo(both, db.approaches);
  }

  /** The criteria of the orphan example: the hazard query fails on the approach without an
      NEO, and the combined query skips it on its distance and yields the other one. */
  lemma OrphanVerdicts(toX: CloseApproach, toN: CloseApproach)
    requires toX.neo == null && toX.distance == 1.0
    requires toN.neo != null && toN.neo.hazardous && toN.distance == 3.0
    ensures Judge(NoCriteria().(hazardous := Some(true)), toX) == Fail
    ensures var both := Meet(NoCriteria().(distanceMin := Some(2.0)), NoCriteria().(hazardous := Some(true)));
      Judge(both, toX) == Skip && Judge(both, toN) == Yield
  {
  }

  /** A query that fails on the first approach yields nothing. */
  lemma FailsFirst(f: FilterSet, s: seq<CloseApproach>)
    requires |s| > 0 && Judge(f, s[0]) == Fail
    ensures FirstRaise(f, s) == 0 < |s| && Selection(f, s[..FirstRaise(f, s)]) == []
  {
  }

  /** The two criteria of the example reject the approach to A and accept the one to B. */
  lemma Verdicts(toA: CloseApproach, toB: CloseApproach)
    requires toA.neo != null && toA.neo.diameter == Km(0.5) && !toA.neo.hazardous
    requires toB.neo != null && toB.neo.diameter == Unknown && toB.neo.hazardous
    ensures Judge(NoCriteria().(hazardous := Some(true)), toA) == Skip
    ensures Judge(NoCriteria().(hazardous := Some(true)), toB) == Yield
    ensures Judge(NoCriteria().(diameterMin := Some(1.0)), toA) == Skip
    ensures Judge(NoCriteria().(diameterMin := Some(1.0)), toB) == Yield
  {
  }

  /** Of two approaches, a query that skips the first and yields the second does not
      fail and yields the second alone. */
  lemma SecondOfTwo(f: FilterSet, s: seq<CloseApproach>)
    requires |s| == 2 && Judge(f, s[0]) == Skip && Judge(f, s[1]) == Yield
    ensures FirstRaise(f, s) == 2 && Selection(f, s[..FirstRaise(f, s)]) == [s[1]]
  {
    assert s[1..][1..] == [];
    assert s[..2] == s && s[..1] == [s[0]];
  }
}
