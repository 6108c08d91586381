/** The criteria of a close-approach query and what each one demands of an approach.

    A query is given ten criteria, one per key of the caller's filter record:
    `date`, `start_date`, `end_date`, `distance_min`, `distance_max`,
    `velocity_min`, `velocity_max`, `diameter_min`, `diameter_max` and
    `hazardous`. A criterion is active only when its bound is truthy: a date
    bound whenever one is given, a numeric bound when it is given and non-zero,
    the hazard flag when it is given at all. */
module Filters {
  import opened Models

  datatype FilterSet = FilterSet(
    date: Option<Date>,
    startDate: Option<Date>,
    endDate: Option<Date>,
    distanceMin: Option<real>,
    distanceMax: Option<real>,
    velocityMin: Option<real>,
    velocityMax: Option<real>,
    diameterMin: Option<real>,
    diameterMax: Option<real>,
    hazardous: Option<bool>)

  /** A numeric bound is truthy when it is present and not zero. */
  predicate Active(b: Option<real>) {
    b.Some? && b.value != 0.0
  }

  /** No criterion is active: the query keeps every approach. */
  predicate Inactive(f: FilterSet) {
    && f.date.None? && f.startDate.None? && f.endDate.None?
    && !Active(f.distanceMin) && !Active(f.distanceMax)
    && !Active(f.velocityMin) && !Active(f.velocityMax)
    && !Active(f.diameterMin) && !Active(f.diameterMax)
    && f.hazardous.None?
  }

  /** The active criteria that look only at the approach itself: its calendar date,
      its distance and its velocity, every bound inclusive. */
  predicate ApproachCriteriaHold(f: FilterSet, a: CloseApproach) {
    var day := a.time.date;
    && (f.date.Some? ==> day == f.date.value)
    && (f.startDate.Some? ==> DateLe(f.startDate.value, day))
    && (f.endDate.Some? ==> DateLe(day, f.endDate.value))
    && (Active(f.distanceMin) ==> f.distanceMin.value <= a.distance)
    && (Active(f.distanceMax) ==> a.distance <= f.distanceMax.value)
    && (Active(f.velocityMin) ==> f.velocityMin.value <= a.velocity)
    && (Active(f.velocityMax) ==> a.velocity <= f.velocityMax.value)
  }

  /** Some active criterion looks at the approach's NEO. */
  predicate NeedsNeo(f: FilterSet) {
    Active(f.diameterMin) || Active(f.diameterMax) || f.hazardous.Some?
  }

  /** The active criteria on the NEO: inclusive diameter bounds, which an unknown
      diameter always passes, and the hazard flag. */
  predicate NeoCriteriaHold(f: FilterSet, n: NearEarthObject) {
    && (Active(f.diameterMin) && n.diameter.Km? ==> f.diameterMin.value <= n.diameter.km)
    && (Active(f.diameterMax) && n.diameter.Km? ==> n.diameter.km <= f.diameterMax.value)
    && (f.hazardous.Some? ==> n.hazardous == f.hazardous.value)
  }

  /** The approach is yielded by the query: every active criterion holds. */
  predicate Selected(f: FilterSet, a: CloseApproach)
    reads a
  {
    ApproachCriteriaHold(f, a) && (NeedsNeo(f) ==> a.neo != null && NeoCriteriaHold(f, a.neo))
  }

  /** The query fails on the approach: it passes the criteria on the approach itself and
      then a criterion on its NEO is consulted while it has none (an AttributeError). */
  predicate Raises(f: FilterSet, a: CloseApproach)
    reads a
  {
    ApproachCriteriaHold(f, a) && NeedsNeo(f) && a.neo == null
  }

  /** What the query does with one approach: yield it, skip it, or fail on it. */
  datatype Verdict = Yield | Skip | Fail

  /** The verdict the criteria, taken together, give on an approach. */
  function Judge(f: FilterSet, a: CloseApproach): Verdict
    reads a
  {
    if Raises(f, a) then Fail else if Selected(f, a) then Yield else Skip
  }

  /** Judge yields exactly the accepted approaches and fails exactly on those that raise. */
  lemma JudgeMeaning(f: FilterSet, a: CloseApproach)
    ensures Judge(f, a) == Yield <==> Selected(f, a)
    ensures Judge(f, a) == Fail <==> Raises(f, a)
  {
  }

  /** Runs the criteria on one approach in the query's order, leaving at the first
      one that rejects it; reaching a criterion on the NEO of an approach that has
      none is a failure. */
  method Screen(f: FilterSet, a: CloseApproach) returns (v: Verdict)
    ensures v == Judge(f, a)
  {
    JudgeMeaning(f, a);
    var day := a.time.date;
    if f.date.Some? && f.date.value != day {
      return Skip;
    }
    if f.startDate.Some? && !DateLe(f.startDate.value, day) {
      return Skip;
    }
    if f.endDate.Some? && !DateLe(day, f.endDate.value) {
      return Skip;
    }
    if Active(f.distanceMin) && !(f.distanceMin.value <= a.distance) {
      return Skip;
    }
    if Active(f.distanceMax) && !(f.distanceMax.value >= a.distance) {
      return Skip;
    }
    if Active(f.velocityMin) && !(f.velocityMin.value <= a.velocity) {
      return Skip;
    }
    if Active(f.velocityMax) && !(f.velocityMax.value >= a.velocity) {
      return Skip;
    }
    if Active(f.diameterMin) {
      if a.neo == null {
        return Fail;
      }
      if a.neo.diameter.Km? && !(f.diameterMin.value <= a.neo.diameter.km) {
        return Skip;
      }
    }
    if Active(f.diameterMax) {
      if a.neo == null {
        return Fail;
      }
      if a.neo.diameter.Km? && !(f.diameterMax.value >= a.neo.diameter.km) {
        return Skip;
      }
    }
    if f.hazardous.Some? && f.hazardous.value {
      if a.neo == null {
        return Fail;
      }
      if !a.neo.hazardous {
        return Skip;
      }
    }
    if f.hazardous.Some? && !f.hazardous.value {
      if a.neo == null {
        return Fail;
      }
      if a.neo.hazardous {
        return Skip;
      }
    }
    assert ApproachCriteriaHold(f, a);
    assert NeedsNeo(f) ==> a.neo != null && NeoCriteriaHold(f, a.neo);
    return Yield;
  }

  /** Every approach passes a query with no active criterion, and none raises. */
  lemma InactiveKeepsAll(f: FilterSet, a: CloseApproach)
    requires Inactive(f)
    ensures Selected(f, a) && !Raises(f, a)
  {
  }

  /** An unknown diameter is never excluded by either diameter bound. */
  lemma UnknownDiameterNeverExcluded(f: FilterSet, a: CloseApproach)
    requires a.neo != null && a.neo.diameter.Unknown?
    ensures Selected(f, a) <==> Selected(f.(diameterMin := None, diameterMax := None), a)
  {
  }

  /** A hazard criterion keeps exactly the approaches, passing the other criteria, whose
      NEO carries that flag. */
  lemma HazardCriterion(f: FilterSet, a: CloseApproach, h: bool)
    requires f.hazardous == Some(h)
    ensures Selected(f, a) <==>
      Selected(f.(hazardous := None), a) && a.neo != null && a.neo.hazardous == h
  {
  }

  /** Combine two filter sets whose active criteria are on different keys. */
  function Meet(f: FilterSet, g: FilterSet): (m: FilterSet)
    requires Disjoint(f, g)
    ensures Inactive(f) ==> m == g
  {
    FilterSet(
      if f.date.Some? then f.date else g.date,
      if f.startDate.Some? then f.startDate else g.startDate,
      if f.endDate.Some? then f.endDate else g.endDate,
      if Active(f.distanceMin) then f.distanceMin else g.distanceMin,
      if Active(f.distanceMax) then f.distanceMax else g.distanceMax,
      if Active(f.velocityMin) then f.velocityMin else g.velocityMin,
      if Active(f.velocityMax) then f.velocityMax else g.velocityMax,
      if Active(f.diameterMin) then f.diameterMin else g.diameterMin,
      if Active(f.diameterMax) then f.diameterMax else g.diameterMax,
      if f.hazardous.Some? then f.hazardous else g.hazardous)
  }

  /** No key is active in both filter sets. */
  predicate Disjoint(f: FilterSet, g: FilterSet) {
    && !(f.date.Some? && g.date.Some?)
    && !(f.startDate.Some? && g.startDate.Some?)
    && !(f.endDate.Some? && g.endDate.Some?)
    && !(Active(f.distanceMin) && Active(g.distanceMin))
    && !(Active(f.distanceMax) && Active(g.distanceMax))
    && !(Active(f.velocityMin) && Active(g.velocityMin))
    && !(Active(f.velocityMax) && Active(g.velocityMax))
    && !(Active(f.diameterMin) && Active(g.diameterMin))
    && !(Active(f.diameterMax) && Active(g.diameterMax))
    && !(f.hazardous.Some? && g.hazardous.Some?)
  }

  /** The combined set's criteria on the approach itself are those of both sets. */
  lemma MeetApproachCriteria(f: FilterSet, g: FilterSet, a: CloseApproach)
    requires Disjoint(f, g)
    ensures ApproachCriteriaHold(Meet(f, g), a) <==> ApproachCriteriaHold(f, a) && ApproachCriteriaHold(g, a)
  {
  }

  /** The combined set's criteria on the NEO are those of both sets. */
  lemma MeetNeoCriteria(f: FilterSet, g: FilterSet, n: NearEarthObject)
    requires Disjoint(f, g)
    ensures NeedsNeo(Meet(f, g)) <==> NeedsNeo(f) || NeedsNeo(g)
    ensures NeoCriteriaHold(Meet(f, g), n) <==> NeoCriteriaHold(f, n) && NeoCriteriaHold(g, n)
  {
  }

  /** Criteria compose by conjunction: an approach passes the combined set exactly
      when it passes each of the two. */
  lemma MeetIsConjunction(f: FilterSet, g: FilterSet, a: CloseApproach)
    requires Disjoint(f, g)
    ensures Selected(Meet(f, g), a) <==> Selected(f, a) && Selected(g, a)
  {
    MeetApproachCriteria(f, g, a);
    if a.neo != null {
      MeetNeoCriteria(f, g, a.neo);
      if !NeedsNeo(f) {
        NeoCriteriaWhenNotNeeded(f, a.neo);
      }
      if !NeedsNeo(g) {
        NeoCriteriaWhenNotNeeded(g, a.neo);
      }
    } else {
      assert NeedsNeo(Meet(f, g)) <==> NeedsNeo(f) || NeedsNeo(g);
    }
  }

  /** A set with no criterion on the NEO accepts every NEO. */
  lemma NeoCriteriaWhenNotNeeded(f: FilterSet, n: NearEarthObject)
    requires !NeedsNeo(f)
    ensures NeoCriteriaHold(f, n)
  {
  }
}
