/** The two entities of the near-Earth object store and the values they carry.

    A `NearEarthObject` and a `CloseApproach` are objects: the store links them
    by updating `approaches` on the one side and `neo` on the other, so those
    two are mutable fields; everything else is fixed when the record is loaded. */
module Models {

  datatype Option<T> = None | Some(value: T)

  /** A calendar date, ordered as dates are: by year, then month, then day. */
  datatype Date = Date(year: int, month: int, day: int)

  predicate DateLe(a: Date, b: Date) {
    a.year < b.year
    || (a.year == b.year && (a.month < b.month || (a.month == b.month && a.day <= b.day)))
  }

  /** A timestamp without time zone: its calendar date and the time of day. */
  datatype DateTime = DateTime(date: Date, hour: int, minute: int)

  /** An NEO's diameter in kilometres, or `Unknown` where the source field was empty (''). */
  datatype Diameter = Unknown | Km(km: real)

  class NearEarthObject {
    /** Primary designation, the key that close approaches refer to. */
    const designation: string
    const name: string
    const diameter: Diameter
    const hazardous: bool
    /** The close approaches of this NEO, filled in by the store's linkage pass. */
    var approaches: seq<CloseApproach>

    /** A freshly loaded NEO, not yet linked to any approach. */
    constructor (designation: string, name: string, diameter: Diameter, hazardous: bool)
      ensures this.designation == designation && this.name == name
      ensures this.diameter == diameter && this.hazardous == hazardous
      ensures approaches == []
    {
      this.designation := designation;
      this.name := name;
      this.diameter := diameter;
      this.hazardous := hazardous;
      approaches := [];
    }
  }

  class CloseApproach {
    /** The designation of the NEO this approach belongs to (`_designation`). */
    const designation: string
    const time: DateTime
    /** Distance in astronomical units. */
    const distance: real
    /** Relative velocity in km/s. */
    const velocity: real
    /** The owning NEO, set by the store's linkage pass; `null` stands for Python's None. */
    var neo: NearEarthObject?

    /** A freshly loaded close approach, not yet linked to its NEO. */
    constructor (designation: string, time: DateTime, distance: real, velocity: real)
      ensures this.designation == designation && this.time == time
      ensures this.distance == distance && this.velocity == velocity
      ensures neo == null
    {
      this.designation := designation;
      this.time := time;
      this.distance := distance;
      this.velocity := velocity;
      neo := null;
    }
  }
}
