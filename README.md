# Near-Earth object store: a verified model

This project models the in-memory store `NEODatabase` of the Near-Earth-Objects
explorer: the store of near-Earth objects (NEOs) and their close approaches to
Earth. It covers the three parts of the store:

- **Linkage.** The constructor links the NEOs and the close approaches it is given.
  For every approach, and every NEO whose primary designation equals the approach's
  designation reference, it appends the approach to the NEO's `approaches` list and
  makes the NEO the approach's `neo`.
- **Lookups.** `get_neo_by_designation` and `get_neo_by_name` scan the NEOs. They
  overwrite the result on every match, so the last match wins, and a miss gives `None`.
- **Query.** `query` scans the approaches in stored order and yields those that pass
  every active criterion. The criteria are:
  - an exact date, a start date and an end date, compared with the calendar date of
    the approach time;
  - inclusive bounds on distance and on velocity;
  - inclusive bounds on the NEO's diameter, which an unknown diameter always passes;
  - the NEO's hazard flag.

The model is imperative where the program is:

- `NearEarthObject` and `CloseApproach` are classes. Their `approaches` and `neo`
  fields are mutable and are updated by the linkage loops. Python's `None` is `null`.
- `NEODatabase` is a class whose constructor runs the nested linkage loop.
- The lookups and the query are methods with loops. Each is proved against a
  specification function:
  - `Matches`: the approaches an NEO must list;
  - `LastWith`: the last NEO with a key;
  - `Selection`: the approaches a query yields;
  - `FirstRaise`: where a query stops.

Lemmas prove what those functions mean. The program's filter record is a value,
`FilterSet`, with one optional field per key. Python truthiness is written out:
- a numeric bound is active only when it is present and non-zero;
- a date bound is active whenever it is present;
- the hazard criterion is active whenever it is `True` or `False`.

The query is modelled with its failure mode. If a criterion on the NEO (a diameter
bound or the hazard flag) is active and an approach has no NEO, `approach.neo.diameter`
or `approach.neo.hazardous` raises an `AttributeError`. The model returns the
approaches yielded up to that point together with `raised == true`.

The source's docstrings state some expectations of the data that the code does not
check. The model follows the code:

- No NEO is said to have an empty or `None` name (database.py:84-85). Yet a name lookup
  of the empty string finds an NEO stored with an empty name.
  `EmptyNameFindsStoredEmptyName` states this; the code does not exclude empty names.
- Every approach is said to carry the designation of its NEO (database.py:32-33). Yet an
  approach whose designation matches no NEO is left unlinked (`neo == null`, in no list),
  and construction does not reject it.
- A query with a criterion on the NEO fails on such an approach only when the scan
  reaches it and it passes the date, distance and velocity criteria (`Filters.Raises`).
  Filters on different keys therefore combine as an intersection of the query results
  only when no query fails. `MatchedQueriesIntersect` proves this for stores where every
  approach matches an NEO. `Scenario.OrphanExample` shows a store with one unmatched
  approach where a hazard query fails and yields nothing, while the same hazard query
  combined with a distance bound yields an approach.
- Designations are said to be unique (database.py:58). When designations repeat, the
  approach is listed by every NEO with that designation but refers only to the last one.
  `DuplicateDesignationSplitsLink` states this.
- A diameter bound never excludes an NEO of unknown diameter. In the worked example of
  `Scenario.BoundaryExample`, a minimum diameter of 1.0 km yields the approach to the
  NEO of unknown diameter.

Files: `models.dfy` (entities), `sequences.dfy` (distinctness, subsequences),
`linkage.dfy` (what linkage and lookups compute), `filters.dfy` (the criteria and
the per-approach screen), `query.dfy` (what a query yields), `database.dfy` (the
store), `scenario.dfy` (two worked examples).

## Model

| member | source | states |
|---|---|---|
| Linkage.Matches | database.py:46-50 | the approaches an NEO gets: no more than are stored, each stored and carrying the NEO's designation, and every stored approach with that designation among them |
| Linkage.MatchesInOrder | database.py:46-50 | an NEO's list keeps the approaches in their stored order (it is a subsequence of the stored approaches) |
| Linkage.LastIndexSpec | database.py:69-71 | the lookup position holds an NEO with the key, and no NEO after it has the key |
| Linkage.LastWithSpec | database.py:69-76 | a lookup finds nothing exactly when no NEO has the key; otherwise it finds the NEO at the last matching position |
| Linkage.LastWithStep | database.py:69-71 | scanning one more NEO replaces the result exactly when that NEO's key matches (last match wins) |
| Linkage.OnlyOneWith | database.py:69-76 | an NEO whose designation no other NEO shares is what a lookup of that designation finds |
| Linkage.EmptyNameFindsStoredEmptyName | database.py:97-104 | a name lookup of the empty string finds an NEO stored with an empty name |
| Filters.JudgeMeaning | database.py:123-149 | the verdict on an approach is "yield" exactly when every active criterion holds, and "fail" exactly when a criterion on the NEO is reached for an approach without one |
| Filters.Screen | database.py:124-147 | the query's chain of criteria, run in source order with early exits, gives exactly that verdict |
| Filters.InactiveKeepsAll | database.py:124-147 | with every bound falsy and no hazard flag, every approach passes and none fails |
| Filters.UnknownDiameterNeverExcluded | database.py:138-143 | an NEO of unknown diameter passes exactly when it passes with both diameter bounds removed |
| Filters.HazardCriterion | database.py:144-147 | a hazard flag `h` keeps exactly the approaches that pass the other criteria and whose NEO has hazard flag `h` |
| Filters.Meet | database.py:124-147 | combining an inactive filter set with another gives the other one |
| Filters.MeetApproachCriteria | database.py:124-137 | for filter sets on different keys, the combined criteria on the approach hold exactly when both sets' criteria hold |
| Filters.MeetNeoCriteria | database.py:138-147 | for filter sets on different keys, the combined set needs the NEO exactly when one of them does, and its criteria on the NEO hold exactly when both sets' criteria do |
| Filters.MeetIsConjunction | database.py:124-147 | an approach passes two filter sets on different keys together exactly when it passes each one |
| Filters.NeoCriteriaWhenNotNeeded | database.py:138-147 | a filter set with no criterion on the NEO accepts every NEO |
| Query.Selection | database.py:123-149 | the selection (what a query yields from the approaches it scans before any failure) has no more approaches than were scanned |
| Query.SelectionMembers | database.py:123-149 | an approach is in the selection exactly when it is among the scanned approaches and every active criterion holds for it (soundness and completeness) |
| Query.FirstRaise | database.py:138-147 | the position where a query fails is at most the number of stored approaches |
| Query.FirstRaiseSpec | database.py:138-147 | no approach before that position makes the query fail, and the approach at that position does |
| Query.RaisesSomewhere | database.py:138-147 | a query fails exactly when some stored approach makes it fail |
| Query.FirstRaiseStep | database.py:123-147 | while scanning without having failed, the query fails at an approach exactly when its verdict is "fail" |
| Query.SelectionStep | database.py:123-149 | one more scanned approach is appended to the result exactly when its verdict is "yield" |
| Query.SelectionInOrder | database.py:123-149 | the selection keeps the scanned approaches in their stored order (it is a subsequence of them) |
| Query.InactiveSelectsAll | database.py:123-149 | with no active criterion the query yields every approach, in order, and never fails |
| Query.MeetSelectsIntersection | database.py:123-149 | the selection by two filter sets on different keys together equals the selection by one from the selection by the other (the query's output when no query fails) |
| Query.MeetIsIntersection | database.py:123-149 | an approach is in the selection by two filter sets on different keys together exactly when it is in the selection by each one (the query's output when no query fails) |
| Database.UniqueLookupFindsEach | database.py:69-76 | with unique designations, looking up any stored NEO's designation finds that NEO |
| Database.NEODatabase.constructor | database.py:42-50 | the store holds the given collections, and afterwards each NEO lists exactly its matching approaches and each approach refers to the last NEO with its designation |
| Database.NEODatabase.LinkNext | database.py:46-50 | one round of the outer linkage loop extends the linked state from the first `x` approaches to the first `x + 1` |
| Database.NEODatabase.LinkApproach | database.py:47-50 | the inner loop appends the approach to every NEO with its designation, changes no other list, and sets the approach's NEO to the last such NEO, or leaves it as it was if there is none |
| Database.NEODatabase.OwnerAt | database.py:46-50 | after linkage each stored approach refers to the last NEO with its designation |
| Database.NEODatabase.ListedIffMatching | database.py:46-50 | after linkage an NEO lists an approach exactly when the approach is stored and carries its designation |
| Database.NEODatabase.ListedInOrder | database.py:46-50 | each NEO lists its approaches in stored order |
| Database.NEODatabase.OwnerIsLastMatch | database.py:46-50 | an approach has an NEO exactly when some NEO has its designation; that NEO is stored, has the designation, lists the approach, and no later NEO has the designation |
| Database.NEODatabase.OrphanIffUnlisted | database.py:46-50 | an approach has no NEO exactly when no NEO lists it |
| Database.NEODatabase.MutualLink | database.py:46-50 | with unique designations, an NEO lists an approach exactly when the approach refers to that NEO |
| Database.NEODatabase.DuplicateDesignationSplitsLink | database.py:46-50 | when two NEOs share a designation, the earlier one lists the approach but the approach does not refer to it |
| Database.NEODatabase.MatchedStoreNeverRaises | database.py:138-147 | when every approach matches some NEO, no query fails |
| Database.NEODatabase.MatchedQueriesIntersect | database.py:123-149 | when every approach matches some NEO, querying with two filter sets on different keys together yields exactly the approaches that both separate queries yield |
| Database.NEODatabase.GetNeoByDesignation | database.py:67-76 | the result is the last NEO with the designation; it is `null` exactly when no NEO has it; otherwise it is stored and has the designation |
| Database.NEODatabase.GetNeoByName | database.py:96-104 | the result is the last NEO with the name; it is `null` exactly when no NEO has it; otherwise it is stored and has the name |
| Database.NEODatabase.Query | database.py:121-149 | the query fails exactly when some approach makes it fail, and it yields the selection from the approaches before the first such one |
| Scenario.NoCriteria | database.py:124-147 | the filter record with every key present has no active criterion |
| Scenario.BuildExample | database.py:42-50 | constructing the store from NEOs A, B, C and one approach each to A and B gives a linked store holding them |
| Scenario.ExampleLinks | database.py:46-50 | in that store each approach refers to its NEO, and a lookup of "2020 AB" finds nothing |
| Scenario.BoundaryExample | database.py:123-149 | on that store, the hazard query and the 1.0 km minimum-diameter query both yield exactly the approach to B (unknown diameter) without failing, and looking up "2020 AB" gives `null` |
| Scenario.BuildOrphanExample | database.py:42-50 | constructing a store of NEO "N" with an approach to the unknown "X" and one to "N" leaves the first without an NEO and links the second |
| Scenario.OrphanExample | database.py:123-149 | on that store, the hazard query fails and yields nothing, while the same hazard query combined with a distance bound of at least 2.0 au yields the approach to "N" without failing |
| Scenario.OrphanVerdicts | database.py:130-147 | the hazard criterion fails on the approach without an NEO; the combined criteria skip it on its distance and yield the approach to "N" |
| Scenario.FailsFirst | database.py:138-147 | a query that fails on the first approach yields nothing |
| Scenario.Verdicts | database.py:138-147 | the example criteria skip the approach to A (0.5 km, not hazardous) and yield the one to B (unknown diameter, hazardous) |
| Scenario.SecondOfTwo | database.py:123-149 | of two approaches, a query that skips the first and yields the second does not fail and yields the second alone |

## Left out

- Reading the CSV and JSON input files (extract.py) and writing results (write.py): file I/O outside the store.
- models.py is not part of this model. The entity classes are modelled from how the store uses them: designation, name, diameter (a number or unknown `''`), hazard flag, `approaches` and `neo`.
- Database.NEODatabase.Query: returns the whole result at once. It does not model the generator's laziness, so a caller consuming only a prefix is not modelled.
- Distances, velocities, diameters and bounds are exact reals. `float(...)` conversion and IEEE rounding, NaN and infinities are not modelled.
- The criteria are read from `self.filters`, which `query` assigns when its generator first runs (database.py:121). Two query generators open at once on one store share that record, so the older one continues with the newer one's criteria. The model passes each query its own filter set and does not model this sharing, just as it does not model laziness.
- The filter record always has all ten keys. A missing key (`KeyError`) and the `filters=()` default (a `TypeError` on the first index) are not modelled.
- The hazard criterion is an optional boolean. A value that equals `True` or `False` under Python `==` without being a bool (such as `1` or `0`) is not modelled.
- Database.NEODatabase.constructor: requires the given NEOs to be distinct objects. An NEO listed twice would receive each approach twice; that aliasing is not modelled.
- The `neo_by_* == ''` and `== None` tests in the lookups are modelled as "no match was found". A stored NEO that compares equal to `''` or `None` is not modelled, because models.py is not part of this model.
- Dates are compared as (year, month, day) triples and times keep only hour and minute. The calendar validity of dates is not modelled.
