/**
 The visit table the page loads from its CSV file, one record per row, and
 the four selections made in the page's dropdowns.
 */
module Table {

  /** A cell that may be missing (pandas NaN). */
  datatype Option<T> = None | Some(value: T)

  /** One row of the table. `index` is the row's DataFrame index label; a
      freshly read CSV has labels 0, 1, 2, ... in file order, and boolean
      selection keeps each row's index label. `y`, `x` are the Y_COORD / X_COORD
      columns, passed through untouched. */
  datatype Visit = Visit(
    index: nat,
    trip: string,           // TRAVEL_ID
    order: int,             // VISIT_ORDER, already coerced to int
    place: string,          // POI_NM
    y: real,
    x: real,
    days: Option<int>,      // trip length in days, compared untrimmed
    residence: Option<string>,
    ageGroup: Option<string>,
    companion: Option<string>
  )

  /** The three string-valued categorical columns, which the page compares
      after stripping whitespace. */
  datatype Column = Residence | AgeGroup | Companion

  function Cell(v: Visit, col: Column): Option<string> {
    match col
    case Residence => v.residence
    case AgeGroup => v.ageGroup
    case Companion => v.companion
  }

  /** The option every dropdown starts with, meaning "no constraint". */
  const Sentinel: string := "\U{C804}\U{CCB4}"

  /** The trip-length dropdown holds the sentinel string or an integer. */
  datatype Choice = AnyLength | Length(days: int)

  /** What the four dropdowns currently show. A string selection equal to
      `Sentinel` means "no constraint". */
  datatype Criteria = Criteria(days: Choice, residence: string, ageGroup: string, companion: string)

  function Selected(c: Criteria, col: Column): string {
    match col
    case Residence => c.residence
    case AgeGroup => c.ageGroup
    case Companion => c.companion
  }

  /** The page's initial state: every dropdown on the sentinel. */
  const NoConstraint: Criteria := Criteria(AnyLength, Sentinel, Sentinel, Sentinel)

  /** The table as read from the CSV: index labels are the row positions. */
  predicate RangeIndexed(t: seq<Visit>) {
    forall i :: 0 <= i < |t| ==> t[i].index == i
  }

  /** The distinct TRAVEL_IDs occurring in `s`. */
  function TripIds(s: seq<Visit>): set<string> {
    set v | v in s :: v.trip
  }
}
