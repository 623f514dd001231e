/**
 Route assembly and waypoint classification, a.py lines 53-108.

 The filtered rows are grouped by TRAVEL_ID (groups in ascending key
 order), each group is sorted by VISIT_ORDER and drawn as a polyline, and
 every row becomes a marker whose role is decided by its DataFrame index
 label: label 0 is the departure, label `len(group) - 1` the arrival, and
 every other row an intermediate stop coloured by its visit order scaled
 into [0, 1] against the minimum and maximum visit order of the WHOLE
 filtered set.
 */
module Routes {
  import opened Sequences
  import opened Text
  import opened Table

  /** `[min, max]` of VISIT_ORDER over the filtered rows. */
  datatype Range = Range(lo: int, hi: int)

  /** Line 53's `min()` and `max()`; `None` stands for pandas' NaN on an
      empty frame. */
  function OrderRange(s: seq<Visit>): (r: Option<Range>)
    ensures r.None? <==> |s| == 0
    ensures r.Some? ==> r.value.lo <= r.value.hi
    ensures r.Some? ==> forall v :: v in s ==> r.value.lo <= v.order <= r.value.hi
    ensures r.Some? ==> exists v :: v in s && v.order == r.value.lo
    ensures r.Some? ==> exists v :: v in s && v.order == r.value.hi
  {
    if |s| == 0 then None
    else
      assert s[0] in s;
      assert forall v :: v in s[1..] ==> v in s;
      assert forall v :: v in s ==> v == s[0] || v in s[1..];
      match OrderRange(s[1..])
      case None => Some(Range(s[0].order, s[0].order))
      case Some(b) =>
        Some(Range(if s[0].order < b.lo then s[0].order else b.lo,
                   if s[0].order > b.hi then s[0].order else b.hi))
  }

  /** Division by a positive denominator: it undoes multiplication, and a
      numerator between 0 and the denominator gives a ratio in [0, 1]. */
  lemma Ratio(num: real, den: real)
    requires den > 0.0
    ensures (num / den) * den == num
    ensures 0.0 <= num <= den ==> 0.0 <= num / den <= 1.0
    ensures num == den ==> num / den == 1.0
  {
  }

  /** matplotlib's `Normalize(vmin=lo, vmax=hi)(value)` (no clipping): the
      position of `value` between `lo` and `hi`, and 0 when `lo == hi`.
      (`Normalize` raises for `lo > hi`, which a range never has.) */
  function Normalize(value: int, lo: int, hi: int): (w: real)
    requires lo <= hi
    ensures lo <= value <= hi ==> 0.0 <= w <= 1.0
    ensures value == lo ==> w == 0.0
    ensures lo < hi && value == hi ==> w == 1.0
    ensures lo == hi ==> w == 0.0
    ensures lo < hi ==> w * (hi - lo) as real == (value - lo) as real
  {
    if lo == hi then 0.0
    else
      var num := (value - lo) as real;
      var den := (hi - lo) as real;
      Ratio(num, den);
      num / den
  }

  /** A later visit never gets a lighter colour. */
  lemma NormalizeMonotone(a: int, b: int, lo: int, hi: int)
    requires lo <= hi && a <= b
    ensures Normalize(a, lo, hi) <= Normalize(b, lo, hi)
  {
    if lo < hi {
      var den := (hi - lo) as real;
      assert (a - lo) as real <= (b - lo) as real;
      assert (a - lo) as real / den <= (b - lo) as real / den;
    }
  }

  /** Non-decreasing in VISIT_ORDER. */
  predicate ByVisitOrder(s: seq<Visit>) {
    forall i, j :: 0 <= i < j < |s| ==> s[i].order <= s[j].order
  }

  /** Every row of `s` is visited no earlier than `lo`. */
  predicate HeadBound(lo: int, s: seq<Visit>) {
    forall u :: u in s ==> lo <= u.order
  }

  /** Putting a row no later than every row of an ordered sequence in front
      keeps it ordered. */
  lemma PrependByOrder(x: Visit, s: seq<Visit>)
    requires ByVisitOrder(s) && HeadBound(x.order, s)
    ensures ByVisitOrder([x] + s)
  {
    forall i, j | 0 <= i < j < |[x] + s|
      ensures ([x] + s)[i].order <= ([x] + s)[j].order
    {
      assert ([x] + s)[j] == s[j - 1];
      if i > 0 {
        assert ([x] + s)[i] == s[i - 1];
      } else {
        assert s[j - 1] in s;
      }
    }
  }

  /** A bound that holds for every row of `s` and for `v` holds for every
      row of a rearrangement of `s` with `v` added. */
  lemma BoundThroughMultiset(lo: int, v: Visit, s: seq<Visit>, r: seq<Visit>)
    requires HeadBound(lo, s) && lo <= v.order
    requires multiset(r) == multiset(s) + multiset{v}
    ensures HeadBound(lo, r)
  {
    forall u | u in r
      ensures lo <= u.order
    {
      assert u in multiset(r);
      if u != v {
        assert u in multiset(s);
      }
    }
  }

  /** A lower bound on the first row of an ordered sequence bounds all of
      it. */
  lemma OrderedHead(lo: int, s: seq<Visit>)
    requires ByVisitOrder(s) && |s| > 0 && lo <= s[0].order
    ensures HeadBound(lo, s) && HeadBound(lo, s[1..])
  {
    forall u | u in s
      ensures lo <= u.order
    {
      var j :| 0 <= j < |s| && s[j] == u;
      assert s[0].order <= s[j].order;
    }
    assert forall u :: u in s[1..] ==> u in s;
  }

  function InsertByOrder(v: Visit, s: seq<Visit>): (r: seq<Visit>)
    requires ByVisitOrder(s)
    ensures ByVisitOrder(r)
    ensures multiset(r) == multiset(s) + multiset{v}
  {
    if |s| == 0 || v.order <= s[0].order then
      if |s| > 0 then OrderedHead(v.order, s); PrependByOrder(v, s); [v] + s
      else [v]
    else
      var rest := InsertByOrder(v, s[1..]);
      assert s == [s[0]] + s[1..];
      OrderedHead(s[0].order, s);
      BoundThroughMultiset(s[0].order, v, s[1..], rest);
      PrependByOrder(s[0], rest);
      assert multiset([s[0]] + rest) == multiset{s[0]} + multiset(rest);
      [s[0]] + rest
  }

  /** Line 61's `group.sort_values("VISIT_ORDER")`: a rearrangement of the
      group ascending by visit order. */
  function SortByOrder(s: seq<Visit>): (r: seq<Visit>)
    ensures ByVisitOrder(r)
    ensures multiset(r) == multiset(s)
  {
    if |s| == 0 then []
    else
      assert s == [s[0]] + s[1..];
      InsertByOrder(s[0], SortByOrder(s[1..]))
  }

  /** How a marker is drawn: a red departure box, a red arrival arrow, or a
      circle filled with the colour at `weight` on the "Blues" scale. */
  datatype Role = Start | End | Intermediate(weight: real)

  /** Which number the role test of lines 70 and 84 looks at: the row's
      index label (what the page does) or its position in the sorted group
      (what the departure/arrival markers are meant to show). */
  datatype RoleRule = ByIndexLabel | ByPosition

  /** One marker: the row it is drawn for and its role. */
  datatype Stop = Stop(visit: Visit, role: Role)

  /** One trip as drawn: the polyline's (Y, X) points and the markers, both
      in sorted visit order. */
  datatype Route = Route(trip: string, path: seq<(real, real)>, stops: seq<Stop>)

  /** Lines 70-108 for one row: `key` 0 is the departure; otherwise
      `key == n - 1` is the arrival; otherwise an intermediate stop. */
  function Classify(v: Visit, pos: nat, n: nat, b: Range, rule: RoleRule): (r: Role)
    requires b.lo <= b.hi
    ensures r.Intermediate? && b.lo <= v.order <= b.hi ==> 0.0 <= r.weight <= 1.0
  {
    var key := if rule == ByIndexLabel then v.index else pos;
    if key == 0 then Start
    else if key == n - 1 then End
    else Intermediate(Normalize(v.order, b.lo, b.hi))
  }

  function StopsOf(rows: seq<Visit>, b: Range, rule: RoleRule): (r: seq<Stop>)
    requires b.lo <= b.hi
    ensures |r| == |rows|
    ensures forall k :: 0 <= k < |rows| ==> r[k].visit == rows[k]
  {
    seq(|rows|, k requires 0 <= k < |rows| => Stop(rows[k], Classify(rows[k], k, |rows|, b, rule)))
  }

  /** Line 62's `list(zip(group["Y_COORD"], group["X_COORD"]))`. */
  function PathOf(rows: seq<Visit>): (r: seq<(real, real)>)
    ensures |r| == |rows|
    ensures forall k :: 0 <= k < |rows| ==> r[k] == (rows[k].y, rows[k].x)
  {
    seq(|rows|, k requires 0 <= k < |rows| => (rows[k].y, rows[k].x))
  }

  /** The rows of trip `id`, in the order they have in `f` (one group of
      `groupby("TRAVEL_ID")`). */
  function Group(f: seq<Visit>, id: string): seq<Visit> {
    Filter(f, (v: Visit) => v.trip == id)
  }

  function RouteOf(f: seq<Visit>, id: string, b: Range, rule: RoleRule): Route
    requires b.lo <= b.hi
  {
    var rows := SortByOrder(Group(f, id));
    Route(id, PathOf(rows), StopsOf(rows, b, rule))
  }

  /** The TRAVEL_ID column of `f`. */
  function TripColumn(f: seq<Visit>): (r: seq<string>)
    ensures forall id :: id in r <==> id in TripIds(f)
  {
    if |f| == 0 then []
    else
      assert forall v :: v in f <==> v == f[0] || v in f[1..];
      [f[0].trip] + TripColumn(f[1..])
  }

  /** Lines 53-108: one route per trip of `f`, in ascending TRAVEL_ID order,
      classified against the visit-order range of all of `f`. Nothing is
      classified when `f` is empty. */
  function Assemble(f: seq<Visit>, rule: RoleRule): (r: seq<Route>)
    ensures |f| == 0 ==> r == []
    ensures |f| > 0 ==> |r| > 0
  {
    StrLtIsStrictTotalOrder();
    assert |f| > 0 ==> f[0].trip in TripColumn(f);
    var ids := SortedDistinct(TripColumn(f), StrLt);
    match OrderRange(f)
    case None => []
    case Some(b) => seq(|ids|, i requires 0 <= i < |ids| => RouteOf(f, ids[i], b, rule))
  }

  function StopVisits(stops: seq<Stop>): (r: seq<Visit>)
    ensures |r| == |stops|
    ensures forall k :: 0 <= k < |stops| ==> r[k] == stops[k].visit
  {
    seq(|stops|, k requires 0 <= k < |stops| => stops[k].visit)
  }

  /** Assembly ordering: one route per distinct trip of `f`, in strictly
      ascending TRAVEL_ID order; each route's markers are that trip's rows
      rearranged (same multiset) into ascending visit order, and the
      polyline runs through their coordinates in that same order. */
  lemma AssembleOrdering(f: seq<Visit>, rule: RoleRule)
    ensures var r := Assemble(f, rule);
      && (forall i, j :: 0 <= i < j < |r| ==> StrLt(r[i].trip, r[j].trip))
      && (forall id :: id in TripIds(f) <==> exists i :: 0 <= i < |r| && r[i].trip == id)
    ensures var r := Assemble(f, rule);
      forall i :: 0 <= i < |r| ==>
        && multiset(StopVisits(r[i].stops)) == multiset(Group(f, r[i].trip))
        && ByVisitOrder(StopVisits(r[i].stops))
        && |r[i].path| == |r[i].stops|
        && forall k :: 0 <= k < |r[i].stops| ==>
             r[i].path[k] == (r[i].stops[k].visit.y, r[i].stops[k].visit.x)
  {
    StrLtIsStrictTotalOrder();
    var r := Assemble(f, rule);
    var ids := SortedDistinct(TripColumn(f), StrLt);
    if |f| > 0 {
      var b := OrderRange(f).value;
      assert |r| == |ids|;
      forall i | 0 <= i < |r|
        ensures r[i] == RouteOf(f, ids[i], b, rule)
        ensures StopVisits(r[i].stops) == SortByOrder(Group(f, ids[i]))
      {
        var rows := SortByOrder(Group(f, ids[i]));
        assert StopVisits(r[i].stops) == rows;
      }
      forall id | id in TripIds(f)
        ensures exists i :: 0 <= i < |r| && r[i].trip == id
      {
        assert id in ids;
        var i :| 0 <= i < |ids| && ids[i] == id;
        assert r[i].trip == id;
      }
    }
  }

  /** Route `i` is built from its trip's group against the range of all of
      `f`, and that group is not empty. */
  lemma AssembleRoute(f: seq<Visit>, rule: RoleRule, i: int)
    requires 0 <= i < |Assemble(f, rule)|
    ensures |f| > 0
    ensures var r := Assemble(f, rule)[i];
      && r == RouteOf(f, r.trip, OrderRange(f).value, rule)
      && r.trip in TripIds(f)
      && |r.stops| > 0
  {
    StrLtIsStrictTotalOrder();
    var ids := SortedDistinct(TripColumn(f), StrLt);
    var r := Assemble(f, rule)[i];
    assert r == RouteOf(f, ids[i], OrderRange(f).value, rule);
    assert ids[i] in TripIds(f);
    var v :| v in f && v.trip == ids[i];
    assert v in Group(f, ids[i]);
    var rows := SortByOrder(Group(f, ids[i]));
    assert v in multiset(rows);
  }

  /** The role rule changes nothing but the roles: both rules give the
      same number of routes, and route `i` has the same trip, the same
      polyline and the same marker rows under either. */
  lemma SameGeometry(f: seq<Visit>, i: int)
    ensures |Assemble(f, ByIndexLabel)| == |Assemble(f, ByPosition)|
    ensures 0 <= i < |Assemble(f, ByIndexLabel)| ==>
      var p, q := Assemble(f, ByIndexLabel)[i], Assemble(f, ByPosition)[i];
      && p.trip == q.trip && p.path == q.path
      && StopVisits(p.stops) == StopVisits(q.stops)
  {
    StrLtIsStrictTotalOrder();
    var ids := SortedDistinct(TripColumn(f), StrLt);
    if |f| > 0 {
      var b := OrderRange(f).value;
      assert |Assemble(f, ByIndexLabel)| == |ids| == |Assemble(f, ByPosition)|;
      if 0 <= i < |ids| {
        var rows := SortByOrder(Group(f, ids[i]));
        assert Assemble(f, ByIndexLabel)[i] == RouteOf(f, ids[i], b, ByIndexLabel);
        assert Assemble(f, ByPosition)[i] == RouteOf(f, ids[i], b, ByPosition);
        assert StopVisits(StopsOf(rows, b, ByIndexLabel)) == rows;
        assert StopVisits(StopsOf(rows, b, ByPosition)) == rows;
      }
    }
  }

  /** A marker's row comes from the filtered set. */
  lemma StopFromFiltered(f: seq<Visit>, rule: RoleRule, i: int, k: int)
    requires 0 <= i < |Assemble(f, rule)|
    requires 0 <= k < |Assemble(f, rule)[i].stops|
    ensures var r := Assemble(f, rule)[i];
      r.stops[k].visit in f && r.stops[k].visit.trip == r.trip
  {
    AssembleRoute(f, rule, i);
    var r := Assemble(f, rule)[i];
    var g := Group(f, r.trip);
    var rows := SortByOrder(g);
    assert r.stops == StopsOf(rows, OrderRange(f).value, rule);
    assert r.stops[k].visit == rows[k];
    assert rows[k] in multiset(rows);
    assert rows[k] in g;
  }

  /** Marker `k` of route `i` gets the role `Classify` gives its row at
      position `k` of the route, against the range of all of `f`. */
  lemma StopRole(f: seq<Visit>, rule: RoleRule, i: int, k: int)
    requires 0 <= i < |Assemble(f, rule)|
    requires 0 <= k < |Assemble(f, rule)[i].stops|
    ensures |f| > 0
    ensures var stops := Assemble(f, rule)[i].stops;
      stops[k].role == Classify(stops[k].visit, k, |stops|, OrderRange(f).value, rule)
  {
    AssembleRoute(f, rule, i);
    var r := Assemble(f, rule)[i];
    var rows := SortByOrder(Group(f, r.trip));
    assert r.stops == StopsOf(rows, OrderRange(f).value, rule);
  }

  /** Role classification as the page does it: the test is on the row's
      index label, not on its place in the sorted trip. Label 0 is the
      departure (tested first, so it wins even when 0 is also
      `len(group) - 1`); a label equal to `len(group) - 1` is the arrival;
      every other row is an intermediate stop whose weight is its visit
      order normalised against the range of the WHOLE filtered set, a value
      in [0, 1]. */
  lemma AssembleRolesByIndexLabel(f: seq<Visit>, i: int, k: int)
    requires 0 <= i < |Assemble(f, ByIndexLabel)|
    requires 0 <= k < |Assemble(f, ByIndexLabel)[i].stops|
    ensures |f| > 0
    ensures var stops := Assemble(f, ByIndexLabel)[i].stops;
      var v := stops[k].visit;
      var role := stops[k].role;
      && (role == Start <==> v.index == 0)
      && (role == End <==> v.index != 0 && v.index == |stops| - 1)
      && (role.Intermediate? <==> v.index != 0 && v.index != |stops| - 1)
      && (role.Intermediate? ==>
            && role.weight == Normalize(v.order, OrderRange(f).value.lo, OrderRange(f).value.hi)
            && 0.0 <= role.weight <= 1.0)
  {
    StopRole(f, ByIndexLabel, i, k);
    StopFromFiltered(f, ByIndexLabel, i, k);
  }

  /** The positional rule the departure/arrival markers are meant to
      follow: in every route the first stop in visit order is the
      departure, the last one (when there are two or more) the arrival,
      and every stop in between an intermediate with weight in [0, 1]. */
  lemma AssembleRolesByPosition(f: seq<Visit>, i: int)
    requires 0 <= i < |Assemble(f, ByPosition)|
    ensures var stops := Assemble(f, ByPosition)[i].stops;
      && |stops| > 0
      && stops[0].role == Start
      && (|stops| > 1 ==> stops[|stops| - 1].role == End)
      && forall k :: 0 < k < |stops| - 1 ==>
           stops[k].role.Intermediate? && 0.0 <= stops[k].role.weight <= 1.0
  {
    AssembleRoute(f, ByPosition, i);
    var stops := Assemble(f, ByPosition)[i].stops;
    StopRole(f, ByPosition, i, 0);
    StopRole(f, ByPosition, i, |stops| - 1);
    forall k | 0 < k < |stops| - 1
      ensures stops[k].role.Intermediate? && 0.0 <= stops[k].role.weight <= 1.0
    {
      StopRole(f, ByPosition, i, k);
      StopFromFiltered(f, ByPosition, i, k);
    }
  }

  /** Distinct routes hold distinct trips, so a row is drawn in one route
      at most. */
  lemma SameRowSameRoute(f: seq<Visit>, rule: RoleRule, i: int, k: int, i': int, k': int)
    requires 0 <= i < |Assemble(f, rule)| && 0 <= k < |Assemble(f, rule)[i].stops|
    requires 0 <= i' < |Assemble(f, rule)| && 0 <= k' < |Assemble(f, rule)[i'].stops|
    requires Assemble(f, rule)[i].stops[k].visit == Assemble(f, rule)[i'].stops[k'].visit
    ensures i == i'
  {
    var r := Assemble(f, rule);
    StopFromFiltered(f, rule, i, k);
    StopFromFiltered(f, rule, i', k');
    AssembleOrdering(f, rule);
    StrLtIsStrictTotalOrder();
  }

  /** A row that occurs once in `f` gets one marker in its route. */
  lemma StopsOnce(f: seq<Visit>, rule: RoleRule, i: int, k: int, k': int)
    requires 0 <= i < |Assemble(f, rule)|
    requires 0 <= k < |Assemble(f, rule)[i].stops| && 0 <= k' < |Assemble(f, rule)[i].stops|
    requires Assemble(f, rule)[i].stops[k].visit == Assemble(f, rule)[i].stops[k'].visit
    requires multiset(f)[Assemble(f, rule)[i].stops[k].visit] <= 1
    ensures k == k'
  {
    var r := Assemble(f, rule)[i];
    var vs := StopVisits(r.stops);
    var x := vs[k];
    AssembleOrdering(f, rule);
    FilterMultiplicity(f, (u: Visit) => u.trip == r.trip, x);
    if k != k' {
      var lo := if k < k' then k else k';
      var hi := if k < k' then k' else k;
      CountTwoPositions(vs, lo, hi);
    }
  }
}
