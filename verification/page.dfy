/**
 The page end to end: the table and the dropdown selections in, the
 routes handed to the map out (a.py lines 37-108), together with what
 the index-label role test means for the whole map.
 */
module Page {
  import opened Sequences
  import opened Text
  import opened Table
  import opened TripFilter
  import opened Routes

  /** The routes the page draws for selections `c`. */
  function PageRoutes(t: seq<Visit>, c: Criteria): seq<Route> {
    Assemble(Apply(t, c), ByIndexLabel)
  }

  /** The same routes with departure and arrival decided by position in
      the sorted trip. */
  function IntendedRoutes(t: seq<Visit>, c: Criteria): seq<Route> {
    Assemble(Apply(t, c), ByPosition)
  }

  /** Both renderings draw the same trips, the same polylines and the same
      markers; they differ only in the roles. */
  lemma RenderingsAgreeOnGeometry(t: seq<Visit>, c: Criteria)
    ensures |PageRoutes(t, c)| == |IntendedRoutes(t, c)|
    ensures forall i :: 0 <= i < |PageRoutes(t, c)| ==>
      && PageRoutes(t, c)[i].trip == IntendedRoutes(t, c)[i].trip
      && PageRoutes(t, c)[i].path == IntendedRoutes(t, c)[i].path
      && StopVisits(PageRoutes(t, c)[i].stops) == StopVisits(IntendedRoutes(t, c)[i].stops)
  {
    var f := Apply(t, c);
    SameGeometry(f, 0);
    forall i | 0 <= i < |PageRoutes(t, c)|
      ensures PageRoutes(t, c)[i].trip == IntendedRoutes(t, c)[i].trip
      ensures PageRoutes(t, c)[i].path == IntendedRoutes(t, c)[i].path
      ensures StopVisits(PageRoutes(t, c)[i].stops) == StopVisits(IntendedRoutes(t, c)[i].stops)
    {
      SameGeometry(f, i);
    }
  }

  /** A sequence of distinct rows holds each row at most once. */
  lemma {:induction false} DistinctCount(s: seq<Visit>, x: Visit)
    requires forall i, j :: 0 <= i < j < |s| ==> s[i] != s[j]
    ensures multiset(s)[x] <= 1
  {
    if |s| > 0 {
      assert s == [s[0]] + s[1..];
      DistinctCount(s[1..], x);
      if x == s[0] {
        assert x !in s[1..];
      }
    }
  }

  /** As written, a departure marker only ever goes to the first row of
      the CSV (index label 0). */
  lemma DepartureIsFirstRow(t: seq<Visit>, c: Criteria, i: int, k: int)
    requires RangeIndexed(t)
    requires 0 <= i < |PageRoutes(t, c)| && 0 <= k < |PageRoutes(t, c)[i].stops|
    requires PageRoutes(t, c)[i].stops[k].role == Start
    ensures PageRoutes(t, c)[i].stops[k].visit == t[0]
  {
    var f := Apply(t, c);
    AssembleRolesByIndexLabel(f, i, k);
    StopFromFiltered(f, ByIndexLabel, i, k);
    ApplyIsTripAtomic(t, c);
  }

  /** As written, the whole map carries at most one departure marker. */
  lemma AtMostOneDeparture(t: seq<Visit>, c: Criteria, i: int, k: int, i': int, k': int)
    requires RangeIndexed(t)
    requires 0 <= i < |PageRoutes(t, c)| && 0 <= k < |PageRoutes(t, c)[i].stops|
    requires 0 <= i' < |PageRoutes(t, c)| && 0 <= k' < |PageRoutes(t, c)[i'].stops|
    requires PageRoutes(t, c)[i].stops[k].role == Start
    requires PageRoutes(t, c)[i'].stops[k'].role == Start
    ensures i == i' && k == k'
  {
    var f := Apply(t, c);
    DepartureIsFirstRow(t, c, i, k);
    DepartureIsFirstRow(t, c, i', k');
    SameRowSameRoute(f, ByIndexLabel, i, k, i', k');
    if k != k' {
      DistinctCount(t, t[0]);
      ApplyIsTripAtomic(t, c);
      FilterMultiplicity(t, (u: Visit) => u.trip in MatchingTrips(t, c), t[0]);
      StopsOnce(f, ByIndexLabel, i, k, k');
    }
  }

  /** The two-trip table used below: trip "A" is rows 0-2, trip "B" rows 3-4,
      each listed in visit order. */
  function TwoTrips(): (t: seq<Visit>)
    ensures RangeIndexed(t)
  {
    [ Visit(0, "A", 1, "P1", 0.0, 0.0, Some(2), Some("Seoul"), Some("20s"), Some("friends")),
      Visit(1, "A", 2, "P2", 0.0, 0.0, Some(2), Some("Seoul"), Some("20s"), Some("friends")),
      Visit(2, "A", 3, "P3", 0.0, 0.0, Some(2), Some("Seoul"), Some("20s"), Some("friends")),
      Visit(3, "B", 1, "Q1", 0.0, 0.0, Some(1), Some("Busan"), Some("30s"), Some("family")),
      Visit(4, "B", 2, "Q2", 0.0, 0.0, Some(1), Some("Busan"), Some("30s"), Some("family")) ]
  }

  /** The two-trip table with nothing selected: trips "A" and "B" in that
      order. */
  lemma TwoTripsRouteOrder(rule: RoleRule)
    ensures var t := TwoTrips();
      var r := Assemble(t, rule);
      && |r| == 2 && r[1].trip == "B"
      && r[1] == RouteOf(t, "B", OrderRange(t).value, rule)
  {
    var t := TwoTrips();
    StrLtIsStrictTotalOrder();
    var ids := SortedDistinct(TripColumn(t), StrLt);
    assert StrLt("A", "B");
    assert forall id :: id in ids <==> id in ["A", "B"] by {
      assert t[0].trip == "A" && t[3].trip == "B";
      assert forall v :: v in t ==> v.trip == "A" || v.trip == "B";
    }
    AscendingUnique(ids, ["A", "B"], StrLt);
  }

  /** ... and B's markers are its rows 3 and 4, in visit order. */
  lemma TwoTripsRoutes(t: seq<Visit>, rule: RoleRule)
    requires t == TwoTrips()
    ensures |t| == 5 && OrderRange(t).Some?
    ensures |Assemble(t, rule)| == 2 && Assemble(t, rule)[1].trip == "B"
    ensures Assemble(t, rule)[1].stops == StopsOf([t[3], t[4]], OrderRange(t).value, rule)
  {
    TwoTripsRouteOrder(rule);
    TwoTripsSortedB();
  }

  lemma TwoTripsGroupB()
    ensures var t := TwoTrips(); |t| == 5 && Group(t, "B") == [t[3], t[4]]
  {
    var t := TwoTrips();
    assert t == t[..3] + [t[3], t[4]];
    assert forall v :: v in t[..3] ==> v.trip == "A";
    FilterKeepsNone(t[..3], (v: Visit) => v.trip == "B");
    FilterConcat(t[..3], [t[3], t[4]], (v: Visit) => v.trip == "B");
    FilterKeepsAll([t[3], t[4]], (v: Visit) => v.trip == "B");
  }

  /** Trip B sorted by visit order is its rows 3 and 4, in that order. */
  lemma TwoTripsSortedB()
    ensures var t := TwoTrips(); |t| == 5 && SortByOrder(Group(t, "B")) == [t[3], t[4]]
  {
    TwoTripsGroupB();
    var t := TwoTrips();
    SortOrderedPair(t[3], t[4]);
  }

  /** Two rows already in visit order are left as they are. */
  lemma SortOrderedPair(x: Visit, y: Visit)
    requires x.order <= y.order
    ensures SortByOrder([x, y]) == [x, y]
  {
    assert [x, y][1..] == [y];
    assert [y][1..] == [];
    assert SortByOrder([y]) == InsertByOrder(y, []) == [y];
    assert SortByOrder([x, y]) == InsertByOrder(x, [y]);
    OrderedHead(x.order, [y]);
  }

  /** With nothing selected, trip "B" is drawn with no departure marker on
      the page: B's rows carry index labels 3 and 4, and neither is 0 nor
      `len(group) - 1 == 1`, so both become intermediate stops. */
  lemma SecondTripLacksDeparture()
    ensures |PageRoutes(TwoTrips(), NoConstraint)| == 2
    ensures var r := PageRoutes(TwoTrips(), NoConstraint)[1];
      && r.trip == "B" && |r.stops| == 2
      && r.stops[0].role.Intermediate? && r.stops[1].role.Intermediate?
  {
    var t := TwoTrips();
    ApplyNoConstraint(t);
    TwoTripsRoutes(t, ByIndexLabel);
    var b := OrderRange(t).value;
    var stops := StopsOf([t[3], t[4]], b, ByIndexLabel);
    assert t[3].index == 3 && t[4].index == 4;
    assert stops[0].role == Classify(t[3], 0, 2, b, ByIndexLabel);
    assert stops[1].role == Classify(t[4], 1, 2, b, ByIndexLabel);
  }

  /** Under the positional rule the same trip "B" starts and ends properly. */
  lemma SecondTripPositional()
    ensures |IntendedRoutes(TwoTrips(), NoConstraint)| == 2
    ensures var r := IntendedRoutes(TwoTrips(), NoConstraint)[1];
      && r.trip == "B" && |r.stops| == 2
      && r.stops[0].role == Start && r.stops[1].role == End
  {
    ApplyNoConstraint(TwoTrips());
    TwoTripsRoutes(TwoTrips(), ByPosition);
  }
}
