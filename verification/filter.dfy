/**
 The criteria filter and TRAVEL_ID re-expansion of a.py lines 37-50.

 The page narrows a copy of the table by up to four boolean masks, one per
 dropdown not left on the sentinel, collects the TRAVEL_IDs that survive,
 and then selects from the ORIGINAL table every row of those trips, so a
 trip is shown whole or not at all.
 */
module TripFilter {
  import opened Sequences
  import opened Text
  import opened Table

  /** The four conditional masks, in the order the page applies them. */
  datatype Stage = DaysStage | TextStage(col: Column)

  /** The dropdown behind `st` is on the sentinel, so its mask is skipped. */
  predicate Skips(c: Criteria, st: Stage) {
    match st
    case DaysStage => c.days == AnyLength
    case TextStage(col) => Selected(c, col) == Sentinel
  }

  /** The mask of stage `st`: trip length compared as is, string columns
      compared after stripping. A missing cell never matches. */
  predicate Passes(v: Visit, c: Criteria, st: Stage) {
    match st
    case DaysStage => c.days.Length? && v.days == Some(c.days.days)
    case TextStage(col) => Cell(v, col).Some? && Strip(Cell(v, col).value) == Selected(c, col)
  }

  /** One `if selected != "전체": df_filtered = df_filtered[mask]` step. */
  function Step(s: seq<Visit>, c: Criteria, st: Stage): seq<Visit> {
    if Skips(c, st) then s else Filter(s, v => Passes(v, c, st))
  }

  /** Lines 37-46: the table narrowed by the four masks in turn. */
  function Narrow(t: seq<Visit>, c: Criteria): seq<Visit> {
    var s1 := Step(t, c, DaysStage);
    var s2 := Step(s1, c, TextStage(Residence));
    var s3 := Step(s2, c, TextStage(AgeGroup));
    Step(s3, c, TextStage(Companion))
  }

  /** Independent statement of when a row satisfies the criteria: every
      dropdown is either on the sentinel or equal to the row's cell. */
  predicate Matches(v: Visit, c: Criteria) {
    && (c.days == AnyLength || v.days == Some(c.days.days))
    && forall col: Column :: Selected(c, col) == Sentinel
         || (Cell(v, col).Some? && Strip(Cell(v, col).value) == Selected(c, col))
  }

  /** Lines 49-50: `df[df["TRAVEL_ID"].isin(ids)]`. */
  function Reselect(t: seq<Visit>, ids: set<string>): seq<Visit> {
    Filter(t, (v: Visit) => v.trip in ids)
  }

  /** The whole filter: the rows the page goes on to draw. */
  function Apply(t: seq<Visit>, c: Criteria): seq<Visit> {
    Reselect(t, TripIds(Narrow(t, c)))
  }

  /** The trips with at least one row satisfying the criteria. */
  ghost function MatchingTrips(t: seq<Visit>, c: Criteria): set<string> {
    set v | v in t && Matches(v, c) :: v.trip
  }

  predicate Admits(v: Visit, c: Criteria, st: Stage) {
    Skips(c, st) || Passes(v, c, st)
  }

  lemma StepAdmits(s: seq<Visit>, c: Criteria, st: Stage)
    ensures Step(s, c, st) == Filter(s, v => Admits(v, c, st))
  {
    if Skips(c, st) {
      FilterKeepsAll(s, v => Admits(v, c, st));
    } else {
      FilterCongruent(s, v => Passes(v, c, st), v => Admits(v, c, st));
    }
  }

  /** A row passes all four stages exactly when it satisfies the criteria. */
  lemma AdmitsAllStages(v: Visit, c: Criteria)
    ensures Matches(v, c) <==>
      && Admits(v, c, DaysStage) && Admits(v, c, TextStage(Residence))
      && Admits(v, c, TextStage(AgeGroup)) && Admits(v, c, TextStage(Companion))
  {
    if Admits(v, c, DaysStage) && Admits(v, c, TextStage(Residence))
      && Admits(v, c, TextStage(AgeGroup)) && Admits(v, c, TextStage(Companion))
    {
      forall col: Column
        ensures Selected(c, col) == Sentinel
          || (Cell(v, col).Some? && Strip(Cell(v, col).value) == Selected(c, col))
      {
        assert Admits(v, c, TextStage(col));
      }
    }
  }

  /** The four steps of lines 39-46 are one mask with the conjunction. */
  lemma NarrowIsOneMask(t: seq<Visit>, c: Criteria)
    ensures Narrow(t, c) == Filter(t, v =>
      && Admits(v, c, DaysStage) && Admits(v, c, TextStage(Residence))
      && Admits(v, c, TextStage(AgeGroup)) && Admits(v, c, TextStage(Companion)))
  {
    var a1 := v => Admits(v, c, DaysStage);
    var a2 := v => Admits(v, c, TextStage(Residence));
    var a3 := v => Admits(v, c, TextStage(AgeGroup));
    var a4 := v => Admits(v, c, TextStage(Companion));
    var a12 := v => a1(v) && a2(v);
    var a123 := v => a12(v) && a3(v);
    var a1234 := v => a123(v) && a4(v);
    var s1 := Step(t, c, DaysStage);
    var s2 := Step(s1, c, TextStage(Residence));
    var s3 := Step(s2, c, TextStage(AgeGroup));
    StepAdmits(t, c, DaysStage);
    StepAdmits(s1, c, TextStage(Residence));
    StepAdmits(s2, c, TextStage(AgeGroup));
    StepAdmits(s3, c, TextStage(Companion));
    FilterTwice(t, a1, a2, a12);
    FilterTwice(t, a12, a3, a123);
    FilterTwice(t, a123, a4, a1234);
    FilterCongruent(t, a1234, v =>
      && Admits(v, c, DaysStage) && Admits(v, c, TextStage(Residence))
      && Admits(v, c, TextStage(AgeGroup)) && Admits(v, c, TextStage(Companion)));
  }

  /** Conjunctive match: the four successive masks keep exactly the rows
      that satisfy every criterion, in their original order and with their
      index labels. */
  lemma NarrowSelectsMatches(t: seq<Visit>, c: Criteria)
    ensures Narrow(t, c) == Filter(t, v => Matches(v, c))
    ensures forall v :: v in Narrow(t, c) <==> v in t && Matches(v, c)
    ensures SubseqOf(Narrow(t, c), t)
  {
    NarrowIsOneMask(t, c);
    forall v | v in t
      ensures Matches(v, c) <==>
        && Admits(v, c, DaysStage) && Admits(v, c, TextStage(Residence))
        && Admits(v, c, TextStage(AgeGroup)) && Admits(v, c, TextStage(Companion))
    {
      AdmitsAllStages(v, c);
    }
    FilterCongruent(t, v =>
      && Admits(v, c, DaysStage) && Admits(v, c, TextStage(Residence))
      && Admits(v, c, TextStage(AgeGroup)) && Admits(v, c, TextStage(Companion)),
      v => Matches(v, c));
    FilterIsSubseq(t, v => Matches(v, c));
  }

  /** Trip atomicity: the output is the subsequence of the original table
      made of the rows whose trip has some row satisfying the criteria.
      Rows keep their order and index labels, and each trip is present
      either with all of its rows or not at all. */
  lemma ApplyIsTripAtomic(t: seq<Visit>, c: Criteria)
    ensures Apply(t, c) == Filter(t, (v: Visit) => v.trip in MatchingTrips(t, c))
    ensures SubseqOf(Apply(t, c), t)
    ensures forall v :: v in Apply(t, c) <==>
      v in t && exists m :: m in t && Matches(m, c) && m.trip == v.trip
    ensures forall v :: v in t && v.trip in TripIds(Apply(t, c)) ==> v in Apply(t, c)
  {
    NarrowSelectsMatches(t, c);
    assert TripIds(Narrow(t, c)) == MatchingTrips(t, c);
    FilterIsSubseq(t, (v: Visit) => v.trip in MatchingTrips(t, c));
    forall v | v in Apply(t, c)
      ensures exists m :: m in t && Matches(m, c) && m.trip == v.trip
    {
      assert v.trip in MatchingTrips(t, c);
    }
  }

  /** With every dropdown on the sentinel the page draws the whole table,
      row for row. */
  lemma ApplyNoConstraint(t: seq<Visit>)
    ensures Apply(t, NoConstraint) == t
  {
    assert Narrow(t, NoConstraint) == t;
    FilterKeepsAll(t, (v: Visit) => v.trip in TripIds(t));
  }

  /** Idempotence: filtering the page's output again with the same criteria
      gives back that output. */
  lemma ApplyIdempotent(t: seq<Visit>, c: Criteria)
    ensures Apply(Apply(t, c), c) == Apply(t, c)
  {
    var out := Apply(t, c);
    ApplyIsTripAtomic(t, c);
    ApplyIsTripAtomic(out, c);
    assert MatchingTrips(out, c) == MatchingTrips(t, c) by {
      forall id | id in MatchingTrips(t, c)
        ensures id in MatchingTrips(out, c)
      {
        var m :| m in t && Matches(m, c) && m.trip == id;
        assert m in out;
      }
    }
    FilterKeepsAll(out, (v: Visit) => v.trip in MatchingTrips(out, c));
  }
}
