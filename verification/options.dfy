/**
 The contents of the four dropdowns (a.py lines 20-23): the sentinel first,
 then the sorted distinct non-missing values of the column, stripped of
 whitespace for the three string columns.
 */
module Options {
  import opened Sequences
  import opened Text
  import opened Table

  /** `df["여행일수"].dropna()` as a sequence, in row order. */
  function DayValues(t: seq<Visit>): (r: seq<int>)
    ensures forall d :: d in r <==> exists v :: v in t && v.days == Some(d)
  {
    if |t| == 0 then []
    else
      var rest := DayValues(t[1..]);
      var head := if t[0].days.Some? then [t[0].days.value] else [];
      assert forall v :: v in t <==> v == t[0] || v in t[1..];
      assert forall d :: d in head <==> t[0].days == Some(d);
      head + rest
  }

  /** `df[col].dropna().str.strip()` as a sequence, in row order. */
  function StrippedValues(t: seq<Visit>, col: Column): (r: seq<string>)
    ensures forall s :: s in r <==> exists v :: v in t && Cell(v, col).Some? && Strip(Cell(v, col).value) == s
  {
    if |t| == 0 then []
    else
      var rest := StrippedValues(t[1..], col);
      var c := Cell(t[0], col);
      var head := if c.Some? then [Strip(c.value)] else [];
      assert forall v :: v in t <==> v == t[0] || v in t[1..];
      assert forall s :: s in head <==> c.Some? && Strip(c.value) == s;
      head + rest
  }

  /** Each trip length as a dropdown entry. */
  function LengthChoices(ds: seq<int>): (r: seq<Choice>)
    ensures |r| == |ds|
    ensures forall i :: 0 <= i < |ds| ==> r[i] == Length(ds[i])
    ensures forall c :: c in r <==> c.Length? && c.days in ds
  {
    if |ds| == 0 then [] else [Length(ds[0])] + LengthChoices(ds[1..])
  }

  /** The trip-length dropdown: the sentinel, then every trip length in the
      table exactly once, ascending. */
  function DaysOptions(t: seq<Visit>): (r: seq<Choice>)
    ensures |r| >= 1 && r[0] == AnyLength
    ensures forall i :: 1 <= i < |r| ==> r[i].Length?
    ensures forall i, j :: 1 <= i < j < |r| ==> r[i].days < r[j].days
    ensures forall d :: Length(d) in r <==> exists v :: v in t && v.days == Some(d)
  {
    IntLtIsStrictTotalOrder();
    var ds := SortedDistinct(DayValues(t), IntLt);
    var tail := LengthChoices(ds);
    var r := [AnyLength] + tail;
    assert r[1..] == tail;
    assert forall d :: Length(d) in r <==> Length(d) in tail;
    r
  }

  /** A string-column dropdown: the sentinel, then every stripped non-missing
      value of the column exactly once, in ascending code-point order. */
  function TextOptions(t: seq<Visit>, col: Column): (r: seq<string>)
    ensures |r| >= 1 && r[0] == Sentinel
    ensures StrictlyAscending(r[1..], StrLt)
    ensures forall s :: s in r[1..] <==> exists v :: v in t && Cell(v, col).Some? && Strip(Cell(v, col).value) == s
  {
    StrLtIsStrictTotalOrder();
    [Sentinel] + SortedDistinct(StrippedValues(t, col), StrLt)
  }

  /** Each non-sentinel option is free of surrounding whitespace, so
      choosing it compares equal to the stripped cells it came from. */
  lemma TextOptionsStripped(t: seq<Visit>, col: Column, i: int)
    requires 1 <= i < |TextOptions(t, col)|
    ensures Strip(TextOptions(t, col)[i]) == TextOptions(t, col)[i]
  {
    var r := TextOptions(t, col);
    assert r[i] in r[1..];
    var v :| v in t && Cell(v, col).Some? && Strip(Cell(v, col).value) == r[i];
    StripIdempotent(Cell(v, col).value);
  }

  /** The dropdowns depend only on which rows the table holds, not on their
      order or repetition. */
  lemma {:induction false} TextOptionsRowOrderIrrelevant(t: seq<Visit>, u: seq<Visit>, col: Column)
    requires forall v :: v in t <==> v in u
    ensures TextOptions(t, col) == TextOptions(u, col)
  {
    StrLtIsStrictTotalOrder();
    var a := TextOptions(t, col);
    var b := TextOptions(u, col);
    AscendingUnique(a[1..], b[1..], StrLt);
    assert a == [a[0]] + a[1..];
    assert b == [b[0]] + b[1..];
  }
}
