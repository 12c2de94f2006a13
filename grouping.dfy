/**
 * The group-by machinery shared by every metric: the years a table holds,
 * the rows of one year, row filters, and the counts and sums that
 * `size()`, `sum()` and `mean()` reduce a group to.
 */
module Grouping {
  import opened Wrappers
  import opened PitchEvents

  /** Some row of the table was thrown in year `y` (its date parsed to that year). */
  ghost predicate HasYear(rows: seq<PitchEvent>, y: int)
  {
    exists i :: 0 <= i < |rows| && rows[i].year == Some(y)
  }

  /** The keys of `groupby('year')`: the year of every row whose date parsed. */
  function Years(rows: seq<PitchEvent>): (ys: set<int>)
    ensures forall y :: y in ys <==> HasYear(rows, y)
  {
    if rows == [] then {}
    else
      var rest := Years(rows[1..]);
      assert forall i :: 0 < i < |rows| ==> rows[i] == rows[1..][i - 1];
      (if rows[0].year.Some? then {rows[0].year.value} else {}) + rest
  }

  /** The rows of year `y`, in table order: one group of `groupby('year')`. */
  function Group(rows: seq<PitchEvent>, y: int): (g: seq<PitchEvent>)
    ensures |g| <= |rows|
    ensures forall i :: 0 <= i < |g| ==> g[i].year == Some(y)
    ensures g != [] <==> y in Years(rows)
  {
    if rows == [] then []
    else if rows[0].year == Some(y) then [rows[0]] + Group(rows[1..], y)
    else Group(rows[1..], y)
  }

  /** The group of `y` holds exactly the rows of the table thrown in `y`. */
  lemma {:induction false} GroupMembers(rows: seq<PitchEvent>, y: int)
    ensures forall e :: e in Group(rows, y) <==> e in rows && e.year == Some(y)
  {
    if rows != [] {
      GroupMembers(rows[1..], y);
      assert rows == [rows[0]] + rows[1..];
    }
  }

  /** The rows whose date parsed; rows without one fall out of every group. */
  function Dated(rows: seq<PitchEvent>): (d: seq<PitchEvent>)
    ensures |d| <= |rows|
    ensures forall e :: e in d <==> e in rows && e.year.Some?
  {
    if rows == [] then []
    else if rows[0].year.Some? then [rows[0]] + Dated(rows[1..])
    else Dated(rows[1..])
  }

  /** The rows for which `f` holds, in table order (`df[df[column]]`). */
  function Filter(rows: seq<PitchEvent>, f: Flag): (r: seq<PitchEvent>)
    ensures |r| <= |rows|
    ensures forall e :: e in r <==> e in rows && Holds(e, f)
  {
    if rows == [] then []
    else if Holds(rows[0], f) then [rows[0]] + Filter(rows[1..], f)
    else Filter(rows[1..], f)
  }

  /** The number of rows of `g` for which `f` holds (the sum of a boolean column). */
  function Count(g: seq<PitchEvent>, f: Flag): (n: nat)
    ensures n <= |g|
    ensures n == 0 <==> forall i :: 0 <= i < |g| ==> !Holds(g[i], f)
    ensures n == |g| <==> forall i :: 0 <= i < |g| ==> Holds(g[i], f)
  {
    if g == [] then 0
    else
      assert forall i :: 0 < i < |g| ==> g[i] == g[1..][i - 1];
      (if Holds(g[0], f) then 1 else 0) + Count(g[1..], f)
  }

  /**
   * The number of non-missing cells of column `m` (`Series.count()`), kept
   * as a real since it only ever divides a real sum.
   */
  function PresentCount(g: seq<PitchEvent>, m: Measure): (n: real)
    ensures n >= 0.0
    ensures n == 0.0 <==> forall i :: 0 <= i < |g| ==> Value(g[i], m).None?
  {
    if g == [] then 0.0
    else
      assert forall i :: 0 < i < |g| ==> g[i] == g[1..][i - 1];
      (if Value(g[0], m).Some? then 1.0 else 0.0) + PresentCount(g[1..], m)
  }

  /** The sum of the non-missing cells of column `m` (`Series.sum()`). */
  function PresentSum(g: seq<PitchEvent>, m: Measure): (s: real)
    ensures PresentCount(g, m) == 0.0 ==> s == 0.0
  {
    if g == [] then 0.0
    else Value(g[0], m).GetOr(0.0) + PresentSum(g[1..], m)
  }

  /** Some row of year `y` satisfies `f`. */
  ghost predicate HoldsInYear(rows: seq<PitchEvent>, y: int, f: Flag)
  {
    exists i :: 0 <= i < |rows| && rows[i].year == Some(y) && Holds(rows[i], f)
  }

  /** The group of `y` counts a row satisfying `f` exactly when the table has one in `y`. */
  lemma CountInYear(rows: seq<PitchEvent>, y: int, f: Flag)
    ensures Count(Group(rows, y), f) > 0 <==> HoldsInYear(rows, y, f)
  {
    var g := Group(rows, y);
    GroupMembers(rows, y);
    if HoldsInYear(rows, y, f) {
      var i :| 0 <= i < |rows| && rows[i].year == Some(y) && Holds(rows[i], f);
      assert rows[i] in g;
    }
    if Count(g, f) > 0 {
      var j :| 0 <= j < |g| && Holds(g[j], f);
      assert g[j] in rows;
    }
  }

  /** The years of the rows satisfying `f` are the years in which some row satisfies it. */
  lemma YearsOfFilter(rows: seq<PitchEvent>, f: Flag)
    ensures forall y :: y in Years(Filter(rows, f)) <==> HoldsInYear(rows, y, f)
  {
    forall y
      ensures y in Years(Filter(rows, f)) <==> HoldsInYear(rows, y, f)
    {
      GroupOfFilter(rows, f, y);
      CountIsFilterLength(Group(rows, y), f);
      CountInYear(rows, y, f);
    }
  }

  /** Grouping a filtered table by year gives the filtered groups of the whole table. */
  lemma {:induction false} GroupOfFilter(rows: seq<PitchEvent>, f: Flag, y: int)
    ensures Group(Filter(rows, f), y) == Filter(Group(rows, y), f)
  {
    if rows != [] {
      GroupOfFilter(rows[1..], f, y);
    }
  }

  /** Dropping the undated rows changes no group, and no set of years. */
  lemma {:induction false} GroupOfDated(rows: seq<PitchEvent>, y: int)
    ensures Group(Dated(rows), y) == Group(rows, y)
    ensures Years(Dated(rows)) == Years(rows)
  {
    if rows != [] {
      GroupOfDated(rows[1..], y);
    }
  }

  /** Filtering commutes with dropping the undated rows. */
  lemma {:induction false} FilterOfDated(rows: seq<PitchEvent>, f: Flag)
    ensures Filter(Dated(rows), f) == Dated(Filter(rows, f))
  {
    if rows != [] {
      FilterOfDated(rows[1..], f);
    }
  }

  lemma {:induction false} DatedAppend(a: seq<PitchEvent>, b: seq<PitchEvent>)
    ensures Dated(a + b) == Dated(a) + Dated(b)
  {
    if a != [] {
      assert (a + b)[1..] == a[1..] + b;
      DatedAppend(a[1..], b);
    } else {
      assert a + b == b;
    }
  }

  lemma {:induction false} GroupAppend(a: seq<PitchEvent>, b: seq<PitchEvent>, y: int)
    ensures Group(a + b, y) == Group(a, y) + Group(b, y)
  {
    if a != [] {
      assert (a + b)[1..] == a[1..] + b;
      GroupAppend(a[1..], b, y);
    } else {
      assert a + b == b;
    }
  }

  /** A count is the length of the matching filter. */
  lemma {:induction false} CountIsFilterLength(g: seq<PitchEvent>, f: Flag)
    ensures Count(g, f) == |Filter(g, f)|
  {
    if g != [] {
      CountIsFilterLength(g[1..], f);
    }
  }

  /** Restricting to the swings loses no whiff. */
  lemma {:induction false} WhiffsAmongSwings(g: seq<PitchEvent>)
    ensures Count(Filter(g, Swinging), Whiff) == Count(g, Whiff)
  {
    if g != [] {
      WhiffIsSwing(g[0]);
      WhiffsAmongSwings(g[1..]);
    }
  }

  /** A count over a larger positive count is a fraction in [0, 1], 0 and 1 only at the ends. */
  lemma UnitQuotient(a: real, b: real)
    requires 0.0 <= a <= b && b > 0.0
    ensures 0.0 <= a / b <= 1.0
    ensures a / b == 0.0 <==> a == 0.0
    ensures a / b == 1.0 <==> a == b
  {
  }
}
