/**
 * The pitch usage table: per year, the share of each pitch type among that
 * year's pitches with a recorded type (`groupby(['year', 'pitch_type'])
 * .size().unstack(fill_value=0)` divided by its row sums).
 */
module PitchUsage {
  import opened Wrappers
  import opened PitchEvents
  import opened Grouping

  ghost predicate Distinct(s: seq<string>)
  {
    forall i, j :: 0 <= i < j < |s| ==> s[i] != s[j]
  }

  /** Some dated row has pitch type `t`. */
  ghost predicate TypeSeen(rows: seq<PitchEvent>, t: string)
  {
    exists i :: 0 <= i < |rows| && rows[i].year.Some? && rows[i].pitchType == Some(t)
  }

  /** Some row of year `y` has pitch type `t`. */
  ghost predicate TypeInYear(rows: seq<PitchEvent>, y: int, t: string)
  {
    exists i :: 0 <= i < |rows| && rows[i].year == Some(y) && rows[i].pitchType == Some(t)
  }

  /**
   * The columns of the unstacked table: each pitch type of a dated row, once.
   * Rows with a missing year or type take no part in the two-key group-by.
   */
  function Columns(rows: seq<PitchEvent>): (cols: seq<string>)
    ensures Distinct(cols)
    ensures forall t :: t in cols <==> TypeSeen(rows, t)
  {
    if rows == [] then []
    else
      var rest := Columns(rows[1..]);
      assert forall i :: 0 < i < |rows| ==> rows[i] == rows[1..][i - 1];
      match rows[0].pitchType
      case Some(t) => if rows[0].year.Some? && t !in rest then [t] + rest else rest
      case None => rest
  }

  /** The number of rows of `g` with pitch type `t`: one cell of `size()`. */
  function CountType(g: seq<PitchEvent>, t: string): (n: nat)
    ensures n <= |g|
    ensures n == 0 <==> forall i :: 0 <= i < |g| ==> g[i].pitchType != Some(t)
  {
    if g == [] then 0
    else
      assert forall i :: 0 < i < |g| ==> g[i] == g[1..][i - 1];
      (if g[0].pitchType == Some(t) then 1 else 0) + CountType(g[1..], t)
  }

  /** One year's row of the unstacked count table: a count, possibly 0, for every column. */
  function CountRow(g: seq<PitchEvent>, cols: seq<string>): (row: map<string, nat>)
    ensures forall t :: t in row <==> t in cols
    ensures forall t :: t in row ==> row[t] <= |g|
  {
    map t | t in cols :: CountType(g, t)
  }

  /** The sum of a row over the given columns (`sum(axis=1)`). */
  function RowTotal(row: map<string, nat>, cols: seq<string>): (n: nat)
    requires forall t :: t in cols ==> t in row
    ensures forall t :: t in cols ==> row[t] <= n
  {
    if cols == [] then 0 else row[cols[0]] + RowTotal(row, cols[1..])
  }

  /** The sum of the per-type counts of `g` over the given columns. */
  function SumCounts(g: seq<PitchEvent>, cols: seq<string>): nat
  {
    if cols == [] then 0 else CountType(g, cols[0]) + SumCounts(g, cols[1..])
  }

  /** How many of the given columns name the pitch type of `e`. */
  function Hits(e: PitchEvent, cols: seq<string>): nat
  {
    if cols == [] then 0 else (if e.pitchType == Some(cols[0]) then 1 else 0) + Hits(e, cols[1..])
  }

  lemma {:induction false} RowTotalOfCountRow(g: seq<PitchEvent>, all: seq<string>, cols: seq<string>)
    requires forall t :: t in cols ==> t in all
    ensures RowTotal(CountRow(g, all), cols) == SumCounts(g, cols)
  {
    if cols != [] {
      RowTotalOfCountRow(g, all, cols[1..]);
    }
  }

  lemma {:induction false} HitsOfDistinct(e: PitchEvent, cols: seq<string>)
    requires Distinct(cols)
    ensures Hits(e, cols) == if e.pitchType.Some? && e.pitchType.value in cols then 1 else 0
  {
    if cols != [] {
      HitsOfDistinct(e, cols[1..]);
      assert cols[0] !in cols[1..] by {
        forall k | 0 <= k < |cols[1..]| ensures cols[1..][k] != cols[0] {
          assert cols[1..][k] == cols[k + 1];
        }
      }
    }
  }

  lemma {:induction false} SumCountsStep(g: seq<PitchEvent>, cols: seq<string>)
    requires g != []
    ensures SumCounts(g, cols) == Hits(g[0], cols) + SumCounts(g[1..], cols)
  {
    if cols != [] {
      SumCountsStep(g, cols[1..]);
    }
  }

  /**
   * Summing the per-type counts over distinct columns that cover every type
   * in `g` counts each typed row once and each untyped row not at all.
   */
  lemma {:induction false} SumCountsIsTypedCount(g: seq<PitchEvent>, cols: seq<string>)
    requires Distinct(cols)
    requires forall i :: 0 <= i < |g| && g[i].pitchType.Some? ==> g[i].pitchType.value in cols
    ensures SumCounts(g, cols) == Count(g, HasPitchType)
  {
    if g != [] {
      assert forall i :: 0 < i < |g| ==> g[i] == g[1..][i - 1];
      SumCountsStep(g, cols);
      HitsOfDistinct(g[0], cols);
      SumCountsIsTypedCount(g[1..], cols);
    } else {
      if cols != [] {
        SumCountsIsTypedCount(g, cols[1..]);
        assert Distinct(cols[1..]) by {
          forall i, j | 0 <= i < j < |cols[1..]| ensures cols[1..][i] != cols[1..][j] {
            assert cols[1..][i] == cols[i + 1] && cols[1..][j] == cols[j + 1];
          }
        }
      }
    }
  }

  /** The year `y` row of the count table adds up to the number of typed rows of `y`. */
  lemma RowTotalIsTypedCount(rows: seq<PitchEvent>, y: int)
    ensures RowTotal(CountRow(Group(rows, y), Columns(rows)), Columns(rows)) == Count(Group(rows, y), HasPitchType)
  {
    var g := Group(rows, y);
    var cols := Columns(rows);
    GroupMembers(rows, y);
    forall i | 0 <= i < |g| && g[i].pitchType.Some?
      ensures g[i].pitchType.value in cols
    {
      assert g[i] in rows;
      var k :| 0 <= k < |rows| && rows[k] == g[i];
      assert TypeSeen(rows, g[i].pitchType.value);
    }
    RowTotalOfCountRow(g, cols, cols);
    SumCountsIsTypedCount(g, cols);
  }

  /**
   * `df.groupby(['year', 'pitch_type']).size().unstack(fill_value=0)`: for
   * each year with a typed row, a count for every column, the row summing to
   * that year's number of typed rows.
   */
  function PitchCounts(rows: seq<PitchEvent>): (counts: map<int, map<string, nat>>)
    ensures forall y :: y in counts <==> HoldsInYear(rows, y, HasPitchType)
    ensures forall y, t :: y in counts ==> (t in counts[y] <==> TypeSeen(rows, t))
    ensures forall y :: y in counts ==>
      RowTotal(counts[y], Columns(rows)) == Count(Group(rows, y), HasPitchType) > 0
  {
    var cols := Columns(rows);
    YearsOfFilter(rows, HasPitchType);
    var counts := map y | y in Years(Filter(rows, HasPitchType)) :: CountRow(Group(rows, y), cols);
    assert forall y :: y in counts ==>
      RowTotal(counts[y], cols) == Count(Group(rows, y), HasPitchType) > 0 by {
      forall y | y in counts
        ensures RowTotal(counts[y], cols) == Count(Group(rows, y), HasPitchType) > 0
      {
        RowTotalIsTypedCount(rows, y);
        CountInYear(rows, y, HasPitchType);
      }
    }
    counts
  }

  /** A count row divided by its total. */
  function Share(row: map<string, nat>, cols: seq<string>): (share: map<string, real>)
    requires forall t :: t in cols ==> t in row
    requires RowTotal(row, cols) > 0
    ensures forall t :: t in share <==> t in row
    ensures forall t :: t in cols ==> 0.0 <= share[t] <= 1.0
  {
    var total := RowTotal(row, cols);
    var share := map t | t in row :: row[t] as real / total as real;
    assert forall t :: t in cols ==> 0.0 <= share[t] <= 1.0 by {
      forall t | t in cols
        ensures 0.0 <= share[t] <= 1.0
      {
        UnitQuotient(row[t] as real, total as real);
      }
    }
    share
  }

  /**
   * `pitch_counts.div(pitch_counts.sum(axis=1), axis=0)`: each year's counts
   * as fractions of the year's total, before rounding and scaling by 100.
   */
  function PitchPercent(rows: seq<PitchEvent>): (pct: map<int, map<string, real>>)
    ensures forall y :: y in pct <==> HoldsInYear(rows, y, HasPitchType)
    ensures forall y, t :: y in pct ==> (t in pct[y] <==> TypeSeen(rows, t))
  {
    var counts := PitchCounts(rows);
    var cols := Columns(rows);
    map y | y in counts :: Share(counts[y], cols)
  }

  /** The sum of a row of shares over the given columns. */
  function ShareTotal(share: map<string, real>, cols: seq<string>): real
    requires forall t :: t in cols ==> t in share
  {
    if cols == [] then 0.0 else share[cols[0]] + ShareTotal(share, cols[1..])
  }

  lemma AddQuotients(a: real, b: real, d: real)
    requires d > 0.0
    ensures a / d + b / d == (a + b) / d
  {
  }

  lemma {:induction false} ShareTotalIsQuotient(row: map<string, nat>, all: seq<string>, cols: seq<string>)
    requires forall t :: t in all ==> t in row
    requires RowTotal(row, all) > 0
    requires forall t :: t in cols ==> t in all
    ensures ShareTotal(Share(row, all), cols) == RowTotal(row, cols) as real / RowTotal(row, all) as real
  {
    if cols != [] {
      ShareTotalIsQuotient(row, all, cols[1..]);
      AddQuotients(row[cols[0]] as real, RowTotal(row, cols[1..]) as real, RowTotal(row, all) as real);
    }
  }

  lemma PercentAt(rows: seq<PitchEvent>, y: int)
    requires y in PitchPercent(rows)
    ensures y in PitchCounts(rows)
    ensures PitchPercent(rows)[y] == Share(PitchCounts(rows)[y], Columns(rows))
  {
  }

  /** Each year's usage fractions add up to exactly 1 (percentages to 100). */
  lemma PercentSumsToOne(rows: seq<PitchEvent>, y: int)
    requires y in PitchPercent(rows)
    ensures ShareTotal(PitchPercent(rows)[y], Columns(rows)) == 1.0
  {
    PercentAt(rows, y);
    var row := PitchCounts(rows)[y];
    var cols := Columns(rows);
    ShareTotalIsQuotient(row, cols, cols);
    var total := RowTotal(row, cols) as real;
    SelfQuotient(total);
  }

  lemma SelfQuotient(d: real)
    requires d > 0.0
    ensures d / d == 1.0
  {
  }

  lemma {:induction false} CountTypeAtMostTyped(g: seq<PitchEvent>, t: string)
    ensures CountType(g, t) <= Count(g, HasPitchType)
  {
    if g != [] {
      CountTypeAtMostTyped(g[1..], t);
    }
  }

  lemma CountTypeInYear(rows: seq<PitchEvent>, y: int, t: string)
    ensures CountType(Group(rows, y), t) == 0 <==> !TypeInYear(rows, y, t)
  {
    var g := Group(rows, y);
    GroupMembers(rows, y);
    if TypeInYear(rows, y, t) {
      var i :| 0 <= i < |rows| && rows[i].year == Some(y) && rows[i].pitchType == Some(t);
      assert rows[i] in g;
    }
    if CountType(g, t) > 0 {
      var j :| 0 <= j < |g| && g[j].pitchType == Some(t);
      assert g[j] in rows;
    }
  }

  /**
   * A usage entry is the year's rows of that type over the year's rows with
   * any type: it lies in [0, 1] and is 0 exactly when the type was not
   * thrown that year.
   */
  lemma PercentEntry(rows: seq<PitchEvent>, y: int, t: string)
    requires y in PitchPercent(rows) && t in PitchPercent(rows)[y]
    ensures PitchPercent(rows)[y][t] ==
      CountType(Group(rows, y), t) as real / Count(Group(rows, y), HasPitchType) as real
    ensures 0.0 <= PitchPercent(rows)[y][t] <= 1.0
    ensures PitchPercent(rows)[y][t] == 0.0 <==> !TypeInYear(rows, y, t)
  {
    PercentAt(rows, y);
    var row := PitchCounts(rows)[y];
    var g := Group(rows, y);
    assert row[t] == CountType(g, t);
    var total := RowTotal(row, Columns(rows));
    assert total == Count(g, HasPitchType);
    assert PitchPercent(rows)[y][t] == row[t] as real / total as real;
    CountTypeAtMostTyped(g, t);
    CountTypeInYear(rows, y, t);
    UnitQuotient(row[t] as real, total as real);
  }
}
