/**
 * The year-keyed metrics of the dashboard other than pitch usage: the yearly
 * means of release speed, spin rate, extension and zone, and the yearly
 * whiff and strikeout rates.
 */
module Metrics {
  import opened Wrappers
  import opened PitchEvents
  import opened Grouping

  /**
   * `Series.mean()` of column `m` over the group `g`: missing cells are
   * skipped, and a group whose cells are all missing has no mean (NaN).
   */
  function Mean(g: seq<PitchEvent>, m: Measure): (r: Option<real>)
    ensures r.None? <==> forall i :: 0 <= i < |g| ==> Value(g[i], m).None?
  {
    var n := PresentCount(g, m);
    if n == 0.0 then None else Some(PresentSum(g, m) / n)
  }

  /** Every non-missing cell of column `m` in `g` lies in [lo, hi]. */
  ghost predicate PresentWithin(g: seq<PitchEvent>, m: Measure, lo: real, hi: real)
  {
    forall i :: 0 <= i < |g| && Value(g[i], m).Some? ==> lo <= Value(g[i], m).value <= hi
  }

  /** The total amount by which the non-missing cells of column `m` exceed `c`. */
  function Excess(g: seq<PitchEvent>, m: Measure, c: real): real
  {
    if g == [] then 0.0
    else (match Value(g[0], m) case Some(v) => v - c case None => 0.0) + Excess(g[1..], m, c)
  }

  lemma {:induction false} ExcessSign(g: seq<PitchEvent>, m: Measure, lo: real, hi: real)
    requires PresentWithin(g, m, lo, hi)
    ensures Excess(g, m, lo) >= 0.0 && Excess(g, m, hi) <= 0.0
  {
    if g != [] {
      var t := g[1..];
      forall i | 0 <= i < |t| && Value(t[i], m).Some?
        ensures lo <= Value(t[i], m).value <= hi
      {
        assert t[i] == g[i + 1];
      }
      ExcessSign(t, m, lo, hi);
    }
  }

  /**
   * `c` added once per non-missing cell of column `m`. It equals
   * `c * PresentCount(g, m)` (`ScaledIsProduct`) and exists only so that the
   * induction relating `Excess` to the sum stays free of multiplication.
   */
  function Scaled(g: seq<PitchEvent>, m: Measure, c: real): real
  {
    if g == [] then 0.0
    else (if Value(g[0], m).Some? then c else 0.0) + Scaled(g[1..], m, c)
  }

  lemma {:induction false} ExcessIsSumLessScaled(g: seq<PitchEvent>, m: Measure, c: real)
    ensures Excess(g, m, c) == PresentSum(g, m) - Scaled(g, m, c)
  {
    if g != [] {
      ExcessIsSumLessScaled(g[1..], m, c);
    }
  }

  lemma {:induction false} ScaledIsProduct(g: seq<PitchEvent>, m: Measure, c: real)
    ensures Scaled(g, m, c) == c * PresentCount(g, m)
  {
    if g != [] {
      ScaledIsProduct(g[1..], m, c);
      var n := PresentCount(g[1..], m);
      assert c * (n + 1.0) == c * n + c;
    }
  }

  /** Per non-missing cell, `Scaled` is `c`. */
  lemma ScaledPerValue(g: seq<PitchEvent>, m: Measure, c: real)
    requires PresentCount(g, m) > 0.0
    ensures Scaled(g, m, c) / PresentCount(g, m) == c
  {
    ScaledIsProduct(g, m, c);
    ProductQuotient(c, PresentCount(g, m), Scaled(g, m, c));
  }

  lemma ProductQuotient(c: real, n: real, p: real)
    requires n > 0.0 && p == c * n
    ensures p / n == c
  {
  }

  /** Divided by the count, the excess over `c` is how far the mean lies above `c`. */
  lemma ExcessPerValue(g: seq<PitchEvent>, m: Measure, c: real)
    requires Mean(g, m).Some?
    ensures Excess(g, m, c) / PresentCount(g, m) == Mean(g, m).value - c
  {
    var sum, n, e, s := PresentSum(g, m), PresentCount(g, m), Excess(g, m, c), Scaled(g, m, c);
    assert e == sum - s by {
      ExcessIsSumLessScaled(g, m, c);
    }
    assert s / n == c by {
      ScaledPerValue(g, m, c);
    }
    assert Mean(g, m).value == sum / n;
    QuotientOfDifference(sum, s, n, e);
  }

  lemma QuotientOfDifference(a: real, b: real, n: real, e: real)
    requires n > 0.0 && e == a - b
    ensures e / n == a / n - b / n
  {
  }

  lemma QuotientSign(a: real, n: real)
    requires n > 0.0
    ensures a >= 0.0 ==> a / n >= 0.0
    ensures a <= 0.0 ==> a / n <= 0.0
  {
  }

  /** A mean lies within any bounds that hold of every value it averages. */
  lemma MeanWithin(g: seq<PitchEvent>, m: Measure, lo: real, hi: real)
    requires PresentWithin(g, m, lo, hi) && Mean(g, m).Some?
    ensures lo <= Mean(g, m).value <= hi
  {
    ExcessSign(g, m, lo, hi);
    ExcessPerValue(g, m, lo);
    ExcessPerValue(g, m, hi);
    QuotientSign(Excess(g, m, lo), PresentCount(g, m));
    QuotientSign(Excess(g, m, hi), PresentCount(g, m));
  }

  /** The index of a smallest non-missing cell of column `m`. */
  ghost function LeastPresent(g: seq<PitchEvent>, m: Measure): (k: nat)
    requires PresentCount(g, m) > 0.0
    ensures k < |g| && Value(g[k], m).Some?
    ensures forall i :: 0 <= i < |g| && Value(g[i], m).Some? ==> Value(g[k], m).value <= Value(g[i], m).value
  {
    assert forall i :: 0 < i < |g| ==> g[1..][i - 1] == g[i];
    if PresentCount(g[1..], m) == 0.0 then 0
    else
      var k := LeastPresent(g[1..], m) + 1;
      if Value(g[0], m).Some? && Value(g[0], m).value < Value(g[k], m).value then 0 else k
  }

  /** The index of a largest non-missing cell of column `m`. */
  ghost function GreatestPresent(g: seq<PitchEvent>, m: Measure): (k: nat)
    requires PresentCount(g, m) > 0.0
    ensures k < |g| && Value(g[k], m).Some?
    ensures forall i :: 0 <= i < |g| && Value(g[i], m).Some? ==> Value(g[i], m).value <= Value(g[k], m).value
  {
    assert forall i :: 0 < i < |g| ==> g[1..][i - 1] == g[i];
    if PresentCount(g[1..], m) == 0.0 then 0
    else
      var k := GreatestPresent(g[1..], m) + 1;
      if Value(g[0], m).Some? && Value(g[0], m).value > Value(g[k], m).value then 0 else k
  }

  lemma {:induction false} PresentAppend(a: seq<PitchEvent>, b: seq<PitchEvent>, m: Measure)
    ensures PresentCount(a + b, m) == PresentCount(a, m) + PresentCount(b, m)
    ensures PresentSum(a + b, m) == PresentSum(a, m) + PresentSum(b, m)
  {
    if a != [] {
      assert (a + b)[1..] == a[1..] + b;
      PresentAppend(a[1..], b, m);
    } else {
      assert a + b == b;
    }
  }

  /** A row whose cell is missing leaves the mean of column `m` unchanged. */
  lemma MeanIgnoresMissing(a: seq<PitchEvent>, e: PitchEvent, b: seq<PitchEvent>, m: Measure)
    requires Value(e, m).None?
    ensures Mean(a + [e] + b, m) == Mean(a + b, m)
  {
    PresentAppend(a + [e], b, m);
    PresentAppend(a, [e], m);
    PresentAppend(a, b, m);
    assert PresentCount([e], m) == 0.0 && PresentSum([e], m) == 0.0;
  }

  /** No row of year `y` has a value in column `m`. */
  ghost predicate NoValueInYear(rows: seq<PitchEvent>, y: int, m: Measure)
  {
    forall i :: 0 <= i < |rows| && rows[i].year == Some(y) ==> Value(rows[i], m).None?
  }

  /** `df.groupby('year')[m].mean()`: one mean per year that holds a row. */
  function GroupMean(rows: seq<PitchEvent>, m: Measure): (r: map<int, Option<real>>)
    ensures forall y :: y in r <==> HasYear(rows, y)
    ensures forall y :: y in r ==> (r[y].None? <==> NoValueInYear(rows, y, m))
  {
    var r := map y | y in Years(rows) :: Mean(Group(rows, y), m);
    assert forall y :: y in r ==> (r[y].None? <==> NoValueInYear(rows, y, m)) by {
      forall y | y in r
        ensures r[y].None? <==> NoValueInYear(rows, y, m)
      {
        AllMissingInGroup(rows, y, m);
      }
    }
    r
  }

  lemma AllMissingInGroup(rows: seq<PitchEvent>, y: int, m: Measure)
    ensures Mean(Group(rows, y), m).None? <==> NoValueInYear(rows, y, m)
  {
    var g := Group(rows, y);
    GroupMembers(rows, y);
    if Mean(g, m).None? {
      forall i | 0 <= i < |rows| && rows[i].year == Some(y)
        ensures Value(rows[i], m).None?
      {
        assert rows[i] in g;
      }
    }
    if NoValueInYear(rows, y, m) {
      forall i | 0 <= i < |g|
        ensures Value(g[i], m).None?
      {
        assert g[i] in rows;
      }
    }
  }

  /**
   * The mean of a year lies between the smallest and the largest non-missing
   * value recorded in that year.
   */
  lemma YearMeanBetweenExtremes(rows: seq<PitchEvent>, m: Measure, y: int)
    requires y in GroupMean(rows, m) && GroupMean(rows, m)[y].Some?
    ensures exists i :: 0 <= i < |rows| && rows[i].year == Some(y) && Value(rows[i], m).Some? &&
                        Value(rows[i], m).value <= GroupMean(rows, m)[y].value
    ensures exists i :: 0 <= i < |rows| && rows[i].year == Some(y) && Value(rows[i], m).Some? &&
                        GroupMean(rows, m)[y].value <= Value(rows[i], m).value
  {
    var g := Group(rows, y);
    GroupMembers(rows, y);
    assert GroupMean(rows, m)[y] == Mean(g, m);
    var lo := LeastPresent(g, m);
    var hi := GreatestPresent(g, m);
    MeanWithin(g, m, Value(g[lo], m).value, Value(g[hi], m).value);
    assert g[lo] in rows && g[hi] in rows;
  }

  /** Missing cells are excluded: adding a row without a value changes no yearly mean. */
  lemma GroupMeanIgnoresMissing(a: seq<PitchEvent>, e: PitchEvent, b: seq<PitchEvent>, m: Measure, y: int)
    requires Value(e, m).None? && y in GroupMean(a + b, m)
    ensures y in GroupMean(a + [e] + b, m)
    ensures GroupMean(a + [e] + b, m)[y] == GroupMean(a + b, m)[y]
  {
    HasYearAfterInsert(a, e, b, y);
    GroupMeanAt(a + [e] + b, m, y);
    GroupMeanAt(a + b, m, y);
    MeanAfterInsert(a, e, b, m, y);
  }

  lemma GroupMeanAt(rows: seq<PitchEvent>, m: Measure, y: int)
    requires HasYear(rows, y)
    ensures y in GroupMean(rows, m) && GroupMean(rows, m)[y] == Mean(Group(rows, y), m)
  {
  }

  lemma MeanAfterInsert(a: seq<PitchEvent>, e: PitchEvent, b: seq<PitchEvent>, m: Measure, y: int)
    requires Value(e, m).None?
    ensures Mean(Group(a + [e] + b, y), m) == Mean(Group(a + b, y), m)
  {
    GroupAfterInsert(a, e, b, y);
    if e.year == Some(y) {
      MeanIgnoresMissing(Group(a, y), e, Group(b, y), m);
    } else {
      assert Group(a, y) + [] + Group(b, y) == Group(a, y) + Group(b, y);
    }
  }

  lemma HasYearAfterInsert(a: seq<PitchEvent>, e: PitchEvent, b: seq<PitchEvent>, y: int)
    requires HasYear(a + b, y)
    ensures HasYear(a + [e] + b, y)
  {
    var k :| 0 <= k < |a + b| && (a + b)[k].year == Some(y);
    var j := if k < |a| then k else k + 1;
    assert (a + [e] + b)[j] == (a + b)[k];
  }

  lemma GroupAfterInsert(a: seq<PitchEvent>, e: PitchEvent, b: seq<PitchEvent>, y: int)
    ensures Group(a + b, y) == Group(a, y) + Group(b, y)
    ensures Group(a + [e] + b, y) == Group(a, y) + (if e.year == Some(y) then [e] else []) + Group(b, y)
  {
    GroupAppend(a, b, y);
    GroupAppend(a + [e], b, y);
    GroupAppend(a, [e], y);
    assert Group([e], y) == if e.year == Some(y) then [e] else [];
  }

  /** One row of `groupby('year')[['release_speed', 'release_spin_rate']].mean()`. */
  datatype SpeedSpin = SpeedSpin(releaseSpeed: Option<real>, releaseSpinRate: Option<real>)

  /** Yearly mean release speed and spin rate. */
  function VelocitySpin(rows: seq<PitchEvent>): (r: map<int, SpeedSpin>)
    ensures forall y :: y in r <==> HasYear(rows, y)
    ensures forall y :: y in r ==> (r[y].releaseSpeed.None? <==> NoValueInYear(rows, y, ReleaseSpeed))
    ensures forall y :: y in r ==> (r[y].releaseSpinRate.None? <==> NoValueInYear(rows, y, ReleaseSpinRate))
  {
    var speed := GroupMean(rows, ReleaseSpeed);
    var spin := GroupMean(rows, ReleaseSpinRate);
    map y | y in speed :: SpeedSpin(speed[y], spin[y])
  }

  /** Yearly mean release extension. */
  function ExtensionSummary(rows: seq<PitchEvent>): (r: map<int, Option<real>>)
    ensures forall y :: y in r <==> HasYear(rows, y)
    ensures forall y :: y in r ==> (r[y].None? <==> NoValueInYear(rows, y, ReleaseExtension))
  {
    GroupMean(rows, ReleaseExtension)
  }

  /**
   * Yearly mean of the raw `zone` code. The column holds location codes, so
   * this is an average code rather than a fraction of pitches in the zone.
   */
  function ZonePct(rows: seq<PitchEvent>): (r: map<int, Option<real>>)
    ensures forall y :: y in r <==> HasYear(rows, y)
    ensures forall y :: y in r ==> (r[y].None? <==> NoValueInYear(rows, y, Zone))
  {
    GroupMean(rows, Zone)
  }

  /** The mean of a boolean column over a non-empty group. */
  function Fraction(g: seq<PitchEvent>, f: Flag): (q: real)
    requires g != []
    ensures 0.0 <= q <= 1.0
    ensures q == 0.0 <==> forall i :: 0 <= i < |g| ==> !Holds(g[i], f)
    ensures q == 1.0 <==> forall i :: 0 <= i < |g| ==> Holds(g[i], f)
  {
    var hits, size := Count(g, f) as real, |g| as real;
    UnitQuotient(hits, size);
    hits / size
  }

  /** `groupby('year')[flag].mean()`: the fraction of each year's rows for which `f` holds. */
  function Rate(rows: seq<PitchEvent>, f: Flag): (r: map<int, real>)
    ensures forall y :: y in r <==> HasYear(rows, y)
    ensures forall y :: y in r ==> 0.0 <= r[y] <= 1.0
  {
    map y | y in Years(rows) :: Fraction(Group(rows, y), f)
  }

  /**
   * The whiff rate: over the swing rows only, the fraction of each year's
   * swings that are whiffs. Years without a swing are absent.
   */
  function WhiffRate(rows: seq<PitchEvent>): (r: map<int, real>)
    ensures forall y :: y in r <==> HoldsInYear(rows, y, Swinging)
    ensures forall y :: y in r ==> 0.0 <= r[y] <= 1.0
  {
    var swingData := Filter(rows, Swinging);
    YearsOfFilter(rows, Swinging);
    Rate(swingData, Whiff)
  }

  /** A year's whiff rate is its whiffs divided by its swings. */
  lemma WhiffRateIsWhiffsPerSwing(rows: seq<PitchEvent>, y: int)
    requires y in WhiffRate(rows)
    ensures Count(Group(rows, y), Swinging) > 0
    ensures WhiffRate(rows)[y] == Count(Group(rows, y), Whiff) as real / Count(Group(rows, y), Swinging) as real
  {
    var g := Group(rows, y);
    GroupOfFilter(rows, Swinging, y);
    CountIsFilterLength(g, Swinging);
    WhiffsAmongSwings(g);
    assert WhiffRate(rows)[y] == Fraction(Filter(g, Swinging), Whiff);
  }

  /** A year's whiff rate is the whiff fraction of that year's swings. */
  lemma WhiffRateAt(rows: seq<PitchEvent>, y: int)
    requires y in WhiffRate(rows)
    ensures Filter(Group(rows, y), Swinging) != []
    ensures WhiffRate(rows)[y] == Fraction(Filter(Group(rows, y), Swinging), Whiff)
  {
    GroupOfFilter(rows, Swinging, y);
  }

  /** The whiff fraction of a group's swings is 1 exactly when each of its swings is a whiff. */
  lemma AllSwingsWhiff(g: seq<PitchEvent>)
    requires Filter(g, Swinging) != []
    ensures Fraction(Filter(g, Swinging), Whiff) == 1.0 <==>
      forall e :: e in g && IsSwing(e) ==> IsWhiff(e)
  {
    var s := Filter(g, Swinging);
    if forall e :: e in g && IsSwing(e) ==> IsWhiff(e) {
      forall i | 0 <= i < |s| ensures Holds(s[i], Whiff) {
        assert s[i] in s;
      }
    }
    if Fraction(s, Whiff) == 1.0 {
      forall e | e in g && IsSwing(e) ensures IsWhiff(e) {
        assert e in s;
        var i :| 0 <= i < |s| && s[i] == e;
      }
    }
  }

  /** A year's whiff rate is 1 exactly when every swing thrown that year is a whiff. */
  lemma WhiffRateIsOne(rows: seq<PitchEvent>, y: int)
    requires y in WhiffRate(rows)
    ensures WhiffRate(rows)[y] == 1.0 <==>
      forall e :: e in rows && e.year == Some(y) && IsSwing(e) ==> IsWhiff(e)
  {
    var g := Group(rows, y);
    WhiffRateAt(rows, y);
    AllSwingsWhiff(g);
    assert (forall e :: e in g && IsSwing(e) ==> IsWhiff(e)) <==>
           (forall e :: e in rows && e.year == Some(y) && IsSwing(e) ==> IsWhiff(e)) by {
      GroupMembers(rows, y);
    }
  }

  /**
   * The strikeout rate: strikeouts per pitch, over every row of the year
   * (not over plate appearances, and not over the swings only).
   */
  function KRate(rows: seq<PitchEvent>): (r: map<int, real>)
    ensures forall y :: y in r <==> HasYear(rows, y)
    ensures forall y :: y in r ==> 0.0 <= r[y] <= 1.0
    ensures forall y :: y in r ==> (r[y] == 0.0 <==> !HoldsInYear(rows, y, Strikeout))
  {
    var r := Rate(rows, Strikeout);
    assert forall y :: y in r ==> r[y] == Count(Group(rows, y), Strikeout) as real / |Group(rows, y)| as real;
    assert forall y :: y in r ==> (r[y] == 0.0 <==> !HoldsInYear(rows, y, Strikeout)) by {
      forall y | y in r
        ensures r[y] == 0.0 <==> !HoldsInYear(rows, y, Strikeout)
      {
        CountInYear(rows, y, Strikeout);
      }
    }
    r
  }
}
