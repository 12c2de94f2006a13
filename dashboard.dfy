/**
 * The whole metric pipeline of the dashboard: every year-keyed table it
 * displays, derived from one pitch table, and the properties that relate
 * the tables to each other and to the rows they are computed from.
 */
module Dashboard {
  import opened Wrappers
  import opened PitchEvents
  import opened Grouping
  import opened Metrics
  import opened PitchUsage

  /** Every table the dashboard displays, before rounding. */
  datatype Report = Report(
    velocitySpin: map<int, SpeedSpin>,
    pitchPercent: map<int, map<string, real>>,
    extension: map<int, Option<real>>,
    whiffRate: map<int, real>,
    kRate: map<int, real>,
    zonePct: map<int, Option<real>>)

  /**
   * The metrics of the dashboard, each computed from the full table. Every
   * key of every table is the year of a row whose date parsed; the tables
   * grouped by year alone have every such year as a key.
   */
  function Derive(rows: seq<PitchEvent>): (r: Report)
    ensures r.velocitySpin.Keys == Years(rows)
    ensures r.extension.Keys == Years(rows)
    ensures r.kRate.Keys == Years(rows)
    ensures r.zonePct.Keys == Years(rows)
    ensures r.pitchPercent.Keys <= Years(rows)
    ensures r.whiffRate.Keys <= Years(rows)
  {
    Report(VelocitySpin(rows), PitchPercent(rows), ExtensionSummary(rows),
           WhiffRate(rows), KRate(rows), ZonePct(rows))
  }

  // ----- Rows without a parseable date -----

  lemma GroupMeanOfDated(rows: seq<PitchEvent>, m: Measure)
    ensures GroupMean(Dated(rows), m) == GroupMean(rows, m)
  {
    GroupOfDated(rows, 0);
    forall y | y in Years(rows)
      ensures Group(Dated(rows), y) == Group(rows, y)
    {
      GroupOfDated(rows, y);
    }
  }

  lemma RateOfDated(rows: seq<PitchEvent>, f: Flag)
    ensures Rate(Dated(rows), f) == Rate(rows, f)
  {
    GroupOfDated(rows, 0);
    forall y | y in Years(rows)
      ensures Group(Dated(rows), y) == Group(rows, y)
    {
      GroupOfDated(rows, y);
    }
  }

  lemma {:induction false} ColumnsOfDated(rows: seq<PitchEvent>)
    ensures Columns(Dated(rows)) == Columns(rows)
  {
    if rows != [] {
      ColumnsOfDated(rows[1..]);
    }
  }

  lemma PitchCountsOfDated(rows: seq<PitchEvent>)
    ensures PitchCounts(Dated(rows)) == PitchCounts(rows)
  {
    ColumnsOfDated(rows);
    FilterOfDated(rows, HasPitchType);
    GroupOfDated(Filter(rows, HasPitchType), 0);
    forall y | y in Years(Filter(rows, HasPitchType))
      ensures Group(Dated(rows), y) == Group(rows, y)
    {
      GroupOfDated(rows, y);
    }
  }

  /** Rows with no parseable date contribute to no metric. */
  lemma UndatedRowsIgnored(rows: seq<PitchEvent>)
    ensures Derive(Dated(rows)) == Derive(rows)
  {
    GroupMeanOfDated(rows, ReleaseSpeed);
    GroupMeanOfDated(rows, ReleaseSpinRate);
    GroupMeanOfDated(rows, ReleaseExtension);
    GroupMeanOfDated(rows, Zone);
    PitchCountsOfDated(rows);
    ColumnsOfDated(rows);
    FilterOfDated(rows, Swinging);
    RateOfDated(Filter(rows, Swinging), Whiff);
    RateOfDated(rows, Strikeout);
  }

  /** Adding a row whose date did not parse changes no table. */
  lemma UndatedRowChangesNothing(a: seq<PitchEvent>, e: PitchEvent, b: seq<PitchEvent>)
    requires e.year.None?
    ensures Derive(a + [e] + b) == Derive(a + b)
  {
    DatedAppend(a + [e], b);
    DatedAppend(a, [e]);
    DatedAppend(a, b);
    assert Dated([e]) == [];
    assert Dated(a + [e] + b) == Dated(a + b);
    UndatedRowsIgnored(a + [e] + b);
    UndatedRowsIgnored(a + b);
  }

  // ----- The description column -----

  /** The table with every description removed. */
  function Erase(rows: seq<PitchEvent>): (r: seq<PitchEvent>)
    ensures |r| == |rows|
  {
    if rows == [] then [] else [rows[0].(description := None)] + Erase(rows[1..])
  }

  /** The tests that do not read the description. */
  predicate DescriptionFree(f: Flag)
  {
    f == Strikeout || f == HasPitchType
  }

  lemma {:induction false} EraseGroup(rows: seq<PitchEvent>, y: int)
    ensures Group(Erase(rows), y) == Erase(Group(rows, y))
    ensures Years(Erase(rows)) == Years(rows)
  {
    if rows != [] {
      EraseGroup(rows[1..], y);
    }
  }

  lemma {:induction false} EraseFilter(rows: seq<PitchEvent>, f: Flag)
    requires DescriptionFree(f)
    ensures Filter(Erase(rows), f) == Erase(Filter(rows, f))
  {
    if rows != [] {
      EraseFilter(rows[1..], f);
    }
  }

  lemma {:induction false} EraseCount(g: seq<PitchEvent>, f: Flag)
    requires DescriptionFree(f)
    ensures Count(Erase(g), f) == Count(g, f)
  {
    if g != [] {
      EraseCount(g[1..], f);
    }
  }

  lemma {:induction false} ErasePresent(g: seq<PitchEvent>, m: Measure)
    ensures PresentCount(Erase(g), m) == PresentCount(g, m)
    ensures PresentSum(Erase(g), m) == PresentSum(g, m)
  {
    if g != [] {
      ErasePresent(g[1..], m);
    }
  }

  lemma {:induction false} EraseColumns(rows: seq<PitchEvent>)
    ensures Columns(Erase(rows)) == Columns(rows)
  {
    if rows != [] {
      EraseColumns(rows[1..]);
    }
  }

  lemma {:induction false} EraseCountType(g: seq<PitchEvent>, t: string)
    ensures CountType(Erase(g), t) == CountType(g, t)
  {
    if g != [] {
      EraseCountType(g[1..], t);
    }
  }

  lemma GroupMeanOfErase(rows: seq<PitchEvent>, m: Measure)
    ensures GroupMean(Erase(rows), m) == GroupMean(rows, m)
  {
    EraseGroup(rows, 0);
    forall y | y in Years(rows)
      ensures Mean(Group(Erase(rows), y), m) == Mean(Group(rows, y), m)
    {
      EraseGroup(rows, y);
      ErasePresent(Group(rows, y), m);
    }
  }

  lemma RateOfErase(rows: seq<PitchEvent>, f: Flag)
    requires DescriptionFree(f)
    ensures Rate(Erase(rows), f) == Rate(rows, f)
  {
    EraseGroup(rows, 0);
    forall y | y in Years(rows)
      ensures Fraction(Group(Erase(rows), y), f) == Fraction(Group(rows, y), f)
    {
      EraseGroup(rows, y);
      EraseCount(Group(rows, y), f);
    }
  }

  lemma PitchCountsOfErase(rows: seq<PitchEvent>)
    ensures PitchCounts(Erase(rows)) == PitchCounts(rows)
  {
    var cols := Columns(rows);
    var ys := Years(Filter(rows, HasPitchType));
    assert Columns(Erase(rows)) == cols by {
      EraseColumns(rows);
    }
    assert Years(Filter(Erase(rows), HasPitchType)) == ys by {
      EraseFilter(rows, HasPitchType);
      EraseGroup(Filter(rows, HasPitchType), 0);
    }
    assert (map y | y in ys :: CountRow(Group(Erase(rows), y), cols)) ==
           (map y | y in ys :: CountRow(Group(rows, y), cols)) by {
      forall y | y in ys
        ensures CountRow(Group(Erase(rows), y), cols) == CountRow(Group(rows, y), cols)
      {
        CountRowOfErase(rows, y, cols);
      }
    }
    PitchCountsAt(Erase(rows));
    PitchCountsAt(rows);
  }

  lemma CountRowOfErase(rows: seq<PitchEvent>, y: int, cols: seq<string>)
    ensures CountRow(Group(Erase(rows), y), cols) == CountRow(Group(rows, y), cols)
  {
    EraseGroup(rows, y);
    forall t | t in cols
      ensures CountType(Group(Erase(rows), y), t) == CountType(Group(rows, y), t)
    {
      EraseCountType(Group(rows, y), t);
    }
  }

  lemma PitchCountsAt(rows: seq<PitchEvent>)
    ensures PitchCounts(rows) ==
      map y | y in Years(Filter(rows, HasPitchType)) :: CountRow(Group(rows, y), Columns(rows))
  {
  }

  /**
   * The swing filter reads only the description, and only the whiff rate
   * reads the swing filter: two tables that differ in their descriptions
   * alone agree on every other metric.
   */
  lemma DescriptionOnlyAffectsWhiffRate(a: seq<PitchEvent>, b: seq<PitchEvent>)
    requires Erase(a) == Erase(b)
    ensures Derive(a).velocitySpin == Derive(b).velocitySpin
    ensures Derive(a).pitchPercent == Derive(b).pitchPercent
    ensures Derive(a).extension == Derive(b).extension
    ensures Derive(a).kRate == Derive(b).kRate
    ensures Derive(a).zonePct == Derive(b).zonePct
  {
    forall m: Measure
      ensures GroupMean(a, m) == GroupMean(b, m)
    {
      GroupMeanOfErase(a, m);
      GroupMeanOfErase(b, m);
    }
    assert PitchPercent(a) == PitchPercent(b) by {
      PitchCountsOfErase(a);
      PitchCountsOfErase(b);
      EraseColumns(a);
      EraseColumns(b);
    }
    assert KRate(a) == KRate(b) by {
      RateOfErase(a, Strikeout);
      RateOfErase(b, Strikeout);
    }
  }

  // ----- Worked examples -----

  /** A pitch with only a year, a pitch type, a description and an event recorded. */
  function Pitch(year: int, pitchType: Option<string>, description: Option<string>, events: Option<string>): PitchEvent
  {
    PitchEvent(Some(year), None, None, None, None, pitchType, description, events)
  }

  /** Two swinging strikes in 2020, the second ending a strikeout. */
  function TwoSwingingStrikes(): seq<PitchEvent>
  {
    [Pitch(2020, None, Some("swinging_strike"), None),
     Pitch(2020, None, Some("swinging_strike"), Some("strikeout"))]
  }

  lemma TwoSwingingStrikesFacts()
    ensures HoldsInYear(TwoSwingingStrikes(), 2020, Swinging)
    ensures forall e :: e in TwoSwingingStrikes() && e.year == Some(2020) && IsSwing(e) ==> IsWhiff(e)
    ensures Group(TwoSwingingStrikes(), 2020) == TwoSwingingStrikes()
    ensures Count(TwoSwingingStrikes(), Strikeout) == 1
  {
    var rows := TwoSwingingStrikes();
    WhiffIsSwing(rows[0]);
    assert Holds(rows[0], Swinging);
  }

  /** One strikeout in two pitches is a strikeout rate of one half. */
  lemma OneInTwo(g: seq<PitchEvent>, f: Flag)
    requires |g| == 2 && Count(g, f) == 1
    ensures Fraction(g, f) == 0.5
  {
  }

  /**
   * Two swinging strikes in 2020, the second ending a strikeout: every swing
   * is a whiff, and one pitch in two is a strikeout.
   */
  lemma TwoSwingingStrikesRates()
    ensures 2020 in WhiffRate(TwoSwingingStrikes()) && WhiffRate(TwoSwingingStrikes())[2020] == 1.0
    ensures 2020 in KRate(TwoSwingingStrikes()) && KRate(TwoSwingingStrikes())[2020] == 0.5
  {
    var rows := TwoSwingingStrikes();
    TwoSwingingStrikesFacts();
    WhiffRateIsOne(rows, 2020);
    assert KRate(rows)[2020] == 0.5 by {
      assert HasYear(rows, 2020);
      assert KRate(rows)[2020] == Fraction(rows, Strikeout);
      OneInTwo(rows, Strikeout);
    }
  }

  /** Three four-seamers followed by one slider, all thrown in 2021. */
  function ThreeToOne(): seq<PitchEvent>
  {
    [Pitch(2021, Some("FF"), None, None), Pitch(2021, Some("FF"), None, None),
     Pitch(2021, Some("FF"), None, None), Pitch(2021, Some("SL"), None, None)]
  }

  lemma ThreeToOneCounts()
    ensures HoldsInYear(ThreeToOne(), 2021, HasPitchType)
    ensures TypeSeen(ThreeToOne(), "FF") && TypeSeen(ThreeToOne(), "SL")
    ensures Count(Group(ThreeToOne(), 2021), HasPitchType) == 4
    ensures CountType(Group(ThreeToOne(), 2021), "FF") == 3
    ensures CountType(Group(ThreeToOne(), 2021), "SL") == 1
  {
    var rows := ThreeToOne();
    assert rows[0].year.Some? && rows[0].pitchType == Some("FF");
    assert rows[3].year.Some? && rows[3].pitchType == Some("SL");
    assert Group(rows, 2021) == rows;
  }

  /** In a year with four typed pitches, three of one type and one of another, the usage fractions are 0.75 and 0.25. */
  lemma ThreeToOneShares(rows: seq<PitchEvent>, y: int, major: string, minor: string)
    requires HoldsInYear(rows, y, HasPitchType) && TypeSeen(rows, major) && TypeSeen(rows, minor)
    requires Count(Group(rows, y), HasPitchType) == 4
    requires CountType(Group(rows, y), major) == 3 && CountType(Group(rows, y), minor) == 1
    ensures y in PitchPercent(rows)
    ensures major in PitchPercent(rows)[y] && PitchPercent(rows)[y][major] == 0.75
    ensures minor in PitchPercent(rows)[y] && PitchPercent(rows)[y][minor] == 0.25
  {
    assert 3.0 / 4.0 == 0.75 && 1.0 / 4.0 == 0.25 by {
      QuotientIs(3.0, 4.0, 0.75);
      QuotientIs(1.0, 4.0, 0.25);
    }
    assert PitchPercent(rows)[y][major] == 3.0 / 4.0 by {
      PercentEntry(rows, y, major);
    }
    assert PitchPercent(rows)[y][minor] == 1.0 / 4.0 by {
      PercentEntry(rows, y, minor);
    }
  }

  lemma QuotientIs(s: real, n: real, q: real)
    requires n > 0.0 && q * n == s
    ensures s / n == q
  {
  }

  /** Three four-seamers and one slider in 2021 give usage fractions 0.75 and 0.25. */
  lemma ThreeToOneUsage()
    ensures 2021 in PitchPercent(ThreeToOne())
    ensures "FF" in PitchPercent(ThreeToOne())[2021] && PitchPercent(ThreeToOne())[2021]["FF"] == 0.75
    ensures "SL" in PitchPercent(ThreeToOne())[2021] && PitchPercent(ThreeToOne())[2021]["SL"] == 0.25
  {
    ThreeToOneCounts();
    ThreeToOneShares(ThreeToOne(), 2021, "FF", "SL");
  }

  /**
   * Speeds 95, missing and 97 in 2022 average to 96 over the two recorded
   * speeds; a year with no recorded spin rate has no mean spin rate.
   */
  lemma MeanSkipsMissingSpeed()
    ensures var rows := [PitchEvent(Some(2022), Some(95.0), None, None, None, None, None, None),
                         PitchEvent(Some(2022), None, None, None, None, None, None, None),
                         PitchEvent(Some(2022), Some(97.0), None, None, None, None, None, None)];
            2022 in VelocitySpin(rows) &&
            VelocitySpin(rows)[2022] == SpeedSpin(Some(96.0), None)
  {
    var rows := [PitchEvent(Some(2022), Some(95.0), None, None, None, None, None, None),
                 PitchEvent(Some(2022), None, None, None, None, None, None, None),
                 PitchEvent(Some(2022), Some(97.0), None, None, None, None, None, None)];
    assert HasYear(rows, 2022);
    var g := Group(rows, 2022);
    assert g == rows;
    assert PresentCount(g, ReleaseSpeed) == 2.0 && PresentSum(g, ReleaseSpeed) == 192.0;
    assert GroupMean(rows, ReleaseSpeed)[2022] == Mean(g, ReleaseSpeed);
    assert GroupMean(rows, ReleaseSpinRate)[2022] == Mean(g, ReleaseSpinRate);
  }
}
