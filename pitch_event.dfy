/**
 * One row of the Statcast pitch table and the per-row columns the dashboard
 * script derives from it: the swing, whiff and strikeout flags.
 */
module PitchEvents {
  import opened Wrappers

  /**
   * A pitched ball. `year` is the calendar year of the parsed game date, or
   * None when the date could not be parsed; every other cell may be missing.
   */
  datatype PitchEvent = PitchEvent(
    year: Option<int>,
    releaseSpeed: Option<real>,
    releaseSpinRate: Option<real>,
    releaseExtension: Option<real>,
    zone: Option<real>,
    pitchType: Option<string>,
    description: Option<string>,
    events: Option<string>)

  /** The numeric columns that are averaged per year. */
  datatype Measure = ReleaseSpeed | ReleaseSpinRate | ReleaseExtension | Zone

  function Value(e: PitchEvent, m: Measure): Option<real>
  {
    match m
    case ReleaseSpeed => e.releaseSpeed
    case ReleaseSpinRate => e.releaseSpinRate
    case ReleaseExtension => e.releaseExtension
    case Zone => e.zone
  }

  /** The boolean per-row tests the metrics filter on or count. */
  datatype Flag = Swinging | Whiff | Strikeout | HasPitchType

  predicate Holds(e: PitchEvent, f: Flag)
  {
    match f
    case Swinging => IsSwing(e)
    case Whiff => IsWhiff(e)
    case Strikeout => IsStrikeout(e)
    case HasPitchType => e.pitchType.Some?
  }

  /** The description column after its missing cells are replaced by "". */
  function FilledDescription(e: PitchEvent): (s: string)
    ensures s == "" <==> e.description.None? || e.description == Some("")
  {
    e.description.GetOr("")
  }

  function LowerChar(c: char): char
  {
    if 'A' <= c <= 'Z' then (c as int - 'A' as int + 'a' as int) as char else c
  }

  function Lower(s: string): string
  {
    seq(|s|, i requires 0 <= i < |s| => LowerChar(s[i]))
  }

  ghost predicate OccursAt(s: string, pat: string, i: int)
  {
    0 <= i && i + |pat| <= |s| && s[i..i + |pat|] == pat
  }

  /** Substring search: `pat` occurs somewhere in `s`. */
  function Contains(s: string, pat: string): (b: bool)
    ensures b <==> exists i :: OccursAt(s, pat, i)
    decreases |s|
  {
    if |s| < |pat| then false
    else if s[..|pat|] == pat then (assert OccursAt(s, pat, 0); true)
    else
      var b := Contains(s[1..], pat);
      ShiftOccurrence(s, pat);
      b
  }

  lemma ShiftOccurrence(s: string, pat: string)
    requires |s| >= |pat| && s[..|pat|] != pat
    ensures (exists i :: OccursAt(s, pat, i)) <==> (exists i :: OccursAt(s[1..], pat, i))
  {
    forall i | OccursAt(s, pat, i)
      ensures OccursAt(s[1..], pat, i - 1)
    {
      assert i != 0;
      assert s[1..][i - 1..i - 1 + |pat|] == s[i..i + |pat|];
    }
    forall i | OccursAt(s[1..], pat, i)
      ensures OccursAt(s, pat, i + 1)
    {
      assert s[1..][i..i + |pat|] == s[i + 1..i + 1 + |pat|];
    }
  }

  /** `str.contains('swing', case=False)` on the filled description. */
  predicate IsSwing(e: PitchEvent)
    ensures IsSwing(e) <==> exists i :: OccursAt(Lower(FilledDescription(e)), "swing", i)
  {
    Contains(Lower(FilledDescription(e)), "swing")
  }

  /** Exact equality of the filled description with "swinging_strike". */
  predicate IsWhiff(e: PitchEvent)
    ensures IsWhiff(e) <==> e.description == Some("swinging_strike")
  {
    FilledDescription(e) == "swinging_strike"
  }

  /** `events == 'strikeout'`; a missing cell compares unequal. */
  predicate IsStrikeout(e: PitchEvent)
    ensures IsStrikeout(e) ==> e.events.Some? && e.events.value == "strikeout"
    ensures e.events.None? ==> !IsStrikeout(e)
  {
    e.events == Some("strikeout")
  }

  /** Every whiff is a swing, so whiffs among swings are all the whiffs. */
  lemma WhiffIsSwing(e: PitchEvent)
    ensures IsWhiff(e) ==> IsSwing(e)
  {
    if IsWhiff(e) {
      var s := Lower(FilledDescription(e));
      assert s[0..5] == "swing";
      assert OccursAt(s, "swing", 0);
    }
  }

  /** A missing description counts as "": neither a swing nor a whiff. */
  lemma MissingDescriptionIsNeither(e: PitchEvent)
    requires e.description.None?
    ensures !IsSwing(e) && !IsWhiff(e)
  {
  }

  /** A foul does not contain "swing", so it is not a swing. */
  lemma FoulIsNotSwing(e: PitchEvent)
    requires e.description == Some("foul") || e.description == Some("foul_tip")
    ensures !IsSwing(e) && !IsWhiff(e)
  {
    var s := Lower(FilledDescription(e));
    assert forall k :: 0 <= k < |s| ==> s[k] != 's';
    forall i | 0 <= i && i + 5 <= |s|
      ensures !OccursAt(s, "swing", i)
    {
      assert s[i..i + 5][0] == s[i];
    }
  }

  /**
   * The swing test ignores case and accepts any description containing
   * "swing", but the whiff test is exact: a blocked or upper-case swinging
   * strike is a swing that is not a whiff.
   */
  lemma SwingNotWhiff(e: PitchEvent)
    requires e.description == Some("swinging_strike_blocked") || e.description == Some("SWINGING_STRIKE")
    ensures IsSwing(e) && !IsWhiff(e)
  {
    var s := Lower(FilledDescription(e));
    assert s[0..5] == "swing";
    assert OccursAt(s, "swing", 0);
  }
}
