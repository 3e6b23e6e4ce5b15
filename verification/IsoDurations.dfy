/** What an ISO 8601 duration counts (section 4.4.3.2 of ISO 8601:2004), stated
    without the tables that read one. */
module IsoDurations {
  import opened Wrappers
  import opened Text
  import opened Interval
  import opened IntervalText

  /** Whole numbers of each unit, any of them left out. */
  datatype Duration = Duration(years: Option<int>, months: Option<int>, weeks: Option<int>, days: Option<int>,
    hours: Option<int>, minutes: Option<int>, seconds: Option<int>)

  function Part(count: Option<int>, designator: char): string {
    if count.None? then "" else IntText(count.value) + [designator]
  }

  function DateText(d: Duration): string {
    Part(d.years, 'Y') + (Part(d.months, 'M') + (Part(d.weeks, 'W') + Part(d.days, 'D')))
  }

  /** A T stands before the first unit of time there is. */
  function TimeText(d: Duration): string {
    if d.hours.None? && d.minutes.None? && d.seconds.None? then ""
    else "T" + (Part(d.hours, 'H') + (Part(d.minutes, 'M') + Part(d.seconds, 'S')))
  }

  function DurationText(d: Duration): string {
    "P" + DateText(d) + TimeText(d)
  }

  function Whole(count: Option<int>): int {
    if count.None? then 0 else count.value
  }

  /** A designator read as a unit of some scale. */
  predicate ReadsAs(designator: char, inTime: bool, scale: LiteralScale) {
    && IsAlphabetic(designator) && LowerChar(designator) != 't'
    && DesignatedUnit(designator, inTime).Some?
    && LiteralScaleOf(Lower(DesignatedUnit(designator, inTime).value)) == Some(scale)
  }

  lemma PartReads(count: Option<int>, designator: char, inTime: bool, fields: Counts, rest: string,
      scale: LiteralScale)
    requires ReadsAs(designator, inTime, scale)
    ensures ParseIso(Part(count, designator) + rest, inTime, fields)
         == ParseIso(rest, inTime, fields.Add(Decimal(Whole(count), 1), scale))
  {
    hide LiteralScaleOf, DesignatedUnit, Lower, IntText, Counts.Add, ParseDecimal, RoundingDiv, TruncDiv, TruncMod;
    if count.None? {
      assert "" + rest == rest;
      AddNothing(fields, scale);
    } else {
      var text := IntText(count.value);
      var s := text + [designator] + rest;
      IntTextParses(count.value);
      NoLetters(count.value);
      FirstLetterAt(text, designator, rest);
      assert s[..|text|] == text && s[|text|] == designator && s[|text| + 1..] == rest;
      assert s[0] == text[0] && !IsAlphabetic(s[0]);
      assert AddUnit(fields, text, DesignatedUnit(designator, inTime).value)
          == Ok(fields.Add(Decimal(count.value, 1), scale));
    }
  }

  lemma NoLetters(count: int)
    ensures |IntText(count)| > 0 && forall i :: 0 <= i < |IntText(count)| ==> !IsAlphabetic(IntText(count)[i])
    ensures LowerChar(IntText(count)[0]) != 't'
  {
    hide Digits;
  }

  lemma AddNothing(fields: Counts, scale: LiteralScale)
    ensures fields.Add(Decimal(0, 1), scale) == fields
  {
  }

  lemma DateUnits()
    ensures ReadsAs('Y', false, WholeMonths(12)) && ReadsAs('M', false, OneMonth)
    ensures ReadsAs('W', false, Days(7)) && ReadsAs('D', false, Days(1))
  {
    assert Lower("years") == "years" && Lower("months") == "months";
    assert Lower("weeks") == "weeks" && Lower("days") == "days";
  }

  lemma TimeUnits()
    ensures ReadsAs('H', true, Time(3_600_000_000)) && ReadsAs('M', true, Time(60_000_000))
    ensures ReadsAs('S', true, Time(1_000_000))
  {
    SecondUnits();
  }

  lemma DateReads(d: Duration, rest: string)
    ensures ParseIso(DateText(d) + rest, false, Counts(0, 0, 0))
         == ParseIso(rest, false, Counts(12 * Whole(d.years) + Whole(d.months), 7 * Whole(d.weeks) + Whole(d.days), 0))
  {
    hide ParseIso, ReadsAs, Part, Counts.Add;
    var days := Part(d.days, 'D') + rest;
    var weeks := Part(d.weeks, 'W') + days;
    var months := Part(d.months, 'M') + weeks;
    assert DateText(d) + rest == Part(d.years, 'Y') + months;
    DateUnits();
    var zero := Counts(0, 0, 0);
    PartReads(d.years, 'Y', false, zero, months, WholeMonths(12));
    WholeCountsAdd(zero, Whole(d.years), 12);
    var one := Counts(Whole(d.years) * 12, 0, 0);
    PartReads(d.months, 'M', false, one, weeks, OneMonth);
    WholeCountsAdd(one, Whole(d.months), 1);
    var two := one.(months := one.months + Whole(d.months));
    PartReads(d.weeks, 'W', false, two, days, Days(7));
    WeeksAdd(two, Whole(d.weeks));
    var three := two.(days := Whole(d.weeks) * 7);
    PartReads(d.days, 'D', false, three, rest, Days(1));
    WholeCountsAdd(three, Whole(d.days), 1);
  }

  lemma WeeksAdd(fields: Counts, count: int)
    ensures fields.Add(Decimal(count, 1), Days(7)) == fields.(days := fields.days + count * 7)
  {
    hide TruncDiv, TruncMod, RoundingDiv;
    DivByOne(count * 7);
    DivByOne(0);
    NothingCarries();
  }

  lemma TimeReads(d: Duration, fields: Counts)
    requires fields.micros == 0
    ensures ParseIso(TimeText(d), false, fields)
         == Ok(fields.(micros := 3_600_000_000 * Whole(d.hours) + 60_000_000 * Whole(d.minutes)
           + 1_000_000 * Whole(d.seconds)))
  {
    hide ParseIso, ReadsAs, Part, Counts.Add;
    if TimeText(d) == "" {
      IsoEnd(false, fields);
    } else {
      var seconds := Part(d.seconds, 'S') + "";
      var minutes := Part(d.minutes, 'M') + seconds;
      assert TimeText(d) == "T" + (Part(d.hours, 'H') + minutes);
      TimePartReads(Part(d.hours, 'H') + minutes, fields);
      TimeUnits();
      PartReads(d.hours, 'H', true, fields, minutes, Time(3_600_000_000));
      WholeCountsAdd(fields, Whole(d.hours), 3_600_000_000);
      var one := fields.(micros := Whole(d.hours) * 3_600_000_000);
      PartReads(d.minutes, 'M', true, one, seconds, Time(60_000_000));
      WholeCountsAdd(one, Whole(d.minutes), 60_000_000);
      var two := one.(micros := one.micros + Whole(d.minutes) * 60_000_000);
      PartReads(d.seconds, 'S', true, two, "", Time(1_000_000));
      WholeCountsAdd(two, Whole(d.seconds), 1_000_000);
      IsoEnd(true, two.(micros := two.micros + Whole(d.seconds) * 1_000_000));
    }
  }

  /** A duration reads as twelve months to the year, seven days to the week and
      the microseconds of its hours, minutes and seconds; M before the T is
      months, and after it minutes. */
  lemma DurationCounts(d: Duration)
    ensures ParseFields(DurationText(d))
         == Ok(Counts(12 * Whole(d.years) + Whole(d.months), 7 * Whole(d.weeks) + Whole(d.days),
                      3_600_000_000 * Whole(d.hours) + 60_000_000 * Whole(d.minutes) + 1_000_000 * Whole(d.seconds)))
  {
    hide ParseIso, ParseFields, DateText, TimeText;
    assert DurationText(d) == "P" + (DateText(d) + TimeText(d));
    DurationReads(DateText(d) + TimeText(d));
    DateReads(d, TimeText(d));
    TimeReads(d, Counts(12 * Whole(d.years) + Whole(d.months), 7 * Whole(d.weeks) + Whole(d.days), 0));
  }

  /** Y, M, W and D are designators anywhere, H and S after the T alone, in
      either case, and nothing else is one. */
  lemma DesignatorsAre(c: char, inTime: bool)
    ensures DesignatedUnit(c, inTime).Some? <==> c in "YyMmWwDd" || (inTime && c in "HhSs")
    ensures DesignatedUnit(c, inTime) == DesignatedUnit(LowerChar(c), inTime)
  {
  }
}
