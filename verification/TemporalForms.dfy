/** The forms a date, a time and a timestamp may be written in, padded or not,
    and exactly what each reads as. */
module TemporalForms {
  import opened Wrappers
  import opened Text
  import opened Calendar
  import opened TemporalLiterals

  /** The digits of a number of 32 bits. */
  predicate Numeral(s: string) {
    |s| > 0 && AllDigits(s) && Value(s) < 0x1_0000_0000
  }

  lemma NumeralsAre(s: string)
    ensures ParseComponent(s).Ok? <==> Numeral(s)
  {
  }

  lemma NumeralReads(s: string)
    requires Numeral(s)
    ensures ParseComponent(s) == Ok(Value(s)) && !Contains(s, '-') && !Contains(s, ':') && !Contains(s, '.')
  {
    DigitsHoldNoOther(s, '-');
    DigitsHoldNoOther(s, ':');
    DigitsHoldNoOther(s, '.');
  }

  // ---------------------------------------------------------------------
  // Dates
  // ---------------------------------------------------------------------

  datatype DateForm = DateForm(year: string, month: string, day: string)

  predicate DateWritten(d: DateForm) {
    Numeral(d.year) && Numeral(d.month) && Numeral(d.day)
  }

  function DateFormText(d: DateForm): string {
    d.year + ['-'] + (d.month + ['-'] + d.day)
  }

  /** A day of the calendar in a year of at most four digits. */
  predicate OnCalendar(d: DateForm)
    requires DateWritten(d)
  {
    && 1 <= Value(d.year) <= 9999 && 1 <= Value(d.month) <= 12
    && 1 <= Value(d.day) <= DaysInMonth(Value(d.year), Value(d.month))
  }

  lemma DateFormReads(d: DateForm)
    requires DateWritten(d)
    ensures ParseDate(DateFormText(d))
         == if OnCalendar(d) then Ok((Value(d.year), Value(d.month), Value(d.day))) else Err(OutOfRange)
  {
    hide ParseComponent, SplitAll, Contains, Value, Numeral, DaysInMonth;
    NumeralReads(d.year);
    NumeralReads(d.month);
    NumeralReads(d.day);
    ThreeParts(d.year, d.month, d.day, '-');
  }

  // ---------------------------------------------------------------------
  // Times of day
  // ---------------------------------------------------------------------

  /** Hours and minutes, with seconds or without, those with a fraction or
      without. */
  datatype TimeForm = TimeForm(hour: string, minute: string, second: Option<string>, fraction: Option<string>)

  predicate TimeWritten(t: TimeForm) {
    && Numeral(t.hour) && Numeral(t.minute) && (t.second.Some? ==> Numeral(t.second.value))
    && (t.fraction.Some? ==> t.second.Some? && |t.fraction.value| > 0 && AllDigits(t.fraction.value))
  }

  function SecondFormText(t: TimeForm): string
    requires t.second.Some?
  {
    t.second.value + if t.fraction.Some? then ['.'] + t.fraction.value else ""
  }

  function TimeFormText(t: TimeForm): string {
    t.hour + [':'] + if t.second.Some? then t.minute + [':'] + SecondFormText(t) else t.minute
  }

  /** What a time reads as: seconds not written are zero, the sixtieth is refused
      as a leap second, and hour 24 is midnight alone. */
  function TimeOf(t: TimeForm): Result<Clock, Refusal>
    requires TimeWritten(t)
  {
    var hour, minute := Value(t.hour), Value(t.minute);
    var second := if t.second.Some? then Value(t.second.value) else 0;
    if minute >= 60 || second >= 60 then Err(if second == 60 then LeapSecond else OutOfRange)
    else if hour > 24 || (hour == 24 && !(minute == 0 && second == 0 && t.fraction.None?)) then Err(OutOfRange)
    else Ok(Clock(hour, minute, second, t.fraction))
  }

  lemma SecondFormReads(t: TimeForm)
    requires TimeWritten(t) && t.second.Some?
    ensures ParseSeconds(SecondFormText(t)) == Ok((Value(t.second.value), t.fraction))
    ensures !Contains(SecondFormText(t), ':')
  {
    hide ParseComponent, Value, SplitOnce, SplitAll, Numeral;
    var second := t.second.value;
    NumeralReads(second);
    if t.fraction.Some? {
      SplitAllAt(second, '.', t.fraction.value);
      assert SecondFormText(t) == second + ['.'] + t.fraction.value;
      DigitsHoldNoOther(t.fraction.value, ':');
    } else {
      SplitNowhere(second, '.');
      assert SecondFormText(t) == second;
    }
  }

  lemma TimeParts(t: TimeForm)
    requires TimeWritten(t)
    ensures SplitAll(TimeFormText(t), ':') == if t.second.Some? then [t.hour, t.minute, SecondFormText(t)]
        else [t.hour, t.minute]
  {
    hide SplitAll, Contains, Numeral, SecondFormText, AllDigits;
    NumeralReads(t.hour);
    NumeralReads(t.minute);
    if t.second.Some? {
      SecondFormReads(t);
      ThreeParts(t.hour, t.minute, SecondFormText(t), ':');
    } else {
      SplitAllAt(t.hour, ':', t.minute);
      SplitNowhere(t.minute, ':');
      assert [t.hour] + [t.minute] == [t.hour, t.minute];
    }
  }

  lemma TimeFormReads(t: TimeForm)
    requires TimeWritten(t)
    ensures ParseTime(TimeFormText(t)) == TimeOf(t)
  {
    hide ParseComponent, SplitAll, Contains, Value, Numeral, SecondFormText, ParseSeconds, TimeFormText;
    NumeralReads(t.hour);
    NumeralReads(t.minute);
    TimeParts(t);
    if t.second.Some? {
      SecondFormReads(t);
    }
  }

  // ---------------------------------------------------------------------
  // Zones
  // ---------------------------------------------------------------------

  /** No zone, the letter of UTC, or an offset of hours or hours and minutes. */
  datatype Zone = NoZone | Zulu(letter: char) | Offset(negative: bool, hours: string, minutes: Option<string>)

  predicate ZoneWritten(z: Zone) {
    match z
    case NoZone => true
    case Zulu(letter) => letter == 'Z' || letter == 'z'
    case Offset(_, hours, minutes) => Numeral(hours) && (minutes.Some? ==> Numeral(minutes.value))
  }

  function ZoneFormText(z: Zone): string {
    match z
    case NoZone => ""
    case Zulu(letter) => [letter]
    case Offset(negative, hours, minutes) =>
      [if negative then '-' else '+'] + if minutes.Some? then hours + [':'] + minutes.value else hours
  }

  /** What a zone reads as: minutes not written are zero, and nothing is more
      than fifteen hours and fifty-nine minutes off. */
  function ZoneOf(z: Zone): Result<Option<UtcOffset>, Refusal>
    requires ZoneWritten(z)
  {
    match z
    case NoZone => Ok(None)
    case Zulu(_) => Ok(Some(UtcOffset(false, 0, 0)))
    case Offset(negative, hours, minutes) =>
      var minute := if minutes.Some? then Value(minutes.value) else 0;
      if Value(hours) > 15 || minute > 59 then Err(OutOfRange)
      else Ok(Some(UtcOffset(negative, Value(hours), minute)))
  }

  lemma OffsetFormReads(z: Zone)
    requires z.Offset? && ZoneWritten(z)
    ensures ZoneOf(z).Ok? ==> ZoneOf(z).value.Some?
    ensures ParseOffset(ZoneFormText(z)) == if ZoneOf(z).Ok? then Ok(ZoneOf(z).value.value) else Err(ZoneOf(z).error)
  {
    hide ParseComponent, SplitAll, Contains, Value, Numeral;
    NumeralReads(z.hours);
    if z.minutes.Some? {
      NumeralReads(z.minutes.value);
      SplitAllAt(z.hours, ':', z.minutes.value);
      SplitNowhere(z.minutes.value, ':');
      assert ZoneFormText(z)[1..] == z.hours + [':'] + z.minutes.value;
      assert [z.hours] + [z.minutes.value] == [z.hours, z.minutes.value];
    } else {
      SplitNowhere(z.hours, ':');
      assert ZoneFormText(z)[1..] == z.hours;
    }
  }

  /** Text before a zone: it holds no sign where one could start the zone, and
      ends in a digit. */
  predicate BeforeZone(kind: Kind, before: string, gap: string, text: string) {
    && |before| > 0 && IsDigit(before[|before| - 1])
    && match TimeStart(kind, text)
       case None => true
       case Some(at) => at <= |before + gap| && forall i :: at <= i < |before| ==> before[i] != '+' && before[i] != '-'
  }

  /** Spaces, and none where no zone follows. */
  predicate Gap(gap: string, z: Zone) {
    Blank(gap) && (z.NoZone? ==> gap == "")
  }

  lemma ZoneFormSplits(kind: Kind, before: string, gap: string, z: Zone, zoned: bool)
    requires ZoneWritten(z) && Gap(gap, z) && BeforeZone(kind, before, gap, before + gap + ZoneFormText(z))
    requires z.Offset? ==> TimeStart(kind, before + gap + ZoneFormText(z)).Some?
    ensures SplitTimeZone(kind, before + gap + ZoneFormText(z), zoned)
         == if z.NoZone? then Ok((before, None))
            else if !zoned then Err(Unreadable)
            else if ZoneOf(z).Ok? then Ok((before, ZoneOf(z).value)) else Err(ZoneOf(z).error)
  {
    hide ParseOffset, TimeStart, FindIn, Numeral, Value;
    var zone := ZoneFormText(z);
    var text := before + gap + zone;
    var start := TimeStart(kind, text);
    TrimEndsAt(before, gap);
    match z
    case NoZone =>
      assert text == before;
      if start.Some? {
        FindInNone(text[start.value..], {'+', '-'});
      }
    case Zulu(letter) =>
      assert text[..|text| - 1] == before + gap && text[|text| - 1] == letter;
      if start.Some? {
        FindInNone(text[start.value..], {'+', '-'});
      }
    case Offset(_, _, _) =>
      OffsetFormReads(z);
      var at := |before + gap|;
      assert text[start.value..] == (before + gap)[start.value..] + zone;
      FindInAt((before + gap)[start.value..], zone, {'+', '-'});
      assert text[at..] == zone && text[..at] == before + gap;
  }

  // ---------------------------------------------------------------------
  // Whole literals
  // ---------------------------------------------------------------------

  lemma TimeIsPlain(t: TimeForm)
    requires TimeWritten(t)
    ensures MadeOf(TimeFormText(t), ":.") && DigitEnds(TimeFormText(t))
  {
    hide Value;
  }

  lemma DateFormIsPlain(d: DateForm)
    requires DateWritten(d)
    ensures MadeOf(DateFormText(d), "-") && DigitEnds(DateFormText(d))
  {
    hide Value;
  }

  /** A time of day with a zone or without. */
  lemma TimeLiteralReads(t: TimeForm, gap: string, z: Zone, zoned: bool)
    requires TimeWritten(t) && ZoneWritten(z) && Gap(gap, z)
    ensures SplitTimeZone(Time(zoned), TimeFormText(t) + gap + ZoneFormText(z), zoned)
         == if z.NoZone? then Ok((TimeFormText(t), None))
            else if !zoned then Err(Unreadable)
            else if ZoneOf(z).Ok? then Ok((TimeFormText(t), ZoneOf(z).value)) else Err(ZoneOf(z).error)
    ensures ParseTime(TimeFormText(t)) == TimeOf(t)
  {
    hide TimeFormText, ZoneFormText, SplitTimeZone, ZoneOf, TimeOf, TimeWritten, ZoneWritten, ParseTime;
    TimeIsPlain(t);
    ZoneFormSplits(Time(zoned), TimeFormText(t), gap, z, zoned);
    TimeFormReads(t);
  }

  /** A date, and a time after a space or a T, and a zone after that, with or
      without spaces before it. */
  function StampFormText(d: DateForm, separator: char, t: Option<TimeForm>, gap: string, z: Zone): string {
    DateFormText(d) + (if t.Some? then [separator] + TimeFormText(t.value) else "") + gap + ZoneFormText(z)
  }

  /** What a timestamp reads as: its zone is judged first, then its date, then
      its time, which is midnight when there is none. */
  function StampOf(d: DateForm, t: Option<TimeForm>, z: Zone, zoned: bool): Result<Stamp, Refusal>
    requires DateWritten(d) && (t.Some? ==> TimeWritten(t.value)) && ZoneWritten(z)
  {
    if !z.NoZone? && !zoned then Err(Unreadable)
    else
      var offset :- ZoneOf(z);
      if !OnCalendar(d) then Err(OutOfRange)
      else
        var clock :- if t.Some? then TimeOf(t.value) else Ok(Clock(0, 0, 0, None));
        Ok(Stamp(Value(d.year), Value(d.month), Value(d.day), clock, offset))
  }

  lemma StampFormReads(d: DateForm, separator: char, t: Option<TimeForm>, gap: string, z: Zone, zoned: bool)
    requires DateWritten(d) && (t.Some? ==> TimeWritten(t.value)) && ZoneWritten(z) && Gap(gap, z)
    requires separator in {' ', 'T', 't'} && (z.Offset? ==> t.Some? || ' ' in gap)
    ensures ReadTimestamp(StampFormText(d, separator, t, gap, z), zoned) == StampOf(d, t, z, zoned)
  {
    hide TimeFormText, ZoneFormText, DateFormText, SplitTimeZone, ZoneOf, TimeOf, TimeWritten, ZoneWritten, ParseTime,
         ParseDate, DateWritten, OnCalendar, Value, FindIn, Trim, SplitTimestamp, Blank;
    var date := DateFormText(d);
    var before := date + if t.Some? then [separator] + TimeFormText(t.value) else "";
    assert StampFormText(d, separator, t, gap, z) == before + gap + ZoneFormText(z);
    DateFormIsPlain(d);
    DateFormReads(d);
    if t.Some? {
      TimeIsPlain(t.value);
      TimeFormReads(t.value);
      StampStarts(date, separator, TimeFormText(t.value), gap, ZoneFormText(z), zoned);
      StampSplits(date, separator, TimeFormText(t.value));
    } else {
      assert before == date;
      DateAlone(date, gap, z, zoned);
    }
    ZoneFormSplits(Timestamp(zoned), before, gap, z, zoned);
    NoZoneIsNone();
  }

  /** A T after which nothing is written changes nothing. */
  lemma BareSeparatorReads(d: DateForm, separator: char, z: Zone, zoned: bool)
    requires DateWritten(d) && ZoneWritten(z) && separator in {'T', 't'}
    ensures ReadTimestamp(DateFormText(d) + [separator] + ZoneFormText(z), zoned) == StampOf(d, None, z, zoned)
  {
    hide ZoneFormText, DateFormText, ZoneOf, ZoneWritten, ParseDate, DateWritten, OnCalendar, Value, FindIn, Trim,
         TrimEnd,
         ParseOffset;
    var date, zone := DateFormText(d), ZoneFormText(z);
    var text := date + [separator] + zone;
    DateFormIsPlain(d);
    DateFormReads(d);
    assert text == date + ([separator] + zone) && text[|date| + 1..] == zone;
    FindInAt(date, [separator] + zone, {' ', 'T', 't'});
    BareSplits(date, separator);
    BareZoneSplits(date, separator, z, zoned);
    NoZoneIsNone();
  }

  lemma BareSplits(date: string, separator: char)
    requires MadeOf(date, "-") && separator in {'T', 't'}
    ensures SplitTimestamp(date + [separator]) == (date, None) && TrimEnd(date + [separator]) == date + [separator]
  {
    hide FindIn;
    FindInAt(date, [separator], {' ', 'T', 't'});
    assert (date + [separator])[|date| + 1..] == "";
  }

  lemma BareZoneSplits(date: string, separator: char, z: Zone, zoned: bool)
    requires ZoneWritten(z) && MadeOf(date, "-") && separator in {'T', 't'}
    ensures SplitTimeZone(Timestamp(zoned), date + [separator] + ZoneFormText(z), zoned)
         == if z.NoZone? then Ok((date + [separator], None))
            else if !zoned then Err(Unreadable)
            else if ZoneOf(z).Ok? then Ok((date + [separator], ZoneOf(z).value)) else Err(ZoneOf(z).error)
  {
    hide FindIn, ParseOffset, Numeral, Value, TrimEnd, TimeStart, MadeOf;
    var zone := ZoneFormText(z);
    var text := date + [separator] + zone;
    BareStarts(date, separator, zone, zoned);
    BareSplits(date, separator);
    match z
    case NoZone =>
      FindInNone(zone, {'+', '-'});
      assert text == date + [separator];
    case Zulu(_) =>
      FindInNone(zone, {'+', '-'});
      assert text[..|text| - 1] == date + [separator];
    case Offset(_, _, _) =>
      OffsetFormReads(z);
      FindInAt("", zone, {'+', '-'});
      assert "" + zone == zone;
  }

  lemma BareStarts(date: string, separator: char, zone: string, zoned: bool)
    requires MadeOf(date, "-") && separator in {'T', 't'}
    ensures var text := date + [separator] + zone;
      && TimeStart(Timestamp(zoned), text) == Some(|date| + 1)
      && text[|date| + 1..] == zone && text[..|date| + 1] == date + [separator]
  {
    hide FindIn;
    assert date + [separator] + zone == date + ([separator] + zone);
    FindInAt(date, [separator] + zone, {' ', 'T', 't'});
  }

  lemma NoZoneIsNone()
    ensures ZoneOf(NoZone) == Ok(None)
  {
  }

  lemma StampStarts(date: string, separator: char, time: string, gap: string, zone: string, zoned: bool)
    requires MadeOf(date, "-") && MadeOf(time, ":.") && DigitEnds(time) && separator in {' ', 'T', 't'}
    ensures var before := date + ([separator] + time);
      && TimeStart(Timestamp(zoned), before + gap + zone) == Some(|date| + 1)
      && BeforeZone(Timestamp(zoned), before, gap, before + gap + zone)
  {
    hide FindIn;
    var before := date + ([separator] + time);
    assert before + gap + zone == date + ([separator] + time + gap + zone);
    FindInAt(date, [separator] + time + gap + zone, {' ', 'T', 't'});
    forall i | |date| + 1 <= i < |before| ensures before[i] != '+' && before[i] != '-' {
      assert before[i] == time[i - |date| - 1];
    }
    assert before[|before| - 1] == time[|time| - 1];
  }

  lemma StampSplits(date: string, separator: char, time: string)
    requires MadeOf(date, "-") && DigitEnds(time) && separator in {' ', 'T', 't'}
    ensures SplitTimestamp(date + ([separator] + time)) == (date, Some(time))
  {
    hide FindIn, Trim;
    var text := date + ([separator] + time);
    FindInAt(date, [separator] + time, {' ', 'T', 't'});
    assert text[..|date|] == date && text[|date| + 1..] == time;
    TrimNothing(time);
  }

  lemma DateAlone(date: string, gap: string, z: Zone, zoned: bool)
    requires MadeOf(date, "-") && DigitEnds(date) && ZoneWritten(z) && Gap(gap, z) && (z.Offset? ==> ' ' in gap)
    ensures BeforeZone(Timestamp(zoned), date, gap, date + gap + ZoneFormText(z))
        && SplitTimestamp(date) == (date, None)
    ensures z.Offset? ==> TimeStart(Timestamp(zoned), date + gap + ZoneFormText(z)).Some?
  {
    hide FindIn;
    FindInNone(date, {' ', 'T', 't'});
    var text := date + gap + ZoneFormText(z);
    var zone := ZoneFormText(z);
    if z.Offset? {
      var k :| 0 <= k < |gap| && gap[k] == ' ';
      assert text[|date| + k] == ' ';
    }
    assert forall i :: 0 <= i < |date| ==> text[i] == date[i];
    assert forall i :: 0 <= i < |zone| ==> zone[i] !in {' ', 'T', 't'};
    assert forall i :: |date + gap| <= i < |text| ==> text[i] == zone[i - |date + gap|];
  }

  // ---------------------------------------------------------------------
  // Nothing else reads
  // ---------------------------------------------------------------------

  lemma FirstPart(s: string, c: char)
    ensures |SplitAll(s, c)| == 1 ==> s == SplitAll(s, c)[0]
    ensures |SplitAll(s, c)| > 1 ==>
      exists rest :: SplitAll(s, c) == [SplitAll(s, c)[0]] + SplitAll(rest, c) && s == SplitAll(s, c)[0] + [c] + rest
  {
    match Find(s, c)
    case None =>
    case Some(i) =>
      assert s == s[..i] + [c] + s[i + 1..];
      assert SplitAll(s, c) == [s[..i]] + SplitAll(s[i + 1..], c);
  }

  lemma PartsJoin(s: string, c: char)
    ensures var parts := SplitAll(s, c);
      && (|parts| == 1 ==> s == parts[0])
      && (|parts| == 2 ==> s == parts[0] + [c] + parts[1])
      && (|parts| == 3 ==> s == parts[0] + [c] + (parts[1] + [c] + parts[2]))
  {
    hide SplitAll;
    var parts := SplitAll(s, c);
    FirstPart(s, c);
    if |parts| > 1 {
      var rest :| parts == [parts[0]] + SplitAll(rest, c) && s == parts[0] + [c] + rest;
      FirstPart(rest, c);
      if |parts| > 2 {
        var last :| SplitAll(rest, c) == [parts[1]] + SplitAll(last, c) && rest == parts[1] + [c] + last;
        FirstPart(last, c);
      }
    }
  }

  lemma DatesAre(text: string)
    requires ParseDate(text).Ok?
    ensures exists d :: DateWritten(d) && text == DateFormText(d)
  {
    hide ParseComponent, SplitAll, Numeral, ValidDate;
    var parts := SplitAll(text, '-');
    PartsJoin(text, '-');
    NumeralsAre(parts[0]);
    NumeralsAre(parts[1]);
    NumeralsAre(parts[2]);
    var d := DateForm(parts[0], parts[1], parts[2]);
    assert DateWritten(d) && text == DateFormText(d);
  }

  lemma TimesAre(text: string)
    requires ParseTime(text).Ok?
    ensures exists t :: TimeWritten(t) && text == TimeFormText(t)
  {
    hide ParseComponent, SplitAll, Numeral, ParseSeconds;
    var parts := SplitAll(text, ':');
    PartsJoin(text, ':');
    NumeralsAre(parts[0]);
    NumeralsAre(parts[1]);
    if |parts| == 2 {
      var t := TimeForm(parts[0], parts[1], None, None);
      assert TimeWritten(t) && text == TimeFormText(t);
    } else {
      var second, fraction := SecondsAre(parts[2]);
      var t := TimeForm(parts[0], parts[1], Some(second), fraction);
      assert TimeWritten(t) && text == TimeFormText(t);
    }
  }

  lemma SecondsAre(part: string) returns (second: string, fraction: Option<string>)
    requires ParseSeconds(part).Ok?
    ensures Numeral(second) && (fraction.Some? ==> |fraction.value| > 0 && AllDigits(fraction.value))
    ensures part == second + if fraction.Some? then ['.'] + fraction.value else ""
  {
    hide ParseComponent, Numeral;
    match Find(part, '.')
    case None =>
      NumeralsAre(part);
      second, fraction := part, None;
      assert part + "" == part;
    case Some(i) =>
      NumeralsAre(part[..i]);
      second, fraction := part[..i], Some(part[i + 1..]);
      assert part == part[..i] + (['.'] + part[i + 1..]);
  }

  lemma OffsetsAre(text: string)
    requires |text| > 0 && (text[0] == '-' || text[0] == '+') && ParseOffset(text).Ok?
    ensures exists z: Zone :: z.Offset? && ZoneWritten(z) && text == ZoneFormText(z)
  {
    hide ParseComponent, SplitAll, Numeral;
    var parts := SplitAll(text[1..], ':');
    PartsJoin(text[1..], ':');
    assert text == [text[0]] + text[1..];
    NumeralsAre(parts[0]);
    if |parts| == 1 {
      var z := Offset(text[0] == '-', parts[0], None);
      assert ZoneWritten(z) && text == ZoneFormText(z);
    } else {
      NumeralsAre(parts[1]);
      var z := Offset(text[0] == '-', parts[0], Some(parts[1]));
      assert ZoneWritten(z) && text == ZoneFormText(z);
    }
  }

  /** None of these forms is taken for one whose meaning depends on settings. */
  lemma FormsAreIso(d: DateForm, separator: char, t: Option<TimeForm>, gap: string, z: Zone, zoned: bool)
    requires DateWritten(d) && (t.Some? ==> TimeWritten(t.value)) && ZoneWritten(z) && separator in {' ', 'T'}
    requires Gap(gap, z) && forall i :: 0 <= i < |gap| ==> gap[i] == ' '
    ensures !NonIso(Timestamp(zoned), StampFormText(d, separator, t, gap, z))
    ensures Trim(StampFormText(d, separator, t, gap, z)) == StampFormText(d, separator, t, gap, z)
  {
    hide TimeFormText, DateFormText, Value;
    var text := StampFormText(d, separator, t, gap, z);
    DateFormIsPlain(d);
    if t.Some? {
      TimeIsPlain(t.value);
    }
    ZoneIsPlain(z);
    assert forall i :: 0 <= i < |text| ==> IsIsoChar(text[i]);
    assert IsDigit(text[0]) && (IsDigit(text[|text| - 1]) || text[|text| - 1] in "Zz");
    IsoIsPlain(Timestamp(zoned), text);
  }

  /** A literal with a slash is refused, and so is one with a letter other than the
      three an ISO time is written with, or with any in a date. */
  lemma LettersAreRefused(kind: Kind, text: string, i: nat, round: string -> int)
    requires i < |Trim(text)|
    requires var c := Trim(text)[i];
      c == '/' || (('a' <= c <= 'z' || 'A' <= c <= 'Z') && (kind.Date? || c !in {'T', 'Z', 'z'}))
    ensures Normalize(kind, text, round) == Err(Unreadable)
  {
    hide Trim, Lower, EndsWith;
  }

  lemma ZoneIsPlain(z: Zone)
    requires ZoneWritten(z)
    ensures forall i :: 0 <= i < |ZoneFormText(z)| ==> IsIsoChar(ZoneFormText(z)[i])
    ensures var zone := ZoneFormText(z);
      |zone| > 0 ==> IsDigit(zone[|zone| - 1]) || zone[|zone| - 1] in "Zz"
  {
    hide Value;
  }

  lemma IsoIsPlain(kind: Kind, text: string)
    requires !kind.Date? && |text| > 0 && IsDigit(text[0]) && (IsDigit(text[|text| - 1]) || text[|text| - 1] in "Zz")
    requires forall i :: 0 <= i < |text| ==> IsIsoChar(text[i])
    ensures !NonIso(kind, text) && Trim(text) == text
  {
    TrimNothing(text);
    var lowered := Lower(text);
    assert lowered[0] == text[0] && lowered[|text| - 1] == LowerChar(text[|text| - 1]);
    assert forall k :: k in KEYWORDS ==> !IsDigit(k[0]);
    assert " am"[2] == 'm' && " pm"[2] == 'm';
  }
}
