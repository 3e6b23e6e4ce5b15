/** Date, time and timestamp literals in ISO 8601 form, and the text the
    replica holds for them. */
module TemporalLiterals {
  import opened Wrappers
  import opened Text
  import opened Calendar

  datatype Kind = Date | Time(zoned: bool) | Timestamp(zoned: bool)

  datatype Refusal = Unreadable | OutOfRange | LeapSecond | OutsideYears

  const MICROS_PER_SECOND := 1_000_000
  const MICROS_PER_DAY := 86_400 * MICROS_PER_SECOND

  // ---------------------------------------------------------------------
  // Parts
  // ---------------------------------------------------------------------

  /** A time of day; the digits after the second stay text. */
  datatype Clock = Clock(hour: nat, minute: nat, second: nat, fraction: Option<string>)

  const MIDNIGHT := Clock(0, 0, 0, None)

  predicate ValidClock(c: Clock) {
    && c.minute <= 59 && c.second <= 59
    && (c.hour <= 23 || (c.hour == 24 && c.minute == 0 && c.second == 0 && c.fraction.None?))
    && (c.fraction.Some? ==> |c.fraction.value| > 0 && AllDigits(c.fraction.value))
  }

  function ClockText(c: Clock): string {
    Pad(c.hour, 2) + ":" + (Pad(c.minute, 2) + ":" + SecondsText(c.second, c.fraction))
  }

  function SecondsText(second: nat, fraction: Option<string>): string {
    if fraction.Some? then Pad(second, 2) + "." + fraction.value else Pad(second, 2)
  }

  datatype UtcOffset = UtcOffset(negative: bool, hours: nat, minutes: nat) {
    function Seconds(): int {
      if negative then -(hours * 3600 + minutes * 60) else hours * 3600 + minutes * 60
    }
  }

  const UTC := UtcOffset(false, 0, 0)

  function OffsetText(o: UtcOffset): string {
    (if o.negative then "-" else "+") + (Pad(o.hours, 2) + ":" + Pad(o.minutes, 2))
  }

  function DateText(year: nat, month: nat, day: nat): string {
    Pad(year, 4) + "-" + (Pad(month, 2) + "-" + Pad(day, 2))
  }

  // ---------------------------------------------------------------------
  // Reading
  // ---------------------------------------------------------------------

  /** The first position holding one of `cs`. */
  function FindIn(s: string, cs: set<char>): (r: Option<nat>)
    ensures r.Some? ==> r.value < |s| && s[r.value] in cs && forall i :: 0 <= i < r.value ==> s[i] !in cs
    ensures r.None? ==> forall i :: 0 <= i < |s| ==> s[i] !in cs
  {
    if |s| == 0 then None
    else if s[0] in cs then Some(0)
    else match FindIn(s[1..], cs)
         case None => assert forall i :: 0 < i < |s| ==> s[i] == s[1..][i - 1]; None
         case Some(i) => assert forall j :: 0 < j <= i ==> s[j] == s[1..][j - 1]; Some(i + 1)
  }

  const KEYWORDS := ["now", "today", "tomorrow", "yesterday", "epoch", "infinity", "-infinity", "+infinity", "allballs"]

  /** Forms that only settings or the clock give a meaning. */
  predicate NonIso(kind: Kind, text: string) {
    || Lower(text) in KEYWORDS
    || Contains(text, '/')
    || EndsWith(Lower(text), " am") || EndsWith(Lower(text), " pm")
    || (HasLetter(text) && (kind.Date? || !forall i :: 0 <= i < |text| ==> IsIsoChar(text[i])))
  }

  predicate HasLetter(text: string) {
    exists i :: 0 <= i < |text| && IsAlphabetic(text[i])
  }

  predicate IsIsoChar(c: char) {
    IsDigit(c) || c in "-+:. TZz"
  }

  function ParseComponent(part: string): Result<nat, Refusal> {
    if |part| == 0 || !AllDigits(part) then Err(Unreadable)
    else if Value(part) >= 0x1_0000_0000 then Err(OutOfRange)
    else Ok(Value(part))
  }

  function ParseDate(date: string): Result<(nat, nat, nat), Refusal> {
    var parts := SplitAll(date, '-');
    var year :- ParseComponent(parts[0]);
    if |parts| < 2 then Err(Unreadable)
    else
      var month :- ParseComponent(parts[1]);
      if |parts| < 3 then Err(Unreadable)
      else
        var day :- ParseComponent(parts[2]);
        if |parts| > 3 then Err(Unreadable)
        else if !(1 <= year <= 9999) || !ValidDate(year, month, day) then Err(OutOfRange)
        else Ok((year, month, day))
  }

  function ParseSeconds(part: string): Result<(nat, Option<string>), Refusal> {
    match SplitOnce(part, '.')
    case Some((whole, fraction)) =>
      if |fraction| == 0 || !AllDigits(fraction) then Err(Unreadable)
      else
        var second :- ParseComponent(whole);
        Ok((second, Some(fraction)))
    case None =>
      var second :- ParseComponent(part);
      Ok((second, None))
  }

  function ParseTime(time: string): Result<Clock, Refusal> {
    var parts := SplitAll(time, ':');
    var hour :- ParseComponent(parts[0]);
    if |parts| < 2 then Err(Unreadable)
    else
      var minute :- ParseComponent(parts[1]);
      var seconds :- if |parts| < 3 then Ok((0, None)) else ParseSeconds(parts[2]);
      var (second, fraction) := seconds;
      if |parts| > 3 then Err(Unreadable)
      else if minute > 59 || second > 59 then (if second == 60 then Err(LeapSecond) else Err(OutOfRange))
      else if hour > 24 || (hour == 24 && (minute > 0 || second > 0 || fraction.Some?)) then Err(OutOfRange)
      else Ok(Clock(hour, minute, second, fraction))
  }

  function ParseOffset(zone: string): Result<UtcOffset, Refusal>
    requires |zone| > 0
  {
    var parts := SplitAll(zone[1..], ':');
    var hours :- ParseComponent(parts[0]);
    var minutes :- if |parts| > 1 then ParseComponent(parts[1]) else Ok(0);
    if |parts| > 2 then Err(Unreadable)
    else if hours > 15 || minutes > 59 then Err(OutOfRange)
    else Ok(UtcOffset(zone[0] == '-', hours, minutes))
  }

  /** The part of a literal in which a sign starts a UTC offset, the hyphens of a
      date being before it. */
  function TimeStart(kind: Kind, text: string): (start: Option<nat>)
    ensures start.Some? ==> start.value <= |text|
  {
    if kind.Time? then Some(0)
    else match FindIn(text, {' ', 'T', 't'}) case Some(i) => Some(i + 1) case None => None
  }

  function SplitTimeZone(kind: Kind, text: string, zoned: bool): Result<(string, Option<UtcOffset>), Refusal> {
    var start := TimeStart(kind, text);
    var offsetAt := if start.Some? then FindIn(text[start.value..], {'+', '-'}) else None;
    if offsetAt.Some? then
      var at := start.value + offsetAt.value;
      if !zoned then Err(Unreadable)
      else
        var offset :- ParseOffset(text[at..]);
        Ok((TrimEnd(text[..at]), Some(offset)))
    else if |text| > 0 && text[|text| - 1] in "Zz" then
      if !zoned then Err(Unreadable) else Ok((TrimEnd(text[..|text| - 1]), Some(UTC)))
    else Ok((text, None))
  }

  /** A timestamp taken apart at its separator, if it has one. */
  function SplitTimestamp(text: string): (string, Option<string>) {
    match FindIn(text, {' ', 'T', 't'})
    case None => (text, None)
    case Some(i) =>
      var time := Trim(text[i + 1..]);
      (text[..i], if time == "" then None else Some(time))
  }

  /** A timestamp as written: its day, its clock, its offset. */
  datatype Stamp = Stamp(year: nat, month: nat, day: nat, clock: Clock, offset: Option<UtcOffset>)

  function ReadTimestamp(text: string, zoned: bool): Result<Stamp, Refusal> {
    var split :- SplitTimeZone(Timestamp(zoned), text, zoned);
    var (date, time) := SplitTimestamp(split.0);
    var day :- ParseDate(date);
    var clock :- if time.Some? then ParseTime(time.value) else Ok(MIDNIGHT);
    Ok(Stamp(day.0, day.1, day.2, clock, split.1))
  }

  /** What the source takes from floating point, as an integer contract: the
      digits of a fraction are some number of microseconds, the right one where
      there are six. */
  ghost predicate Rounds(round: string -> int) {
    forall f :: |f| > 0 && AllDigits(f) ==> 0 <= round(f) <= MICROS_PER_SECOND && (|f| == 6 ==> round(f) == Value(f))
  }

  /** The UTC microsecond a timestamp denotes; no offset reads as UTC. */
  function Instant(s: Stamp, round: string -> int): int {
    DaysFromCivil(s.year, s.month, s.day) * MICROS_PER_DAY
    + (s.clock.hour * 3600 + s.clock.minute * 60
      + s.clock.second - (if s.offset.Some? then s.offset.value.Seconds() else 0)) * MICROS_PER_SECOND
    + if s.clock.fraction.Some? then round(s.clock.fraction.value) else 0
  }

  /** The instants whose UTC year has four digits. */
  predicate InYears(micros: int) {
    1 <= CivilFromDays(micros / MICROS_PER_DAY).0 <= 9999
  }

  /** `YYYY-MM-DD HH:MM:SS.ffffff+00:00`. */
  function CanonicalText(micros: int): string
    requires InYears(micros)
  {
    var (year, month, day) := CivilFromDays(micros / MICROS_PER_DAY);
    DaysThenBack(micros / MICROS_PER_DAY);
    DateText(year, month, day) + " " + (ClockText(ClockOf(micros % MICROS_PER_DAY)) + "+00:00")
  }

  function ClockOf(microsOfDay: nat): Clock {
    var second := microsOfDay / MICROS_PER_SECOND;
    Clock(second / 3600, second / 60 % 60, second % 60, Some(Pad(microsOfDay % MICROS_PER_SECOND, 6)))
  }

  function Normalize(kind: Kind, text: string, round: string -> int): Result<string, Refusal> {
    var trimmed := Trim(text);
    if NonIso(kind, trimmed) then Err(Unreadable)
    else
      match kind
      case Date =>
        var day :- ParseDate(trimmed);
        Ok(DateText(day.0, day.1, day.2))
      case Time(zoned) =>
        var split :- SplitTimeZone(kind, trimmed, zoned);
        var clock :- ParseTime(split.0);
        Ok(ClockText(clock) + if split.1.Some? then OffsetText(split.1.value) else "")
      case Timestamp(zoned) =>
        var stamp :- ReadTimestamp(trimmed, zoned);
        if zoned then
          if InYears(Instant(stamp, round)) then Ok(CanonicalText(Instant(stamp, round))) else Err(OutsideYears)
        else Ok(UnzonedText(stamp))
  }

  /** Hour 24 of a day is hour 0 of the day after. */
  function UnzonedText(s: Stamp): string {
    if s.clock.hour == 24 then
      var (year, month, day) := NextDay(s.year, s.month, s.day);
      DateText(year, month, day) + " " + ClockText(MIDNIGHT)
    else DateText(s.year, s.month, s.day) + " " + ClockText(s.clock)
  }

  // ---------------------------------------------------------------------
  // Parts read back
  // ---------------------------------------------------------------------

  lemma PaddedReads(n: nat, width: nat)
    requires n < 0x1_0000_0000
    ensures ParseComponent(Pad(n, width)) == Ok(n)
  {
    ValueOfPad(n, width);
  }

  lemma ThreeParts(a: string, b: string, rest: string, c: char)
    requires !Contains(a, c) && !Contains(b, c) && !Contains(rest, c)
    ensures SplitAll(a + [c] + (b + [c] + rest), c) == [a, b, rest]
  {
    hide Contains;
    SplitNowhere(rest, c);
    SplitAllAt(b, c, rest);
    SplitAllAt(a, c, b + [c] + rest);
    assert [a] + ([b] + [rest]) == [a, b, rest];
  }

  lemma DateReads(year: nat, month: nat, day: nat)
    requires year < 0x1_0000_0000 && ValidDate(year, month, day)
    ensures ParseDate(DateText(year, month, day)) == if 1 <= year <= 9999 then Ok((year, month, day))
        else Err(OutOfRange)
  {
    hide Pad, ValidDate, ParseComponent, SplitAll, Contains;
    DaysFit(year, month, day);
    PaddedReads(year, 4);
    PaddedReads(month, 2);
    PaddedReads(day, 2);
    DigitsHoldNoOther(Pad(year, 4), '-');
    DigitsHoldNoOther(Pad(month, 2), '-');
    DigitsHoldNoOther(Pad(day, 2), '-');
    ThreeParts(Pad(year, 4), Pad(month, 2), Pad(day, 2), '-');
  }

  lemma DaysFit(year: int, month: int, day: int)
    requires ValidDate(year, month, day)
    ensures 1 <= month <= 12 && 1 <= day <= 31
  {
  }

  lemma SecondsRead(second: nat, fraction: Option<string>)
    requires second <= 59 && (fraction.Some? ==> |fraction.value| > 0 && AllDigits(fraction.value))
    ensures ParseSeconds(SecondsText(second, fraction)) == Ok((second, fraction))
        && !Contains(SecondsText(second, fraction), ':')
  {
    hide Pad, ParseComponent;
    PaddedReads(second, 2);
    DigitsHoldNoOther(Pad(second, 2), '.');
    if fraction.Some? {
      SplitAllAt(Pad(second, 2), '.', fraction.value);
    } else {
      SplitNowhere(Pad(second, 2), '.');
    }
  }

  lemma ClockReads(c: Clock)
    requires ValidClock(c)
    ensures ParseTime(ClockText(c)) == Ok(c)
  {
    hide Pad, ParseComponent, SplitAll, Contains, SecondsText, ParseSeconds;
    PaddedReads(c.hour, 2);
    PaddedReads(c.minute, 2);
    SecondsRead(c.second, c.fraction);
    DigitsHoldNoOther(Pad(c.hour, 2), ':');
    DigitsHoldNoOther(Pad(c.minute, 2), ':');
    ThreeParts(Pad(c.hour, 2), Pad(c.minute, 2), SecondsText(c.second, c.fraction), ':');
  }

  lemma ParsedClockIsValid(time: string)
    requires ParseTime(time).Ok?
    ensures ValidClock(ParseTime(time).value)
  {
    hide ParseComponent, SplitAll;
  }

  lemma OffsetReads(o: UtcOffset)
    requires o.hours <= 15 && o.minutes <= 59
    ensures ParseOffset(OffsetText(o)) == Ok(o)
  {
    hide Pad, ParseComponent, SplitAll, Contains;
    PaddedReads(o.hours, 2);
    PaddedReads(o.minutes, 2);
    DigitsHoldNoOther(Pad(o.hours, 2), ':');
    DigitsHoldNoOther(Pad(o.minutes, 2), ':');
    var text := Pad(o.hours, 2) + ":" + Pad(o.minutes, 2);
    SplitNowhere(Pad(o.minutes, 2), ':');
    SplitAllAt(Pad(o.hours, 2), ':', Pad(o.minutes, 2));
    assert OffsetText(o)[1..] == text && SplitAll(text, ':') == [Pad(o.hours, 2), Pad(o.minutes, 2)];
  }

  // ---------------------------------------------------------------------
  // What printed parts are made of
  // ---------------------------------------------------------------------

  predicate MadeOf(s: string, others: string) {
    forall i :: 0 <= i < |s| ==> IsDigit(s[i]) || s[i] in others
  }

  predicate DigitEnds(s: string) {
    |s| > 0 && IsDigit(s[0]) && IsDigit(s[|s| - 1])
  }

  lemma DateIsPlain(year: nat, month: nat, day: nat)
    ensures MadeOf(DateText(year, month, day), "-") && DigitEnds(DateText(year, month, day))
  {
    hide Pad;
  }

  lemma ClockIsPlain(c: Clock)
    requires c.fraction.Some? ==> |c.fraction.value| > 0 && AllDigits(c.fraction.value)
    ensures MadeOf(ClockText(c), ":.") && DigitEnds(ClockText(c))
  {
    hide Pad;
    var s := SecondsText(c.second, c.fraction);
    assert MadeOf(s, ":.") && DigitEnds(s);
  }

  lemma OffsetIsPlain(o: UtcOffset)
    ensures MadeOf(OffsetText(o), "-+:") && |OffsetText(o)| > 0 && IsDigit(OffsetText(o)[|OffsetText(o)| - 1])
  {
    hide Pad;
  }

  /** Text of digits and ISO punctuation is never one of the other forms. */
  lemma PlainIsIso(kind: Kind, text: string)
    requires MadeOf(text, "-+:. ") && DigitEnds(text)
    ensures !NonIso(kind, text) && Trim(text) == text
  {
    TrimNothing(text);
    var lowered := Lower(text);
    assert lowered[0] == text[0] && lowered[|text| - 1] == text[|text| - 1];
    assert forall k :: k in KEYWORDS ==> !IsDigit(k[0]);
    assert " am"[2] == 'm' && " pm"[2] == 'm';
  }

  lemma FindInAt(a: string, b: string, cs: set<char>)
    requires (forall i :: 0 <= i < |a| ==> a[i] !in cs) && |b| > 0 && b[0] in cs
    ensures FindIn(a + b, cs) == Some(|a|)
  {
    var s := a + b;
    assert s[|a|] == b[0];
    forall i | 0 <= i < |a| ensures s[i] !in cs {
      assert s[i] == a[i];
    }
  }

  lemma FindInNone(a: string, cs: set<char>)
    requires forall i :: 0 <= i < |a| ==> a[i] !in cs
    ensures FindIn(a, cs) == None
  {
  }

  function ZoneText(offset: Option<UtcOffset>): string {
    if offset.Some? then OffsetText(offset.value) else ""
  }

  /** A time starts after the separator its date is followed by. */
  lemma TimeStartsAt(kind: Kind, date: string, rest: string)
    requires !kind.Time? && MadeOf(date, "-")
    ensures TimeStart(kind, date + " " + rest) == Some(|date| + 1)
  {
    assert date + " " + rest == date + (" " + rest);
    FindInAt(date, " " + rest, {' ', 'T', 't'});
  }

  /** A printed offset is split off what was printed before it. */
  lemma ZoneSplits(kind: Kind, before: string, clock: string, offset: Option<UtcOffset>, zoned: bool)
    requires MadeOf(clock, ":.") && DigitEnds(clock)
    requires TimeStart(kind, before + clock + ZoneText(offset)) == Some(|before|)
    requires offset.Some? ==> zoned && offset.value.hours <= 15 && offset.value.minutes <= 59
    ensures SplitTimeZone(kind, before + clock + ZoneText(offset), zoned) == Ok((before + clock, offset))
  {
    hide ParseOffset, TimeStart, OffsetText;
    var zone := ZoneText(offset);
    var text := before + clock + zone;
    assert text[|before|..] == clock + zone;
    if offset.Some? {
      OffsetReads(offset.value);
      OffsetSigned(offset.value);
      FindInAt(clock, zone, {'+', '-'});
      assert text[|before| + |clock|..] == zone && text[..|before| + |clock|] == before + clock;
      DigitStays(before + clock);
    } else {
      assert text == before + clock;
      assert clock + zone == clock;
      FindInNone(clock, {'+', '-'});
      assert text[|text| - 1] == clock[|clock| - 1];
    }
  }

  lemma OffsetSigned(o: UtcOffset)
    ensures |OffsetText(o)| > 0 && OffsetText(o)[0] in {'+', '-'}
  {
  }

  lemma DigitStays(s: string)
    requires |s| > 0 && IsDigit(s[|s| - 1])
    ensures TrimEnd(s) == s
  {
  }

  // ---------------------------------------------------------------------
  // Normalising twice
  // ---------------------------------------------------------------------

  lemma ParsedDateIsValid(date: string)
    requires ParseDate(date).Ok?
    ensures var (year, month, day) := ParseDate(date).value; 1 <= year <= 9999 && ValidDate(year, month, day)
  {
    hide ParseComponent, SplitAll, ValidDate;
  }

  lemma ParsedOffsetFits(kind: Kind, text: string, zoned: bool)
    requires SplitTimeZone(kind, text, zoned).Ok? && SplitTimeZone(kind, text, zoned).value.1.Some?
    ensures zoned && var o := SplitTimeZone(kind, text, zoned).value.1.value; o.hours <= 15 && o.minutes <= 59
  {
    hide ParseComponent, SplitAll, FindIn, TrimEnd;
  }

  /** A date normalises to itself once normalised, and is still the date written. */
  lemma DateIdempotent(text: string, round: string -> int)
    requires Normalize(Date, text, round).Ok?
    ensures Normalize(Date, Normalize(Date, text, round).value, round) == Normalize(Date, text, round)
    ensures ParseDate(Trim(text)).Ok? && ParseDate(Normalize(Date, text, round).value) == ParseDate(Trim(text))
  {
    hide ParseDate, DateText, NonIso, Trim, ValidDate;
    ParsedDateIsValid(Trim(text));
    var (year, month, day) := ParseDate(Trim(text)).value;
    DateIsPlain(year, month, day);
    PlainIsIso(Date, DateText(year, month, day));
    DateReads(year, month, day);
  }

  /** And so a time, with the offset written. */
  lemma TimeIdempotent(text: string, zoned: bool, round: string -> int)
    requires Normalize(Time(zoned), text, round).Ok?
    ensures Normalize(Time(zoned), Normalize(Time(zoned), text, round).value, round)
        == Normalize(Time(zoned), text, round)
    ensures
      var written := SplitTimeZone(Time(zoned), Trim(text), zoned);
      var kept := SplitTimeZone(Time(zoned), Normalize(Time(zoned), text, round).value, zoned);
      && written.Ok? && kept.Ok? && kept.value.1 == written.value.1
      && ParseTime(kept.value.0) == ParseTime(written.value.0)
  {
    hide ParseTime, ClockText, OffsetText, NonIso, Trim, SplitTimeZone, ValidClock;
    var (body, offset) := SplitTimeZone(Time(zoned), Trim(text), zoned).value;
    var clock := ParseTime(body).value;
    ParsedClockIsValid(body);
    ValidFraction(clock);
    if offset.Some? {
      ParsedOffsetFits(Time(zoned), Trim(text), zoned);
      OffsetIsPlain(offset.value);
    }
    ClockIsPlain(clock);
    var zone := if offset.Some? then OffsetText(offset.value) else "";
    var out := ClockText(clock) + zone;
    assert "" + ClockText(clock) + zone == out && "" + ClockText(clock) == ClockText(clock);
    assert zone == ZoneText(offset);
    ZoneSplits(Time(zoned), "", ClockText(clock), offset, zoned);
    PlainIsIso(Time(zoned), out);
    ClockReads(clock);
  }

  lemma ValidFraction(c: Clock)
    requires ValidClock(c)
    ensures c.fraction.Some? ==> |c.fraction.value| > 0 && AllDigits(c.fraction.value)
  {
  }

  function StampText(year: nat, month: nat, day: nat, clock: Clock, offset: Option<UtcOffset>): string {
    DateText(year, month, day) + " " + (ClockText(clock) + ZoneText(offset))
  }

  lemma StampIsPlain(year: nat, month: nat, day: nat, clock: Clock, offset: Option<UtcOffset>)
    requires ValidClock(clock)
    ensures MadeOf(StampText(year, month, day, clock, offset), "-+:. ")
        && DigitEnds(StampText(year, month, day, clock, offset))
  {
    hide ClockText, OffsetText, DateText;
    DateIsPlain(year, month, day);
    ClockIsPlain(clock);
    if offset.Some? {
      OffsetIsPlain(offset.value);
    }
  }

  lemma TimestampSplits(date: string, time: string)
    requires MadeOf(date, "-") && DigitEnds(time)
    ensures SplitTimestamp(date + " " + time) == (date, Some(time))
  {
    assert date + " " + time == date + (" " + time);
    FindInAt(date, " " + time, {' ', 'T', 't'});
    assert (date + " " + time)[..|date|] == date && (date + " " + time)[|date| + 1..] == time;
    TrimNothing(time);
  }

  /** A printed day, clock and offset read back as they were printed. */
  lemma StampReads(year: nat, month: nat, day: nat, clock: Clock, offset: Option<UtcOffset>, zoned: bool)
    requires year < 0x1_0000_0000 && ValidDate(year, month, day) && ValidClock(clock)
    requires offset.Some? ==> zoned && offset.value.hours <= 15 && offset.value.minutes <= 59
    ensures var text := StampText(year, month, day, clock, offset);
            && !NonIso(Timestamp(zoned), text) && Trim(text) == text
            && ReadTimestamp(text, zoned) == if 1 <= year <= 9999 then Ok(Stamp(year, month, day, clock, offset))
                else Err(OutOfRange)
  {
    hide ParseTime, ParseDate, ClockText, ZoneText, DateText, NonIso, SplitTimeZone, SplitTimestamp, ValidDate,
         ValidClock, TimeStart, MadeOf, DigitEnds;
    var date, time, zone := DateText(year, month, day), ClockText(clock), ZoneText(offset);
    var text := StampText(year, month, day, clock, offset);
    StampIsPlain(year, month, day, clock, offset);
    PlainIsIso(Timestamp(zoned), text);
    DateIsPlain(year, month, day);
    ValidFraction(clock);
    ClockIsPlain(clock);
    TimeStartsAt(Timestamp(zoned), date, time + zone);
    assert text == (date + " ") + time + zone && |date + " "| == |date| + 1;
    ZoneSplits(Timestamp(zoned), date + " ", time, offset, zoned);
    TimestampSplits(date, time);
    DateReads(year, month, day);
    ClockReads(clock);
  }

  /** An unzoned timestamp normalises to itself once normalised, exactly unless
      it was the last midnight of year 9999 written as 24:00:00, which lands in
      the year after. */
  lemma TimestampIdempotent(text: string, round: string -> int)
    requires Normalize(Timestamp(false), text, round).Ok?
    ensures var s := ReadTimestamp(Trim(text), false).value;
            Normalize(Timestamp(false), Normalize(Timestamp(false), text, round).value, round)
              == Normalize(Timestamp(false), text, round)
            <==> !(s.year == 9999 && s.month == 12 && s.day == 31 && s.clock.hour == 24)
  {
    hide ClockText, DateText, NonIso, ValidDate, ValidClock, SplitTimeZone, ParseDate, ParseTime, Trim;
    var s := ReadTimestamp(Trim(text), false).value;
    StampIsValid(Trim(text), false);
    ClockRollsOver(s);
    if s.clock.hour == 24 {
      var (year, month, day) := NextDay(s.year, s.month, s.day);
      NextDayIsOneMore(s.year, s.month, s.day);
      StampReads(year, month, day, MIDNIGHT, None, false);
      NoZone(year, month, day, MIDNIGHT);
    } else {
      StampReads(s.year, s.month, s.day, s.clock, None, false);
      NoZone(s.year, s.month, s.day, s.clock);
    }
  }

  lemma StampIsValid(text: string, zoned: bool)
    requires ReadTimestamp(text, zoned).Ok?
    ensures var s := ReadTimestamp(text, zoned).value;
            && 1 <= s.year <= 9999 && ValidDate(s.year, s.month, s.day) && ValidClock(s.clock)
            && (!zoned ==> s.offset.None?)
  {
    hide ValidDate, SplitTimeZone, ParseDate, ParseTime;
    var split := SplitTimeZone(Timestamp(zoned), text, zoned).value;
    var (date, time) := SplitTimestamp(split.0);
    ParsedDateIsValid(date);
    if time.Some? {
      ParsedClockIsValid(time.value);
    }
    if split.1.Some? {
      ParsedOffsetFits(Timestamp(zoned), text, zoned);
    }
  }

  lemma ClockRollsOver(s: Stamp)
    requires ValidDate(s.year, s.month, s.day) && 1 <= s.year <= 9999
    ensures ValidClock(MIDNIGHT)
    ensures var next := NextDay(s.year, s.month, s.day);
            next.0 <= 9999 <==> !(s.year == 9999 && s.month == 12 && s.day == 31)
  {
  }

  lemma NoZone(year: nat, month: nat, day: nat, clock: Clock)
    ensures StampText(year, month, day, clock, None) == DateText(year, month, day) + " " + ClockText(clock)
  {
    assert ClockText(clock) + "" == ClockText(clock);
  }

  lemma UnzonedNormalizes(year: nat, month: nat, day: nat, clock: Clock, round: string -> int)
    requires year < 0x1_0000_0000 && ValidDate(year, month, day) && ValidClock(clock)
    ensures Normalize(Timestamp(false), DateText(year, month, day) + " " + ClockText(clock), round)
         == if 1 <= year <= 9999 then Ok(UnzonedText(Stamp(year, month, day, clock, None))) else Err(OutOfRange)
  {
    hide NonIso, Trim, ReadTimestamp, DateText, ClockText, ValidDate, ValidClock, UnzonedText;
    StampReads(year, month, day, clock, None, false);
    NoZone(year, month, day, clock);
  }

  /** The case that is not idempotent, as input. */
  lemma LastMidnight(round: string -> int)
    ensures Normalize(Timestamp(false), "9999-12-31 24:00:00", round) == Ok("10000-01-01 00:00:00")
    ensures Normalize(Timestamp(false), "10000-01-01 00:00:00", round) == Err(OutOfRange)
  {
    hide Normalize, Pad, ClockText, DateText;
    UnzonedNormalizes(9999, 12, 31, Clock(24, 0, 0, None), round);
    UnzonedNormalizes(10000, 1, 1, MIDNIGHT, round);
    LastTexts();
  }

  lemma LastTexts()
    ensures DateText(9999, 12, 31) + " " + ClockText(Clock(24, 0, 0, None)) == "9999-12-31 24:00:00"
    ensures DateText(10000, 1, 1) + " " + ClockText(MIDNIGHT) == "10000-01-01 00:00:00"
  {
    hide Pad;
    SmallPads();
    SmallYears();
    assert DateText(9999, 12, 31) == "9999-12-31" && ClockText(Clock(24, 0, 0, None)) == "24:00:00";
    assert DateText(10000, 1, 1) == "10000-01-01" && ClockText(MIDNIGHT) == "00:00:00";
  }

  lemma SmallYears()
    ensures Pad(9999, 4) == "9999" && Pad(10000, 4) == "10000"
  {
    assert Digits(9) == "9" && Digits(99) == "99" && Digits(999) == "999" && Digits(9999) == "9999";
    assert Digits(1) == "1" && Digits(10) == "10" && Digits(100) == "100" && Digits(1000) == "1000"
      && Digits(10000) == "10000";
  }

  lemma SmallPads()
    ensures Pad(0, 2) == "00" && Pad(1, 2) == "01" && Pad(12, 2) == "12" && Pad(31, 2) == "31" && Pad(24, 2) == "24"
  {
    assert Digits(0) == "0" && Digits(1) == "1" && Digits(2) == "2" && Digits(3) == "3" && Digits(12) == "12"
      && Digits(31) == "31" && Digits(24) == "24";
    assert Zeros(1) == "0";
  }

  // ---------------------------------------------------------------------
  // One text for each instant
  // ---------------------------------------------------------------------

  lemma CanonicalIsStamp(micros: int)
    requires InYears(micros)
    ensures var (year, month, day) := CivilFromDays(micros / MICROS_PER_DAY);
            && 1 <= year <= 9999 && ValidDate(year, month, day)
            && CanonicalText(micros) == StampText(year, month, day, ClockOf(micros % MICROS_PER_DAY), Some(UTC))
  {
    DaysThenBack(micros / MICROS_PER_DAY);
    assert ZoneText(Some(UTC)) == "+00:00" by {
      assert Digits(0) == "0" && Zeros(1) == "0";
      assert Pad(0, 2) == "00";
    }
  }

  lemma ClockOfIsValid(microsOfDay: nat)
    requires microsOfDay < MICROS_PER_DAY
    ensures ValidClock(ClockOf(microsOfDay)) && ClockOf(microsOfDay).hour <= 23
  {
  }

  /** The clock of a microsecond of the day counts that microsecond. */
  lemma ClockCounts(ofDay: nat, round: string -> int)
    requires Rounds(round)
    ensures var c := ClockOf(ofDay);
            (c.hour * 3600 + c.minute * 60 + c.second) * MICROS_PER_SECOND + round(c.fraction.value) == ofDay
  {
    hide Pad, Value, Pow10;
    var second, fraction := ofDay / MICROS_PER_SECOND, ofDay % MICROS_PER_SECOND;
    SixDigits();
    PadLength(fraction, 6);
    ValueOfPad(fraction, 6);
    assert round(Pad(fraction, 6)) == fraction;
    assert second / 60 / 60 == second / 3600;
    assert second / 3600 * 3600 + second / 60 % 60 * 60 + second % 60 == second;
  }

  /** A canonical text denotes the instant it was made for. */
  lemma CanonicalInstant(micros: int, round: string -> int)
    requires InYears(micros) && Rounds(round)
    ensures var (year, month, day) := CivilFromDays(micros / MICROS_PER_DAY);
            year >= 0 && month >= 0 && day >= 0
            && Instant(Stamp(year, month, day, ClockOf(micros % MICROS_PER_DAY), Some(UTC)), round) == micros
  {
    hide Pad, Rounds, CivilFromDays, DaysFromCivil, ValidDate, ClockOf;
    DaysThenBack(micros / MICROS_PER_DAY);
    var (year, month, day) := CivilFromDays(micros / MICROS_PER_DAY);
    DaysFit(year, month, day);
    ClockCounts(micros % MICROS_PER_DAY, round);
    FractionGiven(micros % MICROS_PER_DAY);
  }

  lemma FractionGiven(ofDay: nat)
    ensures ClockOf(ofDay).fraction.Some?
  {
  }

  lemma SixDigits()
    ensures Pow10(6) == MICROS_PER_SECOND && Pow10(4) == 10000 && Pow10(2) == 100
  {
    assert Pow10(3) == 1_000;
    assert Pow10(5) == 100_000;
  }

  /** A canonical text normalises to itself. */
  lemma CanonicalIdempotent(micros: int, round: string -> int)
    requires InYears(micros) && Rounds(round)
    ensures Normalize(Timestamp(true), CanonicalText(micros), round) == Ok(CanonicalText(micros))
  {
    hide CanonicalText, StampText, ClockOf, ValidDate, ValidClock, NonIso, Trim, ReadTimestamp, Instant, InYears,
         CivilFromDays, Rounds;
    CanonicalIsStamp(micros);
    ClockOfIsValid(micros % MICROS_PER_DAY);
    var (year, month, day) := CivilFromDays(micros / MICROS_PER_DAY);
    DaysFit(year, month, day);
    StampReads(year, month, day, ClockOf(micros % MICROS_PER_DAY), Some(UTC), true);
    CanonicalInstant(micros, round);
  }

  /** Dates compare as their texts. */
  lemma BeforeDates(y1: nat, m1: nat, d1: nat, y2: nat, m2: nat, d2: nat)
    requires y1 <= 9999 && y2 <= 9999 && ValidDate(y1, m1, d1) && ValidDate(y2, m2, d2)
    ensures |DateText(y1, m1, d1)| == |DateText(y2, m2, d2)|
    ensures Before(DateText(y1, m1, d1), DateText(y2, m2, d2)) <==> Earlier((y1, m1, d1), (y2, m2, d2))
  {
    hide Pad, Pow10, Before, ValidDate;
    DaysFit(y1, m1, d1);
    DaysFit(y2, m2, d2);
    SixDigits();
    BeforePadded(y1, y2, 4);
    BeforePadded(m1, m2, 2);
    BeforePadded(d1, d2, 2);
    BeforeField(m1, m2, 2, "-", Pad(d1, 2), Pad(d2, 2));
    BeforeField(y1, y2, 4, "-", Pad(m1, 2) + "-" + Pad(d1, 2), Pad(m2, 2) + "-" + Pad(d2, 2));
    assert forall m: nat, d: nat :: Pad(m, 2) + "-" + Pad(d, 2) == Pad(m, 2) + ("-" + Pad(d, 2));
    assert forall y: nat, m: nat, d: nat :: DateText(y, m, d) == Pad(y, 4) + ("-" + (Pad(m, 2) + "-" + Pad(d, 2)));
  }

  /** Times of day compare as their texts. */
  lemma BeforeClocks(a: nat, b: nat)
    requires a < MICROS_PER_DAY && b < MICROS_PER_DAY
    ensures Before(ClockText(ClockOf(a)) + "+00:00", ClockText(ClockOf(b)) + "+00:00") <==> a < b
  {
    hide Pad, Pow10, Before;
    SixDigits();
    var s1, s2 := a / MICROS_PER_SECOND, b / MICROS_PER_SECOND;
    var f1, f2 := a % MICROS_PER_SECOND, b % MICROS_PER_SECOND;
    var end := "+00:00";
    BeforePadded(f1, f2, 6);
    BeforeConcat(Pad(f1, 6), Pad(f2, 6), end, end);
    BeforeItself(end);
    var t1, t2 := Pad(f1, 6) + end, Pad(f2, 6) + end;
    BeforeField(s1 % 60, s2 % 60, 2, ".", t1, t2);
    var u1, u2 := Pad(s1 % 60, 2) + ("." + t1), Pad(s2 % 60, 2) + ("." + t2);
    BeforeField(s1 / 60 % 60, s2 / 60 % 60, 2, ":", u1, u2);
    var v1, v2 := Pad(s1 / 60 % 60, 2) + (":" + u1), Pad(s2 / 60 % 60, 2) + (":" + u2);
    BeforeField(s1 / 3600, s2 / 3600, 2, ":", v1, v2);
    ClockFields(a);
    ClockFields(b);
    ClockOrder(a, b);
  }

  /** The canonical clock, field by field. */
  lemma ClockFields(a: nat)
    ensures var s := a / MICROS_PER_SECOND;
            ClockText(ClockOf(a)) + "+00:00"
              == Pad(s / 3600, 2) + (":" + (Pad(s / 60 % 60, 2)
              + (":" + (Pad(s % 60, 2) + ("." + (Pad(a % MICROS_PER_SECOND, 6) + "+00:00"))))))
  {
    hide Pad;
  }

  /** Hours, minutes, seconds and microseconds order times of day. */
  lemma ClockOrder(a: nat, b: nat)
    ensures var s1, s2, f1, f2 := a / MICROS_PER_SECOND, b / MICROS_PER_SECOND, a % MICROS_PER_SECOND,
        b % MICROS_PER_SECOND;
            a < b <==> (s1 / 3600 < s2 / 3600 || (s1 / 3600 == s2 / 3600 &&
                          (s1 / 60 % 60 < s2 / 60 % 60 || (s1 / 60 % 60 == s2 / 60 % 60 &&
                             (s1 % 60 < s2 % 60 || (s1 % 60 == s2 % 60 && f1 < f2))))))
  {
    var s1, s2 := a / MICROS_PER_SECOND, b / MICROS_PER_SECOND;
    assert s1 / 60 / 60 == s1 / 3600 && s2 / 60 / 60 == s2 / 3600;
    assert s1 < s2 <==> s1 / 60 < s2 / 60 || (s1 / 60 == s2 / 60 && s1 % 60 < s2 % 60);
  }

  /** Byte order of canonical texts is chronological order. */
  lemma CanonicalOrder(a: int, b: int)
    requires InYears(a) && InYears(b)
    ensures Before(CanonicalText(a), CanonicalText(b)) <==> a < b
  {
    hide Before, ClockText, ClockOf, DateText, ValidDate, CivilFromDays, Earlier, DaysFromCivil;
    var (y1, m1, d1) := CivilFromDays(a / MICROS_PER_DAY);
    var (y2, m2, d2) := CivilFromDays(b / MICROS_PER_DAY);
    DaysThenBack(a / MICROS_PER_DAY);
    DaysThenBack(b / MICROS_PER_DAY);
    DaysFit(y1, m1, d1);
    DaysFit(y2, m2, d2);
    BeforeDates(y1, m1, d1, y2, m2, d2);
    DaysFollowDates((y1, m1, d1), (y2, m2, d2));
    BeforeClocks(a % MICROS_PER_DAY, b % MICROS_PER_DAY);
    var t1, t2 := ClockText(ClockOf(a % MICROS_PER_DAY)) + "+00:00", ClockText(ClockOf(b % MICROS_PER_DAY)) + "+00:00";
    BeforeConcat(DateText(y1, m1, d1), DateText(y2, m2, d2), " " + t1, " " + t2);
    BeforeConcat(" ", " ", t1, t2);
    BeforeItself(" ");
    SameDateSameDays(a, b);
    assert CanonicalText(a) == DateText(y1, m1, d1) + (" " + t1)
      && CanonicalText(b) == DateText(y2, m2, d2) + (" " + t2);
  }

  lemma SameDateSameDays(a: int, b: int)
    requires InYears(a) && InYears(b)
    ensures var (y1, m1, d1), (y2, m2, d2) := CivilFromDays(a / MICROS_PER_DAY), CivilFromDays(b / MICROS_PER_DAY);
            y1 >= 0 && m1 >= 0 && d1 >= 0 && y2 >= 0 && m2 >= 0 && d2 >= 0
            && (DateText(y1, m1, d1) == DateText(y2, m2, d2) <==> a / MICROS_PER_DAY == b / MICROS_PER_DAY)
  {
    hide DateText, ValidDate, CivilFromDays, DaysFromCivil;
    var (y1, m1, d1) := CivilFromDays(a / MICROS_PER_DAY);
    var (y2, m2, d2) := CivilFromDays(b / MICROS_PER_DAY);
    DaysThenBack(a / MICROS_PER_DAY);
    DaysThenBack(b / MICROS_PER_DAY);
    DaysFit(y1, m1, d1);
    DaysFit(y2, m2, d2);
    DateReads(y1, m1, d1);
    DateReads(y2, m2, d2);
  }

  /** Two accepted timestamps get the same text exactly when they denote the
      same UTC microsecond, and the earlier one the text that sorts first. */
  lemma OneTextPerInstant(text1: string, text2: string, round: string -> int)
    requires Normalize(Timestamp(true), text1, round).Ok? && Normalize(Timestamp(true), text2, round).Ok?
    ensures var i1, i2 := Instant(ReadTimestamp(Trim(text1), true).value, round),
        Instant(ReadTimestamp(Trim(text2), true).value, round);
            var out1, out2 := Normalize(Timestamp(true), text1, round).value,
              Normalize(Timestamp(true), text2, round).value;
            (out1 == out2 <==> i1 == i2) && (Before(out1, out2) <==> i1 < i2)
  {
    hide Before, CanonicalText, InYears, ReadTimestamp, Instant, NonIso;
    var i1, i2 := Instant(ReadTimestamp(Trim(text1), true).value, round),
      Instant(ReadTimestamp(Trim(text2), true).value, round);
    CanonicalOrder(i1, i2);
    CanonicalOrder(i2, i1);
    BeforeItself(CanonicalText(i1));
  }
}
