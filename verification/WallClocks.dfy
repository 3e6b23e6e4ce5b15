/** What a timestamp with time zone is moved by: its canonical text, moved by the
    offset written, is the wall clock written. */
module WallClocks {
  import opened Wrappers
  import opened Text
  import opened Calendar
  import opened TemporalLiterals

  /** Hours and minutes east of UTC, in seconds. */
  function EastOf(offset: Option<UtcOffset>): int {
    match offset
    case None => 0
    case Some(UtcOffset(negative, hours, minutes)) =>
      if negative then 0 - 60 * (60 * hours + minutes) else 60 * (60 * hours + minutes)
  }

  /** Whole seconds since the first day of 1970. */
  function SecondsSince(year: int, month: int, day: int, clock: Clock): int {
    86_400 * DaysFromCivil(year, month, day) + 60 * (60 * clock.hour + clock.minute) + clock.second
  }

  /** What the fraction written comes to, in microseconds. */
  function MicrosOf(clock: Clock, round: string -> int): int {
    match clock.fraction case None => 0 case Some(fraction) => round(fraction)
  }

  lemma InstantIs(s: Stamp, round: string -> int)
    ensures Instant(s, round)
         == 1_000_000 * (SecondsSince(s.year, s.month, s.day, s.clock) - EastOf(s.offset)) + MicrosOf(s.clock, round)
  {
    hide DaysFromCivil;
  }

  lemma InstantSplits(s: Stamp, round: string -> int)
    requires 0 <= MicrosOf(s.clock, round) < 1_000_000
    ensures Instant(s, round) / 1_000_000 == SecondsSince(s.year, s.month, s.day, s.clock) - EastOf(s.offset)
    ensures Instant(s, round) % 1_000_000 == MicrosOf(s.clock, round)
  {
    hide Instant, SecondsSince, EastOf;
    InstantIs(s, round);
  }

  /** The stamp the canonical text of an instant reads as. */
  lemma CanonicalReads(micros: int)
    requires InYears(micros)
    ensures ReadTimestamp(CanonicalText(micros), true).Ok?
    ensures var s := ReadTimestamp(CanonicalText(micros), true).value;
      && s.offset == Some(UTC) && ValidDate(s.year, s.month, s.day)
      && SecondsSince(s.year, s.month, s.day, s.clock) == micros / 1_000_000
      && s.clock.fraction == Some(Pad(micros % 1_000_000, 6))
  {
    hide Pad, CanonicalText, StampText, ValidDate, ReadTimestamp, CivilFromDays, DaysFromCivil, NonIso, ValidClock;
    var (year, month, day) := CivilFromDays(micros / MICROS_PER_DAY);
    var ofDay := micros % MICROS_PER_DAY;
    CanonicalIsStamp(micros);
    ClockOfIsValid(ofDay);
    StampReads(year, month, day, ClockOf(ofDay), Some(UTC), true);
    DaysThenBack(micros / MICROS_PER_DAY);
    SecondsOfDay(micros);
  }

  lemma SecondsOfDay(micros: int)
    ensures var second := micros % MICROS_PER_DAY / 1_000_000;
      && 86_400 * (micros / MICROS_PER_DAY) + 60 * (60 * (second / 3600) + second / 60 % 60) + second % 60
         == micros / 1_000_000
    ensures micros % MICROS_PER_DAY % 1_000_000 == micros % 1_000_000
  {
    var days, ofDay := micros / MICROS_PER_DAY, micros % MICROS_PER_DAY;
    var second, micro := ofDay / 1_000_000, ofDay % 1_000_000;
    assert micros == (86_400 * days + second) * 1_000_000 + micro;
    MinutesOfHour(second);
  }

  lemma MinutesOfHour(second: nat)
    ensures 60 * (60 * (second / 3600) + second / 60 % 60) + second % 60 == second
  {
    var minute := second / 60;
    assert second == 60 * minute + second % 60;
    assert minute == 60 * (minute / 60) + minute % 60;
    assert minute / 60 == second / 3600;
  }

  lemma SplitsAgain(days: int, hour: int, minute: int, second: int)
    requires 0 <= hour < 24 && 0 <= minute < 60 && 0 <= second < 60
    ensures var total := 86_400 * days + 60 * (60 * hour + minute) + second;
      && total / 86_400 == days
      && total % 86_400 / 3600 == hour && total % 86_400 / 60 % 60 == minute && total % 60 == second
  {
    var ofDay := 60 * (60 * hour + minute) + second;
    assert 0 <= ofDay < 86_400;
    DayAndRest(days, ofDay);
    assert ofDay / 60 == 60 * hour + minute;
  }

  lemma DayAndRest(days: int, ofDay: int)
    requires 0 <= ofDay < 86_400
    ensures (86_400 * days + ofDay) / 86_400 == days && (86_400 * days + ofDay) % 86_400 == ofDay
    ensures (86_400 * days + ofDay) % 60 == ofDay % 60
  {
  }

  /** The canonical text of an accepted timestamp, read and moved east by the
      offset written, is the time written, to the microsecond; and where the
      fraction does not round up to a whole second it is the date, the clock and
      the fraction written, hour 24 being the midnight that begins the next
      day. */
  lemma OffsetMovesBack(text: string, round: string -> int)
    requires Rounds(round) && Normalize(Timestamp(true), text, round).Ok?
    ensures ReadTimestamp(Trim(text), true).Ok?
        && ReadTimestamp(Normalize(Timestamp(true), text, round).value, true).Ok?
    ensures
      var written := ReadTimestamp(Trim(text), true).value;
      var kept := ReadTimestamp(Normalize(Timestamp(true), text, round).value, true).value;
      var moved := SecondsSince(kept.year, kept.month, kept.day, kept.clock) + EastOf(written.offset);
      var micros := MicrosOf(written.clock, round);
      && kept.offset == Some(UTC) && kept.clock.fraction.Some?
      && AllDigits(kept.clock.fraction.value) && |kept.clock.fraction.value| == 6
      && 1_000_000 * moved + Value(kept.clock.fraction.value)
         == 1_000_000 * SecondsSince(written.year, written.month, written.day, written.clock) + micros
      && (micros < 1_000_000 ==> Value(kept.clock.fraction.value) == micros)
      && (micros < 1_000_000 && written.clock.hour < 24 ==>
            && CivilFromDays(moved / 86_400) == (written.year, written.month, written.day)
            && moved % 86_400 / 3600 == written.clock.hour && moved % 86_400 / 60 % 60 == written.clock.minute
            && moved % 60 == written.clock.second)
      && (micros < 1_000_000 && written.clock.hour == 24 ==>
            && CivilFromDays(moved / 86_400) == NextDay(written.year, written.month, written.day)
            && moved % 86_400 == 0)
  {
    hide Pad, CanonicalText, ReadTimestamp, Instant, InYears, CivilFromDays, DaysFromCivil, NonIso, ValidDate, NextDay,
         Value, Rounds;
    var s := ReadTimestamp(Trim(text), true).value;
    var micros := Instant(s, round);
    StampIsValid(Trim(text), true);
    InstantIs(s, round);
    CanonicalReads(micros);
    SixPlacesOf(micros % 1_000_000);
    FractionRounds(s.clock, round);
    if MicrosOf(s.clock, round) < 1_000_000 {
      MovedIsWritten(s, round);
    }
  }

  lemma SixPlacesOf(micro: nat)
    requires micro < 1_000_000
    ensures var text := Pad(micro, 6); |text| == 6 && AllDigits(text) && Value(text) == micro
  {
    hide Pow10;
    SixDigits();
    PadLength(micro, 6);
    ValueOfPad(micro, 6);
  }

  lemma FractionRounds(clock: Clock, round: string -> int)
    requires Rounds(round) && ValidClock(clock)
    ensures 0 <= MicrosOf(clock, round) <= 1_000_000
  {
  }

  lemma MovedIsWritten(s: Stamp, round: string -> int)
    requires ValidDate(s.year, s.month, s.day) && ValidClock(s.clock) && 0 <= MicrosOf(s.clock, round) < 1_000_000
    ensures var moved := Instant(s, round) / 1_000_000 + EastOf(s.offset);
      && Instant(s, round) % 1_000_000 == MicrosOf(s.clock, round)
      && (s.clock.hour < 24 ==>
            && CivilFromDays(moved / 86_400) == (s.year, s.month, s.day)
            && moved % 86_400 / 3600 == s.clock.hour && moved % 86_400 / 60 % 60 == s.clock.minute
            && moved % 60 == s.clock.second)
      && (s.clock.hour == 24 ==>
            CivilFromDays(moved / 86_400) == NextDay(s.year, s.month, s.day) && moved % 86_400 == 0)
  {
    hide Instant, CivilFromDays, DaysFromCivil, ValidDate, NextDay;
    InstantSplits(s, round);
    var days := DaysFromCivil(s.year, s.month, s.day);
    var moved := Instant(s, round) / 1_000_000 + EastOf(s.offset);
    assert moved == 86_400 * days + 60 * (60 * s.clock.hour + s.clock.minute) + s.clock.second;
    if s.clock.hour < 24 {
      SplitsAgain(days, s.clock.hour, s.clock.minute, s.clock.second);
      CivilThenBack(s.year, s.month, s.day);
    } else {
      NextDayIsOneMore(s.year, s.month, s.day);
      var (year, month, day) := NextDay(s.year, s.month, s.day);
      CivilThenBack(year, month, day);
      DayAndRest(days + 1, 0);
    }
  }

  /** An unzoned timestamp keeps the date and the clock written, hour 24 being
      the midnight that begins the next day. */
  lemma UnzonedIsKept(text: string, round: string -> int)
    requires Normalize(Timestamp(false), text, round).Ok?
    ensures ReadTimestamp(Trim(text), false).Ok?
    ensures
      var written := ReadTimestamp(Trim(text), false).value;
      var (year, month, day) := if written.clock.hour == 24 then NextDay(written.year, written.month, written.day)
                                else (written.year, written.month, written.day);
      var clock := if written.clock.hour == 24 then Clock(0, 0, 0, None) else written.clock;
      && (year <= 9999 ==> ReadTimestamp(Normalize(Timestamp(false), text, round).value, false)
                           == Ok(Stamp(year, month, day, clock, None)))
      && DaysFromCivil(year, month, day)
         == DaysFromCivil(written.year, written.month, written.day) + (if written.clock.hour == 24 then 1 else 0)
  {
    hide ClockText, DateText, NonIso, ValidDate, ValidClock, SplitTimeZone, ParseDate, ParseTime, Trim, DaysFromCivil,
         NextDay;
    var s := ReadTimestamp(Trim(text), false).value;
    StampIsValid(Trim(text), false);
    ClockRollsOver(s);
    if s.clock.hour == 24 {
      var (year, month, day) := NextDay(s.year, s.month, s.day);
      NextDayIsOneMore(s.year, s.month, s.day);
      StampReads(year, month, day, MIDNIGHT, None, false);
      NoZone(year, month, day, MIDNIGHT);
    } else {
      StampReads(s.year, s.month, s.day, s.clock, None, false);
      NoZone(s.year, s.month, s.day, s.clock);
    }
  }

  const FIRST_MICRO := -62_135_596_800_000_000
  const MICROS_END := 253_402_300_800_000_000

  /** A timestamp that is read is refused exactly when its instant is not in the
      years 1 to 9999 of UTC, that is before the first microsecond or from the
      end on, counted from 1970. */
  lemma RefusedOutsideYears(text: string, round: string -> int)
    requires Rounds(round) && !NonIso(Timestamp(true), Trim(text)) && ReadTimestamp(Trim(text), true).Ok?
    ensures var s := ReadTimestamp(Trim(text), true).value;
      var instant := 1_000_000 * (SecondsSince(s.year, s.month, s.day, s.clock) - EastOf(s.offset))
        + MicrosOf(s.clock, round);
      Normalize(Timestamp(true), text, round).Ok? <==> FIRST_MICRO <= instant < MICROS_END
  {
    hide ReadTimestamp, NonIso, Trim, Rounds, SecondsSince, EastOf, MicrosOf, InYears, CanonicalText, Instant;
    InstantIs(ReadTimestamp(Trim(text), true).value, round);
    YearsAre(Instant(ReadTimestamp(Trim(text), true).value, round));
  }

  lemma YearsAre(micros: int)
    ensures InYears(micros) <==> FIRST_MICRO <= micros < MICROS_END
  {
    hide CivilFromDays, DaysFromCivil, DaysInMonth;
    var days := micros / MICROS_PER_DAY;
    var date := CivilFromDays(days);
    DaysThenBack(days);
    FirstDays();
    DaysFollowDates(date, (1, 1, 1));
    DaysFollowDates(date, (10000, 1, 1));
  }

  lemma FirstDays()
    ensures ValidDate(1, 1, 1) && DaysFromCivil(1, 1, 1) == -719_162
    ensures ValidDate(10000, 1, 1) && DaysFromCivil(10000, 1, 1) == 2_932_897
  {
  }
}
