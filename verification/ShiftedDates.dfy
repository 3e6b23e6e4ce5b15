/** That the modifiers shift a date as PostgreSQL adds an interval to it: months
    first, clamped to the month they end in, then days, then time. */
module ShiftedDates {
  import opened Wrappers
  import opened Calendar
  import opened Interval

  // ---------------------------------------------------------------------
  // How SQLite runs modifiers
  // ---------------------------------------------------------------------

  /** A time in microseconds, and by how many days the last step over months
      ran past the end of its month. */
  datatype Moment = Moment(micros: int, over: nat)

  /** The month `count` months on. */
  function MonthOn(year: int, month: int, count: int): (int, int) {
    var months := 12 * year + month - 1 + count;
    (months / 12, months % 12 + 1)
  }

  /** Months on, the day of the month as it is: SQLite lets 31 February run on
      into March, and remembers by how much. */
  function Monthly(m: Moment, count: int): Moment {
    var (year, month, day) := CivilFromDays(m.micros / MICROS_PER_DAY);
    var (toYear, toMonth) := MonthOn(year, month, count);
    var length := DaysInMonth(toYear, toMonth);
    Moment((DaysFromCivil(toYear, toMonth, 1) + day - 1) * MICROS_PER_DAY + m.micros % MICROS_PER_DAY,
           if day > length then day - length else 0)
  }

  /** `floor` takes the days run past back. */
  function Floored(m: Moment): Moment {
    Moment(m.micros - m.over * MICROS_PER_DAY, 0)
  }

  function Modified(m: Moment, modifier: string): Option<Moment> {
    if modifier == "floor" then Some(Floored(m))
    else
      match ReadModifier(modifier)
      case None => None
      case Some(Reading(months, days, micros)) =>
        if months != 0 then Some(Monthly(m, months)) else Some(Moment(m.micros + days * MICROS_PER_DAY + micros, 0))
  }

  function Run(m: Moment, modifiers: seq<string>): Option<Moment>
    decreases |modifiers|
  {
    if |modifiers| == 0 then Some(m)
    else
      match Modified(m, modifiers[0])
      case None => None
      case Some(next) => Run(next, modifiers[1..])
  }

  // ---------------------------------------------------------------------
  // How PostgreSQL adds an interval
  // ---------------------------------------------------------------------

  /** The same day `count` months on, or the last of its month. */
  function DayOn(day: int, count: int): int {
    var (year, month, dayOfMonth) := CivilFromDays(day);
    var (toYear, toMonth) := MonthOn(year, month, count);
    var length := DaysInMonth(toYear, toMonth);
    DaysFromCivil(toYear, toMonth, if dayOfMonth > length then length else dayOfMonth)
  }

  function Added(micros: int, months: int, days: int, time: int): int {
    (DayOn(micros / MICROS_PER_DAY, months) + days) * MICROS_PER_DAY + micros % MICROS_PER_DAY + time
  }

  // ---------------------------------------------------------------------
  // The two are the same
  // ---------------------------------------------------------------------

  lemma NoMonthsOn(day: int)
    ensures DayOn(day, 0) == day
  {
    hide CivilFromDays, DaysFromCivil;
    DaysThenBack(day);
  }

  lemma MonthsThenFloor(micros: int, count: int)
    ensures Floored(Monthly(Moment(micros, 0), count)).micros
         == DayOn(micros / MICROS_PER_DAY, count) * MICROS_PER_DAY + micros % MICROS_PER_DAY
  {
    hide CivilFromDays, DaysFromCivil, MonthOn, DaysInMonth;
    var (year, month, day) := CivilFromDays(micros / MICROS_PER_DAY);
    var (toYear, toMonth) := MonthOn(year, month, count);
    var length := DaysInMonth(toYear, toMonth);
    DaysOfOneMonth(toYear, toMonth, day);
    DaysOfOneMonth(toYear, toMonth, length);
    var first, rest := DaysFromCivil(toYear, toMonth, 1), micros % MICROS_PER_DAY;
    if day > length {
      assert (first + day - 1) * MICROS_PER_DAY + rest - (day - length) * MICROS_PER_DAY
          == (first + length - 1) * MICROS_PER_DAY + rest;
    }
  }

  lemma DaysOfOneMonth(year: int, month: int, day: int)
    ensures DaysFromCivil(year, month, day) == DaysFromCivil(year, month, 1) + day - 1
  {
  }

  lemma NotFloor(modifier: string)
    requires |modifier| > 0 && (modifier[0] == '+' || modifier[0] == '-')
    ensures modifier != "floor"
  {
    assert "floor"[0] == 'f';
  }

  lemma MonthsRun(m: Moment, months: int)
    requires months != 0
    ensures Modified(m, Signed(months, "months")) == Some(Monthly(m, months))
  {
    hide ReadModifier, Monthly;
    NotFloor(Signed(months, "months"));
    SignedReads(months, "months");
    assert ReadUnit(months * 1_000_000, "months") == Some(Reading(months, 0, 0));
  }

  lemma DaysRun(m: Moment, days: int)
    ensures Modified(m, Signed(days, "days")) == Some(Moment(m.micros + days * MICROS_PER_DAY, 0))
  {
    hide ReadModifier;
    NotFloor(Signed(days, "days"));
    SignedReads(days, "days");
    assert ReadUnit(days * 1_000_000, "days") == Some(Reading(0, days, 0));
  }

  lemma TimeRuns(m: Moment, time: int)
    requires time != 0
    ensures Modified(m, TimeModifier(time)) == Some(Moment(m.micros + time, 0))
  {
    hide ReadModifier, TruncMod, TruncDiv;
    TimeReads(time);
    NotFloor(TimeModifier(time));
  }

  lemma RunOne(m: Moment, first: string, rest: seq<string>)
    requires Modified(m, first).Some?
    ensures Run(m, [first] + rest) == Run(Modified(m, first).value, rest)
  {
    hide Modified;
    assert ([first] + rest)[1..] == rest;
  }

  /** SQLite running the modifiers of an interval leaves what PostgreSQL leaves
      adding it, on every date, the 31sts and leap days included. */
  lemma ModifiersAdd(micros: int, months: int, days: int, time: int)
    ensures Run(Moment(micros, 0), ModifiersOf(months, days, time))
        == Some(Moment(Added(micros, months, days, time), 0))
  {
    hide Run, Modified, Monthly, Floored, DayOn, TimeModifier, Signed;
    var start := Moment(micros, 0);
    var timed: seq<string> := if time != 0 then [TimeModifier(time)] else [];
    var dayed := (if days != 0 then [Signed(days, "days")] else []) + timed;
    assert ModifiersOf(months, days, time)
        == (if months != 0 then [Signed(months, "months")] + (["floor"] + dayed) else dayed);
    if months != 0 {
      MonthsRun(start, months);
      RunOne(start, Signed(months, "months"), ["floor"] + dayed);
      FloorRuns(Monthly(start, months));
      RunOne(Monthly(start, months), "floor", dayed);
      MonthsThenFloor(micros, months);
    } else {
      NoMonthsOn(micros / MICROS_PER_DAY);
    }
    var monthed := DayOn(micros / MICROS_PER_DAY, months) * MICROS_PER_DAY + micros % MICROS_PER_DAY;
    RestRuns(Moment(monthed, 0), days, time);
  }

  lemma FloorRuns(m: Moment)
    ensures Modified(m, "floor") == Some(Floored(m)) && Floored(m).over == 0
  {
  }

  lemma RestRuns(m: Moment, days: int, time: int)
    requires m.over == 0
    ensures Run(m, (if days != 0 then [Signed(days, "days")] else [])
        + (if time != 0 then [TimeModifier(time)] else []))
         == Some(Moment(m.micros + days * MICROS_PER_DAY + time, 0))
  {
    hide Modified, TimeModifier, Signed;
    var timed: seq<string> := if time != 0 then [TimeModifier(time)] else [];
    var next := Moment(m.micros + days * MICROS_PER_DAY, 0);
    if days != 0 {
      DaysRun(m, days);
      RunOne(m, Signed(days, "days"), timed);
    } else {
      assert [] + timed == timed;
    }
    if time != 0 {
      TimeRuns(next, time);
      RunOne(next, TimeModifier(time), []);
      assert [TimeModifier(time)] + [] == timed;
    }
  }
}
