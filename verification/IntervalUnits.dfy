/** What the unit words of an interval count, unit by unit. */
module IntervalUnits {
  import opened Wrappers
  import opened Interval
  import opened IntervalText

  datatype Unit =
    | Microsecond | Millisecond | Second | Minute | Hour
    | Day | Week
    | Month | Year | Decade | Century | Millennium

  /** How PostgreSQL lets a unit be written. */
  function Spellings(unit: Unit): seq<string> {
    match unit
    case Microsecond => ["us", "usec", "usecs", "useconds", "microsecond", "microseconds"]
    case Millisecond => ["ms", "msec", "msecs", "mseconds", "millisecond", "milliseconds"]
    case Second => ["s", "sec", "secs", "second", "seconds"]
    case Minute => ["m", "min", "mins", "minute", "minutes"]
    case Hour => ["h", "hr", "hrs", "hour", "hours"]
    case Day => ["d", "day", "days"]
    case Week => ["w", "week", "weeks"]
    case Month => ["mon", "mons", "month", "months"]
    case Year => ["y", "yr", "yrs", "year", "years"]
    case Decade => ["dec", "decs", "decade", "decades"]
    case Century => ["cent", "century", "centuries"]
    case Millennium => ["mil", "mils", "millennium", "millennia"]
  }

  /** Each unit as so many of the one below it. */
  function Next(unit: Unit): Option<(int, Unit)> {
    match unit
    case Microsecond => None
    case Millisecond => Some((1000, Microsecond))
    case Second => Some((1000, Millisecond))
    case Minute => Some((60, Second))
    case Hour => Some((60, Minute))
    case Day => None
    case Week => Some((7, Day))
    case Month => None
    case Year => Some((12, Unit.Month))
    case Decade => Some((10, Year))
    case Century => Some((10, Decade))
    case Millennium => Some((10, Century))
  }

  function Rank(unit: Unit): nat {
    match unit
    case Microsecond => 0 case Millisecond => 1 case Second => 2 case Minute => 3 case Hour => 4
    case Day => 0 case Week => 1
    case Month => 0 case Year => 1 case Decade => 2 case Century => 3 case Millennium => 4
  }

  /** How many of the smallest of its kind a unit is, and which that is. */
  function Counted(unit: Unit): (int, Unit)
    decreases Rank(unit)
  {
    match Next(unit)
    case None => (1, unit)
    case Some((many, below)) => (many * Counted(below).0, Counted(below).1)
  }

  lemma Sizes()
    ensures Counted(Microsecond) == (1, Microsecond) && Counted(Millisecond) == (1_000, Microsecond)
    ensures Counted(Second) == (1_000_000, Microsecond) && Counted(Minute) == (60_000_000, Microsecond)
    ensures Counted(Hour) == (3_600_000_000, Microsecond)
    ensures Counted(Day) == (1, Day) && Counted(Week) == (7, Day)
    ensures Counted(Unit.Month) == (1, Unit.Month) && Counted(Year) == (12, Unit.Month)
        && Counted(Decade) == (120, Unit.Month)
    ensures Counted(Century) == (1_200, Unit.Month) && Counted(Millennium) == (12_000, Unit.Month)
  {
    assert Counted(Second) == (1000 * Counted(Millisecond).0, Microsecond);
    assert Counted(Minute) == (60 * Counted(Second).0, Microsecond);
    assert Counted(Decade) == (10 * Counted(Year).0, Unit.Month);
    assert Counted(Century) == (10 * Counted(Decade).0, Unit.Month);
  }

  function Plus(fields: Counts, size: (int, Unit), count: int): Counts {
    if size.1 == Unit.Month then fields.(months := fields.months + size.0 * count)
    else if size.1 == Day then fields.(days := fields.days + size.0 * count)
    else fields.(micros := fields.micros + size.0 * count)
  }

  predicate AllCount(unit: Unit, scale: LiteralScale) {
    forall k :: 0 <= k < |Spellings(unit)| ==> LiteralScaleOf(Spellings(unit)[k]) == Some(scale)
  }

  lemma MicrosecondsAre()
    ensures AllCount(Microsecond, Time(1))
  {
  }

  lemma MillisecondsAre()
    ensures AllCount(Millisecond, Time(1_000))
  {
  }

  lemma SecondsShort()
    ensures LiteralScaleOf("s") == Some(Time(1_000_000)) && LiteralScaleOf("sec") == Some(Time(1_000_000))
        && LiteralScaleOf("secs") == Some(Time(1_000_000))
  {
  }

  lemma SecondsLong()
    ensures LiteralScaleOf("second") == Some(Time(1_000_000)) && LiteralScaleOf("seconds") == Some(Time(1_000_000))
  {
  }

  lemma SecondsAre()
    ensures AllCount(Second, Time(1_000_000))
  {
    hide LiteralScaleOf;
    SecondsShort();
    SecondsLong();
  }

  lemma MinutesShort()
    ensures LiteralScaleOf("m") == Some(Time(60_000_000)) && LiteralScaleOf("min") == Some(Time(60_000_000))
        && LiteralScaleOf("mins") == Some(Time(60_000_000))
  {
  }

  lemma MinutesLong()
    ensures LiteralScaleOf("minute") == Some(Time(60_000_000)) && LiteralScaleOf("minutes") == Some(Time(60_000_000))
  {
  }

  lemma MinutesAre()
    ensures AllCount(Minute, Time(60_000_000))
  {
    hide LiteralScaleOf;
    MinutesShort();
    MinutesLong();
  }

  lemma HoursShort()
    ensures LiteralScaleOf("h") == Some(Time(3_600_000_000)) && LiteralScaleOf("hr") == Some(Time(3_600_000_000))
        && LiteralScaleOf("hrs") == Some(Time(3_600_000_000))
  {
  }

  lemma HoursLong()
    ensures LiteralScaleOf("hour") == Some(Time(3_600_000_000)) && LiteralScaleOf("hours") == Some(Time(3_600_000_000))
  {
  }

  lemma HoursAre()
    ensures AllCount(Hour, Time(3_600_000_000))
  {
    hide LiteralScaleOf;
    HoursShort();
    HoursLong();
  }

  lemma DaysAre()
    ensures AllCount(Day, Days(1))
  {
  }

  lemma WeeksAre()
    ensures AllCount(Week, Days(7))
  {
  }

  lemma MonthsShort()
    ensures LiteralScaleOf("mon") == Some(OneMonth) && LiteralScaleOf("mons") == Some(OneMonth)
  {
  }

  lemma MonthsLong()
    ensures LiteralScaleOf("month") == Some(OneMonth) && LiteralScaleOf("months") == Some(OneMonth)
  {
  }

  lemma MonthsAre()
    ensures AllCount(Unit.Month, OneMonth)
  {
    hide LiteralScaleOf;
    MonthsShort();
    MonthsLong();
  }

  lemma YearsShort()
    ensures LiteralScaleOf("y") == Some(WholeMonths(12)) && LiteralScaleOf("yr") == Some(WholeMonths(12))
        && LiteralScaleOf("yrs") == Some(WholeMonths(12))
  {
    hide LiteralScaleOf;
    YearInitial();
    YearAbbreviated();
  }

  lemma YearInitial()
    ensures LiteralScaleOf("y") == Some(WholeMonths(12))
  {
  }

  lemma YearAbbreviated()
    ensures LiteralScaleOf("yr") == Some(WholeMonths(12)) && LiteralScaleOf("yrs") == Some(WholeMonths(12))
  {
  }

  lemma YearsLong()
    ensures LiteralScaleOf("year") == Some(WholeMonths(12)) && LiteralScaleOf("years") == Some(WholeMonths(12))
  {
  }

  lemma YearsAre()
    ensures AllCount(Year, WholeMonths(12))
  {
    hide LiteralScaleOf;
    YearsShort();
    YearsLong();
  }

  lemma DecadesShort()
    ensures LiteralScaleOf("dec") == Some(WholeMonths(120)) && LiteralScaleOf("decs") == Some(WholeMonths(120))
  {
  }

  lemma DecadesLong()
    ensures LiteralScaleOf("decade") == Some(WholeMonths(120)) && LiteralScaleOf("decades") == Some(WholeMonths(120))
  {
  }

  lemma DecadesAre()
    ensures AllCount(Decade, WholeMonths(120))
  {
    hide LiteralScaleOf;
    DecadesShort();
    DecadesLong();
  }

  lemma CenturiesShort()
    ensures LiteralScaleOf("cent") == Some(WholeMonths(1_200)) && LiteralScaleOf("century") == Some(WholeMonths(1_200))
  {
  }

  lemma CenturiesLong()
    ensures LiteralScaleOf("centuries") == Some(WholeMonths(1_200))
  {
  }

  lemma CenturiesAre()
    ensures AllCount(Century, WholeMonths(1_200))
  {
    hide LiteralScaleOf;
    CenturiesShort();
    CenturiesLong();
  }

  lemma Mil()
    ensures LiteralScaleOf("mil") == Some(WholeMonths(12_000))
  {
  }

  lemma Mils()
    ensures LiteralScaleOf("mils") == Some(WholeMonths(12_000))
  {
  }

  lemma MillenniumIs()
    ensures LiteralScaleOf("millennium") == Some(WholeMonths(12_000))
  {
  }

  lemma Millennia()
    ensures LiteralScaleOf("millennia") == Some(WholeMonths(12_000))
  {
  }

  lemma MillenniaAre()
    ensures AllCount(Millennium, WholeMonths(12_000))
  {
    hide LiteralScaleOf;
    Mil();
    Mils();
    MillenniumIs();
    Millennia();
  }

  lemma ScaleOf(unit: Unit, word: string)
    requires word in Spellings(unit)
    ensures LiteralScaleOf(word) == Some(
      if Counted(unit).1 == Day then Days(Counted(unit).0)
      else if unit == Unit.Month then OneMonth
      else if Counted(unit).1 == Unit.Month then WholeMonths(Counted(unit).0)
      else Time(Counted(unit).0))
  {
    hide LiteralScaleOf, Spellings;
    Sizes();
    match unit {
      case Microsecond => MicrosecondsAre();
      case Millisecond => MillisecondsAre();
      case Second => SecondsAre();
      case Minute => MinutesAre();
      case Hour => HoursAre();
      case Day => DaysAre();
      case Week => WeeksAre();
      case Month => MonthsAre();
      case Year => YearsAre();
      case Decade => DecadesAre();
      case Century => CenturiesAre();
      case Millennium => MillenniaAre();
    }
  }

  /** A whole number of any unit, however it is spelled, adds that many of what
      the unit is made of. */
  lemma UnitsCount(unit: Unit, word: string, fields: Counts, count: int)
    requires word in Spellings(unit)
    ensures LiteralScaleOf(word).Some?
    ensures fields.Add(Decimal(count, 1), LiteralScaleOf(word).value) == Plus(fields, Counted(unit), count)
  {
    hide Spellings, LiteralScaleOf, Counted, TruncDiv, TruncMod, RoundingDiv;
    ScaleOf(unit, word);
    Sizes();
    WholeCountsAdd(fields, count, Counted(unit).0);
    DivByOne(count * Counted(unit).0);
    DivByOne(0);
    NothingCarries();
  }

  /** And no other word is a unit. */
  lemma UnitsAreSpelled(word: string)
    ensures LiteralScaleOf(word).Some? ==> exists unit :: word in Spellings(unit)
  {
    if LiteralScaleOf(word).Some? {
      assert
        || word in Spellings(Microsecond) || word in Spellings(Millisecond) || word in Spellings(Second)
        || word in Spellings(Minute) || word in Spellings(Hour) || word in Spellings(Day) || word in Spellings(Week)
        || word in Spellings(Unit.Month) || word in Spellings(Year) || word in Spellings(Decade)
        || word in Spellings(Century) || word in Spellings(Millennium);
    }
  }

  /** A fraction of a month is that of thirty days and a fraction of a day that
      of twenty-four hours, cut off below the microsecond; one of a year and up
      is rounded to whole months. */
  lemma FractionsSpill(fields: Counts, count: Count, per: int)
    ensures var (n, d) := (count.numerator, count.denominator);
      var month, day := fields.Add(count, OneMonth), fields.Add(count, Days(per));
      && month.months == fields.months + TruncDiv(n, d)
      && 24 * 60 * 60 * 1_000_000 * (month.days - fields.days) + (month.micros - fields.micros)
         == TruncDiv((n - TruncDiv(n, d) * d) * (30 * 24 * 60 * 60 * 1_000_000), d)
      && day.months == fields.months && day.days == fields.days + TruncDiv(n * per, d)
      && day.micros == fields.micros + TruncDiv((n * per - TruncDiv(n * per, d) * d) * (24 * 60 * 60 * 1_000_000), d)
    ensures fields.Add(count, WholeMonths(per))
         == fields.(months := fields.months + RoundingDiv(count.numerator * per, count.denominator))
    ensures fields.Add(count, Time(per))
         == fields.(micros := fields.micros + TruncDiv(count.numerator * per, count.denominator))
  {
    hide TruncDiv, RoundingDiv;
  }
}
