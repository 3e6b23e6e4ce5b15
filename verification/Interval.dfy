/** The counts a PostgreSQL interval is held in, and the SQLite date modifiers
    they become.

    Two accumulators read the same written counts: one folds days into
    microseconds for the modifiers, the other keeps them apart for printing.
    Every count is an exact decimal, an integer over a power of ten. Integers
    are unbounded here; the source's overflow refusals are not modelled. */
module Interval {
  import opened Wrappers
  import opened Text

  const MICROS_PER_DAY := 86_400_000_000
  const MICROS_PER_HOUR := 3_600_000_000
  const MICROS_PER_MINUTE := 60_000_000
  const MICROS_PER_SECOND := 1_000_000
  const DAYS_PER_FRACTIONAL_MONTH := 30

  /** Division truncating towards zero, by a positive divisor. */
  function TruncDiv(n: int, d: int): int
    requires d > 0
  {
    if n >= 0 then n / d else -((-n) / d)
  }

  /** The remainder of that division, which takes the sign of `n`. */
  function TruncMod(n: int, d: int): int
    requires d > 0
  {
    n - TruncDiv(n, d) * d
  }

  /** Division rounding half away from zero. */
  function RoundingDiv(n: int, d: int): int
    requires d > 0
  {
    var half := d / 2;
    if n >= 0 then TruncDiv(n + half, d) else TruncDiv(n - half, d)
  }

  function Abs(i: int): nat {
    if i < 0 then -i else i
  }

  lemma TruncDivMeaning(n: int, d: int)
    requires d > 0
    ensures n == TruncDiv(n, d) * d + TruncMod(n, d)
    ensures Abs(TruncMod(n, d)) < d
    ensures n >= 0 ==> TruncDiv(n, d) >= 0 && TruncMod(n, d) >= 0
    ensures n <= 0 ==> TruncDiv(n, d) <= 0 && TruncMod(n, d) <= 0
  {
  }

  /** A quotient and remainder of the dividend's sign are the truncated ones. */
  lemma TruncDivUnique(n: int, d: int, q: int, r: int)
    requires d > 0 && n == q * d + r && Abs(r) < d
    requires (n >= 0 && r >= 0) || (n <= 0 && r <= 0)
    ensures TruncDiv(n, d) == q && TruncMod(n, d) == r
  {
    if n >= 0 && r >= 0 {
      QuotientUnique(n, d, q, r);
    } else {
      assert -n == (-q) * d + (-r);
      QuotientUnique(-n, d, -q, -r);
    }
  }

  lemma MulLess(a: int, b: int, d: int)
    requires d > 0
    ensures a < b ==> a * d + d <= b * d
  {
    if a < b {
      assert (b - a - 1) * d >= 0;
    }
  }

  lemma QuotientUnique(n: int, d: int, q: int, r: int)
    requires d > 0 && n == q * d + r && 0 <= r < d
    ensures n / d == q
  {
    MulLess(n / d, q, d);
    MulLess(q, n / d, d);
  }

  /** The rounded quotient is a nearest one, and the larger of two. */
  lemma RoundingDivIsNearest(n: int, d: int)
    requires d > 0
    ensures var r := RoundingDiv(n, d);
            2 * (Abs(r) * d) - d <= 2 * Abs(n) < 2 * (Abs(r) * d) + d
    ensures n >= 0 ==> RoundingDiv(n, d) >= 0
    ensures n <= 0 ==> RoundingDiv(n, d) <= 0
  {
    hide RoundingDiv, TruncDiv, TruncMod;
    var q := (Abs(n) + d / 2) / d;
    RoundedMagnitude(n, d);
    assert Abs(RoundingDiv(n, d)) == q;
    HalfAway(Abs(n), d, q * d);
  }

  lemma HalfAway(n: nat, d: int, product: int)
    requires d > 0 && product <= n + d / 2 < product + d
    ensures 2 * product - d <= 2 * n < 2 * product + d
  {
  }

  lemma RoundedMagnitude(n: int, d: int)
    requires d > 0
    ensures RoundingDiv(n, d) == if n >= 0 then (n + d / 2) / d else -((-n + d / 2) / d)
    ensures var q := (Abs(n) + d / 2) / d; q >= 0 && q * d <= Abs(n) + d / 2 < q * d + d
  {
    TruncDivMeaning(Abs(n) + d / 2, d);
  }

  // ---------------------------------------------------------------------
  // Units
  // ---------------------------------------------------------------------

  /** How a unit is counted when days fold into microseconds. */
  datatype UnitScale = Month | Months(perUnit: int) | Micros(perUnit: int)

  function UnitScaleOf(word: string): Option<UnitScale> {
    if word in ["microsecond", "microseconds", "us", "usec", "usecs", "useconds"] then Some(Micros(1))
    else if word in ["millisecond", "milliseconds", "ms", "msec", "msecs", "mseconds"] then Some(Micros(1_000))
    else if word in ["second", "seconds", "sec", "secs", "s"] then Some(Micros(MICROS_PER_SECOND))
    else if word in ["minute", "minutes", "min", "mins", "m"] then Some(Micros(MICROS_PER_MINUTE))
    else if word in ["hour", "hours", "hr", "hrs", "h"] then Some(Micros(MICROS_PER_HOUR))
    else if word in ["day", "days", "d"] then Some(Micros(MICROS_PER_DAY))
    else if word in ["week", "weeks", "w"] then Some(Micros(7 * MICROS_PER_DAY))
    else if word in ["month", "months", "mon", "mons"] then Some(Month)
    else if word in ["year", "years", "yr", "yrs", "y"] then Some(Months(12))
    else if word in ["decade", "decades", "dec", "decs"] then Some(Months(120))
    else if word in ["century", "centuries", "cent"] then Some(Months(1_200))
    else if word in ["millennium", "millennia", "mil", "mils"] then Some(Months(12_000))
    else None
  }

  /** The scales of a literal, which keeps days apart. */
  datatype LiteralScale = WholeMonths(perUnit: int) | OneMonth | Days(perUnit: int) | Time(perUnit: int)

  function LiteralScaleOf(word: string): Option<LiteralScale> {
    if word in ["day", "days", "d"] then Some(Days(1))
    else if word in ["week", "weeks", "w"] then Some(Days(7))
    else match UnitScaleOf(word)
         case Some(Month) => Some(OneMonth)
         case Some(Months(perUnit)) => Some(WholeMonths(perUnit))
         case Some(Micros(perUnit)) => Some(Time(perUnit))
         case None => None
  }

  /** The scale that counts what `scale` counts, days folded into time. */
  function Folded(scale: LiteralScale): UnitScale {
    match scale
    case WholeMonths(perUnit) => Months(perUnit)
    case OneMonth => Month
    case Days(perUnit) => Micros(perUnit * MICROS_PER_DAY)
    case Time(perUnit) => Micros(perUnit)
  }

  /** Both accumulators know the same unit words, with the same meanings. */
  lemma ScalesCorrespond(word: string)
    ensures UnitScaleOf(word) == match LiteralScaleOf(word) case Some(scale) => Some(Folded(scale)) case None => None
  {
    assert ["day", "days", "d"] == ["day"] + ["days", "d"];
  }

  // ---------------------------------------------------------------------
  // The accumulators
  // ---------------------------------------------------------------------

  /** A written count. */
  datatype Decimal = Decimal(numerator: int, denominator: int)

  type Count = d: Decimal | d.denominator > 0 witness Decimal(0, 1)

  datatype FoldedCounts = FoldedCounts(months: int, micros: int) {
    function Add(count: Count, scale: UnitScale): FoldedCounts {
      match scale
      case Months(perUnit) => this.(months := months + RoundingDiv(count.numerator * perUnit, count.denominator))
      case Month =>
        var whole := TruncDiv(count.numerator, count.denominator);
        var remainder := count.numerator - whole * count.denominator;
        FoldedCounts(months + whole, micros
          + TruncDiv(remainder * (DAYS_PER_FRACTIONAL_MONTH * MICROS_PER_DAY), count.denominator))
      case Micros(perUnit) => this.(micros := micros + TruncDiv(count.numerator * perUnit, count.denominator))
    }
  }

  datatype Counts = Counts(months: int, days: int, micros: int) {
    function Add(count: Count, scale: LiteralScale): Counts {
      match scale
      case WholeMonths(perUnit) => this.(months := months + RoundingDiv(count.numerator * perUnit, count.denominator))
      case OneMonth =>
        var whole := TruncDiv(count.numerator, count.denominator);
        var remainder := count.numerator - whole * count.denominator;
        this.(months := months + whole)
            .AddMicros(TruncDiv(remainder * (DAYS_PER_FRACTIONAL_MONTH * MICROS_PER_DAY), count.denominator))
      case Days(perUnit) =>
        var scaled := count.numerator * perUnit;
        var whole := TruncDiv(scaled, count.denominator);
        var remainder := scaled - whole * count.denominator;
        Counts(months, days + whole, micros + TruncDiv(remainder * MICROS_PER_DAY, count.denominator))
      case Time(perUnit) => this.(micros := micros + TruncDiv(count.numerator * perUnit, count.denominator))
    }

    /** Carries whole days out of microseconds. */
    function AddMicros(more: int): Counts {
      this.(days := days + TruncDiv(more, MICROS_PER_DAY), micros := micros + TruncMod(more, MICROS_PER_DAY))
    }

    function Negate(): Counts {
      Counts(-months, -days, -micros)
    }

    function Fold(): FoldedCounts {
      FoldedCounts(months, days * MICROS_PER_DAY + micros)
    }
  }

  /** Truncating a scaled fraction is scaling its whole part and truncating
      the rest, whatever the sign. */
  lemma SplitThenScale(n: int, d: int, k: int)
    requires d > 0 && k > 0
    ensures TruncDiv(n * k, d) == TruncDiv(n, d) * k + TruncDiv(TruncMod(n, d) * k, d)
  {
    hide TruncDiv, TruncMod;
    TruncDivMeaning(n, d);
    var q, r := TruncDiv(n, d), TruncMod(n, d);
    SignOfProduct(r, k);
    SignOfProduct(n, k);
    TruncDivMeaning(r * k, d);
    var q', r' := TruncDiv(r * k, d), TruncMod(r * k, d);
    Regroup(q, d, r, k);
    TruncDivUnique(n * k, d, q * k + q', r');
  }

  lemma SignOfProduct(n: int, k: int)
    requires k > 0
    ensures n >= 0 ==> n * k >= 0
    ensures n <= 0 ==> n * k <= 0
  {
  }

  lemma Regroup(q: int, d: int, r: int, k: int)
    ensures (q * d + r) * k == (q * k) * d + r * k
    ensures forall q' :: (q * k + q') * d == (q * k) * d + q' * d
  {
    assert (q * d) * k == (q * k) * d;
  }

  /** Adding a count keeps days apart without changing what they come to. */
  lemma AddAgrees(fields: Counts, count: Count, scale: LiteralScale)
    ensures fields.Add(count, scale).Fold() == fields.Fold().Add(count, Folded(scale))
  {
    match scale
    case Days(perUnit) =>
      SplitThenScale(count.numerator * perUnit, count.denominator, MICROS_PER_DAY);
      assert count.numerator * perUnit * MICROS_PER_DAY == count.numerator * (perUnit * MICROS_PER_DAY);
    case _ =>
  }

  /** A list of written counts, each with its unit word. */
  type Written = seq<(Count, string)>

  /** What the modifiers' accumulator holds, or nothing for an unknown unit. */
  function FoldedTotal(written: Written): Option<FoldedCounts> {
    if |written| == 0 then Some(FoldedCounts(0, 0))
    else match (FoldedTotal(written[..|written| - 1]), UnitScaleOf(written[|written| - 1].1))
         case (Some(before), Some(scale)) => Some(before.Add(written[|written| - 1].0, scale))
         case _ => None
  }

  function Total(written: Written): Option<Counts> {
    if |written| == 0 then Some(Counts(0, 0, 0))
    else match (Total(written[..|written| - 1]), LiteralScaleOf(written[|written| - 1].1))
         case (Some(before), Some(scale)) => Some(before.Add(written[|written| - 1].0, scale))
         case _ => None
  }

  /** The two accumulators agree on every list of written counts. */
  lemma {:induction false} AccumulatorsAgree(written: Written)
    ensures FoldedTotal(written) == match Total(written) case Some(fields) => Some(fields.Fold()) case None => None
  {
    if |written| > 0 {
      var (count, word) := written[|written| - 1];
      AccumulatorsAgree(written[..|written| - 1]);
      ScalesCorrespond(word);
      if LiteralScaleOf(word).Some? && Total(written[..|written| - 1]).Some? {
        AddAgrees(Total(written[..|written| - 1]).value, count, LiteralScaleOf(word).value);
      }
    }
  }

  // ---------------------------------------------------------------------
  // The modifiers, and how SQLite reads them
  // ---------------------------------------------------------------------

  /** A count with its sign always written. */
  function Signed(count: int, unit: string): string {
    (if count < 0 then "-" else "+") + Digits(Abs(count)) + " " + unit
  }

  /** A single modifier for the time, in hours, minutes or seconds, whichever is the
      largest unit it is a multiple of. */
  function TimeModifier(micros: int): string {
    if TruncMod(micros, MICROS_PER_HOUR) == 0 then Signed(TruncDiv(micros, MICROS_PER_HOUR), "hours")
    else if TruncMod(micros, MICROS_PER_MINUTE) == 0 then Signed(TruncDiv(micros, MICROS_PER_MINUTE), "minutes")
    else if TruncMod(micros, MICROS_PER_SECOND) == 0 then Signed(TruncDiv(micros, MICROS_PER_SECOND), "seconds")
    else
      (if micros < 0 then "-" else "+") + Digits(Abs(micros) / MICROS_PER_SECOND) + "."
      + TrimZeros(Pad(Abs(micros) % MICROS_PER_SECOND, 6)) + " seconds"
  }

  /** What a list of modifiers moves a date by. */
  datatype Reading = Reading(months: int, days: int, micros: int) {
    function Plus(other: Reading): Reading {
      Reading(months + other.months, days + other.days, micros + other.micros)
    }
  }

  /** An unsigned decimal of at most six places, in millionths. */
  function ReadMillionths(s: string): Option<nat> {
    match SplitOnce(s, '.')
    case None => if |s| > 0 && AllDigits(s) then Some(Value(s) * 1_000_000) else None
    case Some((whole, fraction)) =>
      if |whole| > 0 && AllDigits(whole) && 0 < |fraction| <= 6 && AllDigits(fraction)
      then Some(Value(whole) * 1_000_000 + Value(fraction) * Pow10(6 - |fraction|))
      else None
  }

  function ReadModifier(modifier: string): Option<Reading> {
    if modifier == "floor" then Some(Reading(0, 0, 0))
    else if |modifier| == 0 || modifier[0] !in "+-" then None
    else
      match SplitOnce(modifier[1..], ' ')
      case None => None
      case Some((number, unit)) =>
        match ReadMillionths(number)
        case None => None
        case Some(v) => ReadUnit(if modifier[0] == '-' then -(v as int) else v as int, unit)
  }

  function ReadUnit(millionths: int, unit: string): Option<Reading> {
    if unit == "months" && millionths % 1_000_000 == 0 then Some(Reading(millionths / 1_000_000, 0, 0))
    else if unit == "days" && millionths % 1_000_000 == 0 then Some(Reading(0, millionths / 1_000_000, 0))
    else if unit == "hours" then Some(Reading(0, 0, millionths * 3_600))
    else if unit == "minutes" then Some(Reading(0, 0, millionths * 60))
    else if unit == "seconds" then Some(Reading(0, 0, millionths))
    else None
  }

  function ReadAll(modifiers: seq<string>): Option<Reading> {
    if |modifiers| == 0 then Some(Reading(0, 0, 0))
    else match (ReadAll(modifiers[..|modifiers| - 1]), ReadModifier(modifiers[|modifiers| - 1]))
         case (Some(before), Some(last)) => Some(before.Plus(last))
         case _ => None
  }

  lemma ReadOneMore(modifiers: seq<string>, last: string)
    requires ReadAll(modifiers).Some? && ReadModifier(last).Some?
    ensures ReadAll(modifiers + [last]) == Some(ReadAll(modifiers).value.Plus(ReadModifier(last).value))
  {
    hide ReadModifier;
    assert (modifiers + [last])[..|modifiers|] == modifiers;
  }

  /** A signed number and a unit, read back. */
  lemma SignedNumberReads(negative: bool, number: string, unit: string)
    requires !Contains(number, ' ') && ReadMillionths(number).Some?
    ensures var v := ReadMillionths(number).value;
            ReadModifier((if negative then "-" else "+") + number + " " + unit)
              == ReadUnit(if negative then -(v as int) else v as int, unit)
  {
    var m := (if negative then "-" else "+") + number + " " + unit;
    SplitAllAt(number, ' ', unit);
    assert m[1..] == number + [' '] + unit;
    assert m[0] != 'f';
  }

  lemma SignedReads(count: int, unit: string)
    ensures ReadModifier(Signed(count, unit)) == ReadUnit(count * 1_000_000, unit)
  {
    var number := Digits(Abs(count));
    DigitsHoldNoOther(number, ' ');
    DigitsHoldNoOther(number, '.');
    SplitNowhere(number, '.');
    ValueOfDigits(Abs(count));
    SignedNumberReads(count < 0, number, unit);
  }

  lemma EmptyValue(s: string)
    requires AllDigits(s)
    ensures |s| == 0 ==> Value(s) == 0
  {
  }

  /** Six padded digits with their trailing zeros dropped still spell the
      fraction. */
  lemma FractionTrims(fraction: nat)
    requires 0 < fraction < 1_000_000
    ensures var t := TrimZeros(Pad(fraction, 6));
            AllDigits(t) && 0 < |t| <= 6 && Value(t) * Pow10(6 - |t|) == fraction
  {
    assert Pow10(6) == 1_000_000 by { assert Pow10(3) == 1_000; assert Pow10(5) == 100_000; }
    PadLength(fraction, 6);
    ValueOfPad(fraction, 6);
    TrimmedValue(Pad(fraction, 6));
    EmptyValue(TrimZeros(Pad(fraction, 6)));
  }

  function SecondsText(magnitude: nat): string {
    Digits(magnitude / MICROS_PER_SECOND) + "." + TrimZeros(Pad(magnitude % MICROS_PER_SECOND, 6))
  }

  lemma FractionReads(magnitude: nat)
    requires magnitude % MICROS_PER_SECOND != 0
    ensures !Contains(SecondsText(magnitude), ' ') && ReadMillionths(SecondsText(magnitude)) == Some(magnitude)
  {
    hide Digits, Pad, TrimZeros, Value, Pow10;
    var whole, fraction := Digits(magnitude / MICROS_PER_SECOND), TrimZeros(Pad(magnitude % MICROS_PER_SECOND, 6));
    FractionTrims(magnitude % MICROS_PER_SECOND);
    DigitsHoldNoOther(whole, '.');
    SplitAllAt(whole, '.', fraction);
    ValueOfDigits(magnitude / MICROS_PER_SECOND);
  }

  lemma SecondsRead(micros: int)
    requires Abs(micros) % MICROS_PER_SECOND != 0
    ensures ReadModifier((if micros < 0 then "-" else "+") + SecondsText(Abs(micros)) + " " + "seconds")
        == Some(Reading(0, 0, micros))
  {
    hide SecondsText, ReadModifier, ReadMillionths;
    FractionReads(Abs(micros));
    SignedNumberReads(micros < 0, SecondsText(Abs(micros)), "seconds");
  }

  lemma WholeUnits(micros: int, per: int)
    requires per > 0 && TruncMod(micros, per) == 0
    ensures TruncDiv(micros, per) * per == micros
  {
  }

  /** Whatever unit the time is written in, it reads back as it was. */
  lemma TimeReads(micros: int)
    ensures ReadModifier(TimeModifier(micros)) == Some(Reading(0, 0, micros))
  {
    hide ReadModifier, Signed, Digits, TrimZeros, Pad, TruncDiv, TruncMod;
    if TruncMod(micros, MICROS_PER_HOUR) == 0 {
      WholeUnits(micros, MICROS_PER_HOUR);
      SignedReads(TruncDiv(micros, MICROS_PER_HOUR), "hours");
    } else if TruncMod(micros, MICROS_PER_MINUTE) == 0 {
      WholeUnits(micros, MICROS_PER_MINUTE);
      SignedReads(TruncDiv(micros, MICROS_PER_MINUTE), "minutes");
    } else if TruncMod(micros, MICROS_PER_SECOND) == 0 {
      WholeUnits(micros, MICROS_PER_SECOND);
      SignedReads(TruncDiv(micros, MICROS_PER_SECOND), "seconds");
    } else {
      TruncModMagnitude(micros, MICROS_PER_SECOND);
      SecondsRead(micros);
      assert TimeModifier(micros) == (if micros < 0 then "-" else "+") + SecondsText(Abs(micros)) + " " + "seconds";
    }
  }

  lemma TruncModMagnitude(n: int, d: int)
    requires d > 0
    ensures Abs(TruncMod(n, d)) == Abs(n) % d && Abs(TruncDiv(n, d)) == Abs(n) / d
  {
    TruncDivMeaning(n, d);
  }

  /** The modifiers of three counts: months with their clamp, days, time. */
  function ModifiersOf(months: int, days: int, time: int): seq<string> {
    (if months != 0 then [Signed(months, "months"), "floor"] else [])
    + (if days != 0 then [Signed(days, "days")] else [])
    + (if time != 0 then [TimeModifier(time)] else [])
  }

  /** SQLite reads back exactly the counts the modifiers were made of. */
  lemma ModifiersRead(months: int, days: int, time: int)
    ensures ReadAll(ModifiersOf(months, days, time)) == Some(Reading(months, days, time))
  {
    hide ReadModifier, Signed, TimeModifier, ReadAll;
    var first: seq<string> := if months != 0 then [Signed(months, "months"), "floor"] else [];
    ReadNone();
    if months != 0 {
      SignedReads(months, "months");
      ReadOneMore([], Signed(months, "months"));
      assert [] + [Signed(months, "months")] == [Signed(months, "months")];
      ReadOneMore([Signed(months, "months")], "floor");
      assert ReadUnit(months * 1_000_000, "months") == Some(Reading(months, 0, 0));
      assert first == [Signed(months, "months")] + ["floor"];
    }
    assert ReadAll(first) == Some(Reading(months, 0, 0));
    var second := first + if days != 0 then [Signed(days, "days")] else [];
    if days != 0 {
      SignedReads(days, "days");
      ReadOneMore(first, Signed(days, "days"));
    } else {
      assert second == first;
    }
    assert ReadAll(second) == Some(Reading(months, days, 0));
    TimeReads(time);
    if time != 0 {
      ReadOneMore(second, TimeModifier(time));
    } else {
      assert ModifiersOf(months, days, time) == second;
    }
  }

  lemma ReadNone()
    ensures ReadAll([]) == Some(Reading(0, 0, 0)) && ReadModifier("floor") == Some(Reading(0, 0, 0))
  {
  }

  /** Splitting the microseconds for the modifiers loses none of them: days
      and time sum back, agree in sign, and the time is under one day. */
  lemma ModifiersConserve(fields: FoldedCounts)
    ensures var days, time := TruncDiv(fields.micros, MICROS_PER_DAY), TruncMod(fields.micros, MICROS_PER_DAY);
            && ReadAll(ModifiersOf(fields.months, days, time)) == Some(Reading(fields.months, days, time))
            && days * MICROS_PER_DAY + time == fields.micros
            && Abs(time) < MICROS_PER_DAY
            && (fields.micros >= 0 ==> days >= 0 && time >= 0)
            && (fields.micros <= 0 ==> days <= 0 && time <= 0)
  {
    ModifiersRead(fields.months, TruncDiv(fields.micros, MICROS_PER_DAY), TruncMod(fields.micros, MICROS_PER_DAY));
    TruncDivMeaning(fields.micros, MICROS_PER_DAY);
  }

  class IntervalFields {
    var months: int
    var micros: int

    constructor ()
      ensures Held() == FoldedCounts(0, 0)
    {
      months, micros := 0, 0;
    }

    function Held(): FoldedCounts
      reads this
    {
      FoldedCounts(months, micros)
    }

    method Add(count: Count, scale: UnitScale)
      modifies this
      ensures Held() == old(Held()).Add(count, scale)
    {
      match scale {
        case Months(perUnit) =>
          months := months + RoundingDiv(count.numerator * perUnit, count.denominator);
        case Month =>
          var whole := TruncDiv(count.numerator, count.denominator);
          months := months + whole;
          var remainder := count.numerator - whole * count.denominator;
          micros := micros + TruncDiv(remainder * (DAYS_PER_FRACTIONAL_MONTH * MICROS_PER_DAY), count.denominator);
        case Micros(perUnit) =>
          micros := micros + TruncDiv(count.numerator * perUnit, count.denominator);
      }
    }

    method Negate()
      modifies this
      ensures months == -old(months) && micros == -old(micros)
    {
      months := -months;
      micros := -micros;
    }

    method Scale(factor: int)
      modifies this
      ensures months == old(months) * factor && micros == old(micros) * factor
    {
      months := months * factor;
      micros := micros * factor;
    }

    /** Months first, then days, then the time. */
    method Modifiers() returns (modifiers: seq<string>)
      ensures modifiers == ModifiersOf(months, TruncDiv(micros, MICROS_PER_DAY), TruncMod(micros, MICROS_PER_DAY))
    {
      var days := TruncDiv(micros, MICROS_PER_DAY);
      var time := TruncMod(micros, MICROS_PER_DAY);
      modifiers := [];
      if months != 0 {
        modifiers := modifiers + [Signed(months, "months")];
        modifiers := modifiers + ["floor"];
      }
      if days != 0 {
        modifiers := modifiers + [Signed(days, "days")];
      }
      if time != 0 {
        modifiers := modifiers + [TimeModifier(time)];
      }
    }
  }

  /** The modifiers shift a date by exactly these months and microseconds. */
  ghost predicate Spells(modifiers: seq<string>, months: int, micros: int) {
    exists days: int, time: int :: SpellsSplit(modifiers, months, micros, days, time)
  }

  ghost predicate SpellsSplit(modifiers: seq<string>, months: int, micros: int, days: int, time: int) {
    ReadAll(modifiers) == Some(Reading(months, days, time)) && days * MICROS_PER_DAY + time == micros
      && Abs(time) < MICROS_PER_DAY
  }
}
