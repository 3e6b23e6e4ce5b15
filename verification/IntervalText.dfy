/** Interval literals: the text the translator gives one, and the notations it
    reads, among them the duration form of ISO 8601:2004 section 4.4.3.2.

    The theorem is that printing and reading undo each other, so normalising a
    literal twice is normalising it once. */
module IntervalText {
  import opened Wrappers
  import opened Text
  import opened Interval

  /** Why a literal is refused. */
  datatype Unreadable =
    | NoCount(unit: string)
    | NoUnit(count: string)
    | NotANumber(count: string)
    | NotAUnit(unit: string)
    | ClockParts
    | NoDesignator
    | BadDesignator(designator: char)

  // ---------------------------------------------------------------------
  // Printing
  // ---------------------------------------------------------------------

  /** Hours, minutes and seconds, signed as a whole; the hours may exceed a day. */
  function ClockText(micros: int): string {
    var magnitude := Abs(micros);
    var seconds, fraction := magnitude / MICROS_PER_SECOND, magnitude % MICROS_PER_SECOND;
    var clock := (if micros < 0 then "-" else "") + Pad(seconds / 3_600, 2) + ":" + Pad(seconds % 3_600 / 60, 2) + ":"
      + Pad(seconds % 60, 2);
    if fraction == 0 then clock else clock + "." + TrimZeros(Pad(fraction, 6))
  }

  function CountText(count: int, one: string, many: string): string {
    IntText(count) + " " + if count == 1 then one else many
  }

  function PartsOf(fields: Counts): seq<string> {
    var years, months := TruncDiv(fields.months, 12), TruncMod(fields.months, 12);
    var parts :=
      (if years != 0 then [CountText(years, "year", "years")] else [])
      + (if months != 0 then [CountText(months, "mon", "mons")] else [])
      + (if fields.days != 0 then [CountText(fields.days, "day", "days")] else []);
    if fields.micros != 0 || |parts| == 0 then parts + [ClockText(fields.micros)] else parts
  }

  /** The fields that are not zero, largest first, each with its own minus sign. */
  function ToPostgresText(fields: Counts): string {
    Join(PartsOf(fields))
  }

  // ---------------------------------------------------------------------
  // Reading
  // ---------------------------------------------------------------------

  /** `+1`, `-2.5`, `.5`, `3.` and nothing else. */
  function ParseDecimal(text: string): Option<Count> {
    if |text| == 0 then None
    else
      var negative := text[0] == '-';
      var digits := if text[0] == '-' || text[0] == '+' then text[1..] else text;
      var (whole, fraction) := match SplitOnce(digits, '.') case Some(split) => split case None => (digits, "");
      if (whole == "" && fraction == "") || !AllDigits(whole + fraction) then None
      else
        var numerator: int := Value(whole + fraction);
        Some(Decimal(if negative then -numerator else numerator, Pow10(|fraction|)))
  }

  function AddUnit(fields: Counts, count: string, unit: string): Result<Counts, Unreadable> {
    match ParseDecimal(count)
    case None => Err(NotANumber(count))
    case Some(parsed) =>
      match LiteralScaleOf(Lower(unit))
      case None => Err(NotAUnit(unit))
      case Some(scale) => Ok(fields.Add(parsed, scale))
  }

  /** A count and the unit written against it, if one is. */
  function SplitCountAndUnit(token: string): (string, Option<string>) {
    match FirstLetter(token)
    case Some(i) => (token[..i], Some(token[i..]))
    case None => (token, None)
  }

  function FirstLetter(s: string): (r: Option<nat>)
    ensures r.Some? ==> r.value < |s| && IsAlphabetic(s[r.value])
    ensures r.Some? ==> forall i :: 0 <= i < r.value ==> !IsAlphabetic(s[i])
    ensures r.None? ==> forall i :: 0 <= i < |s| ==> !IsAlphabetic(s[i])
  {
    if |s| == 0 then None
    else if IsAlphabetic(s[0]) then Some(0)
    else match FirstLetter(s[1..])
         case None => assert forall i :: 0 < i < |s| ==> s[i] == s[1..][i - 1]; None
         case Some(i) => assert forall j :: 0 < j <= i ==> s[j] == s[1..][j - 1]; Some(i + 1)
  }

  /** Adds a `HH:MM[:SS[.f]]` token, a bare count before it being days. */
  function AddClock(fields: Counts, leadingDays: Option<string>, token: string): Result<Counts, Unreadable> {
    var fields :- if leadingDays.Some? then AddUnit(fields, leadingDays.value, "days") else Ok(fields);
    var clock := if |token| > 0 && (token[0] == '-' || token[0] == '+') then token[1..] else token;
    var parts := SplitAll(clock, ':');
    if |parts| > 3 then Err(ClockParts)
    else
      var hours :- AddUnit(Counts(0, 0, 0), parts[0], "hours");
      var minutes :- AddUnit(hours, if |parts| > 1 then parts[1] else "", "minutes");
      var seconds :- AddUnit(minutes, if |parts| > 2 then parts[2] else "0", "seconds");
      Ok(fields.(micros := fields.micros + if |token| > 0 && token[0] == '-' then -seconds.micros else seconds.micros))
  }

  /** The tokens of a literal, `pending` being a count whose unit is to come. */
  function ParseTokens(tokens: seq<string>, pending: Option<string>, fields: Counts): Result<Counts, Unreadable> {
    if |tokens| == 0 then
      if pending.Some? then AddUnit(fields, pending.value, "seconds") else Ok(fields)
    else
      var token, rest := tokens[0], tokens[1..];
      if Contains(token, ':') then
        var fields :- AddClock(fields, pending, token);
        ParseTokens(rest, None, fields)
      else
        match SplitCountAndUnit(token)
        case (count, Some(unit)) =>
          if count == "" then
            if pending.None? then Err(NoCount(unit))
            else
              var fields :- AddUnit(fields, pending.value, unit);
              ParseTokens(rest, None, fields)
          else
            var fields :- if pending.Some? then AddUnit(fields, pending.value, "seconds") else Ok(fields);
            var fields :- AddUnit(fields, count, unit);
            ParseTokens(rest, None, fields)
        case (count, None) =>
          if pending.Some? then Err(NoUnit(pending.value)) else ParseTokens(rest, Some(count), fields)
  }

  /** Years and months joined by a hyphen. */
  function ParseYearMonth(body: string): Option<Counts> {
    var negative := |body| > 0 && body[0] == '-';
    var digits := if |body| > 0 && (body[0] == '-' || body[0] == '+') then body[1..] else body;
    match SplitOnce(digits, '-')
    case None => None
    case Some((years, months)) =>
      if years == "" || months == "" || !AllDigits(years) || !AllDigits(months) then None
      else
        var total := Value(years) * 12 + Value(months);
        Some(Counts(if negative then -total else total, 0, 0))
  }

  /** The unit a designator stands for; for an M this depends on the side of the T
      it is on. */
  function DesignatedUnit(designator: char, inTime: bool): Option<string> {
    match LowerChar(designator)
    case 'y' => Some("years")
    case 'm' => Some(if inTime then "minutes" else "months")
    case 'w' => Some("weeks")
    case 'd' => Some("days")
    case 'h' => if inTime then Some("hours") else None
    case 's' => if inTime then Some("seconds") else None
    case _ => None
  }

  /** An ISO 8601 duration after its `P`. */
  function ParseIso(rest: string, inTime: bool, fields: Counts): Result<Counts, Unreadable>
    decreases |rest|
  {
    if rest == "" then Ok(fields)
    else if LowerChar(rest[0]) == 't' then ParseIso(rest[1..], true, fields)
    else
      match FirstLetter(rest)
      case None => Err(NoDesignator)
      case Some(at) =>
        match DesignatedUnit(rest[at], inTime)
        case None => Err(BadDesignator(rest[at]))
        case Some(unit) =>
          var fields :- AddUnit(fields, rest[..at], unit);
          ParseIso(rest[at + 1..], inTime, fields)
  }

  /** What a literal says, in whichever notation it is in. */
  function ParseFields(body: string): Result<Counts, Unreadable> {
    if |body| > 0 && LowerChar(body[0]) == 'p' then ParseIso(body[1..], false, Counts(0, 0, 0))
    else
      match ParseYearMonth(body)
      case Some(fields) => Ok(fields)
      case None => ParseTokens(Words(body), None, Counts(0, 0, 0))
  }

  /** The body of a literal and whether `ago` negates it. */
  function BodyOf(text: string): (string, bool) {
    var trimmed := Trim(text);
    var body := Trim(if |trimmed| > 0 && trimmed[0] == '@' then trimmed[1..] else trimmed);
    if EndsWith(Lower(body), "ago") && (|body| == 3 || body[|body| - 4] == ' ') then (Trim(body[..|body| - 3]), true)
      else (Trim(body), false)
  }

  /** A literal rewritten as the text of the counts it holds. */
  function Normalize(text: string): Result<string, Unreadable> {
    var (body, negated) := BodyOf(text);
    var fields :- ParseFields(body);
    Ok(ToPostgresText(if negated then fields.Negate() else fields))
  }

  // ---------------------------------------------------------------------
  // Printed numbers read back
  // ---------------------------------------------------------------------

  lemma DigitsParse(s: string)
    requires AllDigits(s) && |s| > 0
    ensures ParseDecimal(s) == Some(Decimal(Value(s), 1))
    ensures ParseDecimal("-" + s) == Some(Decimal(-(Value(s) as int), 1))
  {
    hide Value, SplitOnce, SplitAll, Contains;
    DigitsHoldNoOther(s, '.');
    SplitNowhere(s, '.');
    assert ("-" + s)[1..] == s;
    assert s + "" == s;
  }

  lemma IntTextParses(i: int)
    ensures ParseDecimal(IntText(i)) == Some(Decimal(i, 1))
  {
    ValueOfDigits(Abs(i));
    DigitsParse(Digits(Abs(i)));
  }

  lemma SplitParses(text: string, whole: string, fraction: string)
    requires |text| > 0 && text[0] != '-' && text[0] != '+' && SplitOnce(text, '.') == Some((whole, fraction))
    requires |whole| > 0 && AllDigits(whole) && AllDigits(fraction)
    ensures ParseDecimal(text) == Some(Decimal(Value(whole) * Pow10(|fraction|) + Value(fraction), Pow10(|fraction|)))
  {
    hide Value, Pow10, SplitOnce;
    ValueOfConcat(whole, fraction);
  }

  lemma FractionParses(whole: string, fraction: string)
    requires AllDigits(whole) && |whole| > 0 && AllDigits(fraction)
    ensures ParseDecimal(whole + "." + fraction)
        == Some(Decimal(Value(whole) * Pow10(|fraction|) + Value(fraction), Pow10(|fraction|)))
  {
    hide Value, Pow10, SplitOnce, ParseDecimal;
    DigitsHoldNoOther(whole, '.');
    SplitAllAt(whole, '.', fraction);
    assert (whole + "." + fraction)[0] == whole[0];
    SplitParses(whole + "." + fraction, whole, fraction);
  }

  lemma DivByOne(n: int)
    ensures TruncDiv(n, 1) == n && RoundingDiv(n, 1) == n
  {
  }

  /** Adding a whole count is adding it. */
  lemma WholeCountsAdd(fields: Counts, count: int, per: int)
    ensures fields.Add(Decimal(count, 1), WholeMonths(per)) == fields.(months := fields.months + count * per)
    ensures fields.Add(Decimal(count, 1), OneMonth) == fields.(months := fields.months + count)
    ensures fields.Add(Decimal(count, 1), Days(1)) == fields.(days := fields.days + count)
    ensures fields.Add(Decimal(count, 1), Time(per)) == fields.(micros := fields.micros + count * per)
  {
    hide TruncDiv, TruncMod, RoundingDiv;
    DivByOne(count * per);
    DivByOne(count);
    DivByOne(0);
    DivByOne(count * 1);
    NothingCarries();
  }

  lemma NothingCarries()
    ensures TruncDiv(0, MICROS_PER_DAY) == 0 && TruncMod(0, MICROS_PER_DAY) == 0
  {
  }

  /** A unit word no clock, counting `scale`. */
  predicate UnitReads(unit: string, scale: LiteralScale) {
    |unit| > 0 && IsAlphabetic(unit[0]) && !Contains(unit, ':') && LiteralScaleOf(Lower(unit)) == Some(scale)
  }

  /** One printed count and its unit are one count added. */
  lemma CountReads(fields: Counts, count: int, unit: string, scale: LiteralScale, rest: seq<string>)
    requires UnitReads(unit, scale)
    ensures ParseTokens([IntText(count), unit] + rest, None, fields)
        == ParseTokens(rest, None, fields.Add(Decimal(count, 1), scale))
  {
    hide LiteralScaleOf, AddClock, ParseDecimal, Lower;
    var text := IntText(count);
    IntTextParses(count);
    assert !Contains(text, ':') && FirstLetter(text).None?;
    assert FirstLetter(unit) == Some(0) && unit[..0] == "" && unit[0..] == unit;
    var tokens := [text, unit] + rest;
    assert tokens[1..] == [unit] + rest && ([unit] + rest)[1..] == rest;
    assert ParseTokens(tokens, None, fields) == ParseTokens([unit] + rest, Some(text), fields);
    assert AddUnit(fields, text, unit) == Ok(fields.Add(Decimal(count, 1), scale));
  }

  // ---------------------------------------------------------------------
  // The clock
  // ---------------------------------------------------------------------

  /** The seconds part of a clock, with whatever fraction is printed. */
  function SecondsPart(magnitude: nat): string {
    var second, fraction := Pad(magnitude / MICROS_PER_SECOND % 60, 2), magnitude % MICROS_PER_SECOND;
    if fraction == 0 then second else second + "." + TrimZeros(Pad(fraction, 6))
  }

  /** A printed fraction counts the microseconds it was printed from. */
  lemma FractionCounts(second: nat, fraction: nat)
    requires 0 < fraction < MICROS_PER_SECOND
    ensures var t := TrimZeros(Pad(fraction, 6));
            AllDigits(t)
            && TruncDiv((second * Pow10(|t|) + Value(t)) * MICROS_PER_SECOND, Pow10(|t|))
                == second * MICROS_PER_SECOND + fraction
  {
    hide TrimZeros, Pad, Value, TruncDiv, TruncMod;
    var t := TrimZeros(Pad(fraction, 6));
    FractionTrims(fraction);
    var p, q, v := Pow10(|t|), Pow10(6 - |t|), Value(t);
    Pow10Adds(|t|, 6 - |t|);
    SixPlaces();
    assert p * q == MICROS_PER_SECOND && v * q == fraction;
    ScaledSum(second, p, q, v);
    TruncDivUnique((second * p + v) * (p * q), p, second * (p * q) + v * q, 0);
  }

  lemma SixPlaces()
    ensures Pow10(6) == MICROS_PER_SECOND
  {
    assert Pow10(3) == 1_000;
    assert Pow10(5) == 100_000;
  }

  lemma ScaledSum(s: int, p: int, q: int, v: int)
    ensures (s * p + v) * (p * q) == (s * (p * q) + v * q) * p + 0
    ensures s >= 0 && p >= 0 && q >= 0 && v >= 0 ==> (s * p + v) * (p * q) >= 0
  {
    assert (s * p + v) * (p * q) == ((s * p + v) * q) * p;
    assert (s * p + v) * q == s * (p * q) + v * q;
  }

  lemma SecondsAdd(fields: Counts, magnitude: nat)
    ensures AddUnit(fields, SecondsPart(magnitude), "seconds")
         == Ok(fields.(micros := fields.micros + magnitude / MICROS_PER_SECOND % 60 * MICROS_PER_SECOND
           + magnitude % MICROS_PER_SECOND))
    ensures !Contains(SecondsPart(magnitude), ':')
  {
    hide TruncDiv, Pad, TrimZeros, Value, Pow10, ParseDecimal;
    var s, fraction := magnitude / MICROS_PER_SECOND % 60, magnitude % MICROS_PER_SECOND;
    SecondUnits();
    ValueOfPad(s, 2);
    if fraction == 0 {
      DigitsParse(Pad(s, 2));
      WholeCountsAdd(fields, s, MICROS_PER_SECOND);
    } else {
      FractionTrims(fraction);
      FractionParses(Pad(s, 2), TrimZeros(Pad(fraction, 6)));
      FractionCounts(s, fraction);
    }
  }

  lemma SecondUnits()
    ensures LiteralScaleOf(Lower("seconds")) == Some(Time(MICROS_PER_SECOND))
    ensures LiteralScaleOf(Lower("minutes")) == Some(Time(MICROS_PER_MINUTE))
    ensures LiteralScaleOf(Lower("hours")) == Some(Time(MICROS_PER_HOUR))
  {
    assert Lower("seconds") == "seconds" && Lower("minutes") == "minutes" && Lower("hours") == "hours";
  }

  lemma PaddedAdd(fields: Counts, n: nat, unit: string, per: int)
    requires LiteralScaleOf(Lower(unit)) == Some(Time(per))
    ensures AddUnit(fields, Pad(n, 2), unit) == Ok(fields.(micros := fields.micros + n * per))
  {
    hide LiteralScaleOf, ParseDecimal, Pad, Value;
    ValueOfPad(n, 2);
    DigitsParse(Pad(n, 2));
    WholeCountsAdd(fields, n, per);
  }

  /** The clock without its sign. */
  function UnsignedClock(magnitude: nat): string {
    var seconds := magnitude / MICROS_PER_SECOND;
    Pad(seconds / 3_600, 2) + ":" + (Pad(seconds % 3_600 / 60, 2) + ":" + SecondsPart(magnitude))
  }

  lemma ClockIsSigned(micros: int)
    ensures ClockText(micros) == (if micros < 0 then "-" else "") + UnsignedClock(Abs(micros))
  {
    hide Pad, TrimZeros;
    var magnitude := Abs(micros);
    assert magnitude / MICROS_PER_SECOND % 60 == magnitude / MICROS_PER_SECOND % 60;
  }

  lemma ThreeParts(h: string, m: string, s: string)
    requires !Contains(h, ':') && !Contains(m, ':') && !Contains(s, ':')
    ensures SplitAll(h + ":" + (m + ":" + s), ':') == [h, m, s]
  {
    hide Contains;
    SplitNowhere(s, ':');
    SplitAllAt(m, ':', s);
    SplitAllAt(h, ':', m + ":" + s);
    assert [h] + ([m] + [s]) == [h, m, s];
  }

  lemma ClockSplits(magnitude: nat)
    ensures var seconds := magnitude / MICROS_PER_SECOND;
            SplitAll(UnsignedClock(magnitude), ':')
              == [Pad(seconds / 3_600, 2), Pad(seconds % 3_600 / 60, 2), SecondsPart(magnitude)]
  {
    hide Pad, SecondsPart, Contains, SplitAll;
    var seconds := magnitude / MICROS_PER_SECOND;
    DigitsHoldNoOther(Pad(seconds / 3_600, 2), ':');
    DigitsHoldNoOther(Pad(seconds % 3_600 / 60, 2), ':');
    SecondsAdd(Counts(0, 0, 0), magnitude);
    ThreeParts(Pad(seconds / 3_600, 2), Pad(seconds % 3_600 / 60, 2), SecondsPart(magnitude));
  }

  /** The three parts add up to the magnitude. */
  lemma PartsAdd(magnitude: nat)
    ensures var seconds := magnitude / MICROS_PER_SECOND;
            var h := Counts(0, 0, seconds / 3_600 * MICROS_PER_HOUR);
            var m := Counts(0, 0, h.micros + seconds % 3_600 / 60 * MICROS_PER_MINUTE);
            && AddUnit(Counts(0, 0, 0), Pad(seconds / 3_600, 2), "hours") == Ok(h)
            && AddUnit(h, Pad(seconds % 3_600 / 60, 2), "minutes") == Ok(m)
            && AddUnit(m, SecondsPart(magnitude), "seconds") == Ok(Counts(0, 0, magnitude))
  {
    hide Pad, SecondsPart, AddUnit, LiteralScaleOf;
    var seconds := magnitude / MICROS_PER_SECOND;
    SecondUnits();
    PaddedAdd(Counts(0, 0, 0), seconds / 3_600, "hours", MICROS_PER_HOUR);
    PaddedAdd(Counts(0, 0, seconds / 3_600 * MICROS_PER_HOUR), seconds % 3_600 / 60, "minutes", MICROS_PER_MINUTE);
    SecondsAdd(Counts(0, 0, seconds / 3_600 * MICROS_PER_HOUR + seconds % 3_600 / 60 * MICROS_PER_MINUTE), magnitude);
    PartsSum(magnitude);
  }

  lemma PartsSum(magnitude: nat)
    ensures var seconds := magnitude / MICROS_PER_SECOND;
            seconds / 3_600 * MICROS_PER_HOUR + seconds % 3_600 / 60 * MICROS_PER_MINUTE
            + seconds % 60 * MICROS_PER_SECOND + magnitude % MICROS_PER_SECOND == magnitude
  {
    var seconds := magnitude / MICROS_PER_SECOND;
    SecondsSum(seconds);
    assert magnitude == seconds * MICROS_PER_SECOND + magnitude % MICROS_PER_SECOND;
  }

  lemma SecondsSum(seconds: nat)
    ensures seconds == seconds / 3_600 * 3_600 + seconds % 3_600 / 60 * 60 + seconds % 60
  {
    var rest := seconds % 3_600;
    assert rest == rest / 60 * 60 + rest % 60;
    assert rest % 60 == seconds % 60;
  }

  lemma SignedClockAdds(fields: Counts, negative: bool, unsigned: string, magnitude: nat)
    requires unsigned == UnsignedClock(magnitude) && |unsigned| > 0 && IsDigit(unsigned[0])
    ensures AddClock(fields, None, (if negative then "-" else "") + unsigned)
         == Ok(fields.(micros := fields.micros + if negative then -(magnitude as int) else magnitude))
  {
    hide Pad, SecondsPart, AddUnit, SplitAll, UnsignedClock;
    ClockSplits(magnitude);
    PartsAdd(magnitude);
    var token := (if negative then "-" else "") + unsigned;
    assert negative ==> token[1..] == unsigned;
    assert !negative ==> token == unsigned;
  }

  /** A printed clock adds exactly the microseconds it was printed from. */
  lemma ClockReads(fields: Counts, micros: int)
    ensures AddClock(fields, None, ClockText(micros)) == Ok(fields.(micros := fields.micros + micros))
    ensures Contains(ClockText(micros), ':')
  {
    hide AddClock, UnsignedClock, ClockText, Contains;
    ClockIsSigned(micros);
    ClockStarts(Abs(micros));
    SignedClockAdds(fields, micros < 0, UnsignedClock(Abs(micros)), Abs(micros));
  }

  lemma ClockStarts(magnitude: nat)
    ensures |UnsignedClock(magnitude)| > 0 && IsDigit(UnsignedClock(magnitude)[0])
    ensures forall sign :: Contains(sign + UnsignedClock(magnitude), ':')
  {
    var seconds := magnitude / MICROS_PER_SECOND;
    var h := Pad(seconds / 3_600, 2);
    forall sign: string ensures Contains(sign + UnsignedClock(magnitude), ':') {
      assert (sign + UnsignedClock(magnitude))[|sign| + |h|] == ':';
    }
  }

  // ---------------------------------------------------------------------
  // The whole text
  // ---------------------------------------------------------------------

  function CountWords(count: int, one: string, many: string): seq<string> {
    if count == 0 then [] else [IntText(count), if count == 1 then one else many]
  }

  function TimeWords(fields: Counts): seq<string> {
    if fields.micros != 0 || (fields.months == 0 && fields.days == 0) then [ClockText(fields.micros)] else []
  }

  /** The words of the printed text. */
  function WordsOf(fields: Counts): seq<string> {
    CountWords(TruncDiv(fields.months, 12), "year", "years")
    + (CountWords(TruncMod(fields.months, 12), "mon", "mons")
       + (CountWords(fields.days, "day", "days") + TimeWords(fields)))
  }

  lemma NoMonths(months: int)
    ensures TruncDiv(months, 12) * 12 + TruncMod(months, 12) == months
    ensures (TruncDiv(months, 12) == 0 && TruncMod(months, 12) == 0) <==> months == 0
  {
  }

  function CountParts(count: int, one: string, many: string): seq<string> {
    if count != 0 then [CountText(count, one, many)] else []
  }

  lemma PartsInOrder(fields: Counts)
    ensures PartsOf(fields) == CountParts(TruncDiv(fields.months, 12), "year", "years")
         + (CountParts(TruncMod(fields.months, 12), "mon", "mons")
            + (CountParts(fields.days, "day", "days") + TimeWords(fields)))
  {
    hide CountText, ClockText, TruncDiv, TruncMod;
    NoMonths(fields.months);
  }

  lemma CountJoins(count: int, one: string, many: string, rest: seq<string>, words: seq<string>)
    requires Join(rest) == Join(words) && (|rest| == 0 <==> |words| == 0)
    ensures var a, b := CountParts(count, one, many) + rest, CountWords(count, one, many) + words;
            Join(a) == Join(b) && (|a| == 0 <==> |b| == 0)
  {
    if count != 0 {
      PartIsTwoWords(IntText(count), if count == 1 then one else many, rest, words);
    } else {
      assert CountParts(count, one, many) + rest == rest && CountWords(count, one, many) + words == words;
    }
  }

  lemma TextIsWords(fields: Counts)
    ensures ToPostgresText(fields) == Join(WordsOf(fields))
  {
    hide CountParts, CountWords, TimeWords, Join, TruncDiv, TruncMod, PartsOf;
    PartsInOrder(fields);
    var time := TimeWords(fields);
    CountJoins(fields.days, "day", "days", time, time);
    var dayParts, dayWords := CountParts(fields.days, "day", "days") + time,
      CountWords(fields.days, "day", "days") + time;
    var months := TruncMod(fields.months, 12);
    CountJoins(months, "mon", "mons", dayParts, dayWords);
    CountJoins(TruncDiv(fields.months, 12), "year", "years", CountParts(months, "mon", "mons") + dayParts,
      CountWords(months, "mon", "mons") + dayWords);
  }

  // What every word of the text is.

  lemma DigitIsNoSpace(c: char)
    ensures IsDigit(c) || c == '-' || c == ':' || c == '.' || IsAlphabetic(c) ==> !IsSpace(c)
  {
  }

  predicate ClockChars(s: string) {
    |s| > 0 && IsDigit(s[|s| - 1])
      && forall i :: 0 <= i < |s| ==> IsDigit(s[i]) || s[i] == '-' || s[i] == ':' || s[i] == '.'
  }

  lemma ClockCharsJoin(a: string, sign: char, b: string)
    requires AllDigits(a) && ClockChars(b) && sign in "-:."
    ensures ClockChars(a + [sign] + b) && ClockChars(a + b)
  {
  }

  lemma ClockIsWord(micros: int)
    ensures var t := ClockText(micros); ClockChars(t) && (IsDigit(t[0]) || t[0] == '-')
  {
    hide Digits, Pad, TrimZeros;
    var magnitude := Abs(micros);
    ClockIsSigned(micros);
    ClockStarts(magnitude);
    var seconds, fraction := magnitude / MICROS_PER_SECOND, magnitude % MICROS_PER_SECOND;
    if fraction != 0 {
      FractionTrims(fraction);
      ClockCharsJoin(Pad(seconds % 60, 2), '.', TrimZeros(Pad(fraction, 6)));
    }
    var s := SecondsPart(magnitude);
    ClockCharsJoin(Pad(seconds % 3_600 / 60, 2), ':', s);
    ClockCharsJoin(Pad(seconds / 3_600, 2), ':', Pad(seconds % 3_600 / 60, 2) + ":" + s);
    ClockCharsJoin("", '-', UnsignedClock(magnitude));
    assert "" + ['-'] + UnsignedClock(magnitude) == "-" + UnsignedClock(magnitude);
    assert "" + UnsignedClock(magnitude) == UnsignedClock(magnitude);
  }

  predicate GoodEnds(s: string) {
    && IsWord(s)
    && (IsDigit(s[0]) || s[0] == '-' || IsAlphabetic(s[0]))
    && (IsDigit(s[|s| - 1]) || s[|s| - 1] in "rsny")
  }

  lemma IntTextIsWord(i: int)
    ensures GoodEnds(IntText(i)) && !IsAlphabetic(IntText(i)[0])
  {
    hide Digits;
  }

  lemma UnitsAreWords()
    ensures forall unit :: unit in ["year", "years", "mon", "mons", "day", "days"] ==> GoodEnds(unit)
  {
  }

  lemma WordsAreWords(fields: Counts)
    ensures var words := WordsOf(fields);
            && |words| > 0
            && (forall i :: 0 <= i < |words| ==> GoodEnds(words[i]))
            && !IsAlphabetic(words[0][0])
            && (|words| == 1 ==> words[0] == ClockText(fields.micros))
  {
    hide GoodEnds, IntText, ClockText, TruncDiv, TruncMod;
    NoMonths(fields.months);
    IntTextIsWord(TruncDiv(fields.months, 12));
    IntTextIsWord(TruncMod(fields.months, 12));
    IntTextIsWord(fields.days);
    UnitsAreWords();
    ClockIsGood(fields.micros);
  }

  lemma ClockIsGood(micros: int)
    ensures GoodEnds(ClockText(micros)) && !IsAlphabetic(ClockText(micros)[0])
  {
    hide ClockText;
    ClockIsWord(micros);
    var t := ClockText(micros);
    forall i | 0 <= i < |t| ensures !IsSpace(t[i]) {
      DigitIsNoSpace(t[i]);
    }
  }

  // Reading the words.

  lemma CountWordsRead(fields: Counts, count: int, one: string, many: string, scale: LiteralScale, rest: seq<string>)
    requires UnitReads(one, scale) && UnitReads(many, scale)
    ensures ParseTokens(CountWords(count, one, many) + rest, None, fields)
         == if count == 0 then ParseTokens(rest, None, fields)
           else ParseTokens(rest, None, fields.Add(Decimal(count, 1), scale))
  {
    hide ParseTokens, IntText, LiteralScaleOf, Contains;
    if count == 0 {
      assert CountWords(count, one, many) + rest == rest;
    } else {
      CountReads(fields, count, if count == 1 then one else many, scale, rest);
    }
  }

  lemma TimeWordsRead(fields: Counts, printed: Counts)
    ensures ParseTokens(TimeWords(printed), None, fields) == Ok(fields.(micros := fields.micros + printed.micros))
  {
    hide AddClock, ClockText, Contains;
    ClockReads(fields, printed.micros);
    if |TimeWords(printed)| > 0 {
      assert TimeWords(printed)[1..] == [];
    }
  }

  lemma PrintedUnits()
    ensures UnitReads("year", WholeMonths(12)) && UnitReads("years", WholeMonths(12))
    ensures UnitReads("mon", OneMonth) && UnitReads("mons", OneMonth)
    ensures UnitReads("day", Days(1)) && UnitReads("days", Days(1))
  {
    hide UnitReads;
    YearUnits();
    MonthUnits();
    DayUnits();
  }

  lemma YearUnits()
    ensures UnitReads("year", WholeMonths(12)) && UnitReads("years", WholeMonths(12))
  {
    PrintedUnit("year");
    PrintedUnit("years");
  }

  lemma MonthUnits()
    ensures UnitReads("mon", OneMonth) && UnitReads("mons", OneMonth)
  {
    PrintedUnit("mon");
    PrintedUnit("mons");
  }

  lemma DayUnits()
    ensures UnitReads("day", Days(1)) && UnitReads("days", Days(1))
  {
    PrintedUnit("day");
    PrintedUnit("days");
  }

  lemma PrintedUnit(unit: string)
    requires forall i :: 0 <= i < |unit| ==> 'a' <= unit[i] <= 'z'
    ensures Lower(unit) == unit && !Contains(unit, ':')
  {
  }

  lemma WordsRead(fields: Counts)
    ensures ParseTokens(WordsOf(fields), None, Counts(0, 0, 0)) == Ok(fields)
  {
    hide ParseTokens, CountWords, TimeWords, LiteralScaleOf, Contains, TruncDiv, TruncMod, Counts.Add;
    PrintedUnits();
    NoMonths(fields.months);
    var years, months, time := TruncDiv(fields.months, 12), TruncMod(fields.months, 12), TimeWords(fields);
    var dayWords := CountWords(fields.days, "day", "days") + time;
    CountWordsRead(Counts(0, 0, 0), years, "year", "years", WholeMonths(12),
      CountWords(months, "mon", "mons") + dayWords);
    WholeCountsAdd(Counts(0, 0, 0), years, 12);
    CountWordsRead(Counts(years * 12, 0, 0), months, "mon", "mons", OneMonth, dayWords);
    WholeCountsAdd(Counts(years * 12, 0, 0), months, 1);
    CountWordsRead(Counts(fields.months, 0, 0), fields.days, "day", "days", Days(1), time);
    WholeCountsAdd(Counts(fields.months, 0, 0), fields.days, 1);
    TimeWordsRead(Counts(fields.months, fields.days, 0), fields);
  }

  /** What reads as years and months is digits and signs alone. */
  lemma YearMonthIsBare(body: string, c: char)
    requires Contains(body, c) && !IsDigit(c) && c != '-' && c != '+'
    ensures ParseYearMonth(body) == None
  {
    var digits := if |body| > 0 && (body[0] == '-' || body[0] == '+') then body[1..] else body;
    var i :| 0 <= i < |body| && body[i] == c;
    assert Contains(digits, c) by {
      if digits != body {
        assert digits[i - 1] == c;
      }
    }
    var j :| 0 <= j < |digits| && digits[j] == c;
    match SplitOnce(digits, '-')
    case None =>
    case Some((years, months)) =>
      if j < |years| {
        assert years[j] == c;
      } else {
        assert months[j - |years| - 1] == c;
      }
  }

  lemma TextEnds(fields: Counts)
    ensures var t := ToPostgresText(fields);
            && |t| > 0 && (IsDigit(t[0]) || t[0] == '-')
            && (IsDigit(t[|t| - 1]) || t[|t| - 1] in "rsny")
            && (Contains(t, ' ') || Contains(t, ':'))
            && Words(t) == WordsOf(fields)
  {
    hide WordsOf, ToPostgresText, Join, Words, ClockText, Contains;
    var words := WordsOf(fields);
    TextIsWords(fields);
    WordsAreWords(fields);
    JoinEnds(words);
    JoinThenWords(words);
    ClockReads(fields, fields.micros);
    var last := words[|words| - 1];
    assert GoodEnds(last);
  }

  /** Reading what was printed gives the counts back, each with its sign. */
  lemma PrintedReadsBack(fields: Counts)
    ensures ParseFields(ToPostgresText(fields)) == Ok(fields)
  {
    hide ToPostgresText, ParseTokens, ParseYearMonth, Words, WordsOf, Contains;
    var t := ToPostgresText(fields);
    TextEnds(fields);
    if Contains(t, ' ') {
      YearMonthIsBare(t, ' ');
    } else {
      YearMonthIsBare(t, ':');
    }
    WordsRead(fields);
  }

  lemma PrintedIsABody(fields: Counts)
    ensures BodyOf(ToPostgresText(fields)) == (ToPostgresText(fields), false)
  {
    hide ToPostgresText, Contains, Trim, WordsOf, Words;
    var t := ToPostgresText(fields);
    TextEnds(fields);
    DigitIsNoSpace(t[0]);
    DigitIsNoSpace(t[|t| - 1]);
    TrimNothing(t);
    assert Lower(t)[|t| - 1] != 'o';
    assert "ago"[2] == 'o';
  }

  /** Whatever notation a literal is written in, normalising the text it
      normalises to changes nothing. */
  lemma NormalizeIsIdempotent(text: string)
    requires Normalize(text).Ok?
    ensures Normalize(Normalize(text).value) == Normalize(text)
  {
    hide ToPostgresText, ParseFields, BodyOf;
    var (body, negated) := BodyOf(text);
    var fields := ParseFields(body).value;
    var printed := if negated then fields.Negate() else fields;
    PrintedIsABody(printed);
    PrintedReadsBack(printed);
  }

  // ---------------------------------------------------------------------
  // The parsing loops
  // ---------------------------------------------------------------------

  /** Months, days and microseconds, kept apart. */
  class LiteralFields {
    var months: int
    var days: int
    var micros: int

    constructor ()
      ensures Held() == Counts(0, 0, 0)
    {
      months, days, micros := 0, 0, 0;
    }

    function Held(): Counts
      reads this
    {
      Counts(months, days, micros)
    }

    method Add(count: Count, scale: LiteralScale)
      modifies this
      ensures Held() == old(Held()).Add(count, scale)
    {
      match scale {
        case WholeMonths(perUnit) =>
          months := months + RoundingDiv(count.numerator * perUnit, count.denominator);
        case OneMonth =>
          var whole := TruncDiv(count.numerator, count.denominator);
          months := months + whole;
          var remainder := count.numerator - whole * count.denominator;
          AddMicros(TruncDiv(remainder * (DAYS_PER_FRACTIONAL_MONTH * MICROS_PER_DAY), count.denominator));
        case Days(perUnit) =>
          var scaled := count.numerator * perUnit;
          var whole := TruncDiv(scaled, count.denominator);
          days := days + whole;
          var remainder := scaled - whole * count.denominator;
          micros := micros + TruncDiv(remainder * MICROS_PER_DAY, count.denominator);
        case Time(perUnit) =>
          micros := micros + TruncDiv(count.numerator * perUnit, count.denominator);
      }
    }

    method AddMicros(more: int)
      modifies this
      ensures Held() == old(Held()).AddMicros(more)
    {
      days := days + TruncDiv(more, MICROS_PER_DAY);
      micros := micros + TruncMod(more, MICROS_PER_DAY);
    }

    method Negate()
      modifies this
      ensures Held() == old(Held()).Negate()
    {
      months, days, micros := -months, -days, -micros;
    }

    /** Adds `count` of `unit`, or says why it cannot. */
    method AddWritten(count: string, unit: string) returns (refused: Option<Unreadable>)
      modifies this
      ensures AddUnit(old(Held()), count, unit) == if refused.Some? then Err(refused.value) else Ok(Held())
    {
      match ParseDecimal(count) {
        case None => return Some(NotANumber(count));
        case Some(parsed) =>
          match LiteralScaleOf(Lower(unit)) {
            case None => return Some(NotAUnit(unit));
            case Some(scale) =>
              Add(parsed, scale);
              return None;
          }
      }
    }
  }

  method AddClockToken(fields: LiteralFields, leadingDays: Option<string>, token: string)
      returns (refused: Option<Unreadable>)
    modifies fields
    ensures AddClock(old(fields.Held()), leadingDays, token) == if refused.Some? then Err(refused.value)
        else Ok(fields.Held())
  {
    hide AddUnit, SplitAll;
    if leadingDays.Some? {
      refused := fields.AddWritten(leadingDays.value, "days");
      if refused.Some? {
        return;
      }
    }
    var negative := |token| > 0 && token[0] == '-';
    var clock := if |token| > 0 && (token[0] == '-' || token[0] == '+') then token[1..] else token;
    var parts := SplitAll(clock, ':');
    if |parts| > 3 {
      return Some(ClockParts);
    }
    var reading := new LiteralFields();
    refused := reading.AddWritten(parts[0], "hours");
    if refused.Some? {
      return;
    }
    refused := reading.AddWritten(if |parts| > 1 then parts[1] else "", "minutes");
    if refused.Some? {
      return;
    }
    refused := reading.AddWritten(if |parts| > 2 then parts[2] else "0", "seconds");
    if refused.Some? {
      return;
    }
    if negative {
      reading.Negate();
    }
    fields.micros := fields.micros + reading.micros;
  }

  method ParseIntervalFields(body: string) returns (r: Result<LiteralFields, Unreadable>)
    ensures ParseFields(body) == if r.Ok? then Ok(r.value.Held()) else Err(r.error)
  {
    hide AddUnit, AddClock, SplitCountAndUnit, Contains, ParseIso, ParseYearMonth;
    if |body| > 0 && LowerChar(body[0]) == 'p' {
      r := ParseIsoInterval(body);
      return;
    }
    var fields := new LiteralFields();
    match ParseYearMonth(body) {
      case Some(counts) =>
        fields.months, fields.days, fields.micros := counts.months, counts.days, counts.micros;
        return Ok(fields);
      case None =>
    }
    var tokens, pending := Words(body), None;
    for i := 0 to |tokens|
      invariant fresh(fields)
      invariant ParseTokens(tokens, None, Counts(0, 0, 0)) == ParseTokens(tokens[i..], pending, fields.Held())
    {
      var token := tokens[i];
      assert tokens[i..][0] == token && tokens[i..][1..] == tokens[i + 1..];
      var refused: Option<Unreadable> := None;
      if Contains(token, ':') {
        refused := AddClockToken(fields, pending, token);
        pending := None;
      } else {
        var (count, unit) := SplitCountAndUnit(token);
        match unit {
          case Some(unit) =>
            if count == "" {
              if pending.None? {
                return Err(NoCount(unit));
              }
              refused := fields.AddWritten(pending.value, unit);
            } else {
              if pending.Some? {
                refused := fields.AddWritten(pending.value, "seconds");
              }
              if refused.None? {
                refused := fields.AddWritten(count, unit);
              }
            }
            pending := None;
          case None =>
            if pending.Some? {
              return Err(NoUnit(pending.value));
            }
            pending := Some(count);
        }
      }
      if refused.Some? {
        return Err(refused.value);
      }
    }
    if pending.Some? {
      var refused := fields.AddWritten(pending.value, "seconds");
      if refused.Some? {
        return Err(refused.value);
      }
    }
    return Ok(fields);
  }

  /** What each reading of a duration's front leaves to read. */
  lemma IsoStep(rest: string, inTime: bool, fields: Counts)
    requires |rest| > 0
    ensures LowerChar(rest[0]) == 't' ==> ParseIso(rest, inTime, fields) == ParseIso(rest[1..], true, fields)
    ensures LowerChar(rest[0]) != 't' && FirstLetter(rest).None? ==> ParseIso(rest, inTime, fields) == Err(NoDesignator)
    ensures LowerChar(rest[0]) != 't' && FirstLetter(rest).Some? ==>
      var at := FirstLetter(rest).value;
      ParseIso(rest, inTime, fields) ==
        if DesignatedUnit(rest[at], inTime).None? then Err(BadDesignator(rest[at]))
        else if AddUnit(fields, rest[..at], DesignatedUnit(rest[at], inTime).value).Err?
          then Err(AddUnit(fields, rest[..at], DesignatedUnit(rest[at], inTime).value).error)
        else ParseIso(rest[at + 1..], inTime, AddUnit(fields, rest[..at], DesignatedUnit(rest[at], inTime).value).value)
  {
    hide AddUnit, DesignatedUnit, LowerChar;
  }

  lemma IsoEnd(inTime: bool, fields: Counts)
    ensures ParseIso("", inTime, fields) == Ok(fields)
  {
  }

  method ParseIsoInterval(body: string) returns (r: Result<LiteralFields, Unreadable>)
    requires |body| > 0
    ensures ParseIso(body[1..], false, Counts(0, 0, 0)) == if r.Ok? then Ok(r.value.Held()) else Err(r.error)
  {
    hide AddUnit, ParseIso, FirstLetter, DesignatedUnit, LowerChar;
    var fields := new LiteralFields();
    var rest, inTime, countStart := body[1..], false, 0;
    while countStart < |rest|
      invariant fresh(fields) && countStart <= |rest|
      invariant ParseIso(body[1..], false, Counts(0, 0, 0)) == ParseIso(rest[countStart..], inTime, fields.Held())
      decreases |rest| - countStart
    {
      IsoStep(rest[countStart..], inTime, fields.Held());
      if LowerChar(rest[countStart]) == 't' {
        inTime := true;
        assert rest[countStart..][1..] == rest[countStart + 1..];
        rest := rest[countStart + 1..];
        countStart := 0;
        assert rest[0..] == rest;
        continue;
      }
      var designator := FirstLetter(rest[countStart..]);
      if designator.None? {
        return Err(NoDesignator);
      }
      var at := countStart + designator.value;
      match DesignatedUnit(rest[at], inTime) {
        case None => return Err(BadDesignator(rest[at]));
        case Some(unit) =>
          assert rest[countStart..at] == rest[countStart..][..designator.value];
          assert rest[at + 1..] == rest[countStart..][designator.value + 1..];
          var refused := fields.AddWritten(rest[countStart..at], unit);
          if refused.Some? {
            return Err(refused.value);
          }
      }
      countStart := at + 1;
    }
    IsoEnd(inTime, fields.Held());
    assert rest[countStart..] == "";
    return Ok(fields);
  }

  // ---------------------------------------------------------------------
  // ISO 8601 durations
  // ---------------------------------------------------------------------

  datatype IsoItem = IsoItem(count: string, designator: char)

  function Render(items: seq<IsoItem>): string {
    if |items| == 0 then "" else items[0].count + [items[0].designator] + Render(items[1..])
  }

  predicate ValidItem(item: IsoItem, inTime: bool) {
    && |item.count| > 0 && (forall i :: 0 <= i < |item.count| ==> !IsAlphabetic(item.count[i]))
    && IsAlphabetic(item.designator) && DesignatedUnit(item.designator, inTime).Some?
  }

  /** Adding the items one by one, each in the unit it names. */
  function AddItems(items: seq<IsoItem>, inTime: bool, fields: Counts): Result<Counts, Unreadable>
    requires forall i :: 0 <= i < |items| ==> ValidItem(items[i], inTime)
  {
    if |items| == 0 then Ok(fields)
    else
      assert ValidItem(items[0], inTime);
      var added :- AddUnit(fields, items[0].count, DesignatedUnit(items[0].designator, inTime).value);
      AddItems(items[1..], inTime, added)
  }

  /** Reading on where the items so far were read. */
  function ParseOn(soFar: Result<Counts, Unreadable>, rest: string, inTime: bool): Result<Counts, Unreadable> {
    if soFar.Ok? then ParseIso(rest, inTime, soFar.value) else soFar
  }

  function AddMore(soFar: Result<Counts, Unreadable>, times: seq<IsoItem>): Result<Counts, Unreadable>
    requires forall i :: 0 <= i < |times| ==> ValidItem(times[i], true)
  {
    if soFar.Ok? then AddItems(times, true, soFar.value) else soFar
  }

  lemma FirstLetterAt(count: string, designator: char, rest: string)
    requires (forall i :: 0 <= i < |count| ==> !IsAlphabetic(count[i])) && IsAlphabetic(designator)
    ensures FirstLetter(count + [designator] + rest) == Some(|count|)
  {
    var s := count + [designator] + rest;
    assert s[|count|] == designator;
    forall i | 0 <= i < |count| ensures !IsAlphabetic(s[i]) {
      assert s[i] == count[i];
    }
  }

  lemma {:induction false} ItemsRead(items: seq<IsoItem>, inTime: bool, fields: Counts, rest: string)
    requires forall i :: 0 <= i < |items| ==> ValidItem(items[i], inTime)
    ensures ParseIso(Render(items) + rest, inTime, fields) == ParseOn(AddItems(items, inTime, fields), rest, inTime)
  {
    hide AddUnit, DesignatedUnit;
    if |items| == 0 {
      assert Render(items) + rest == rest;
    } else {
      var item, tail := items[0], Render(items[1..]) + rest;
      var s := Render(items) + rest;
      assert s == item.count + [item.designator] + tail;
      FirstLetterAt(item.count, item.designator, tail);
      assert s[..|item.count|] == item.count && s[|item.count|] == item.designator && s[|item.count| + 1..] == tail;
      assert !IsAlphabetic(s[0]);
      var unit := DesignatedUnit(item.designator, inTime).value;
      var added := AddUnit(fields, item.count, unit);
      if added.Ok? {
        ItemsRead(items[1..], inTime, added.value, rest);
      }
    }
  }

  /** A duration reads as its items, `M` meaning months in the date part and
      minutes in the time part. */
  lemma IsoReadsItems(dates: seq<IsoItem>, times: seq<IsoItem>)
    requires forall i :: 0 <= i < |dates| ==> ValidItem(dates[i], false)
    requires forall i :: 0 <= i < |times| ==> ValidItem(times[i], true)
    ensures ParseFields("P" + Render(dates) + "T" + Render(times))
         == AddMore(AddItems(dates, false, Counts(0, 0, 0)), times)
  {
    hide AddItems, Render, ParseFields, ParseIso;
    var rest := Render(dates) + ("T" + Render(times));
    assert "P" + Render(dates) + "T" + Render(times) == "P" + rest;
    DurationReads(rest);
    ItemsRead(dates, false, Counts(0, 0, 0), "T" + Render(times));
    var soFar := AddItems(dates, false, Counts(0, 0, 0));
    if soFar.Ok? {
      TimePartReads(Render(times), soFar.value);
      ItemsRead(times, true, soFar.value, "");
      assert Render(times) + "" == Render(times);
      NothingMore(AddItems(times, true, soFar.value));
    }
  }

  lemma DurationReads(rest: string)
    ensures ParseFields("P" + rest) == ParseIso(rest, false, Counts(0, 0, 0))
  {
    assert ("P" + rest)[1..] == rest;
  }

  lemma TimePartReads(rest: string, fields: Counts)
    ensures ParseIso("T" + rest, false, fields) == ParseIso(rest, true, fields)
  {
    assert ("T" + rest)[1..] == rest;
  }

  lemma NothingMore(soFar: Result<Counts, Unreadable>)
    ensures ParseOn(soFar, "", true) == soFar
  {
  }
}
