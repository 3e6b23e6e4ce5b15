/** The notations an interval literal may be written in, each with the counts it
    stands for. */
module IntervalNotations {
  import opened Wrappers
  import opened Text
  import opened Interval
  import opened IntervalText

  // ---------------------------------------------------------------------
  // Counts and units
  // ---------------------------------------------------------------------

  /** A count and its unit, with a space between them or without. */
  datatype Item = Item(count: string, unit: string, glued: bool)

  predicate PlainCount(count: string) {
    IsWord(count) && ParseDecimal(count).Some?
  }

  predicate UnitWord(unit: string) {
    IsWord(unit) && IsAlphabetic(unit[0]) && !Contains(unit, ':') && LiteralScaleOf(Lower(unit)).Some?
  }

  predicate Written(item: Item) {
    PlainCount(item.count) && UnitWord(item.unit)
  }

  function ItemWords(items: seq<Item>): seq<string> {
    if |items| == 0 then []
    else
      (if items[0].glued then [items[0].count + items[0].unit] else [items[0].count, items[0].unit])
      + ItemWords(items[1..])
  }

  function Added(fields: Counts, item: Item): Counts
    requires Written(item)
  {
    fields.Add(ParseDecimal(item.count).value, LiteralScaleOf(Lower(item.unit)).value)
  }

  predicate AllWritten(items: seq<Item>) {
    |items| > 0 ==> Written(items[0]) && AllWritten(items[1..])
  }

  /** The counts of the items, added up. */
  function Sum(fields: Counts, items: seq<Item>): Counts
    requires AllWritten(items)
    decreases |items|
  {
    if |items| == 0 then fields else Sum(Added(fields, items[0]), items[1..])
  }

  /** A sign or none, digits, and a point with digits or none after it. */
  function DecimalText(sign: string, whole: string, fraction: Option<string>): string {
    sign + if fraction.Some? then whole + ['.'] + fraction.value else whole
  }

  /** Such a text is a count exactly when it has a digit, and then it is all its
      digits over ten to the number of those after the point. */
  lemma DecimalReads(sign: string, whole: string, fraction: Option<string>)
    requires sign in ["", "+", "-"] && AllDigits(whole) && (fraction.Some? ==> AllDigits(fraction.value))
    ensures var places := if fraction.Some? then fraction.value else "";
      && AllDigits(whole + places)
      && ParseDecimal(DecimalText(sign, whole, fraction))
         == if whole + places == "" then None
            else Some(Decimal(if sign == "-" then -(Value(whole + places) as int) else Value(whole + places),
                              Pow10(|places|)))
  {
    hide Value, Pow10, SplitOnce, SplitAll, Contains;
    var places := if fraction.Some? then fraction.value else "";
    var digits := if fraction.Some? then whole + ['.'] + fraction.value else whole;
    var text := DecimalText(sign, whole, fraction);
    DigitsHoldNoOther(whole, '.');
    if fraction.Some? {
      SplitAllAt(whole, '.', places);
    } else {
      SplitNowhere(whole, '.');
    }
    assert |whole + places| == |whole| + |places|;
    if text == "" {
      assert whole + places == "";
    } else if sign == "" {
      assert text == digits && text[0] != '-' && text[0] != '+';
    } else {
      assert text[0] == sign[0] && text[1..] == digits;
    }
  }

  predicate IsDecimalText(text: string, sign: string, whole: string, fraction: Option<string>) {
    && sign in ["", "+", "-"] && AllDigits(whole) && (fraction.Some? ==> AllDigits(fraction.value))
    && text == DecimalText(sign, whole, fraction)
  }

  /** No other text is a count. */
  lemma DecimalsAre(text: string)
    requires ParseDecimal(text).Some?
    ensures exists sign: string, whole: string, fraction: Option<string> :: IsDecimalText(text, sign, whole, fraction)
  {
    hide Value, Pow10, AllDigits, IsDecimalText, DecimalText;
    var digits := if text[0] == '-' || text[0] == '+' then text[1..] else text;
    match Find(digits, '.')
    case None =>
      assert digits + "" == digits;
      SignedDecimal(text, digits, None);
    case Some(point) =>
      DigitsOfBoth(digits[..point], digits[point + 1..]);
      assert digits == digits[..point] + ['.'] + digits[point + 1..];
      SignedDecimal(text, digits[..point], Some(digits[point + 1..]));
  }

  lemma SignedDecimal(text: string, whole: string, fraction: Option<string>)
    requires |text| > 0 && AllDigits(whole) && (fraction.Some? ==> AllDigits(fraction.value))
    requires (if text[0] == '-' || text[0] == '+' then text[1..] else text)
          == if fraction.Some? then whole + ['.'] + fraction.value else whole
    ensures exists sign: string :: IsDecimalText(text, sign, whole, fraction)
  {
    hide AllDigits;
    if text[0] == '-' || text[0] == '+' {
      assert text == text[..1] + text[1..] && (text[..1] == "-" || text[..1] == "+");
      assert IsDecimalText(text, text[..1], whole, fraction);
    } else {
      assert text == "" + text;
      assert IsDecimalText(text, "", whole, fraction);
    }
  }

  lemma DigitsOfBoth(a: string, b: string)
    requires AllDigits(a + b)
    ensures AllDigits(a) && AllDigits(b)
  {
    assert forall i :: 0 <= i < |a| ==> a[i] == (a + b)[i];
    assert forall i :: 0 <= i < |b| ==> b[i] == (a + b)[|a| + i];
  }

  /** What a decimal count is made of. */
  lemma CountChars(count: string)
    requires PlainCount(count)
    ensures forall i :: 0 <= i < |count| ==> IsDigit(count[i]) || count[i] == '.' || (i == 0 && count[i] in "+-")
    ensures !Contains(count, ':') && FirstLetter(count) == None
  {
    hide Value, Pow10;
    var digits := if count[0] == '-' || count[0] == '+' then count[1..] else count;
    match Find(digits, '.')
    case None =>
      assert digits + "" == digits;
    case Some(point) =>
      var (whole, fraction) := (digits[..point], digits[point + 1..]);
      assert AllDigits(whole + fraction);
      forall i | 0 <= i < |digits| ensures IsDigit(digits[i]) || digits[i] == '.' {
        if i < point {
          assert (whole + fraction)[i] == digits[i];
        } else if i > point {
          assert (whole + fraction)[i - 1] == digits[i];
        }
      }
    assert forall i :: 0 <= i < |digits| ==> IsDigit(digits[i]) || digits[i] == '.';
  }

  lemma GluedSplits(count: string, unit: string)
    requires PlainCount(count) && UnitWord(unit)
    ensures SplitCountAndUnit(count + unit) == (count, Some(unit)) && !Contains(count + unit, ':')
    ensures SplitCountAndUnit(count) == (count, None) && !Contains(count, ':')
    ensures SplitCountAndUnit(unit) == ("", Some(unit))
  {
    hide ParseDecimal, LiteralScaleOf, Lower;
    CountChars(count);
    var token := count + unit;
    assert forall i :: 0 <= i < |count| ==> token[i] == count[i] && !IsAlphabetic(token[i]);
    assert token[|count|] == unit[0];
    assert token[..|count|] == count && token[|count|..] == unit;
    assert unit[..0] == "" && unit[0..] == unit;
    forall i | 0 <= i < |token| ensures token[i] != ':' {
      if i >= |count| {
        assert token[i] == unit[i - |count|];
      }
    }
  }

  lemma OneItem(fields: Counts, item: Item, rest: seq<string>)
    requires Written(item)
    ensures ParseTokens(ItemWords([item]) + rest, None, fields)
         == ParseTokens(rest, None, Added(fields, item))
  {
    hide ParseDecimal, LiteralScaleOf, Lower, AddClock, SplitCountAndUnit, Contains, Counts.Add;
    var (count, unit) := (item.count, item.unit);
    GluedSplits(count, unit);
    assert [item][1..] == [] && ItemWords([]) == [];
    assert AddUnit(fields, count, unit) == Ok(Added(fields, item));
    if item.glued {
      assert ItemWords([item]) + rest == [count + unit] + rest && ([count + unit] + rest)[1..] == rest;
    } else {
      var words := [count, unit] + rest;
      assert ItemWords([item]) + rest == words && words[1..] == [unit] + rest && ([unit] + rest)[1..] == rest;
      assert ParseTokens(words, None, fields) == ParseTokens([unit] + rest, Some(count), fields);
    }
  }

  lemma {:induction false} ItemsThen(fields: Counts, items: seq<Item>, rest: seq<string>)
    requires AllWritten(items)
    ensures ParseTokens(ItemWords(items) + rest, None, fields) == ParseTokens(rest, None, Sum(fields, items))
    decreases |items|
  {
    hide ParseTokens, Written, Added;
    if |items| == 0 {
      assert ItemWords(items) + rest == rest;
    } else {
      var more := ItemWords(items[1..]) + rest;
      OneItem(fields, items[0], more);
      assert [items[0]][1..] == [] && ItemWords([items[0]]) + more == ItemWords(items) + rest;
      ItemsThen(Added(fields, items[0]), items[1..], rest);
    }
  }

  // ---------------------------------------------------------------------
  // What may follow
  // ---------------------------------------------------------------------

  /** A literal may end in a bare count, which is seconds, or in a clock, and
      before the clock in a bare count of days. */
  datatype Tail = Nothing | BareSeconds(count: string) | TimeOfDay(micros: int) | DaysAndTime(days: string, micros: int)

  predicate WrittenTail(tail: Tail) {
    match tail
    case BareSeconds(count) => PlainCount(count)
    case DaysAndTime(days, _) => PlainCount(days)
    case Nothing | TimeOfDay(_) => true
  }

  function TailWords(tail: Tail): seq<string> {
    match tail
    case Nothing => []
    case BareSeconds(count) => [count]
    case TimeOfDay(micros) => [ClockText(micros)]
    case DaysAndTime(days, micros) => [days, ClockText(micros)]
  }

  function WithTail(fields: Counts, tail: Tail): Counts
    requires WrittenTail(tail)
  {
    match tail
    case Nothing => fields
    case BareSeconds(count) => fields.Add(ParseDecimal(count).value, Time(1_000_000))
    case TimeOfDay(micros) => fields.(micros := fields.micros + micros)
    case DaysAndTime(days, micros) =>
      var dated := fields.Add(ParseDecimal(days).value, Days(1));
      dated.(micros := dated.micros + micros)
  }

  lemma DaysAreAdded(fields: Counts, days: string)
    requires PlainCount(days)
    ensures AddUnit(fields, days, "days") == Ok(fields.Add(ParseDecimal(days).value, Days(1)))
  {
    hide ParseDecimal;
    DayUnits();
  }

  lemma ClockAfterDays(fields: Counts, days: string, micros: int)
    requires PlainCount(days)
    ensures AddClock(fields, Some(days), ClockText(micros)) == Ok(WithTail(fields, DaysAndTime(days, micros)))
  {
    hide ParseDecimal, ClockText, AddClock, Counts.Add, AddUnit;
    DaysAreAdded(fields, days);
    var dated := fields.Add(ParseDecimal(days).value, Days(1));
    DaysFirst(fields, days, ClockText(micros));
    ClockReads(dated, micros);
  }

  lemma DaysFirst(fields: Counts, days: string, token: string)
    requires AddUnit(fields, days, "days").Ok?
    ensures AddClock(fields, Some(days), token) == AddClock(AddUnit(fields, days, "days").value, None, token)
  {
    hide AddUnit, SplitAll;
  }

  lemma TailReads(fields: Counts, tail: Tail)
    requires WrittenTail(tail)
    ensures ParseTokens(TailWords(tail), None, fields) == Ok(WithTail(fields, tail))
  {
    hide ParseDecimal, ClockText, AddClock, Contains, Counts.Add, SplitCountAndUnit, AddUnit;
    match tail
    case Nothing =>
    case BareSeconds(count) =>
      CountAlone(count);
      SecondsAreAdded(fields, count);
      assert [count][1..] == [];
      assert ParseTokens([], Some(count), fields) == AddUnit(fields, count, "seconds");
    case TimeOfDay(micros) =>
      ClockReads(fields, micros);
      assert [ClockText(micros)][1..] == [];
    case DaysAndTime(days, micros) =>
      CountAlone(days);
      ClockReads(fields, micros);
      ClockAfterDays(fields, days, micros);
      var words := [days, ClockText(micros)];
      assert words[1..] == [ClockText(micros)] && [ClockText(micros)][1..] == [];
      assert ParseTokens(words, None, fields) == ParseTokens([ClockText(micros)], Some(days), fields);
      assert ParseTokens([ClockText(micros)], Some(days), fields) == ParseTokens([], None, WithTail(fields, tail));
  }

  lemma CountAlone(count: string)
    requires PlainCount(count)
    ensures SplitCountAndUnit(count) == (count, None) && !Contains(count, ':')
  {
    CountChars(count);
  }

  lemma SecondsAreAdded(fields: Counts, count: string)
    requires PlainCount(count)
    ensures AddUnit(fields, count, "seconds") == Ok(fields.Add(ParseDecimal(count).value, Time(1_000_000)))
  {
    hide ParseDecimal;
    SecondUnits();
  }

  // ---------------------------------------------------------------------
  // The body of a literal
  // ---------------------------------------------------------------------

  function BodyWords(items: seq<Item>, tail: Tail): seq<string> {
    ItemWords(items) + TailWords(tail)
  }

  lemma GluedIsWord(count: string, unit: string)
    requires PlainCount(count) && UnitWord(unit)
    ensures IsWord(count + unit)
  {
  }

  predicate Lettered(word: string) {
    exists i :: 0 <= i < |word| && IsAlphabetic(word[i])
  }

  lemma {:induction false} ItemsAreWords(items: seq<Item>)
    requires AllWritten(items)
    ensures var words := ItemWords(items);
      && (forall k :: 0 <= k < |words| ==> IsWord(words[k]))
      && (|items| == 0 ==> words == [])
      && (|items| > 0 ==>
            && |words| > 0 && (exists k :: 0 <= k < |words| && Lettered(words[k]))
            && |words[0]| > 0 && (IsDigit(words[0][0]) || words[0][0] in "+-."))
  {
    hide IsWord, PlainCount, UnitWord, Lettered;
    if |items| > 0 {
      ItemsAreWords(items[1..]);
      WrittenShapes(items[0]);
      var first := if items[0].glued then [items[0].count + items[0].unit] else [items[0].count, items[0].unit];
      assert ItemWords(items) == first + ItemWords(items[1..]);
      var k := if items[0].glued then 0 else 1;
      assert ItemWords(items)[k] == first[k] && Lettered(first[k]);
      assert ItemWords(items)[0] == first[0];
    }
  }

  lemma WrittenShapes(item: Item)
    requires Written(item)
    ensures IsWord(item.count) && IsWord(item.unit) && IsWord(item.count + item.unit)
    ensures Lettered(item.unit) && Lettered(item.count + item.unit)
    ensures |item.count| > 0 && (IsDigit(item.count[0]) || item.count[0] in "+-.")
  {
    hide ParseDecimal, LiteralScaleOf;
    CountChars(item.count);
    GluedIsWord(item.count, item.unit);
    assert (item.count + item.unit)[|item.count|] == item.unit[0];
  }

  lemma TailIsWords(tail: Tail)
    requires WrittenTail(tail)
    ensures forall k :: 0 <= k < |TailWords(tail)| ==> IsWord(TailWords(tail)[k])
    ensures tail != Nothing ==> |TailWords(tail)| > 0
    ensures |TailWords(tail)| > 0 ==>
      var word := TailWords(tail)[0]; |word| > 0 && (IsDigit(word[0]) || word[0] in "+-.")
  {
    hide ClockText, ParseDecimal, ClockChars;
    match tail
    case Nothing =>
    case BareSeconds(count) => CountChars(count);
    case TimeOfDay(micros) => ClockStandsAlone(micros);
    case DaysAndTime(days, micros) =>
      CountChars(days);
      ClockStandsAlone(micros);
  }

  lemma ClockStandsAlone(micros: int)
    ensures IsWord(ClockText(micros)) && (IsDigit(ClockText(micros)[0]) || ClockText(micros)[0] == '-')
    ensures Contains(ClockText(micros), ':')
  {
    hide ClockText, GoodEnds, AddClock;
    ClockIsWord(micros);
    ClockIsGood(micros);
    ClockReads(Counts(0, 0, 0), micros);
    GoodIsWord(ClockText(micros));
  }

  lemma GoodIsWord(s: string)
    requires GoodEnds(s)
    ensures IsWord(s)
  {
  }

  lemma {:induction false} JoinHolds(words: seq<string>, k: nat, i: nat)
    requires k < |words| && i < |words[k]|
    ensures Contains(Join(words), words[k][i])
  {
    if |words| == 1 {
      assert Join(words)[i] == words[k][i];
    } else {
      var text := words[0] + " " + Join(words[1..]);
      if k == 0 {
        assert text[i] == words[0][i];
      } else {
        JoinHolds(words[1..], k - 1, i);
        var j :| 0 <= j < |Join(words[1..])| && Join(words[1..])[j] == words[k][i];
        assert text[|words[0]| + 1 + j] == words[k][i];
      }
    }
  }

  lemma CountIsNoYearMonth(count: string)
    requires PlainCount(count)
    ensures ParseYearMonth(count) == None
  {
    hide ParseDecimal, AllDigits;
    CountChars(count);
    var digits := if count[0] == '-' || count[0] == '+' then count[1..] else count;
    forall i | 0 <= i < |digits| ensures digits[i] != '-' {
      if digits != count {
        assert digits[i] == count[i + 1];
      } else if i == 0 {
        assert digits[0] == count[0];
      }
    }
  }

  /** Counts and units in any order and number, spaced or not, and what may
      follow them, read as all of it added up. */
  lemma BodyReads(items: seq<Item>, tail: Tail)
    requires AllWritten(items) && WrittenTail(tail) && (|items| > 0 || tail != Nothing)
    ensures ParseFields(Join(BodyWords(items, tail))) == Ok(WithTail(Sum(Counts(0, 0, 0), items), tail))
  {
    hide ParseTokens, ParseYearMonth, Join, Words, IsWord, ItemWords, TailWords, WithTail, Sum, ParseIso, Lettered,
         PlainCount, UnitWord;
    var words := BodyWords(items, tail);
    ItemsAreWords(items);
    TailIsWords(tail);
    assert |words| > 0 && words[0] == if |items| > 0 then ItemWords(items)[0] else TailWords(tail)[0];
    JoinThenWords(words);
    JoinStarts(words);
    ItemsThen(Counts(0, 0, 0), items, TailWords(tail));
    TailReads(Sum(Counts(0, 0, 0), items), tail);
    NoYearMonth(items, tail);
  }

  lemma JoinStarts(words: seq<string>)
    requires |words| > 0 && |words[0]| > 0
    ensures |Join(words)| > 0 && Join(words)[0] == words[0][0]
  {
  }

  lemma NoYearMonth(items: seq<Item>, tail: Tail)
    requires AllWritten(items) && WrittenTail(tail) && (|items| > 0 || tail != Nothing)
    ensures ParseYearMonth(Join(BodyWords(items, tail))) == None
  {
    hide ParseYearMonth, Join, ItemWords, PlainCount, UnitWord, ClockText;
    var words := BodyWords(items, tail);
    ItemsAreWords(items);
    if |items| > 0 {
      var k :| 0 <= k < |ItemWords(items)| && Lettered(ItemWords(items)[k]);
      assert words[k] == ItemWords(items)[k];
      var i :| 0 <= i < |words[k]| && IsAlphabetic(words[k][i]);
      JoinHolds(words, k, i);
      YearMonthIsBare(Join(words), words[k][i]);
    } else if tail.BareSeconds? {
      assert words == [tail.count];
      JoinOne(tail.count);
      CountIsNoYearMonth(tail.count);
    } else {
      var clock := ClockText(tail.micros);
      ClockStandsAlone(tail.micros);
      var i :| 0 <= i < |clock| && clock[i] == ':';
      assert words[|words| - 1] == clock;
      JoinHolds(words, |words| - 1, i);
      YearMonthIsBare(Join(words), ':');
    }
  }

  lemma JoinOne(word: string)
    ensures Join([word]) == word
  {
  }

  // ---------------------------------------------------------------------
  // Years and months joined
  // ---------------------------------------------------------------------

  /** `1-2`, with a sign before it or none: so many years and months, the sign
      being that of both. */
  lemma YearMonthReads(sign: string, years: nat, months: nat)
    requires sign in ["", "+", "-"]
    ensures ParseFields(sign + Digits(years) + "-" + Digits(months))
         == Ok(Counts((if sign == "-" then -1 else 1) * (12 * years + months), 0, 0))
  {
    hide Digits, Value, ParseIso, ParseTokens, Words, ParseYearMonth;
    var y, m := Digits(years), Digits(months);
    var body := sign + y + "-" + m;
    assert body == sign + (y + "-" + m);
    UnsignedYearMonth(sign, y, m);
    ValueOfDigits(years);
    ValueOfDigits(months);
    assert |body| > 0 && (body[0] == y[0] || body[0] == '+' || body[0] == '-');
    assert LowerChar(body[0]) != 'p' by { assert IsDigit(y[0]); }
  }

  lemma UnsignedYearMonth(sign: string, y: string, m: string)
    requires sign in ["", "+", "-"] && |y| > 0 && |m| > 0 && AllDigits(y) && AllDigits(m)
    ensures ParseYearMonth(sign + (y + "-" + m))
         == Some(Counts(if sign == "-" then -(Value(y) * 12 + Value(m)) else Value(y) * 12 + Value(m), 0, 0))
  {
    hide Value, SplitOnce, SplitAll, Contains, ParseYearMonth, AllDigits;
    var unsigned := y + "-" + m;
    var body := sign + unsigned;
    DigitsHoldNoOther(y, '-');
    SplitAllAt(y, '-', m);
    FirstDigit(y);
    assert unsigned[0] == y[0];
    if sign == "" {
      assert body == unsigned;
    } else {
      assert body[0] == sign[0] && body[1..] == unsigned;
    }
    YearMonthStep(body, unsigned, y, m);
  }

  /** No other text is years and months. */
  lemma YearMonthsAre(text: string)
    requires ParseYearMonth(text).Some?
    ensures exists sign: string, y: string, m: string :: IsYearMonth(text, sign, y, m)
  {
    hide AllDigits, Value, IsYearMonth;
    var digits := if text[0] == '-' || text[0] == '+' then text[1..] else text;
    var (y, m) := SplitOnce(digits, '-').value;
    SplitJoins(digits, '-');
    Signed(text, y, m);
  }

  lemma SplitJoins(s: string, c: char)
    requires SplitOnce(s, c).Some?
    ensures s == SplitOnce(s, c).value.0 + [c] + SplitOnce(s, c).value.1
  {
  }

  lemma Signed(text: string, y: string, m: string)
    requires |text| > 0 && |y| > 0 && |m| > 0 && AllDigits(y) && AllDigits(m)
    requires (if text[0] == '-' || text[0] == '+' then text[1..] else text) == y + ['-'] + m
    ensures exists sign: string :: IsYearMonth(text, sign, y, m)
  {
    hide AllDigits;
    if text[0] == '-' || text[0] == '+' {
      assert text == text[..1] + text[1..] && (text[..1] == "-" || text[..1] == "+");
      assert IsYearMonth(text, text[..1], y, m);
    } else {
      assert text == "" + text;
      assert IsYearMonth(text, "", y, m);
    }
  }

  predicate IsYearMonth(text: string, sign: string, y: string, m: string) {
    && sign in ["", "+", "-"] && text == sign + (y + "-" + m)
    && |y| > 0 && |m| > 0 && AllDigits(y) && AllDigits(m)
  }

  lemma FirstDigit(s: string)
    requires |s| > 0 && AllDigits(s)
    ensures s[0] != '+' && s[0] != '-'
  {
  }

  lemma YearMonthStep(body: string, unsigned: string, y: string, m: string)
    requires |body| > 0 && unsigned == if body[0] == '-' || body[0] == '+' then body[1..] else body
    requires SplitOnce(unsigned, '-') == Some((y, m)) && |y| > 0 && |m| > 0 && AllDigits(y) && AllDigits(m)
    ensures ParseYearMonth(body)
         == Some(Counts(if body[0] == '-' then -(Value(y) * 12 + Value(m)) else Value(y) * 12 + Value(m), 0, 0))
  {
    hide Value, SplitOnce;
  }

  // ---------------------------------------------------------------------
  // The whole literal
  // ---------------------------------------------------------------------

  /** A body by itself: no space or `@` around it, and no `ago` at its end. */
  predicate Bare(body: string) {
    && |body| > 0 && !IsSpace(body[0]) && !IsSpace(body[|body| - 1]) && body[0] != '@'
    && !EndsWith(Lower(body), "ago")
  }

  /** An `@` before a body changes nothing, and `ago` after it turns the sign of
      every count. */
  lemma LiteralReads(body: string, fields: Counts, at: bool, ago: bool)
    requires Bare(body) && ParseFields(body) == Ok(fields)
    ensures Normalize((if at then "@ " else "") + body + (if ago then " ago" else ""))
         == Ok(ToPostgresText(if ago then Counts(-fields.months, -fields.days, -fields.micros) else fields))
  {
    hide ParseFields, ToPostgresText, Trim;
    var text := (if at then "@ " else "") + body + (if ago then " ago" else "");
    var core := body + (if ago then " ago" else "");
    assert text == (if at then "@ " else "") + core;
    CoreEnds(body, ago);
    AtIsDropped(core, at);
    TrimNothing(core);
    TrimNothing(body);
    if ago {
      AgoIsRead(body);
      assert BodyOf(text) == (body, true);
    } else {
      assert core == body;
      assert BodyOf(text) == (body, false);
    }
  }

  lemma CoreEnds(body: string, ago: bool)
    requires Bare(body)
    ensures var core := body + (if ago then " ago" else "");
      |core| > 0 && core[0] == body[0] && !IsSpace(core[|core| - 1])
  {
  }

  lemma AtIsDropped(core: string, at: bool)
    requires |core| > 0 && !IsSpace(core[0]) && !IsSpace(core[|core| - 1]) && core[0] != '@'
    ensures var trimmed := Trim((if at then "@ " else "") + core);
      Trim(if |trimmed| > 0 && trimmed[0] == '@' then trimmed[1..] else trimmed) == core
  {
    hide Trim;
    TrimNothing(core);
    if at {
      var text := "@ " + core;
      TrimNothing(text);
      assert text[1..] == " " + core;
      SpaceBefore(core);
    } else {
      assert "" + core == core;
    }
  }

  lemma SpaceBefore(core: string)
    requires |core| > 0 && !IsSpace(core[0]) && !IsSpace(core[|core| - 1])
    ensures Trim(" " + core) == core
  {
    assert (" " + core)[1..] == core;
    assert TrimStart(" " + core) == TrimStart(core) == core;
  }

  lemma AgoIsRead(body: string)
    requires Bare(body)
    ensures var core := body + " ago";
      EndsWith(Lower(core), "ago") && core[|core| - 4] == ' ' && Trim(core[..|core| - 3]) == body
  {
    var core := body + " ago";
    assert Lower(core)[|core| - 3..] == "ago";
    assert core[..|core| - 3] == body + " ";
    SpaceAfter(body);
  }

  lemma SpaceAfter(body: string)
    requires |body| > 0 && !IsSpace(body[0]) && !IsSpace(body[|body| - 1])
    ensures Trim(body + " ") == body
  {
    assert (body + " ")[..|body|] == body;
    assert TrimStart(body + " ") == body + " ";
    assert TrimEnd(body + " ") == TrimEnd(body) == body;
  }
}
