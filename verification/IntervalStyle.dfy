/** The text PostgreSQL itself prints for an interval, and when the
    translator's is the same.

    Under its default IntervalStyle (section 8.5.5 of its documentation)
    PostgreSQL signs a positive field that follows a negative one; the
    translator never writes a plus sign. Read back, both texts are the same
    interval. */
module IntervalStyle {
  import opened Wrappers
  import opened Text
  import opened Interval
  import opened IntervalText

  /** A printed field: its number, and the unit word of all but the clock. */
  datatype Field = Field(value: int, number: string, unit: seq<string>)

  function CountField(count: int, one: string, many: string): seq<Field> {
    if count == 0 then [] else [Field(count, IntText(count), [if count == 1 then one else many])]
  }

  function TimeField(c: Counts): seq<Field> {
    if c.micros != 0 || (c.months == 0 && c.days == 0) then [Field(c.micros, ClockText(c.micros), [])] else []
  }

  /** The fields PostgreSQL prints, largest first. */
  function FieldsOf(c: Counts): seq<Field> {
    CountField(TruncDiv(c.months, 12), "year", "years")
    + (CountField(TruncMod(c.months, 12), "mon", "mons") + (CountField(c.days, "day", "days") + TimeField(c)))
  }

  /** Their words, `negative` saying that the field before was. */
  function Signed(fields: seq<Field>, negative: bool): seq<string> {
    if |fields| == 0 then []
    else
      var f := fields[0];
      [(if negative && f.value > 0 then "+" else "") + f.number] + f.unit + Signed(fields[1..], f.value < 0)
  }

  /** The text PostgreSQL prints. */
  function ServerText(c: Counts): string {
    Join(Signed(FieldsOf(c), false))
  }

  /** A positive field directly after a negative one. */
  predicate TurnsPositive(c: Counts) {
    || (c.months < 0 < c.days)
    || (c.micros > 0 && if c.days != 0 then c.days < 0 else c.months < 0)
  }

  // ---------------------------------------------------------------------
  // The two texts
  // ---------------------------------------------------------------------

  function Unsigned(fields: seq<Field>): seq<string> {
    if |fields| == 0 then [] else [fields[0].number] + fields[0].unit + Unsigned(fields[1..])
  }

  predicate Turns(fields: seq<Field>, negative: bool) {
    |fields| > 0 && ((negative && fields[0].value > 0) || Turns(fields[1..], fields[0].value < 0))
  }

  /** A word and the same with a plus sign. */
  predicate Alike(a: string, b: string) {
    a == b || (a == "+" + b && |b| > 0 && IsDigit(b[0]))
  }

  predicate AllAlike(a: seq<string>, b: seq<string>) {
    |a| == |b| && forall i :: 0 <= i < |a| ==> Alike(a[i], b[i])
  }

  predicate DigitFirst(f: Field) {
    f.value > 0 ==> |f.number| > 0 && IsDigit(f.number[0])
  }

  lemma {:induction false} SignedAlike(fields: seq<Field>, negative: bool)
    requires forall i :: 0 <= i < |fields| ==> DigitFirst(fields[i])
    ensures AllAlike(Signed(fields, negative), Unsigned(fields))
    ensures Signed(fields, negative) == Unsigned(fields) <==> !Turns(fields, negative)
    ensures |fields| > 0 && !negative ==> Signed(fields, negative)[0] == fields[0].number
  {
    if |fields| > 0 {
      var f := fields[0];
      SignedAlike(fields[1..], f.value < 0);
      var first := (if negative && f.value > 0 then "+" else "") + f.number;
      assert first == f.number <==> !(negative && f.value > 0);
      AlikeAround(first, f.number, f.unit, Signed(fields[1..], f.value < 0), Unsigned(fields[1..]));
    }
  }

  lemma AlikeAround(a: string, b: string, unit: seq<string>, moreA: seq<string>, moreB: seq<string>)
    requires Alike(a, b) && AllAlike(moreA, moreB)
    ensures AllAlike([a] + unit + moreA, [b] + unit + moreB)
    ensures [a] + unit + moreA == [b] + unit + moreB <==> a == b && moreA == moreB
  {
    if [a] + unit + moreA == [b] + unit + moreB {
      assert ([a] + unit + moreA)[0] == ([b] + unit + moreB)[0];
      assert ([a] + unit + moreA)[1 + |unit|..] == moreA && ([b] + unit + moreB)[1 + |unit|..] == moreB;
    }
  }

  lemma CountIsUnsigned(count: int, one: string, many: string, more: seq<Field>)
    ensures Unsigned(CountField(count, one, many) + more) == CountWords(count, one, many) + Unsigned(more)
  {
    if count != 0 {
      assert (CountField(count, one, many) + more)[1..] == more;
    } else {
      assert CountField(count, one, many) + more == more;
    }
  }

  /** Without the plus signs the words are the translator's. */
  lemma UnsignedIsPrinted(c: Counts)
    ensures Unsigned(FieldsOf(c)) == WordsOf(c)
  {
    hide CountField, CountWords, IntText, ClockText, TruncDiv, TruncMod;
    var time := TimeField(c);
    assert Unsigned(time) == TimeWords(c) by {
      assert |time| > 0 ==> time[1..] == [];
    }
    CountIsUnsigned(c.days, "day", "days", time);
    var days := CountField(c.days, "day", "days") + time;
    CountIsUnsigned(TruncMod(c.months, 12), "mon", "mons", days);
    CountIsUnsigned(TruncDiv(c.months, 12), "year", "years", CountField(TruncMod(c.months, 12), "mon", "mons") + days);
  }

  lemma CountsStartWithDigits(count: int, one: string, many: string)
    ensures forall f :: f in CountField(count, one, many) ==> DigitFirst(f)
  {
    hide Digits;
  }

  lemma TimeStartsWithDigit(c: Counts)
    ensures forall f :: f in TimeField(c) ==> DigitFirst(f)
  {
    hide ClockText, UnsignedClock;
    ClockIsSigned(c.micros);
    ClockStarts(Abs(c.micros));
    forall f | f in TimeField(c) ensures DigitFirst(f) {
      assert f == Field(c.micros, ClockText(c.micros), []);
      assert f.value > 0 ==> f.number == UnsignedClock(f.value);
    }
  }

  lemma NumbersStartWithDigits(c: Counts)
    ensures |FieldsOf(c)| > 0 && forall i :: 0 <= i < |FieldsOf(c)| ==> DigitFirst(FieldsOf(c)[i])
  {
    hide ClockText, TruncDiv, TruncMod, DigitFirst, IntText;
    NoMonths(c.months);
    CountsStartWithDigits(TruncDiv(c.months, 12), "year", "years");
    CountsStartWithDigits(TruncMod(c.months, 12), "mon", "mons");
    CountsStartWithDigits(c.days, "day", "days");
    TimeStartsWithDigit(c);
    assert forall f :: f in FieldsOf(c) ==> DigitFirst(f);
  }

  lemma CountTurns(count: int, one: string, many: string, more: seq<Field>, negative: bool)
    ensures Turns(CountField(count, one, many) + more, negative)
       <==> if count == 0 then Turns(more, negative) else (negative && count > 0) || Turns(more, count < 0)
  {
    if count != 0 {
      assert (CountField(count, one, many) + more)[1..] == more;
    } else {
      assert CountField(count, one, many) + more == more;
    }
  }

  lemma MonthsSigns(months: int)
    ensures var years, rest := TruncDiv(months, 12), TruncMod(months, 12);
      && (years > 0 || rest > 0 ==> months > 0) && (years < 0 || rest < 0 ==> months < 0)
      && (years == 0 && rest == 0 ==> months == 0)
  {
  }

  lemma TimeTurns(c: Counts, negative: bool)
    ensures Turns(TimeField(c), negative) <==> negative && c.micros > 0
  {
    hide ClockText;
    var time := TimeField(c);
    if |time| > 0 {
      assert time[1..] == [];
    }
  }

  lemma FieldsTurn(c: Counts)
    ensures Turns(FieldsOf(c), false) <==> TurnsPositive(c)
  {
    hide CountField, TimeField, Turns, TruncDiv, TruncMod;
    var years, months := TruncDiv(c.months, 12), TruncMod(c.months, 12);
    var days := CountField(c.days, "day", "days") + TimeField(c);
    MonthsSigns(c.months);
    CountTurns(years, "year", "years", CountField(months, "mon", "mons") + days, false);
    forall negative: bool
      ensures Turns(CountField(months, "mon", "mons") + days, negative)
         <==> if months == 0 then Turns(days, negative) else (negative && months > 0) || Turns(days, months < 0)
    {
      CountTurns(months, "mon", "mons", days, negative);
    }
    forall negative: bool
      ensures Turns(days, negative)
         <==> if c.days == 0 then negative && c.micros > 0 else (negative && c.days > 0) || (c.days < 0 && c.micros > 0)
    {
      CountTurns(c.days, "day", "days", TimeField(c), negative);
      TimeTurns(c, negative);
      TimeTurns(c, c.days < 0);
    }
  }

  lemma SignedAreWords(c: Counts)
    ensures forall i :: 0 <= i < |Signed(FieldsOf(c), false)| ==> IsWord(Signed(FieldsOf(c), false)[i])
    ensures forall i :: 0 <= i < |WordsOf(c)| ==> IsWord(WordsOf(c)[i])
  {
    hide Signed, FieldsOf, WordsOf;
    NumbersStartWithDigits(c);
    SignedAlike(FieldsOf(c), false);
    UnsignedIsPrinted(c);
    WordsAreWords(c);
    var a, b := Signed(FieldsOf(c), false), WordsOf(c);
    forall i | 0 <= i < |a| ensures IsWord(a[i]) {
      assert GoodEnds(b[i]) && Alike(a[i], b[i]);
    }
  }

  /** The translator prints what PostgreSQL prints exactly when no positive
      field directly follows a negative one. */
  lemma StylesAgree(c: Counts)
    ensures ToPostgresText(c) == ServerText(c) <==> !TurnsPositive(c)
  {
    hide Signed, FieldsOf, WordsOf, ToPostgresText, Join, Words, IsWord;
    NumbersStartWithDigits(c);
    SignedAlike(FieldsOf(c), false);
    UnsignedIsPrinted(c);
    FieldsTurn(c);
    TextIsWords(c);
    SignedAreWords(c);
    JoinThenWords(Signed(FieldsOf(c), false));
    JoinThenWords(WordsOf(c));
  }

  const MIXED := Counts(0, -1, MICROS_PER_SECOND)
  const DAY_BACK := Field(-1, "-1", ["days"])
  const SECOND_ON := Field(MICROS_PER_SECOND, "00:00:01", [])

  lemma MixedFields()
    ensures FieldsOf(MIXED) == [DAY_BACK, SECOND_ON]
  {
    hide ClockText;
    OneSecond();
    assert IntText(-1) == "-1";
    assert TruncDiv(0, 12) == 0 && TruncMod(0, 12) == 0;
  }

  lemma MixedWords()
    ensures Signed([DAY_BACK, SECOND_ON], false) == ["-1", "days", "+00:00:01"]
    ensures Unsigned([DAY_BACK, SECOND_ON]) == ["-1", "days", "00:00:01"]
  {
    assert [DAY_BACK, SECOND_ON][1..] == [SECOND_ON] && [SECOND_ON][1..] == [];
    assert "+" + "00:00:01" == "+00:00:01" && "" + "-1" == "-1";
    assert Signed([SECOND_ON], true) == ["+00:00:01"] by { assert Signed([], false) == []; }
    assert Unsigned([SECOND_ON]) == ["00:00:01"] by { assert Unsigned([]) == []; }
  }

  /** One day back and one second on. */
  lemma MixedSigns()
    ensures TurnsPositive(MIXED)
    ensures ServerText(MIXED) == "-1 days +00:00:01" && ToPostgresText(MIXED) == "-1 days 00:00:01"
  {
    hide Join, FieldsOf, WordsOf, Signed, Unsigned, ToPostgresText;
    MixedFields();
    MixedWords();
    TextIsWords(MIXED);
    UnsignedIsPrinted(MIXED);
    ThreeWords("-1", "days", "+00:00:01");
    ThreeWords("-1", "days", "00:00:01");
  }

  lemma OneSecond()
    ensures ClockText(MICROS_PER_SECOND) == "00:00:01"
  {
    assert Pad(0, 2) == "00" && Pad(1, 2) == "01";
  }

  lemma ThreeWords(a: string, b: string, c: string)
    ensures Join([a, b, c]) == a + " " + b + " " + c
  {
    assert [a, b, c][1..] == [b, c] && [b, c][1..] == [c];
    assert Join([b, c]) == b + " " + c;
    assert a + " " + (b + " " + c) == a + " " + b + " " + c;
  }

  // ---------------------------------------------------------------------
  // Both read back alike
  // ---------------------------------------------------------------------

  lemma PlusDecimal(count: string)
    requires |count| > 0 && IsDigit(count[0])
    ensures ParseDecimal("+" + count) == ParseDecimal(count)
  {
    hide SplitOnce, Value, Pow10;
    assert ("+" + count)[1..] == count;
  }

  lemma PlusAdds(fields: Counts, a: string, b: string, unit: string)
    requires Alike(a, b)
    ensures AddUnit(fields, b, unit).Ok? ==> AddUnit(fields, a, unit) == AddUnit(fields, b, unit)
  {
    hide ParseDecimal, LiteralScaleOf;
    if a != b {
      PlusDecimal(b);
    }
  }

  lemma PlusSplits(a: string, b: string)
    requires Alike(a, b)
    ensures Contains(a, ':') <==> Contains(b, ':')
    ensures SplitCountAndUnit(a).1 == SplitCountAndUnit(b).1
    ensures Alike(SplitCountAndUnit(a).0, SplitCountAndUnit(b).0)
    ensures SplitCountAndUnit(a).0 == "" <==> SplitCountAndUnit(b).0 == ""
  {
    if a != b {
      assert a[1..] == b;
      assert Contains(b, ':') ==> Contains(a, ':') by {
        if i :| 0 <= i < |b| && b[i] == ':' {
          assert a[i + 1] == ':';
        }
      }
      assert Contains(a, ':') ==> Contains(b, ':') by {
        if i :| 0 <= i < |a| && a[i] == ':' {
          assert b[i - 1] == ':';
        }
      }
      match FirstLetter(b)
      case None =>
      case Some(i) =>
        assert a[..i + 1] == "+" + b[..i] && a[i + 1..] == b[i..];
    }
  }

  lemma PlusClock(fields: Counts, pendingA: Option<string>, pendingB: Option<string>, a: string, b: string)
    requires Alike(a, b) && PendingAlike(pendingA, pendingB)
    ensures AddClock(fields, pendingB, b).Ok? ==> AddClock(fields, pendingA, a) == AddClock(fields, pendingB, b)
  {
    hide AddUnit, SplitAll;
    if pendingA.Some? {
      PlusAdds(fields, pendingA.value, pendingB.value, "days");
    }
    assert a != b ==> a[1..] == b;
  }

  predicate PendingAlike(a: Option<string>, b: Option<string>) {
    match (a, b) case (None, None) => true case (Some(s), Some(t)) => Alike(s, t) case _ => false
  }

  /** A plus sign before a digit is read as nothing. */
  lemma {:induction false} PlusReads(a: seq<string>, b: seq<string>, pendingA: Option<string>,
      pendingB: Option<string>, fields: Counts)
    requires AllAlike(a, b) && PendingAlike(pendingA, pendingB)
    requires ParseTokens(b, pendingB, fields).Ok?
    ensures ParseTokens(a, pendingA, fields) == ParseTokens(b, pendingB, fields)
  {
    hide AddUnit, AddClock, SplitCountAndUnit, Contains, Alike;
    if |b| == 0 {
      if pendingB.Some? {
        PlusAdds(fields, pendingA.value, pendingB.value, "seconds");
      }
    } else {
      assert Alike(a[0], b[0]);
      PlusSplits(a[0], b[0]);
      assert AllAlike(a[1..], b[1..]) by {
        assert forall i :: 0 <= i < |a[1..]| ==> a[1..][i] == a[i + 1] && b[1..][i] == b[i + 1];
      }
      if Contains(b[0], ':') {
        PlusClock(fields, pendingA, pendingB, a[0], b[0]);
        PlusReads(a[1..], b[1..], None, None, AddClock(fields, pendingB, b[0]).value);
      } else {
        match SplitCountAndUnit(b[0])
        case (count, Some(unit)) =>
          if pendingB.Some? {
            PlusAdds(fields, pendingA.value, pendingB.value, if count == "" then unit else "seconds");
          }
          if count == "" {
            PlusReads(a[1..], b[1..], None, None, AddUnit(fields, pendingB.value, unit).value);
          } else {
            var before := if pendingB.Some? then AddUnit(fields, pendingB.value, "seconds").value else fields;
            PlusAdds(before, SplitCountAndUnit(a[0]).0, count, unit);
            PlusReads(a[1..], b[1..], None, None, AddUnit(before, count, unit).value);
          }
        case (count, None) =>
          PlusReads(a[1..], b[1..], Some(SplitCountAndUnit(a[0]).0), Some(count), fields);
      }
    }
  }

  predicate StartsWell(s: string) {
    |s| > 0 && (IsDigit(s[0]) || s[0] == '-')
  }

  predicate EndsWell(s: string) {
    |s| > 0 && (IsDigit(s[|s| - 1]) || s[|s| - 1] in "rsny")
  }

  lemma GoodWord(a: string, b: string)
    requires Alike(a, b) && GoodEnds(b)
    ensures EndsWell(a) && (a == b && !IsAlphabetic(b[0]) ==> StartsWell(a))
  {
  }

  lemma EndWords(c: Counts)
    ensures var a := Signed(FieldsOf(c), false);
      && |a| > 0 && (forall i :: 0 <= i < |a| ==> EndsWell(a[i])) && StartsWell(a[0])
      && (|a| == 1 ==> a[0] == ClockText(c.micros))
  {
    hide Signed, FieldsOf, WordsOf, ClockText, Alike, GoodEnds, StartsWell, EndsWell, IsAlphabetic, IsDigit;
    var a, b := Signed(FieldsOf(c), false), WordsOf(c);
    NumbersStartWithDigits(c);
    SignedAlike(FieldsOf(c), false);
    UnsignedIsPrinted(c);
    WordsAreWords(c);
    FirstNumber(c);
    forall i | 0 <= i < |a| ensures EndsWell(a[i]) && (i == 0 ==> StartsWell(a[i])) {
      assert Alike(a[i], b[i]) && GoodEnds(b[i]);
      GoodWord(a[i], b[i]);
    }
  }

  lemma WordsEnd(words: seq<string>)
    requires |words| > 0 && (forall i :: 0 <= i < |words| ==> EndsWell(words[i])) && StartsWell(words[0])
    ensures StartsWell(Join(words)) && EndsWell(Join(words))
    ensures |words| > 1 ==> Contains(Join(words), ' ')
    ensures |words| == 1 ==> Join(words) == words[0]
  {
    hide Join, Contains, IsDigit;
    JoinEnds(words);
  }

  lemma ServerTextEnds(c: Counts)
    ensures StartsWell(ServerText(c)) && EndsWell(ServerText(c))
    ensures Contains(ServerText(c), ' ') || Contains(ServerText(c), ':')
    ensures Words(ServerText(c)) == Signed(FieldsOf(c), false)
  {
    hide Signed, FieldsOf, Join, Words, ClockText, Contains, IsWord, StartsWell, EndsWell, AddClock;
    var a := Signed(FieldsOf(c), false);
    EndWords(c);
    SignedAreWords(c);
    WordsEnd(a);
    JoinThenWords(a);
    ClockReads(c, c.micros);
  }

  lemma FirstNumber(c: Counts)
    ensures |Signed(FieldsOf(c), false)| > 0 && |WordsOf(c)| > 0 && Signed(FieldsOf(c), false)[0] == WordsOf(c)[0]
  {
    hide FieldsOf, WordsOf;
    NumbersStartWithDigits(c);
    UnsignedIsPrinted(c);
  }

  /** PostgreSQL's text reads as the interval it was printed from, just as the
      translator's does. */
  lemma ServerTextReadsBack(c: Counts)
    ensures ParseFields(ServerText(c)) == Ok(c)
  {
    hide ServerText, ParseTokens, ParseYearMonth, Words, WordsOf, Contains, Signed, FieldsOf;
    var t := ServerText(c);
    ServerTextEnds(c);
    if Contains(t, ' ') {
      YearMonthIsBare(t, ' ');
    } else {
      YearMonthIsBare(t, ':');
    }
    WordsRead(c);
    NumbersStartWithDigits(c);
    SignedAlike(FieldsOf(c), false);
    UnsignedIsPrinted(c);
    PlusReads(Words(t), WordsOf(c), None, None, Counts(0, 0, 0));
  }

  /** So a literal written as PostgreSQL prints it normalises to the text the
      translator prints. */
  lemma ServerTextNormalizes(c: Counts)
    ensures Normalize(ServerText(c)) == Ok(ToPostgresText(c))
  {
    hide ToPostgresText, ServerText, ParseFields, Contains, Trim, Signed, FieldsOf, Words;
    var t := ServerText(c);
    ServerTextEnds(c);
    ServerTextReadsBack(c);
    DigitIsNoSpace(t[0]);
    DigitIsNoSpace(t[|t| - 1]);
    TrimNothing(t);
    assert Lower(t)[|t| - 1] != 'o';
    assert "ago"[2] == 'o';
  }
}
