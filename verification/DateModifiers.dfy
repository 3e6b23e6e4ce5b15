/** The SQLite date modifiers of an interval literal times an integer: reading
    its count and unit pairs, adding them up and writing the modifiers. */
module DateModifiers {
  import opened Wrappers
  import opened Text
  import opened Interval
  import opened IntervalText

  /** `INTERVAL 'body' leadingField TO ..`, the body none when it is not a quoted
      text. */
  datatype Literal = Literal(body: Option<string>, leadingField: Option<string>, toField: bool)

  function Pairs(tokens: seq<string>): seq<(string, string)>
    requires |tokens| % 2 == 0
  {
    if |tokens| == 0 then [] else [(tokens[0], Lower(tokens[1]))] + Pairs(tokens[2..])
  }

  /** The count and unit pairs of a literal in the notation this decodes. */
  function UnitPairs(literal: Literal): Option<seq<(string, string)>> {
    if literal.toField || literal.body.None? then None
    else
      var tokens := Words(literal.body.value);
      match literal.leadingField
      case Some(field) => if |tokens| == 1 then Some([(tokens[0], Lower(field))]) else None
      case None => if |tokens| > 0 && |tokens| % 2 == 0 then Some(Pairs(tokens)) else None
  }

  /** Counts and units in turn. */
  function Flat(pairs: seq<(string, string)>): seq<string> {
    if |pairs| == 0 then [] else [pairs[0].0, pairs[0].1] + Flat(pairs[1..])
  }

  lemma {:induction false} PairsOfFlat(pairs: seq<(string, string)>)
    ensures |Flat(pairs)| == 2 * |pairs| && |Pairs(Flat(pairs))| == |pairs|
    ensures forall k :: 0 <= k < |pairs| ==> Pairs(Flat(pairs))[k] == (pairs[k].0, Lower(pairs[k].1))
  {
    hide Lower;
    if |pairs| > 0 {
      PairsOfFlat(pairs[1..]);
      assert Flat(pairs)[2..] == Flat(pairs[1..]);
    }
  }

  lemma {:induction false} FlatAreWords(pairs: seq<(string, string)>)
    requires forall k :: 0 <= k < |pairs| ==> IsWord(pairs[k].0) && IsWord(pairs[k].1)
    ensures forall k :: 0 <= k < |Flat(pairs)| ==> IsWord(Flat(pairs)[k])
  {
    hide IsWord;
    if |pairs| > 0 {
      FlatAreWords(pairs[1..]);
    }
  }

  /** A body of counts and units in turn reads as those pairs, the units in lower
      case, and `INTERVAL 'count' unit` as that one. */
  lemma SpelledPairsRead(pairs: seq<(string, string)>)
    requires |pairs| > 0 && forall k :: 0 <= k < |pairs| ==> IsWord(pairs[k].0) && IsWord(pairs[k].1)
    ensures var read := UnitPairs(Literal(Some(Join(Flat(pairs))), None, false));
      && read.Some? && |read.value| == |pairs|
      && forall k :: 0 <= k < |pairs| ==> read.value[k] == (pairs[k].0, Lower(pairs[k].1))
    ensures UnitPairs(Literal(Some(pairs[0].0), Some(pairs[0].1), false)) == Some([(pairs[0].0, Lower(pairs[0].1))])
  {
    hide Words, Join, IsWord, Lower;
    PairsOfFlat(pairs);
    FlatAreWords(pairs);
    JoinThenWords(Flat(pairs));
    OneWord(pairs[0].0);
  }

  lemma OneWord(word: string)
    requires IsWord(word)
    ensures Words(word) == [word]
  {
    hide Words, IsWord;
    JoinThenWords([word]);
  }

  /** Every other notation is left alone. */
  lemma UndecodedAre(literal: Literal)
    ensures UnitPairs(literal).None? <==>
      || literal.toField || literal.body.None?
      || (literal.leadingField.Some? && |Words(literal.body.value)| != 1)
      || (literal.leadingField.None? && (Words(literal.body.value) == [] || |Words(literal.body.value)| % 2 == 1))
  {
  }

  /** What the pairs add up to, or the first of them that does not read: its
      count before its unit. */
  function Totals(pairs: seq<(string, string)>): Result<FoldedCounts, Unreadable> {
    if |pairs| == 0 then Ok(FoldedCounts(0, 0))
    else
      var before :- Totals(pairs[..|pairs| - 1]);
      var (count, unit) := pairs[|pairs| - 1];
      match (ParseDecimal(count), UnitScaleOf(unit))
      case (None, _) => Err(NotANumber(count))
      case (Some(_), None) => Err(NotAUnit(unit))
      case (Some(parsed), Some(scale)) => Ok(before.Add(parsed, scale))
  }

  /** The pairs hold decimal counts, those of `written`. */
  predicate Reads(pairs: seq<(string, string)>, written: Written) {
    && |pairs| == |written|
    && forall k :: 0 <= k < |pairs| ==> ParseDecimal(pairs[k].0) == Some(written[k].0) && pairs[k].1 == written[k].1
  }

  /** A literal is refused exactly when some count is no decimal or some unit is
      unknown; any other adds up to what its counts do. */
  lemma {:induction false} TotalsAreFolded(pairs: seq<(string, string)>)
    ensures Totals(pairs).Ok? <==>
        forall k :: 0 <= k < |pairs| ==> ParseDecimal(pairs[k].0).Some? && UnitScaleOf(pairs[k].1).Some?
    ensures forall written :: Reads(pairs, written) && Totals(pairs).Ok? ==>
        FoldedTotal(written) == Some(Totals(pairs).value)
  {
    hide ParseDecimal, UnitScaleOf;
    if |pairs| > 0 {
      var rest := pairs[..|pairs| - 1];
      TotalsAreFolded(rest);
      forall written | Reads(pairs, written) && Totals(pairs).Ok?
        ensures FoldedTotal(written) == Some(Totals(pairs).value)
      {
        assert Reads(rest, written[..|written| - 1]);
      }
    }
  }

  /** What comes after a pair that does not read makes no difference. */
  lemma {:induction false} RefusalStays(pairs: seq<(string, string)>, n: nat)
    requires n <= |pairs| && Totals(pairs[..n]).Err?
    ensures Totals(pairs) == Totals(pairs[..n])
    decreases |pairs| - n
  {
    if n == |pairs| {
      assert pairs[..n] == pairs;
    } else {
      assert pairs[..n + 1][..n] == pairs[..n];
      RefusalStays(pairs, n + 1);
    }
  }

  /** The modifiers of a literal times an integer, negated for subtraction: none
      for a notation this does not decode, a refusal for the first pair that
      does not read, and otherwise modifiers that shift by exactly that multiple
      of what was written. */
  method Scaled(literal: Literal, negate: bool, factor: int) returns (r: Result<Option<seq<string>>, Unreadable>)
    ensures r == Ok(None) <==> UnitPairs(literal).None?
    ensures UnitPairs(literal).Some? ==>
      match Totals(UnitPairs(literal).value)
      case Err(why) => r == Err(why)
      case Ok(total) =>
        var times := if negate then -factor else factor;
        r.Ok? && r.value.Some? && Spells(r.value.value, total.months * times, total.micros * times)
  {
    hide ReadAll, ModifiersOf, UnitScaleOf, RoundingDiv, TruncDiv, TruncMod, UnitPairs, ParseDecimal;
    if UnitPairs(literal).None? {
      return Ok(None);
    }
    var pairs := UnitPairs(literal).value;
    var fields := new IntervalFields();
    for i := 0 to |pairs|
      invariant fresh(fields) && Totals(pairs[..i]) == Ok(fields.Held())
    {
      assert pairs[..i + 1][..i] == pairs[..i];
      var count, scale := ParseDecimal(pairs[i].0), UnitScaleOf(pairs[i].1);
      if count.None? {
        RefusalStays(pairs, i + 1);
        return Err(NotANumber(pairs[i].0));
      }
      if scale.None? {
        RefusalStays(pairs, i + 1);
        return Err(NotAUnit(pairs[i].1));
      }
      fields.Add(count.value, scale.value);
    }
    assert pairs[..|pairs|] == pairs;
    ghost var total := fields.Held();
    fields.Scale(factor);
    if negate {
      fields.Negate();
      Opposite(total.months, factor);
      Opposite(total.micros, factor);
    }
    var modifiers := fields.Modifiers();
    ModifiersConserve(fields.Held());
    assert SpellsSplit(modifiers, fields.months, fields.micros, TruncDiv(fields.micros, MICROS_PER_DAY),
      TruncMod(fields.micros, MICROS_PER_DAY));
    r := Ok(Some(modifiers));
  }

  lemma Opposite(count: int, factor: int)
    ensures -(count * factor) == count * (-factor)
  {
  }
}
