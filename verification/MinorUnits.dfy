/** NUMERIC values held as an integer count of minor units: moving them between
    scales, reading decimal literals as counts, and printing counts back. */
module MinorUnits {
  import opened Wrappers
  import opened Text
  import opened SqliteExpr
  import Interval

  datatype Refusal = Exponent | TooFine

  /** A count at scale `before` as one at scale `after`. */
  function RescaleMinorUnits(value: Expr, before: nat, after: nat): Expr {
    if before == after then value
    else if after > before then Nested(Binary(value, Multiply, Number(Digits(Pow10(after - before)))))
    else
      var divisor := Pow10(before - after);
      var biased := Nested(Binary(value, Add, Binary(Number(Digits(divisor / 2)), Multiply, Call("sign", [value]))));
      Nested(Binary(biased, Divide, Number(Digits(divisor))))
  }

  /** The digits of a literal, and whether a minus sign stands before it. */
  function LiteralDigits(e: Expr): Option<(bool, string)> {
    match e
    case Number(digits) => Some((false, digits))
    case Unary(Minus, Number(digits)) => Some((true, digits))
    case Unary(Plus, Number(digits)) => Some((false, digits))
    case _ => None
  }

  /** What stands before the point and after it. */
  function Parts(text: string): (string, string) {
    if SplitOnce(text, '.').Some? then SplitOnce(text, '.').value else (text, "")
  }

  /** A decimal literal moved to `scale` by shifting its point. */
  function ScaleDecimalLiteral(e: Expr, scale: nat): Result<Option<Expr>, Refusal> {
    match LiteralDigits(e)
    case None => Ok(None)
    case Some((negated, digits)) =>
      if Contains(digits, 'e') || Contains(digits, 'E') then Err(Exponent)
      else
        var (whole, fraction) := Parts(digits);
        if |fraction| > scale then Err(TooFine)
        else Ok(Some(Number((if negated then "-" else "") + whole + fraction + Zeros(scale - |fraction|))))
  }

  /** The number a quoted text spells, as a literal. */
  function QuotedDecimalAsNumber(text: string): Option<Expr> {
    var trimmed := Trim(text);
    var unsigned := if |trimmed| > 0 && trimmed[0] in "-+" then trimmed[1..] else trimmed;
    if !IsDecimal(unsigned) then None
    else Some(Number(if |trimmed| > 0 && trimmed[0] == '-' then "-" + unsigned else unsigned))
  }

  /** Digits and at most one point, with a digit among them. */
  predicate IsDecimal(s: string) {
    && (forall i :: 0 <= i < |s| ==> IsDigit(s[i]) || s[i] == '.')
    && (forall i, j :: 0 <= i < j < |s| && s[i] == '.' ==> s[j] != '.')
    && (exists i :: 0 <= i < |s| && IsDigit(s[i]))
  }

  /** A count printed with its point at `scale`. */
  function RenderMinorUnitsAsText(value: Expr, scale: nat): Expr {
    var factor := Number(Digits(Pow10(scale)));
    var absolute := Call("abs", [value]);
    var sign := CaseWhen(Binary(value, Less, Number("0")), Quoted("-"), Some(Quoted("")));
    var whole, fraction := Binary(absolute, Divide, factor), Binary(absolute, Modulo, factor);
    CaseWhen(IsNull(value), Null, Some(Call("printf",
      [Quoted("%s%d.%0" + Digits(scale) + "d"), sign, whole, fraction])))
  }

  // ---------------------------------------------------------------------
  // Evaluating emitted expressions
  // ---------------------------------------------------------------------

  lemma DigitsEvaluate(row: Row, n: nat)
    ensures Eval(row, Number(Digits(n))) == Integer(n)
  {
    WholeNumber(Digits(n));
    ValueOfDigits(n);
  }

  // ---------------------------------------------------------------------
  // Moving between scales
  // ---------------------------------------------------------------------

  /** Growing the scale is exact. Shrinking it gives the nearest count, the one
      further from zero when two are as near. NULL stays NULL. */
  lemma RescaleRounds(row: Row, value: Expr, before: nat, after: nat)
    ensures Eval(row, value).NullValue? ==> Eval(row, RescaleMinorUnits(value, before, after)).NullValue?
    ensures Eval(row, value).Integer? && after >= before ==>
      Eval(row, RescaleMinorUnits(value, before, after)) == Integer(Eval(row, value).number * Pow10(after - before))
    ensures Eval(row, value).Integer? && after < before ==>
      var v, d := Eval(row, value).number, Pow10(before - after);
      exists r ::
        && Eval(row, RescaleMinorUnits(value, before, after)) == Integer(r)
        && (v >= 0 ==> r >= 0) && (v <= 0 ==> r <= 0)
        && 2 * (Interval.Abs(r) * d) - d <= 2 * Interval.Abs(v) < 2 * (Interval.Abs(r) * d) + d
  {
    hide Eval, Pow10, Digits, NumberValue;
    if before < after {
      var grown := RescaleMinorUnits(value, before, after);
      DigitsEvaluate(row, Pow10(after - before));
      NestedEvaluates(row, grown.inner);
      BinaryEvaluates(row, grown.inner);
    } else if after < before {
      ShrunkEvaluates(row, value, before, after);
      if Eval(row, value).Integer? {
        var v, d := Eval(row, value).number, Pow10(before - after);
        Interval.RoundingDivIsNearest(v, d);
      }
    } else {
      NoPower();
    }
  }

  lemma NoPower()
    ensures Pow10(0) == 1
  {
  }

  lemma ShrunkEvaluates(row: Row, value: Expr, before: nat, after: nat)
    requires after < before
    ensures Eval(row, value).NullValue? ==> Eval(row, RescaleMinorUnits(value, before, after)).NullValue?
    ensures Eval(row, value).Integer? ==>
      Eval(row, RescaleMinorUnits(value, before, after))
        == Integer(Interval.RoundingDiv(Eval(row, value).number, Pow10(before - after)))
  {
    hide Eval, EvalAll, Pow10, Digits, NumberValue, Interval.TruncDiv;
    var divisor := Pow10(before - after);
    var shrunk := RescaleMinorUnits(value, before, after);
    var biased := shrunk.inner.left.inner;
    DigitsEvaluate(row, divisor / 2);
    DigitsEvaluate(row, divisor);
    AllEvaluates(row, [value]);
    assert [value][0] == value;
    assert EvalAll(row, [value]) == [Eval(row, value)];
    CallEvaluates(row, "sign", [value]);
    BinaryEvaluates(row, biased.right);
    BinaryEvaluates(row, biased);
    NestedEvaluates(row, biased);
    BinaryEvaluates(row, shrunk.inner);
    NestedEvaluates(row, shrunk.inner);
    if Eval(row, value).Integer? {
      HalfWithSign(Eval(row, value).number, divisor);
    }
  }

  lemma HalfWithSign(v: int, divisor: nat)
    requires divisor > 0
    ensures Interval.TruncDiv(v + divisor / 2 * (if v > 0 then 1 else if v < 0 then -1 else 0), divisor)
        == Interval.RoundingDiv(v, divisor)
  {
    if v == 0 {
      Interval.TruncDivUnique(0, divisor, 0, 0);
      Interval.TruncDivUnique(divisor / 2, divisor, 0, divisor / 2);
    }
  }

  // ---------------------------------------------------------------------
  // Literals
  // ---------------------------------------------------------------------

  /** What a literal expression denotes. */
  function LiteralValue(e: Expr): Option<Decimal> {
    match e
    case Number(digits) => NumberValue(digits)
    case Unary(Plus, Number(digits)) => NumberValue(digits)
    case Unary(Minus, Number(digits)) =>
      (match NumberValue(digits) case Some(d) => Some(Decimal(-d.units, d.scale)) case None => None)
    case _ => None
  }

  lemma UnsignedShape(u: string)
    requires UnsignedValue(u).Some?
    ensures var (whole, fraction) := Parts(u);
      && AllDigits(whole) && AllDigits(fraction) && |whole + fraction| > 0
      && UnsignedValue(u) == Some(Decimal(Text.Value(whole + fraction), |fraction|))
      && u == whole + (if SplitOnce(u, '.').Some? then "." + fraction else "")
  {
    hide Text.Value, Find;
    var (whole, fraction) := Parts(u);
    assert forall i :: 0 <= i < |whole| ==> (whole + fraction)[i] == whole[i];
    assert forall i :: 0 <= i < |fraction| ==> (whole + fraction)[|whole| + i] == fraction[i];
  }

  lemma UnsignedChars(u: string)
    requires UnsignedValue(u).Some?
    ensures |u| > 0 && forall i :: 0 <= i < |u| ==> IsDigit(u[i]) || u[i] == '.'
  {
    UnsignedShape(u);
  }

  lemma SignedParts(u: string)
    ensures Parts("-" + u) == ("-" + Parts(u).0, Parts(u).1)
  {
    var s := "-" + u;
    assert s[1..] == u;
    if Find(u, '.').Some? {
      var i := Find(u, '.').value;
      assert s[..i + 1] == "-" + u[..i] && s[i + 2..] == u[i + 1..];
    }
  }

  /** The digits, moved: what an unsigned literal counts at `scale`. */
  lemma DigitsMove(u: string, scale: nat)
    requires UnsignedValue(u).Some? && UnsignedValue(u).value.scale <= scale
    ensures var ((whole, fraction), d) := (Parts(u), UnsignedValue(u).value);
            |fraction| == d.scale
            && NumberValue(whole + fraction + Zeros(scale - |fraction|))
                == Some(Decimal(d.units * Pow10(scale - d.scale), 0))
            && NumberValue("-" + whole + fraction + Zeros(scale - |fraction|))
                == Some(Decimal(-(d.units * Pow10(scale - d.scale)), 0))
  {
    hide SplitOnce, NumberValue, UnsignedValue, Text.Value, Pow10, Parts;
    UnsignedShape(u);
    var (whole, fraction) := Parts(u);
    var zeros := Zeros(scale - |fraction|);
    ValueOfConcat(whole + fraction, zeros);
    ValueOfZeros(|zeros|);
    WholeNumber(whole + fraction + zeros);
    assert "-" + whole + fraction + zeros == "-" + (whole + fraction + zeros);
  }

  /** A literal too fine for the scale is refused; any other becomes a count of
      exactly its value times ten to the scale, unless a minus sign stands
      before digits that carry their own. */
  lemma ScaledLiteral(e: Expr, scale: nat)
    requires LiteralValue(e).Some?
    ensures var d := LiteralValue(e).value;
      && (ScaleDecimalLiteral(e, scale) == Err(TooFine) <==> d.scale > scale)
      && (d.scale <= scale ==>
            && ScaleDecimalLiteral(e, scale).Ok? && ScaleDecimalLiteral(e, scale).value.Some?
            && (LiteralValue(ScaleDecimalLiteral(e, scale).value.value)
                == Some(Decimal(d.units * Pow10(scale - d.scale), 0))
                <==> !(e.Unary? && e.op.Minus? && "-" <= e.operand.digits)))
  {
    hide Parts, UnsignedValue, NumberValue, Pow10, Contains, Zeros;
    var (negated, digits) := LiteralDigits(e).value;
    var signed := "-" <= digits;
    var u := if signed then digits[1..] else digits;
    assert digits == if signed then "-" + u else u;
    SignGiven(digits, u);
    SignedParts(u);
    NoExponent(digits, u);
    UnsignedFraction(u);
    if |Parts(u).1| <= scale {
      DigitsMove(u, scale);
      var (whole, fraction) := Parts(u);
      var zeros := Zeros(scale - |fraction|);
      var sign := if negated then "-" else "";
      Glued(sign, signed, whole, fraction, zeros);
      TwoSigns(whole + fraction + zeros);
      Negatives(UnsignedValue(u).value.units, Pow10(scale - |fraction|));
    }
  }

  /** The sign of a number's text, apart from its digits. */
  lemma SignGiven(digits: string, u: string)
    requires digits == u || digits == "-" + u
    ensures digits == "-" + u ==>
      NumberValue(digits) == if UnsignedValue(u).Some?
        then Some(Decimal(-UnsignedValue(u).value.units, UnsignedValue(u).value.scale)) else None
    ensures digits == u && !("-" <= u) ==> NumberValue(digits) == UnsignedValue(u)
  {
    assert ("-" + u)[1..] == u;
  }

  lemma Glued(sign: string, signed: bool, whole: string, fraction: string, zeros: string)
    ensures var before := if signed then "-" + whole else whole;
            sign + before + fraction + zeros == sign + (if signed then "-" else "") + (whole + fraction + zeros)
    ensures "" + (whole + fraction + zeros) == whole + fraction + zeros
    ensures "" + "" == "" && "-" + "" == "-" && "" + "-" == "-" && "-" + "-" == "--"
    ensures "-" + (whole + fraction + zeros) == "-" + whole + fraction + zeros
  {
  }

  lemma Negatives(a: int, b: int)
    ensures (-a) * b == -(a * b)
  {
  }

  lemma UnsignedFraction(u: string)
    requires UnsignedValue(u).Some?
    ensures |Parts(u).1| == UnsignedValue(u).value.scale
  {
  }

  lemma NoExponent(digits: string, u: string)
    requires UnsignedValue(u).Some? && (digits == u || digits == "-" + u)
    ensures !Contains(digits, 'e') && !Contains(digits, 'E')
    ensures u[..1] != "-"
  {
    UnsignedChars(u);
  }

  lemma TwoSigns(rest: string)
    ensures NumberValue("--" + rest) == None
  {
    var u := ("--" + rest)[1..];
    assert u == "-" + rest;
    SignedParts(rest);
    assert (("-" + Parts(rest).0) + Parts(rest).1)[0] == '-';
  }

  /** A literal the translator scales: one the parser wrote, whose digits carry
      no sign of their own, or a quoted decimal read back. */
  ghost predicate Built(e: Expr) {
    || (LiteralDigits(e).Some? && UnsignedValue(LiteralDigits(e).value.1).Some?)
    || exists text :: QuotedDecimalAsNumber(text) == Some(e)
  }

  lemma DecimalDenotes(u: string)
    requires IsDecimal(u)
    ensures UnsignedValue(u).Some?
  {
    hide Text.Value;
    var (whole, fraction) := Parts(u);
    var i :| 0 <= i < |u| && IsDigit(u[i]);
    match Find(u, '.')
    case None =>
      assert forall k :: 0 <= k < |u| ==> u[k] != '.';
      assert whole + fraction == u;
    case Some(point) =>
      assert forall k :: 0 <= k < |fraction| ==> fraction[k] == u[point + 1 + k];
      assert |whole + fraction| == |u| - 1;
  }

  /** Every such literal is scaled exactly or refused as too fine. */
  lemma BuiltKeepsItsValue(e: Expr, scale: nat)
    requires Built(e)
    ensures LiteralValue(e).Some?
    ensures var d := LiteralValue(e).value;
      if d.scale > scale then ScaleDecimalLiteral(e, scale) == Err(TooFine)
      else
        && ScaleDecimalLiteral(e, scale).Ok? && ScaleDecimalLiteral(e, scale).value.Some?
        && LiteralValue(ScaleDecimalLiteral(e, scale).value.value) == Some(Decimal(d.units * Pow10(scale - d.scale), 0))
  {
    hide UnsignedValue, NumberValue, ScaleDecimalLiteral, Trim, IsDecimal, Pow10;
    var digits := LiteralDigits(e).value.1;
    if UnsignedValue(digits).Some? {
      SignGiven(digits, digits);
      NoExponent(digits, digits);
    } else {
      var text :| QuotedDecimalAsNumber(text) == Some(e);
      var u := if "-" <= digits then digits[1..] else digits;
      DecimalDenotes(if |Trim(text)| > 0 && Trim(text)[0] in "-+" then Trim(text)[1..] else Trim(text));
      assert UnsignedValue(u).Some? && digits == "-" + u;
      SignGiven(digits, u);
    }
    ScaledLiteral(e, scale);
  }

  /** A quoted text is a number exactly when, without the spaces around it, it is a
      sign or none and then a decimal, and a minus sign is all that is kept of it. */
  lemma QuotedIsSigned(text: string)
    ensures QuotedDecimalAsNumber(text).Some? <==>
      exists sign: string, u: string :: SignedDecimal(Trim(text), sign, u)
    ensures forall sign, u :: SignedDecimal(Trim(text), sign, u) ==>
      QuotedDecimalAsNumber(text) == Some(Number(if sign == "-" then "-" + u else u))
  {
    hide Trim, IsDecimal;
    var trimmed := Trim(text);
    forall u | IsDecimal(u) ensures |u| > 0 && u[0] != '-' && u[0] != '+' {
      DecimalStarts(u);
    }
    if |trimmed| > 0 && trimmed[0] in "-+" {
      assert trimmed == trimmed[..1] + trimmed[1..] && (trimmed[..1] == "-" || trimmed[..1] == "+");
      assert IsDecimal(trimmed[1..]) ==> SignedDecimal(trimmed, trimmed[..1], trimmed[1..]);
    } else {
      assert trimmed == "" + trimmed;
      assert IsDecimal(trimmed) ==> SignedDecimal(trimmed, "", trimmed);
    }
    forall sign, u | SignedDecimal(trimmed, sign, u)
      ensures QuotedDecimalAsNumber(text) == Some(Number(if sign == "-" then "-" + u else u))
    {
      if sign == "" {
        assert trimmed == u;
      } else {
        assert trimmed[0] == sign[0] && trimmed[1..] == u;
      }
    }
  }

  predicate SignedDecimal(text: string, sign: string, u: string) {
    sign in ["", "+", "-"] && text == sign + u && IsDecimal(u)
  }

  lemma DecimalStarts(u: string)
    requires IsDecimal(u)
    ensures |u| > 0 && u[0] != '-' && u[0] != '+'
  {
  }

  /** Only a number, signed or not, is scaled, and one with an exponent is refused. */
  lemma NumbersAreScaled(e: Expr, scale: nat)
    ensures ScaleDecimalLiteral(e, scale) == Ok(None) <==>
      !(e.Number? || (e.Unary? && (e.op.Minus? || e.op.Plus?) && e.operand.Number?))
    ensures ScaleDecimalLiteral(e, scale) == Err(Exponent) <==>
      var digits := if e.Number? then e.digits else if e.Unary? && e.operand.Number? then e.operand.digits else "";
      (e.Number? || (e.Unary? && (e.op.Minus? || e.op.Plus?))) && ('e' in digits || 'E' in digits)
  {
    hide Parts, Zeros;
  }

  /** The literal `ScaledLiteral` sets apart is none of those. */
  lemma SignTwice()
    ensures var e := Unary(Minus, Number("-1"));
      && LiteralValue(e) == Some(Decimal(1, 0)) && !Built(e)
      && ScaleDecimalLiteral(e, 0) == Ok(Some(Number("--1"))) && NumberValue("--1") == None
  {
    hide Pow10;
    TwoSigns("1");
    SignedParts("1");
    UnsignedWhole("1");
    assert ("-1")[1..] == "1" && "-" + "1" == "-1" && "--" + "1" == "--1";
    assert !AllDigits("-1") by { assert ("-1")[0] == '-'; }
    assert Zeros(0) == "";
    assert Find("1", '.').None?;
    assert Parts("1") == ("1", "") && Parts("-1") == ("-1", "");
    assert UnsignedValue("-1") == None by { assert "-1" + "" == "-1"; }
    assert "-" + "-1" + "" + "" == "--1";
  }

  // ---------------------------------------------------------------------
  // Printing counts
  // ---------------------------------------------------------------------

  function Whole(n: nat, p: nat): nat
    requires p > 0
  {
    n / p
  }

  function Places(n: nat, p: nat): nat
    requires p > 0
  {
    n % p
  }

  lemma WholeAndPlaces(n: nat, p: nat)
    requires p > 0
    ensures n == Whole(n, p) * p + Places(n, p) && Places(n, p) < p
    ensures Interval.TruncDiv(n, p) == Whole(n, p) && Interval.TruncMod(n, p) == Places(n, p)
  {
    Interval.TruncDivUnique(n, p, n / p, n % p);
  }

  function UnsignedText(n: nat, scale: nat): string {
    Digits(Whole(n, Pow10(scale))) + "." + Pad(Places(n, Pow10(scale)), scale)
  }

  function RenderedText(v: int, scale: nat): string {
    if v < 0 then "-" + UnsignedText(-v, scale) else UnsignedText(v, scale)
  }

  lemma PaddedPrintf(scale: nat, fraction: nat)
    ensures Printf("%0" + Digits(scale) + "d", [Integer(fraction)]) == Some(Pad(fraction, scale))
  {
    hide Pad, Digits;
    var format := "%0" + Digits(scale) + "d";
    DigitsHoldNoOther(Digits(scale), 'd');
    assert !Contains("%0" + Digits(scale), 'd');
    FindAt("%0" + Digits(scale), 'd', "");
    assert format + "" == format;
    var end := |Digits(scale)| + 2;
    assert format[2..end] == Digits(scale) && format[end + 1..] == "";
    ValueOfDigits(scale);
    assert [Integer(fraction)][1..] == [];
    assert Printf("", []) == Some("");
    assert Pad(fraction, scale) + "" == Pad(fraction, scale);
  }

  lemma PrintfLiteral(c: char, format: string, args: seq<Value>)
    requires c != '%'
    ensures Printf([c] + format, args) == match Printf(format, args)
        case Some(rest) => Some([c] + rest)
        case None => None
  {
    assert ([c] + format)[1..] == format;
  }

  lemma PrintfText(text: string, format: string, args: seq<Value>)
    ensures Printf("%s" + format, [String(text)] + args) == match Printf(format, args)
        case Some(rest) => Some(text + rest)
        case None => None
  {
    assert ("%s" + format)[2..] == format && ([String(text)] + args)[1..] == args;
  }

  lemma PrintfNumber(n: nat, format: string, args: seq<Value>)
    ensures Printf("%d" + format, [Integer(n)] + args) == match Printf(format, args)
        case Some(rest) => Some(Digits(n) + rest)
        case None => None
  {
    hide Digits, Find;
    var whole, all := "%d" + format, [Integer(n)] + args;
    assert whole[2..] == format && all[1..] == args ;
    assert whole[1] == 'd' && "%s"[1] == 's' && whole[..2] == "%d";
  }

  lemma TemplatePrintf(sign: string, whole: nat, fraction: nat, scale: nat)
    ensures Printf("%s%d.%0" + Digits(scale) + "d", [String(sign), Integer(whole), Integer(fraction)])
         == Some(sign + (Digits(whole) + ("." + Pad(fraction, scale))))
  {
    hide Pad, Digits, Find, Printf;
    var padded := "%0" + Digits(scale) + "d";
    PaddedPrintf(scale, fraction);
    PrintfLiteral('.', padded, [Integer(fraction)]);
    PrintfNumber(whole, "." + padded, [Integer(fraction)]);
    PrintfText(sign, "%d" + ("." + padded), [Integer(whole)] + [Integer(fraction)]);
    assert "%s" + ("%d" + ("." + padded)) == "%s%d.%0" + Digits(scale) + "d";
    assert [String(sign)] + ([Integer(whole)] + [Integer(fraction)])
      == [String(sign), Integer(whole), Integer(fraction)];
  }

  lemma SignEvaluates(row: Row, value: Expr)
    requires Eval(row, value).Integer?
    ensures Eval(row, CaseWhen(Binary(value, Less, Number("0")), Quoted("-"), Some(Quoted(""))))
         == String(if Eval(row, value).number < 0 then "-" else "")
  {
    hide Eval, NumberValue;
    var negative := Binary(value, Less, Number("0"));
    ZeroEvaluates(row);
    BinaryEvaluates(row, negative);
    QuotedEvaluates(row, "-");
    QuotedEvaluates(row, "");
    CaseEvaluates(row, negative, Quoted("-"), Quoted(""));
  }

  lemma MagnitudeEvaluates(row: Row, value: Expr, scale: nat)
    requires Eval(row, value).Integer?
    ensures var (n, factor) := (Interval.Abs(Eval(row, value).number), Number(Digits(Pow10(scale))));
      && Eval(row, Binary(Call("abs", [value]), Divide, factor)) == Integer(Whole(n, Pow10(scale)))
      && Eval(row, Binary(Call("abs", [value]), Modulo, factor)) == Integer(Places(n, Pow10(scale)))
  {
    hide Pow10, Digits, NumberValue, EvalAll, Whole, Places, Interval.TruncDiv, Interval.TruncMod, Eval;
    var n, p := Interval.Abs(Eval(row, value).number), Pow10(scale);
    DigitsEvaluate(row, p);
    AllEvaluates(row, [value]);
    assert [value][0] == value;
    assert EvalAll(row, [value]) == [Eval(row, value)];
    CallEvaluates(row, "abs", [value]);
    BinaryEvaluates(row, Binary(Call("abs", [value]), Divide, Number(Digits(p))));
    BinaryEvaluates(row, Binary(Call("abs", [value]), Modulo, Number(Digits(p))));
    WholeAndPlaces(n, p);
  }

  /** The printed text carries the sign, the whole part and all the places. */
  lemma RenderEvaluates(row: Row, value: Expr, scale: nat)
    ensures Eval(row, value).NullValue? ==> Eval(row, RenderMinorUnitsAsText(value, scale)).NullValue?
    ensures Eval(row, value).Integer? ==>
      Eval(row, RenderMinorUnitsAsText(value, scale)) == String(RenderedText(Eval(row, value).number, scale))
  {
    hide Pow10, Digits, Pad, NumberValue, EvalAll, EvalBinary, Printf, Eval, Whole, Places, RenderedText;
    var e := RenderMinorUnitsAsText(value, scale);
    var rendered := e.otherwise.value;
    CaseEvaluates(row, IsNull(value), Null, rendered);
    NullEvaluates(row, value);
    QuotedEvaluates(row, rendered.args[0].text);
    if Eval(row, value).Integer? {
      var v := Eval(row, value).number;
      var n, p := Interval.Abs(v), Pow10(scale);
      SignEvaluates(row, value);
      MagnitudeEvaluates(row, value, scale);
      TemplatePrintf(if v < 0 then "-" else "", Whole(n, p), Places(n, p), scale);
      AllEvaluates(row, rendered.args);
      var values := EvalAll(row, rendered.args);
      assert values[1..] == [String(if v < 0 then "-" else ""), Integer(Whole(n, p)), Integer(Places(n, p))];
      CallEvaluates(row, "printf", rendered.args);
      Assemble(v, scale);
    }
  }

  lemma NullEvaluates(row: Row, value: Expr)
    ensures Eval(row, Null) == NullValue && Eval(row, IsNull(value)) == TruthValue(Truth3(Eval(row, value).NullValue?))
  {
  }

  lemma Assemble(v: int, scale: nat)
    ensures var (n, p) := (Interval.Abs(v), Pow10(scale));
            RenderedText(v, scale) == (if v < 0 then "-" else "")
              + (Digits(Whole(n, p)) + ("." + Pad(Places(n, p), scale)))
  {
    hide Pow10, Digits, Pad, Whole, Places;
  }

  /** The printed magnitude denotes it. */
  lemma UnsignedTextDenotes(n: nat, scale: nat)
    requires scale >= 1
    ensures UnsignedValue(UnsignedText(n, scale)) == Some(Decimal(n, scale))
  {
    hide Pow10, Digits, Pad, Text.Value, UnsignedValue, Whole, Places;
    var p := Pow10(scale);
    var whole, fraction := Digits(Whole(n, p)), Pad(Places(n, p), scale);
    WholeAndPlaces(n, p);
    PadLength(Places(n, p), scale);
    PointedNumber(whole, fraction);
    ValueOfConcat(whole, fraction);
    ValueOfDigits(Whole(n, p));
    ValueOfPad(Places(n, p), scale);
  }

  lemma UnsignedTextIsDecimal(n: nat, scale: nat)
    ensures var u := UnsignedText(n, scale); IsDecimal(u) && |u| > 0 && IsDigit(u[0]) && IsDigit(u[|u| - 1])
  {
    hide Pow10, Digits, Pad, Whole, Places;
    var u := UnsignedText(n, scale);
    var point := |Digits(Whole(n, Pow10(scale)))|;
    assert forall i :: 0 <= i < |u| ==> (IsDigit(u[i]) <==> i != point);
    assert u[point] == '.';
    assert IsDigit(u[0]);
  }

  /** A printed text read back is the number it spells. */
  lemma PrintedIsNumber(v: int, scale: nat)
    ensures QuotedDecimalAsNumber(RenderedText(v, scale)) == Some(Number(RenderedText(v, scale)))
  {
    hide UnsignedText, IsDecimal, Trim;
    var text, u := RenderedText(v, scale), UnsignedText(Interval.Abs(v), scale);
    UnsignedTextIsDecimal(Interval.Abs(v), scale);
    assert text[|text| - 1] == u[|u| - 1];
    TrimNothing(text);
    assert v < 0 ==> text[1..] == u;
  }

  /** Printing a count and reading the text back into a column of its scale
      gives the count. */
  lemma RenderedReadsBack(row: Row, value: Expr, v: int, scale: nat)
    requires scale >= 1 && Eval(row, value) == Integer(v)
    ensures var printed := Eval(row, RenderMinorUnitsAsText(value, scale));
      && printed.String? && QuotedDecimalAsNumber(printed.text).Some?
      && var scaled := ScaleDecimalLiteral(QuotedDecimalAsNumber(printed.text).value, scale);
         scaled.Ok? && scaled.value.Some? && Eval(row, scaled.value.value) == Integer(v)
  {
    hide RenderMinorUnitsAsText, UnsignedText, NumberValue, UnsignedValue, ScaleDecimalLiteral, QuotedDecimalAsNumber;
    RenderEvaluates(row, value, scale);
    PrintedIsNumber(v, scale);
    var text, u := RenderedText(v, scale), UnsignedText(Interval.Abs(v), scale);
    UnsignedTextDenotes(Interval.Abs(v), scale);
    UnsignedTextIsDecimal(Interval.Abs(v), scale);
    SignGiven(text, u);
    ScaledLiteral(Number(text), scale);
    NoPower();
    ScaledIsNumber(Number(text), scale);
  }

  lemma ScaledIsNumber(e: Expr, scale: nat)
    requires ScaleDecimalLiteral(e, scale).Ok? && ScaleDecimalLiteral(e, scale).value.Some?
    ensures ScaleDecimalLiteral(e, scale).value.value.Number?
  {
  }
}
