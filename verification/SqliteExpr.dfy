/** The scalar expressions the lowerings emit, and the values SQLite gives them. */
module SqliteExpr {
  import opened Wrappers
  import opened Text
  import Interval

  datatype UnaryOperator = Minus | Plus | Not

  datatype BinaryOperator = Add | Multiply | Divide | Modulo | Concat | Equal | NotEqual | Less | Greater | And

  datatype Expr =
    | Column(name: string)
    | Null
    | Number(digits: string)
    | Quoted(text: string)
    | Unary(op: UnaryOperator, operand: Expr)
    | Binary(left: Expr, operator: BinaryOperator, right: Expr)
    | Nested(inner: Expr)
    | IsNull(tested: Expr)
    | IsNotNull(tested: Expr)
    | Case(conditions: seq<CaseArm>, otherwise: Option<Expr>)
    | Call(name: string, args: seq<Expr>)

  datatype CaseArm = CaseArm(condition: Expr, result: Expr)

  /** `Other` stands for what these lowerings never compute: reals, blobs, and
      what a conversion between text and numbers gives. */
  datatype Value = NullValue | Integer(number: int) | String(text: string) | Other

  type Row = string -> Value

  function CaseWhen(condition: Expr, result: Expr, otherwise: Option<Expr>): Expr {
    Case([CaseArm(condition, result)], otherwise)
  }

  /** `NOT (e)`. */
  function NotPredicate(e: Expr): Expr {
    Unary(Not, Nested(e))
  }

  // ---------------------------------------------------------------------
  // Truth values of section 8.12 of SQL-92
  // ---------------------------------------------------------------------

  datatype Truth = True | False | Unknown

  function Truth3(b: bool): Truth {
    if b then True else False
  }

  function And3(a: Truth, b: Truth): Truth {
    if a.False? || b.False? then False else if a.True? && b.True? then True else Unknown
  }

  function Or3(a: Truth, b: Truth): Truth {
    if a.True? || b.True? then True else if a.False? && b.False? then False else Unknown
  }

  function Not3(a: Truth): Truth {
    match a case True => False case False => True case Unknown => Unknown
  }

  /** SQLite's spelling of a truth value. */
  function TruthValue(t: Truth): Value {
    match t case True => Integer(1) case False => Integer(0) case Unknown => NullValue
  }

  /** What SQLite takes a value for where a truth value is wanted. */
  function TruthOf(v: Value): Option<Truth> {
    match v
    case NullValue => Some(Unknown)
    case Integer(i) => Some(Truth3(i != 0))
    case String(_) | Other => None
  }

  // ---------------------------------------------------------------------
  // Values
  // ---------------------------------------------------------------------

  function Eval(row: Row, e: Expr): Value
    decreases e, 1
  {
    match e
    case Column(name) => row(name)
    case Null => NullValue
    case Number(digits) =>
      (match NumberValue(digits) case Some(d) => if d.scale == 0 then Integer(d.units) else Other case None => Other)
    case Quoted(text) => String(text)
    case Unary(op, operand) => EvalUnary(op, Eval(row, operand))
    case Binary(left, operator, right) => EvalBinary(operator, Eval(row, left), Eval(row, right))
    case Nested(inner) => Eval(row, inner)
    case IsNull(tested) => TruthValue(Truth3(Eval(row, tested).NullValue?))
    case IsNotNull(tested) => TruthValue(Truth3(!Eval(row, tested).NullValue?))
    case Case(_, _) => EvalCase(row, e, 0)
    case Call(name, args) => EvalCall(name, EvalAll(row, args))
  }

  /** The first arm from `i` on whose condition holds, the ELSE when none does. */
  function EvalCase(row: Row, e: Expr, i: nat): Value
    requires e.Case? && i <= |e.conditions|
    decreases e, 0, |e.conditions| - i
  {
    if i == |e.conditions| then (if e.otherwise.Some? then Eval(row, e.otherwise.value) else NullValue)
    else
      match TruthOf(Eval(row, e.conditions[i].condition))
      case Some(True) => Eval(row, e.conditions[i].result)
      case Some(False) | Some(Unknown) => EvalCase(row, e, i + 1)
      case None => Other
  }

  function EvalAll(row: Row, es: seq<Expr>): (vs: seq<Value>)
    ensures |vs| == |es|
    decreases es, 0
  {
    if |es| == 0 then [] else [Eval(row, es[0])] + EvalAll(row, es[1..])
  }

  function EvalUnary(op: UnaryOperator, v: Value): Value {
    match op
    case Plus => v
    case Minus => (match v case Integer(i) => Integer(-i) case NullValue => NullValue case String(_) | Other => Other)
    case Not => (match TruthOf(v) case Some(t) => TruthValue(Not3(t)) case None => Other)
  }

  function EvalBinary(op: BinaryOperator, a: Value, b: Value): Value {
    match op
    case And => (match (TruthOf(a), TruthOf(b)) case (Some(t), Some(u)) => TruthValue(And3(t, u)) case (_, _) => Other)
    case Add | Multiply | Divide | Modulo | Concat | Equal | NotEqual | Less | Greater =>
      match (a, b)
      case (NullValue, _) => NullValue
      case (_, NullValue) => NullValue
      case (Integer(x), Integer(y)) => Arithmetic(op, x, y)
      case (String(s), String(t)) => Textual(op, s, t)
      case (_, _) => Other
  }

  /** Integer division truncates toward zero; dividing by zero is NULL. */
  function Arithmetic(op: BinaryOperator, x: int, y: int): Value {
    match op
    case Add => Integer(x + y)
    case Multiply => Integer(x * y)
    case Divide =>
      if y == 0 then NullValue else if y > 0 then Integer(Interval.TruncDiv(x, y))
      else Integer(-Interval.TruncDiv(x, -y))
    case Modulo =>
      if y == 0 then NullValue else if y > 0 then Integer(Interval.TruncMod(x, y))
      else Integer(Interval.TruncMod(x, -y))
    case Equal => TruthValue(Truth3(x == y))
    case NotEqual => TruthValue(Truth3(x != y))
    case Less => TruthValue(Truth3(x < y))
    case Greater => TruthValue(Truth3(x > y))
    case Concat => String(IntText(x) + IntText(y))
    case And => Other
  }

  function Textual(op: BinaryOperator, s: string, t: string): Value {
    match op
    case Concat => String(s + t)
    case Equal => TruthValue(Truth3(s == t))
    case NotEqual => TruthValue(Truth3(s != t))
    case Less => TruthValue(Truth3(Before(s, t)))
    case Greater => TruthValue(Truth3(Before(t, s)))
    case Add | Multiply | Divide | Modulo | And => Other
  }

  function EvalCall(name: string, args: seq<Value>): Value {
    if name == "instr" && |args| == 2 then
      match (args[0], args[1])
      case (NullValue, _) => NullValue
      case (_, NullValue) => NullValue
      case (String(s), String(t)) => Integer(Instr(s, t))
      case (_, _) => Other
    else if name == "abs" && |args| == 1 then
      match args[0]
      case NullValue => NullValue
      case Integer(i) => Integer(Interval.Abs(i))
      case String(_) | Other => Other
    else if name == "sign" && |args| == 1 then
      match args[0]
      case NullValue => NullValue
      case Integer(i) => Integer(if i > 0 then 1 else if i < 0 then -1 else 0)
      case String(_) | Other => Other
    else if name == "printf" && |args| >= 1 && args[0].String? then
      match Printf(args[0].text, args[1..])
      case Some(text) => String(text)
      case None => Other
    else Other
  }

  /** One more than the first position where `t` occurs in `s`, 0 when it does
      not occur. */
  function Instr(s: string, t: string): nat {
    if t <= s then 1
    else if |s| == 0 then 0
    else
      var later := Instr(s[1..], t);
      if later == 0 then 0 else later + 1
  }

  ghost predicate Occurs(s: string, t: string) {
    exists k :: OccursAt(s, t, k)
  }

  predicate OccursAt(s: string, t: string, k: int) {
    0 <= k && k + |t| <= |s| && s[k..k + |t|] == t
  }

  /** An occurrence in what follows `front` is one in the whole. */
  lemma OccursAfter(front: string, rest: string, t: string, k: int)
    ensures k >= |front| ==> (OccursAt(front + rest, t, k) <==> OccursAt(rest, t, k - |front|))
  {
    if k >= |front| && k + |t| <= |front + rest| {
      assert (front + rest)[k..k + |t|] == rest[k - |front|..k - |front| + |t|];
    }
  }

  lemma {:induction false} InstrFinds(s: string, t: string)
    ensures Instr(s, t) > 0 <==> Occurs(s, t)
  {
    if t <= s {
      assert OccursAt(s, t, 0);
    } else if |s| > 0 {
      InstrFinds(s[1..], t);
      assert s == s[..1] + s[1..];
      if Occurs(s[1..], t) {
        var k :| OccursAt(s[1..], t, k);
        OccursAfter(s[..1], s[1..], t, k + 1);
      }
      if Occurs(s, t) {
        var k :| OccursAt(s, t, k);
        OccursAfter(s[..1], s[1..], t, k);
        assert OccursAt(s[1..], t, k - 1);
      }
    }
  }

  /** `%s`, `%d` and `%0<width>d`, and text in between. */
  function Printf(format: string, args: seq<Value>): Option<string>
    decreases |format|
  {
    if |format| == 0 then Some("")
    else if format[0] != '%' then
      match Printf(format[1..], args) case Some(rest) => Some([format[0]] + rest) case None => None
    else if "%s" <= format then
      if |args| == 0 || !args[0].String? then None
      else match Printf(format[2..], args[1..]) case Some(rest) => Some(args[0].text + rest) case None => None
    else if "%d" <= format then
      if |args| == 0 || !args[0].Integer? then None
      else match Printf(format[2..], args[1..])
        case Some(rest) => Some(IntText(args[0].number) + rest)
        case None => None
    else
      match Find(format, 'd')
      case None => None
      case Some(end) =>
        if end < 2 || format[1] != '0' || !AllDigits(format[2..end]) || |args| == 0 || !args[0].Integer?
          || args[0].number < 0 then None
        else match Printf(format[end + 1..], args[1..])
             case Some(rest) => Some(Pad(args[0].number, Text.Value(format[2..end])) + rest)
             case None => None
  }

  // ---------------------------------------------------------------------
  // Evaluation, one step at a time
  // ---------------------------------------------------------------------

  lemma ZeroEvaluates(row: Row)
    ensures Eval(row, Number("0")) == Integer(0)
  {
    WholeNumber("0");
  }

  lemma QuotedEvaluates(row: Row, text: string)
    ensures Eval(row, Quoted(text)) == String(text)
  {
  }

  lemma BinaryEvaluates(row: Row, e: Expr)
    requires e.Binary?
    ensures Eval(row, e) == EvalBinary(e.operator, Eval(row, e.left), Eval(row, e.right))
  {
  }

  lemma NestedEvaluates(row: Row, e: Expr)
    ensures Eval(row, Nested(e)) == Eval(row, e)
  {
  }

  lemma CallEvaluates(row: Row, name: string, args: seq<Expr>)
    ensures Eval(row, Call(name, args)) == EvalCall(name, EvalAll(row, args))
  {
  }

  lemma {:induction false} AllEvaluates(row: Row, args: seq<Expr>)
    ensures forall i :: 0 <= i < |args| ==> EvalAll(row, args)[i] == Eval(row, args[i])
  {
    if |args| > 0 {
      AllEvaluates(row, args[1..]);
    }
  }

  lemma CaseEvaluates(row: Row, condition: Expr, result: Expr, otherwise: Expr)
    ensures TruthOf(Eval(row, condition)).Some? ==>
      Eval(row, CaseWhen(condition, result, Some(otherwise))) == if TruthOf(Eval(row, condition)) == Some(True)
        then Eval(row, result) else Eval(row, otherwise)
  {
    var e := CaseWhen(condition, result, Some(otherwise));
    assert e.conditions[0].condition == condition && e.conditions[0].result == result;
    assert EvalCase(row, e, 1) == Eval(row, otherwise);
    assert Eval(row, e) == EvalCase(row, e, 0);
  }

  // ---------------------------------------------------------------------
  // Number literals
  // ---------------------------------------------------------------------

  /** `units` divided by ten to the `scale`. */
  datatype Decimal = Decimal(units: int, scale: nat)

  /** What a number's text denotes: an optional minus sign, then digits with at
      most one point among them. */
  function NumberValue(text: string): Option<Decimal> {
    if |text| > 0 && text[0] == '-' then
      match UnsignedValue(text[1..]) case Some(d) => Some(Decimal(-d.units, d.scale)) case None => None
    else UnsignedValue(text)
  }

  function UnsignedValue(text: string): Option<Decimal> {
    var (whole, fraction) := if SplitOnce(text, '.').Some? then SplitOnce(text, '.').value else (text, "");
    if |whole + fraction| == 0 || !AllDigits(whole + fraction) then None
    else Some(Decimal(Text.Value(whole + fraction), |fraction|))
  }

  lemma UnsignedWhole(text: string)
    requires AllDigits(text) && |text| > 0
    ensures UnsignedValue(text) == Some(Decimal(Text.Value(text), 0))
  {
    hide Text.Value, SplitOnce, SplitAll, Contains;
    DigitsHoldNoOther(text, '.');
    SplitNowhere(text, '.');
    assert text + "" == text;
  }

  lemma MinusBefore(u: string)
    requires UnsignedValue(u).Some?
    ensures NumberValue("-" + u) == Some(Decimal(-UnsignedValue(u).value.units, UnsignedValue(u).value.scale))
  {
    hide UnsignedValue;
    assert ("-" + u)[1..] == u;
  }

  lemma WholeNumber(text: string)
    requires AllDigits(text) && |text| > 0
    ensures NumberValue(text) == Some(Decimal(Text.Value(text), 0))
    ensures NumberValue("-" + text) == Some(Decimal(0 - Text.Value(text), 0))
  {
    hide UnsignedValue, Text.Value;
    UnsignedWhole(text);
    MinusBefore(text);
    assert IsDigit(text[0]);
  }

  lemma PointedNumber(whole: string, fraction: string)
    requires AllDigits(whole) && AllDigits(fraction) && |whole + fraction| > 0
    ensures UnsignedValue(whole + "." + fraction) == Some(Decimal(Text.Value(whole + fraction), |fraction|))
  {
    hide Text.Value, SplitOnce, SplitAll, Contains;
    DigitsHoldNoOther(whole, '.');
    SplitAllAt(whole, '.', fraction);
  }
}
