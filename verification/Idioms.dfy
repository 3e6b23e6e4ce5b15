/** Membership over delimited text: the shape it lowers onto, what that shape
    means, and how it is read back. */
module Idioms {
  import opened Wrappers
  import opened Text
  import opened SqliteExpr

  // ---------------------------------------------------------------------
  // Building
  // ---------------------------------------------------------------------

  /** `d || e || d`, as the concatenation parses. */
  function Surrounded(e: Expr, delimiter: char): Expr {
    Binary(Binary(Quoted([delimiter]), Concat, e), Concat, Quoted([delimiter]))
  }

  /** Membership in a delimited text, or in its negation the lack of it. */
  function DelimitedMembership(left: Expr, text: Expr, delimiter: char, negated: bool): Expr {
    var wholeElement := Binary(Call("instr", [left, Quoted([delimiter])]), Equal, Number("0"));
    var textIsSplit := Binary(text, NotEqual, Quoted(""));
    var found := Binary(Call("instr", [Surrounded(text, delimiter), Surrounded(left, delimiter)]), Greater,
      Number("0"));
    var membership := Binary(Binary(textIsSplit, And, wholeElement), And, found);
    var guarded := CaseWhen(IsNotNull(text), membership, None);
    if negated then NotPredicate(guarded) else guarded
  }

  // ---------------------------------------------------------------------
  // Reading back
  // ---------------------------------------------------------------------

  datatype Operands = Operands(left: Expr, text: Expr, delimiter: char, negated: bool)

  /** An operand between two delimiters, and the delimiter. */
  function SurroundedOperand(e: Expr): Option<(char, Expr)> {
    match e
    case Binary(Binary(Quoted(delimiter), Concat, operand), Concat, _) =>
      if |delimiter| == 1 then Some((delimiter[0], operand)) else None
    case _ => None
  }

  /** The operands of the membership shape, by rebuilding it and comparing. */
  function MembershipOperands(e: Expr): Option<Operands> {
    var (body, negated) := match e case Unary(Not, Nested(inner)) => (inner, true) case _ => (e, false);
    match Searched(body)
    case None => None
    case Some((haystack, needle)) =>
      match (SurroundedOperand(haystack), SurroundedOperand(needle))
      case (Some((delimiter, text)), Some((_, left))) =>
        if DelimitedMembership(left, text, delimiter, negated) == e then Some(Operands(left, text, delimiter, negated))
          else None
      case (_, _) => None
  }

  /** The two arguments of the search the guarded result ends in. */
  function Searched(body: Expr): Option<(Expr, Expr)> {
    match body
    case Case(conditions, _) =>
      if |conditions| != 1 then None
      else
        (match conditions[0].result
         case Binary(_, _, Binary(Call(_, args), _, _)) => if |args| == 2 then Some((args[0], args[1])) else None
         case _ => None)
    case _ => None
  }

  /** Reading back undoes building, and accepts nothing building does not emit. */
  lemma MembershipReadsBack(left: Expr, text: Expr, delimiter: char, negated: bool, e: Expr)
    ensures MembershipOperands(DelimitedMembership(left, text, delimiter, negated))
        == Some(Operands(left, text, delimiter, negated))
    ensures MembershipOperands(e).Some? ==>
      var o := MembershipOperands(e).value; DelimitedMembership(o.left, o.text, o.delimiter, o.negated) == e
  {
    assert SurroundedOperand(Surrounded(text, delimiter)) == Some((delimiter, text));
    assert SurroundedOperand(Surrounded(left, delimiter)) == Some((delimiter, left));
    var built := DelimitedMembership(left, text, delimiter, negated);
    var body := if negated then built.operand.inner else built;
    assert Searched(body) == Some((Surrounded(text, delimiter), Surrounded(left, delimiter)));
  }

  // ---------------------------------------------------------------------
  // What PostgreSQL answers
  // ---------------------------------------------------------------------

  /** `string_to_array(a, d)`: a NULL text has no array, an empty one splits
      into no elements. */
  function StringToArray(a: Option<string>, delimiter: char): Option<seq<string>> {
    match a
    case None => None
    case Some(text) => Some(if text == "" then [] else SplitAll(text, delimiter))
  }

  function Equal3(x: Option<string>, y: string): Truth {
    if x.None? then Unknown else Truth3(x.value == y)
  }

  /** `x = ANY(elements)`: section 8.7 of SQL-92. */
  function EqualsAny(x: Option<string>, elements: seq<string>): Truth {
    if |elements| == 0 then False else Or3(Equal3(x, elements[0]), EqualsAny(x, elements[1..]))
  }

  /** `x <> ALL(elements)`. */
  function DiffersFromAll(x: Option<string>, elements: seq<string>): Truth {
    if |elements| == 0 then True else And3(Not3(Equal3(x, elements[0])), DiffersFromAll(x, elements[1..]))
  }

  function PostgresMembership(x: Option<string>, a: Option<string>, delimiter: char, negated: bool): Truth {
    match StringToArray(a, delimiter)
    case None => Unknown
    case Some(elements) => if negated then DiffersFromAll(x, elements) else EqualsAny(x, elements)
  }

  lemma {:induction false} AnyMeans(x: Option<string>, elements: seq<string>)
    ensures EqualsAny(x, elements)
         == if |elements| == 0 then False else if x.None? then Unknown else Truth3(x.value in elements)
  {
    if |elements| > 0 {
      AnyMeans(x, elements[1..]);
      assert elements == [elements[0]] + elements[1..];
    }
  }

  lemma {:induction false} AllIsNotAny(x: Option<string>, elements: seq<string>)
    ensures DiffersFromAll(x, elements) == Not3(EqualsAny(x, elements))
  {
    if |elements| > 0 {
      AllIsNotAny(x, elements[1..]);
    }
  }

  // ---------------------------------------------------------------------
  // Searching for a whole element
  // ---------------------------------------------------------------------

  lemma OccurrenceStarts(s: string, t: string, k: int)
    requires OccursAt(s, t, k)
    ensures forall i :: 0 <= i < |t| ==> s[k + i] == t[i]
  {
    forall i | 0 <= i < |t| ensures s[k + i] == t[i] {
      assert s[k..k + |t|][i] == t[i];
    }
  }

  /** The first delimiter after the front one ends the front element. */
  lemma FrontElement(p: string, rest: string, x: string, d: char)
    requires !Contains(p, d) && !Contains(x, d) && |rest| > 0 && rest[0] == d
    ensures OccursAt([d] + p + rest, [d] + x + [d], 0) <==> p == x
  {
    var s, t := [d] + p + rest, [d] + x + [d];
    if p == x {
      assert s[..|t|] == t;
    }
    if OccursAt(s, t, 0) {
      OccurrenceStarts(s, t, 0);
      assert s[|x| + 1] == t[|x| + 1] == d;
      assert forall i :: 0 <= i < |p| ==> s[i + 1] == p[i];
      assert forall i :: 0 <= i < |x| ==> t[i + 1] == x[i];
      FirstDelimiter(p, x, s, d);
    }
  }

  lemma FirstDelimiter(p: string, x: string, s: string, d: char)
    requires |s| >= |p| + 2 && s[|p| + 1] == d && !Contains(p, d) && forall i :: 0 <= i < |p| ==> s[i + 1] == p[i]
    requires |s| >= |x| + 2 && s[|x| + 1] == d && !Contains(x, d) && forall i :: 0 <= i < |x| ==> s[i + 1] == x[i]
    ensures p == x
  {
    assert forall j :: 1 <= j <= |p| ==> s[j] == p[j - 1] != d;
    assert forall j :: 1 <= j <= |x| ==> s[j] == x[j - 1] != d;
  }

  /** A delimited text holds a delimited element exactly when it splits into it. */
  lemma {:induction false} WholeElements(a: string, x: string, d: char)
    requires !Contains(x, d)
    ensures Occurs([d] + a + [d], [d] + x + [d]) <==> x in SplitAll(a, d)
    decreases |a|
  {
    hide Contains, OccursAt;
    var t := [d] + x + [d];
    match Find(a, d)
    case None =>
      FrontElement(a, [d], x, d);
      forall k | OccursAt([d] + a + [d], t, k) ensures k == 0 {
        OnlyFront(a, x, d, k);
      }
    case Some(i) =>
      var p, r := a[..i], a[i + 1..];
      var front, rest := [d] + p, [d] + r + [d];
      NothingBefore(a, d, i);
      assert [d] + a + [d] == front + rest;
      FrontElement(p, rest, x, d);
      WholeElements(r, x, d);
      forall k ensures OccursAt(front + rest, t, k) <==>
        (k == 0 && p == x) || (k >= |front| && OccursAt(rest, t, k - |front|))
      {
        ElementStarts(p, rest, x, d, k);
        OccursAfter(front, rest, t, k);
      }
      if Occurs(rest, t) {
        var k :| OccursAt(rest, t, k);
        OccursFromZero(rest, t, k);
        assert OccursAt(front + rest, t, k + |front|);
      }
  }

  lemma OccursFromZero(s: string, t: string, k: int)
    requires OccursAt(s, t, k)
    ensures k >= 0
  {
  }

  lemma NothingBefore(a: string, d: char, i: nat)
    requires Find(a, d) == Some(i)
    ensures !Contains(a[..i], d)
  {
  }

  lemma OnlyFront(a: string, x: string, d: char, k: int)
    requires !Contains(a, d) && OccursAt([d] + a + [d], [d] + x + [d], k)
    ensures k == 0
  {
    var s, t := [d] + a + [d], [d] + x + [d];
    OccurrenceStarts(s, t, k);
    assert s[k] == d;
    assert forall i :: 0 < i <= |a| ==> s[i] == a[i - 1];
  }

  lemma ElementStarts(p: string, rest: string, x: string, d: char, k: int)
    requires !Contains(p, d)
    ensures OccursAt([d] + p + rest, [d] + x + [d], k) ==> k == 0 || k >= |[d] + p|
  {
    var s, t := [d] + p + rest, [d] + x + [d];
    assert forall i :: 0 < i <= |p| ==> s[i] == p[i - 1];
    if OccursAt(s, t, k) {
      OccurrenceStarts(s, t, k);
      assert s[k] == t[0] == d;
    }
  }

  /** No split element holds the delimiter. */
  lemma {:induction false} ElementsHoldNone(a: string, d: char)
    ensures forall e :: e in SplitAll(a, d) ==> !Contains(e, d)
    decreases |a|
  {
    match Find(a, d)
    case None =>
    case Some(i) =>
      NothingBefore(a, d, i);
      ElementsHoldNone(a[i + 1..], d);
  }

  lemma SingleOccurs(x: string, d: char)
    ensures Occurs(x, [d]) <==> Contains(x, d)
  {
    if Contains(x, d) {
      var i :| 0 <= i < |x| && x[i] == d;
      assert OccursAt(x, [d], i) by { assert x[i..i + 1] == [d]; }
    }
    if Occurs(x, [d]) {
      var k :| OccursAt(x, [d], k);
      assert x[k] == x[k..k + 1][0];
    }
  }

  // ---------------------------------------------------------------------
  // Same meaning
  // ---------------------------------------------------------------------

  function TextValue(t: Option<string>): Value {
    if t.None? then NullValue else String(t.value)
  }

  /** What the emitted shape computes from its operands' values. */
  lemma MembershipEvaluates(row: Row, left: Expr, text: Expr, d: char, x: Option<string>, a: Option<string>)
    requires Eval(row, left) == TextValue(x) && Eval(row, text) == TextValue(a)
    ensures Eval(row, DelimitedMembership(left, text, d, false)) == TruthValue(
      if a.None? then Unknown
      else if a.value == "" then False
      else if x.None? then Unknown
      else Truth3(Instr(x.value, [d]) == 0 && Instr([d] + a.value + [d], [d] + x.value + [d]) > 0))
  {
    hide Eval, Surrounded, Instr, EvalAll, EvalCase;
    var built := DelimitedMembership(left, text, d, false);
    var all := built.conditions[0].result;
    var split, whole, found := all.left.left, all.left.right, all.right;
    ZeroEvaluates(row);
    SurroundedEvaluates(row, text, d, a);
    SurroundedEvaluates(row, left, d, x);
    PairEvaluates(row, "instr", left, Quoted([d]));
    PairEvaluates(row, "instr", Surrounded(text, d), Surrounded(left, d));
    QuotedEvaluates(row, "");
    QuotedEvaluates(row, [d]);
    BinaryEvaluates(row, split);
    BinaryEvaluates(row, whole);
    BinaryEvaluates(row, found);
    BinaryEvaluates(row, all.left);
    BinaryEvaluates(row, all);
    GuardEvaluates(row, text, all);
  }

  lemma PairEvaluates(row: Row, name: string, a: Expr, b: Expr)
    ensures Eval(row, Call(name, [a, b])) == EvalCall(name, [Eval(row, a), Eval(row, b)])
  {
    hide Eval, EvalAll, EvalCall;
    AllEvaluates(row, [a, b]);
    CallEvaluates(row, name, [a, b]);
    assert [a, b][0] == a && [a, b][1] == b;
    assert EvalAll(row, [a, b]) == [Eval(row, a), Eval(row, b)];
  }

  lemma GuardEvaluates(row: Row, text: Expr, result: Expr)
    ensures Eval(row, CaseWhen(IsNotNull(text), result, None)) == if Eval(row, text).NullValue? then NullValue
        else Eval(row, result)
  {
    var e := CaseWhen(IsNotNull(text), result, None);
    var condition := e.conditions[0].condition;
    assert |e.conditions| == 1 && condition == IsNotNull(text) && e.conditions[0].result == result;
    assert Eval(row, condition) == TruthValue(Truth3(!Eval(row, text).NullValue?));
    assert EvalCase(row, e, 1) == NullValue;
    assert Eval(row, e) == EvalCase(row, e, 0);
  }

  lemma SurroundedEvaluates(row: Row, e: Expr, d: char, t: Option<string>)
    requires Eval(row, e) == TextValue(t)
    ensures Eval(row, Surrounded(e, d)) == if t.None? then NullValue else String([d] + t.value + [d])
  {
  }

  /** The emitted expression evaluates to PostgreSQL's answer, for every text,
      left side and delimiter, NULLs included. */
  lemma MembershipMeansAny(row: Row, left: Expr, text: Expr, d: char, negated: bool, x: Option<string>,
      a: Option<string>)
    requires Eval(row, left) == TextValue(x) && Eval(row, text) == TextValue(a)
    ensures Eval(row, DelimitedMembership(left, text, d, negated)) == TruthValue(PostgresMembership(x, a, d, negated))
  {
    hide Instr, Occurs, Contains;
    MembershipEvaluates(row, left, text, d, x, a);
    if a.Some? && a.value != "" {
      var elements := SplitAll(a.value, d);
      AnyMeans(x, elements);
      AllIsNotAny(x, elements);
      if x.Some? {
        InstrFinds(x.value, [d]);
        SingleOccurs(x.value, d);
        ElementsHoldNone(a.value, d);
        InstrFinds([d] + a.value + [d], [d] + x.value + [d]);
        if !Contains(x.value, d) {
          WholeElements(a.value, x.value, d);
        }
      }
    }
    NegationEvaluates(row, DelimitedMembership(left, text, d, false));
  }

  lemma NegationEvaluates(row: Row, e: Expr)
    ensures forall t :: Eval(row, e) == TruthValue(t) ==> Eval(row, NotPredicate(e)) == TruthValue(Not3(t))
  {
  }
}
