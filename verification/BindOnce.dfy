/** Lowerings that repeat an operand: their output stays linear in the source, and
    every mention of an operand has the one value it was read with. */
module BindOnce {
  import opened Wrappers
  import opened Text

  /** What a repeating lowering builds over its operands, each named by a hole. */
  datatype Form = Hole(index: nat) | Constant(literal: int) | Applied(op: string, parts: seq<Form>)

  /** `Repeating` is a source construct with such a lowering; `Bound` is the
      emitted scalar subquery `SELECT body FROM (SELECT operand AS alias, ...)`.
      A call that does not replay may answer differently each time it runs; a
      nested query counts as one. */
  datatype Expr =
    | Column(name: string)
    | Literal(literal: int)
    | Operator(op: string, args: seq<Expr>)
    | Call(name: string, replays: bool, args: seq<Expr>)
    | Aggregate(name: string, args: seq<Expr>)
    | Repeating(form: Form, operands: seq<Expr>)
    | Bound(body: Expr, aliases: seq<string>, operands: seq<Expr>)

  datatype Refusal = Duplicated(operand: Expr) | Exponential(operand: Expr)

  predicate ValidForm(form: Form, holes: nat) {
    match form
    case Hole(index) => index < holes
    case Constant(_) => true
    case Applied(_, parts) => forall i :: 0 <= i < |parts| ==> ValidForm(parts[i], holes)
  }

  function Inside(e: Expr): seq<Expr> {
    match e
    case Column(_) | Literal(_) => []
    case Operator(_, args) => args
    case Call(_, _, args) => args
    case Aggregate(_, args) => args
    case Repeating(_, operands) => operands
    case Bound(_, _, operands) => operands
  }

  /** An expression as it is before lowering. */
  predicate IsSource(e: Expr) {
    match e
    case Column(_) | Literal(_) => true
    case Operator(_, args) => forall i :: 0 <= i < |args| ==> IsSource(args[i])
    case Call(_, _, args) => forall i :: 0 <= i < |args| ==> IsSource(args[i])
    case Aggregate(_, args) => forall i :: 0 <= i < |args| ==> IsSource(args[i])
    case Repeating(form, operands) =>
      ValidForm(form, |operands|) && forall i :: 0 <= i < |operands| ==> IsSource(operands[i])
    case Bound(_, _, _) => false
  }

  // ---------------------------------------------------------------------
  // Lowering
  // ---------------------------------------------------------------------

  function Instantiate(form: Form, operands: seq<Expr>): Expr
    requires ValidForm(form, |operands|)
  {
    match form
    case Hole(index) => operands[index]
    case Constant(literal) => Literal(literal)
    case Applied(op, parts) =>
      Operator(op, seq(|parts|, i requires 0 <= i < |parts| => Instantiate(parts[i], operands)))
  }

  predicate IsAtomic(e: Expr) {
    e.Column? || e.Literal?
  }

  predicate IsReplayable(e: Expr) {
    (e.Call? ==> e.replays) && forall i :: 0 <= i < |Inside(e)| ==> IsReplayable(Inside(e)[i])
  }

  predicate HoldsAggregate(e: Expr) {
    e.Aggregate? || exists i :: 0 <= i < |Inside(e)| && HoldsAggregate(Inside(e)[i])
  }

  predicate HoldsRepeating(e: Expr) {
    e.Repeating? || exists i :: 0 <= i < |Inside(e)| && HoldsRepeating(Inside(e)[i])
  }

  predicate IsFirstCompound(sources: seq<Expr>, translated: seq<Expr>, p: Expr -> bool, i: nat)
    requires i < |sources| == |translated|
  {
    !IsAtomic(translated[i]) && p(sources[i]) && forall j :: 0 <= j < i && !IsAtomic(translated[j]) ==> !p(sources[j])
  }

  /** The first operand that is not atomic once translated and meets `p`. */
  function FirstCompound(sources: seq<Expr>, translated: seq<Expr>, p: Expr -> bool): (r: Option<Expr>)
    requires |sources| == |translated|
    ensures r.None? <==> forall i :: 0 <= i < |sources| && !IsAtomic(translated[i]) ==> !p(sources[i])
    ensures r.Some? ==>
      exists i :: 0 <= i < |sources| && IsFirstCompound(sources, translated, p, i) && r.value == sources[i]
  {
    if |sources| == 0 then None
    else if !IsAtomic(translated[0]) && p(sources[0]) then Some(sources[0])
    else
      assert forall i :: 0 < i < |sources| ==>
        sources[i] == sources[1..][i - 1] && translated[i] == translated[1..][i - 1];
      var r := FirstCompound(sources[1..], translated[1..], p);
      assert r.Some? ==>
        exists i :: 0 < i < |sources| && IsFirstCompound(sources, translated, p, i) && r.value == sources[i] by {
        if r.Some? {
          var i :| 0 <= i < |sources[1..]| && IsFirstCompound(sources[1..], translated[1..], p, i)
            && r.value == sources[1..][i];
          assert IsFirstCompound(sources, translated, p, i + 1);
        }
      }
      r
  }

  function OperandName(index: nat): string {
    "pg2sqlite_operand_" + Digits(index)
  }

  function OperandNames(count: nat): seq<string> {
    seq(count, i requires 0 <= i < count => OperandName(i))
  }

  function References(names: seq<string>): seq<Expr> {
    seq(|names|, i requires 0 <= i < |names| => Column(names[i]))
  }

  function Bind(form: Form, translated: seq<Expr>): Expr
    requires ValidForm(form, |translated|)
  {
    var names := OperandNames(|translated|);
    Bound(Instantiate(form, References(names)), names, translated)
  }

  /** `form` over the translated operands: repeated as written when they are
      all atomic, bound once where a subquery may stand and would not change
      what an aggregate ranges over, repeated otherwise if that stays small. */
  function BindOnce(form: Form, sources: seq<Expr>, translated: seq<Expr>, subqueries: bool): Result<Expr, Refusal>
    requires |sources| == |translated| && ValidForm(form, |sources|)
  {
    var drawn := FirstCompound(sources, translated, (e: Expr) => !IsReplayable(e));
    if drawn.Some? then Err(Duplicated(drawn.value))
    else if forall i :: 0 <= i < |translated| ==> IsAtomic(translated[i]) then Ok(Instantiate(form, translated))
    else if subqueries && forall i :: 0 <= i < |sources| ==> !HoldsAggregate(sources[i]) then Ok(Bind(form, translated))
    else
      var nested := FirstCompound(sources, translated, (e: Expr) => HoldsRepeating(e));
      if nested.Some? then Err(Exponential(nested.value)) else Ok(Instantiate(form, translated))
  }

  function Translate(e: Expr, subqueries: bool): Result<Expr, Refusal>
    requires IsSource(e)
    decreases e, 1
  {
    match e
    case Column(_) | Literal(_) => Ok(e)
    case Operator(op, args) =>
      var ts :- TranslateAll(args, subqueries);
      Ok(Operator(op, ts))
    case Call(name, replays, args) =>
      var ts :- TranslateAll(args, subqueries);
      Ok(Call(name, replays, ts))
    case Aggregate(name, args) =>
      var ts :- TranslateAll(args, subqueries);
      Ok(Aggregate(name, ts))
    case Repeating(form, operands) =>
      var ts :- TranslateAll(operands, subqueries);
      BindOnce(form, operands, ts, subqueries)
  }

  function TranslateAll(es: seq<Expr>, subqueries: bool): (r: Result<seq<Expr>, Refusal>)
    requires forall i :: 0 <= i < |es| ==> IsSource(es[i])
    ensures r.Ok? ==> |r.value| == |es| && forall i :: 0 <= i < |es| ==> Translate(es[i], subqueries) == Ok(r.value[i])
    decreases es, 0
  {
    if |es| == 0 then Ok([])
    else
      var first :- Translate(es[0], subqueries);
      var rest :- TranslateAll(es[1..], subqueries);
      Ok([first] + rest)
  }

  // ---------------------------------------------------------------------
  // Evaluating
  // ---------------------------------------------------------------------

  datatype Value = Null | Integer(number: int)

  type Row = string -> Value

  /** What the engine computes: operators and replaying calls from their
      arguments, other calls also from when they run, aggregates from their
      arguments' values over a group. */
  datatype Engine = Engine(
    operate: (string, seq<Value>) -> Value,
    call: (string, seq<Value>) -> Value,
    draw: (string, nat, seq<Value>) -> Value,
    aggregate: (string, seq<seq<Value>>) -> Value)

  /** Where an expression is evaluated: the rows of its group, and its own. */
  datatype Place = Place(group: seq<Row>, row: Row)

  /** A row's columns, hidden by the subquery's own. */
  function Extended(row: Row, aliases: seq<string>, values: seq<Value>): Row
    requires |aliases| == |values|
  {
    (name: string) => if name in aliases then values[IndexOf(aliases, name)] else row(name)
  }

  function IndexOf(names: seq<string>, name: string): (i: nat)
    requires name in names
    ensures i < |names| && names[i] == name
  {
    if names[0] == name then 0 else 1 + IndexOf(names[1..], name)
  }

  /** The value of an expression and the count of draws made once it has run. */
  ghost function Eval(engine: Engine, at: Place, drawn: nat, e: Expr): (Value, nat)
    decreases e, 1
  {
    match e
    case Column(name) => (at.row(name), drawn)
    case Literal(literal) => (Integer(literal), drawn)
    case Operator(op, args) =>
      var (values, after) := EvalAll(engine, at, drawn, args);
      (engine.operate(op, values), after)
    case Call(name, replays, args) =>
      var (values, after) := EvalAll(engine, at, drawn, args);
      if replays then (engine.call(name, values), after) else (engine.draw(name, after, values), after + 1)
    case Aggregate(name, args) =>
      var (columns, after) := EvalRows(engine, at, drawn, args, |at.group|);
      (engine.aggregate(name, columns), after)
    case Repeating(form, operands) =>
      var (values, after) := EvalAll(engine, at, drawn, operands);
      (if ValidForm(form, |values|) then EvalForm(engine, form, values) else Null, after)
    case Bound(body, aliases, operands) =>
      var (values, after) := EvalAll(engine, Place([at.row], at.row), drawn, operands);
      if |aliases| == |values| then
        var inner := Extended(at.row, aliases, values);
        Eval(engine, Place([inner], inner), after, body)
      else (Null, after)
  }

  ghost function EvalAll(engine: Engine, at: Place, drawn: nat, es: seq<Expr>): (r: (seq<Value>, nat))
    ensures |r.0| == |es|
    decreases es, 0
  {
    if |es| == 0 then ([], drawn)
    else
      var (first, after) := Eval(engine, at, drawn, es[0]);
      var (rest, last) := EvalAll(engine, at, after, es[1..]);
      ([first] + rest, last)
  }

  /** An aggregate's arguments, evaluated in the first `count` rows of the group. */
  ghost function EvalRows(engine: Engine, at: Place, drawn: nat, es: seq<Expr>, count: nat): (seq<seq<Value>>, nat)
    requires count <= |at.group|
    decreases es, 1, count
  {
    if count == 0 then ([], drawn)
    else
      var (before, after) := EvalRows(engine, at, drawn, es, count - 1);
      var (values, last) := EvalAll(engine, Place(at.group, at.group[count - 1]), after, es);
      (before + [values], last)
  }

  function EvalForm(engine: Engine, form: Form, values: seq<Value>): Value
    requires ValidForm(form, |values|)
  {
    match form
    case Hole(index) => values[index]
    case Constant(literal) => Integer(literal)
    case Applied(op, parts) =>
      engine.operate(op, seq(|parts|, i requires 0 <= i < |parts| => EvalForm(engine, parts[i], values)))
  }

  // ---------------------------------------------------------------------
  // Steady expressions
  // ---------------------------------------------------------------------

  /** Has one value here however often it runs, and draws nothing. */
  ghost predicate Steady(engine: Engine, at: Place, e: Expr, value: Value) {
    forall drawn: nat :: Eval(engine, at, drawn, e) == (value, drawn)
  }

  ghost predicate AllSteady(engine: Engine, at: Place, es: seq<Expr>, values: seq<Value>) {
    |es| == |values| && forall i :: 0 <= i < |es| ==> Steady(engine, at, es[i], values[i])
  }

  lemma {:induction false} SteadyAll(engine: Engine, at: Place, drawn: nat, es: seq<Expr>, values: seq<Value>)
    requires AllSteady(engine, at, es, values)
    ensures EvalAll(engine, at, drawn, es) == (values, drawn)
  {
    hide Eval;
    if |es| > 0 {
      assert Steady(engine, at, es[0], values[0]);
      assert forall i :: 0 <= i < |es[1..]| ==> es[1..][i] == es[i + 1] && values[1..][i] == values[i + 1];
      SteadyAll(engine, at, drawn, es[1..], values[1..]);
      assert values == [values[0]] + values[1..];
    }
  }

  /** A replayable expression is steady everywhere. */
  lemma {:induction false} ReplayableIsSteady(engine: Engine, at: Place, e: Expr) returns (value: Value)
    requires IsSource(e) && IsReplayable(e)
    ensures Steady(engine, at, e, value)
    decreases e, 1
  {
    value := Eval(engine, at, 0, e).0;
    var inside := Inside(e);
    assert forall i :: 0 <= i < |inside| ==> IsSource(inside[i]) && IsReplayable(inside[i]);
    match e
    case Column(_) | Literal(_) =>
    case Operator(op, args) =>
      var values := ReplayableAreSteady(engine, at, args);
      value := engine.operate(op, values);
      forall drawn: nat
        ensures Eval(engine, at, drawn, e) == (value, drawn) { SteadyAll(engine, at, drawn, args, values); }
    case Call(name, _, args) =>
      var values := ReplayableAreSteady(engine, at, args);
      value := engine.call(name, values);
      forall drawn: nat
        ensures Eval(engine, at, drawn, e) == (value, drawn) { SteadyAll(engine, at, drawn, args, values); }
    case Repeating(form, operands) =>
      var values := ReplayableAreSteady(engine, at, operands);
      value := EvalForm(engine, form, values);
      forall drawn: nat
        ensures Eval(engine, at, drawn, e) == (value, drawn) { SteadyAll(engine, at, drawn, operands, values); }
    case Aggregate(name, args) =>
      var columns := ReplayableRows(engine, at, args, |at.group|);
      value := engine.aggregate(name, columns);
      forall drawn: nat ensures Eval(engine, at, drawn, e) == (value, drawn) {
        assert EvalRows(engine, at, drawn, args, |at.group|) == (columns, drawn);
      }
  }

  lemma {:induction false} ReplayableAreSteady(engine: Engine, at: Place, es: seq<Expr>) returns (values: seq<Value>)
    requires forall i :: 0 <= i < |es| ==> IsSource(es[i]) && IsReplayable(es[i])
    ensures AllSteady(engine, at, es, values)
    decreases es, 0
  {
    values := [];
    if |es| > 0 {
      var first := ReplayableIsSteady(engine, at, es[0]);
      var rest := ReplayableAreSteady(engine, at, es[1..]);
      values := [first] + rest;
      assert forall i :: 0 < i < |es| ==> es[i] == es[1..][i - 1] && values[i] == rest[i - 1];
    }
  }

  lemma {:induction false} ReplayableRows(engine: Engine, at: Place, es: seq<Expr>, count: nat)
      returns (columns: seq<seq<Value>>)
    requires forall i :: 0 <= i < |es| ==> IsSource(es[i]) && IsReplayable(es[i])
    requires count <= |at.group|
    ensures forall drawn: nat :: EvalRows(engine, at, drawn, es, count) == (columns, drawn)
    decreases es, 1, count
  {
    columns := [];
    if count > 0 {
      var before := ReplayableRows(engine, at, es, count - 1);
      var here := Place(at.group, at.group[count - 1]);
      var values := ReplayableAreSteady(engine, here, es);
      columns := before + [values];
      forall drawn: nat ensures EvalRows(engine, at, drawn, es, count) == (columns, drawn) {
        SteadyAll(engine, here, drawn, es, values);
      }
    }
  }

  // ---------------------------------------------------------------------
  // Expressions that ignore their group
  // ---------------------------------------------------------------------

  lemma {:induction false} GroupIgnored(engine: Engine, at: Place, other: Place, drawn: nat, e: Expr)
    requires IsSource(e) && !HoldsAggregate(e) && at.row == other.row
    ensures Eval(engine, at, drawn, e) == Eval(engine, other, drawn, e)
    decreases e, 1
  {
    var inside := Inside(e);
    assert forall i :: 0 <= i < |inside| ==> IsSource(inside[i]) && !HoldsAggregate(inside[i]);
    match e
    case Column(_) | Literal(_) =>
    case Operator(_, args) => GroupsIgnored(engine, at, other, drawn, args);
    case Call(_, _, args) => GroupsIgnored(engine, at, other, drawn, args);
    case Repeating(_, operands) => GroupsIgnored(engine, at, other, drawn, operands);
  }

  lemma {:induction false} GroupsIgnored(engine: Engine, at: Place, other: Place, drawn: nat, es: seq<Expr>)
    requires forall i :: 0 <= i < |es| ==> IsSource(es[i]) && !HoldsAggregate(es[i])
    requires at.row == other.row
    ensures EvalAll(engine, at, drawn, es) == EvalAll(engine, other, drawn, es)
    decreases es, 0
  {
    if |es| > 0 {
      GroupIgnored(engine, at, other, drawn, es[0]);
      GroupsIgnored(engine, at, other, Eval(engine, at, drawn, es[0]).1, es[1..]);
    }
  }

  // ---------------------------------------------------------------------
  // Same meaning
  // ---------------------------------------------------------------------

  /** A form over steady operands computes the form over their values. */
  lemma {:induction false} InstanceIsSteady(engine: Engine, at: Place, form: Form, es: seq<Expr>, values: seq<Value>)
    requires ValidForm(form, |es|) && AllSteady(engine, at, es, values)
    ensures Steady(engine, at, Instantiate(form, es), EvalForm(engine, form, values))
  {
    match form
    case Hole(index) => assert Steady(engine, at, es[index], values[index]);
    case Constant(_) =>
    case Applied(op, parts) =>
      var instances := seq(|parts|, i requires 0 <= i < |parts| => Instantiate(parts[i], es));
      var results := seq(|parts|, i requires 0 <= i < |parts| => EvalForm(engine, parts[i], values));
      forall i | 0 <= i < |parts| ensures Steady(engine, at, instances[i], results[i]) {
        InstanceIsSteady(engine, at, parts[i], es, values);
      }
      forall drawn: nat
        ensures Eval(engine, at, drawn, Instantiate(form, es)) == (EvalForm(engine, form, values), drawn)
      {
        SteadyAll(engine, at, drawn, instances, results);
        assert Instantiate(form, es) == Operator(op, instances);
      }
  }

  lemma NamesDiffer(i: nat, j: nat)
    ensures OperandName(i) == OperandName(j) ==> i == j
  {
    assert OperandName(i)[18..] == Digits(i) && OperandName(j)[18..] == Digits(j);
    ValueOfDigits(i);
    ValueOfDigits(j);
  }

  lemma NameFound(count: nat, i: nat)
    requires i < count
    ensures OperandName(i) in OperandNames(count) && IndexOf(OperandNames(count), OperandName(i)) == i
  {
    var names := OperandNames(count);
    assert names[i] == OperandName(i);
    NamesDiffer(IndexOf(names, OperandName(i)), i);
  }

  /** The references of a bound form read the operands' values. */
  lemma ReferencesAreSteady(engine: Engine, row: Row, values: seq<Value>)
    ensures var names := OperandNames(|values|);
            var inner := Extended(row, names, values);
            AllSteady(engine, Place([inner], inner), References(names), values)
  {
    var names := OperandNames(|values|);
    var inner := Extended(row, names, values);
    forall i | 0 <= i < |values| ensures Steady(engine, Place([inner], inner), References(names)[i], values[i]) {
      NameFound(|values|, i);
    }
  }

  /** Translation keeps the value of an expression, and when its calls draw,
      for every engine, group and row. */
  lemma {:induction false} TranslationKeepsMeaning(engine: Engine, at: Place, drawn: nat, e: Expr, subqueries: bool)
    requires IsSource(e) && Translate(e, subqueries).Ok?
    ensures Eval(engine, at, drawn, Translate(e, subqueries).value) == Eval(engine, at, drawn, e)
    decreases e, 1
  {
    hide BindOnce, TranslateAll;
    match e
    case Column(_) | Literal(_) =>
    case Operator(_, args) =>
      AllKeepMeaning(engine, at, drawn, args, subqueries);
    case Call(_, _, args) =>
      AllKeepMeaning(engine, at, drawn, args, subqueries);
    case Aggregate(_, args) =>
      RowsKeepMeaning(engine, at, drawn, args, subqueries, |at.group|);
    case Repeating(form, operands) =>
      RepeatingKeepsMeaning(engine, at, drawn, form, operands, subqueries);
  }

  lemma {:induction false} AllKeepMeaning(engine: Engine, at: Place, drawn: nat, es: seq<Expr>, subqueries: bool)
    requires forall i :: 0 <= i < |es| ==> IsSource(es[i])
    requires TranslateAll(es, subqueries).Ok?
    ensures EvalAll(engine, at, drawn, TranslateAll(es, subqueries).value) == EvalAll(engine, at, drawn, es)
    decreases es, 0
  {
    hide Eval, Translate;
    if |es| > 0 {
      TranslationKeepsMeaning(engine, at, drawn, es[0], subqueries);
      AllKeepMeaning(engine, at, Eval(engine, at, drawn, es[0]).1, es[1..], subqueries);
      assert TranslateAll(es, subqueries).value[1..] == TranslateAll(es[1..], subqueries).value;
    }
  }

  lemma {:induction false} RowsKeepMeaning(engine: Engine, at: Place, drawn: nat, es: seq<Expr>, subqueries: bool,
      count: nat)
    requires forall i :: 0 <= i < |es| ==> IsSource(es[i])
    requires TranslateAll(es, subqueries).Ok? && count <= |at.group|
    ensures EvalRows(engine, at, drawn, TranslateAll(es, subqueries).value, count)
        == EvalRows(engine, at, drawn, es, count)
    decreases es, 1, count
  {
    hide EvalAll, TranslateAll;
    if count > 0 {
      RowsKeepMeaning(engine, at, drawn, es, subqueries, count - 1);
      AllKeepMeaning(engine, Place(at.group, at.group[count - 1]), EvalRows(engine, at, drawn, es, count - 1).1, es,
        subqueries);
    }
  }

  /** Every operand of an accepted repeating lowering is steady, translated or not. */
  lemma {:induction false} OperandsAreSteady(engine: Engine, at: Place, sources: seq<Expr>, translated: seq<Expr>,
      subqueries: bool) returns (values: seq<Value>)
    requires |sources| == |translated|
    requires forall i :: 0 <= i < |sources| ==>
        IsSource(sources[i]) && Translate(sources[i], subqueries) == Ok(translated[i])
    requires forall i :: 0 <= i < |sources| && !IsAtomic(translated[i]) ==> IsReplayable(sources[i])
    ensures AllSteady(engine, at, sources, values) && AllSteady(engine, at, translated, values)
    decreases sources, 0
  {
    hide Translate, IsReplayable;
    values := [];
    if |sources| > 0 {
      assert forall i :: 0 < i < |sources| ==>
        sources[i] == sources[1..][i - 1] && translated[i] == translated[1..][i - 1];
      var rest := OperandsAreSteady(engine, at, sources[1..], translated[1..], subqueries);
      var first: Value;
      if IsAtomic(translated[0]) {
        first := Eval(engine, at, 0, translated[0]).0;
      } else {
        first := ReplayableIsSteady(engine, at, sources[0]);
      }
      forall drawn: nat
        ensures Eval(engine, at, drawn, sources[0]) == (first, drawn) == Eval(engine, at, drawn, translated[0])
      {
        TranslationKeepsMeaning(engine, at, drawn, sources[0], subqueries);
      }
      values := [first] + rest;
    }
  }

  lemma {:induction false} RepeatingKeepsMeaning(engine: Engine, at: Place, drawn: nat, form: Form,
      operands: seq<Expr>, subqueries: bool)
    requires ValidForm(form, |operands|) && forall i :: 0 <= i < |operands| ==> IsSource(operands[i])
    requires TranslateAll(operands, subqueries).Ok?
    requires BindOnce(form, operands, TranslateAll(operands, subqueries).value, subqueries).Ok?
    ensures Eval(engine, at, drawn,
        BindOnce(form, operands, TranslateAll(operands, subqueries).value, subqueries).value)
         == Eval(engine, at, drawn, Repeating(form, operands))
    decreases operands, 1
  {
    hide Translate, TranslateAll, IsReplayable, HoldsAggregate, HoldsRepeating, Instantiate, EvalForm, Steady;
    var translated := TranslateAll(operands, subqueries).value;
    var lowered := BindOnce(form, operands, translated, subqueries).value;
    var values := OperandsAreSteady(engine, at, operands, translated, subqueries);
    SteadyAll(engine, at, drawn, operands, values);
    assert Eval(engine, at, drawn, Repeating(form, operands)) == (EvalForm(engine, form, values), drawn);
    if lowered == Instantiate(form, translated) {
      InstanceIsSteady(engine, at, form, translated, values);
      SteadyHere(engine, at, drawn, lowered, EvalForm(engine, form, values));
    } else {
      var alone := Place([at.row], at.row);
      GroupsIgnored(engine, at, alone, drawn, operands);
      AllKeepMeaning(engine, alone, drawn, operands, subqueries);
      BoundComputes(engine, at, drawn, form, translated, values);
    }
  }

  lemma SteadyHere(engine: Engine, at: Place, drawn: nat, e: Expr, value: Value)
    requires Steady(engine, at, e, value)
    ensures Eval(engine, at, drawn, e) == (value, drawn)
  {
  }

  lemma BoundEvaluates(engine: Engine, at: Place, drawn: nat, body: Expr, aliases: seq<string>, operands: seq<Expr>)
    requires |aliases| == |operands|
    ensures var (values, after) := EvalAll(engine, Place([at.row], at.row), drawn, operands);
            var inner := Extended(at.row, aliases, values);
            Eval(engine, at, drawn, Bound(body, aliases, operands)) == Eval(engine, Place([inner], inner), after, body)
  {
  }

  /** The bound subquery evaluates to the form over the operands' values. */
  lemma BoundComputes(engine: Engine, at: Place, drawn: nat, form: Form, translated: seq<Expr>, values: seq<Value>)
    requires ValidForm(form, |translated|) && |values| == |translated|
    requires EvalAll(engine, Place([at.row], at.row), drawn, translated) == (values, drawn)
    ensures Eval(engine, at, drawn, Bind(form, translated)) == (EvalForm(engine, form, values), drawn)
  {
    hide Instantiate, EvalForm, Steady, Extended, EvalAll, Eval;
    var names := OperandNames(|translated|);
    BoundEvaluates(engine, at, drawn, Instantiate(form, References(names)), names, translated);
    var inner := Extended(at.row, names, values);
    ReferencesAreSteady(engine, at.row, values);
    InstanceIsSteady(engine, Place([inner], inner), form, References(names), values);
    SteadyHere(engine, Place([inner], inner), drawn, Instantiate(form, References(names)),
      EvalForm(engine, form, values));
  }

  // ---------------------------------------------------------------------
  // Size
  // ---------------------------------------------------------------------

  function Size(e: Expr): (n: nat)
    ensures n >= 1
    decreases e, 1
  {
    match e
    case Column(_) | Literal(_) => 1
    case Operator(_, args) => 1 + SizeAll(args)
    case Call(_, _, args) => 1 + SizeAll(args)
    case Aggregate(_, args) => 1 + SizeAll(args)
    case Repeating(_, operands) => 1 + SizeAll(operands)
    case Bound(body, aliases, operands) => 1 + Size(body) + |aliases| + SizeAll(operands)
  }

  function SizeAll(es: seq<Expr>): nat
    decreases es, 0
  {
    if |es| == 0 then 0 else Size(es[0]) + SizeAll(es[1..])
  }

  function FormSize(form: Form): (n: nat)
    ensures n >= 1
    decreases form, 1
  {
    match form
    case Hole(_) | Constant(_) => 1
    case Applied(_, parts) => 1 + FormSizes(parts)
  }

  function FormSizes(forms: seq<Form>): nat
    decreases forms, 0
  {
    if |forms| == 0 then 0 else FormSize(forms[0]) + FormSizes(forms[1..])
  }

  /** No repeating construct in `e` has a form, with its operands, larger than `k`. */
  predicate Fits(e: Expr, k: nat) {
    (e.Repeating? ==> FormSize(e.form) + |e.operands| <= k)
      && forall i :: 0 <= i < |Inside(e)| ==> Fits(Inside(e)[i], k)
  }

  lemma Distribute(a: nat, b: nat, m: nat)
    ensures (a + b) * m == a * m + b * m
  {
  }

  lemma {:induction false} InstanceSize(form: Form, es: seq<Expr>, m: nat)
    requires ValidForm(form, |es|) && m >= 1 && forall i :: 0 <= i < |es| ==> Size(es[i]) <= m
    ensures Size(Instantiate(form, es)) <= FormSize(form) * m
    decreases form, 1
  {
    match form
    case Hole(index) => assert Instantiate(form, es) == es[index];
    case Constant(_) =>
    case Applied(op, parts) =>
      var instances := seq(|parts|, i requires 0 <= i < |parts| => Instantiate(parts[i], es));
      assert FormSize(form) == 1 + FormSizes(parts);
      InstanceSizes(parts, instances, es, m);
      assert Instantiate(form, es) == Operator(op, instances);
      Distribute(1, FormSizes(parts), m);
  }

  lemma {:induction false} InstanceSizes(forms: seq<Form>, instances: seq<Expr>, es: seq<Expr>, m: nat)
    requires m >= 1 && forall i :: 0 <= i < |es| ==> Size(es[i]) <= m
    requires |instances| == |forms|
        && forall i :: 0 <= i < |forms| ==> ValidForm(forms[i], |es|) && instances[i] == Instantiate(forms[i], es)
    ensures SizeAll(instances) <= FormSizes(forms) * m
    decreases forms, 0
  {
    if |forms| > 0 {
      InstanceSize(forms[0], es, m);
      InstanceSizes(forms[1..], instances[1..], es, m);
      Distribute(FormSize(forms[0]), FormSizes(forms[1..]), m);
    }
  }

  /** An expression with no repeating construct is its own translation. */
  lemma {:induction false} PlainIsKept(e: Expr, subqueries: bool)
    requires IsSource(e) && !HoldsRepeating(e)
    ensures Translate(e, subqueries) == Ok(e)
    decreases e, 1
  {
    var inside := Inside(e);
    assert forall i :: 0 <= i < |inside| ==> IsSource(inside[i]) && !HoldsRepeating(inside[i]);
    match e
    case Column(_) | Literal(_) =>
    case Operator(_, args) => PlainAreKept(args, subqueries);
    case Call(_, _, args) => PlainAreKept(args, subqueries);
    case Aggregate(_, args) => PlainAreKept(args, subqueries);
  }

  lemma {:induction false} PlainAreKept(es: seq<Expr>, subqueries: bool)
    requires forall i :: 0 <= i < |es| ==> IsSource(es[i]) && !HoldsRepeating(es[i])
    ensures TranslateAll(es, subqueries) == Ok(es)
    decreases es, 0
  {
    if |es| > 0 {
      PlainIsKept(es[0], subqueries);
      PlainAreKept(es[1..], subqueries);
      assert es == [es[0]] + es[1..];
    }
  }

  lemma {:induction false} SizeOfOne(es: seq<Expr>, i: nat)
    requires i < |es|
    ensures Size(es[i]) <= SizeAll(es)
  {
    if i > 0 {
      SizeOfOne(es[1..], i - 1);
    }
  }

  lemma {:induction false} SizeOfReferences(names: seq<string>)
    ensures forall i :: 0 <= i < |names| ==> Size(References(names)[i]) == 1
  {
  }

  /** At any nesting depth, what an accepted expression is lowered onto is
      linear in it: the factor depends on the forms alone. */
  lemma {:induction false} TranslationIsLinear(e: Expr, subqueries: bool, k: nat)
    requires IsSource(e) && Fits(e, k) && Translate(e, subqueries).Ok?
    ensures Size(Translate(e, subqueries).value) <= (k + 2) * Size(e)
    decreases e, 1
  {
    hide BindOnce;
    var inside := Inside(e);
    assert forall i :: 0 <= i < |inside| ==> IsSource(inside[i]) && Fits(inside[i], k);
    match e
    case Column(_) | Literal(_) =>
    case Operator(_, args) => AllLinear(args, subqueries, k);
    case Call(_, _, args) => AllLinear(args, subqueries, k);
    case Aggregate(_, args) => AllLinear(args, subqueries, k);
    case Repeating(form, operands) =>
      AllLinear(operands, subqueries, k);
      LoweringIsLinear(form, operands, TranslateAll(operands, subqueries).value, subqueries, k);
  }

  lemma {:induction false} AllLinear(es: seq<Expr>, subqueries: bool, k: nat)
    requires forall i :: 0 <= i < |es| ==> IsSource(es[i]) && Fits(es[i], k)
    requires TranslateAll(es, subqueries).Ok?
    ensures SizeAll(TranslateAll(es, subqueries).value) <= (k + 2) * SizeAll(es)
    ensures (k + 2) * (1 + SizeAll(es)) == (k + 2) + (k + 2) * SizeAll(es)
    decreases es, 0
  {
    hide Size, Translate, Fits;
    if |es| > 0 {
      TranslationIsLinear(es[0], subqueries, k);
      AllLinear(es[1..], subqueries, k);
      assert TranslateAll(es, subqueries).value[1..] == TranslateAll(es[1..], subqueries).value;
      assert (k + 2) * SizeAll(es) == (k + 2) * Size(es[0]) + (k + 2) * SizeAll(es[1..]);
    }
  }

  lemma LoweringIsLinear(form: Form, sources: seq<Expr>, translated: seq<Expr>, subqueries: bool, k: nat)
    requires |sources| == |translated| && ValidForm(form, |sources|) && FormSize(form) + |sources| <= k
    requires forall i :: 0 <= i < |sources| ==>
        IsSource(sources[i]) && Translate(sources[i], subqueries) == Ok(translated[i])
    requires SizeAll(translated) <= (k + 2) * SizeAll(sources)
    requires BindOnce(form, sources, translated, subqueries).Ok?
    ensures Size(BindOnce(form, sources, translated, subqueries).value) <= (k + 2) * (1 + SizeAll(sources))
  {
    hide Instantiate, Translate, SizeAll, IsSource, IsReplayable, HoldsAggregate, HoldsRepeating, FormSize, ValidForm;
    var lowered := BindOnce(form, sources, translated, subqueries).value;
    var m := 1 + SizeAll(sources);
    if lowered != Bind(form, translated) {
      forall i | 0 <= i < |translated| ensures Size(translated[i]) <= m {
        SizeOfOne(sources, i);
        if !IsAtomic(translated[i]) {
          PlainIsKept(sources[i], subqueries);
        }
      }
      InstanceSize(form, translated, m);
      Times(FormSize(form), k + 2, m);
    } else {
      var names := OperandNames(|translated|);
      SizeOfReferences(names);
      InstanceSize(form, References(names), 1);
      BoundSize(form, translated);
    }
  }

  lemma BoundSize(form: Form, translated: seq<Expr>)
    requires ValidForm(form, |translated|)
    ensures Size(Bind(form, translated))
         == 1 + Size(Instantiate(form, References(OperandNames(|translated|)))) + |translated| + SizeAll(translated)
  {
    hide Instantiate, SizeAll;
  }

  lemma Times(a: nat, b: nat, m: nat)
    requires a <= b
    ensures a * m <= b * m
  {
  }

  // ---------------------------------------------------------------------
  // What is refused
  // ---------------------------------------------------------------------

  ghost predicate Within(n: Expr, e: Expr) {
    n == e || exists i :: 0 <= i < |Inside(e)| && Within(n, Inside(e)[i])
  }

  predicate Unlowered(n: Expr) {
    !n.Bound? && (n.Repeating? ==> ValidForm(n.form, |n.operands|))
  }

  /** What is lowered holds no lowered construct, and its forms have an operand for
      every hole. */
  lemma {:induction false} SourcesAre(e: Expr)
    ensures IsSource(e) <==> forall n :: Within(n, e) ==> Unlowered(n)
  {
    hide ValidForm;
    forall i | 0 <= i < |Inside(e)|
      ensures IsSource(Inside(e)[i]) <==> forall n :: Within(n, Inside(e)[i]) ==> Unlowered(n)
      ensures forall n :: Within(n, Inside(e)[i]) ==> Within(n, e)
    {
      SourcesAre(Inside(e)[i]);
    }
    assert Within(e, e);
    InsideIsSource(e);
  }

  lemma InsideIsSource(e: Expr)
    ensures IsSource(e) <==> Unlowered(e) && forall i :: 0 <= i < |Inside(e)| ==> IsSource(Inside(e)[i])
  {
    var inside := Inside(e);
    match e
    case Operator(_, args) => assert inside == args;
    case Call(_, _, args) => assert inside == args;
    case Aggregate(_, args) => assert inside == args;
    case Repeating(_, operands) => assert inside == operands;
    case _ =>
  }

  ghost predicate Draws(e: Expr) {
    exists n :: Within(n, e) && n.Call? && !n.replays
  }

  ghost predicate Ranges(e: Expr) {
    exists n :: Within(n, e) && n.Aggregate?
  }

  ghost predicate Repeats(e: Expr) {
    exists n :: Within(n, e) && n.Repeating?
  }

  lemma {:induction false} HeldAreWithin(e: Expr)
    ensures IsReplayable(e) <==> !Draws(e)
    ensures HoldsAggregate(e) <==> Ranges(e)
    ensures HoldsRepeating(e) <==> Repeats(e)
  {
    forall i | 0 <= i < |Inside(e)|
      ensures IsReplayable(Inside(e)[i]) <==> !Draws(Inside(e)[i])
      ensures HoldsAggregate(Inside(e)[i]) <==> Ranges(Inside(e)[i])
      ensures HoldsRepeating(Inside(e)[i]) <==> Repeats(Inside(e)[i])
      ensures Draws(Inside(e)[i]) ==> Draws(e)
      ensures Ranges(Inside(e)[i]) ==> Ranges(e)
      ensures Repeats(Inside(e)[i]) ==> Repeats(e)
    {
      HeldAreWithin(Inside(e)[i]);
    }
  }

  predicate IsCompound(e: Expr) {
    !e.Column? && !e.Literal?
  }

  /** A repeating construct one of whose operands comes out neither a column nor a
      literal, and draws, or repeats in turn where its operands cannot be bound:
      where no subquery may stand, or one of them ranges over a group. */
  ghost predicate Unbindable(n: Expr, subqueries: bool) {
    && n.Repeating? && IsSource(n)
    && exists i :: 0 <= i < |n.operands| && Translate(n.operands[i], subqueries).Ok?
         && IsCompound(Translate(n.operands[i], subqueries).value)
         && (|| Draws(n.operands[i])
             || (Repeats(n.operands[i])
                 && (!subqueries || exists j :: 0 <= j < |n.operands| && Ranges(n.operands[j]))))
  }

  /** An expression is refused exactly when it holds such a construct. */
  lemma {:induction false} RefusedExactly(e: Expr, subqueries: bool)
    requires IsSource(e)
    ensures Translate(e, subqueries).Err? <==> exists n :: Within(n, e) && Unbindable(n, subqueries)
    decreases e
  {
    hide Unbindable;
    forall i | 0 <= i < |Inside(e)|
      ensures Translate(Inside(e)[i], subqueries).Err? <==>
          exists n :: Within(n, Inside(e)[i]) && Unbindable(n, subqueries)
    {
      RefusedExactly(Inside(e)[i], subqueries);
    }
    SomeFails(Inside(e), subqueries);
    assert Unbindable(e, subqueries) ==> Within(e, e);
    if TranslateAll(Inside(e), subqueries).Ok? {
      OneRefused(e, subqueries);
    }
  }

  lemma {:induction false} SomeFails(es: seq<Expr>, subqueries: bool)
    requires forall i :: 0 <= i < |es| ==> IsSource(es[i])
    ensures TranslateAll(es, subqueries).Err? <==> exists i :: 0 <= i < |es| && Translate(es[i], subqueries).Err?
  {
    if |es| > 0 {
      SomeFails(es[1..], subqueries);
      assert forall i :: 0 < i < |es| ==> es[i] == es[1..][i - 1];
    }
  }

  /** A construct whose operands are all accepted. */
  lemma OneRefused(e: Expr, subqueries: bool)
    requires IsSource(e) && TranslateAll(Inside(e), subqueries).Ok?
    ensures Translate(e, subqueries).Err? <==> Unbindable(e, subqueries)
  {
    hide BindOnce, Draws, Ranges, Repeats, TranslateAll;
    if e.Repeating? {
      ConstructRefused(e, TranslateAll(e.operands, subqueries).value, subqueries);
    }
  }

  lemma ConstructRefused(e: Expr, translated: seq<Expr>, subqueries: bool)
    requires IsSource(e) && e.Repeating? && |translated| == |e.operands|
    requires forall i :: 0 <= i < |e.operands| ==> Translate(e.operands[i], subqueries) == Ok(translated[i])
    ensures BindOnce(e.form, e.operands, translated, subqueries).Err? <==> Unbindable(e, subqueries)
  {
    hide Translate, BindOnce, IsReplayable, HoldsAggregate, HoldsRepeating, Draws, Ranges, Repeats, IsCompound;
    forall i | 0 <= i < |e.operands|
      ensures IsReplayable(e.operands[i]) <==> !Draws(e.operands[i])
      ensures HoldsAggregate(e.operands[i]) <==> Ranges(e.operands[i])
      ensures HoldsRepeating(e.operands[i]) <==> Repeats(e.operands[i])
    {
      HeldAreWithin(e.operands[i]);
    }
    BindRefuses(e.form, e.operands, translated, subqueries);
  }

  lemma BindRefuses(form: Form, sources: seq<Expr>, translated: seq<Expr>, subqueries: bool)
    requires |sources| == |translated| && ValidForm(form, |sources|)
    ensures BindOnce(form, sources, translated, subqueries).Err? <==>
      || (exists i :: 0 <= i < |sources| && IsCompound(translated[i]) && !IsReplayable(sources[i]))
      || ((!subqueries || exists i :: 0 <= i < |sources| && HoldsAggregate(sources[i]))
          && exists i :: 0 <= i < |sources| && IsCompound(translated[i]) && HoldsRepeating(sources[i]))
    ensures BindOnce(form, sources, translated, subqueries).Ok? ==>
      BindOnce(form, sources, translated, subqueries).value
      == if subqueries && (forall i :: 0 <= i < |sources| ==> !HoldsAggregate(sources[i]))
            && exists i :: 0 <= i < |sources| && IsCompound(translated[i])
         then Bind(form, translated)
         else Instantiate(form, translated)
  {
    hide IsReplayable, HoldsAggregate, HoldsRepeating, FirstCompound, Instantiate, Bind;
  }

  /** Why a call that does not replay is refused: taken from itself it is zero, and
      written twice it is not. */
  lemma DrawnTwice(engine: Engine, at: Place, drawn: nat)
    requires forall n: nat :: engine.draw("random", n, []) == Integer(n)
    requires forall a, b :: engine.operate("-", [Integer(a), Integer(b)]) == Integer(a - b)
    ensures var call, form := Call("random", false, []), Applied("-", [Hole(0), Hole(0)]);
      && ValidForm(form, 1)
      && Eval(engine, at, drawn, Repeating(form, [call])) == (Integer(0), drawn + 1)
      && Eval(engine, at, drawn, Instantiate(form, [call])) == (Integer(-1), drawn + 2)
      && Translate(Repeating(form, [call]), true) == Err(Duplicated(call))
  {
    var call, form := Call("random", false, []), Applied("-", [Hole(0), Hole(0)]);
    DrawnOnce(engine, at, drawn);
    DrawnOnce(engine, at, drawn + 1);
    var twice := [call, call];
    assert twice[1..] == [call];
    assert [Integer(drawn)] + [Integer(drawn + 1)] == [Integer(drawn), Integer(drawn + 1)];
    assert EvalAll(engine, at, drawn, twice) == ([Integer(drawn), Integer(drawn + 1)], drawn + 2);
    assert seq(2, i requires 0 <= i < 2 => Instantiate(form.parts[i], [call])) == twice;
    assert seq(2, i requires 0 <= i < 2 => EvalForm(engine, form.parts[i], [Integer(drawn)]))
        == [Integer(drawn), Integer(drawn)];
  }

  lemma DrawnOnce(engine: Engine, at: Place, drawn: nat)
    requires forall n: nat :: engine.draw("random", n, []) == Integer(n)
    ensures var call := Call("random", false, []);
      && Eval(engine, at, drawn, call) == (Integer(drawn), drawn + 1)
      && EvalAll(engine, at, drawn, [call]) == ([Integer(drawn)], drawn + 1)
      && TranslateAll([call], true) == Ok([call])
  {
    var call := Call("random", false, []);
    var rest := [call][1..];
    assert rest == [] && EvalAll(engine, at, drawn + 1, rest) == ([], drawn + 1);
    assert TranslateAll(rest, true) == Ok([]);
    assert Translate(call, true) == Ok(call);
    assert [Integer(drawn)] + [] == [Integer(drawn)] && [call] + [] == [call];
    assert [call][0] == call;
    var (first, after) := Eval(engine, at, drawn, [call][0]);
    assert first == Integer(drawn) && after == drawn + 1;
    var (others, last) := EvalAll(engine, at, after, rest);
    assert others == [] && last == after;
  }

  // ---------------------------------------------------------------------
  // Exclusive or
  // ---------------------------------------------------------------------

  /** `(l | r) - (l & r)`. */
  const XOR_FORM := Applied("-", [Applied("|", [Hole(0), Hole(1)]), Applied("&", [Hole(0), Hole(1)])])

  /** A bitwise operator on two's complement words: the lowest bit, then the
      rest, the last bit counting as negative. */
  function Bitwise(f: (bool, bool) -> bool, x: int, y: int, width: nat): int
    decreases width
  {
    if width == 0 then 0
    else
      var bit := if f(x % 2 == 1, y % 2 == 1) then 1 else 0;
      if width == 1 then -bit else bit + 2 * Bitwise(f, x / 2, y / 2, width - 1)
  }

  function Or(): (bool, bool) -> bool {
    (p, q) => p || q
  }

  function And(): (bool, bool) -> bool {
    (p, q) => p && q
  }

  function Xor(): (bool, bool) -> bool {
    (p, q) => p != q
  }

  /** The bit of a two's complement number at a place. */
  function BitAt(x: int, place: nat): bool
    decreases place
  {
    if place == 0 then x % 2 == 1 else BitAt(x / 2, place - 1)
  }

  /** The operator's word has at each place the operator's value there, and is the
      number of its width with those bits. */
  lemma {:induction false} BitwiseAtEachPlace(f: (bool, bool) -> bool, x: int, y: int, width: nat, place: nat)
    requires place < width
    ensures BitAt(Bitwise(f, x, y, width), place) == f(BitAt(x, place), BitAt(y, place))
    ensures -Power2(width - 1) <= Bitwise(f, x, y, width) < Power2(width - 1)
    decreases width
  {
    if width > 1 {
      BitwiseAtEachPlace(f, x / 2, y / 2, width - 1, if place == 0 then 0 else place - 1);
      LowestBit(if f(x % 2 == 1, y % 2 == 1) then 1 else 0, Bitwise(f, x / 2, y / 2, width - 1));
    }
  }

  lemma LowestBit(bit: int, rest: int)
    requires bit == 0 || bit == 1
    ensures (bit + 2 * rest) % 2 == bit && (bit + 2 * rest) / 2 == rest
  {
  }

  function Power2(k: nat): int {
    if k == 0 then 1 else 2 * Power2(k - 1)
  }

  lemma {:induction false} OrLessAnd(x: int, y: int, width: nat)
    ensures Bitwise(Or(), x, y, width) - Bitwise(And(), x, y, width) == Bitwise(Xor(), x, y, width)
    decreases width
  {
    if width > 1 {
      OrLessAnd(x / 2, y / 2, width - 1);
    }
  }

  /** An engine of 64-bit words gives the form the value of PostgreSQL's `#`. */
  lemma XorForm(engine: Engine, x: int, y: int)
    requires engine.operate("|", [Integer(x), Integer(y)]) == Integer(Bitwise(Or(), x, y, 64))
    requires engine.operate("&", [Integer(x), Integer(y)]) == Integer(Bitwise(And(), x, y, 64))
    requires forall a, b :: engine.operate("-", [Integer(a), Integer(b)]) == Integer(a - b)
    ensures ValidForm(XOR_FORM, 2)
        && EvalForm(engine, XOR_FORM, [Integer(x), Integer(y)]) == Integer(Bitwise(Xor(), x, y, 64))
  {
    hide Bitwise;
    var values := [Integer(x), Integer(y)];
    var or_, and_ := XOR_FORM.parts[0], XOR_FORM.parts[1];
    assert ValidForm(or_, 2) && ValidForm(and_, 2);
    OrLessAnd(x, y, 64);
    assert seq(2, i requires 0 <= i < 2 => EvalForm(engine, or_.parts[i], values)) == values;
    assert seq(2, i requires 0 <= i < 2 => EvalForm(engine, and_.parts[i], values)) == values;
    var a, b := Bitwise(Or(), x, y, 64), Bitwise(And(), x, y, 64);
    assert EvalForm(engine, or_, values) == Integer(a) && EvalForm(engine, and_, values) == Integer(b);
    assert seq(2, i requires 0 <= i < 2 => EvalForm(engine, XOR_FORM.parts[i], values)) == [Integer(a), Integer(b)];
  }
}
