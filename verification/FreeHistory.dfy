/** The most discriminating behaviour the recorded frames admit: every object
    holds the whole history it was made by. */
module FreeHistory {
  import opened Wrappers
  import opened Text
  import opened Statements
  import opened Effects
  import opened Transactions
  import opened Retention
  import opened Replay
  import opened Connection

  /** What last changed an object: which statement of which unit, and the
      histories of everything the unit touches or reads, as it found them. */
  datatype Trace = Trace(unit: nat, position: nat, found: map<nat, Trace>)

  function Restricted<V>(store: Store<V>, ids: set<nat>): Store<V> {
    map id | id in store && id in ids :: store[id]
  }

  /** Every connection-local statement writes a new history into everything its
      unit touches. */
  function FreeStep(effects: seq<Footprint>, local: Statement -> bool): Semantics<Trace> {
    (op: Op, store: Store<Trace>) =>
      if op.Emit? && op.unit < |effects| && local(op.statement) then Marked(op, effects[op.unit], store) else store
  }

  function Marked(op: Op, footprint: Footprint, store: Store<Trace>): Store<Trace>
    requires op.Emit?
  {
    store + map id | id in Ids(footprint.touches) :: Trace(op.unit, op.position, Restricted(store, Demands(footprint)))
  }

  lemma SameRestriction<V(!new)>(a: Store<V>, b: Store<V>, ids: set<nat>)
    requires Agree(a, b, ids)
    ensures Restricted(a, ids) == Restricted(b, ids)
  {
    forall id | id in ids ensures (id in a <==> id in b) && (id in a ==> a[id] == b[id]) {
      assert Lookup(a, id) == Lookup(b, id);
    }
  }

  /** Marking stays within the frame. */
  lemma MarkedIsFramed(op: Op, footprint: Footprint, a: Store<Trace>, b: Store<Trace>)
    requires op.Emit?
    ensures forall id: nat :: id !in footprint.touches ==> Lookup(Marked(op, footprint, a), id) == Lookup(a, id)
    ensures Agree(a, b, Demands(footprint)) ==>
        Agree(Marked(op, footprint, a), Marked(op, footprint, b), Demands(footprint))
  {
    if Agree(a, b, Demands(footprint)) {
      SameRestriction(a, b, Demands(footprint));
      forall id | id in Demands(footprint)
        ensures Lookup(Marked(op, footprint, a), id) == Lookup(Marked(op, footprint, b), id)
      {
        assert Lookup(a, id) == Lookup(b, id);
      }
    }
  }

  lemma {:induction false} FreeUnitIsFramed(effects: seq<Footprint>, local: Statement -> bool, i: nat, ops: seq<Op>,
      a: Store<Trace>, b: Store<Trace>)
    requires i < |effects| && forall k :: 0 <= k < |ops| ==> ops[k].Emit? && ops[k].unit == i
    ensures var step := FreeStep(effects, local);
      && (forall id: nat :: id !in effects[i].touches ==> Lookup(RunAll(ops, a, step), id) == Lookup(a, id))
      && (Agree(a, b, Demands(effects[i])) ==> Agree(RunAll(ops, a, step), RunAll(ops, b, step), Demands(effects[i])))
  {
    hide Agree, Lookup, Marked, Demands;
    if |ops| > 0 {
      var rest, last, step := ops[..|ops| - 1], ops[|ops| - 1], FreeStep(effects, local);
      FreeUnitIsFramed(effects, local, i, rest, a, b);
      MarkedIsFramed(last, effects[i], RunAll(rest, a, step), RunAll(rest, b, step));
    }
  }

  /** On every batch the frames admit it: nothing about them forces an object
      to hold less than its history. */
  lemma FreeIsFramed(units: seq<Unit>, d: Derivation, local: Statement -> bool)
    requires |d.effects| == |d.outline.outcomes| == |units|
    ensures UnitsFramed(units, d, FreeStep(d.effects, local))
    ensures KeptElsewhere(units, d.kept, local, FreeStep(d.effects, local))
  {
    hide RunAll, Marked;
    var step := FreeStep(d.effects, local);
    forall i: nat | i < |d.effects| ensures Framed(UnitExec(units, step), i, d.effects[i]) {
      FreeFrame(units, d.effects, local, i);
    }
  }

  lemma FreeFrame(units: seq<Unit>, effects: seq<Footprint>, local: Statement -> bool, i: nat)
    requires i < |effects| == |units|
    ensures Framed(UnitExec(units, FreeStep(effects, local)), i, effects[i])
  {
    hide RunAll, FreeStep;
    var ops, step := UnitOps(i, units[i].emitted), FreeStep(effects, local);
    var exec := UnitExec(units, step);
    forall s: Store<Trace>, id: nat | id !in effects[i].touches ensures Lookup(exec(i, s), id) == Lookup(s, id) {
      FreeUnitIsFramed(effects, local, i, ops, s, s);
    }
    forall s: Store<Trace>, t: Store<Trace>, id: nat | Agree(s, t, Demands(effects[i])) && id in effects[i].touches
      ensures Lookup(exec(i, s), id) == Lookup(exec(i, t), id)
    {
      FreeUnitIsFramed(effects, local, i, ops, s, t);
      assert id in Demands(effects[i]);
    }
  }

  /** So every surviving object has the same history in the connection program
      as in the batch, back to its creation, through every object it drew on. */
  lemma SurvivorsKeepTheirHistory(units: seq<Unit>, d: Derivation, local: Statement -> bool, program: seq<Op>,
      blocks: map<nat, nat>)
    requires Derived(units, d) && IsProgram(units, d, local, program, blocks)
    ensures var step := FreeStep(d.effects, local);
            Agree(FinalStore(SourcesOf(units), map[], UnitExec(units, step)),
                  FinalStore(BatchOf(program), map[], OpExec(program, step)),
                  Survivors(units, d.outline.outcomes))
  {
    hide UnitsFramed, KeptElsewhere, IsProgram, Recorded, Created, IsRetention;
    OutcomeLengths(SourcesOf(units), d.outline);
    FreeIsFramed(units, d, local);
    ReplayRecreatesSurvivors(units, d, local, program, blocks, FreeStep(d.effects, local));
  }

  // ---------------------------------------------------------------------
  // The same text at two places
  // ---------------------------------------------------------------------

  const CREATE := CreateTable(["t"], true, false, None)
  const DROP := Drop(DropTable, [["t"]])

  /** CREATE TEMP TABLE t, DROP TABLE t, CREATE TEMP TABLE t. */
  const RECREATE := [Unit(Other, [CREATE]), Unit(Other, [DROP]), Unit(Other, [CREATE])]

  const FIRST := Footprint([0], [], false)
  const SECOND := Footprint([1], [], false)

  const RECREATED := Derivation(Outline([Committed, Committed, Committed], [None, None, None]), [FIRST, FIRST, SECOND],
    [false, false, true])

  const NOTHING := State([], map[], map[], map[])
  const HELD := State([Object(TableShape, true)], map["t" := 0], map[], map[])
  const GONE := State([Object(TableShape, false)], map[], map[], map[])
  const AGAIN := State([Object(TableShape, false), Object(TableShape, true)], map["t" := 1], map[], map[])

  lemma RecreateCatalogues()
    ensures NOTHING.After(CREATE) == HELD && HELD.After(DROP) == GONE && GONE.After(CREATE) == AGAIN
  {
    assert Lower("t") == "t";
    assert ["t"][|["t"]| - 1] == "t";
    assert NOTHING.After(CREATE) == NOTHING.Entered("t", TableShape);
    var unnamed := HELD.(relations := HELD.relations - {"t"});
    assert HELD.DropTarget(DropTable, ["t"]) == Some(("t", 0));
    assert HELD.Dropped(DropTable, ["t"]) == unnamed.Retired(0);
    assert unnamed.Attached(0) == {} && unnamed.Dying(0) == {0};
    assert unnamed.Retired(0) == GONE;
    assert [["t"]][..0] == [];
    assert HELD.DroppedAll(DropTable, []) == HELD;
    assert HELD.DroppedAll(DropTable, [["t"]]) == HELD.Dropped(DropTable, ["t"]);
    assert GONE.After(CREATE) == GONE.Entered("t", TableShape);
  }

  lemma OneStatement(st: State, statement: Statement, footprint: Footprint)
    requires !statement.Rows? && DefinitionEffects(st, statement, st.After(statement), EMPTY, footprint)
    ensures UnitEffects(st, [statement], footprint) && st.AfterAll([statement]) == st.After(statement)
  {
    assert [statement][..0] == [];
    assert UnitEffects(st, [], EMPTY) && st.AfterAll([]) == st;
    assert StatementEffects(st.AfterAll([statement][..0]), [statement][0], EMPTY, footprint);
  }

  lemma RecreateEffects()
    ensures UnitEffects(NOTHING, [CREATE], FIRST) && NOTHING.AfterAll([CREATE]) == HELD
    ensures UnitEffects(HELD, [DROP], FIRST) && HELD.AfterAll([DROP]) == GONE
    ensures UnitEffects(GONE, [CREATE], SECOND) && GONE.AfterAll([CREATE]) == AGAIN
  {
    RecreateCatalogues();
    assert Changed(NOTHING, HELD) == {0} && Changed(HELD, GONE) == {0} && Changed(GONE, AGAIN) == {1};
    assert Ids([0]) == {0} && Ids([1]) == {1} && Ids([]) == {};
    OneStatement(NOTHING, CREATE, FIRST);
    OneStatement(HELD, DROP, FIRST);
    OneStatement(GONE, CREATE, SECOND);
  }

  lemma RecreateOutline()
    ensures IsOutline(SourcesOf(RECREATE), RECREATED.outline)
  {
    var sources := SourcesOf(RECREATE);
    assert LogRun(sources, 0) == Session([], None, 0);
    assert LogRun(sources, 1) == Session([0], None, 0) by { assert [] + [0] == [0]; }
    assert LogRun(sources, 2) == Session([0, 1], None, 0) by { assert [0] + [1] == [0, 1]; }
    assert LogRun(sources, 3) == Session([0, 1, 2], None, 0) by { assert [0, 1] + [2] == [0, 1, 2]; }
  }

  lemma RecreateCatalogueAt()
    ensures var outcomes := RECREATED.outline.outcomes;
      && CatalogAt(RECREATE, outcomes, 0) == NOTHING && CatalogAt(RECREATE, outcomes, 1) == HELD
      && CatalogAt(RECREATE, outcomes, 2) == GONE && CatalogAt(RECREATE, outcomes, 3) == AGAIN
  {
    hide State.AfterAll;
    RecreateEffects();
    var outcomes := RECREATED.outline.outcomes;
    assert CatalogAt(RECREATE, outcomes, 0) == NOTHING;
    assert CatalogAt(RECREATE, outcomes, 1) == HELD;
    assert CatalogAt(RECREATE, outcomes, 2) == GONE;
  }

  lemma RecreateRetention()
    ensures IsRetention({1}, RECREATED.effects, {1}, {2})
  {
    var effects := RECREATED.effects;
    assert Ids([0]) == {0} && Ids([1]) == {1} && Ids([]) == {};
    assert Demands(effects[2]) == {1} && Meets(effects[2].touches, {1}) by { assert 1 in effects[2].touches; }
    forall N: set<nat>, R: set<nat> | RetentionClosed({1}, effects, N, R) ensures {1} <= N && {2} <= R {
      assert 1 in effects[2].touches && 1 in N;
      assert Meets(effects[2].touches, N);
    }
  }

  /** Object 0 is created and dropped, object 1 created by the same text. The
      last unit alone is kept, the frames admit a behaviour in which the two
      texts make different objects, and the survivor is not empty. */
  lemma RecreatedSurvives(local: Statement -> bool)
    requires local(CREATE)
    ensures RECREATE[0] == RECREATE[2] && Derived(RECREATE, RECREATED)
    ensures Survivors(RECREATE, RECREATED.outline.outcomes) == {1}
    ensures UnitsFramed(RECREATE, RECREATED, FreeStep(RECREATED.effects, local))
    ensures Lookup(FinalStore(SourcesOf(RECREATE), map[], UnitExec(RECREATE, FreeStep(RECREATED.effects, local))), 1)
        == Some(Trace(2, 0, map[]))
  {
    hide UnitsFramed, KeptElsewhere, IsRetention, State.After, IsOutline, UnitEffects;
    RecreateOutline();
    RecreateCatalogueAt();
    RecreateEffects();
    RecreateRetention();
    FreeIsFramed(RECREATE, RECREATED, local);
    assert Flagged(RECREATED.kept) == {2};
    assert AliveIds(AGAIN.objects) == {1};
    assert Recorded(RECREATE, RECREATED.outline.outcomes, RECREATED.effects, 3);
    assert Touched(RECREATED.effects, 0) && Touched(RECREATED.effects, 1) by {
      assert 0 in RECREATED.effects[0].touches && 1 in RECREATED.effects[2].touches;
    }
    assert Created(AGAIN, RECREATED.effects);
    assert IsRetention(Survivors(RECREATE, RECREATED.outline.outcomes), RECREATED.effects, {1},
      Flagged(RECREATED.kept));
    RecreatedHistory(local);
  }

  lemma RecreatedHistory(local: Statement -> bool)
    requires local(CREATE)
    ensures Lookup(FinalStore(SourcesOf(RECREATE), map[], UnitExec(RECREATE, FreeStep(RECREATED.effects, local))), 1)
        == Some(Trace(2, 0, map[]))
  {
    hide RunAll, IsOutline, CommittedIndices, Fold, FinalStore;
    var effects := RECREATED.effects;
    var step := FreeStep(effects, local);
    var exec, sources := UnitExec(RECREATE, step), SourcesOf(RECREATE);
    assert Ids([0]) == {0} && Ids([1]) == {1} && Ids([]) == {};
    RecreateOutline();
    CommittedStatementsSuffice(sources, RECREATED.outline, map[], exec);
    RecreateLog();
    OneOp(0, CREATE, map[], step);
    var one := exec(0, map[]);
    OneOp(1, DROP, one, step);
    var two := exec(1, one);
    OneOp(2, CREATE, two, step);
    LogOfThree(exec);
    assert effects[0] == effects[1] == FIRST && effects[2] == SECOND && Ids(FIRST.touches) == {0};
    FreeUnitIsFramed(effects, local, 0, UnitOps(0, [CREATE]), map[], map[]);
    FreeUnitIsFramed(effects, local, 1, UnitOps(1, [DROP]), one, one);
    assert Lookup(one, 1) == None && Lookup(two, 1) == None;
    assert Restricted(two, Demands(effects[2])) == map[];
  }

  lemma RecreateLog()
    ensures CommittedIndices(RECREATED.outline.outcomes, 3) == [0, 1, 2]
  {
    hide CommittedIndices;
    var outcomes := RECREATED.outline.outcomes;
    OneMoreCommitted(outcomes, 0);
    OneMoreCommitted(outcomes, 1);
    OneMoreCommitted(outcomes, 2);
    assert [] + [0] + [1] + [2] == [0, 1, 2];
  }

  lemma OneMoreCommitted(outcomes: seq<Outcome>, n: nat)
    requires n < |outcomes| && outcomes[n] == Committed
    ensures CommittedIndices(outcomes, n + 1) == CommittedIndices(outcomes, n) + [n]
    ensures CommittedIndices(outcomes, 0) == []
  {
  }

  lemma LogOfThree<S>(exec: (nat, Store<S>) -> Store<S>)
    ensures Fold([0, 1, 2], map[], exec) == exec(2, exec(1, exec(0, map[])))
  {
    assert [0, 1, 2][..2] == [0, 1] && [0, 1][..1] == [0] && [0][..0] == [];
    assert Fold([], map[], exec) == map[];
    assert Fold([0], map[], exec) == exec(0, map[]);
    assert Fold([0, 1], map[], exec) == exec(1, exec(0, map[]));
  }

  lemma OneOp(i: nat, statement: Statement, store: Store<Trace>, step: Semantics<Trace>)
    ensures RunAll(UnitOps(i, [statement]), store, step) == step(Emit(i, 0, statement), store)
  {
    var ops := UnitOps(i, [statement]);
    assert ops[..0] == [] && ops[0] == Emit(i, 0, statement);
  }
}
