/** The connection program of a batch, end to end. */
module Connection {
  import opened Wrappers
  import opened Statements
  import opened Effects
  import opened Transactions
  import opened Retention
  import opened Replay

  /** How a connection program was reached. */
  datatype Derivation = Derivation(outline: Outline, effects: seq<Footprint>, kept: seq<bool>)

  /** The catalogue before unit `n`, to which only committed units apply. */
  function CatalogAt(units: seq<Unit>, outcomes: seq<Outcome>, n: nat): State
    requires n <= |units| == |outcomes|
  {
    if n == 0 then State([], map[], map[], map[])
    else
      var before := CatalogAt(units, outcomes, n - 1);
      if outcomes[n - 1] == Committed then before.AfterAll(units[n - 1].emitted) else before
  }

  /** The objects alive once every committed unit has applied. */
  function Survivors(units: seq<Unit>, outcomes: seq<Outcome>): set<nat>
    requires |units| == |outcomes|
  {
    AliveIds(CatalogAt(units, outcomes, |units|).objects)
  }

  ghost predicate Recorded(units: seq<Unit>, outcomes: seq<Outcome>, effects: seq<Footprint>, n: nat)
    requires n <= |effects| <= |units| == |outcomes|
  {
    forall i: nat :: i < n ==>
      if outcomes[i] == Committed then UnitEffects(CatalogAt(units, outcomes, i), units[i].emitted, effects[i])
      else effects[i] == EMPTY
  }

  /** Every object was created by some committed unit that touches it. */
  ghost predicate Created(st: State, effects: seq<Footprint>) {
    forall id: nat :: id < |st.objects| ==> Touched(effects, id)
  }

  ghost predicate Touched(effects: seq<Footprint>, id: nat) {
    exists i :: 0 <= i < |effects| && id in effects[i].touches
  }

  /** The outline, the recorded effects and the least retention. */
  ghost predicate Derived(units: seq<Unit>, d: Derivation) {
    && IsOutline(SourcesOf(units), d.outline)
    && |d.effects| == |d.kept| == |units|
    && Recorded(units, d.outline.outcomes, d.effects, |units|)
    && Created(CatalogAt(units, d.outline.outcomes, |units|), d.effects)
    && exists needed :: IsRetention(Survivors(units, d.outline.outcomes), d.effects, needed, Flagged(d.kept))
  }

  /** A program that emits exactly the kept units' connection-local
      statements in source order, one block for each transaction kept. */
  ghost predicate IsProgram(units: seq<Unit>, d: Derivation, local: Statement -> bool, program: seq<Op>,
      blocks: map<nat, nat>)
  {
    && |d.outline.transactions| == |d.kept| == |units|
    && Standing(program, None, d.outline.transactions, blocks)
    && Emits(program) == Emission(units, d.kept, local, |units|)
    && blocks.Keys == KeptTransactions(d.outline.transactions, d.kept, |units|)
  }

  method RecordEffects(units: seq<Unit>, o: Outline) returns (catalog: Catalog, effects: seq<Footprint>)
    requires IsOutline(SourcesOf(units), o)
    requires forall i, j :: 0 <= i < |units| && 0 <= j < |units[i].emitted| ==> WellFormed(units[i].emitted[j])
    ensures |effects| == |units| && Recorded(units, o.outcomes, effects, |units|)
    ensures catalog.Model() == CatalogAt(units, o.outcomes, |units|)
    ensures Created(catalog.Model(), effects)
    ensures forall i: nat :: i < |effects| ==> Within(|catalog.objects|, effects[i])
  {
    hide IsOutline, State.Valid, State.AfterAll, UnitEffects, Changed, Evolves, Within;
    OutcomeLengths(SourcesOf(units), o);
    catalog := new Catalog();
    effects := [];
    for index := 0 to |units|
      invariant fresh(catalog)
      invariant |effects| == index && catalog.Model().Valid()
      invariant catalog.Model() == CatalogAt(units, o.outcomes, index)
      invariant Recorded(units, o.outcomes, effects, index)
      invariant Created(catalog.Model(), effects)
      invariant forall i: nat :: i < |effects| ==> Within(|catalog.objects|, effects[i])
    {
      ghost var st := catalog.Model();
      var footprint := EMPTY;
      if o.outcomes[index] == Committed {
        footprint := catalog.ApplyUnit(units[index].emitted);
      } else {
        EmptyWithin(|catalog.objects|);
        NothingChanged(st);
      }
      CreatedMore(st, catalog.Model(), effects, footprint);
      WithinMore(st, catalog.Model(), effects);
      effects := effects + [footprint];
    }
  }

  lemma OutcomeLengths(sources: seq<Source>, o: Outline)
    requires IsOutline(sources, o)
    ensures |o.outcomes| == |o.transactions| == |sources|
  {
  }

  lemma EmptyWithin(n: nat)
    ensures Within(n, EMPTY)
  {
  }

  lemma WithinMore(st: State, next: State, effects: seq<Footprint>)
    requires Evolves(st, next)
    ensures forall i: nat :: i < |effects| && Within(|st.objects|, effects[i]) ==> Within(|next.objects|, effects[i])
  {
  }

  lemma CreatedMore(st: State, next: State, effects: seq<Footprint>, footprint: Footprint)
    requires Created(st, effects) && Evolves(st, next) && Changed(st, next) <= Ids(footprint.touches)
    ensures Created(next, effects + [footprint])
  {
    var more := effects + [footprint];
    forall id: nat | id < |next.objects| ensures Touched(more, id) {
      if id < |st.objects| {
        assert Touched(effects, id);
        var i :| 0 <= i < |effects| && id in effects[i].touches;
        assert more[i] == effects[i];
      } else {
        assert id in Changed(st, next) && id in Ids(footprint.touches);
        assert more[|effects|] == footprint;
      }
    }
  }

  /** Only committed units touch anything, so only they are kept. */
  lemma KeptAreCommitted(units: seq<Unit>, o: Outline, effects: seq<Footprint>, alive: set<nat>, needed: set<nat>,
      kept: set<nat>)
    requires IsOutline(SourcesOf(units), o) && |effects| == |units|
    requires Recorded(units, o.outcomes, effects, |units|)
    requires IsRetention(alive, effects, needed, kept)
    ensures forall i :: i in kept ==> i < |units| && o.outcomes[i] == Committed && !IsControl(units[i].source)
  {
    var committed := set i: nat | i in kept && i < |units| && o.outcomes[i] == Committed;
    forall i: nat | i < |effects| && Meets(effects[i].touches, needed) ensures i in committed {
      assert effects[i] != EMPTY;
    }
    assert RetentionClosed(alive, effects, needed, committed);
  }

  /** What a derivation makes of the batch: the first kept unit that writes a
      stored table, or the program when there is none. */
  ghost predicate AnsweredBy(units: seq<Unit>, local: Statement -> bool, r: Result<seq<Op>, nat>, d: Derivation,
      blocks: map<nat, nat>)
  {
    && Derived(units, d)
    && match r
       case Ok(program) =>
         && (forall i: nat :: i < |units| && d.kept[i] ==> !d.effects[i].persistentWrite)
         && IsProgram(units, d, local, program, blocks)
       case Err(i) =>
         && i < |units| && d.kept[i] && d.effects[i].persistentWrite
         && forall j: nat :: j < i && d.kept[j] ==> !d.effects[j].persistentWrite
  }

  ghost predicate Answered(units: seq<Unit>, local: Statement -> bool, r: Result<seq<Op>, nat>) {
    exists d: Derivation, blocks: map<nat, nat> :: AnsweredBy(units, local, r, d, blocks)
  }

  /** The statements a connection runs, or the unit that forbids them. */
  method ConnectionProgram(units: seq<Unit>, dispositions: seq<Disposition>, local: Statement -> bool)
      returns (r: Result<seq<Op>, nat>)
    requires Accepted(SourcesOf(units)) && Classified(SourcesOf(units), dispositions)
    requires forall i, j :: 0 <= i < |units| && 0 <= j < |units[i].emitted| ==> WellFormed(units[i].emitted[j])
    ensures Answered(units, local, r)
  {
    hide IsOutline, Created, Standing, IsRetention, State.Valid, State.AfterAll, Within, Recorded, Accepted,
         Classified, KeptTransactions, AliveIds, WellFormed;
    var o := NewOutline(SourcesOf(units), dispositions);
    OutcomeLengths(SourcesOf(units), o);
    var catalog, effects := RecordEffects(units, o);
    var alive := catalog.Alive();
    var kept;
    ghost var needed;
    kept, needed := Retain(|catalog.objects|, alive, effects);
    ghost var d := Derivation(o, effects, kept);
    KeptAreCommitted(units, o, effects, Survivors(units, o.outcomes), needed, Flagged(kept));
    FlagsAreKept(kept);
    var any := false;
    for i := 0 to |kept|
      invariant !any ==> forall j :: 0 <= j < i ==> !kept[j]
    {
      any := any || kept[i];
    }
    if !any {
      NothingKept(units, kept, o.transactions, local);
      r := Ok([]);
      assert AnsweredBy(units, local, r, d, map[]);
      return;
    }
    for i := 0 to |kept|
      invariant forall j: nat :: j < i && kept[j] ==> !effects[j].persistentWrite
    {
      if kept[i] && effects[i].persistentWrite {
        r := Err(i);
        assert AnsweredBy(units, local, r, d, map[]);
        return;
      }
    }
    ghost var blocks;
    var program;
    program, blocks := Replay.Replay(units, kept, o, local);
    r := Ok(program);
    assert AnsweredBy(units, local, r, d, blocks);
  }

  lemma FlagsAreKept(kept: seq<bool>)
    ensures forall i: nat :: i < |kept| ==> (kept[i] <==> i in Flagged(kept))
  {
  }

  lemma {:induction false} NothingEmitted(units: seq<Unit>, kept: seq<bool>, local: Statement -> bool, n: nat)
    requires n <= |units| == |kept| && forall i :: 0 <= i < |kept| ==> !kept[i]
    ensures Emission(units, kept, local, n) == []
  {
    if n > 0 {
      NothingEmitted(units, kept, local, n - 1);
    }
  }

  lemma NothingKept(units: seq<Unit>, kept: seq<bool>, transactions: seq<Option<nat>>, local: Statement -> bool)
    requires |units| == |kept| == |transactions| && forall i :: 0 <= i < |kept| ==> !kept[i]
    ensures Standing([], None, transactions, map[]) && Emits([]) == Emission(units, kept, local, |units|)
    ensures KeptTransactions(transactions, kept, |units|) == {}
  {
    NothingEmitted(units, kept, local, |units|);
  }

  // ---------------------------------------------------------------------
  // What running the program leaves
  // ---------------------------------------------------------------------

  /** What each unit of the batch does to the connection's store. */
  function UnitExec<V>(units: seq<Unit>, step: Semantics<V>): (nat, Store<V>) -> Store<V> {
    (i: nat, store: Store<V>) => if i < |units| then RunAll(UnitOps(i, units[i].emitted), store, step) else store
  }

  /** Each committed unit respects the frame its recorded effects set. */
  ghost predicate UnitsFramed<V(!new)>(units: seq<Unit>, d: Derivation, step: Semantics<V>) {
    forall i: nat :: i < |d.effects| && i < |d.outline.outcomes| && d.outline.outcomes[i] == Committed ==>
      Framed(UnitExec(units, step), i, d.effects[i])
  }

  /** The statement leaves the connection's own store alone. */
  ghost predicate Elsewhere<V(!new)>(op: Op, step: Semantics<V>) {
    forall s: Store<V> :: step(op, s) == s
  }

  ghost predicate OthersElsewhere<V(!new)>(i: nat, emitted: seq<Statement>, local: Statement -> bool,
      step: Semantics<V>)
  {
    forall j :: 0 <= j < |emitted| && !local(emitted[j]) ==> Elsewhere(Emit(i, j, emitted[j]), step)
  }

  /** In a kept unit, what is not connection-local runs elsewhere. */
  ghost predicate KeptElsewhere<V(!new)>(units: seq<Unit>, kept: seq<bool>, local: Statement -> bool,
      step: Semantics<V>)
  {
    forall i: nat :: i < |units| && i < |kept| && kept[i] ==> OthersElsewhere(i, units[i].emitted, local, step)
  }

  /** Filtering out what runs elsewhere changes nothing here. */
  lemma {:induction false} LocalOpsRun<V(!new)>(i: nat, emitted: seq<Statement>, local: Statement -> bool,
      store: Store<V>, step: Semantics<V>)
    requires OthersElsewhere(i, emitted, local, step)
    ensures RunAll(LocalOps(i, emitted, local), store, step) == RunAll(UnitOps(i, emitted), store, step)
  {
    hide Elsewhere;
    if |emitted| > 0 {
      var place := |emitted| - 1;
      var rest, last := emitted[..place], Emit(i, place, emitted[place]);
      LocalOpsRun(i, rest, local, store, step);
      assert UnitOps(i, emitted) == UnitOps(i, rest) + [last];
      RunAllOne(UnitOps(i, rest), last, store, step);
      if local(emitted[place]) {
        RunAllOne(LocalOps(i, rest, local), last, store, step);
      } else {
        assert LocalOps(i, emitted, local) == LocalOps(i, rest, local);
        ElsewhereHere(last, RunAll(UnitOps(i, rest), store, step), step);
      }
    }
  }

  lemma ElsewhereHere<V(!new)>(op: Op, store: Store<V>, step: Semantics<V>)
    requires Elsewhere(op, step)
    ensures step(op, store) == store
  {
  }

  /** One kept unit more, in the program and in the log. */
  lemma KeptUnitRuns<V(!new)>(units: seq<Unit>, i: nat, before: seq<Op>, log: seq<nat>, local: Statement -> bool,
      step: Semantics<V>)
    requires i < |units| && OthersElsewhere(i, units[i].emitted, local, step)
    requires RunAll(before, map[], step) == Fold(log, map[], UnitExec(units, step))
    ensures RunAll(before + LocalOps(i, units[i].emitted, local), map[], step)
        == Fold(Append(i, log), map[], UnitExec(units, step))
  {
    hide OthersElsewhere, LocalOps, UnitOps, RunAll, Fold, Append;
    var ops, store := LocalOps(i, units[i].emitted, local), RunAll(before, map[], step);
    RunAllThenAll(before, ops, map[], step);
    LocalOpsRun(i, units[i].emitted, local, store, step);
    FoldAppend(log, i, map[], UnitExec(units, step));
  }

  lemma EmissionOne(units: seq<Unit>, kept: seq<bool>, outcomes: seq<Outcome>, local: Statement -> bool, n: nat)
    requires n < |units| == |kept| == |outcomes| && (kept[n] ==> outcomes[n] == Committed)
    ensures Emission(units, kept, local, n + 1) == if kept[n]
        then Emission(units, kept, local, n) + LocalOps(n, units[n].emitted, local)
                                                   else Emission(units, kept, local, n)
    ensures Slice(CommittedIndices(outcomes, n + 1), Flagged(kept))
         == if kept[n] then Append(n, Slice(CommittedIndices(outcomes, n), Flagged(kept)))
           else Slice(CommittedIndices(outcomes, n), Flagged(kept))
  {
    FlagIs(kept, n);
    SliceOne(CommittedIndices(outcomes, n), n, Flagged(kept));
  }

  /** The program's statements do what the kept units do, in order. */
  lemma {:induction false} EmissionRuns<V(!new)>(units: seq<Unit>, kept: seq<bool>, outcomes: seq<Outcome>,
      local: Statement -> bool, n: nat, step: Semantics<V>)
    requires n <= |units| == |kept| == |outcomes|
    requires forall i :: 0 <= i < |units| && kept[i] ==> outcomes[i] == Committed
    requires KeptElsewhere(units, kept, local, step)
    ensures RunAll(Emission(units, kept, local, n), map[], step)
         == Fold(Slice(CommittedIndices(outcomes, n), Flagged(kept)), map[], UnitExec(units, step))
  {
    hide *;
    if n == 0 {
      NothingRuns(units, kept, outcomes, local, step);
    } else {
      EmissionRuns(units, kept, outcomes, local, n - 1, step);
      EmissionOne(units, kept, outcomes, local, n - 1);
      if kept[n - 1] {
        KeptIsElsewhere(units, kept, local, n - 1, step);
        KeptUnitRuns(units, n - 1, Emission(units, kept, local, n - 1),
          Slice(CommittedIndices(outcomes, n - 1), Flagged(kept)), local, step);
      }
    }
  }

  lemma NothingRuns<V>(units: seq<Unit>, kept: seq<bool>, outcomes: seq<Outcome>, local: Statement -> bool,
      step: Semantics<V>)
    requires |units| == |kept| == |outcomes|
    ensures RunAll(Emission(units, kept, local, 0), map[], step)
         == Fold(Slice(CommittedIndices(outcomes, 0), Flagged(kept)), map[], UnitExec(units, step))
  {
  }

  lemma KeptIsElsewhere<V(!new)>(units: seq<Unit>, kept: seq<bool>, local: Statement -> bool, i: nat,
      step: Semantics<V>)
    requires KeptElsewhere(units, kept, local, step) && i < |units| && i < |kept| && kept[i]
    ensures OthersElsewhere(i, units[i].emitted, local, step)
  {
  }

  lemma SliceOne(log: seq<nat>, i: nat, kept: set<nat>)
    ensures Slice(log + [i], kept) == if i in kept then Append(i, Slice(log, kept)) else Slice(log, kept)
  {
    assert (log + [i])[..|log|] == log;
  }

  /** Every surviving object's creator is in the program. */
  lemma CreatorsAreKept(units: seq<Unit>, d: Derivation, id: nat)
    requires Derived(units, d) && id in Survivors(units, d.outline.outcomes)
    ensures exists i :: 0 <= i < |units| && d.kept[i] && id in d.effects[i].touches
  {
    var needed :| IsRetention(Survivors(units, d.outline.outcomes), d.effects, needed, Flagged(d.kept));
    assert Touched(d.effects, id);
    var i :| 0 <= i < |d.effects| && id in d.effects[i].touches;
    assert Meets(d.effects[i].touches, needed);
  }

  /** The theorem. Run the whole batch in the snapshotting session, with every
      rollback, savepoint, chained and unfinished transaction, against a
      connection with no TEMP objects; and run the connection program against
      another. Whatever each statement does where it stands, its unit staying
      within its recorded frame, each object alive at the end holds the same in
      both. */
  lemma ReplayRecreatesSurvivors<V(!new)>(units: seq<Unit>, d: Derivation, local: Statement -> bool, program: seq<Op>,
      blocks: map<nat, nat>, step: Semantics<V>)
    requires Derived(units, d) && IsProgram(units, d, local, program, blocks)
    requires UnitsFramed(units, d, step) && KeptElsewhere(units, d.kept, local, step)
    ensures Agree(FinalStore(SourcesOf(units), map[], UnitExec(units, step)),
                  FinalStore(BatchOf(program), map[], OpExec(program, step)),
                  Survivors(units, d.outline.outcomes))
  {
    hide Standing, Recorded, Created, IsRetention, UnitsFramed, KeptElsewhere, Survivors, Nests, Emits, Emission,
         KeptTransactions, UnitExec, OpExec, Framed;
    var o, exec := d.outline, UnitExec(units, step);
    var needed :| IsRetention(Survivors(units, o.outcomes), d.effects, needed, Flagged(d.kept));
    var log := CommittedIndices(o.outcomes, |units|);
    CommittedStatementsSuffice(SourcesOf(units), o, map[], exec);
    OutcomeLengths(SourcesOf(units), o);
    FramedLog(units, d, step, log);
    RetentionIsClosed(Survivors(units, o.outcomes), d.effects, needed, Flagged(d.kept));
    SliceAgrees(log, d.effects, Survivors(units, o.outcomes), needed, Flagged(d.kept), map[], exec);
    KeptAreCommitted(units, o, d.effects, Survivors(units, o.outcomes), needed, Flagged(d.kept));
    FlagsAreKept(d.kept);
    EmissionRuns(units, d.kept, o.outcomes, local, |units|, step);
    StandingNests(program, d.outline.transactions, blocks);
    NestedProgramRuns(program, false, map[], step);
  }

  lemma StandingNests(program: seq<Op>, transactions: seq<Option<nat>>, blocks: map<nat, nat>)
    requires Standing(program, None, transactions, blocks)
    ensures Nests(program, false)
  {
  }

  lemma RetentionIsClosed(alive: set<nat>, effects: seq<Footprint>, needed: set<nat>, kept: set<nat>)
    requires IsRetention(alive, effects, needed, kept)
    ensures RetentionClosed(alive, effects, needed, kept) && alive <= needed
  {
  }

  lemma FramedLog<V(!new)>(units: seq<Unit>, d: Derivation, step: Semantics<V>, log: seq<nat>)
    requires |d.outline.outcomes| == |d.effects| == |units| && UnitsFramed(units, d, step)
    requires log == CommittedIndices(d.outline.outcomes, |units|)
    ensures forall i :: i in log ==> i < |d.effects| && Framed(UnitExec(units, step), i, d.effects[i])
  {
  }
}
