/** The connection program: which units it keeps, how it groups them, and that
    running it recreates what survives the batch. */
module Replay {
  import opened Wrappers
  import opened Statements
  import opened Transactions
  import opened Retention

  /** A statement of the batch with what it was translated to. */
  datatype Unit = Unit(source: Source, emitted: seq<Statement>)

  /** A statement of the connection program: which unit emitted it, and where
      in that unit it stands. */
  datatype Op = Begin | End | Emit(unit: nat, position: nat, statement: Statement)

  /** What an emitted statement does to the connection's store. The same text
      may do different things at different places of a batch. */
  type Semantics<!V> = (Op, Store<V>) -> Store<V>

  function SourcesOf(units: seq<Unit>): (sources: seq<Source>)
    ensures |sources| == |units|
    ensures forall i :: 0 <= i < |units| ==> sources[i] == units[i].source
  {
    seq(|units|, i requires 0 <= i < |units| => units[i].source)
  }

  /** The program as a batch of its own. */
  function BatchOf(program: seq<Op>): (sources: seq<Source>)
    ensures |sources| == |program|
    ensures forall k :: 0 <= k < |program| ==> sources[k] == ControlOf(program[k])
  {
    seq(|program|, k requires 0 <= k < |program| => ControlOf(program[k]))
  }

  function ControlOf(op: Op): Source {
    match op
    case Begin => StartTransaction
    case End => Source.Commit(false)
    case Emit(_, _, _) => Source.Other
  }

  // ---------------------------------------------------------------------
  // Well-nested programs
  // ---------------------------------------------------------------------

  /** The program never nests a block and never ends one that is not open;
      `open` says whether it leaves one open. */
  predicate Nests(program: seq<Op>, open: bool) {
    if |program| == 0 then !open
    else
      var prefix := program[..|program| - 1];
      match program[|program| - 1]
      case Begin => open && Nests(prefix, false)
      case End => !open && Nests(prefix, true)
      case Emit(_, _, _) => Nests(prefix, open)
  }

  lemma {:induction false} NestsOneWay(program: seq<Op>)
    ensures !(Nests(program, true) && Nests(program, false))
  {
    if |program| > 0 {
      NestsOneWay(program[..|program| - 1]);
    }
  }

  lemma {:induction false} PrefixNests(program: seq<Op>, open: bool, k: nat)
    requires Nests(program, open) && k <= |program|
    ensures Nests(program[..k], true) || Nests(program[..k], false)
  {
    if k == |program| {
      assert program[..k] == program;
    } else {
      var prefix := program[..|program| - 1];
      assert program[..k] == prefix[..k];
      if Nests(prefix, true) {
        PrefixNests(prefix, true, k);
      } else {
        PrefixNests(prefix, false, k);
      }
    }
  }

  /** A session runs a prefix of a batch as it runs the batch. */
  lemma {:induction false} RunOfPrefix<S(!new)>(sources: seq<Source>, more: seq<Source>, n: nat, initial: S,
      exec: (nat, S) -> S, exec': (nat, S) -> S)
    requires n <= |sources| <= |more| && sources == more[..|sources|]
    requires forall k: nat, s :: k < n ==> exec(k, s) == exec'(k, s)
    ensures Transactions.Run(sources, n, initial, exec) == Transactions.Run(more, n, initial, exec')
  {
    hide Step;
    if n > 0 {
      RunOfPrefix(sources, more, n - 1, initial, exec, exec');
      SameStep(Transactions.Run(sources, n - 1, initial, exec), sources[n - 1], n - 1, exec, exec');
    }
  }

  lemma SameStep<S(!new)>(s: Session<S>, source: Source, index: nat, exec: (nat, S) -> S, exec': (nat, S) -> S)
    requires forall store :: exec(index, store) == exec'(index, store)
    ensures Step(s, source, index, exec) == Step(s, source, index, exec')
  {
  }

  /** The statements a program runs, transaction control aside. */
  function Emits(program: seq<Op>): seq<Op> {
    if |program| == 0 then []
    else
      var last := program[|program| - 1];
      Emits(program[..|program| - 1]) + if last.Emit? then [last] else []
  }

  function RunAll<V>(ops: seq<Op>, store: Store<V>, step: Semantics<V>): Store<V> {
    if |ops| == 0 then store
    else step(ops[|ops| - 1], RunAll(ops[..|ops| - 1], store, step))
  }

  lemma {:induction false} RunAllThenAll<V>(a: seq<Op>, b: seq<Op>, store: Store<V>, step: Semantics<V>)
    ensures RunAll(a + b, store, step) == RunAll(b, RunAll(a, store, step), step)
  {
    if |b| == 0 {
      assert a + b == a;
    } else {
      assert (a + b)[..|a + b| - 1] == a + b[..|b| - 1];
      RunAllThenAll(a, b[..|b| - 1], store, step);
    }
  }

  lemma RunAllOne<V>(ops: seq<Op>, last: Op, store: Store<V>, step: Semantics<V>)
    ensures RunAll(ops + [last], store, step) == step(last, RunAll(ops, store, step))
  {
    assert (ops + [last])[..|ops|] == ops;
  }

  /** What each operation of a program does to the store. */
  function OpExec<V>(program: seq<Op>, step: Semantics<V>): (nat, Store<V>) -> Store<V> {
    (k: nat, store: Store<V>) => if k < |program| && program[k].Emit? then step(program[k], store) else store
  }

  /** The store a session over the program sees. */
  function Seen<S>(s: Session<S>): S {
    if s.open.Some? then s.open.value.working else s.durable
  }

  /** Run by the transactional session, a well-nested program executes its
      statements in order and leaves nothing behind. */
  lemma {:induction false} NestedProgramRuns<V(!new)>(program: seq<Op>, open: bool, initial: Store<V>,
      step: Semantics<V>)
    requires Nests(program, open)
    ensures var s := Transactions.Run(BatchOf(program), |program|, initial, OpExec(program, step));
            && s.open.Some? == open
            && Seen(s) == RunAll(Emits(program), initial, step)
  {
    hide Emits, RunAll;
    if |program| == 0 {
      NothingEmits(initial, step);
    } else {
      EmitsLast(program);
      var n, prefix := |program| - 1, program[..|program| - 1];
      var before := match program[n] case Begin => false case End => true case Emit(_, _, _) => open;
      NestedProgramRuns(prefix, before, initial, step);
      RunOfPrefix(BatchOf(prefix), BatchOf(program), n, initial, OpExec(prefix, step), OpExec(program, step));
      if program[n].Emit? {
        RunAllOne(Emits(prefix), program[n], initial, step);
      }
    }
  }

  lemma EmitsLast(program: seq<Op>)
    requires |program| > 0
    ensures var prefix, last := program[..|program| - 1], program[|program| - 1];
            Emits(program) == if last.Emit? then Emits(prefix) + [last] else Emits(prefix)
  {
  }

  lemma NothingEmits<V>(initial: Store<V>, step: Semantics<V>)
    ensures RunAll(Emits([]), initial, step) == initial
  {
  }

  /** PostgreSQL's rules accept a well-nested program as it stands. */
  lemma NestedProgramIsAccepted(program: seq<Op>)
    requires Nests(program, false)
    ensures Accepted(BatchOf(program))
    ensures forall k: nat :: k < |program| ==>
        DispositionOf(BatchOf(program)[k], OpenAt(BatchOf(program), k)) == Translate
  {
    var batch := BatchOf(program);
    forall k: nat | k < |program|
      ensures Legal(batch[k], OpenAt(batch, k)) && DispositionOf(batch[k], OpenAt(batch, k)) == Translate
    {
      OpenIsNesting(program, k);
      PrefixNests(program, false, k + 1);
      assert program[..k + 1][..k] == program[..k];
      NestsOneWay(program[..k]);
    }
  }

  lemma OpenIsNesting(program: seq<Op>, k: nat)
    requires Nests(program, false) && k <= |program|
    ensures Nests(program[..k], OpenAt(BatchOf(program), k))
  {
    PrefixNests(program, false, k);
    var open := Nests(program[..k], true);
    LogRunOpens(program[..k], open);
    RunOfPrefix(BatchOf(program[..k]), BatchOf(program), k, [], Append, Append);
  }

  lemma {:induction false} LogRunOpens(program: seq<Op>, open: bool)
    requires Nests(program, open)
    ensures OpenAt(BatchOf(program), |program|) == open
  {
    if |program| > 0 {
      var n, prefix := |program| - 1, program[..|program| - 1];
      var before := match program[n] case Begin => false case End => true case Emit(_, _, _) => open;
      LogRunOpens(prefix, before);
      RunOfPrefix(BatchOf(prefix), BatchOf(program), n, [], Append, Append);
    }
  }

  // ---------------------------------------------------------------------
  // Emitting and grouping
  // ---------------------------------------------------------------------

  /** The statements of unit `i`, each with its place. */
  function UnitOps(i: nat, emitted: seq<Statement>): (ops: seq<Op>)
    ensures |ops| == |emitted|
    ensures forall k :: 0 <= k < |ops| ==> ops[k] == Emit(i, k, emitted[k])
  {
    seq(|emitted|, k requires 0 <= k < |emitted| => Emit(i, k, emitted[k]))
  }

  /** The connection-local statements of unit `i`, each with its place. */
  function LocalOps(i: nat, emitted: seq<Statement>, local: Statement -> bool): (ops: seq<Op>)
    ensures forall k :: 0 <= k < |ops| ==> ops[k].Emit? && ops[k].unit == i
  {
    if |emitted| == 0 then []
    else
      var place := |emitted| - 1;
      LocalOps(i, emitted[..place], local) + if local(emitted[place]) then [Emit(i, place, emitted[place])] else []
  }

  /** What the kept units among the first `n` emit, in source order. */
  function Emission(units: seq<Unit>, kept: seq<bool>, local: Statement -> bool, n: nat): seq<Op>
    requires n <= |units| == |kept|
  {
    if n == 0 then []
    else Emission(units, kept, local, n - 1) + if kept[n - 1] then LocalOps(n - 1, units[n - 1].emitted, local) else []
  }

  function Begins(program: seq<Op>): nat {
    if |program| == 0 then 0
    else Begins(program[..|program| - 1]) + if program[|program| - 1].Begin? then 1 else 0
  }

  /** The transactions some kept unit before `n` ran in. */
  function KeptTransactions(transactions: seq<Option<nat>>, kept: seq<bool>, n: nat): set<nat>
    requires n <= |kept| == |transactions|
  {
    set i: nat | i < n && kept[i] && transactions[i].Some? :: transactions[i].value
  }

  /** Each emitted statement stands in the block of its unit's transaction,
      counted from one, and outside every block when it ran in none. */
  ghost predicate Placed(program: seq<Op>, transactions: seq<Option<nat>>, blocks: map<nat, nat>) {
    forall k :: 0 <= k < |program| && program[k].Emit? ==> Stands(program[..k], program[k], transactions, blocks)
  }

  ghost predicate Stands(before: seq<Op>, op: Op, transactions: seq<Option<nat>>, blocks: map<nat, nat>)
    requires op.Emit?
  {
    op.unit < |transactions| &&
    match transactions[op.unit]
    case None => Nests(before, false)
    case Some(t) => Nests(before, true) && t in blocks && blocks[t] == Begins(before)
  }

  lemma PlacedOne(program: seq<Op>, op: Op, transactions: seq<Option<nat>>, blocks: map<nat, nat>)
    requires Placed(program, transactions, blocks)
    requires op.Emit? ==> Stands(program, op, transactions, blocks)
    ensures Placed(program + [op], transactions, blocks)
    ensures Emits(program + [op]) == Emits(program) + if op.Emit? then [op] else []
    ensures Begins(program + [op]) == Begins(program) + if op.Begin? then 1 else 0
  {
    var more := program + [op];
    assert more[..|program|] == program;
    forall k | 0 <= k < |more| && more[k].Emit? ensures Stands(more[..k], more[k], transactions, blocks) {
      if k < |program| {
        assert more[..k] == program[..k];
        assert Stands(program[..k], program[k], transactions, blocks);
      }
    }
  }

  lemma {:induction false} PlacedAll(program: seq<Op>, ops: seq<Op>, i: nat, transactions: seq<Option<nat>>,
      blocks: map<nat, nat>, open: bool)
    requires Placed(program, transactions, blocks) && Nests(program, open)
    requires forall k :: 0 <= k < |ops| ==> ops[k].Emit? && ops[k].unit == i
    requires forall op: Op :: op.Emit? && op.unit == i ==> Stands(program, op, transactions, blocks)
    ensures Placed(program + ops, transactions, blocks) && Nests(program + ops, open)
    ensures Emits(program + ops) == Emits(program) + ops && Begins(program + ops) == Begins(program)
    ensures forall op: Op :: op.Emit? && op.unit == i ==> Stands(program + ops, op, transactions, blocks)
  {
    hide Placed;
    if |ops| == 0 {
      assert program + ops == program;
    } else {
      var rest, op := ops[..|ops| - 1], ops[|ops| - 1];
      PlacedAll(program, rest, i, transactions, blocks, open);
      assert program + ops == (program + rest) + [op];
      PlacedOne(program + rest, op, transactions, blocks);
      assert (program + ops)[..|program + ops| - 1] == program + rest;
      NestsOneWay(program + ops);
    }
  }

  /** A new block takes the next number. */
  lemma PlacedMore(program: seq<Op>, transactions: seq<Option<nat>>, blocks: map<nat, nat>, t: nat, number: nat)
    requires Placed(program, transactions, blocks) && t !in blocks
    ensures Placed(program, transactions, blocks[t := number])
  {
    forall k | 0 <= k < |program| && program[k].Emit?
      ensures Stands(program[..k], program[k], transactions, blocks[t := number])
    {
      assert Stands(program[..k], program[k], transactions, blocks);
    }
  }

  /** The numbering of blocks: one to |blocks|, no two alike. */
  ghost predicate Numbered(blocks: map<nat, nat>) {
    && (forall t :: t in blocks ==> 1 <= blocks[t] <= |blocks|)
    && forall t, u :: t in blocks && u in blocks && t != u ==> blocks[t] != blocks[u]
  }

  lemma NumberedMore(blocks: map<nat, nat>, t: nat)
    requires Numbered(blocks) && t !in blocks
    ensures Numbered(blocks[t := |blocks| + 1]) && |blocks[t := |blocks| + 1]| == |blocks| + 1
  {
    assert blocks[t := |blocks| + 1].Keys == blocks.Keys + {t};
  }

  /** A program whose open block, if any, is the last and is `open`'s. */
  ghost predicate Standing(program: seq<Op>, open: Option<nat>, transactions: seq<Option<nat>>, blocks: map<nat, nat>) {
    && Nests(program, open.Some?)
    && Placed(program, transactions, blocks)
    && Numbered(blocks) && Begins(program) == |blocks|
    && (open.Some? ==> open.value in blocks && blocks[open.value] == |blocks|)
  }

  lemma StandingEnd(program: seq<Op>, open: Option<nat>, transactions: seq<Option<nat>>, blocks: map<nat, nat>)
    requires Standing(program, open, transactions, blocks) && open.Some?
    ensures Standing(program + [End], None, transactions, blocks) && Emits(program + [End]) == Emits(program)
  {
    PlacedOne(program, End, transactions, blocks);
    assert (program + [End])[..|program|] == program;
  }

  lemma StandingBegin(program: seq<Op>, t: nat, transactions: seq<Option<nat>>, blocks: map<nat, nat>)
    requires Standing(program, None, transactions, blocks) && t !in blocks
    ensures Standing(program + [Begin], Some(t), transactions, blocks[t := |blocks| + 1])
    ensures Emits(program + [Begin]) == Emits(program)
  {
    hide Numbered, Placed;
    PlacedMore(program, transactions, blocks, t, |blocks| + 1);
    NumberedMore(blocks, t);
    PlacedOne(program, Begin, transactions, blocks[t := |blocks| + 1]);
    assert (program + [Begin])[..|program|] == program;
  }

  lemma StandingEmits(program: seq<Op>, ops: seq<Op>, i: nat, open: Option<nat>, transactions: seq<Option<nat>>,
      blocks: map<nat, nat>)
    requires Standing(program, open, transactions, blocks) && i < |transactions| && transactions[i] == open
    requires forall k :: 0 <= k < |ops| ==> ops[k].Emit? && ops[k].unit == i
    ensures Standing(program + ops, open, transactions, blocks) && Emits(program + ops) == Emits(program) + ops
  {
    hide Numbered, Placed;
    PlacedAll(program, ops, i, transactions, blocks, open.Some?);
  }

  /** Ends the open block and begins the next unit's, where those differ. */
  method Switch(program: seq<Op>, open: Option<nat>, transaction: Option<nat>, ghost transactions: seq<Option<nat>>,
      ghost blocks: map<nat, nat>)
    returns (program': seq<Op>, ghost blocks': map<nat, nat>)
    requires Standing(program, open, transactions, blocks)
    requires transaction.Some? && transaction != open ==> transaction.value !in blocks
    ensures Standing(program', transaction, transactions, blocks') && Emits(program') == Emits(program)
    ensures blocks'.Keys == blocks.Keys + if transaction.Some? then {transaction.value} else {}
  {
    program', blocks' := program, blocks;
    if transaction != open {
      if open.Some? {
        StandingEnd(program', open, transactions, blocks);
        program' := program' + [End];
      }
      if transaction.Some? {
        StandingBegin(program', transaction.value, transactions, blocks);
        program' := program' + [Begin];
        blocks' := blocks[transaction.value := |blocks| + 1];
      }
    }
  }

  /** A block that was ended is of a transaction with nothing more to replay. */
  ghost predicate Closed(kept: seq<bool>, transactions: seq<Option<nat>>, n: nat, open: Option<nat>, seen: set<nat>)
    requires |kept| == |transactions|
  {
    forall t, j: nat :: t in seen && open != Some(t) && n <= j < |kept| && kept[j] ==> transactions[j] != Some(t)
  }

  /** Leaving a transaction for another is final. */
  lemma LeavingIsFinal(sources: seq<Source>, o: Outline, kept: seq<bool>, n: nat, open: Option<nat>, seen: set<nat>)
    requires IsOutline(sources, o) && |kept| == |sources| && n < |sources| && kept[n]
    requires forall i: nat :: i < |kept| && kept[i] ==> !IsControl(sources[i])
    requires seen == KeptTransactions(o.transactions, kept, n)
    requires open.Some? ==> open.value in seen
    requires Closed(kept, o.transactions, n, open, seen)
    ensures Closed(kept, o.transactions, n, o.transactions[n], seen)
    ensures o.transactions[n].Some? && o.transactions[n] != open ==> o.transactions[n].value !in seen
    ensures Closed(kept, o.transactions, n + 1, o.transactions[n], seen + KeptTransactions(o.transactions, kept, n + 1))
  {
    if open.Some? && o.transactions[n] != open {
      var i: nat :| i < n && kept[i] && o.transactions[i] == open;
      forall j: nat | n <= j < |kept| && kept[j] ensures o.transactions[j] != open {
        if o.transactions[j] == open {
          TransactionsAreContiguous(sources, o, i, n, j);
        }
      }
    }
  }

  /** One more unit, kept or not. */
  lemma OneMoreKept(units: seq<Unit>, transactions: seq<Option<nat>>, kept: seq<bool>, local: Statement -> bool, n: nat)
    requires n < |units| == |kept| == |transactions|
    ensures KeptTransactions(transactions, kept, n + 1) == KeptTransactions(transactions, kept, n)
         + if kept[n] && transactions[n].Some? then {transactions[n].value} else {}
    ensures Emission(units, kept, local, n + 1) == Emission(units, kept, local, n)
         + if kept[n] then LocalOps(n, units[n].emitted, local) else []
  {
  }

  /** The walk before unit `n`: what the program holds, and which block it
      leaves open. */
  ghost predicate Replayed(units: seq<Unit>, kept: seq<bool>, o: Outline, local: Statement -> bool, n: nat,
                           program: seq<Op>, open: Option<nat>, blocks: map<nat, nat>)
    requires n <= |units| == |kept| == |o.transactions|
  {
    && Standing(program, open, o.transactions, blocks)
    && Emits(program) == Emission(units, kept, local, n)
    && blocks.Keys == KeptTransactions(o.transactions, kept, n)
    && (open.Some? ==> open.value in blocks.Keys)
    && Closed(kept, o.transactions, n, open, blocks.Keys)
  }

  /** One kept unit's turn: the right block, then its local statements. */
  method ReplayUnit(units: seq<Unit>, kept: seq<bool>, o: Outline, local: Statement -> bool, index: nat,
                    program: seq<Op>, open: Option<nat>, ghost blocks: map<nat, nat>)
    returns (program': seq<Op>, ghost blocks': map<nat, nat>)
    requires IsOutline(SourcesOf(units), o) && index < |units| == |kept| == |o.transactions| && kept[index]
    requires forall i: nat :: i < |kept| && kept[i] ==> !IsControl(units[i].source)
    requires Replayed(units, kept, o, local, index, program, open, blocks)
    ensures Replayed(units, kept, o, local, index + 1, program', o.transactions[index], blocks')
  {
    hide Standing, IsOutline, Closed, Emits, KeptTransactions, Emission, LocalOps, IsControl;
    OneMoreKept(units, o.transactions, kept, local, index);
    LeavingIsFinal(SourcesOf(units), o, kept, index, open, blocks.Keys);
    var transaction := o.transactions[index];
    program', blocks' := Switch(program, open, transaction, o.transactions, blocks);
    StandingEmits(program', LocalOps(index, units[index].emitted, local), index, transaction, o.transactions, blocks');
    program' := program' + LocalOps(index, units[index].emitted, local);
  }

  lemma UnitPassedOver(units: seq<Unit>, kept: seq<bool>, o: Outline, local: Statement -> bool, n: nat,
                       program: seq<Op>, open: Option<nat>, blocks: map<nat, nat>)
    requires n < |units| == |kept| == |o.transactions| && !kept[n]
    requires Replayed(units, kept, o, local, n, program, open, blocks)
    ensures Replayed(units, kept, o, local, n + 1, program, open, blocks)
  {
    hide Standing, Closed, Emits, KeptTransactions, Emission;
    OneMoreKept(units, o.transactions, kept, local, n);
    ClosedLater(kept, o.transactions, n, open, blocks.Keys);
  }

  method Replay(units: seq<Unit>, kept: seq<bool>, o: Outline, local: Statement -> bool)
      returns (program: seq<Op>, ghost blocks: map<nat, nat>)
    requires IsOutline(SourcesOf(units), o) && |kept| == |units|
    requires forall i: nat :: i < |kept| && kept[i] ==> !IsControl(units[i].source)
    ensures Standing(program, None, o.transactions, blocks)
    ensures Emits(program) == Emission(units, kept, local, |units|)
    ensures blocks.Keys == KeptTransactions(o.transactions, kept, |units|)
  {
    hide Standing, IsOutline, Closed, Emits, KeptTransactions, Emission, IsControl;
    OutlineLengths(SourcesOf(units), o);
    program, blocks := [], map[];
    StandingStart(units, o.transactions, kept, local);
    ClosedStart(kept, o.transactions);
    var open: Option<nat> := None;
    for index := 0 to |units|
      invariant Replayed(units, kept, o, local, index, program, open, blocks)
    {
      if !kept[index] {
        UnitPassedOver(units, kept, o, local, index, program, open, blocks);
        continue;
      }
      program, blocks := ReplayUnit(units, kept, o, local, index, program, open, blocks);
      open := o.transactions[index];
    }
    if open.Some? {
      StandingEnd(program, open, o.transactions, blocks);
      program := program + [End];
    }
  }

  lemma OutlineLengths(sources: seq<Source>, o: Outline)
    requires IsOutline(sources, o)
    ensures |o.transactions| == |sources|
  {
  }

  lemma StandingStart(units: seq<Unit>, transactions: seq<Option<nat>>, kept: seq<bool>, local: Statement -> bool)
    requires |units| == |kept| == |transactions|
    ensures Standing([], None, transactions, map[]) && Emits([]) == Emission(units, kept, local, 0)
    ensures KeptTransactions(transactions, kept, 0) == {}
  {
  }

  lemma ClosedStart(kept: seq<bool>, transactions: seq<Option<nat>>)
    requires |kept| == |transactions|
    ensures Closed(kept, transactions, 0, None, {})
  {
  }

  lemma ClosedLater(kept: seq<bool>, transactions: seq<Option<nat>>, n: nat, open: Option<nat>, seen: set<nat>)
    requires |kept| == |transactions| && Closed(kept, transactions, n, open, seen)
    ensures Closed(kept, transactions, n + 1, open, seen)
  {
  }
}
