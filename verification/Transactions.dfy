/** Transaction control of a batch: what PostgreSQL's nesting rules accept, and
    which statements survive.

    The reference is a session that snapshots the whole store at BEGIN and at
    every SAVEPOINT. The outline in the translator keeps no store: it keeps the
    positions of the statements not yet committed, and a stack of offsets into
    them. The theorems here say the two agree. */
module Transactions {
  import opened Wrappers
  import opened Text

  datatype Ident = Ident(value: string, quoted: bool)

  /** A source statement, as far as transaction control looks at it. */
  datatype Source =
    | StartTransaction
    | Savepoint(name: Ident)
    | ReleaseSavepoint(name: Ident)
    | Rollback(chain: bool, savepoint: Option<Ident>)
    | Commit(chain: bool)
    | CreateIndex(concurrently: bool)
    | Other

  datatype Disposition = Translate | DropNoOp(construct: string)

  datatype Refusal = OutsideBlock(construct: string) | ConcurrentIndexInsideBlock

  datatype Outcome = Committed | Undone | Control

  predicate SameName(left: Ident, right: Ident) {
    match (left.quoted, right.quoted)
    case (false, false) => Lower(left.value) == Lower(right.value)
    case (false, true) => Lower(left.value) == right.value
    case (true, false) => left.value == Lower(right.value)
    case (true, true) => left.value == right.value
  }

  /** The name PostgreSQL keeps: lower case unless quoted. */
  function Folded(name: Ident): string {
    if name.quoted then name.value else Lower(name.value)
  }

  /** Two identifiers are compared as the names PostgreSQL keeps for them. */
  lemma SameNameIsFolded(left: Ident, right: Ident)
    ensures SameName(left, right) <==> Folded(left) == Folded(right)
  {
  }

  predicate IsControl(source: Source) {
    !source.CreateIndex? && !source.Other?
  }

  // ---------------------------------------------------------------------
  // The reference session
  // ---------------------------------------------------------------------

  /** A savepoint, under the name PostgreSQL keeps. */
  datatype Mark<S> = Mark(name: string, snapshot: S)

  /** An open transaction: its number, what it sees, and its savepoints,
      innermost last. */
  datatype Transaction<S> = Transaction(id: nat, working: S, marks: seq<Mark<S>>)

  /** `started` counts the transactions the session has started. */
  datatype Session<S> = Session(durable: S, open: Option<Transaction<S>>, started: nat)

  /** The position of the innermost savepoint kept as `name`. */
  function Innermost<S>(marks: seq<Mark<S>>, name: string): (position: Option<nat>)
    ensures position.Some? ==> position.value < |marks| && marks[position.value].name == name
    ensures position.Some? ==> forall j :: position.value < j < |marks| ==> marks[j].name != name
    ensures position.None? ==> forall j :: 0 <= j < |marks| ==> marks[j].name != name
  {
    if |marks| == 0 then None
    else if marks[|marks| - 1].name == name then Some(|marks| - 1)
    else Innermost(marks[..|marks| - 1], name)
  }

  /** A transaction starting on the durable store. */
  function Opened<S>(s: Session<S>): Session<S> {
    s.(open := Some(Transaction(s.started, s.durable, [])), started := s.started + 1)
  }

  /** The session after an open transaction ended, and was chained onto. */
  function Ended<S>(s: Session<S>, chain: bool): Session<S> {
    var closed := s.(open := None);
    if chain then Opened(closed) else closed
  }

  /** One statement at position `index`, whose own work is `exec(index, _)`. */
  function Step<S>(s: Session<S>, source: Source, index: nat, exec: (nat, S) -> S): Session<S> {
    match source
    case StartTransaction => if s.open.Some? then s else Opened(s)
    case Savepoint(name) =>
      if s.open.None? then s
      else
        var t := s.open.value;
        s.(open := Some(t.(marks := t.marks + [Mark(Folded(name), t.working)])))
    case ReleaseSavepoint(name) =>
      if s.open.None? then s
      else
        var t := s.open.value;
        (match Innermost(t.marks, Folded(name))
         case None => s
         case Some(p) => s.(open := Some(t.(marks := t.marks[..p]))))
    case Rollback(_, Some(name)) =>
      if s.open.None? then s
      else
        var t := s.open.value;
        (match Innermost(t.marks, Folded(name))
         case None => s
         case Some(p) =>
           s.(open := Some(t.(working := t.marks[p].snapshot, marks := t.marks[..p + 1]))))
    case Rollback(chain, None) => if s.open.None? then s else Ended(s, chain)
    case Commit(chain) =>
      if s.open.None? then s else Ended(s.(durable := s.open.value.working), chain)
    case _ =>
      match s.open
      case None => s.(durable := exec(index, s.durable))
      case Some(t) => s.(open := Some(t.(working := exec(index, t.working))))
  }

  /** The session after the first `n` statements, started on `initial`. */
  function Run<S>(sources: seq<Source>, n: nat, initial: S, exec: (nat, S) -> S): Session<S>
    requires n <= |sources|
  {
    if n == 0 then Session(initial, None, 0)
    else Step(Run(sources, n - 1, initial, exec), sources[n - 1], n - 1, exec)
  }

  /** The store a connection is left with: an unfinished transaction is lost. */
  function FinalStore<S>(sources: seq<Source>, initial: S, exec: (nat, S) -> S): S {
    Run(sources, |sources|, initial, exec).durable
  }

  /** Executing a log of statement positions, oldest first. */
  function Fold<S>(log: seq<nat>, initial: S, exec: (nat, S) -> S): S {
    if |log| == 0 then initial
    else exec(log[|log| - 1], Fold(log[..|log| - 1], initial, exec))
  }

  function Append(index: nat, log: seq<nat>): seq<nat> {
    log + [index]
  }

  /** The session over the store that records which statements ran. */
  function LogRun(sources: seq<Source>, n: nat): Session<seq<nat>>
    requires n <= |sources|
  {
    Run(sources, n, [], Append)
  }

  function DurableLog(sources: seq<Source>): seq<nat> {
    LogRun(sources, |sources|).durable
  }

  predicate OpenAt(sources: seq<Source>, n: nat)
    requires n <= |sources|
  {
    LogRun(sources, n).open.Some?
  }

  // ---------------------------------------------------------------------
  // A session over any store is its log, executed
  // ---------------------------------------------------------------------

  ghost predicate MarksFold<S(!new)>(stores: seq<Mark<S>>, logs: seq<Mark<seq<nat>>>, initial: S, exec: (nat, S) -> S) {
    && |stores| == |logs|
    && forall j :: 0 <= j < |logs| ==>
         stores[j].name == logs[j].name && stores[j].snapshot == Fold(logs[j].snapshot, initial, exec)
  }

  ghost predicate SessionFolds<S(!new)>(s: Session<S>, l: Session<seq<nat>>, initial: S, exec: (nat, S) -> S) {
    && s.durable == Fold(l.durable, initial, exec)
    && s.started == l.started
    && s.open.Some? == l.open.Some?
    && (s.open.Some? ==>
          && s.open.value.id == l.open.value.id
          && s.open.value.working == Fold(l.open.value.working, initial, exec)
          && MarksFold(s.open.value.marks, l.open.value.marks, initial, exec))
  }

  lemma {:induction false} InnermostAgrees<S(!new)>(stores: seq<Mark<S>>, logs: seq<Mark<seq<nat>>>, initial: S,
      exec: (nat, S) -> S, name: string)
    requires MarksFold(stores, logs, initial, exec)
    ensures Innermost(stores, name) == Innermost(logs, name)
  {
    if |logs| > 0 {
      InnermostAgrees(stores[..|logs| - 1], logs[..|logs| - 1], initial, exec, name);
    }
  }

  lemma FoldAppend<S>(log: seq<nat>, index: nat, initial: S, exec: (nat, S) -> S)
    ensures Fold(Append(index, log), initial, exec) == exec(index, Fold(log, initial, exec))
  {
    assert Append(index, log)[..|log|] == log;
  }

  lemma StepFolds<S(!new)>(s: Session<S>, l: Session<seq<nat>>, source: Source, index: nat, initial: S,
      exec: (nat, S) -> S)
    requires SessionFolds(s, l, initial, exec)
    ensures SessionFolds(Step(s, source, index, exec), Step(l, source, index, Append), initial, exec)
  {
    hide Fold, Innermost, Folded;
    if s.open.Some? {
      FoldAppend(l.open.value.working, index, initial, exec);
      if source.ReleaseSavepoint? {
        InnermostAgrees(s.open.value.marks, l.open.value.marks, initial, exec, Folded(source.name));
      } else if source.Rollback? && source.savepoint.Some? {
        InnermostAgrees(s.open.value.marks, l.open.value.marks, initial, exec, Folded(source.savepoint.value));
      }
    } else {
      FoldAppend(l.durable, index, initial, exec);
    }
  }

  /** Whatever the store and whatever the statements do to it, snapshots and
      all, the session is the recorded log executed in order. */
  lemma {:induction false} RunIsLogFolded<S(!new)>(sources: seq<Source>, n: nat, initial: S, exec: (nat, S) -> S)
    requires n <= |sources|
    ensures SessionFolds(Run(sources, n, initial, exec), LogRun(sources, n), initial, exec)
  {
    if n > 0 {
      RunIsLogFolded(sources, n - 1, initial, exec);
      StepFolds(Run(sources, n - 1, initial, exec), LogRun(sources, n - 1), sources[n - 1], n - 1, initial, exec);
    }
  }

  // ---------------------------------------------------------------------
  // analyse
  // ---------------------------------------------------------------------

  /** Whether PostgreSQL runs `source` where a transaction is `open` or not. */
  predicate Legal(source: Source, open: bool) {
    match source
    case Savepoint(_) => open
    case ReleaseSavepoint(_) => open
    case Rollback(chain, savepoint) => open || (savepoint.None? && !chain)
    case Commit(chain) => open || !chain
    case CreateIndex(concurrently) => !(open && concurrently)
    case _ => true
  }

  /** The statements PostgreSQL answers with a warning and nothing else. */
  function NoOp(source: Source, open: bool): Option<string> {
    match source
    case StartTransaction => if open then Some("BEGIN") else None
    case Commit(chain) => if !open && !chain then Some("COMMIT") else None
    case Rollback(chain, None) => if !open && !chain then Some("ROLLBACK") else None
    case _ => None
  }

  function DispositionOf(source: Source, open: bool): Disposition {
    match NoOp(source, open)
    case Some(construct) => DropNoOp(construct)
    case None => Translate
  }

  function RefusalOf(source: Source): Refusal {
    match source
    case Savepoint(_) => OutsideBlock("SAVEPOINT")
    case ReleaseSavepoint(_) => OutsideBlock("RELEASE SAVEPOINT")
    case Rollback(_, Some(_)) => OutsideBlock("ROLLBACK TO SAVEPOINT")
    case Rollback(_, None) => OutsideBlock("ROLLBACK AND CHAIN")
    case Commit(_) => OutsideBlock("COMMIT AND CHAIN")
    case _ => ConcurrentIndexInsideBlock
  }

  ghost predicate Accepted(sources: seq<Source>) {
    forall i :: 0 <= i < |sources| ==> Legal(sources[i], OpenAt(sources, i))
  }

  ghost predicate Classified(sources: seq<Source>, dispositions: seq<Disposition>) {
    && |dispositions| == |sources|
    && forall i :: 0 <= i < |sources| ==>
         dispositions[i] == DispositionOf(sources[i], OpenAt(sources, i))
  }

  /** Whether a transaction is open after `source`. */
  predicate OpenAfter(source: Source, open: bool) {
    match source
    case StartTransaction => true
    case Commit(chain) => open && chain
    case Rollback(chain, None) => open && chain
    case _ => open
  }

  lemma OpenStep(sources: seq<Source>, i: nat)
    requires i < |sources|
    ensures OpenAt(sources, i + 1) == OpenAfter(sources[i], OpenAt(sources, i))
  {
  }

  method Analyse(sources: seq<Source>) returns (r: Result<seq<Disposition>, Refusal>)
    ensures r.Ok? <==> Accepted(sources)
    ensures r.Ok? ==> Classified(sources, r.value)
    ensures r.Err? ==> exists i :: 0 <= i < |sources| && !Legal(sources[i], OpenAt(sources, i))
                                   && r.error == RefusalOf(sources[i])
                                   && forall j :: 0 <= j < i ==> Legal(sources[j], OpenAt(sources, j))
  {
    var dispositions := seq(|sources|, _ => Translate);
    var open := false;
    for i := 0 to |sources|
      invariant open == OpenAt(sources, i)
      invariant |dispositions| == |sources|
      invariant forall j :: 0 <= j < i ==> Legal(sources[j], OpenAt(sources, j))
      invariant forall j :: 0 <= j < |sources| ==>
                  dispositions[j] == if j < i then DispositionOf(sources[j], OpenAt(sources, j)) else Translate
    {
      OpenStep(sources, i);
      match sources[i] {
        case StartTransaction =>
          if open {
            dispositions := dispositions[i := DropNoOp("BEGIN")];
          } else {
            open := true;
          }
        case Commit(chain) =>
          if open {
            open := chain;
          } else if chain {
            return Err(OutsideBlock("COMMIT AND CHAIN"));
          } else {
            dispositions := dispositions[i := DropNoOp("COMMIT")];
          }
        case Rollback(chain, savepoint) =>
          if savepoint.Some? {
            if !open {
              return Err(OutsideBlock("ROLLBACK TO SAVEPOINT"));
            }
          } else if open {
            open := chain;
          } else if chain {
            return Err(OutsideBlock("ROLLBACK AND CHAIN"));
          } else {
            dispositions := dispositions[i := DropNoOp("ROLLBACK")];
          }
        case Savepoint(_) =>
          if !open {
            return Err(OutsideBlock("SAVEPOINT"));
          }
        case ReleaseSavepoint(_) =>
          if !open {
            return Err(OutsideBlock("RELEASE SAVEPOINT"));
          }
        case CreateIndex(concurrently) =>
          if open && concurrently {
            return Err(ConcurrentIndexInsideBlock);
          }
        case Other =>
      }
    }
    return Ok(dispositions);
  }

  // ---------------------------------------------------------------------
  // The log keeps statement order
  // ---------------------------------------------------------------------

  /** Work statements before position `bound`, in statement order. */
  ghost predicate Ascending(log: seq<nat>, sources: seq<Source>, bound: nat)
    requires bound <= |sources|
  {
    && (forall j :: 0 <= j < |log| ==> log[j] < bound && !IsControl(sources[log[j]]))
    && forall j, k :: 0 <= j < k < |log| ==> log[j] < log[k]
  }

  /** Durable, then each snapshot, then working: each a prefix of the next. */
  ghost predicate Nested(t: Transaction<seq<nat>>, durable: seq<nat>) {
    && durable <= t.working
    && (forall j :: 0 <= j < |t.marks| ==> Prefix(t.marks[j].snapshot, durable, t.working))
    && forall j, k :: 0 <= j < k < |t.marks| ==> |t.marks[j].snapshot| <= |t.marks[k].snapshot|
  }

  ghost predicate Prefix(snapshot: seq<nat>, durable: seq<nat>, working: seq<nat>) {
    durable <= snapshot <= working
  }

  ghost predicate LogInvariant(s: Session<seq<nat>>, sources: seq<Source>, n: nat)
    requires n <= |sources|
  {
    && Ascending(s.durable, sources, n)
    && (s.open.Some? ==> Ascending(s.open.value.working, sources, n) && Nested(s.open.value, s.durable))
  }

  lemma AscendingAppend(log: seq<nat>, sources: seq<Source>, n: nat)
    requires n < |sources| && Ascending(log, sources, n)
    ensures Ascending(log, sources, n + 1)
    ensures !IsControl(sources[n]) ==> Ascending(Append(n, log), sources, n + 1)
  {
  }

  lemma AscendingPrefix(log: seq<nat>, whole: seq<nat>, sources: seq<Source>, n: nat)
    requires n <= |sources| && Ascending(whole, sources, n) && log <= whole
    ensures Ascending(log, sources, n)
  {
  }

  lemma NestedAppend(t: Transaction<seq<nat>>, durable: seq<nat>, n: nat)
    requires Nested(t, durable)
    ensures Nested(t.(working := Append(n, t.working)), durable)
  {
    forall j | 0 <= j < |t.marks| ensures Prefix(t.marks[j].snapshot, durable, Append(n, t.working)) {
    }
  }

  lemma NestedRollback(t: Transaction<seq<nat>>, durable: seq<nat>, p: nat)
    requires Nested(t, durable) && p < |t.marks|
    ensures Nested(t.(working := t.marks[p].snapshot, marks := t.marks[..p + 1]), durable)
  {
    assert Prefix(t.marks[p].snapshot, durable, t.working);
    forall j | 0 <= j < p + 1 ensures Prefix(t.marks[j].snapshot, durable, t.marks[p].snapshot) {
      assert Prefix(t.marks[j].snapshot, durable, t.working);
      assert |t.marks[j].snapshot| <= |t.marks[p].snapshot|;
    }
  }

  lemma TransactionKeepsLogInvariant(s: Session<seq<nat>>, sources: seq<Source>, n: nat)
    requires n < |sources| && LogInvariant(s, sources, n) && s.open.Some?
    ensures LogInvariant(Step(s, sources[n], n, Append), sources, n + 1)
  {
    hide Ascending;
    var t := s.open.value;
    AscendingAppend(s.durable, sources, n);
    AscendingAppend(t.working, sources, n);
    match sources[n] {
      case Savepoint(name) =>
        assert Prefix(t.working, s.durable, t.working);
      case ReleaseSavepoint(name) =>
      case Rollback(_, Some(name)) =>
        var p := Innermost(t.marks, Folded(name));
        if p.Some? {
          NestedRollback(t, s.durable, p.value);
          assert Prefix(t.marks[p.value].snapshot, s.durable, t.working);
          AscendingPrefix(t.marks[p.value].snapshot, t.working, sources, n + 1);
        }
      case CreateIndex(_) => NestedAppend(t, s.durable, n);
      case Other => NestedAppend(t, s.durable, n);
      case _ =>
    }
  }

  lemma StepKeepsLogInvariant(s: Session<seq<nat>>, next: Session<seq<nat>>, sources: seq<Source>, n: nat)
    requires n < |sources| && LogInvariant(s, sources, n)
    requires next == Step(s, sources[n], n, Append)
    ensures LogInvariant(next, sources, n + 1)
  {
    if s.open.Some? {
      TransactionKeepsLogInvariant(s, sources, n);
    } else {
      AscendingAppend(s.durable, sources, n);
    }
  }

  lemma {:induction false} LogInvariantHolds(sources: seq<Source>, n: nat)
    requires n <= |sources|
    ensures LogInvariant(LogRun(sources, n), sources, n)
  {
    if n > 0 {
      LogInvariantHolds(sources, n - 1);
      StepKeepsLogInvariant(LogRun(sources, n - 1), LogRun(sources, n), sources, n - 1);
    }
  }

  // ---------------------------------------------------------------------
  // Outline::new
  // ---------------------------------------------------------------------

  /** What became of each statement, and in which transaction it ran. */
  datatype Outline = Outline(outcomes: seq<Outcome>, transactions: seq<Option<nat>>)

  datatype Frame = Frame(name: Option<Ident>, start: nat)

  /** The last frame of this name. */
  function InnermostFrame(frames: seq<Frame>, name: Ident): (position: Option<nat>)
    ensures position.Some? ==> position.value < |frames|
  {
    if |frames| == 0 then None
    else if frames[|frames| - 1].name.Some? && SameName(frames[|frames| - 1].name.value, name) then Some(|frames| - 1)
    else InnermostFrame(frames[..|frames| - 1], name)
  }

  /** The frames a transaction's savepoints stand for: the block itself, then one
      offset into the pending statements per savepoint. */
  ghost predicate FramesOf(frames: seq<Frame>, marks: seq<Mark<seq<nat>>>, durable: seq<nat>) {
    && |frames| == |marks| + 1
    && frames[0] == Frame(None, 0)
    && forall j :: 0 <= j < |marks| ==> FrameOf(frames[j + 1], marks[j], durable)
  }

  ghost predicate FrameOf(frame: Frame, mark: Mark<seq<nat>>, durable: seq<nat>) {
    && frame.name.Some? && Folded(frame.name.value) == mark.name
    && |durable| + frame.start == |mark.snapshot|
  }

  lemma {:induction false} InnermostFrameIsMark(frames: seq<Frame>, marks: seq<Mark<seq<nat>>>, durable: seq<nat>,
      name: Ident)
    requires FramesOf(frames, marks, durable)
    ensures var p := Innermost(marks, Folded(name));
            InnermostFrame(frames, name) == match p case Some(j) => Some(j + 1) case None => None
  {
    hide SameName, Folded, InnermostFrame, Innermost;
    if |marks| == 0 {
      assert frames == [frames[0]];
      NoFrame(frames[0], marks, name);
    } else {
      var j := |marks| - 1;
      assert FrameOf(frames[j + 1], marks[j], durable);
      SameNameIsFolded(frames[j + 1].name.value, name);
      LastFrame(frames, marks, name);
      FramesCut(frames, marks, durable, j);
      InnermostFrameIsMark(frames[..j + 1], marks[..j], durable, name);
    }
  }

  /** The frames of the first savepoints. */
  lemma FramesCut(frames: seq<Frame>, marks: seq<Mark<seq<nat>>>, durable: seq<nat>, count: nat)
    requires FramesOf(frames, marks, durable) && count <= |marks|
    ensures FramesOf(frames[..count + 1], marks[..count], durable)
  {
    hide FrameOf;
    forall i | 0 <= i < count ensures FrameOf(frames[..count + 1][i + 1], marks[..count][i], durable) {
      assert frames[..count + 1][i + 1] == frames[i + 1] && marks[..count][i] == marks[i];
    }
  }

  lemma NoFrame(block: Frame, marks: seq<Mark<seq<nat>>>, name: Ident)
    requires block.name.None? && |marks| == 0
    ensures InnermostFrame([block], name) == None && Innermost(marks, Folded(name)) == None
  {
    assert [block][..0] == [];
  }

  lemma LastFrame(frames: seq<Frame>, marks: seq<Mark<seq<nat>>>, name: Ident)
    requires |frames| == |marks| + 1 >= 2 && frames[|marks|].name.Some?
    ensures var j := |marks| - 1;
      && InnermostFrame(frames, name)
         == (if SameName(frames[j + 1].name.value, name) then Some(j + 1) else InnermostFrame(frames[..j + 1], name))
      && Innermost(marks, Folded(name))
         == if marks[j].name == Folded(name) then Some(j) else Innermost(marks[..j], Folded(name))
  {
  }

  ghost predicate OutcomesOf(outcomes: seq<Outcome>, sources: seq<Source>, n: nat, kept: seq<nat>)
    requires n <= |sources| == |outcomes|
  {
    forall j :: 0 <= j < |outcomes| ==>
      outcomes[j] == if j >= n then Committed
                     else if IsControl(sources[j]) then Control
                     else if j in kept then Committed else Undone
  }

  /** The transaction `source` runs inside, `open` being the one it finds. */
  function EnclosingId(source: Source, open: Option<Transaction<seq<nat>>>): Option<nat> {
    if IsControl(source) || open.None? then None else Some(open.value.id)
  }

  ghost predicate TransactionsOf(transactions: seq<Option<nat>>, sources: seq<Source>, n: nat)
    requires n <= |sources| == |transactions|
  {
    forall j {:trigger transactions[j]} :: 0 <= j < |transactions| ==>
      transactions[j] == if j >= n then None else EnclosingId(sources[j], LogRun(sources, j).open)
  }

  /** What the walk over the batch knows after `n` statements. */
  ghost predicate Tracks(s: Session<seq<nat>>, frames: seq<Frame>, pending: seq<nat>, open: Option<nat>, next: nat) {
    && next == s.started
    && open.Some? == s.open.Some?
    && (open.None? ==> frames == [] && pending == [])
    && (open.Some? ==>
          && s.open.value.id == open.value
          && s.open.value.working == s.durable + pending
          && FramesOf(frames, s.open.value.marks, s.durable))
  }

  /** The frames' offsets are ordered and never pass the pending statements. */
  lemma FrameStartsAreSorted(s: Session<seq<nat>>, frames: seq<Frame>, pending: seq<nat>, open: Option<nat>, next: nat)
    requires Tracks(s, frames, pending, open, next) && (s.open.Some? ==> Nested(s.open.value, s.durable))
    ensures forall j :: 0 <= j < |frames| ==> frames[j].start <= |pending|
    ensures forall j, k :: 0 <= j < k < |frames| ==> frames[j].start <= frames[k].start
  {
    hide Folded;
    assert s.open.Some? ==> forall j :: 0 < j < |frames| ==> FrameOf(frames[j], s.open.value.marks[j - 1], s.durable);
    forall j, k | 0 <= j < k < |frames| ensures frames[j].start <= frames[k].start {
      if j > 0 {
        assert |s.open.value.marks[j - 1].snapshot| <= |s.open.value.marks[k - 1].snapshot|;
      }
    }
    forall j | 0 <= j < |frames| ensures frames[j].start <= |pending| {
      if j > 0 {
        assert s.open.value.marks[j - 1].snapshot <= s.open.value.working;
      }
    }
  }

  // One lemma per branch of the walk.

  lemma TracksSavepoint(s: Session<seq<nat>>, frames: seq<Frame>, pending: seq<nat>, open: Option<nat>, next: nat,
      n: nat, name: Ident)
    requires Tracks(s, frames, pending, open, next) && open.Some?
    ensures Tracks(Step(s, Savepoint(name), n, Append), frames + [Frame(Some(name), |pending|)], pending, open, next)
  {
    hide Folded;
  }

  lemma TracksRelease(s: Session<seq<nat>>, frames: seq<Frame>, pending: seq<nat>, open: Option<nat>, next: nat,
      n: nat, name: Ident)
    requires Tracks(s, frames, pending, open, next) && open.Some?
    ensures var p := InnermostFrame(frames, name);
            Tracks(Step(s, ReleaseSavepoint(name), n, Append), if p.Some? then frames[..p.value]
              else frames, pending, open, next)
  {
    hide Folded, InnermostFrame, Innermost, FramesOf;
    var marks := s.open.value.marks;
    InnermostFrameIsMark(frames, marks, s.durable, name);
    var p := Innermost(marks, Folded(name));
    if p.Some? {
      FramesCut(frames, marks, s.durable, p.value);
    }
  }

  lemma TracksRollbackTo(s: Session<seq<nat>>, frames: seq<Frame>, pending: seq<nat>, open: Option<nat>, next: nat,
      n: nat, name: Ident, chain: bool)
    requires Tracks(s, frames, pending, open, next) && open.Some? && Nested(s.open.value, s.durable)
    ensures var p := InnermostFrame(frames, name);
            var after := Step(s, Rollback(chain, Some(name)), n, Append);
            if p.None? then Tracks(after, frames, pending, open, next)
            else frames[p.value].start <= |pending|
                 && Tracks(after, frames[..p.value + 1], pending[..frames[p.value].start], open, next)
  {
    hide Folded, InnermostFrame, Innermost;
    var t := s.open.value;
    InnermostFrameIsMark(frames, t.marks, s.durable, name);
    FrameStartsAreSorted(s, frames, pending, open, next);
    var p := Innermost(t.marks, Folded(name));
    if p.Some? {
      FramesCut(frames, t.marks, s.durable, p.value + 1);
      assert FrameOf(frames[p.value + 1], t.marks[p.value], s.durable);
      var snapshot := t.marks[p.value].snapshot;
      assert snapshot == t.working[..|snapshot|] == s.durable + pending[..frames[p.value + 1].start];
    }
  }

  lemma TracksEnd(s: Session<seq<nat>>, frames: seq<Frame>, pending: seq<nat>, open: Option<nat>, next: nat, n: nat,
      end: Source)
    requires Tracks(s, frames, pending, open, next) && open.Some?
    requires end.Commit? || (end.Rollback? && end.savepoint.None?)
    ensures Tracks(Step(s, end, n, Append), if end.chain then [Frame(None, 0)] else [], [],
                   if end.chain then Some(next) else None, if end.chain then next + 1 else next)
  {
  }

  lemma TracksWork(s: Session<seq<nat>>, frames: seq<Frame>, pending: seq<nat>, open: Option<nat>, next: nat, n: nat,
      work: Source)
    requires Tracks(s, frames, pending, open, next) && !IsControl(work)
    ensures Tracks(Step(s, work, n, Append), frames, if open.Some? then pending + [n] else pending, open, next)
  {
  }

  /** The positions whose outcome still reads Committed. */
  function Kept(s: Session<seq<nat>>): seq<nat> {
    if s.open.Some? then s.open.value.working else s.durable
  }

  lemma DrainedIsGone(before: seq<nat>, after: seq<nat>, drained: seq<nat>, sources: seq<Source>, n: nat, j: nat)
    requires n <= |sources| && Ascending(before, sources, n) && before == after + drained
    ensures j in before <==> j in after || j in drained
    ensures j in drained ==> j !in after
  {
    if j in drained {
      var q :| 0 <= q < |drained| && drained[q] == j;
      forall p | 0 <= p < |after| ensures after[p] != j {
        assert before[p] < before[|after| + q];
      }
    }
  }

  /** What the outcomes become when the walk passes statement `n`: its own
      entry, and the drained positions. */
  lemma OutcomesAdvance(sources: seq<Source>, outcomes: seq<Outcome>, next: seq<Outcome>, n: nat, before: seq<nat>,
      after: seq<nat>, drained: seq<nat>)
    requires n < |sources| == |outcomes| == |next|
    requires Ascending(before, sources, n) && OutcomesOf(outcomes, sources, n, before)
    requires if IsControl(sources[n]) then before == after + drained else after == before + [n] && drained == []
    requires forall j: nat :: j < |next| ==>
               next[j] == if j in drained then Undone else if j == n && IsControl(sources[n]) then Control
                 else outcomes[j]
    ensures OutcomesOf(next, sources, n + 1, after)
  {
    if IsControl(sources[n]) {
      forall j: nat | j < n && !IsControl(sources[j]) ensures next[j] == if j in after then Committed else Undone {
        DrainedIsGone(before, after, drained, sources, n, j);
      }
      forall j | j in drained ensures j < n && !IsControl(sources[j]) {
        assert j in before;
      }
    }
  }

  /** Gives every drained position `outcome`. */
  method Settle(outcomes: seq<Outcome>, drained: seq<nat>, outcome: Outcome) returns (settled: seq<Outcome>)
    requires forall j :: 0 <= j < |drained| ==> drained[j] < |outcomes|
    ensures |settled| == |outcomes|
    ensures forall j: nat :: j < |outcomes| ==> settled[j] == if j in drained then outcome else outcomes[j]
  {
    settled := outcomes;
    for k := 0 to |drained|
      invariant |settled| == |outcomes|
      invariant forall j: nat :: j < |outcomes| ==> settled[j] == if j in drained[..k] then outcome else outcomes[j]
    {
      settled := settled[drained[k] := outcome];
    }
    assert drained[..|drained|] == drained;
  }

  /** The walk's locals after `n` statements, against the reference session. */
  ghost predicate Walked(sources: seq<Source>, s: Session<seq<nat>>, n: nat, outcomes: seq<Outcome>,
      frames: seq<Frame>, pending: seq<nat>, open: Option<nat>, next: nat)
  {
    && n <= |sources| == |outcomes|
    && LogInvariant(s, sources, n)
    && Tracks(s, frames, pending, open, next)
    && OutcomesOf(outcomes, sources, n, Kept(s))
  }

  lemma PendingRan(sources: seq<Source>, s: Session<seq<nat>>, n: nat, frames: seq<Frame>, pending: seq<nat>,
      open: Option<nat>, next: nat)
    requires n <= |sources| && LogInvariant(s, sources, n) && Tracks(s, frames, pending, open, next)
    ensures forall j :: 0 <= j < |pending| ==> pending[j] < n
  {
    forall j | 0 <= j < |pending| ensures pending[j] < n {
      assert pending[j] == s.open.value.working[|s.durable| + j];
    }
  }

  /** A transaction left open at the end undoes what is pending. */
  lemma UnfinishedUndone(sources: seq<Source>, s: Session<seq<nat>>, outcomes: seq<Outcome>, settled: seq<Outcome>,
      frames: seq<Frame>, pending: seq<nat>, open: Option<nat>, next: nat)
    requires Walked(sources, s, |sources|, outcomes, frames, pending, open, next) && |settled| == |outcomes|
    requires forall j: nat :: j < |outcomes| ==> settled[j] == if j in pending then Undone else outcomes[j]
    ensures OutcomesOf(settled, sources, |sources|, s.durable)
  {
    assert Kept(s) == s.durable + pending;
    forall j: nat | j < |outcomes|
      ensures settled[j] == if IsControl(sources[j]) then Control else if j in s.durable then Committed else Undone
    {
      DrainedIsGone(Kept(s), s.durable, pending, sources, |sources|, j);
    }
  }

  /** COMMIT or ROLLBACK: settles every pending statement, and chains. */
  method EndBlock(sources: seq<Source>, ghost s: Session<seq<nat>>, i: nat, outcomes: seq<Outcome>,
      ghost frames: seq<Frame>, pending: seq<nat>, ghost open: Option<nat>, next: nat)
    returns (outcomes': seq<Outcome>, frames': seq<Frame>, open': Option<nat>, next': nat)
    requires i < |sources| && Walked(sources, s, i, outcomes, frames, pending, open, next) && open.Some?
    requires sources[i].Commit? || (sources[i].Rollback? && sources[i].savepoint.None?)
    ensures Walked(sources, Step(s, sources[i], i, Append), i + 1, outcomes', frames', [], open', next')
  {
    PendingRan(sources, s, i, frames, pending, open, next);
    outcomes' := outcomes[i := Control];
    outcomes' := Settle(outcomes', pending, if sources[i].Commit? then Committed else Undone);
    frames', open', next' := [], None, next;
    if sources[i].chain {
      frames', open', next' := [Frame(None, 0)], Some(next), next + 1;
    }
    ghost var s' := Step(s, sources[i], i, Append);
    StepKeepsLogInvariant(s, s', sources, i);
    TracksEnd(s, frames, pending, open, next, i, sources[i]);
    OutcomesAdvance(sources, outcomes, outcomes', i, Kept(s), Kept(s'), if sources[i].Commit? then [] else pending);
  }

  /** ROLLBACK TO: undoes what is pending since the savepoint, which stays. */
  method RollbackTo(sources: seq<Source>, ghost s: Session<seq<nat>>, i: nat, outcomes: seq<Outcome>,
      frames: seq<Frame>, pending: seq<nat>, ghost open: Option<nat>, ghost next: nat)
    returns (outcomes': seq<Outcome>, frames': seq<Frame>, pending': seq<nat>)
    requires i < |sources| && Walked(sources, s, i, outcomes, frames, pending, open, next) && open.Some?
    requires sources[i].Rollback? && sources[i].savepoint.Some?
    ensures Walked(sources, Step(s, sources[i], i, Append), i + 1, outcomes', frames', pending', open, next)
  {
    PendingRan(sources, s, i, frames, pending, open, next);
    outcomes', frames', pending' := outcomes[i := Control], frames, pending;
    ghost var s' := Step(s, sources[i], i, Append);
    StepKeepsLogInvariant(s, s', sources, i);
    var name := sources[i].savepoint.value;
    TracksRollbackTo(s, frames, pending, open, next, i, name, sources[i].chain);
    var position := InnermostFrame(frames, name);
    ghost var drained := [];
    if position.Some? {
      var start := frames[position.value].start;
      drained := pending[start..];
      outcomes' := Settle(outcomes', pending[start..], Undone);
      frames', pending' := frames[..position.value + 1], pending[..start];
    }
    assert Kept(s) == Kept(s') + drained;
    OutcomesAdvance(sources, outcomes, outcomes', i, Kept(s), Kept(s'), drained);
  }

  /** Every other statement only moves the frames or joins the pending. */
  lemma WalkedOn(sources: seq<Source>, s: Session<seq<nat>>, i: nat, outcomes: seq<Outcome>, frames: seq<Frame>,
      pending: seq<nat>, open: Option<nat>, next: nat)
    requires i < |sources| && Walked(sources, s, i, outcomes, frames, pending, open, next)
    requires Legal(sources[i], open.Some?)
    requires Kept(Step(s, sources[i], i, Append)) == if IsControl(sources[i]) then Kept(s) else Kept(s) + [i]
    ensures LogInvariant(Step(s, sources[i], i, Append), sources, i + 1)
    ensures OutcomesOf(if IsControl(sources[i]) then outcomes[i := Control]
        else outcomes, sources, i + 1, Kept(Step(s, sources[i], i, Append)))
  {
    var s' := Step(s, sources[i], i, Append);
    StepKeepsLogInvariant(s, s', sources, i);
    OutcomesAdvance(sources, outcomes, if IsControl(sources[i]) then outcomes[i := Control]
      else outcomes, i, Kept(s), Kept(s'), []);
  }

  /** One turn of the walk: what statement `i` does to its locals. */
  method WalkOne(sources: seq<Source>, disposition: Disposition, ghost s: Session<seq<nat>>, i: nat,
      outcomes: seq<Outcome>, frames: seq<Frame>, pending: seq<nat>, open: Option<nat>, next: nat)
    returns (outcomes': seq<Outcome>, frames': seq<Frame>, pending': seq<nat>, open': Option<nat>, next': nat)
    requires i < |sources| && Walked(sources, s, i, outcomes, frames, pending, open, next)
    requires Legal(sources[i], open.Some?) && disposition == DispositionOf(sources[i], open.Some?)
    ensures Walked(sources, Step(s, sources[i], i, Append), i + 1, outcomes', frames', pending', open', next')
  {
    outcomes', frames', pending', open', next' := outcomes, frames, pending, open, next;
    if disposition.DropNoOp? {
      WalkedOn(sources, s, i, outcomes, frames, pending, open, next);
      outcomes' := outcomes[i := Control];
      return;
    }
    match sources[i] {
      case StartTransaction =>
        WalkedOn(sources, s, i, outcomes, frames, pending, open, next);
        outcomes' := outcomes[i := Control];
        frames', open', next' := frames + [Frame(None, 0)], Some(next), next + 1;
      case Savepoint(name) =>
        WalkedOn(sources, s, i, outcomes, frames, pending, open, next);
        TracksSavepoint(s, frames, pending, open, next, i, name);
        outcomes' := outcomes[i := Control];
        frames' := frames + [Frame(Some(name), |pending|)];
      case ReleaseSavepoint(name) =>
        WalkedOn(sources, s, i, outcomes, frames, pending, open, next);
        TracksRelease(s, frames, pending, open, next, i, name);
        outcomes' := outcomes[i := Control];
        var position := InnermostFrame(frames, name);
        if position.Some? {
          frames' := frames[..position.value];
        }
      case Rollback(_, Some(_)) =>
        outcomes', frames', pending' := RollbackTo(sources, s, i, outcomes, frames, pending, open, next);
      case Commit(_) | Rollback(_, None) =>
        outcomes', frames', open', next' := EndBlock(sources, s, i, outcomes, frames, pending, open, next);
        pending' := [];
      case CreateIndex(_) | Other =>
        WalkedOn(sources, s, i, outcomes, frames, pending, open, next);
        TracksWork(s, frames, pending, open, next, i, sources[i]);
        if open.Some? {
          pending' := pending + [i];
        }
    }
  }

  lemma TransactionsAdvance(sources: seq<Source>, transactions: seq<Option<nat>>, n: nat, open: Option<nat>)
    requires n < |sources| == |transactions| && TransactionsOf(transactions, sources, n)
    requires open == match LogRun(sources, n).open case Some(t) => Some(t.id) case None => None
    ensures TransactionsOf(if IsControl(sources[n]) then transactions else transactions[n := open], sources, n + 1)
  {
  }

  /** The outline of an accepted batch, against the reference session: which
      transaction each statement ran in, and that the statements left as
      committed are the ones in the durable log. */
  ghost predicate IsOutline(sources: seq<Source>, o: Outline) {
    && |o.outcomes| == |o.transactions| == |sources|
    && OutcomesOf(o.outcomes, sources, |sources|, DurableLog(sources))
    && TransactionsOf(o.transactions, sources, |sources|)
  }

  method NewOutline(sources: seq<Source>, dispositions: seq<Disposition>) returns (o: Outline)
    requires Accepted(sources) && Classified(sources, dispositions)
    ensures IsOutline(sources, o)
  {
    var outcomes := seq(|sources|, _ => Committed);
    var transactions: seq<Option<nat>> := seq(|sources|, _ => None);
    var frames: seq<Frame>, pending: seq<nat>, open: Option<nat>, next: nat := [], [], None, 0;
    for i := 0 to |sources|
      invariant Walked(sources, LogRun(sources, i), i, outcomes, frames, pending, open, next)
      invariant |transactions| == |sources| && TransactionsOf(transactions, sources, i)
    {
      TransactionsAdvance(sources, transactions, i, open);
      if !IsControl(sources[i]) {
        transactions := transactions[i := open];
      }
      outcomes, frames, pending, open, next :=
        WalkOne(sources, dispositions[i], LogRun(sources, i), i, outcomes, frames, pending, open, next);
    }
    PendingRan(sources, LogRun(sources, |sources|), |sources|, frames, pending, open, next);
    ghost var before := outcomes;
    outcomes := Settle(outcomes, pending, Undone);
    UnfinishedUndone(sources, LogRun(sources, |sources|), before, outcomes, frames, pending, open, next);
    o := Outline(outcomes, transactions);
  }

  // ---------------------------------------------------------------------
  // What the outline means for the batch
  // ---------------------------------------------------------------------

  /** The positions an outline leaves committed, in order. */
  function CommittedIndices(outcomes: seq<Outcome>, n: nat): (log: seq<nat>)
    requires n <= |outcomes|
    ensures forall j: nat :: j in log <==> j < n && outcomes[j] == Committed
    ensures forall j, k :: 0 <= j < k < |log| ==> log[j] < log[k]
  {
    if n == 0 then []
    else
      var log := CommittedIndices(outcomes, n - 1);
      assert forall j :: 0 <= j < |log| ==> log[j] in log;
      if outcomes[n - 1] == Committed then log + [n - 1] else log
  }

  lemma NonEmptyHasEntry(log: seq<nat>)
    ensures |log| > 0 ==> exists x :: x in log
  {
    if |log| > 0 {
      assert log[0] in log;
    }
  }

  /** Two ascending logs with the same entries are the same log. */
  lemma {:induction false} SameEntriesSameLog(a: seq<nat>, b: seq<nat>)
    requires forall j, k :: 0 <= j < k < |a| ==> a[j] < a[k]
    requires forall j, k :: 0 <= j < k < |b| ==> b[j] < b[k]
    requires forall x :: x in a <==> x in b
    ensures a == b
  {
    if |a| == 0 {
      NonEmptyHasEntry(b);
    } else {
      assert a[|a| - 1] in b;
      assert b[|b| - 1] in a;
      var a', b' := a[..|a| - 1], b[..|b| - 1];
      assert a == a' + [a[|a| - 1]] && b == b' + [b[|b| - 1]];
      forall x ensures x in a' <==> x in b' {
        assert x in a' ==> x in a;
        assert x in b' ==> x in b;
      }
      SameEntriesSameLog(a', b');
    }
  }

  /** The statements the outline leaves committed are, in order, the durable
      log of the snapshotting session. */
  lemma CommittedIsDurable(sources: seq<Source>, o: Outline)
    requires IsOutline(sources, o)
    ensures CommittedIndices(o.outcomes, |sources|) == DurableLog(sources)
  {
    LogInvariantHolds(sources, |sources|);
    SameEntriesSameLog(CommittedIndices(o.outcomes, |sources|), DurableLog(sources));
  }

  /** So on any store, executing the committed statements alone leaves what
      the session with all its snapshots leaves. */
  lemma CommittedStatementsSuffice<S(!new)>(sources: seq<Source>, o: Outline, initial: S, exec: (nat, S) -> S)
    requires IsOutline(sources, o)
    ensures FinalStore(sources, initial, exec) == Fold(CommittedIndices(o.outcomes, |sources|), initial, exec)
  {
    CommittedIsDurable(sources, o);
    RunIsLogFolded(sources, |sources|, initial, exec);
  }

  predicate InTransaction(s: Session<seq<nat>>, id: nat) {
    s.open.Some? && s.open.value.id == id
  }

  /** Transactions are numbered as they start and never reopened. */
  lemma {:induction false} NumbersAscend(sources: seq<Source>, i: nat, k: nat)
    requires i <= k <= |sources|
    ensures LogRun(sources, i).started <= LogRun(sources, k).started
    ensures LogRun(sources, k).open.Some? ==> LogRun(sources, k).open.value.id < LogRun(sources, k).started
    ensures forall id: nat :: id < LogRun(sources, i).started && InTransaction(LogRun(sources, k), id) ==>
        InTransaction(LogRun(sources, i), id)
    decreases k
  {
    if i < k {
      NumbersAscend(sources, i, k - 1);
    } else if k > 0 {
      NumbersAscend(sources, k - 1, k - 1);
    }
  }

  /** A transaction's statements are contiguous: nothing that ran between two
      of them ran outside it. */
  lemma TransactionsAreContiguous(sources: seq<Source>, o: Outline, i: nat, j: nat, k: nat)
    requires IsOutline(sources, o) && i <= j <= k < |sources|
    requires o.transactions[i].Some? && o.transactions[k] == o.transactions[i]
    ensures IsControl(sources[j]) || o.transactions[j] == o.transactions[i]
  {
    var id := o.transactions[i].value;
    NumbersAscend(sources, i, i);
    NumbersAscend(sources, i, j);
    NumbersAscend(sources, j, k);
    assert InTransaction(LogRun(sources, i), id) && InTransaction(LogRun(sources, k), id);
    assert InTransaction(LogRun(sources, j), id);
  }
}
