/** PostgreSQL's own session, in which naming a savepoint that does not exist
    aborts the transaction, and when the batch's session is that one. */
module AbortedTransactions {
  import opened Wrappers
  import opened Transactions
  import opened Statements
  import opened Retention
  import opened Replay
  import opened Connection

  /** A session, and whether its open transaction takes nothing but its end or
      a rollback to a savepoint. */
  datatype Strict<S> = Strict(session: Session<S>, aborted: bool)

  /** The savepoint a statement needs to be there. */
  function Needs(source: Source): Option<Ident> {
    match source
    case ReleaseSavepoint(name) => Some(name)
    case Rollback(_, Some(name)) => Some(name)
    case StartTransaction | Savepoint(_) | Rollback(_, None) | Commit(_) | CreateIndex(_) | Other => None
  }

  predicate Lives<S>(s: Session<S>, source: Source) {
    s.open.Some? && Needs(source).Some? ==> Innermost(s.open.value.marks, Folded(Needs(source).value)).Some?
  }

  function StrictStep<S>(s: Strict<S>, source: Source, index: nat, exec: (nat, S) -> S): Strict<S> {
    if !s.aborted then
      if Lives(s.session, source) then Strict(Step(s.session, source, index, exec), false) else s.(aborted := true)
    else
      match source
      case Rollback(_, Some(_)) =>
        if Lives(s.session, source) then Strict(Step(s.session, source, index, exec), false) else s
      case Rollback(_, None) => Strict(Step(s.session, source, index, exec), false)
      case Commit(chain) => Strict(Step(s.session, Rollback(chain, None), index, exec), false)
      case StartTransaction | Savepoint(_) | ReleaseSavepoint(_) | CreateIndex(_) | Other => s
  }

  function StrictRun<S>(sources: seq<Source>, n: nat, initial: S, exec: (nat, S) -> S): Strict<S>
    requires n <= |sources|
  {
    if n == 0 then Strict(Session(initial, None, 0), false)
    else StrictStep(StrictRun(sources, n - 1, initial, exec), sources[n - 1], n - 1, exec)
  }

  function StrictFinalStore<S>(sources: seq<Source>, initial: S, exec: (nat, S) -> S): S {
    StrictRun(sources, |sources|, initial, exec).session.durable
  }

  /** Every savepoint named by the first `n` statements is live where it is
      named. */
  predicate SavepointsLive(sources: seq<Source>, n: nat)
    requires n <= |sources|
  {
    forall i :: 0 <= i < n ==> Lives(LogRun(sources, i), sources[i])
  }

  /** What a session's store holds says nothing about which savepoints live. */
  lemma SameLives<S(!new)>(s: Session<S>, l: Session<seq<nat>>, source: Source, initial: S, exec: (nat, S) -> S)
    requires SessionFolds(s, l, initial, exec)
    ensures Lives(s, source) <==> Lives(l, source)
  {
    if s.open.Some? && Needs(source).Some? {
      InnermostAgrees(s.open.value.marks, l.open.value.marks, initial, exec, Folded(Needs(source).value));
    }
  }

  lemma {:induction false} WhileLive<S(!new)>(sources: seq<Source>, n: nat, initial: S, exec: (nat, S) -> S)
    requires n <= |sources| && SavepointsLive(sources, n)
    ensures StrictRun(sources, n, initial, exec) == Strict(Transactions.Run(sources, n, initial, exec), false)
  {
    hide Step, Lives, SessionFolds;
    if n > 0 {
      WhileLive(sources, n - 1, initial, exec);
      RunIsLogFolded(sources, n - 1, initial, exec);
      SameLives(Transactions.Run(sources, n - 1, initial, exec), LogRun(sources, n - 1), sources[n - 1], initial, exec);
    }
  }

  /** On every store the two sessions are the same after every statement
      exactly when every named savepoint is live. */
  lemma SessionsAgree<S(!new)>(sources: seq<Source>, n: nat, initial: S, exec: (nat, S) -> S)
    requires n <= |sources|
    ensures (forall i: nat :: i <= n ==>
        StrictRun(sources, i, initial, exec) == Strict(Transactions.Run(sources, i, initial, exec), false))
       <==> SavepointsLive(sources, n)
  {
    hide Step, Lives;
    if SavepointsLive(sources, n) {
      forall i: nat | i <= n
        ensures StrictRun(sources, i, initial, exec) == Strict(Transactions.Run(sources, i, initial, exec), false)
      {
        WhileLive(sources, i, initial, exec);
      }
    } else {
      NeverAborted(sources, n, initial, exec);
    }
  }

  /** No transaction is aborted after any statement exactly when every named
      savepoint is live. */
  lemma {:induction false} NeverAborted<S(!new)>(sources: seq<Source>, n: nat, initial: S, exec: (nat, S) -> S)
    requires n <= |sources|
    ensures (forall i: nat :: i <= n ==> !StrictRun(sources, i, initial, exec).aborted) <==> SavepointsLive(sources, n)
  {
    if SavepointsLive(sources, n) {
      forall i: nat | i <= n ensures !StrictRun(sources, i, initial, exec).aborted {
        WhileLive(sources, i, initial, exec);
      }
    } else {
      var i := FirstMissing(sources, n);
      WhileLive(sources, i, initial, exec);
      RunIsLogFolded(sources, i, initial, exec);
      SameLives(Transactions.Run(sources, i, initial, exec), LogRun(sources, i), sources[i], initial, exec);
      assert StrictRun(sources, i + 1, initial, exec).aborted;
    }
  }

  lemma {:induction false} FirstMissing(sources: seq<Source>, n: nat) returns (i: nat)
    requires n <= |sources| && !SavepointsLive(sources, n)
    ensures i < n && SavepointsLive(sources, i) && !Lives(LogRun(sources, i), sources[i])
  {
    if SavepointsLive(sources, n - 1) {
      i := n - 1;
    } else {
      i := FirstMissing(sources, n - 1);
    }
  }

  // ---------------------------------------------------------------------
  // What the two sessions leave
  // ---------------------------------------------------------------------

  function StrictLogRun(sources: seq<Source>, n: nat): Strict<seq<nat>>
    requires n <= |sources|
  {
    StrictRun(sources, n, [], Append)
  }

  /** Statement `e` commits a transaction. */
  predicate Commits(sources: seq<Source>, e: nat) {
    e < |sources| && sources[e].Commit? && OpenAt(sources, e)
  }

  /** Where the transaction open after statement `n` began. */
  function BeganAfter(source: Source, open: bool, b: nat, n: nat): (r: nat)
    requires b <= n
    ensures r <= n + 1
  {
    match source
    case StartTransaction => if open then b else n + 1
    case Commit(_) | Rollback(_, None) => n + 1
    case _ => b
  }

  /** Where the transaction open before statement `n` began. */
  function Began(sources: seq<Source>, n: nat): (b: nat)
    requires n <= |sources|
    ensures b <= n
  {
    if n == 0 then 0 else BeganAfter(sources[n - 1], OpenAt(sources, n - 1), Began(sources, n - 1), n - 1)
  }

  function Uncommitted(s: Session<seq<nat>>): seq<nat> {
    if s.open.Some? && |s.durable| <= |s.open.value.working| then s.open.value.working[|s.durable|..] else []
  }

  /** What a COMMIT at `e` keeps in each session. */
  function Pending(sources: seq<Source>, e: nat): seq<nat>
    requires e <= |sources|
  {
    Uncommitted(LogRun(sources, e))
  }

  function StrictPending(sources: seq<Source>, e: nat): seq<nat>
    requires e <= |sources|
  {
    if StrictLogRun(sources, e).aborted then [] else Uncommitted(StrictLogRun(sources, e).session)
  }

  /** A log made of `durable` and positions from `b` on. */
  predicate Grown(log: seq<nat>, durable: seq<nat>, b: nat, n: nat) {
    durable <= log && forall k :: |durable| <= k < |log| ==> b <= log[k] < n
  }

  predicate Since(s: Session<seq<nat>>, b: nat, n: nat) {
    && (forall k :: 0 <= k < |s.durable| ==> s.durable[k] < if s.open.Some? then b else n)
    && b <= n
    && (s.open.Some? ==>
          && Grown(s.open.value.working, s.durable, b, n)
          && forall j :: 0 <= j < |s.open.value.marks| ==> Grown(s.open.value.marks[j].snapshot, s.durable, b, n))
  }

  lemma GrownMore(log: seq<nat>, durable: seq<nat>, b: nat, n: nat)
    requires Grown(log, durable, b, n) && b <= n
    ensures Grown(log, durable, b, n + 1) && Grown(Append(n, log), durable, b, n + 1) && Grown(durable, durable, b, n)
  {
  }

  lemma StepSince(s: Session<seq<nat>>, source: Source, b: nat, n: nat)
    requires Since(s, b, n)
    ensures Since(Step(s, source, n, Append), BeganAfter(source, s.open.Some?, b, n), n + 1)
    ensures Step(s, source, n, Append).open.Some? == OpenAfter(source, s.open.Some?)
  {
    hide Innermost, Folded;
    if s.open.Some? {
      GrownMore(s.open.value.working, s.durable, b, n);
      forall j | 0 <= j < |s.open.value.marks|
        ensures Grown(s.open.value.marks[j].snapshot, s.durable, b, n + 1)
      {
        GrownMore(s.open.value.marks[j].snapshot, s.durable, b, n);
      }
    }
  }

  /** Both sessions open and end transactions at the same statements, and hold
      statements of the open one apart from those before it. */
  lemma {:induction false} BothSince(sources: seq<Source>, n: nat)
    requires n <= |sources|
    ensures Since(LogRun(sources, n), Began(sources, n), n)
    ensures var strict := StrictLogRun(sources, n);
      && Since(strict.session, Began(sources, n), n)
      && strict.session.open.Some? == OpenAt(sources, n)
      && (strict.aborted ==> OpenAt(sources, n))
  {
    hide Since, Step, Lives;
    if n == 0 {
      SinceNothing();
    } else {
      BothSince(sources, n - 1);
      var (l, strict, source) := (LogRun(sources, n - 1), StrictLogRun(sources, n - 1), sources[n - 1]);
      var b := Began(sources, n - 1);
      StepSince(l, source, b, n - 1);
      StepSince(strict.session, source, b, n - 1);
      SinceLater(strict.session, b, n - 1);
      if !Lives(strict.session, source) {
        MissingIsOpen(strict.session, source, b, n - 1);
      }
      if source.Commit? {
        StepSince(strict.session, Rollback(source.chain, None), b, n - 1);
      }
    }
  }

  lemma MissingIsOpen(s: Session<seq<nat>>, source: Source, b: nat, n: nat)
    requires !Lives(s, source) && b <= n
    ensures s.open.Some? && OpenAfter(source, true) && BeganAfter(source, true, b, n) == b
  {
  }

  lemma SinceNothing()
    ensures Since(Session([], None, 0), 0, 0)
  {
  }

  lemma SinceLater(s: Session<seq<nat>>, b: nat, n: nat)
    requires Since(s, b, n)
    ensures Since(s, b, n + 1)
  {
  }

  lemma DurableStep(s: Session<seq<nat>>, source: Source, b: nat, e: nat)
    requires Since(s, b, e)
    ensures Step(s, source, e, Append).durable
         == if source.Commit? && s.open.Some? then s.durable + Uncommitted(s)
            else if s.open.None? && !IsControl(source) then s.durable + [e]
            else s.durable
  {
    hide Innermost, Folded;
    if s.open.Some? {
      assert s.durable <= s.open.value.working;
    }
  }

  lemma OneCut(w: seq<nat>, b: nat, i: nat, j: nat)
    requires i <= |w| && j <= |w|
    requires forall k :: 0 <= k < |w| ==> (w[k] < b <==> k < i)
    requires forall k :: 0 <= k < |w| ==> (w[k] < b <==> k < j)
    ensures i == j
  {
    assert i < |w| ==> !(w[i] < b);
    assert j < |w| ==> !(w[j] < b);
  }

  lemma Joined(d: seq<nat>, p: seq<nat>, d': seq<nat>, p': seq<nat>, b: nat)
    requires forall k :: 0 <= k < |d| ==> d[k] < b
    requires forall k :: 0 <= k < |d'| ==> d'[k] < b
    requires forall k :: 0 <= k < |p| ==> b <= p[k]
    requires forall k :: 0 <= k < |p'| ==> b <= p'[k]
    ensures d + p == d' + p' <==> d == d' && p == p'
  {
    if d + p == d' + p' {
      OneCut(d + p, b, |d|, |d'|);
      assert (d + p)[..|d|] == d && (d' + p')[..|d'|] == d';
      assert (d + p)[|d|..] == p && (d' + p')[|d'|..] == p';
    }
  }

  lemma UncommittedSince(s: Session<seq<nat>>, b: nat, n: nat)
    requires Since(s, b, n) && s.open.Some?
    ensures forall k :: 0 <= k < |s.durable| ==> s.durable[k] < b
    ensures forall k :: 0 <= k < |Uncommitted(s)| ==> b <= Uncommitted(s)[k]
  {
  }

  ghost predicate CommitsAlike(sources: seq<Source>, n: nat)
    requires n <= |sources|
  {
    forall e: nat :: e < n && Commits(sources, e) ==> Pending(sources, e) == StrictPending(sources, e)
  }

  /** The two durable logs are the same exactly when every COMMIT keeps the same
      statements in both sessions. */
  lemma {:induction false} LogsAgree(sources: seq<Source>, n: nat)
    requires n <= |sources|
    ensures LogRun(sources, n).durable == StrictLogRun(sources, n).session.durable <==> CommitsAlike(sources, n)
  {
    hide Since, Step, Lives, Uncommitted;
    if n > 0 {
      var e := n - 1;
      var (l, strict, source, b) := (LogRun(sources, e), StrictLogRun(sources, e), sources[e], Began(sources, e));
      LogsAgree(sources, e);
      BothSince(sources, e);
      DurableStep(l, source, b, e);
      DurableStep(strict.session, source, b, e);
      DurableStep(strict.session, Rollback(source.Commit? && source.chain, None), b, e);
      if !Lives(strict.session, source) {
        MissingIsOpen(strict.session, source, b, e);
      }
      NotOpenLives(strict.session, source);
      if Commits(sources, e) {
        UncommittedSince(l, b, e);
        UncommittedSince(strict.session, b, e);
        Joined(l.durable, Pending(sources, e), strict.session.durable, StrictPending(sources, e), b);
        assert strict.session.durable + [] == strict.session.durable;
      } else if !OpenAt(sources, e) && !IsControl(source) {
        assert l.durable + [e] == strict.session.durable + [e] <==> l.durable == strict.session.durable by {
          assert (l.durable + [e])[..|l.durable + [e]| - 1] == l.durable;
          assert (strict.session.durable + [e])[..|strict.session.durable + [e]| - 1] == strict.session.durable;
        }
      }
      assert CommitsAlike(sources, n) <==>
        CommitsAlike(sources, e) && (Commits(sources, e) ==> Pending(sources, e) == StrictPending(sources, e));
    }
  }

  lemma NotOpenLives<S>(s: Session<S>, source: Source)
    ensures s.open.None? || Needs(source).None? ==> Lives(s, source)
    ensures source.Commit? ==> Lives(s, source)
    ensures source.Rollback? && source.savepoint.None? ==> Lives(s, source)
  {
  }

  // A transaction that names no missing savepoint.

  predicate SameMarks(l: Transaction<seq<nat>>, l0: seq<nat>, t: Transaction<seq<nat>>, t0: seq<nat>) {
    && |l.marks| == |t.marks|
    && forall j :: 0 <= j < |l.marks| ==>
         && l.marks[j].name == t.marks[j].name
         && |l0| <= |l.marks[j].snapshot| && |t0| <= |t.marks[j].snapshot|
         && l.marks[j].snapshot[|l0|..] == t.marks[j].snapshot[|t0|..]
  }

  /** Two sessions that differ at most in what was durable before. */
  predicate Level(l: Session<seq<nat>>, t: Session<seq<nat>>) {
    && l.open.Some? == t.open.Some?
    && (l.open.Some? ==>
          && |l.durable| <= |l.open.value.working| && |t.durable| <= |t.open.value.working|
          && l.open.value.working[|l.durable|..] == t.open.value.working[|t.durable|..]
          && SameMarks(l.open.value, l.durable, t.open.value, t.durable))
  }

  lemma {:induction false} SameInnermost(a: seq<Mark<seq<nat>>>, b: seq<Mark<seq<nat>>>, name: string)
    requires |a| == |b| && forall j :: 0 <= j < |a| ==> a[j].name == b[j].name
    ensures Innermost(a, name) == Innermost(b, name)
  {
    if |a| > 0 {
      SameInnermost(a[..|a| - 1], b[..|b| - 1], name);
    }
  }

  lemma LevelLives(l: Session<seq<nat>>, t: Session<seq<nat>>, source: Source)
    requires Level(l, t)
    ensures Lives(l, source) <==> Lives(t, source)
  {
    if l.open.Some? && Needs(source).Some? {
      SameInnermost(l.open.value.marks, t.open.value.marks, Folded(Needs(source).value));
    }
  }

  lemma LevelStep(l: Session<seq<nat>>, t: Session<seq<nat>>, source: Source, n: nat)
    requires Level(l, t) && !source.Commit? && !(source.Rollback? && source.savepoint.None?)
    ensures Level(Step(l, source, n, Append), Step(t, source, n, Append))
  {
    hide Innermost, Folded;
    if l.open.Some? {
      var (w, v) := (l.open.value.working, t.open.value.working);
      assert Append(n, w)[|l.durable|..] == w[|l.durable|..] + [n];
      assert Append(n, v)[|t.durable|..] == v[|t.durable|..] + [n];
      if Needs(source).Some? {
        SameInnermost(l.open.value.marks, t.open.value.marks, Folded(Needs(source).value));
      }
    }
  }

  /** Statements `i` to `e` name no savepoint that is missing. */
  predicate NoneMissing(sources: seq<Source>, i: nat, e: nat)
    requires e <= |sources|
  {
    forall k :: i <= k < e ==> Lives(LogRun(sources, k), sources[k])
  }

  lemma LevelAtStart()
    ensures Level(Session([], None, 0), Session([], None, 0))
  {
  }

  /** A transaction just begun has nothing in it, and no transaction nothing to
      compare. */
  lemma LevelFresh(l: Session<seq<nat>>, t: Session<seq<nat>>, source: Source, same: Source, n: nat)
    requires l.open.Some? == t.open.Some? && BeganAfter(source, l.open.Some?, n, n) == n + 1
    requires same == source || (source.Commit? && same == Rollback(source.chain, None))
    ensures Level(Step(l, source, n, Append), Step(t, same, n, Append))
  {
  }

  lemma {:induction false} NothingMissing(sources: seq<Source>, e: nat)
    requires e <= |sources| && NoneMissing(sources, Began(sources, e), e)
    ensures !StrictLogRun(sources, e).aborted && Level(LogRun(sources, e), StrictLogRun(sources, e).session)
  {
    hide Lives, Innermost, Folded, Step, Level, Since;
    if e == 0 {
      LevelAtStart();
    } else {
      var (l, strict, source) := (LogRun(sources, e - 1), StrictLogRun(sources, e - 1), sources[e - 1]);
      BothSince(sources, e - 1);
      NotOpenLives(strict.session, source);
      if Began(sources, e) < e {
        assert Began(sources, e) == Began(sources, e - 1);
        NothingMissing(sources, e - 1);
        LevelLives(l, strict.session, source);
        LevelStep(l, strict.session, source, e - 1);
      } else if source.Commit? {
        LevelFresh(l, strict.session, source, source, e - 1);
        LevelFresh(l, strict.session, source, Rollback(source.chain, None), e - 1);
      } else {
        LevelFresh(l, strict.session, source, source, e - 1);
      }
    }
  }

  /** The logs differ exactly when some transaction that names a missing
      savepoint is committed with different statements kept. */
  lemma LogsDiffer(sources: seq<Source>)
    ensures DurableLog(sources) != StrictLogRun(sources, |sources|).session.durable
       <==> exists e: nat :: Commits(sources, e) && !NoneMissing(sources, Began(sources, e), e)
                             && Pending(sources, e) != StrictPending(sources, e)
  {
    hide StrictLogRun, Commits, Pending, StrictPending, NoneMissing, Began;
    LogsAgree(sources, |sources|);
    forall e: nat | e < |sources| && Commits(sources, e) && NoneMissing(sources, Began(sources, e), e)
      ensures Pending(sources, e) == StrictPending(sources, e)
    {
      NothingMissing(sources, e);
      LevelPending(sources, e);
    }
    forall e: nat | Commits(sources, e) ensures e < |sources| {
      CommitIsWithin(sources, e);
    }
  }

  lemma CommitIsWithin(sources: seq<Source>, e: nat)
    requires Commits(sources, e)
    ensures e < |sources|
  {
  }

  lemma LevelPending(sources: seq<Source>, e: nat)
    requires e <= |sources| && !StrictLogRun(sources, e).aborted
        && Level(LogRun(sources, e), StrictLogRun(sources, e).session)
    ensures Pending(sources, e) == StrictPending(sources, e)
  {
  }

  /** A statement that neither ends the transaction nor takes it back to one of
      `marks`. */
  predicate LeavesAborted(source: Source, marks: seq<Mark<seq<nat>>>) {
    match source
    case Commit(_) | Rollback(_, None) => false
    case Rollback(_, Some(name)) => Innermost(marks, Folded(name)).None?
    case _ => true
  }

  /** After the first missing savepoint a transaction keeps nothing, unless a
      savepoint set before it is gone back to: then a COMMIT keeps the same in
      both sessions exactly when nothing is pending. */
  lemma {:induction false} AbortedToTheEnd(sources: seq<Source>, i: nat, e: nat)
    requires i < e <= |sources| && NoneMissing(sources, Began(sources, i), i) && !Lives(LogRun(sources, i), sources[i])
    requires forall k :: i < k < e ==> LeavesAborted(sources[k], LogRun(sources, i).open.value.marks)
    ensures StrictLogRun(sources, e) == StrictLogRun(sources, i).(aborted := true)
    ensures StrictPending(sources, e) == []
  {
    hide Innermost, Folded, Step, NoneMissing, Began;
    NothingMissing(sources, i);
    LevelLives(LogRun(sources, i), StrictLogRun(sources, i).session, sources[i]);
    if i + 1 < e {
      AbortedToTheEnd(sources, i, e - 1);
      if Needs(sources[e - 1]).Some? {
        SameInnermost(LogRun(sources, i).open.value.marks, StrictLogRun(sources, i).session.open.value.marks,
          Folded(Needs(sources[e - 1]).value));
      }
    }
  }

  // ---------------------------------------------------------------------
  // Any store
  // ---------------------------------------------------------------------

  /** PostgreSQL's session too is its log, executed. */
  lemma {:induction false} StrictRunIsLogFolded<S(!new)>(sources: seq<Source>, n: nat, initial: S, exec: (nat, S) -> S)
    requires n <= |sources|
    ensures SessionFolds(StrictRun(sources, n, initial, exec).session, StrictLogRun(sources, n).session, initial, exec)
    ensures StrictRun(sources, n, initial, exec).aborted == StrictLogRun(sources, n).aborted
  {
    hide Step, Lives, SessionFolds;
    if n == 0 {
      NothingFolds(initial, exec);
    } else {
      var (s, l, source) := (StrictRun(sources, n - 1, initial, exec).session, StrictLogRun(sources, n - 1).session,
        sources[n - 1]);
      StrictRunIsLogFolded(sources, n - 1, initial, exec);
      SameLives(s, l, source, initial, exec);
      StepFolds(s, l, source, n - 1, initial, exec);
      if source.Commit? {
        StepFolds(s, l, Rollback(source.chain, None), n - 1, initial, exec);
      }
    }
  }

  lemma NothingFolds<S(!new)>(initial: S, exec: (nat, S) -> S)
    ensures SessionFolds(Session(initial, None, 0), Session([], None, 0), initial, exec)
  {
  }

  /** So on PostgreSQL's own session too, executing the committed statements
      alone leaves what the batch leaves, on every store, exactly when its
      commits keep the same statements. */
  lemma CommittedSufficeStrictly<S(!new)>(sources: seq<Source>, o: Outline, initial: S, exec: (nat, S) -> S)
    requires IsOutline(sources, o)
    ensures CommitsAlike(sources, |sources|) ==>
              StrictFinalStore(sources, initial, exec) == Fold(CommittedIndices(o.outcomes, |sources|), initial, exec)
    ensures StrictFinalStore(sources, [], Append) == Fold(CommittedIndices(o.outcomes, |sources|), [], Append)
       <==> CommitsAlike(sources, |sources|)
  {
    hide IsOutline, CommittedIndices, CommitsAlike;
    LogsAgree(sources, |sources|);
    CommittedIsDurable(sources, o);
    StrictRunIsLogFolded(sources, |sources|, initial, exec);
    AppendsBack(DurableLog(sources));
  }

  lemma {:induction false} AppendsBack(log: seq<nat>)
    ensures Fold(log, [], Append) == log
  {
    if |log| > 0 {
      AppendsBack(log[..|log| - 1]);
    }
  }

  /** And the connection program recreates what PostgreSQL's own session leaves. */
  lemma ReplayRecreatesStrictly<V(!new)>(units: seq<Unit>, d: Derivation, local: Statement -> bool, program: seq<Op>,
      blocks: map<nat, nat>, step: Semantics<V>)
    requires Derived(units, d) && IsProgram(units, d, local, program, blocks)
    requires UnitsFramed(units, d, step) && KeptElsewhere(units, d.kept, local, step)
    requires CommitsAlike(SourcesOf(units), |units|)
    ensures Agree(StrictFinalStore(SourcesOf(units), map[], UnitExec(units, step)),
                  FinalStore(BatchOf(program), map[], OpExec(program, step)),
                  Survivors(units, d.outline.outcomes))
  {
    hide IsProgram, UnitsFramed, KeptElsewhere, CommitsAlike, Agree, IsOutline, Recorded, Created, IsRetention, Step;
    ReplayRecreatesSurvivors(units, d, local, program, blocks, step);
    CommittedSufficeStrictly(SourcesOf(units), d.outline, map[], UnitExec(units, step));
    CommittedStatementsSuffice(SourcesOf(units), d.outline, map[], UnitExec(units, step));
  }

  /** BEGIN, ROLLBACK TO a savepoint never set, COMMIT: the sessions part, and
      leave the same. */
  lemma NothingToLose(name: Ident)
    ensures var sources := [StartTransaction, Rollback(false, Some(name)), Commit(false)];
      && Accepted(sources) && !SavepointsLive(sources, 3)
          && DurableLog(sources) == StrictFinalStore(sources, [], Append) == []
  {
    var sources := [StartTransaction, Rollback(false, Some(name)), Commit(false)];
    var begun := Session([], Some(Transaction(0, [], [])), 1);
    assert LogRun(sources, 0) == Session([], None, 0);
    assert LogRun(sources, 1) == begun && !Lives(begun, sources[1]);
    assert LogRun(sources, 2) == begun;
    assert LogRun(sources, 3) == Session([], None, 1);
    assert StrictRun(sources, 1, [], Append) == Strict(begun, false);
    assert StrictRun(sources, 2, [], Append) == Strict(begun, true);
    assert StrictRun(sources, 3, [], Append) == Strict(Session([], None, 1), false);
  }

  /** BEGIN, a statement, ROLLBACK TO a savepoint never set, COMMIT: accepted,
      and the statement stays committed where PostgreSQL undoes it. */
  lemma UnknownSavepoint(name: Ident)
    ensures var sources := [StartTransaction, Other, Rollback(false, Some(name)), Commit(false)];
      && Accepted(sources) && !SavepointsLive(sources, 4)
      && DurableLog(sources) == [1] && StrictFinalStore(sources, [], Append) == []
  {
    var sources := [StartTransaction, Other, Rollback(false, Some(name)), Commit(false)];
    var begun := Session([], Some(Transaction(0, [], [])), 1);
    var worked := Session([], Some(Transaction(0, [1], [])), 1);
    assert [] + [1] == [1];
    assert LogRun(sources, 0) == Session([], None, 0);
    assert LogRun(sources, 1) == begun;
    assert LogRun(sources, 2) == worked;
    assert LogRun(sources, 3) == worked && !Lives(worked, sources[2]);
    assert LogRun(sources, 4) == Session([1], None, 1);
    assert StrictRun(sources, 1, [], Append) == Strict(begun, false);
    assert StrictRun(sources, 2, [], Append) == Strict(worked, false);
    assert StrictRun(sources, 3, [], Append) == Strict(worked, true);
    assert StrictRun(sources, 4, [], Append) == Strict(Session([], None, 1), false);
  }
}
