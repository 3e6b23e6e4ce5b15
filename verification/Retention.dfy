/** The least set of units that what survives depends on, and that running no
    others makes no difference to it. */
module Retention {
  import opened Wrappers
  import opened Effects
  import opened Transactions

  // ---------------------------------------------------------------------
  // The least pair of needed objects and retained units
  // ---------------------------------------------------------------------

  predicate Meets(ids: seq<nat>, needed: set<nat>) {
    exists id :: id in ids && id in needed
  }

  function Demands(footprint: Footprint): set<nat> {
    Ids(footprint.touches) + Ids(footprint.uses)
  }

  /** A unit that touches a needed object is retained, and what a retained
      unit touches or reads is needed. */
  ghost predicate RetentionClosed(alive: set<nat>, effects: seq<Footprint>, needed: set<nat>, retained: set<nat>) {
    && alive <= needed
    && (forall i: nat :: i < |effects| && Meets(effects[i].touches, needed) ==> i in retained)
    && forall i :: i in retained && i < |effects| ==> Demands(effects[i]) <= needed
  }

  /** The least closed pair, whatever order a search finds it in. */
  ghost predicate IsRetention(alive: set<nat>, effects: seq<Footprint>, needed: set<nat>, retained: set<nat>) {
    && RetentionClosed(alive, effects, needed, retained)
    && forall N: set<nat>, R: set<nat> :: RetentionClosed(alive, effects, N, R) ==> needed <= N && retained <= R
  }

  function Flagged(flags: seq<bool>): set<nat> {
    set i: nat | i < |flags| && flags[i]
  }

  lemma FlagOneMore(flags: seq<bool>, i: nat)
    requires i < |flags|
    ensures Flagged(flags[i := true]) == Flagged(flags) + {i}
  {
  }

  method FlagAll(flags: array<bool>, ids: seq<nat>)
    requires forall id :: id in ids ==> id < flags.Length
    modifies flags
    ensures Flagged(flags[..]) == Flagged(old(flags[..])) + Ids(ids)
  {
    for j := 0 to |ids|
      invariant Flagged(flags[..]) == Flagged(old(flags[..])) + Ids(ids[..j])
    {
      assert ids[j] in ids;
      ghost var before := flags[..];
      flags[ids[j]] := true;
      assert flags[..] == before[ids[j] := true];
      FlagOneMore(before, ids[j]);
      assert ids[..j + 1] == ids[..j] + [ids[j]];
    }
    assert ids[..|ids|] == ids;
  }

  /** Every pair closed over the same effects holds what was found so far. */
  ghost predicate Least(alive: set<nat>, effects: seq<Footprint>, needed: set<nat>, retained: set<nat>) {
    forall N: set<nat>, R: set<nat> :: RetentionClosed(alive, effects, N, R) ==> needed <= N && retained <= R
  }

  lemma LeastStep(alive: set<nat>, effects: seq<Footprint>, needed: set<nat>, retained: set<nat>, i: nat)
    requires i < |effects| && Least(alive, effects, needed, retained) && Meets(effects[i].touches, needed)
    ensures Least(alive, effects, needed + Demands(effects[i]), retained + {i})
  {
    forall N: set<nat>, R: set<nat> | RetentionClosed(alive, effects, N, R)
      ensures needed + Demands(effects[i]) <= N && retained + {i} <= R
    {
      assert Meets(effects[i].touches, N);
    }
  }

  lemma MeetsOneMore(ids: seq<nat>, j: nat, needed: set<nat>)
    requires j < |ids|
    ensures Meets(ids[..j + 1], needed) <==> Meets(ids[..j], needed) || ids[j] in needed
  {
    assert ids[..j + 1] == ids[..j] + [ids[j]];
    assert ids[j] in ids[..j + 1];
  }

  method MeetsAny(ids: seq<nat>, needed: array<bool>) returns (met: bool)
    requires forall id :: id in ids ==> id < needed.Length
    ensures met == Meets(ids, Flagged(needed[..]))
  {
    met := false;
    for j := 0 to |ids|
      invariant met == Meets(ids[..j], Flagged(needed[..]))
    {
      assert ids[j] in ids;
      FlagIs(needed[..], ids[j]);
      MeetsOneMore(ids, j, Flagged(needed[..]));
      if needed[ids[j]] {
        met := true;
      }
    }
    assert ids[..|ids|] == ids;
  }

  method Retain(objects: nat, alive: seq<nat>, effects: seq<Footprint>)
      returns (kept: seq<bool>, ghost needing: set<nat>)
    requires forall id :: id in alive ==> id < objects
    requires forall i: nat :: i < |effects| ==> Within(objects, effects[i])
    ensures |kept| == |effects|
    ensures IsRetention(Ids(alive), effects, needing, Flagged(kept))
  {
    hide Flagged, RetentionClosed, Ids;
    var needed := new bool[objects](_ => false);
    FlagsOff(needed[..]);
    FlagAll(needed, alive);
    var retained := new bool[|effects|](_ => false);
    FlagsOff(retained[..]);
    LeastStart(Ids(alive), effects);
    assert Flagged(needed[..]) == Ids(alive);
    var changed := true;
    while changed
      invariant Least(Ids(alive), effects, Flagged(needed[..]), Flagged(retained[..]))
      invariant Ids(alive) <= Flagged(needed[..])
      invariant forall i: nat :: i < |effects| && i in Flagged(retained[..]) ==>
          Demands(effects[i]) <= Flagged(needed[..])
      invariant !changed ==> forall i: nat :: i < |effects| ==>
          i in Flagged(retained[..]) || !Meets(effects[i].touches, Flagged(needed[..]))
      decreases Below(|effects|) - Flagged(retained[..]), changed
    {
      changed := false;
      ghost var before := Flagged(retained[..]);
      for index := |effects| downto 0
        invariant Least(Ids(alive), effects, Flagged(needed[..]), Flagged(retained[..]))
        invariant Ids(alive) <= Flagged(needed[..])
        invariant forall i: nat :: i < |effects| && i in Flagged(retained[..]) ==>
            Demands(effects[i]) <= Flagged(needed[..])
        invariant !changed ==> Flagged(retained[..]) == before
        invariant changed ==> before <= Flagged(retained[..])
        invariant changed ==> exists i: nat :: i < |effects| && i !in before && i in Flagged(retained[..])
        invariant !changed ==> forall i: nat :: index <= i < |effects| ==>
            i in Flagged(retained[..]) || !Meets(effects[i].touches, Flagged(needed[..]))
      {
        FlagIs(retained[..], index);
        WithinIds(objects, effects[index]);
        var met := MeetsAny(effects[index].touches, needed);
        if retained[index] || !met {
          continue;
        }
        LeastStep(Ids(alive), effects, Flagged(needed[..]), Flagged(retained[..]), index);
        ghost var was := retained[..];
        retained[index] := true;
        assert retained[..] == was[index := true];
        FlagOneMore(was, index);
        changed := true;
        ghost var needing0 := Flagged(needed[..]);
        FlagAll(needed, effects[index].touches);
        FlagAll(needed, effects[index].uses);
        assert Flagged(needed[..]) == needing0 + Demands(effects[index]);
      }
    }
    kept, needing := retained[..], Flagged(needed[..]);
    ClosedWhenDone(Ids(alive), effects, needing, Flagged(kept));
  }

  lemma FlagsOff(flags: seq<bool>)
    requires forall i :: 0 <= i < |flags| ==> !flags[i]
    ensures Flagged(flags) == {}
  {
  }

  lemma FlagIs(flags: seq<bool>, i: nat)
    requires i < |flags|
    ensures flags[i] <==> i in Flagged(flags)
  {
  }

  lemma WithinIds(n: nat, footprint: Footprint)
    requires Within(n, footprint)
    ensures forall id :: id in footprint.touches || id in footprint.uses ==> id < n
  {
    forall id | id in footprint.touches || id in footprint.uses ensures id < n {
      assert id in Ids(footprint.touches) || id in Ids(footprint.uses);
    }
  }

  lemma LeastStart(alive: set<nat>, effects: seq<Footprint>)
    ensures Least(alive, effects, alive, {})
  {
  }

  lemma ClosedWhenDone(alive: set<nat>, effects: seq<Footprint>, needed: set<nat>, retained: set<nat>)
    requires Least(alive, effects, needed, retained) && alive <= needed
    requires forall i: nat :: i < |effects| && i in retained ==> Demands(effects[i]) <= needed
    requires forall i: nat :: i < |effects| ==> i in retained || !Meets(effects[i].touches, needed)
    ensures IsRetention(alive, effects, needed, retained)
  {
  }

  // ---------------------------------------------------------------------
  // Running the retained units alone
  // ---------------------------------------------------------------------

  /** What each live object holds. */
  type Store<V> = map<nat, V>

  function Lookup<V>(store: Store<V>, id: nat): Option<V> {
    if id in store then Some(store[id]) else None
  }

  ghost predicate Agree<V(!new)>(a: Store<V>, b: Store<V>, ids: set<nat>) {
    forall id :: id in ids ==> Lookup(a, id) == Lookup(b, id)
  }

  /** A unit changes only what it touches, and what it makes of that depends
      only on what it touches and reads. */
  ghost predicate Framed<V(!new)>(exec: (nat, Store<V>) -> Store<V>, i: nat, footprint: Footprint) {
    && (forall s: Store<V>, id: nat :: id !in footprint.touches ==> Lookup(exec(i, s), id) == Lookup(s, id))
    && (forall s: Store<V>, t: Store<V>, id: nat :: Agree(s, t, Demands(footprint)) && id in footprint.touches ==>
          Lookup(exec(i, s), id) == Lookup(exec(i, t), id))
  }

  /** The entries of a log that are kept. */
  function Slice(log: seq<nat>, retained: set<nat>): seq<nat> {
    if |log| == 0 then []
    else
      var last := log[|log| - 1];
      Slice(log[..|log| - 1], retained) + if last in retained then [last] else []
  }

  lemma KeptUnitAgrees<V(!new)>(exec: (nat, Store<V>) -> Store<V>, i: nat, footprint: Footprint, a: Store<V>,
      b: Store<V>, needed: set<nat>)
    requires Framed(exec, i, footprint) && Agree(a, b, needed) && Demands(footprint) <= needed
    ensures Agree(exec(i, a), exec(i, b), needed)
  {
    assert Agree(a, b, Demands(footprint));
    forall id | id in needed ensures Lookup(exec(i, a), id) == Lookup(exec(i, b), id) {
      if id !in footprint.touches {
        assert Lookup(exec(i, a), id) == Lookup(a, id) && Lookup(exec(i, b), id) == Lookup(b, id);
      }
    }
  }

  lemma DroppedUnitAgrees<V(!new)>(exec: (nat, Store<V>) -> Store<V>, i: nat, footprint: Footprint, a: Store<V>,
      b: Store<V>, needed: set<nat>)
    requires Framed(exec, i, footprint) && Agree(a, b, needed) && !Meets(footprint.touches, needed)
    ensures Agree(exec(i, a), b, needed)
  {
    forall id | id in needed ensures Lookup(exec(i, a), id) == Lookup(b, id) {
      assert id !in footprint.touches;
    }
  }

  /** Leaving the other units out changes no needed object. */
  lemma {:induction false} SliceAgrees<V(!new)>(log: seq<nat>, effects: seq<Footprint>, alive: set<nat>,
      needed: set<nat>, retained: set<nat>, initial: Store<V>, exec: (nat, Store<V>) -> Store<V>)
    requires RetentionClosed(alive, effects, needed, retained)
    requires forall i :: i in log ==> i < |effects| && Framed(exec, i, effects[i])
    ensures Agree(Fold(log, initial, exec), Fold(Slice(log, retained), initial, exec), needed)
  {
    if |log| > 0 {
      var i, rest := log[|log| - 1], log[..|log| - 1];
      assert i in log && forall j :: j in rest ==> j in log;
      SliceAgrees(rest, effects, alive, needed, retained, initial, exec);
      var full, slice := Fold(rest, initial, exec), Fold(Slice(rest, retained), initial, exec);
      if i in retained {
        KeptUnitAgrees(exec, i, effects[i], full, slice, needed);
        FoldAppend(Slice(rest, retained), i, initial, exec);
      } else {
        DroppedUnitAgrees(exec, i, effects[i], full, slice, needed);
        assert Slice(log, retained) == Slice(rest, retained);
      }
    }
  }
}
