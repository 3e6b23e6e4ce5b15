/** What the row statements do to the rows of their target, and that the events
    recorded for them are the changes some run of theirs makes. */
module RowEvents {
  import opened Wrappers
  import opened Text
  import opened Statements

  /** The rows of a table, each under a key of its own. */
  type RowSet = map<nat, nat>

  datatype Change = Added | Changed | Removed

  /** The kinds of change between two states of a table. */
  predicate Makes(before: RowSet, after: RowSet, change: Change) {
    match change
    case Added => exists k :: k in after && k !in before
    case Changed => exists k :: k in before && k in after && before[k] != after[k]
    case Removed => exists k :: k in before && k !in after
  }

  /** What a statement may do to the rows of the table it writes: INSERT adds
      rows, with DO UPDATE it may change others, UPDATE changes rows and DELETE
      removes them; what MERGE does is open, and a query that writes does what
      its body does. */
  ghost predicate MayRun(kind: RowKind, before: RowSet, after: RowSet) {
    match kind
    case Insert(_, doUpdate) =>
      (forall k :: k in before ==> k in after)
        && (doUpdate || forall k :: k in before && k in after ==> before[k] == after[k])
    case Update(_) => forall k :: k in before <==> k in after
    case Delete(_) => forall k :: k in after ==> k in before && before[k] == after[k]
    case Merge => true
    case Query(Some(body)) => MayRun(body, before, after)
    case Query(None) => before == after
  }

  /** The table a statement names as its target. */
  function TargetOf(kind: RowKind): Option<ObjectName> {
    if kind.Query? then (if kind.body.Some? then TargetOf(kind.body.value) else None)
    else if kind.Merge? then None
    else kind.table
  }

  ghost predicate CanMake(kind: RowKind, change: Change) {
    exists before: RowSet, after: RowSet :: MayRun(kind, before, after) && Makes(before, after, change)
  }

  predicate Holds(events: Events, change: Change) {
    match change case Added => events.insert case Changed => events.update case Removed => events.delete
  }

  lemma MakesOne(kind: RowKind, before: RowSet, after: RowSet, change: Change)
    requires MayRun(kind, before, after) && Makes(before, after, change)
    ensures CanMake(kind, change)
  {
  }

  /** One row added, changed or removed. */
  lemma Changes()
    ensures Makes(map[], map[0 := 0], Added) && Makes(map[0 := 0], map[0 := 1], Changed)
        && Makes(map[0 := 0], map[], Removed)
  {
    var none: RowSet, zero: RowSet, one: RowSet := map[], map[0 := 0], map[0 := 1];
    assert 0 in zero && 0 !in none && 0 in one && zero[0] != one[0];
  }

  /** A statement is recorded as writing its target exactly when it names one,
      with exactly the events some run of it makes; as writing something
      unnamed when it names none; and as writing nothing exactly when no run of
      it changes a row. */
  lemma {:induction false} EventsAreChanges(kind: RowKind)
    ensures RowWriteOf(kind).None? <==> forall change :: !CanMake(kind, change)
    ensures TargetOf(kind).Some? <==> RowWriteOf(kind).Some? && RowWriteOf(kind).value.Table?
    ensures TargetOf(kind).Some? ==>
      && RowWriteOf(kind).value.name == TargetOf(kind).value
      && forall change :: Holds(RowWriteOf(kind).value.events, change) <==> CanMake(kind, change)
  {
    Changes();
    match kind
    case Insert(_, _) =>
      MakesOne(kind, map[], map[0 := 0], Added);
      assert kind.doUpdate ==> CanMake(kind, Changed) by {
        if kind.doUpdate { MakesOne(kind, map[0 := 0], map[0 := 1], Changed); }
      }
    case Update(_) => MakesOne(kind, map[0 := 0], map[0 := 1], Changed);
    case Delete(_) => MakesOne(kind, map[0 := 0], map[], Removed);
    case Merge => MakesOne(kind, map[], map[0 := 0], Added);
    case Query(Some(body)) =>
      EventsAreChanges(body);
      SameChanges(body);
    case Query(None) =>
  }

  lemma SameChanges(body: RowKind)
    ensures forall change :: CanMake(Query(Some(body)), change) <==> CanMake(body, change)
  {
    forall change ensures CanMake(Query(Some(body)), change) <==> CanMake(body, change) {
      if CanMake(Query(Some(body)), change) {
        var before: RowSet, after: RowSet :| MayRun(Query(Some(body)), before, after) && Makes(before, after, change);
        MakesOne(body, before, after, change);
      }
      if CanMake(body, change) {
        var before: RowSet, after: RowSet :| MayRun(body, before, after) && Makes(before, after, change);
        MakesOne(Query(Some(body)), before, after, change);
      }
    }
  }

  /** A trigger is fired by a write exactly when some change is an event of
      both. */
  lemma OverlapIsShared(a: Events, b: Events)
    ensures a.Overlaps(b) <==> exists change :: Holds(a, change) && Holds(b, change)
  {
    if a.Overlaps(b) {
      assert (Holds(a, Added) && Holds(b, Added)) || (Holds(a, Changed) && Holds(b, Changed))
          || (Holds(a, Removed) && Holds(b, Removed));
    }
  }

  /** What is asked of a batch: each statement names what it writes among the names
      it mentions, the last part in lower case. */
  lemma TargetsAreMentioned(statement: RowStatement)
    ensures MentionsTarget(statement) <==>
      match TargetOf(statement.kind)
      case Some(name) => |name| > 0 ==> Lower(name[|name| - 1]) in statement.names
      case None => true
    ensures WellFormed(Rows(statement)) <==> MentionsTarget(statement)
  {
    hide RowWriteOf, TargetOf, CanMake, Holds;
    EventsAreChanges(statement.kind);
  }
}
