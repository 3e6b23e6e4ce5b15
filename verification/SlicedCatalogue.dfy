/** That a name means in the connection program what it meant in the batch: the
    catalogue the program builds is the batch's, down to the needed objects. */
module SlicedCatalogue {
  import opened Wrappers
  import opened Statements
  import opened Text
  import opened Effects
  import opened CatalogueNames
  import opened Transactions
  import opened Retention
  import opened Replay
  import opened Connection
  import opened FreeHistory

  // ---------------------------------------------------------------------
  // A catalogue without some of its objects
  // ---------------------------------------------------------------------

  function Among(m: map<string, nat>, ids: set<nat>): map<string, nat> {
    map key | key in m && m[key] in ids :: m[key]
  }

  function Spared(objects: seq<Object>, ids: set<nat>): (r: seq<Object>)
    ensures |r| == |objects|
  {
    seq(|objects|, i requires 0 <= i < |objects| => if i in ids then objects[i] else objects[i].(alive := false))
  }

  /** The objects `ids` and their names; the others are dead and nameless, and
      keep their numbers. */
  function Only(st: State, ids: set<nat>): State {
    State(Spared(st.objects, ids), Among(st.relations, ids), Among(st.triggers, ids), Among(st.indexes, ids))
  }

  /** The numbers a unit left out takes, taken up by dead objects. */
  function Padded(st: State, objects: seq<Object>): State {
    if |objects| <= |st.objects| then st else st.(objects := st.objects + Spared(objects[|st.objects|..], {}))
  }

  // ---------------------------------------------------------------------
  // Single changes
  // ---------------------------------------------------------------------

  lemma OnlyEntered(st: State, key: string, shape: Shape, ids: set<nat>)
    requires |st.objects| in ids
    ensures Only(st.Entered(key, shape), ids) == Only(st, ids).Entered(key, shape)
  {
    assert Only(st.Entered(key, shape), ids).objects == Only(st, ids).Entered(key, shape).objects;
  }

  lemma OtherEntered(st: State, key: string, shape: Shape, ids: set<nat>)
    requires |st.objects| !in ids && (key in MapOf(st, shape) ==> MapOf(st, shape)[key] !in ids)
    ensures var next := st.Entered(key, shape); Only(next, ids) == Padded(Only(st, ids), next.objects)
  {
    var next := st.Entered(key, shape);
    OnlyNamed(MapOf(st, shape), key, |st.objects|, ids);
    OtherGrown(st.objects, Object(shape, true), ids);
  }

  lemma OtherGrown(objects: seq<Object>, one: Object, ids: set<nat>)
    requires |objects| !in ids
    ensures Spared(objects + [one], ids) == Spared(objects, ids) + Spared((objects + [one])[|objects|..], {})
  {
    assert (objects + [one])[|objects|..] == [one];
  }

  lemma OnlyRetired(st: State, id: nat, ids: set<nat>)
    requires st.Dying(id) <= ids
    ensures Only(st.Retired(id), ids) == Only(st, ids).Retired(id)
  {
    var only := Only(st, ids);
    assert only.Dying(id) == st.Dying(id) by {
      assert forall d: nat :: d in ids ==> (only.HangsOff(d, id) <==> st.HangsOff(d, id));
      assert forall d: nat :: d !in ids ==> !only.HangsOff(d, id);
    }
    assert Only(st.Retired(id), ids).objects == only.Retired(id).objects;
    assert Only(st.Retired(id), ids).triggers == only.Retired(id).triggers;
    assert Only(st.Retired(id), ids).indexes == only.Retired(id).indexes;
  }

  lemma OtherRetired(st: State, id: nat, ids: set<nat>)
    requires st.Dying(id) !! ids
    ensures Only(st.Retired(id), ids) == Only(st, ids)
  {
    assert Only(st.Retired(id), ids).objects == Only(st, ids).objects;
    assert Only(st.Retired(id), ids).triggers == Only(st, ids).triggers;
    assert Only(st.Retired(id), ids).indexes == Only(st, ids).indexes;
  }

  lemma OnlyForgotten(m: map<string, nat>, key: string, ids: set<nat>)
    ensures Among(m - {key}, ids) == Among(m, ids) - {key}
    ensures key !in m || m[key] !in ids ==> Among(m - {key}, ids) == Among(m, ids)
    ensures key in m && m[key] !in ids ==> key !in Among(m, ids)
  {
  }

  lemma OnlyNamed(m: map<string, nat>, key: string, id: nat, ids: set<nat>)
    ensures id in ids ==> Among(m[key := id], ids) == Among(m, ids)[key := id]
    ensures id !in ids && (key in m ==> m[key] !in ids) ==> Among(m[key := id], ids) == Among(m, ids)
  {
  }

  lemma PaddedTwice(st: State, more: seq<Object>, most: seq<Object>)
    requires |more| <= |most| && forall i :: 0 <= i < |more| ==> more[i].shape == most[i].shape
    ensures Padded(Padded(st, more), most) == Padded(st, most)
  {
    assert Padded(Padded(st, more), most).objects == Padded(st, most).objects;
  }

  lemma PaddedNone(st: State, ids: set<nat>)
    ensures Padded(Only(st, ids), st.objects) == Only(st, ids)
  {
  }

  // ---------------------------------------------------------------------
  // Clearing a name
  // ---------------------------------------------------------------------

  lemma OnlyCleared(st: State, which: Which, key: string, ids: set<nat>)
    requires key in NamesOf(st, which) ==> st.Dying(NamesOf(st, which)[key]) <= ids
    ensures Only(Cleared(st, which, key), ids) == Cleared(Only(st, ids), which, key)
  {
    hide Spared, State.Retired;
    if key in NamesOf(st, which) {
      var id, rest := NamesOf(st, which)[key], WithNames(st, which, NamesOf(st, which) - {key});
      OnlyForgotten(NamesOf(st, which), key, ids);
      SameDying(st, rest, id);
      if id in ids {
        OnlyRetired(rest, id, ids);
      } else {
        SparedIsDead(st, id);
        OtherRetired(rest, id, ids);
      }
    }
  }

  lemma SparedIsDead(st: State, id: nat)
    ensures id !in st.Dying(id) ==> st.Dying(id) == {}
  {
  }

  lemma OtherCleared(st: State, which: Which, key: string, ids: set<nat>)
    requires key in NamesOf(st, which) ==> st.Dying(NamesOf(st, which)[key]) !! ids && NamesOf(st, which)[key] !in ids
    ensures Only(Cleared(st, which, key), ids) == Only(st, ids)
  {
    hide Spared, State.Retired;
    if key in NamesOf(st, which) {
      var id, rest := NamesOf(st, which)[key], WithNames(st, which, NamesOf(st, which) - {key});
      OnlyForgotten(NamesOf(st, which), key, ids);
      SameDying(st, rest, id);
      OtherRetired(rest, id, ids);
    }
  }

  // ---------------------------------------------------------------------
  // One statement of a kept unit
  // ---------------------------------------------------------------------

  lemma OnlyRelation(st: State, name: ObjectName, ids: set<nat>)
    ensures Only(st, ids).Relation(name) == if st.Relation(name).Some? && st.Relation(name).value in ids
        then st.Relation(name) else None
  {
  }

  lemma OnlyCreated(st: State, name: ObjectName, ifNotExists: bool, shape: Shape, ids: set<nat>)
    requires ifNotExists ==> !HeldRelation(st, name)
    requires Changed(st, st.Created(name, ifNotExists, shape)) <= ids
    ensures Only(st.Created(name, ifNotExists, shape), ids) == Only(st, ids).Created(name, ifNotExists, shape)
  {
    hide Spared, State.Entered;
    if Split(name).Some? {
      EnteredEvolves(st, Split(name).value.1, shape);
      assert |st.objects| in ids;
      OnlyEntered(st, Split(name).value.1, shape, ids);
    }
  }

  lemma {:induction false} OnlyRenamed(st: State, name: ObjectName, renames: seq<Option<ObjectName>>, id: nat,
      ids: set<nat>)
    requires id in ids
    ensures Only(st.Renamed(name, renames, id), ids) == Only(st, ids).Renamed(name, renames, id)
    ensures st.Renamed(name, renames, id).objects == st.objects
  {
    hide Spared;
    if |renames| > 0 {
      OnlyRenamed(st, name, renames[..|renames| - 1], id, ids);
      var before := st.Renamed(name, renames[..|renames| - 1], id);
      if renames[|renames| - 1].Some? && Split(name).Some? && Split(renames[|renames| - 1].value).Some? {
        var key, to_ := Split(name).value.1, Split(renames[|renames| - 1].value).value.1;
        OnlyForgotten(before.relations, key, ids);
        OnlyNamed(before.relations - {key}, to_, id, ids);
      }
    }
  }

  lemma {:induction false} OnlyDropped(st: State, kind: DropKind, names: seq<ObjectName>, ids: set<nat>)
    requires st.Valid() && Changed(st, st.DroppedAll(kind, names)) <= ids
    ensures Only(st.DroppedAll(kind, names), ids) == Only(st, ids).DroppedAll(kind, names)
    ensures st.DroppedAll(kind, names).Valid() && Evolves(st, st.DroppedAll(kind, names))
  {
    hide Only, State.Dropped, State.Valid, Changed, Evolves;
    if |names| == 0 {
      NothingChanged(st);
    } else {
      var before, last := st.DroppedAll(kind, names[..|names| - 1]), names[|names| - 1];
      DroppedAllEvolves(st, kind, names[..|names| - 1]);
      DroppedIsValid(before, kind, last);
      ChangedThrough(st, before, before.Dropped(kind, last));
      OnlyDropped(st, kind, names[..|names| - 1], ids);
      OnlyDroppedOne(before, kind, last, ids);
    }
  }

  lemma OnlyDroppedOne(st: State, kind: DropKind, name: ObjectName, ids: set<nat>)
    requires st.Valid() && Changed(st, st.Dropped(kind, name)) <= ids
    ensures Only(st.Dropped(kind, name), ids) == Only(st, ids).Dropped(kind, name)
  {
    hide Only, State.Dropped, State.Valid, Changed, Cleared, State.Dying;
    if Split(name).None? {
      NoNameClears(st, name, kind);
      NoNameClears(Only(st, ids), name, kind);
    } else {
      var key, which := Split(name).value.1, if kind.DropIndex? then Indexes else Relations;
      ClearedForms(st, name, kind);
      ClearedForms(Only(st, ids), name, kind);
      NamedAreObjects(st, which);
      ClearedChanges(st, which, key);
      if !NamesOtherSchema(Split(name).value.0) && !kind.DropOther? {
        OnlyCleared(st, which, key, ids);
      }
    }
  }

  lemma OnlyReplaced(st: State, name: ObjectName, orReplace: bool, ids: set<nat>)
    requires st.Valid()
    ensures Changed(st, st.ViewReplaced(name, orReplace)) <= ids ==>
        Only(st.ViewReplaced(name, orReplace), ids) == Only(st, ids).ViewReplaced(name, orReplace)
    ensures Changed(st, st.TriggerDropped(name)) <= ids ==>
        Only(st.TriggerDropped(name), ids) == Only(st, ids).TriggerDropped(name)
  {
    hide State.Valid, Cleared, State.ViewReplaced, State.TriggerDropped, Changed, State.Dying, Only;
    if Split(name).None? {
      NoNameClears(st, name, DropTable);
      NoNameClears(Only(st, ids), name, DropTable);
    } else {
      var key := Split(name).value.1;
      ClearedForms(st, name, DropTable);
      ClearedForms(Only(st, ids), name, DropTable);
      NamedAreObjects(st, Relations);
      NamedAreObjects(st, Triggers);
      ClearedChanges(st, Relations, key);
      ClearedChanges(st, Triggers, key);
      if Changed(st, Cleared(st, Relations, key)) <= ids {
        OnlyCleared(st, Relations, key, ids);
      }
      if Changed(st, Cleared(st, Triggers, key)) <= ids {
        OnlyCleared(st, Triggers, key, ids);
      }
    }
  }

  lemma OnlyView(st: State, name: ObjectName, orReplace: bool, shape: Shape, ids: set<nat>)
    requires st.Valid()
    requires Changed(st, st.ViewReplaced(name, orReplace).Created(name, false, shape)) <= ids
    ensures Only(st.ViewReplaced(name, orReplace).Created(name, false, shape), ids)
         == Only(st, ids).ViewReplaced(name, orReplace).Created(name, false, shape)
  {
    hide State.Valid, State.ViewReplaced, State.Created, Changed, Only, Evolves;
    var replaced := st.ViewReplaced(name, orReplace);
    ReplacedEvolves(st, name, orReplace);
    CreatedEvolves(replaced, name, false, shape);
    ChangedThrough(st, replaced, replaced.Created(name, false, shape));
    OnlyReplaced(st, name, orReplace, ids);
    OnlyCreated(replaced, name, false, shape, ids);
  }

  lemma OnlyTrigger(st: State, t: Statement, ids: set<nat>)
    requires st.Valid() && t.CreateTrigger?
    requires Changed(st, st.TriggerCreated(t)) <= ids && st.ReadBy(t) <= ids
    ensures Only(st.TriggerCreated(t), ids) == Only(st, ids).TriggerCreated(t)
    ensures Split(t.name).Some? ==> Only(st, ids).Relation(t.table) == st.Relation(t.table)
  {
    hide State.Valid, State.TriggerDropped, State.Entered, Changed, Spared, Evolves, State.Relation;
    OnlyRelation(st, t.table, ids);
    if Split(t.name).Some? && st.OwnerOf(t.table).Some? {
      var key, owner := Split(t.name).value.1, st.OwnerOf(t.table).value;
      var shape := TriggerShape(owner, t.events, t.body);
      var cleared := if t.orReplace then st.TriggerDropped(t.name) else st;
      NothingChanged(st);
      ReplacedEvolves(st, t.name, false);
      EnteredEvolves(cleared, key, shape);
      ChangedThrough(st, cleared, cleared.Entered(key, shape));
      OnlyReplaced(st, t.name, false, ids);
      assert |cleared.objects| in Changed(cleared, cleared.Entered(key, shape));
      OnlyEntered(cleared, key, shape, ids);
    }
  }

  lemma OnlyIndex(st: State, name: Option<ObjectName>, table: ObjectName, ids: set<nat>)
    requires Changed(st, st.IndexCreated(name, table)) <= ids && st.ReadBy(Statement.CreateIndex(name, table)) <= ids
    ensures Only(st.IndexCreated(name, table), ids) == Only(st, ids).IndexCreated(name, table)
  {
    hide State.Entered, Changed, Spared, Evolves, State.Relation;
    OnlyRelation(st, table, ids);
    if st.Relation(table).Some? && name.Some? && Split(name.value).Some? {
      var key, shape := Split(name.value).value.1, IndexShape(st.Relation(table).value);
      EnteredEvolves(st, key, shape);
      assert |st.objects| in Changed(st, st.Entered(key, shape));
      OnlyEntered(st, key, shape, ids);
    }
  }

  lemma OnlyAlter(st: State, name: ObjectName, renames: seq<Option<ObjectName>>, ids: set<nat>)
    requires st.Altered(AlterTable(name, renames)) <= ids
    ensures Only(st.After(AlterTable(name, renames)), ids) == Only(st, ids).After(AlterTable(name, renames))
  {
    hide Spared, State.Relation, State.Renamed;
    OnlyRelation(st, name, ids);
    if st.Relation(name).Some? {
      assert st.Relation(name).value in st.Altered(AlterTable(name, renames));
      OnlyRenamed(st, name, renames, st.Relation(name).value, ids);
    }
  }

  /** A statement that keeps to `ids`, and skips nothing, does among them what
      it does among all. */
  lemma OnlyAfter(st: State, statement: Statement, ids: set<nat>)
    requires st.Valid() && !Skips(st, statement)
    requires Changed(st, st.After(statement)) + st.Altered(statement) + st.ReadBy(statement) <= ids
    ensures Only(st.After(statement), ids) == Only(st, ids).After(statement)
  {
    hide State.Valid, Changed, Only, State.Created, State.ViewReplaced, State.TriggerCreated, State.TriggerDropped,
         State.IndexCreated, State.DroppedAll, State.Renamed;
    match statement
    case CreateTable(name, temporary, ifNotExists, _) =>
      if IsTemporary(temporary, name) {
        OnlyCreated(st, name, ifNotExists, TableShape, ids);
      }
    case CreateVirtualTable(name, ifNotExists) =>
      if IsTemporary(false, name) {
        OnlyCreated(st, name, ifNotExists, TableShape, ids);
      }
    case CreateView(name, temporary, orReplace, bases) =>
      if IsTemporary(temporary, name) {
        OnlyView(st, name, orReplace, ViewShape(bases), ids);
      }
    case CreateTrigger(name, temporary, _, table, _, _) =>
      TriggerElsewhere(st, statement, ids);
      if temporary || st.Relation(table).Some? {
        OnlyTrigger(st, statement, ids);
      }
    case CreateIndex(name, table) => OnlyIndex(st, name, table, ids);
    case Drop(kind, names) => OnlyDropped(st, kind, names, ids);
    case DropTrigger(name) => OnlyReplaced(st, name, false, ids);
    case AlterTable(name, renames) => OnlyAlter(st, name, renames, ids);
    case Rows(_) | OtherStatement =>
  }

  lemma TriggerElsewhere(st: State, t: Statement, ids: set<nat>)
    requires t.CreateTrigger? && st.ReadBy(t) <= ids
    ensures Split(t.name).None? ==> st.TriggerCreated(t) == st && Only(st, ids).TriggerCreated(t) == Only(st, ids)
    ensures Split(t.name).Some? ==> Only(st, ids).Relation(t.table) == st.Relation(t.table)
  {
    OnlyRelation(st, t.table, ids);
  }

  // ---------------------------------------------------------------------
  // One statement of a unit left out
  // ---------------------------------------------------------------------

  /** Every name among `ids` stands for a live object. */
  predicate LiveAmong(st: State, ids: set<nat>) {
    forall which: Which, key: string :: key in NamesOf(st, which) && NamesOf(st, which)[key] in ids ==>
      NamesOf(st, which)[key] < |st.objects| && st.objects[NamesOf(st, which)[key]].alive
  }

  lemma OtherName(st: State, which: Which, key: string, ids: set<nat>)
    requires LiveAmong(st, ids) && key in NamesOf(st, which) && st.Dying(NamesOf(st, which)[key]) !! ids
    ensures NamesOf(st, which)[key] !in ids
  {
  }

  lemma OtherClearedName(st: State, which: Which, key: string, ids: set<nat>)
    requires st.Valid() && LiveAmong(st, ids) && Changed(st, Cleared(st, which, key)) !! ids
    ensures Only(Cleared(st, which, key), ids) == Only(st, ids) && LiveAmong(Cleared(st, which, key), ids)
  {
    hide State.Valid, Changed, State.Dying, Only, LiveAmong, Cleared;
    NamedAreObjects(st, which);
    ClearedChanges(st, which, key);
    if key in NamesOf(st, which) {
      OtherName(st, which, key, ids);
    }
    OtherCleared(st, which, key, ids);
    SameAmong(st, Cleared(st, which, key), ids);
  }

  /** What is live among `ids` shows among them alone. */
  lemma SameAmong(st: State, next: State, ids: set<nat>)
    requires LiveAmong(st, ids) && Only(next, ids) == Only(st, ids)
    ensures LiveAmong(next, ids)
  {
    forall which: Which, key: string | key in NamesOf(next, which) && NamesOf(next, which)[key] in ids
      ensures NamesOf(next, which)[key] < |next.objects| && next.objects[NamesOf(next, which)[key]].alive
    {
      var id := NamesOf(next, which)[key];
      assert key in NamesOf(Only(next, ids), which) && NamesOf(Only(next, ids), which)[key] == id;
      assert key in NamesOf(st, which) && NamesOf(st, which)[key] == id;
      assert Only(next, ids).objects[id] == Only(st, ids).objects[id];
    }
  }

  lemma OtherCreated(st: State, name: ObjectName, ifNotExists: bool, shape: Shape, ids: set<nat>)
    requires (shape.TableShape? || shape.ViewShape?)
        && (HeldRelation(st, name) ==> ifNotExists || st.relations[Split(name).value.1] !in ids)
    requires Changed(st, st.Created(name, ifNotExists, shape)) !! ids
    ensures var next := st.Created(name, ifNotExists, shape); Only(next, ids) == Padded(Only(st, ids), next.objects)
  {
    hide Spared, State.Entered;
    PaddedNone(st, ids);
    if Split(name).Some? && !(ifNotExists && HeldRelation(st, name)) {
      EnteredEvolves(st, Split(name).value.1, shape);
      assert |st.objects| in Changed(st, st.Entered(Split(name).value.1, shape));
      OtherEntered(st, Split(name).value.1, shape, ids);
    }
  }

  lemma OtherReplaced(st: State, name: ObjectName, orReplace: bool, ids: set<nat>)
    requires st.Valid() && LiveAmong(st, ids)
    ensures Changed(st, st.ViewReplaced(name, orReplace)) !! ids ==>
        Only(st.ViewReplaced(name, orReplace), ids) == Only(st, ids)
    ensures Changed(st, st.TriggerDropped(name)) !! ids ==> Only(st.TriggerDropped(name), ids) == Only(st, ids)
  {
    hide State.Valid, Cleared, State.ViewReplaced, State.TriggerDropped, Changed, State.Dying, Only, LiveAmong;
    if Split(name).None? {
      NoNameClears(st, name, DropTable);
    } else {
      var key := Split(name).value.1;
      ClearedForms(st, name, DropTable);
      if Changed(st, Cleared(st, Relations, key)) !! ids {
        OtherClearedName(st, Relations, key, ids);
      }
      if Changed(st, Cleared(st, Triggers, key)) !! ids {
        OtherClearedName(st, Triggers, key, ids);
      }
    }
  }

  lemma OtherView(st: State, name: ObjectName, orReplace: bool, shape: Shape, ids: set<nat>)
    requires st.Valid() && LiveAmong(st, ids) && shape.ViewShape? && (HeldRelation(st, name) ==> orReplace)
    requires Changed(st, st.ViewReplaced(name, orReplace).Created(name, false, shape)) !! ids
    ensures var next := st.ViewReplaced(name, orReplace).Created(name, false, shape);
        Only(next, ids) == Padded(Only(st, ids), next.objects)
  {
    hide State.Valid, State.ViewReplaced, State.Created, Changed, Only, Evolves, LiveAmong;
    var replaced := st.ViewReplaced(name, orReplace);
    ReplacedEvolves(st, name, orReplace);
    CreatedEvolves(replaced, name, false, shape);
    ChangedThrough(st, replaced, replaced.Created(name, false, shape));
    OtherReplaced(st, name, orReplace, ids);
    ReplacedClears(st, name, orReplace);
    OtherCreated(replaced, name, false, shape, ids);
  }

  lemma OtherTrigger(st: State, t: Statement, ids: set<nat>)
    requires st.Valid() && LiveAmong(st, ids) && t.CreateTrigger? && !Lands(st, t)
    requires Changed(st, st.TriggerCreated(t)) !! ids
    ensures var next := st.TriggerCreated(t); Only(next, ids) == Padded(Only(st, ids), next.objects)
  {
    hide State.Valid, State.TriggerDropped, State.Entered, Changed, Spared, Evolves, State.Relation, LiveAmong;
    PaddedNone(st, ids);
    if Split(t.name).Some? && st.OwnerOf(t.table).Some? {
      var key := Split(t.name).value.1;
      var shape := TriggerShape(st.OwnerOf(t.table).value, t.events, t.body);
      var cleared := if t.orReplace then st.TriggerDropped(t.name) else st;
      NothingChanged(st);
      ReplacedEvolves(st, t.name, false);
      EnteredEvolves(cleared, key, shape);
      ChangedThrough(st, cleared, cleared.Entered(key, shape));
      OtherReplaced(st, t.name, false, ids);
      ReplacedClears(st, t.name, false);
      assert |cleared.objects| in Changed(cleared, cleared.Entered(key, shape));
      OtherEntered(cleared, key, shape, ids);
    }
  }

  lemma OtherIndex(st: State, name: Option<ObjectName>, table: ObjectName, ids: set<nat>)
    requires !Lands(st, Statement.CreateIndex(name, table)) && Changed(st, st.IndexCreated(name, table)) !! ids
    ensures var next := st.IndexCreated(name, table); Only(next, ids) == Padded(Only(st, ids), next.objects)
  {
    hide State.Entered, Changed, Spared, Evolves, State.Relation;
    PaddedNone(st, ids);
    if st.Relation(table).Some? && name.Some? && Split(name.value).Some? {
      var key, shape := Split(name.value).value.1, IndexShape(st.Relation(table).value);
      EnteredEvolves(st, key, shape);
      assert |st.objects| in Changed(st, st.Entered(key, shape));
      OtherEntered(st, key, shape, ids);
    }
  }

  lemma {:induction false} OtherRenamed(st: State, name: ObjectName, renames: seq<Option<ObjectName>>, id: nat,
      ids: set<nat>)
    requires id !in ids && (HeldRelation(st, name) ==> st.relations[Split(name).value.1] !in ids)
    requires forall k :: 0 <= k < |renames| && renames[k].Some? ==> !HeldRelation(st, renames[k].value)
    ensures Only(st.Renamed(name, renames, id), ids) == Only(st, ids)
    ensures st.Renamed(name, renames, id).objects == st.objects
  {
    hide Spared;
    if |renames| > 0 {
      OtherRenamed(st, name, renames[..|renames| - 1], id, ids);
      var before := st.Renamed(name, renames[..|renames| - 1], id);
      if renames[|renames| - 1].Some? && Split(name).Some? && Split(renames[|renames| - 1].value).Some? {
        var key, to_ := Split(name).value.1, Split(renames[|renames| - 1].value).value.1;
        NotAmong(st.relations, before.relations, key, ids);
        NotAmong(st.relations, before.relations, to_, ids);
        OnlyForgotten(before.relations, key, ids);
        OnlyNamed(before.relations - {key}, to_, id, ids);
      }
    }
  }

  lemma NotAmong(m: map<string, nat>, now: map<string, nat>, key: string, ids: set<nat>)
    requires Among(now, ids) == Among(m, ids) && (key in m ==> m[key] !in ids)
    ensures key in now ==> now[key] !in ids
  {
    assert key in now && now[key] in ids <==> key in Among(now, ids);
  }

  lemma {:induction false} OtherDropped(st: State, kind: DropKind, names: seq<ObjectName>, ids: set<nat>)
    requires st.Valid() && LiveAmong(st, ids) && Changed(st, st.DroppedAll(kind, names)) !! ids
    ensures Only(st.DroppedAll(kind, names), ids) == Only(st, ids)
  {
    hide Only, State.Dropped, State.Valid, Changed, Evolves, LiveAmong;
    if |names| > 0 {
      var before, last := st.DroppedAll(kind, names[..|names| - 1]), names[|names| - 1];
      DroppedAllEvolves(st, kind, names[..|names| - 1]);
      DroppedIsValid(before, kind, last);
      ChangedThrough(st, before, before.Dropped(kind, last));
      OtherDropped(st, kind, names[..|names| - 1], ids);
      SameAmong(st, before, ids);
      OtherDroppedOne(before, kind, last, ids);
    }
  }

  lemma OtherDroppedOne(st: State, kind: DropKind, name: ObjectName, ids: set<nat>)
    requires st.Valid() && LiveAmong(st, ids) && Changed(st, st.Dropped(kind, name)) !! ids
    ensures Only(st.Dropped(kind, name), ids) == Only(st, ids)
  {
    hide Only, State.Dropped, State.Valid, Changed, Cleared, LiveAmong;
    if Split(name).None? {
      NoNameClears(st, name, kind);
    } else {
      ClearedForms(st, name, kind);
      if !NamesOtherSchema(Split(name).value.0) && !kind.DropOther? {
        OtherClearedName(st, if kind.DropIndex? then Indexes else Relations, Split(name).value.1, ids);
      }
    }
  }

  lemma OtherAlter(st: State, name: ObjectName, renames: seq<Option<ObjectName>>, ids: set<nat>)
    requires st.Altered(AlterTable(name, renames)) !! ids && !Lands(st, AlterTable(name, renames))
    ensures Only(st.After(AlterTable(name, renames)), ids) == Only(st, ids)
    ensures st.After(AlterTable(name, renames)).objects == st.objects
  {
    hide Spared, State.Renamed;
    if st.Relation(name).Some? {
      assert st.Relation(name).value in st.Altered(AlterTable(name, renames));
      OtherRenamed(st, name, renames, st.Relation(name).value, ids);
    }
  }

  /** A statement that keeps off `ids`, and lands on no name held, changes
      nothing among them. */
  lemma OtherAfter(st: State, statement: Statement, ids: set<nat>)
    requires st.Valid() && LiveAmong(st, ids) && !Lands(st, statement)
    requires Changed(st, st.After(statement)) + st.Altered(statement) !! ids
    ensures Only(st.After(statement), ids) == Padded(Only(st, ids), st.After(statement).objects)
  {
    hide State.Valid, Changed, Only, State.Created, State.ViewReplaced, State.TriggerCreated, State.TriggerDropped,
         State.IndexCreated, State.DroppedAll, State.Renamed, LiveAmong, HeldRelation;
    PaddedNone(st, ids);
    match statement
    case CreateTable(name, temporary, ifNotExists, _) =>
      if IsTemporary(temporary, name) {
        OtherCreated(st, name, ifNotExists, TableShape, ids);
      }
    case CreateVirtualTable(name, ifNotExists) =>
      if IsTemporary(false, name) {
        OtherCreated(st, name, ifNotExists, TableShape, ids);
      }
    case CreateView(name, temporary, orReplace, bases) =>
      if IsTemporary(temporary, name) {
        OtherView(st, name, orReplace, ViewShape(bases), ids);
      }
    case CreateTrigger(_, temporary, _, table, _, _) =>
      if temporary || st.Relation(table).Some? {
        OtherTrigger(st, statement, ids);
      }
    case CreateIndex(name, table) => OtherIndex(st, name, table, ids);
    case Drop(kind, names) =>
      OtherDropped(st, kind, names, ids);
      DroppedKeepsCount(st, kind, names, ids);
    case DropTrigger(name) =>
      OtherReplaced(st, name, false, ids);
      TriggerKeepsCount(st, name, ids);
    case AlterTable(name, renames) => OtherAlter(st, name, renames, ids);
    case Rows(_) | OtherStatement =>
  }

  lemma {:induction false} DroppedKeepsCount(st: State, kind: DropKind, names: seq<ObjectName>, ids: set<nat>)
    ensures |st.DroppedAll(kind, names).objects| == |st.objects|
    ensures Padded(Only(st, ids), st.DroppedAll(kind, names).objects) == Only(st, ids)
  {
    if |names| > 0 {
      DroppedKeepsCount(st, kind, names[..|names| - 1], ids);
    }
  }

  lemma TriggerKeepsCount(st: State, name: ObjectName, ids: set<nat>)
    ensures Padded(Only(st, ids), st.TriggerDropped(name).objects) == Only(st, ids)
  {
  }

  // ---------------------------------------------------------------------
  // Units
  // ---------------------------------------------------------------------

  lemma StatementCovers(st: State, statement: Statement, before: Footprint, after: Footprint)
    requires StatementEffects(st, statement, before, after)
    ensures Demands(before) <= Demands(after) && Ids(before.touches) <= Ids(after.touches)
    ensures Changed(st, st.After(statement)) + st.Altered(statement) <= Ids(after.touches)
    ensures st.ReadBy(statement) <= Demands(after)
  {
    if statement.Rows? {
      NothingChanged(st);
    }
  }

  /** What a unit emits that is connection-local. */
  function Locals(unit: seq<Statement>, local: Statement -> bool): seq<Statement> {
    if |unit| == 0 then []
    else Locals(unit[..|unit| - 1], local) + if local(unit[|unit| - 1]) then [unit[|unit| - 1]] else []
  }

  /** What is not connection-local leaves the catalogue alone. */
  predicate OthersIdle(st: State, unit: seq<Statement>, local: Statement -> bool) {
    forall j :: 0 <= j < |unit| && !local(unit[j]) ==> st.AfterAll(unit[..j]).After(unit[j]) == st.AfterAll(unit[..j])
  }

  lemma LocalsOne(unit: seq<Statement>, local: Statement -> bool, st: State)
    requires |unit| > 0
    ensures var before := Locals(unit[..|unit| - 1], local);
            st.AfterAll(Locals(unit, local)) == if local(unit[|unit| - 1])
              then st.AfterAll(before).After(unit[|unit| - 1]) else st.AfterAll(before)
  {
    hide State.After;
    if local(unit[|unit| - 1]) {
      var before := Locals(unit[..|unit| - 1], local);
      assert Locals(unit, local) == before + [unit[|unit| - 1]];
      assert (before + [unit[|unit| - 1]])[..|before|] == before;
    } else {
      assert Locals(unit, local) == Locals(unit[..|unit| - 1], local);
    }
  }

  /** Through a unit that keeps to `ids`, its connection-local statements do
      among them what all of it does among all. */
  lemma {:induction false} OnlyAfterLocals(st: State, unit: seq<Statement>, local: Statement -> bool,
      footprint: Footprint, ids: set<nat>)
    requires st.Valid() && (forall j :: 0 <= j < |unit| ==> WellFormed(unit[j])) && SkipsNothing(st, unit)
        && OthersIdle(st, unit, local)
    requires UnitEffects(st, unit, footprint) && Demands(footprint) <= ids
    ensures forall j :: 0 <= j <= |unit| ==>
        Only(st.AfterAll(unit[..j]), ids) == Only(st, ids).AfterAll(Locals(unit[..j], local))
  {
    hide State.Valid, State.After, State.AfterAll, Changed, Only, StatementEffects, WellFormed, Skips, Demands,
         State.Altered, State.ReadBy, Locals;
    NoUnit(st, local);
    NoUnit(Only(st, ids), local);
    assert unit[..|unit|] == unit && unit[..0] == [];
    if |unit| > 0 {
      var prefix, last := unit[..|unit| - 1], unit[|unit| - 1];
      var st' := st.AfterAll(prefix);
      UnitOne(st, unit);
      var before :| UnitEffects(st, prefix, before) && StatementEffects(st', last, before, footprint);
      StatementCovers(st', last, before, footprint);
      TouchesDemanded(footprint);
      assert forall j :: 0 <= j <= |prefix| ==> prefix[..j] == unit[..j];
      OnlyAfterLocals(st, prefix, local, before, ids);
      assert prefix[..|prefix|] == prefix;
      AfterAllIsValid(st, prefix);
      assert !Skips(st.AfterAll(unit[..|unit| - 1]), unit[|unit| - 1]);
      OnlyAfter(st', last, ids);
      LocalsOne(unit, local, Only(st, ids));
    }
  }

  lemma NoUnit(st: State, local: Statement -> bool)
    ensures st.AfterAll([]) == st && st.AfterAll(Locals([], local)) == st
  {
  }

  lemma UnitOne(st: State, unit: seq<Statement>)
    requires |unit| > 0
    ensures st.AfterAll(unit) == st.AfterAll(unit[..|unit| - 1]).After(unit[|unit| - 1])
  {
  }

  lemma TouchesDemanded(footprint: Footprint)
    ensures Ids(footprint.touches) <= Demands(footprint)
  {
  }

  lemma SamePadded(st: State, next: State, ids: set<nat>)
    requires LiveAmong(st, ids) && Only(next, ids) == Padded(Only(st, ids), next.objects)
    ensures LiveAmong(next, ids)
  {
    forall which: Which, key: string | key in NamesOf(next, which) && NamesOf(next, which)[key] in ids
      ensures NamesOf(next, which)[key] < |next.objects| && next.objects[NamesOf(next, which)[key]].alive
    {
      var id := NamesOf(next, which)[key];
      assert key in NamesOf(Only(next, ids), which) && NamesOf(Only(next, ids), which)[key] == id;
      assert key in NamesOf(st, which) && NamesOf(st, which)[key] == id;
      assert Only(next, ids).objects[id] == Only(st, ids).objects[id];
    }
  }

  lemma {:induction false} OtherAfterAll(st: State, unit: seq<Statement>, footprint: Footprint, ids: set<nat>)
    requires st.Valid() && (forall j :: 0 <= j < |unit| ==> WellFormed(unit[j])) && LandsNowhere(st, unit)
        && LiveAmong(st, ids)
    requires UnitEffects(st, unit, footprint) && Ids(footprint.touches) !! ids
    ensures Only(st.AfterAll(unit), ids) == Padded(Only(st, ids), st.AfterAll(unit).objects)
  {
    hide State.Valid, State.After, Changed, Only, StatementEffects, WellFormed, Lands, LiveAmong, Padded,
         State.Altered, State.ReadBy;
    if |unit| == 0 {
      PaddedNone(st, ids);
    } else {
      var prefix, last := unit[..|unit| - 1], unit[|unit| - 1];
      var st' := st.AfterAll(prefix);
      var before :| UnitEffects(st, prefix, before) && StatementEffects(st', last, before, footprint);
      StatementCovers(st', last, before, footprint);
      assert forall j :: 0 <= j < |prefix| ==> prefix[..j] == unit[..j];
      OtherAfterAll(st, prefix, before, ids);
      AfterAllIsValid(st, prefix);
      SamePadded(st, st', ids);
      assert !Lands(st.AfterAll(unit[..|unit| - 1]), unit[|unit| - 1]);
      OtherAfter(st', last, ids);
      AfterIsValid(st', last);
      EvolvedShapes(st', st'.After(last));
      PaddedTwice(Only(st, ids), st'.objects, st'.After(last).objects);
    }
  }

  lemma EvolvedShapes(st: State, next: State)
    requires Evolves(st, next)
    ensures |st.objects| <= |next.objects|
        && forall i :: 0 <= i < |st.objects| ==> st.objects[i].shape == next.objects[i].shape
  {
  }

  // ---------------------------------------------------------------------
  // The slice
  // ---------------------------------------------------------------------

  /** A batch SQLite runs as it is recorded: no committed statement creates or
      renames to a name that is held, an ALTER renames at most once, and no
      IF NOT EXISTS in a kept unit finds its name held. */
  predicate Tidy(units: seq<Unit>, outcomes: seq<Outcome>, kept: seq<bool>)
    requires |units| == |outcomes| == |kept|
  {
    forall i :: 0 <= i < |units| && outcomes[i] == Committed ==>
      var st := CatalogAt(units, outcomes, i);
      && LandsNowhere(st, units[i].emitted)
      && (forall j :: 0 <= j < |units[i].emitted| ==> OneRename(units[i].emitted[j]))
      && (kept[i] ==> SkipsNothing(st, units[i].emitted))
  }

  /** In a kept unit, what is not connection-local leaves the catalogue alone. */
  predicate KeptIdle(units: seq<Unit>, outcomes: seq<Outcome>, kept: seq<bool>, local: Statement -> bool)
    requires |units| == |outcomes| == |kept|
  {
    forall i :: 0 <= i < |units| && kept[i] ==> OthersIdle(CatalogAt(units, outcomes, i), units[i].emitted, local)
  }

  predicate AllWellFormed(units: seq<Unit>) {
    forall i, j :: 0 <= i < |units| && 0 <= j < |units[i].emitted| ==> WellFormed(units[i].emitted[j])
  }

  /** The catalogue the program builds, whose statements are the kept units'
      connection-local ones; objects are numbered as in the batch. */
  function SlicedAt(units: seq<Unit>, outcomes: seq<Outcome>, kept: seq<bool>, local: Statement -> bool, n: nat): State
    requires n <= |units| == |outcomes| == |kept|
  {
    if n == 0 then State([], map[], map[], map[])
    else
      var before := SlicedAt(units, outcomes, kept, local, n - 1);
      if kept[n - 1] then before.AfterAll(Locals(units[n - 1].emitted, local))
      else Padded(before, CatalogAt(units, outcomes, n).objects)
  }

  lemma {:induction false} CatalogIsValid(units: seq<Unit>, outcomes: seq<Outcome>, n: nat)
    requires n <= |units| == |outcomes| && AllWellFormed(units)
    ensures CatalogAt(units, outcomes, n).Valid()
  {
    hide State.AfterAll, WellFormed;
    if n > 0 {
      CatalogIsValid(units, outcomes, n - 1);
      AfterAllIsValid(CatalogAt(units, outcomes, n - 1), units[n - 1].emitted);
    }
  }

  /** In a tidy batch every name always stands for a live object of its own. */
  lemma {:induction false} CatalogIsSound(units: seq<Unit>, outcomes: seq<Outcome>, kept: seq<bool>, n: nat)
    requires n <= |units| == |outcomes| == |kept| && AllWellFormed(units) && Tidy(units, outcomes, kept)
    ensures Sound(CatalogAt(units, outcomes, n))
  {
    hide State.AfterAll, WellFormed, LandsNowhere, SkipsNothing, OneRename;
    if n > 0 {
      CatalogIsSound(units, outcomes, kept, n - 1);
      CatalogIsValid(units, outcomes, n - 1);
      if outcomes[n - 1] == Committed {
        AfterAllIsSound(CatalogAt(units, outcomes, n - 1), units[n - 1].emitted);
      }
    }
  }

  /** It is the batch's catalogue, down to the needed objects. */
  lemma {:induction false} SliceIsCatalogue(units: seq<Unit>, d: Derivation, local: Statement -> bool, alive: set<nat>,
      needed: set<nat>, n: nat)
    requires n <= |units| == |d.outline.outcomes| == |d.kept| == |d.effects| && AllWellFormed(units)
    requires Recorded(units, d.outline.outcomes, d.effects, |units|)
        && RetentionClosed(alive, d.effects, needed, Flagged(d.kept))
    requires forall i :: 0 <= i < |units| && d.kept[i] ==> d.outline.outcomes[i] == Committed
    requires Tidy(units, d.outline.outcomes, d.kept) && KeptIdle(units, d.outline.outcomes, d.kept, local)
    ensures SlicedAt(units, d.outline.outcomes, d.kept, local, n)
        == Only(CatalogAt(units, d.outline.outcomes, n), needed)
  {
    hide State.AfterAll, WellFormed, Only, UnitEffects, State.Valid, Sound, LandsNowhere, SkipsNothing, OneRename,
         Padded, RetentionClosed, Flagged, Locals, OthersIdle;
    if n == 0 {
      NothingSliced(needed);
    } else {
      var i := n - 1;
      var st := CatalogAt(units, d.outline.outcomes, i);
      SliceIsCatalogue(units, d, local, alive, needed, i);
      CatalogIsValid(units, d.outline.outcomes, i);
      FlagIs(d.kept, i);
      if d.kept[i] {
        KeptDemandsNeeded(d.effects, alive, needed, Flagged(d.kept), i);
        OnlyAfterLocals(st, units[i].emitted, local, d.effects[i], needed);
        assert units[i].emitted[..|units[i].emitted|] == units[i].emitted;
      } else if d.outline.outcomes[i] == Committed {
        LeftOutTouchesOthers(d.effects, alive, needed, Flagged(d.kept), i);
        CatalogIsSound(units, d.outline.outcomes, d.kept, i);
        SoundIsLive(st, needed);
        OtherAfterAll(st, units[i].emitted, d.effects[i], needed);
      } else {
        PaddedNone(st, needed);
      }
    }
  }

  lemma NothingSliced(ids: set<nat>)
    ensures Only(State([], map[], map[], map[]), ids) == State([], map[], map[], map[])
  {
  }

  lemma SoundIsLive(st: State, ids: set<nat>)
    requires Sound(st)
    ensures LiveAmong(st, ids)
  {
  }

  lemma KeptDemandsNeeded(effects: seq<Footprint>, alive: set<nat>, needed: set<nat>, retained: set<nat>, i: nat)
    requires RetentionClosed(alive, effects, needed, retained) && i < |effects| && i in retained
    ensures Demands(effects[i]) <= needed
  {
  }

  lemma LeftOutTouchesOthers(effects: seq<Footprint>, alive: set<nat>, needed: set<nat>, retained: set<nat>, i: nat)
    requires RetentionClosed(alive, effects, needed, retained) && i < |effects| && i !in retained
    ensures Ids(effects[i].touches) !! needed
  {
    assert !Meets(effects[i].touches, needed);
  }

  /** What the program has at the start of a kept unit, and through it. */
  lemma {:induction false} SliceWithinUnit(units: seq<Unit>, d: Derivation, local: Statement -> bool, needed: set<nat>,
      i: nat, j: nat)
    requires Derived(units, d) && AllWellFormed(units) && i < |units| && d.kept[i] && j <= |units[i].emitted|
    requires Tidy(units, d.outline.outcomes, d.kept) && KeptIdle(units, d.outline.outcomes, d.kept, local)
    requires IsRetention(Survivors(units, d.outline.outcomes), d.effects, needed, Flagged(d.kept))
    ensures Demands(d.effects[i]) <= needed
    ensures SlicedAt(units, d.outline.outcomes, d.kept, local, i).AfterAll(Locals(units[i].emitted[..j], local))
         == Only(CatalogAt(units, d.outline.outcomes, i).AfterAll(units[i].emitted[..j]), needed)
  {
    hide IsRetention, WellFormed, State.AfterAll, Only, UnitEffects, LandsNowhere, SkipsNothing, OneRename, OthersIdle,
         IsOutline, Created, Locals, State.Valid;
    var outcomes := d.outline.outcomes;
    OutcomeLengths(SourcesOf(units), d.outline);
    KeptAreSound(units, d, needed);
    SliceIsCatalogue(units, d, local, Survivors(units, outcomes), needed, i);
    KeptDemandsNeeded(d.effects, Survivors(units, outcomes), needed, Flagged(d.kept), i);
    CatalogIsValid(units, outcomes, i);
    OnlyAfterLocals(CatalogAt(units, outcomes, i), units[i].emitted, local, d.effects[i], needed);
  }

  lemma {:induction false} KeptAreSound(units: seq<Unit>, d: Derivation, needed: set<nat>)
    requires Derived(units, d) && IsRetention(Survivors(units, d.outline.outcomes), d.effects, needed, Flagged(d.kept))
    ensures |d.outline.outcomes| == |d.kept| == |d.effects| == |units|
    ensures RetentionClosed(Survivors(units, d.outline.outcomes), d.effects, needed, Flagged(d.kept))
    ensures forall i :: 0 <= i < |units| && d.kept[i] ==> d.outline.outcomes[i] == Committed
    ensures forall i :: 0 <= i < |units| && d.kept[i] ==> i in Flagged(d.kept)
  {
    hide Recorded, Created, IsRetention, IsOutline;
    OutcomeLengths(SourcesOf(units), d.outline);
    RetentionIsClosed(Survivors(units, d.outline.outcomes), d.effects, needed, Flagged(d.kept));
    KeptAreCommitted(units, d.outline, d.effects, Survivors(units, d.outline.outcomes), needed, Flagged(d.kept));
    FlagsAreKept(d.kept);
  }

  /** In a tidy batch every name that a statement of a kept unit finds standing
      for an object its unit touches or reads stands in the program for the same
      object, and a name that stood for none stands for none. */
  lemma {:induction false} NamesResolveAlike(units: seq<Unit>, d: Derivation, local: Statement -> bool, i: nat, j: nat,
      name: ObjectName)
    requires Derived(units, d) && AllWellFormed(units) && i < |units| && d.kept[i] && j <= |units[i].emitted|
    requires Tidy(units, d.outline.outcomes, d.kept) && KeptIdle(units, d.outline.outcomes, d.kept, local)
    ensures
      var batch := CatalogAt(units, d.outline.outcomes, i).AfterAll(units[i].emitted[..j]).Relation(name);
      var slice := SlicedAt(units, d.outline.outcomes, d.kept, local,
        i).AfterAll(Locals(units[i].emitted[..j], local)).Relation(name);
      (batch.Some? && batch.value in Demands(d.effects[i]) ==> slice == batch) && (slice.Some? ==> slice == batch)
  {
    hide IsRetention, Tidy, KeptIdle, WellFormed, State.Relation, State.AfterAll, SlicedAt, CatalogAt, Only, Recorded,
         Created, IsOutline, Locals;
    OutcomeLengths(SourcesOf(units), d.outline);
    var needed :| IsRetention(Survivors(units, d.outline.outcomes), d.effects, needed, Flagged(d.kept));
    SliceWithinUnit(units, d, local, needed, i, j);
    OnlyRelation(CatalogAt(units, d.outline.outcomes, i).AfterAll(units[i].emitted[..j]), name, needed);
  }

  /** In the end exactly the survivors are left alive, and every name of theirs
      stands for them in the program too. */
  lemma {:induction false} SurvivorsAreNamedAlike(units: seq<Unit>, d: Derivation, local: Statement -> bool,
      name: ObjectName)
    requires Derived(units, d) && AllWellFormed(units)
    requires Tidy(units, d.outline.outcomes, d.kept) && KeptIdle(units, d.outline.outcomes, d.kept, local)
    ensures SlicedAt(units, d.outline.outcomes, d.kept, local, |units|).Relation(name)
        == CatalogAt(units, d.outline.outcomes, |units|).Relation(name)
    ensures AliveIds(SlicedAt(units, d.outline.outcomes, d.kept, local, |units|).objects)
        == Survivors(units, d.outline.outcomes)
  {
    hide IsRetention, Tidy, KeptIdle, WellFormed, State.Relation, SlicedAt, CatalogAt, Only, Recorded, Created,
         IsOutline, Sound;
    var outcomes := d.outline.outcomes;
    OutcomeLengths(SourcesOf(units), d.outline);
    var needed :| IsRetention(Survivors(units, outcomes), d.effects, needed, Flagged(d.kept));
    KeptAreSound(units, d, needed);
    SliceIsCatalogue(units, d, local, Survivors(units, outcomes), needed, |units|);
    AliveAmong(CatalogAt(units, outcomes, |units|), needed);
    OnlyRelation(CatalogAt(units, outcomes, |units|), name, needed);
    CatalogIsSound(units, outcomes, d.kept, |units|);
    if CatalogAt(units, outcomes, |units|).Relation(name).Some? {
      NamedIsAlive(CatalogAt(units, outcomes, |units|), name);
    }
  }

  lemma NamedIsAlive(st: State, name: ObjectName)
    requires Sound(st) && st.Relation(name).Some?
    ensures st.Relation(name).value in AliveIds(st.objects)
  {
  }

  lemma AliveAmong(st: State, ids: set<nat>)
    ensures AliveIds(Only(st, ids).objects) == AliveIds(st.objects) * ids
  {
  }

  // ---------------------------------------------------------------------
  // A name landed on
  // ---------------------------------------------------------------------

  /** CREATE TEMP TABLE t twice, and DROP TABLE t. */
  const LANDING := [Unit(Other, [CREATE]), Unit(Other, [CREATE]), Unit(Other, [DROP])]

  const LANDED := Derivation(Outline([Committed, Committed, Committed], [None, None, None]), [FIRST, SECOND, SECOND],
    [true, false, false])

  const BOTH := State([Object(TableShape, true), Object(TableShape, true)], map["t" := 1], map[], map[])
  const UNNAMED := State([Object(TableShape, true), Object(TableShape, false)], map[], map[], map[])

  lemma LandingCatalogues()
    ensures HELD.After(CREATE) == BOTH && BOTH.After(DROP) == UNNAMED
  {
    assert Lower("t") == "t";
    assert ["t"][|["t"]| - 1] == "t";
    assert HELD.After(CREATE) == HELD.Entered("t", TableShape);
    var rest := BOTH.(relations := BOTH.relations - {"t"});
    assert BOTH.DropTarget(DropTable, ["t"]) == Some(("t", 1));
    assert BOTH.Dropped(DropTable, ["t"]) == rest.Retired(1);
    assert rest.Attached(1) == {} && rest.Dying(1) == {1};
    assert rest.Retired(1) == UNNAMED;
    assert [["t"]][..0] == [];
    assert BOTH.DroppedAll(DropTable, []) == BOTH;
    assert BOTH.DroppedAll(DropTable, [["t"]]) == BOTH.Dropped(DropTable, ["t"]);
  }

  lemma SecondEffects()
    ensures UnitEffects(HELD, [CREATE], SECOND) && HELD.AfterAll([CREATE]) == BOTH
  {
    LandingCatalogues();
    assert Changed(HELD, BOTH) == {1};
    assert Ids([1]) == {1} && Ids([]) == {};
    OneStatement(HELD, CREATE, SECOND);
  }

  lemma LandingEffects()
    ensures UnitEffects(NOTHING, [CREATE], FIRST) && NOTHING.AfterAll([CREATE]) == HELD
    ensures UnitEffects(HELD, [CREATE], SECOND) && HELD.AfterAll([CREATE]) == BOTH
    ensures UnitEffects(BOTH, [DROP], SECOND) && BOTH.AfterAll([DROP]) == UNNAMED
  {
    hide UnitEffects, State.After, State.AfterAll;
    RecreateEffects();
    SecondEffects();
    LandingCatalogues();
    assert Changed(BOTH, UNNAMED) == {1};
    assert Ids([1]) == {1} && Ids([]) == {};
    OneStatement(BOTH, DROP, SECOND);
  }

  lemma LandingOutline()
    ensures IsOutline(SourcesOf(LANDING), LANDED.outline)
  {
    var sources := SourcesOf(LANDING);
    assert LogRun(sources, 0) == Session([], None, 0);
    assert LogRun(sources, 1) == Session([0], None, 0) by { assert [] + [0] == [0]; }
    assert LogRun(sources, 2) == Session([0, 1], None, 0) by { assert [0] + [1] == [0, 1]; }
    assert LogRun(sources, 3) == Session([0, 1, 2], None, 0) by { assert [0, 1] + [2] == [0, 1, 2]; }
  }

  lemma LandingRetention()
    ensures IsRetention({0}, LANDED.effects, {0}, {0})
  {
    var effects := LANDED.effects;
    assert Ids([0]) == {0} && Ids([1]) == {1} && Ids([]) == {};
    assert Demands(effects[0]) == {0} && Meets(effects[0].touches, {0}) by { assert 0 in effects[0].touches; }
    forall N: set<nat>, R: set<nat> | RetentionClosed({0}, effects, N, R) ensures {0} <= N && {0} <= R {
      assert 0 in effects[0].touches && 0 in N;
      assert Meets(effects[0].touches, N);
    }
  }

  lemma LandingCatalogueAt(local: Statement -> bool)
    requires local(CREATE)
    ensures var outcomes := LANDED.outline.outcomes;
      && CatalogAt(LANDING, outcomes, 0) == NOTHING && CatalogAt(LANDING, outcomes, 1) == HELD
      && CatalogAt(LANDING, outcomes, 2) == BOTH && CatalogAt(LANDING, outcomes, 3) == UNNAMED
    ensures SlicedAt(LANDING, LANDED.outline.outcomes, LANDED.kept, local, 3) == UNNAMED.(relations := map["t" := 0])
  {
    hide State.AfterAll;
    LandingEffects();
    var outcomes, kept := LANDED.outline.outcomes, LANDED.kept;
    assert CatalogAt(LANDING, outcomes, 0) == NOTHING;
    assert CatalogAt(LANDING, outcomes, 1) == HELD;
    assert CatalogAt(LANDING, outcomes, 2) == BOTH;
    assert SlicedAt(LANDING, outcomes, kept, local, 0) == NOTHING;
    assert [CREATE][..0] == [] && Locals([CREATE], local) == [CREATE];
    assert SlicedAt(LANDING, outcomes, kept, local, 1) == HELD;
    assert Padded(HELD, BOTH.objects) == UNNAMED.(relations := map["t" := 0]);
    assert SlicedAt(LANDING, outcomes, kept, local, 2) == UNNAMED.(relations := map["t" := 0]);
  }

  /** A batch that is not tidy, and that PostgreSQL refuses: the second table
      takes the first one's name, is dropped, and leaves the first alive with no
      name. The program makes only the first, and there the name stands for it. */
  lemma LandingMatters(local: Statement -> bool)
    requires local(CREATE)
    ensures Derived(LANDING, LANDED) && Survivors(LANDING, LANDED.outline.outcomes) == {0}
    ensures CatalogAt(LANDING, LANDED.outline.outcomes, 3).Relation(["t"]) == None
    ensures SlicedAt(LANDING, LANDED.outline.outcomes, LANDED.kept, local, 3).Relation(["t"]) == Some(0)
  {
    hide IsRetention, State.After, State.AfterAll, IsOutline, UnitEffects, SlicedAt, CatalogAt;
    LandingOutline();
    LandingCatalogueAt(local);
    LandingEffects();
    LandingRetention();
    assert Flagged(LANDED.kept) == {0};
    assert AliveIds(UNNAMED.objects) == {0};
    assert Recorded(LANDING, LANDED.outline.outcomes, LANDED.effects, 3);
    assert Touched(LANDED.effects, 0) && Touched(LANDED.effects, 1) by {
      assert 0 in LANDED.effects[0].touches && 1 in LANDED.effects[1].touches;
    }
    assert Created(UNNAMED, LANDED.effects);
    assert IsRetention(Survivors(LANDING, LANDED.outline.outcomes), LANDED.effects, {0}, Flagged(LANDED.kept));
    assert Lower("t") == "t" && ["t"][|["t"]| - 1] == "t";
  }
}
