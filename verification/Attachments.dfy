/** Triggers and indexes live no longer than what they are attached to. */
module Attachments {
  import opened Wrappers
  import opened Text
  import opened Statements
  import opened Effects
  import opened Transactions
  import opened Replay
  import opened Connection
  import opened CatalogueNames
  import opened SlicedCatalogue
  import opened FreeHistory

  // ---------------------------------------------------------------------
  // One drop
  // ---------------------------------------------------------------------

  /** An index on `id`, or a trigger on it as a connection relation. */
  predicate AttachedTo(shape: Shape, id: nat) {
    shape == IndexShape(id) || (shape.TriggerShape? && shape.owner == Connection(id))
  }

  /** Dropping a live object kills it and all that is attached to it, and
      nothing else. */
  lemma RetiredTakesAttachments(st: State, id: nat)
    requires id < |st.objects| && st.objects[id].alive
    ensures var next := st.Retired(id);
      && |next.objects| == |st.objects|
      && forall d :: 0 <= d < |st.objects| ==>
           && next.objects[d].shape == st.objects[d].shape
           && (next.objects[d].alive <==>
                 st.objects[d].alive && d != id && !AttachedTo(st.objects[d].shape, id))
  {
  }

  /** The names left are those of what lives on: a dropped relation takes the
      names of its triggers and indexes with it. */
  lemma RetiredFreesNames(st: State, id: nat)
    requires st.Valid() && id < |st.objects| && st.objects[id].alive
    requires SoundNames(st.triggers, st.objects) && SoundNames(st.indexes, st.objects)
    requires id !in st.triggers.Values && id !in st.indexes.Values
    ensures var next := st.Retired(id);
      && next.relations == st.relations
      && (forall key :: key in next.triggers <==> key in st.triggers && next.objects[st.triggers[key]].alive)
      && (forall key :: key in next.triggers ==> next.triggers[key] == st.triggers[key])
      && (forall key :: key in next.indexes <==> key in st.indexes && next.objects[st.indexes[key]].alive)
      && (forall key :: key in next.indexes ==> next.indexes[key] == st.indexes[key])
  {
  }

  // ---------------------------------------------------------------------
  // Every run
  // ---------------------------------------------------------------------

  /** What is attached and alive is attached to something alive. */
  ghost predicate Hung(objects: seq<Object>) {
    forall d, id: nat {:trigger AttachedTo(objects[d].shape, id)} ::
      0 <= d < |objects| && objects[d].alive && AttachedTo(objects[d].shape, id) ==>
        id < |objects| && objects[id].alive
  }

  lemma RetiredIsHung(st: State, id: nat)
    requires st.Valid() && Hung(st.objects) && id < |st.objects|
    ensures Hung(st.Retired(id).objects)
  {
    hide State.Retired;
    if st.objects[id].alive {
      RetiredTakesAttachments(st, id);
      var next := st.Retired(id);
      forall d, owner: nat | 0 <= d < |next.objects| && next.objects[d].alive
        && AttachedTo(next.objects[d].shape, owner)
        ensures owner < |next.objects| && next.objects[owner].alive
      {
        assert AttachedTo(st.objects[d].shape, owner);
        assert st.ValidShape(st.objects[d].shape);
      }
    } else {
      DeadStays(st, id);
    }
  }

  lemma DeadStays(st: State, id: nat)
    requires id < |st.objects| && !st.objects[id].alive
    ensures st.Retired(id).objects == st.objects
  {
  }

  lemma EnteredIsHung(st: State, key: string, shape: Shape)
    requires Hung(st.objects)
    requires forall id: nat :: AttachedTo(shape, id) ==> id < |st.objects| && st.objects[id].alive
    ensures Hung(st.Entered(key, shape).objects)
  {
    var next := st.objects + [Object(shape, true)];
    assert st.Entered(key, shape).objects == next;
    forall d, id: nat | 0 <= d < |next| && next[d].alive && AttachedTo(next[d].shape, id)
      ensures id < |next| && next[id].alive
    {
      if d < |st.objects| {
        assert AttachedTo(st.objects[d].shape, id);
      }
    }
  }

  lemma ClearedIsHung(st: State, which: Which, key: string)
    requires st.Valid() && Hung(st.objects)
    ensures Hung(Cleared(st, which, key).objects)
  {
    hide State.Retired, Hung;
    if key in NamesOf(st, which) {
      ForgottenIsValid(st, key);
      RetiredIsHung(WithNames(st, which, NamesOf(st, which) - {key}), NamesOf(st, which)[key]);
    }
  }

  lemma ReplacedIsHung(st: State, name: ObjectName, orReplace: bool)
    requires st.Valid() && Hung(st.objects)
    ensures Hung(st.ViewReplaced(name, orReplace).objects) && Hung(st.TriggerDropped(name).objects)
  {
    hide State.Valid, Cleared, State.ViewReplaced, State.TriggerDropped, Hung;
    if Split(name).None? {
      NoNameClears(st, name, DropTable);
    } else {
      ClearedForms(st, name, DropTable);
      ClearedIsHung(st, Relations, Split(name).value.1);
      ClearedIsHung(st, Triggers, Split(name).value.1);
    }
  }

  lemma CreatedIsHung(st: State, name: ObjectName, ifNotExists: bool, shape: Shape)
    requires Hung(st.objects) && (shape.TableShape? || shape.ViewShape?)
    ensures Hung(st.Created(name, ifNotExists, shape).objects)
  {
    if Split(name).Some? {
      EnteredIsHung(st, Split(name).value.1, shape);
    }
  }

  /** A relation found by name lives on when a trigger is dropped. */
  lemma OwnerLivesOn(st: State, name: ObjectName, table: ObjectName)
    requires st.Valid() && Sound(st) && st.Relation(table).Some?
    ensures var id := st.Relation(table).value;
      id < |st.objects| && st.objects[id].alive && st.TriggerDropped(name).objects[id].alive
  {
    hide State.Retired;
    if Split(name).Some? && Split(name).value.1 in st.triggers {
      var key := Split(name).value.1;
      RetiredTakesAttachments(st.(triggers := st.triggers - {key}), st.triggers[key]);
    }
  }

  lemma TriggerIsHung(st: State, t: Statement)
    requires st.Valid() && Sound(st) && Hung(st.objects) && t.CreateTrigger?
    ensures Hung(st.TriggerCreated(t).objects)
  {
    hide State.Valid, State.TriggerDropped, State.Entered, State.Relation, Sound, Hung;
    if Split(t.name).Some? && st.OwnerOf(t.table).Some? {
      var cleared := if t.orReplace then st.TriggerDropped(t.name) else st;
      ReplacedIsHung(st, t.name, false);
      ReplacedEvolves(st, t.name, false);
      if st.Relation(t.table).Some? {
        OwnerLivesOn(st, t.name, t.table);
      }
      EnteredIsHung(cleared, Split(t.name).value.1, TriggerShape(st.OwnerOf(t.table).value, t.events, t.body));
    }
  }

  lemma IndexIsHung(st: State, name: Option<ObjectName>, table: ObjectName)
    requires st.Valid() && Sound(st) && Hung(st.objects)
    ensures Hung(st.IndexCreated(name, table).objects)
  {
    hide State.Entered, State.Relation, Hung;
    if st.Relation(table).Some? && name.Some? && Split(name.value).Some? {
      OwnerLivesOn(st, name.value, table);
      EnteredIsHung(st, Split(name.value).value.1, IndexShape(st.Relation(table).value));
    }
  }

  lemma {:induction false} DroppedIsHung(st: State, kind: DropKind, names: seq<ObjectName>)
    requires st.Valid() && Hung(st.objects)
    ensures Hung(st.DroppedAll(kind, names).objects)
  {
    hide State.Valid, Hung, State.Dropped, Cleared, Evolves;
    if |names| > 0 {
      var before, name := st.DroppedAll(kind, names[..|names| - 1]), names[|names| - 1];
      DroppedIsHung(st, kind, names[..|names| - 1]);
      DroppedAllEvolves(st, kind, names[..|names| - 1]);
      if Split(name).None? {
        NoNameClears(before, name, kind);
      } else {
        ClearedForms(before, name, kind);
        ClearedIsHung(before, if kind.DropIndex? then Indexes else Relations, Split(name).value.1);
      }
    }
  }

  lemma AfterIsHung(st: State, statement: Statement)
    requires st.Valid() && Sound(st) && Hung(st.objects)
    ensures Hung(st.After(statement).objects)
  {
    hide State.Valid, State.Created, State.ViewReplaced, State.TriggerCreated, State.TriggerDropped,
         State.IndexCreated, State.DroppedAll, State.Renamed, Sound, Hung;
    match statement
    case CreateTable(name, temporary, ifNotExists, _) => CreatedIsHung(st, name, ifNotExists, TableShape);
    case CreateVirtualTable(name, ifNotExists) => CreatedIsHung(st, name, ifNotExists, TableShape);
    case CreateView(name, _, orReplace, bases) =>
      ReplacedIsHung(st, name, orReplace);
      CreatedIsHung(st.ViewReplaced(name, orReplace), name, false, ViewShape(bases));
    case CreateTrigger(_, _, _, _, _, _) => TriggerIsHung(st, statement);
    case CreateIndex(name, table) => IndexIsHung(st, name, table);
    case Drop(kind, names) => DroppedIsHung(st, kind, names);
    case DropTrigger(name) => ReplacedIsHung(st, name, false);
    case AlterTable(name, renames) =>
      if st.Relation(name).Some? {
        RenamedKeepsObjects(st, name, renames, st.Relation(name).value);
      }
    case Rows(_) | OtherStatement =>
  }

  lemma {:induction false} RenamedKeepsObjects(st: State, name: ObjectName, renames: seq<Option<ObjectName>>, id: nat)
    ensures st.Renamed(name, renames, id).objects == st.objects
  {
    if |renames| > 0 {
      RenamedKeepsObjects(st, name, renames[..|renames| - 1], id);
    }
  }

  lemma {:induction false} AfterAllIsHung(st: State, unit: seq<Statement>)
    requires st.Valid() && (forall j :: 0 <= j < |unit| ==> WellFormed(unit[j])) && Sound(st) && Hung(st.objects)
    requires LandsNowhere(st, unit) && forall j :: 0 <= j < |unit| ==> OneRename(unit[j])
    ensures Hung(st.AfterAll(unit).objects)
  {
    hide State.Valid, State.After, WellFormed, Lands, Sound, OneRename, Hung;
    if |unit| > 0 {
      var prefix := unit[..|unit| - 1];
      assert forall j :: 0 <= j < |prefix| ==> prefix[..j] == unit[..j];
      AfterAllIsHung(st, prefix);
      AfterAllIsValid(st, prefix);
      AfterAllIsSound(st, prefix);
      AfterIsHung(st.AfterAll(prefix), unit[|unit| - 1]);
    }
  }

  /** In a batch that lands on no held name, every index and every trigger on a
      connection relation that is alive is attached to a relation alive. */
  lemma {:induction false} CatalogIsHung(units: seq<Unit>, outcomes: seq<Outcome>, kept: seq<bool>, n: nat)
    requires n <= |units| == |outcomes| == |kept| && AllWellFormed(units) && Tidy(units, outcomes, kept)
    ensures Hung(CatalogAt(units, outcomes, n).objects)
  {
    hide State.AfterAll, WellFormed, LandsNowhere, SkipsNothing, OneRename, Hung, Sound, State.Valid;
    if n == 0 {
      NothingIsHung();
    } else {
      CatalogIsHung(units, outcomes, kept, n - 1);
      CatalogIsValid(units, outcomes, n - 1);
      CatalogIsSound(units, outcomes, kept, n - 1);
      if outcomes[n - 1] == Committed {
        AfterAllIsHung(CatalogAt(units, outcomes, n - 1), units[n - 1].emitted);
      }
    }
  }

  lemma NothingIsHung()
    ensures Hung([])
  {
  }

  /** So no index and no such trigger survives without its relation. */
  lemma SurvivorsKeepTheirOwners(units: seq<Unit>, outcomes: seq<Outcome>, kept: seq<bool>, d: nat, id: nat)
    requires |units| == |outcomes| == |kept| && AllWellFormed(units) && Tidy(units, outcomes, kept)
    requires d in Survivors(units, outcomes)
    requires AttachedTo(CatalogAt(units, outcomes, |units|).objects[d].shape, id)
    ensures id in Survivors(units, outcomes)
  {
    hide State.AfterAll, WellFormed, Tidy, CatalogAt;
    CatalogIsHung(units, outcomes, kept, |units|);
  }

  const INDEX := Statement.CreateIndex(Some(["i"]), ["t"])

  /** CREATE TEMP TABLE t, an index on it, DROP TABLE t: nothing is left. */
  lemma IndexGoesToo()
    ensures AliveIds(NOTHING.After(CREATE).After(INDEX).After(DROP).objects) == {}
    ensures NOTHING.After(CREATE).After(INDEX).After(DROP).indexes == map[]
  {
    hide State.Retired, State.Entered;
    RecreateCatalogues();
    assert Lower("t") == "t" && Lower("i") == "i";
    assert ["t"][|["t"]| - 1] == "t" && ["i"][|["i"]| - 1] == "i";
    var indexed := HELD.Entered("i", IndexShape(0));
    assert HELD.After(INDEX) == indexed;
    IndexedTable();
    assert [["t"]][..0] == [] && indexed.DroppedAll(DropTable, []) == indexed;
    assert indexed.After(DROP) == indexed.Dropped(DropTable, ["t"]);
  }

  lemma IndexedTable()
    ensures var indexed := HELD.Entered("i", IndexShape(0));
      && indexed.relations == map["t" := 0] && indexed.Valid()
      && AliveIds(indexed.(relations := indexed.relations - {"t"}).Retired(0).objects) == {}
      && indexed.(relations := indexed.relations - {"t"}).Retired(0).indexes == map[]
  {
    hide State.Retired, State.Valid;
    var indexed := HELD.Entered("i", IndexShape(0));
    var rest := State([Object(TableShape, true), Object(IndexShape(0), true)], map[], map[], map["i" := 1]);
    assert indexed.(relations := indexed.relations - {"t"}) == rest;
    IndexedIsValid();
    RetiredTakesAttachments(rest, 0);
    RetiredFreesNames(rest, 0);
  }

  lemma IndexedIsValid()
    ensures HELD.Entered("i", IndexShape(0)).Valid()
    ensures State([Object(TableShape, true), Object(IndexShape(0), true)], map[], map[], map["i" := 1]).Valid()
  {
  }
}
