/** The names of a catalogue: what clearing, creating and renaming do to them,
    and that each stands for a live object of its own. */
module CatalogueNames {
  import opened Wrappers
  import opened Statements
  import opened Effects

  // ---------------------------------------------------------------------
  // Names and what they stand for
  // ---------------------------------------------------------------------

  datatype Which = Relations | Triggers | Indexes

  function NamesOf(st: State, which: Which): map<string, nat> {
    match which case Relations => st.relations case Triggers => st.triggers case Indexes => st.indexes
  }

  function WithNames(st: State, which: Which, names: map<string, nat>): State {
    match which
      case Relations => st.(relations := names)
      case Triggers => st.(triggers := names)
      case Indexes => st.(indexes := names)
  }

  function MapOf(st: State, shape: Shape): map<string, nat> {
    match shape
    case TriggerShape(_, _, _) => st.triggers
    case IndexShape(_) => st.indexes
    case TableShape | ViewShape(_) => st.relations
  }

  predicate HeldRelation(st: State, name: ObjectName) {
    Split(name).Some? && Split(name).value.1 in st.relations
  }

  lemma NamedAreObjects(st: State, which: Which)
    requires st.Valid()
    ensures forall key :: key in NamesOf(st, which) ==> NamesOf(st, which)[key] < |st.objects|
  {
  }

  // ---------------------------------------------------------------------
  // Clearing a name
  // ---------------------------------------------------------------------

  /** The name gone, and with it what it stood for. */
  function Cleared(st: State, which: Which, key: string): State {
    if key in NamesOf(st, which) then WithNames(st, which, NamesOf(st, which) - {key}).Retired(NamesOf(st, which)[key])
      else st
  }

  lemma SameDying(st: State, rest: State, id: nat)
    requires rest.objects == st.objects
    ensures rest.Dying(id) == st.Dying(id)
  {
    assert forall d: nat :: rest.HangsOff(d, id) <==> st.HangsOff(d, id);
  }

  lemma ClearedChanges(st: State, which: Which, key: string)
    requires key in NamesOf(st, which) ==> NamesOf(st, which)[key] < |st.objects|
    ensures Evolves(st, Cleared(st, which, key))
    ensures Changed(st, Cleared(st, which, key)) == if key in NamesOf(st, which) then st.Dying(NamesOf(st, which)[key])
        else {}
  {
    if key in NamesOf(st, which) {
      var id, rest := NamesOf(st, which)[key], WithNames(st, which, NamesOf(st, which) - {key});
      SameDying(st, rest, id);
      RetiredEvolves(rest, id);
    }
  }

  lemma ClearedForms(st: State, name: ObjectName, kind: DropKind)
    requires Split(name).Some?
    ensures var key := Split(name).value.1;
      && st.ViewReplaced(name, true) == Cleared(st, Relations, key) && st.ViewReplaced(name, false) == st
      && st.TriggerDropped(name) == Cleared(st, Triggers, key)
      && st.Dropped(kind, name) == if NamesOtherSchema(Split(name).value.0) || kind.DropOther? then st
                                   else Cleared(st, if kind.DropIndex? then Indexes else Relations, key)
  {
  }

  lemma NoNameClears(st: State, name: ObjectName, kind: DropKind)
    requires Split(name).None?
    ensures st.Dropped(kind, name) == st && st.TriggerDropped(name) == st
    ensures st.ViewReplaced(name, true) == st && st.ViewReplaced(name, false) == st
  {
  }

  lemma ReplacedClears(st: State, name: ObjectName, orReplace: bool)
    ensures HeldRelation(st, name) && orReplace ==> !HeldRelation(st.ViewReplaced(name, orReplace), name)
    ensures !orReplace ==> st.ViewReplaced(name, orReplace) == st
    ensures Split(name).Some? ==> Split(name).value.1 !in st.TriggerDropped(name).triggers
    ensures !HeldRelation(st, name) ==> st.ViewReplaced(name, orReplace) == st
  {
  }

  // ---------------------------------------------------------------------
  // What a statement lands on
  // ---------------------------------------------------------------------

  /** A name a statement creates, or renames to, that is held already. */
  predicate Lands(st: State, statement: Statement) {
    match statement
    case CreateTable(name, temporary, ifNotExists, _) =>
      IsTemporary(temporary, name) && !ifNotExists && HeldRelation(st, name)
    case CreateVirtualTable(name, ifNotExists) => IsTemporary(false, name) && !ifNotExists && HeldRelation(st, name)
    case CreateView(name, temporary, orReplace, _) =>
      IsTemporary(temporary, name) && !orReplace && HeldRelation(st, name)
    case CreateTrigger(name, _, orReplace, _, _, _) =>
      !orReplace && Split(name).Some? && Split(name).value.1 in st.triggers
    case CreateIndex(Some(name), _) => Split(name).Some? && Split(name).value.1 in st.indexes
    case AlterTable(_, renames) =>
      exists k :: 0 <= k < |renames| && renames[k].Some? && HeldRelation(st, renames[k].value)
    case _ => false
  }

  /** An IF NOT EXISTS that finds the name held. */
  predicate Skips(st: State, statement: Statement) {
    match statement
    case CreateTable(name, temporary, ifNotExists, _) =>
      IsTemporary(temporary, name) && ifNotExists && HeldRelation(st, name)
    case CreateVirtualTable(name, ifNotExists) => IsTemporary(false, name) && ifNotExists && HeldRelation(st, name)
    case _ => false
  }

  /** An ALTER renames at most once. */
  predicate OneRename(statement: Statement) {
    statement.AlterTable? ==>
      forall j, k :: 0 <= j < k < |statement.renames| ==> statement.renames[j].None? || statement.renames[k].None?
  }

  predicate LandsNowhere(st: State, unit: seq<Statement>) {
    forall j :: 0 <= j < |unit| ==> !Lands(st.AfterAll(unit[..j]), unit[j])
  }

  predicate SkipsNothing(st: State, unit: seq<Statement>) {
    forall j :: 0 <= j < |unit| ==> !Skips(st.AfterAll(unit[..j]), unit[j])
  }

  // ---------------------------------------------------------------------
  // Every statement keeps a catalogue valid
  // ---------------------------------------------------------------------

  lemma CreatedEvolves(st: State, name: ObjectName, ifNotExists: bool, shape: Shape)
    ensures Evolves(st, st.Created(name, ifNotExists, shape))
  {
    if Split(name).Some? {
      EnteredEvolves(st, Split(name).value.1, shape);
    }
  }

  lemma ReplacedEvolves(st: State, name: ObjectName, orReplace: bool)
    requires st.Valid()
    ensures Evolves(st, st.ViewReplaced(name, orReplace)) && Evolves(st, st.TriggerDropped(name))
  {
    hide State.Valid, Cleared, State.ViewReplaced, State.TriggerDropped;
    NothingChanged(st);
    if Split(name).None? {
      NoNameClears(st, name, DropTable);
    } else {
      ClearedForms(st, name, DropTable);
      NamedAreObjects(st, Relations);
      NamedAreObjects(st, Triggers);
      ClearedChanges(st, Relations, Split(name).value.1);
      ClearedChanges(st, Triggers, Split(name).value.1);
    }
  }

  lemma {:induction false} DroppedAllEvolves(st: State, kind: DropKind, names: seq<ObjectName>)
    requires st.Valid()
    ensures st.DroppedAll(kind, names).Valid() && Evolves(st, st.DroppedAll(kind, names))
  {
    hide State.Dropped, State.Valid, Changed;
    if |names| == 0 {
    } else {
      var before := st.DroppedAll(kind, names[..|names| - 1]);
      DroppedAllEvolves(st, kind, names[..|names| - 1]);
      DroppedIsValid(before, kind, names[|names| - 1]);
      ChangedThrough(st, before, before.Dropped(kind, names[|names| - 1]));
    }
  }

  lemma ClearedIsValid(st: State, which: Which, key: string)
    requires st.Valid()
    ensures Cleared(st, which, key).Valid()
  {
    hide State.Valid, State.Retired;
    if key in NamesOf(st, which) {
      ForgottenIsValid(st, key);
      RetiredIsValid(WithNames(st, which, NamesOf(st, which) - {key}), NamesOf(st, which)[key]);
    }
  }

  lemma ReplacedIsValid(st: State, name: ObjectName, orReplace: bool)
    requires st.Valid()
    ensures st.ViewReplaced(name, orReplace).Valid() && st.TriggerDropped(name).Valid()
  {
    hide State.Valid, Cleared, State.ViewReplaced, State.TriggerDropped;
    if Split(name).None? {
      NoNameClears(st, name, DropTable);
    } else {
      ClearedForms(st, name, DropTable);
      ClearedIsValid(st, Relations, Split(name).value.1);
      ClearedIsValid(st, Triggers, Split(name).value.1);
    }
  }

  lemma CreatedIsValid(st: State, name: ObjectName, ifNotExists: bool, shape: Shape)
    requires st.Valid() && (shape.TableShape? || shape.ViewShape?)
    ensures st.Created(name, ifNotExists, shape).Valid()
  {
    hide State.Valid;
    if Split(name).Some? {
      EnteredIsValid(st, Split(name).value.1, shape);
    }
  }

  lemma TriggerIsValid(st: State, t: Statement)
    requires st.Valid() && t.CreateTrigger? && WellFormed(t)
    ensures st.TriggerCreated(t).Valid() && Evolves(st, st.TriggerCreated(t))
  {
    hide State.Valid, State.TriggerDropped, State.ValidShape, State.Entered, State.Relation, WellFormed;
    NothingChanged(st);
    if Split(t.name).Some? && st.OwnerOf(t.table).Some? {
      var shape := TriggerShape(st.OwnerOf(t.table).value, t.events, t.body);
      var cleared := if t.orReplace then st.TriggerDropped(t.name) else st;
      TriggerShapeIsValid(st, t);
      ReplacedEvolves(st, t.name, false);
      ReplacedIsValid(st, t.name, false);
      assert SameShapes(st.objects, cleared.objects[..|st.objects|]);
      SameShapesSameValidity(st, cleared, shape);
      EnteredIsValid(cleared, Split(t.name).value.1, shape);
      EnteredEvolves(cleared, Split(t.name).value.1, shape);
    }
  }

  lemma IndexIsValid(st: State, name: Option<ObjectName>, table: ObjectName)
    requires st.Valid()
    ensures st.IndexCreated(name, table).Valid() && Evolves(st, st.IndexCreated(name, table))
  {
    if st.Relation(table).Some? && name.Some? && Split(name.value).Some? {
      var shape := IndexShape(st.Relation(table).value);
      assert st.ValidShape(shape);
      hide State.Valid, State.ValidShape;
      EnteredIsValid(st, Split(name.value).value.1, shape);
      EnteredEvolves(st, Split(name.value).value.1, shape);
    }
  }

  lemma AlterIsValid(st: State, name: ObjectName, renames: seq<Option<ObjectName>>)
    requires st.Valid()
    ensures st.After(AlterTable(name, renames)).Valid() && st.After(AlterTable(name, renames)).objects == st.objects
  {
    if st.Relation(name).Some? {
      RenamedIsValid(st, name, renames, st.Relation(name).value);
    }
  }

  lemma SameObjectsEvolve(st: State, next: State)
    requires next.objects == st.objects
    ensures Evolves(st, next)
  {
  }

  lemma AfterIsValid(st: State, statement: Statement)
    requires st.Valid() && WellFormed(statement)
    ensures st.After(statement).Valid() && Evolves(st, st.After(statement))
  {
    hide State.Valid, State.Created, State.ViewReplaced, State.TriggerCreated, State.TriggerDropped,
         State.IndexCreated, State.DroppedAll, State.Renamed, WellFormed, Evolves;
    NothingChanged(st);
    match statement
    case CreateTable(name, temporary, ifNotExists, _) =>
      CreatedIsValid(st, name, ifNotExists, TableShape);
      CreatedEvolves(st, name, ifNotExists, TableShape);
    case CreateVirtualTable(name, ifNotExists) =>
      CreatedIsValid(st, name, ifNotExists, TableShape);
      CreatedEvolves(st, name, ifNotExists, TableShape);
    case CreateView(name, temporary, orReplace, bases) =>
      var replaced := st.ViewReplaced(name, orReplace);
      ReplacedIsValid(st, name, orReplace);
      ReplacedEvolves(st, name, orReplace);
      CreatedIsValid(replaced, name, false, ViewShape(bases));
      CreatedEvolves(replaced, name, false, ViewShape(bases));
      ChangedThrough(st, replaced, replaced.Created(name, false, ViewShape(bases)));
    case CreateTrigger(_, _, _, _, _, _) => TriggerIsValid(st, statement);
    case CreateIndex(name, table) => IndexIsValid(st, name, table);
    case Drop(kind, names) => DroppedAllEvolves(st, kind, names);
    case DropTrigger(name) =>
      ReplacedIsValid(st, name, false);
      ReplacedEvolves(st, name, false);
    case AlterTable(name, renames) =>
      AlterIsValid(st, name, renames);
      SameObjectsEvolve(st, st.After(statement));
    case Rows(_) | OtherStatement =>
  }

  lemma {:induction false} AfterAllIsValid(st: State, unit: seq<Statement>)
    requires st.Valid() && forall j :: 0 <= j < |unit| ==> WellFormed(unit[j])
    ensures st.AfterAll(unit).Valid() && Evolves(st, st.AfterAll(unit))
  {
    hide State.Valid, State.After, Changed, WellFormed;
    if |unit| > 0 {
      var before := st.AfterAll(unit[..|unit| - 1]);
      AfterAllIsValid(st, unit[..|unit| - 1]);
      AfterIsValid(before, unit[|unit| - 1]);
    }
  }

  // ---------------------------------------------------------------------
  // Names stand for live objects, each its own
  // ---------------------------------------------------------------------

  predicate SoundNames(m: map<string, nat>, objects: seq<Object>) {
    && (forall key :: key in m ==> m[key] < |objects| && objects[m[key]].alive)
    && forall a, b :: a in m && b in m && m[a] == m[b] ==> a == b
  }

  predicate Sound(st: State) {
    SoundNames(st.relations, st.objects) && SoundNames(st.triggers, st.objects) && SoundNames(st.indexes, st.objects)
  }

  lemma EnteredIsSound(st: State, key: string, shape: Shape)
    requires Sound(st) && key !in MapOf(st, shape)
    ensures Sound(st.Entered(key, shape))
  {
    var next := st.Entered(key, shape);
    GrownIsSound(st.relations, st.objects, key, Object(shape, true));
    GrownIsSound(st.triggers, st.objects, key, Object(shape, true));
    GrownIsSound(st.indexes, st.objects, key, Object(shape, true));
  }

  lemma GrownIsSound(m: map<string, nat>, objects: seq<Object>, key: string, one: Object)
    requires SoundNames(m, objects) && one.alive
    ensures SoundNames(m, objects + [one])
    ensures key !in m ==> SoundNames(m[key := |objects|], objects + [one])
  {
  }

  lemma KilledIsSound(m: map<string, nat>, objects: seq<Object>, dead: set<nat>)
    requires SoundNames(m, objects) && forall key :: key in m ==> m[key] !in dead
    ensures SoundNames(m, Kill(objects, dead))
  {
  }

  lemma NarrowedIsSound(m: map<string, nat>, narrow: map<string, nat>, objects: seq<Object>)
    requires SoundNames(m, objects) && Submap(narrow, m)
    ensures SoundNames(narrow, objects)
  {
  }

  lemma RetiredIsSound(st: State, id: nat)
    requires st.Valid() && Sound(st) && id !in st.relations.Values && id !in st.triggers.Values
        && id !in st.indexes.Values
    ensures Sound(st.Retired(id))
  {
    var dying := st.Dying(id);
    NarrowedIsSound(st.triggers, Without(st.triggers, dying - {id}), st.objects);
    NarrowedIsSound(st.indexes, Without(st.indexes, dying - {id}), st.objects);
    KilledIsSound(st.relations, st.objects, dying);
    KilledIsSound(Without(st.triggers, dying - {id}), st.objects, dying);
    KilledIsSound(Without(st.indexes, dying - {id}), st.objects, dying);
  }

  lemma ClearedIsSound(st: State, which: Which, key: string)
    requires st.Valid() && Sound(st)
    ensures Sound(Cleared(st, which, key))
  {
    hide State.Retired;
    if key in NamesOf(st, which) {
      var rest := WithNames(st, which, NamesOf(st, which) - {key});
      ForgottenIsValid(st, key);
      RetiredIsSound(rest, NamesOf(st, which)[key]);
    }
  }

  lemma CreatedIsSound(st: State, name: ObjectName, ifNotExists: bool, shape: Shape)
    requires Sound(st) && (shape.TableShape? || shape.ViewShape?) && (HeldRelation(st, name) ==> ifNotExists)
    ensures Sound(st.Created(name, ifNotExists, shape))
  {
    hide Sound;
    if Split(name).Some? && Split(name).value.1 !in st.relations {
      EnteredIsSound(st, Split(name).value.1, shape);
    }
  }

  lemma ReplacedIsSound(st: State, name: ObjectName, orReplace: bool)
    requires st.Valid() && Sound(st)
    ensures Sound(st.ViewReplaced(name, orReplace)) && Sound(st.TriggerDropped(name))
  {
    hide State.Valid, Cleared, State.ViewReplaced, State.TriggerDropped, Sound;
    if Split(name).None? {
      NoNameClears(st, name, DropTable);
    } else {
      ClearedForms(st, name, DropTable);
      ClearedIsSound(st, Relations, Split(name).value.1);
      ClearedIsSound(st, Triggers, Split(name).value.1);
    }
  }

  lemma TriggerIsSound(st: State, t: Statement)
    requires st.Valid() && Sound(st) && t.CreateTrigger? && !Lands(st, t)
    ensures Sound(st.TriggerCreated(t))
  {
    hide State.Valid, State.TriggerDropped, State.Entered, State.Relation, Sound;
    if Split(t.name).Some? && st.OwnerOf(t.table).Some? {
      var cleared := if t.orReplace then st.TriggerDropped(t.name) else st;
      ReplacedIsSound(st, t.name, false);
      ReplacedClears(st, t.name, false);
      EnteredIsSound(cleared, Split(t.name).value.1, TriggerShape(st.OwnerOf(t.table).value, t.events, t.body));
    }
  }

  lemma IndexIsSound(st: State, name: Option<ObjectName>, table: ObjectName)
    requires Sound(st) && !Lands(st, Statement.CreateIndex(name, table))
    ensures Sound(st.IndexCreated(name, table))
  {
    hide State.Entered, State.Relation, Sound;
    if st.Relation(table).Some? && name.Some? && Split(name.value).Some? {
      EnteredIsSound(st, Split(name.value).value.1, IndexShape(st.Relation(table).value));
    }
  }

  lemma {:induction false} DroppedIsSound(st: State, kind: DropKind, names: seq<ObjectName>)
    requires st.Valid() && Sound(st)
    ensures Sound(st.DroppedAll(kind, names))
  {
    hide State.Valid, Sound, State.Dropped, Cleared, Evolves;
    if |names| > 0 {
      var before, name := st.DroppedAll(kind, names[..|names| - 1]), names[|names| - 1];
      DroppedIsSound(st, kind, names[..|names| - 1]);
      DroppedAllEvolves(st, kind, names[..|names| - 1]);
      if Split(name).None? {
        NoNameClears(before, name, kind);
      } else {
        ClearedForms(before, name, kind);
        ClearedIsSound(before, if kind.DropIndex? then Indexes else Relations, Split(name).value.1);
      }
    }
  }

  lemma {:induction false} NoRenames(st: State, name: ObjectName, renames: seq<Option<ObjectName>>, id: nat)
    requires forall k :: 0 <= k < |renames| ==> renames[k].None?
    ensures st.Renamed(name, renames, id) == st
  {
    if |renames| > 0 {
      NoRenames(st, name, renames[..|renames| - 1], id);
    }
  }

  lemma {:induction false} RenamedIsSound(st: State, name: ObjectName, renames: seq<Option<ObjectName>>)
    requires Sound(st) && st.Relation(name).Some?
    requires OneRename(AlterTable(name, renames)) && !Lands(st, AlterTable(name, renames))
    ensures Sound(st.Renamed(name, renames, st.Relation(name).value))
  {
    hide Sound;
    if |renames| > 0 {
      var rest, last, id := renames[..|renames| - 1], renames[|renames| - 1], st.Relation(name).value;
      assert forall k :: 0 <= k < |rest| ==> rest[k] == renames[k];
      RenamedIsSound(st, name, rest);
      if last.Some? && Split(last.value).Some? {
        NoRenames(st, name, rest, id);
        assert !HeldRelation(st, renames[|renames| - 1].value);
        MovedIsSound(st, Split(name).value.1, Split(last.value).value.1);
      }
    }
  }

  lemma MovedIsSound(st: State, key: string, to_: string)
    requires Sound(st) && key in st.relations && to_ !in st.relations
    ensures Sound(st.(relations := (st.relations - {key})[to_ := st.relations[key]]))
  {
  }

  /** A statement that lands on no held name and renames at most once keeps
      names sound. */
  lemma AfterIsSound(st: State, statement: Statement)
    requires st.Valid() && Sound(st) && !Lands(st, statement) && OneRename(statement)
    ensures Sound(st.After(statement))
  {
    hide State.Valid, State.Created, State.ViewReplaced, State.TriggerCreated, State.TriggerDropped,
         State.IndexCreated, State.DroppedAll, State.Renamed, Sound, HeldRelation, OneRename;
    match statement
    case CreateTable(name, temporary, ifNotExists, _) =>
      if IsTemporary(temporary, name) {
        CreatedIsSound(st, name, ifNotExists, TableShape);
      }
    case CreateVirtualTable(name, ifNotExists) =>
      if IsTemporary(false, name) {
        CreatedIsSound(st, name, ifNotExists, TableShape);
      }
    case CreateView(name, temporary, orReplace, bases) =>
      if IsTemporary(temporary, name) {
        ReplacedIsSound(st, name, orReplace);
        ReplacedClears(st, name, orReplace);
        CreatedIsSound(st.ViewReplaced(name, orReplace), name, false, ViewShape(bases));
      }
    case CreateTrigger(_, temporary, _, table, _, _) =>
      if temporary || st.Relation(table).Some? {
        TriggerIsSound(st, statement);
      }
    case CreateIndex(name, table) => IndexIsSound(st, name, table);
    case Drop(kind, names) => DroppedIsSound(st, kind, names);
    case DropTrigger(name) => ReplacedIsSound(st, name, false);
    case AlterTable(name, renames) =>
      if st.Relation(name).Some? {
        RenamedIsSound(st, name, renames);
      }
    case Rows(_) | OtherStatement =>
  }

  lemma {:induction false} AfterAllIsSound(st: State, unit: seq<Statement>)
    requires st.Valid() && (forall j :: 0 <= j < |unit| ==> WellFormed(unit[j])) && Sound(st)
    requires LandsNowhere(st, unit) && forall j :: 0 <= j < |unit| ==> OneRename(unit[j])
    ensures Sound(st.AfterAll(unit))
  {
    hide State.Valid, State.After, WellFormed, Lands, Sound, OneRename;
    if |unit| > 0 {
      var prefix := unit[..|unit| - 1];
      assert forall j :: 0 <= j < |prefix| ==> prefix[..j] == unit[..j];
      AfterAllIsSound(st, prefix);
      AfterAllIsValid(st, prefix);
      assert !Lands(st.AfterAll(unit[..|unit| - 1]), unit[|unit| - 1]);
      AfterIsSound(st.AfterAll(prefix), unit[|unit| - 1]);
    }
  }
}
