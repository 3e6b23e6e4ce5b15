/** The names an emitted script holds, kept by name, against a catalogue that
    knows each object by identity. */
module EmittedNamespace {
  import opened Wrappers
  import opened Text

  /** One live name: where it came from, and the name it hangs off. */
  datatype Entry = Entry(source: string, owner: Option<string>)

  /** Two definitions of one name, the second being the first to find it held. */
  datatype Collision = Collision(ofTrigger: bool, name: string, first: string, second: string)

  /** What the walk sees of an emitted statement. A drop that is not of tables,
      views or indexes, and an unnamed index, leave the namespaces alone. */
  datatype Command =
    | CreateRelation(name: string)
    | CreateIndex(indexName: Option<string>, table: string)
    | CreateTrigger(name: string, table: string)
    | Drop(counted: bool, names: seq<string>)
    | DropTrigger(name: string)
    | AlterTable(name: string, renamedTo: seq<string>)
    | OtherStatement

  /** The name SQLite files an object under. */
  function Key(name: string): string {
    Lower(name)
  }

  // ---------------------------------------------------------------------
  // By identity
  // ---------------------------------------------------------------------

  datatype Thing = Thing(name: string, source: string, owner: Option<nat>)

  /** Every object and trigger under an identity of its own; an index or trigger
      knows the identity of what it hangs off. */
  datatype Catalogue = Catalogue(next: nat, objects: map<nat, Thing>, triggers: map<nat, Thing>)

  const EMPTY := Catalogue(0, map[], map[])

  ghost predicate Held(things: map<nat, Thing>, name: string) {
    exists id :: id in things && things[id].name == name
  }

  /** The identity a name stands for. */
  ghost function Named(things: map<nat, Thing>, name: string): (id: nat)
    requires Held(things, name)
    ensures id in things && things[id].name == name
  {
    var id :| id in things && things[id].name == name;
    id
  }

  predicate NamesDiffer(things: map<nat, Thing>) {
    forall i, j :: i in things && j in things && things[i].name == things[j].name ==> i == j
  }

  /** What hangs off anything hangs off a live table or view. */
  predicate OwnersLive(things: map<nat, Thing>, objects: map<nat, Thing>) {
    forall i :: i in things && things[i].owner.Some? ==>
      things[i].owner.value in objects && objects[things[i].owner.value].owner.None?
  }

  ghost predicate Consistent(c: Catalogue) {
    && (forall i :: i in c.objects ==> i < c.next) && (forall i :: i in c.triggers ==> i < c.next)
    && NamesDiffer(c.objects) && NamesDiffer(c.triggers)
    && OwnersLive(c.objects, c.objects) && OwnersLive(c.triggers, c.objects)
  }

  ghost predicate IsRelation(c: Catalogue, name: string) {
    Held(c.objects, name) && c.objects[Named(c.objects, name)].owner.None?
  }

  function WithObject(c: Catalogue, name: string, source: string, owner: Option<nat>): Catalogue {
    c.(next := c.next + 1, objects := c.objects[c.next := Thing(name, source, owner)])
  }

  function WithTrigger(c: Catalogue, name: string, source: string, owner: nat): Catalogue {
    c.(next := c.next + 1, triggers := c.triggers[c.next := Thing(name, source, Some(owner))])
  }

  /** What is left of `things` when object `id` goes: not what hangs off it,
      nor, among the objects, itself. */
  function ThingsLeft(things: map<nat, Thing>, id: nat, own: bool): map<nat, Thing> {
    map i | i in things && !(own && i == id) && things[i].owner != Some(id) :: things[i]
  }

  /** A dropped object takes what hangs off it along. */
  function Without(c: Catalogue, id: nat): Catalogue {
    c.(objects := ThingsLeft(c.objects, id, true), triggers := ThingsLeft(c.triggers, id, false))
  }

  ghost function Dropped(c: Catalogue, name: string): Catalogue {
    if Held(c.objects, name) then Without(c, Named(c.objects, name)) else c
  }

  ghost function TriggerDropped(c: Catalogue, name: string): Catalogue {
    if Held(c.triggers, name) then c.(triggers := c.triggers - {Named(c.triggers, name)}) else c
  }

  /** A rename changes one object's name, and nothing that hangs off it. */
  ghost function Renamed(c: Catalogue, before: string, after: string): Catalogue {
    if Held(c.objects, before) then
      var id := Named(c.objects, before);
      c.(objects := c.objects[id := c.objects[id].(name := after)])
    else c
  }

  ghost function Refused(c: Catalogue, name: string, source: string): Option<Collision> {
    if Held(c.objects, name) then Some(Collision(false, name, c.objects[Named(c.objects, name)].source, source))
      else None
  }

  ghost function DroppedAll(c: Catalogue, names: seq<string>): Catalogue
    decreases |names|
  {
    if |names| == 0 then c else DroppedAll(Dropped(c, Key(names[0])), names[1..])
  }

  ghost function RenamedAll(c: Catalogue, name: string, renamedTo: seq<string>, source: string): Result<Catalogue,
      Collision>
    decreases |renamedTo|
  {
    if |renamedTo| == 0 then Ok(c)
    else
      match Refused(c, Key(renamedTo[0]), source)
      case Some(collision) => Err(collision)
      case None => RenamedAll(Renamed(c, name, Key(renamedTo[0])), name, renamedTo[1..], source)
  }

  /** The owners a statement names are live tables or views. */
  ghost predicate OwnerNamed(c: Catalogue, command: Command) {
    match command
    case CreateIndex(indexName, table) => indexName.Some? ==> IsRelation(c, Key(table))
    case CreateTrigger(_, table) => IsRelation(c, Key(table))
    case CreateRelation(_) | Drop(_, _) | DropTrigger(_) | AlterTable(_, _) | OtherStatement => true
  }

  ghost function After(c: Catalogue, command: Command, source: string): Result<Catalogue, Collision>
    requires OwnerNamed(c, command)
  {
    match command
    case CreateRelation(name) =>
      (match Refused(c, Key(name), source)
       case Some(collision) => Err(collision)
       case None => Ok(WithObject(c, Key(name), source, None)))
    case CreateIndex(indexName, table) =>
      if indexName.None? then Ok(c)
      else
        (match Refused(c, Key(indexName.value), source)
         case Some(collision) => Err(collision)
         case None => Ok(WithObject(c, Key(indexName.value), source, Some(Named(c.objects, Key(table))))))
    case CreateTrigger(name, table) =>
      if Held(c.triggers, Key(name))
        then Err(Collision(true, Key(name), c.triggers[Named(c.triggers, Key(name))].source, source))
      else Ok(WithTrigger(c, Key(name), source, Named(c.objects, Key(table))))
    case Drop(counted, names) => Ok(if counted then DroppedAll(c, names) else c)
    case DropTrigger(name) => Ok(TriggerDropped(c, Key(name)))
    case AlterTable(name, renamedTo) => RenamedAll(c, Key(name), renamedTo, source)
    case OtherStatement => Ok(c)
  }

  /** The catalogue a script leaves, or the first collision in it. */
  ghost function AfterAll(c: Catalogue, script: seq<(string, Command)>): Result<Catalogue, Collision>
    requires OwnersNamed(c, script)
    decreases |script|
  {
    if |script| == 0 then Ok(c)
    else
      match After(c, script[0].1, script[0].0)
      case Err(collision) => Err(collision)
      case Ok(next) => AfterAll(next, script[1..])
  }

  ghost predicate OwnersNamed(c: Catalogue, script: seq<(string, Command)>)
    decreases |script|
  {
    |script| > 0 ==>
      && OwnerNamed(c, script[0].1)
      && (After(c, script[0].1, script[0].0).Ok? ==> OwnersNamed(After(c, script[0].1, script[0].0).value, script[1..]))
  }

  /** An index just created lasts exactly as long as the relation it is on:
      dropping that frees its name, dropping any other keeps it. */
  lemma IndexGoesWithTable(c: Catalogue, name: string, table: string, other: string, source: string)
    requires Consistent(c) && IsRelation(c, Lower(table)) && IsRelation(c, Lower(other)) && Lower(other) != Lower(table)
    ensures var next := After(c, CreateIndex(Some(name), table), source);
      next.Ok? ==>
        && Held(next.value.objects, Lower(name))
        && !Held(Dropped(next.value, Lower(table)).objects, Lower(name))
        && Held(Dropped(next.value, Lower(other)).objects, Lower(name))
  {
    hide Lower;
    if !Held(c.objects, Lower(name)) {
      var owner, kept := Named(c.objects, Lower(table)), Named(c.objects, Lower(other));
      var next := WithObject(c, Lower(name), source, Some(owner));
      assert next.objects[c.next].name == Lower(name) && owner != c.next && kept != c.next;
      StandsFor(next.objects, owner, Lower(table));
      StandsFor(next.objects, kept, Lower(other));
      assert c.next in Without(next, kept).objects;
    }
  }

  /** So does a trigger. */
  lemma TriggerGoesWithTable(c: Catalogue, name: string, table: string, other: string, source: string)
    requires Consistent(c) && IsRelation(c, Lower(table)) && IsRelation(c, Lower(other)) && Lower(other) != Lower(table)
    ensures var next := After(c, CreateTrigger(name, table), source);
      next.Ok? ==>
        && Held(next.value.triggers, Lower(name))
        && !Held(Dropped(next.value, Lower(table)).triggers, Lower(name))
        && Held(Dropped(next.value, Lower(other)).triggers, Lower(name))
  {
    hide Lower;
    if !Held(c.triggers, Lower(name)) {
      var owner, kept := Named(c.objects, Lower(table)), Named(c.objects, Lower(other));
      var next := WithTrigger(c, Lower(name), source, owner);
      assert next.triggers[c.next].name == Lower(name) && owner != c.next && kept != c.next;
      StandsFor(next.objects, owner, Lower(table));
      StandsFor(next.objects, kept, Lower(other));
      assert c.next in Without(next, kept).triggers;
    }
  }

  lemma StandsFor(things: map<nat, Thing>, id: nat, name: string)
    requires id in things && things[id].name == name
    requires forall i :: i in things && things[i].name == name ==> i == id
    ensures Held(things, name) && Named(things, name) == id
  {
  }

  // ---------------------------------------------------------------------
  // By name
  // ---------------------------------------------------------------------

  function OwnerName(objects: map<nat, Thing>, owner: Option<nat>): Option<string> {
    if owner.Some? && owner.value in objects then Some(objects[owner.value].name) else None
  }

  function EntryOf(objects: map<nat, Thing>, thing: Thing): Entry {
    Entry(thing.source, OwnerName(objects, thing.owner))
  }

  /** The names held are those of the things known, each with its thing's entry. */
  ghost predicate Shows(entries: map<string, Entry>, things: map<nat, Thing>, objects: map<nat, Thing>) {
    && (forall i :: i in things ==> things[i].name in entries && entries[things[i].name] == EntryOf(objects, things[i]))
    && (forall k :: k in entries ==> Held(things, k))
  }

  /** The entries left when `name` goes: not those that hang off it, nor,
      among the objects, its own. */
  function EntriesLeft(entries: map<string, Entry>, name: string, own: bool): map<string, Entry> {
    map k | k in entries && !(own && k == name) && entries[k].owner != Some(name) :: entries[k]
  }

  class Namespaces {
    /** The names tables, views and indexes share. */
    var objects: map<string, Entry>
    /** The names of triggers, apart from those. */
    var triggers: map<string, Entry>
    ghost var catalogue: Catalogue

    ghost predicate Valid()
      reads this
    {
      Consistent(catalogue) && Shows(objects, catalogue.objects, catalogue.objects)
        && Shows(triggers, catalogue.triggers, catalogue.objects)
    }

    constructor ()
      ensures Valid() && catalogue == EMPTY
    {
      objects, triggers, catalogue := map[], map[], EMPTY;
    }

    method DefineObjectKey(name: string, owner: Option<string>, source: string) returns (r: Option<Collision>)
      requires Valid() && (owner.Some? ==> IsRelation(catalogue, owner.value))
      modifies this
      ensures Valid() && r == Refused(old(catalogue), name, source)
      ensures r.Some? <==> name in old(objects)
      ensures catalogue == if r.Some? then old(catalogue)
                           else WithObject(old(catalogue), name, source, if owner.Some?
                             then Some(Named(old(catalogue).objects, owner.value)) else None)
      ensures triggers == old(triggers) && objects == if r.Some? then old(objects)
          else old(objects)[name := Entry(source, owner)]
    {
      if name in objects {
        HeldAsShown(objects, catalogue.objects, catalogue.objects, name);
        return Some(Collision(false, name, objects[name].source, source));
      }
      NotHeld(objects, catalogue.objects, catalogue.objects, name);
      ghost var id := if owner.Some? then Some(Named(catalogue.objects, owner.value)) else None;
      ObjectDefined(catalogue, objects, triggers, name, source, id);
      objects := objects[name := Entry(source, owner)];
      catalogue := WithObject(catalogue, name, source, id);
      r := None;
    }

    method DefineTriggerKey(name: string, owner: string, source: string) returns (r: Option<Collision>)
      requires Valid() && IsRelation(catalogue, owner)
      modifies this
      ensures Valid() && (r.Some? <==> name in old(triggers)) && (r.Some? <==> Held(old(catalogue).triggers, name))
      ensures r.Some? ==> r.value == Collision(true, name,
          old(catalogue).triggers[Named(old(catalogue).triggers, name)].source, source)
      ensures catalogue == if r.Some? then old(catalogue)
          else WithTrigger(old(catalogue), name, source, Named(old(catalogue).objects, owner))
      ensures objects == old(objects) && triggers == if r.Some? then old(triggers)
          else old(triggers)[name := Entry(source, Some(owner))]
    {
      if name in triggers {
        HeldAsShown(triggers, catalogue.triggers, catalogue.objects, name);
        return Some(Collision(true, name, triggers[name].source, source));
      }
      NotHeld(triggers, catalogue.triggers, catalogue.objects, name);
      ghost var id := Named(catalogue.objects, owner);
      TriggerDefined(catalogue, objects, triggers, name, source, id);
      triggers := triggers[name := Entry(source, Some(owner))];
      catalogue := WithTrigger(catalogue, name, source, id);
      r := None;
    }

    /** Removes a name, and the indexes and triggers on what it stood for. */
    method DropObject(name: string)
      requires Valid()
      modifies this
      ensures Valid() && catalogue == Dropped(old(catalogue), name)
      ensures objects == EntriesLeft(old(objects), name, true) && triggers == EntriesLeft(old(triggers), name, false)
    {
      hide Consistent, Shows, Held, Dropped;
      ghost var objects0, triggers0 := objects, triggers;
      objects := objects - {name};
      objects := map k | k in objects && objects[k].owner != Some(name) :: objects[k];
      triggers := map k | k in triggers && triggers[k].owner != Some(name) :: triggers[k];
      ObjectDropped(catalogue, objects0, triggers0, name);
      assert objects == EntriesLeft(objects0, name, true) && triggers == EntriesLeft(triggers0, name, false);
      catalogue := Dropped(catalogue, name);
    }

    method DropTriggerKey(name: string)
      requires Valid()
      modifies this
      ensures Valid() && catalogue == TriggerDropped(old(catalogue), name)
      ensures objects == old(objects) && triggers == old(triggers) - {name}
    {
      TriggerRemoved(catalogue, triggers, name);
      triggers := triggers - {name};
      catalogue := TriggerDropped(catalogue, name);
    }

    /** Renames an object; what hangs off it follows it to the new name. */
    method RenameObject(before: string, after: string, source: string) returns (r: Option<Collision>)
      requires Valid()
      modifies this
      ensures Valid() && r == Refused(old(catalogue), after, source)
      ensures catalogue == if r.Some? then old(catalogue) else Renamed(old(catalogue), before, after)
    {
      if after in objects {
        HeldAsShown(objects, catalogue.objects, catalogue.objects, after);
        return Some(Collision(false, after, objects[after].source, source));
      }
      NotHeld(objects, catalogue.objects, catalogue.objects, after);
      ghost var objects0, triggers0 := objects, triggers;
      if before in objects {
        var entry := objects[before];
        objects := objects - {before};
        objects := objects[after := entry];
      }
      objects := map k | k in objects :: Moved(objects[k], before, after);
      triggers := map k | k in triggers :: Moved(triggers[k], before, after);
      ObjectRenamed(catalogue, objects0, triggers0, before, after, objects, triggers);
      catalogue := Renamed(catalogue, before, after);
      r := None;
    }

    method Apply(command: Command, source: string) returns (r: Option<Collision>)
      requires Valid() && OwnerNamed(catalogue, command)
      modifies this
      ensures match After(old(catalogue), command, source)
              case Err(collision) => r == Some(collision)
              case Ok(next) => r == None && Valid() && catalogue == next
    {
      hide Consistent, Shows, Held, WithObject, WithTrigger, Dropped, TriggerDropped, Renamed, Refused, Named;
      match command {
        case CreateRelation(name) => r := DefineObjectKey(Key(name), None, source);
        case CreateIndex(indexName, table) =>
          if indexName.Some? {
            r := DefineObjectKey(Key(indexName.value), Some(Key(table)), source);
          } else {
            r := None;
          }
        case CreateTrigger(name, table) => r := DefineTriggerKey(Key(name), Key(table), source);
        case Drop(counted, names) =>
          r := None;
          if counted {
            for i := 0 to |names|
              invariant Valid() && DroppedAll(catalogue, names[i..]) == DroppedAll(old(catalogue), names)
            {
              assert names[i..][1..] == names[i + 1..];
              DropObject(Key(names[i]));
            }
          }
        case DropTrigger(name) =>
          DropTriggerKey(Key(name));
          r := None;
        case AlterTable(name, renamedTo) =>
          for i := 0 to |renamedTo|
            invariant Valid() && RenamedAll(catalogue, Key(name), renamedTo[i..], source)
                == RenamedAll(old(catalogue), Key(name), renamedTo, source)
          {
            assert renamedTo[i..][1..] == renamedTo[i + 1..];
            r := RenameObject(Key(name), Key(renamedTo[i]), source);
            if r.Some? {
              return r;
            }
          }
          r := None;
        case OtherStatement => r := None;
      }
    }
  }

  function Moved(entry: Entry, before: string, after: string): Entry {
    if entry.owner == Some(before) then entry.(owner := Some(after)) else entry
  }

  // ---------------------------------------------------------------------
  // Each step keeps the two in step
  // ---------------------------------------------------------------------

  lemma HeldAsShown(entries: map<string, Entry>, things: map<nat, Thing>, objects: map<nat, Thing>, name: string)
    requires Shows(entries, things, objects) && name in entries
    ensures Held(things, name) && entries[name].source == things[Named(things, name)].source
  {
  }

  lemma NotHeld(entries: map<string, Entry>, things: map<nat, Thing>, objects: map<nat, Thing>, name: string)
    requires Shows(entries, things, objects) && name !in entries
    ensures !Held(things, name)
  {
  }

  /** More objects change no entry already shown. */
  lemma ShownAmongMore(entries: map<string, Entry>, things: map<nat, Thing>, objects: map<nat, Thing>, id: nat,
      added: Thing)
    requires Shows(entries, things, objects) && OwnersLive(things, objects) && id !in objects
    ensures Shows(entries, things, objects[id := added]) && OwnersLive(things, objects[id := added])
  {
    forall i | i in things ensures EntryOf(objects[id := added], things[i]) == EntryOf(objects, things[i]) {
    }
  }

  /** One thing more is one entry more. */
  lemma ShownWithMore(entries: map<string, Entry>, things: map<nat, Thing>, objects: map<nat, Thing>, id: nat,
      added: Thing)
    requires Shows(entries, things, objects) && id !in things && !Held(things, added.name)
    ensures Shows(entries[added.name := EntryOf(objects, added)], things[id := added], objects)
  {
    var more := things[id := added];
    forall k | k in entries[added.name := EntryOf(objects, added)] ensures Held(more, k) {
      if k == added.name {
        assert id in more && more[id].name == k;
      } else {
        var i := Named(things, k);
        assert i in more && more[i].name == k;
      }
    }
    forall i | i in things ensures things[i].name != added.name {
      assert Held(things, things[i].name);
    }
  }

  lemma NamesStayDifferent(things: map<nat, Thing>, id: nat, added: Thing)
    requires NamesDiffer(things) && id !in things && !Held(things, added.name)
    ensures NamesDiffer(things[id := added])
  {
    forall i | i in things ensures things[i].name != added.name {
      assert Held(things, things[i].name);
    }
  }

  lemma ObjectDefined(c: Catalogue, objects: map<string, Entry>, triggers: map<string, Entry>, name: string,
      source: string, owner: Option<nat>)
    requires Consistent(c) && Shows(objects, c.objects, c.objects) && Shows(triggers, c.triggers, c.objects)
    requires !Held(c.objects, name) && (owner.Some? ==> owner.value in c.objects && c.objects[owner.value].owner.None?)
    ensures var after := WithObject(c, name, source, owner);
      && Consistent(after)
      && Shows(objects[name := Entry(source, OwnerName(c.objects, owner))], after.objects, after.objects)
      && Shows(triggers, after.triggers, after.objects)
  {
    hide Shows, Held, NamesDiffer;
    var added := Thing(name, source, owner);
    ShownAmongMore(objects, c.objects, c.objects, c.next, added);
    ShownAmongMore(triggers, c.triggers, c.objects, c.next, added);
    ShownWithMore(objects, c.objects, c.objects[c.next := added], c.next, added);
    NamesStayDifferent(c.objects, c.next, added);
    assert EntryOf(c.objects[c.next := added], added) == Entry(source, OwnerName(c.objects, owner));
  }

  lemma TriggerDefined(c: Catalogue, objects: map<string, Entry>, triggers: map<string, Entry>, name: string,
      source: string, owner: nat)
    requires Consistent(c) && Shows(objects, c.objects, c.objects) && Shows(triggers, c.triggers, c.objects)
    requires !Held(c.triggers, name) && owner in c.objects && c.objects[owner].owner.None?
    ensures var after := WithTrigger(c, name, source, owner);
      && Consistent(after) && Shows(objects, after.objects, after.objects)
      && Shows(triggers[name := Entry(source, Some(c.objects[owner].name))], after.triggers, after.objects)
  {
    hide Shows, Held, NamesDiffer;
    var added := Thing(name, source, Some(owner));
    ShownWithMore(triggers, c.triggers, c.objects, c.next, added);
    NamesStayDifferent(c.triggers, c.next, added);
  }

  lemma NameIsHeld(entries: map<string, Entry>, things: map<nat, Thing>, objects: map<nat, Thing>, name: string)
    requires Shows(entries, things, objects)
    ensures name in entries <==> Held(things, name)
  {
  }

  /** Nothing hangs off a name that is not held. */
  lemma NoneHangsOff(entries: map<string, Entry>, things: map<nat, Thing>, objects: map<nat, Thing>, name: string)
    requires Shows(entries, things, objects) && OwnersLive(things, objects) && !Held(objects, name)
    ensures forall k :: k in entries ==> entries[k].owner != Some(name)
  {
    forall k | k in entries ensures entries[k].owner != Some(name) {
      var i := Named(things, k);
      assert entries[k] == EntryOf(objects, things[i]);
    }
  }

  lemma NamesStayApart(things: map<nat, Thing>, fewer: map<nat, Thing>)
    requires NamesDiffer(things) && forall i :: i in fewer ==> i in things && fewer[i] == things[i]
    ensures NamesDiffer(fewer)
  {
  }

  /** What does not hang off a dropped object keeps its owner and entry. */
  lemma KeptOwners(things: map<nat, Thing>, objects: map<nat, Thing>, id: nat)
    requires OwnersLive(things, objects) && OwnersLive(objects, objects) && NamesDiffer(objects) && id in objects
    ensures var left := ThingsLeft(objects, id, true);
      forall i :: i in things ==>
        && (EntryOf(objects, things[i]).owner == Some(objects[id].name) <==> things[i].owner == Some(id))
        && (things[i].owner != Some(id) ==>
              && EntryOf(left, things[i]) == EntryOf(objects, things[i])
              && (things[i].owner.Some? ==> things[i].owner.value in left && left[things[i].owner.value].owner.None?))
  {
    var left := ThingsLeft(objects, id, true);
    forall i | i in things
      ensures EntryOf(objects, things[i]).owner == Some(objects[id].name) <==> things[i].owner == Some(id)
      ensures things[i].owner != Some(id) ==>
        EntryOf(left, things[i]) == EntryOf(objects, things[i])
        && (things[i].owner.Some? ==> things[i].owner.value in left && left[things[i].owner.value].owner.None?)
    {
      if things[i].owner.Some? {
        var o := things[i].owner.value;
        assert o in objects && objects[o].owner.None?;
        if objects[o].name == objects[id].name {
          assert o == id;
        } else {
          assert o in left;
        }
      }
    }
  }

  /** The entries kept after a drop show the things left. */
  lemma KeptShows(entries: map<string, Entry>, things: map<nat, Thing>, objects: map<nat, Thing>, id: nat, own: bool)
    requires Shows(entries, things, objects) && OwnersLive(things, objects) && OwnersLive(objects, objects)
    requires NamesDiffer(things) && NamesDiffer(objects) && id in objects && (own ==> things == objects)
    ensures var name := objects[id].name;
      var left := ThingsLeft(objects, id, true);
      var thingsLeft := map i | i in things && !(own && i == id) && things[i].owner != Some(id) :: things[i];
      var kept := map k | k in entries && !(own && k == name) && entries[k].owner != Some(name) :: entries[k];
      Shows(kept, thingsLeft, left) && OwnersLive(thingsLeft, left) && NamesDiffer(thingsLeft)
  {
    hide EntryOf, OwnersLive, NamesDiffer;
    var name := objects[id].name;
    var left := ThingsLeft(objects, id, true);
    var thingsLeft, kept := ThingsLeft(things, id, own), EntriesLeft(entries, name, own);
    KeptOwners(things, objects, id);
    NamesStayApart(things, thingsLeft);
    LeftOwnersLive(thingsLeft, left);
    forall i | i in thingsLeft
      ensures thingsLeft[i].name in kept && kept[thingsLeft[i].name] == EntryOf(left, thingsLeft[i])
    {
      if own && things[i].name == name {
        SameName(objects, i, id);
      }
    }
    forall k | k in kept ensures Held(thingsLeft, k) {
      var i := Named(things, k);
      assert i in thingsLeft && thingsLeft[i].name == k;
    }
  }

  lemma SameName(things: map<nat, Thing>, i: nat, j: nat)
    requires NamesDiffer(things) && i in things && j in things && things[i].name == things[j].name
    ensures i == j
  {
  }

  lemma LeftOwnersLive(things: map<nat, Thing>, left: map<nat, Thing>)
    requires forall i :: i in things && things[i].owner.Some? ==>
        things[i].owner.value in left && left[things[i].owner.value].owner.None?
    ensures OwnersLive(things, left)
  {
  }

  lemma ObjectDropped(c: Catalogue, objects: map<string, Entry>, triggers: map<string, Entry>, name: string)
    requires Consistent(c) && Shows(objects, c.objects, c.objects) && Shows(triggers, c.triggers, c.objects)
    ensures var after := Dropped(c, name);
      && Consistent(after)
      && Shows(EntriesLeft(objects, name, true), after.objects, after.objects)
      && Shows(EntriesLeft(triggers, name, false), after.triggers, after.objects)
  {
    hide Shows, NamesDiffer, OwnersLive, Held;
    NameIsHeld(objects, c.objects, c.objects, name);
    if Held(c.objects, name) {
      var id := Named(c.objects, name);
      KeptShows(objects, c.objects, c.objects, id, true);
      KeptShows(triggers, c.triggers, c.objects, id, false);
    } else {
      NoneHangsOff(objects, c.objects, c.objects, name);
      NoneHangsOff(triggers, c.triggers, c.objects, name);
      assert EntriesLeft(objects, name, true) == objects && EntriesLeft(triggers, name, false) == triggers;
    }
  }

  lemma OwnersAmongFewer(things: map<nat, Thing>, fewer: map<nat, Thing>, objects: map<nat, Thing>)
    requires OwnersLive(things, objects) && forall i :: i in fewer ==> i in things && fewer[i] == things[i]
    ensures OwnersLive(fewer, objects)
  {
  }

  lemma TriggerRemoved(c: Catalogue, triggers: map<string, Entry>, name: string)
    requires Consistent(c) && Shows(triggers, c.triggers, c.objects)
    ensures Consistent(TriggerDropped(c, name)) && Shows(triggers - {name}, TriggerDropped(c, name).triggers, c.objects)
  {
    hide EntryOf, OwnersLive, NamesDiffer;
    NameIsHeld(triggers, c.triggers, c.objects, name);
    OwnersAmongFewer(c.triggers, TriggerDropped(c, name).triggers, c.objects);
    var after := TriggerDropped(c, name);
    if Held(c.triggers, name) {
      var id := Named(c.triggers, name);
      NamesStayApart(c.triggers, after.triggers);
      forall k | k in triggers - {name} ensures Held(after.triggers, k) {
        var i := Named(c.triggers, k);
        assert i in after.triggers && after.triggers[i].name == k;
      }
      forall i | i in after.triggers ensures after.triggers[i].name != name {
        if c.triggers[i].name == name {
          SameName(c.triggers, i, id);
        }
      }
    } else {
      assert triggers - {name} == triggers;
    }
  }

  lemma EntryMoves(objects: map<nat, Thing>, thing: Thing, id: nat, after: string)
    requires NamesDiffer(objects) && id in objects && (thing.owner.Some? ==> thing.owner.value in objects)
    ensures Moved(EntryOf(objects, thing), objects[id].name, after)
        == EntryOf(objects[id := objects[id].(name := after)], thing)
  {
  }

  /** Owners' entries follow a renamed object. */
  lemma MovedShows(entries: map<string, Entry>, things: map<nat, Thing>, objects: map<nat, Thing>, id: nat,
      after: string)
    requires Shows(entries, things, objects) && OwnersLive(things, objects) && NamesDiffer(objects) && id in objects
    ensures Shows(map k | k in entries ::
        Moved(entries[k], objects[id].name, after), things, objects[id := objects[id].(name := after)])
  {
    hide EntryOf, Moved, NamesDiffer;
    forall i | i in things
      ensures Moved(EntryOf(objects, things[i]), objects[id].name, after)
          == EntryOf(objects[id := objects[id].(name := after)], things[i])
    {
      EntryMoves(objects, things[i], id, after);
    }
  }

  /** A renamed thing's entry moves to its new name. */
  lemma RenamedShows(entries: map<string, Entry>, things: map<nat, Thing>, objects: map<nat, Thing>, id: nat,
      after: string)
    requires Shows(entries, things, objects) && NamesDiffer(things) && id in things && !Held(things, after)
    ensures var before, now := things[id].name, things[id := things[id].(name := after)];
      Shows((entries - {before})[after := entries[before]], now, objects) && NamesDiffer(now)
  {
    hide EntryOf;
    var before, now := things[id].name, things[id := things[id].(name := after)];
    var moved := (entries - {before})[after := entries[before]];
    assert EntryOf(objects, now[id]) == EntryOf(objects, things[id]) by {
      SameEntry(objects, things[id], after);
    }
    forall i | i in things && i != id ensures things[i].name != before && things[i].name != after {
      assert Held(things, things[i].name);
    }
    forall k | k in moved ensures Held(now, k) {
      if k == after {
        assert id in now && now[id].name == k;
      } else {
        var i := Named(things, k);
        assert i in now && now[i].name == k;
      }
    }
  }

  lemma SameEntry(objects: map<nat, Thing>, thing: Thing, after: string)
    ensures EntryOf(objects, thing.(name := after)) == EntryOf(objects, thing)
  {
  }

  lemma OwnersStayLive(things: map<nat, Thing>, objects: map<nat, Thing>, id: nat, after: string)
    requires OwnersLive(things, objects) && id in objects
    ensures OwnersLive(things, objects[id := objects[id].(name := after)])
    ensures things == objects ==> OwnersLive(objects[id := objects[id].(name := after)],
        objects[id := objects[id].(name := after)])
  {
  }

  lemma ObjectRenamed(c: Catalogue, objects: map<string, Entry>, triggers: map<string, Entry>, before: string,
      after: string, objectsNow: map<string, Entry>, triggersNow: map<string, Entry>)
    requires Consistent(c) && Shows(objects, c.objects, c.objects) && Shows(triggers, c.triggers, c.objects)
        && !Held(c.objects, after)
    requires var swapped := if before in objects then (objects - {before})[after := objects[before]] else objects;
             objectsNow == map k | k in swapped :: Moved(swapped[k], before, after)
    requires triggersNow == map k | k in triggers :: Moved(triggers[k], before, after)
    ensures var now := Renamed(c, before, after);
      Consistent(now) && Shows(objectsNow, now.objects, now.objects) && Shows(triggersNow, now.triggers, now.objects)
  {
    hide Shows, NamesDiffer, OwnersLive, Held, EntryOf;
    NameIsHeld(objects, c.objects, c.objects, before);
    if Held(c.objects, before) {
      var id := Named(c.objects, before);
      var swapped := (objects - {before})[after := objects[before]];
      var now := c.objects[id := c.objects[id].(name := after)];
      RenamedShows(objects, c.objects, c.objects, id, after);
      OwnersStayLive(c.objects, c.objects, id, after);
      OwnersStayLive(c.triggers, c.objects, id, after);
      RenamedOwners(c.objects, id, after);
      MovedShows(swapped, now, c.objects, id, after);
      MovedShows(triggers, c.triggers, c.objects, id, after);
    } else {
      NoneHangsOff(objects, c.objects, c.objects, before);
      NoneHangsOff(triggers, c.triggers, c.objects, before);
      assert objectsNow == objects && triggersNow == triggers;
    }
  }

  lemma RenamedOwners(objects: map<nat, Thing>, id: nat, after: string)
    requires OwnersLive(objects, objects) && id in objects
    ensures OwnersLive(objects[id := objects[id].(name := after)], objects)
  {
  }

  /** Renaming an object and dropping it by its new name leaves what dropping
      it by its old name leaves: its attachments followed it. */
  lemma DropFollowsRename(c: Catalogue, before: string, after: string)
    requires Consistent(c) && Held(c.objects, before) && !Held(c.objects, after)
    ensures Dropped(Renamed(c, before, after), after) == Dropped(c, before)
  {
    hide OwnersLive;
    var id := Named(c.objects, before);
    var renamed := Renamed(c, before, after).objects;
    assert renamed[id].name == after;
    forall i | i in renamed && i != id ensures renamed[i].name != after {
      assert Held(c.objects, c.objects[i].name);
    }
    assert Named(renamed, after) == id;
    assert ThingsLeft(renamed, id, true) == ThingsLeft(c.objects, id, true);
  }

  /** Refuses exactly the scripts in which a definition lands on a held name,
      and names the first collision. */
  method RejectNameCollisions(script: seq<(string, Command)>) returns (r: Option<Collision>)
    requires OwnersNamed(EMPTY, script)
    ensures match AfterAll(EMPTY, script)
            case Err(collision) => r == Some(collision)
            case Ok(_) => r == None
  {
    hide After, OwnerNamed;
    var namespaces := new Namespaces();
    for i := 0 to |script|
      invariant namespaces.Valid() && OwnersNamed(namespaces.catalogue, script[i..])
      invariant AfterAll(namespaces.catalogue, script[i..]) == AfterAll(EMPTY, script)
    {
      assert script[i..][0] == script[i] && script[i..][1..] == script[i + 1..];
      r := namespaces.Apply(script[i].1, script[i].0);
      if r.Some? {
        return r;
      }
    }
    r := None;
  }
}
