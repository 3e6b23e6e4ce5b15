/** How SQLite finds a relation by name, schema by schema, and that the
    connection's catalogue finds it so. */
module NameLookup {
  import opened Wrappers
  import opened Text
  import opened Statements
  import opened Effects
  import opened RowEvents

  /** The relations of each schema, in lower case. */
  type Schemas = map<string, set<string>>

  /** A qualified name is looked up in its schema alone, any other in `temp`
      before the file's own and the attached schemas. */
  function SearchPath(name: ObjectName, attached: seq<string>): seq<string> {
    if |name| >= 2 then [Lower(name[|name| - 2])] else ["temp", "main"] + attached
  }

  /** The first schema of the path that holds the relation. */
  function FirstHolding(path: seq<string>, schemas: Schemas, relation: string): Option<string> {
    if |path| == 0 then None
    else if path[0] in schemas && relation in schemas[path[0]] then Some(path[0])
    else FirstHolding(path[1..], schemas, relation)
  }

  /** What SQLite finds for a name. */
  function Found(name: ObjectName, attached: seq<string>, schemas: Schemas): Option<string>
    requires |name| > 0
  {
    FirstHolding(SearchPath(name, attached), schemas, Lower(name[|name| - 1]))
  }

  lemma {:induction false} NotHeld(path: seq<string>, schemas: Schemas, relation: string)
    requires "temp" in schemas ==> relation !in schemas["temp"]
    ensures FirstHolding(path, schemas, relation) != Some("temp")
  {
    if |path| > 0 {
      NotHeld(path[1..], schemas, relation);
    }
  }

  /** The catalogue reaches a relation by name exactly when SQLite finds the name
      in `temp`, whatever the other schemas hold; and then it is the relation
      kept under the name's last part in lower case. */
  lemma RelationIsFound(st: State, name: ObjectName, attached: seq<string>, schemas: Schemas)
    requires |name| > 0 && "temp" in schemas && schemas["temp"] == st.relations.Keys
    ensures st.Relation(name).Some? <==> Found(name, attached, schemas) == Some("temp")
    ensures st.Relation(name).Some? ==>
      Lower(name[|name| - 1]) in st.relations && st.Relation(name).value == st.relations[Lower(name[|name| - 1])]
  {
    var relation, path := Lower(name[|name| - 1]), SearchPath(name, attached);
    LowerTemp();
    if relation !in st.relations {
      NotHeld(path, schemas, relation);
    } else if |name| >= 2 {
      assert path[1..] == [];
      assert FirstHolding([], schemas, relation) == None;
    }
  }

  lemma LowerTemp()
    ensures Lower("temp") == "temp"
  {
  }

  /** A creation is TEMP exactly when it says so or its name is looked up in
      `temp` alone. */
  lemma TemporaryIsLookedUp(flagged: bool, name: ObjectName, attached: seq<string>)
    ensures IsTemporary(flagged, name) <==> flagged || SearchPath(name, attached) == ["temp"]
  {
    LowerTemp();
    assert |["temp", "main"] + attached| >= 2;
  }

  /** A DROP reaches what SQLite finds in `temp`, indexes in their own names. */
  lemma DropIsFound(st: State, kind: DropKind, name: ObjectName, attached: seq<string>, schemas: Schemas)
    requires |name| > 0 && !kind.DropOther? && "temp" in schemas
    requires schemas["temp"] == if kind.DropIndex? then st.indexes.Keys else st.relations.Keys
    ensures st.DropTarget(kind, name).Some? <==> Found(name, attached, schemas) == Some("temp")
    ensures st.DropTarget(kind, name).Some? ==>
      && st.DropTarget(kind, name).value.0 == Lower(name[|name| - 1])
      && st.DropTarget(kind, name).value.1
         == (if kind.DropIndex? then st.indexes else st.relations)[Lower(name[|name| - 1])]
  {
    var relation, path := Lower(name[|name| - 1]), SearchPath(name, attached);
    LowerTemp();
    if relation !in schemas["temp"] {
      NotHeld(path, schemas, relation);
    } else if |name| >= 2 {
      assert path[1..] == [];
      assert FirstHolding([], schemas, relation) == None;
    }
  }

  /** A write raises the live triggers that share a change with it and are on
      what SQLite finds for its name: the relation in `temp`, or else the file's
      table of that name. */
  lemma RaisedAreFound(st: State, name: ObjectName, events: Events, attached: seq<string>, schemas: Schemas, t: nat)
    requires |name| > 0 && "temp" in schemas && schemas["temp"] == st.relations.Keys
    ensures (t, events) in st.Raised(name, events) <==>
      && t < |st.objects| && st.objects[t].alive && st.objects[t].shape.TriggerShape?
      && (exists change :: Holds(st.objects[t].shape.events, change) && Holds(events, change))
      && (if Found(name, attached, schemas) == Some("temp") then
            && Lower(name[|name| - 1]) in st.relations
            && st.objects[t].shape.owner == Connection(st.relations[Lower(name[|name| - 1])])
          else st.objects[t].shape.owner == File(Lower(name[|name| - 1])))
  {
    hide Found, Events.Overlaps, Holds, State.Relation;
    RelationIsFound(st, name, attached, schemas);
    if t < |st.objects| && st.objects[t].shape.TriggerShape? {
      OverlapIsShared(st.objects[t].shape.events, events);
    }
  }
}
