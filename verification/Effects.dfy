/** What every unit of a batch touches and reads among the connection-local
    objects.

    A trigger body and a view body are resolved by name when they run, so a
    row write is a search through the triggers it fires. The search is stated
    here against its declarative meaning: the least set of (trigger, events)
    pairs closed under firing, and the least set of reads closed under view
    bases. */
module Effects {
  import opened Wrappers
  import opened Statements

  datatype Owner = Connection(id: nat) | File(table: string)

  datatype Shape =
    | TableShape
    | ViewShape(bases: seq<string>)
    | TriggerShape(owner: Owner, events: Events, body: seq<RowStatement>)
    | IndexShape(table: nat)

  datatype Object = Object(shape: Shape, alive: bool)

  /** The connection-local objects: one entry per object ever created, and the
      names that currently reach them. */
  datatype State = State(objects: seq<Object>, relations: map<string, nat>, triggers: map<string, nat>,
    indexes: map<string, nat>) {

    predicate Names(m: map<string, nat>) {
      forall key :: key in m ==> m[key] < |objects|
    }

    ghost predicate Valid() {
      && Names(relations) && Names(triggers) && Names(indexes)
      && (forall key :: key in relations ==>
          objects[relations[key]].shape.TableShape? || objects[relations[key]].shape.ViewShape?)
      && (forall key :: key in triggers ==> objects[triggers[key]].shape.TriggerShape?)
      && (forall key :: key in indexes ==> objects[indexes[key]].shape.IndexShape?)
      && (forall i :: 0 <= i < |objects| ==> ValidShape(objects[i].shape))
    }

    /** What a trigger or an index hangs off is a relation, and trigger bodies
        mention what they write. */
    predicate ValidShape(shape: Shape) {
      match shape
      case TriggerShape(Connection(id), _, body) =>
        IsRelation(id) && forall b :: 0 <= b < |body| ==> MentionsTarget(body[b])
      case TriggerShape(File(_), _, body) => forall b :: 0 <= b < |body| ==> MentionsTarget(body[b])
      case IndexShape(id) => IsRelation(id)
      case _ => true
    }

    predicate IsRelation(id: nat) {
      id < |objects| && (objects[id].shape.TableShape? || objects[id].shape.ViewShape?)
    }

    /** The connection relation `name` reaches. */
    function Relation(name: ObjectName): (id: Option<nat>)
      ensures Names(relations) && id.Some? ==> id.value < |objects|
    {
      match Split(name)
      case None => None
      case Some((schema, key)) =>
        if NamesOtherSchema(schema) || key !in relations then None else Some(relations[key])
    }

    /** The relation a write to `name` raises events on. */
    function OwnerOf(name: ObjectName): Option<Owner> {
      match Relation(name)
      case Some(id) => Some(Connection(id))
      case None => match Split(name) case Some((_, table)) => Some(File(table)) case None => None
    }

    predicate Fires(name: ObjectName, events: Events, t: nat) {
      && t < |objects|
      && objects[t].alive
      && objects[t].shape.TriggerShape?
      && OwnerOf(name) == Some(objects[t].shape.owner)
      && objects[t].shape.events.Overlaps(events)
    }

    // -------------------------------------------------------------------
    // Firing, declaratively
    // -------------------------------------------------------------------

    /** The keys a row write raises at once. */
    function Raised(name: ObjectName, events: Events): set<Key> {
      set t: nat | t < |objects| && Fires(name, events, t) :: (t, events)
    }

    function Body(k: Key): seq<RowStatement> {
      if k.0 < |objects| && objects[k.0].shape.TriggerShape? then objects[k.0].shape.body else []
    }

    /** The keys one statement of a trigger body raises. */
    function RaisedBy(statement: RowStatement): set<Key> {
      match RowWriteOf(statement.kind)
      case Some(Table(name, events)) => Raised(name, events)
      case _ => {}
    }

    ghost predicate Expanded(k: Key, keys: set<Key>) {
      forall b :: 0 <= b < |Body(k)| ==> RaisedBy(Body(k)[b]) <= keys
    }

    ghost predicate FiringClosed(keys: set<Key>) {
      forall k :: k in keys ==> Expanded(k, keys)
    }

    // -------------------------------------------------------------------
    // What writes contribute
    // -------------------------------------------------------------------

    function Hits(name: ObjectName): Charge {
      match Relation(name)
      case None => Charge({}, {}, true)
      case Some(id) =>
        if id < |objects| && objects[id].shape.TableShape? then Charge({id}, {}, false)
        else if id < |objects| && objects[id].shape.ViewShape? then Charge({}, {id}, false)
        else Charge({}, {}, false)
    }

    /** The relations `names` reach. */
    function Named(names: seq<string>): set<nat> {
      set n | n in names && n in relations :: relations[n]
    }

    function ChargeOf(statement: RowStatement): Charge {
      Charge({}, Named(statement.names), false).Plus(
        match RowWriteOf(statement.kind)
        case Some(Table(name, _)) => Hits(name)
        case Some(Untracked) => Charge({}, {}, true)
        case None => Charge({}, {}, false))
    }

    /** What the first `n` statements of a body contribute. */
    function ChargeOfBody(body: seq<RowStatement>, n: nat): Charge
      requires n <= |body|
    {
      if n == 0 then Charge({}, {}, false) else ChargeOfBody(body, n - 1).Plus(ChargeOf(body[n - 1]))
    }

    function ChargeOfKey(k: Key): Charge {
      Charge({}, {k.0}, false).Plus(ChargeOfBody(Body(k), |Body(k)|))
    }

    /** What a set of fired keys contributes. */
    ghost function ChargeOfKeys(keys: set<Key>): Charge {
      Charge(set k, id | k in keys && id in ChargeOfKey(k).touches :: id,
             set k, id | k in keys && id in ChargeOfKey(k).seeds :: id,
             exists k :: k in keys && ChargeOfKey(k).persistent)
    }

    // -------------------------------------------------------------------
    // Definitions
    // -------------------------------------------------------------------

    predicate HangsOff(d: nat, id: nat) {
      && d < |objects|
      && objects[d].alive
      && match objects[d].shape
         case TriggerShape(Connection(owner), _, _) => owner == id
         case IndexShape(owner) => owner == id
         case _ => false
    }

    /** The live triggers and indexes attached to `id`. */
    function Attached(id: nat): set<nat> {
      set d: nat | d < |objects| && HangsOff(d, id)
    }

    /** What dropping `id` drops. */
    function Dying(id: nat): set<nat> {
      if id < |objects| && objects[id].alive then {id} + Attached(id) else {}
    }

    /** The catalogue after `id` is dropped with everything attached to it. */
    function Retired(id: nat): State {
      State(Kill(objects, Dying(id)), relations, Without(triggers, Dying(id) - {id}),
        Without(indexes, Dying(id) - {id}))
    }

    /** The catalogue with a new object under `key`, among its own kind. */
    function Entered(key: string, shape: Shape): State {
      var n, grown := |objects|, objects + [Object(shape, true)];
      match shape
      case TriggerShape(_, _, _) => State(grown, relations, triggers[key := n], indexes)
      case IndexShape(_) => State(grown, relations, triggers, indexes[key := n])
      case _ => State(grown, relations[key := n], triggers, indexes)
    }

    /** The catalogue after `name` is created as a relation. */
    function Created(name: ObjectName, ifNotExists: bool, shape: Shape): State {
      match Split(name)
      case None => this
      case Some((_, key)) =>
        if ifNotExists && key in relations then this
        else Entered(key, shape)
    }

    /** The catalogue a replaced view leaves behind. */
    function ViewReplaced(name: ObjectName, orReplace: bool): State {
      match Split(name)
      case Some((_, key)) =>
        if orReplace && key in relations then this.(relations := relations - {key}).Retired(relations[key]) else this
      case None => this
    }

    function TriggerDropped(name: ObjectName): State {
      match Split(name)
      case Some((_, key)) =>
        if key in triggers then this.(triggers := triggers - {key}).Retired(triggers[key]) else this
      case None => this
    }

    /** The catalogue after `t` is created on whatever its table names. */
    function TriggerCreated(t: Statement): State
      requires t.CreateTrigger?
    {
      match (Split(t.name), OwnerOf(t.table))
      case (Some((_, key)), Some(owner)) =>
        var cleared := if t.orReplace then TriggerDropped(t.name) else this;
        cleared.Entered(key, TriggerShape(owner, t.events, t.body))
      case _ => this
    }

    function IndexCreated(name: Option<ObjectName>, table: ObjectName): State {
      match (Relation(table), name)
      case (Some(owner), Some(name)) =>
        (match Split(name)
         case Some((_, key)) => Entered(key, IndexShape(owner))
         case None => this)
      case _ => this
    }

    /** The catalogue after `renames` of `name`, whose object is `id`. */
    function Renamed(name: ObjectName, renames: seq<Option<ObjectName>>, id: nat): State {
      if |renames| == 0 then this
      else
        var before := Renamed(name, renames[..|renames| - 1], id);
        match renames[|renames| - 1]
        case None => before
        case Some(to) =>
          match (Split(name), Split(to))
          case (Some((_, from)), Some((_, key))) => before.(relations := (before.relations - {from})[key := id])
          case _ => before
    }

    function DroppedAll(kind: DropKind, names: seq<ObjectName>): State {
      if |names| == 0 then this else DroppedAll(kind, names[..|names| - 1]).Dropped(kind, names[|names| - 1])
    }

    /** The catalogue after one statement. */
    function After(statement: Statement): State {
      match statement
      case CreateTable(name, temporary, ifNotExists, _) =>
        if IsTemporary(temporary, name) then Created(name, ifNotExists, TableShape) else this
      case CreateVirtualTable(name, ifNotExists) =>
        if IsTemporary(false, name) then Created(name, ifNotExists, TableShape) else this
      case CreateView(name, temporary, orReplace, bases) =>
        if IsTemporary(temporary, name) then ViewReplaced(name, orReplace).Created(name, false, ViewShape(bases))
          else this
      case CreateTrigger(_, temporary, _, table, _, _) =>
        if temporary || Relation(table).Some? then TriggerCreated(statement) else this
      case CreateIndex(name, table) => IndexCreated(name, table)
      case Drop(kind, names) => DroppedAll(kind, names)
      case DropTrigger(name) => TriggerDropped(name)
      case AlterTable(name, renames) =>
        (match Relation(name) case Some(id) => Renamed(name, renames, id) case None => this)
      case _ => this
    }

    /** The catalogue after one unit. */
    function AfterAll(unit: seq<Statement>): State {
      if |unit| == 0 then this else AfterAll(unit[..|unit| - 1]).After(unit[|unit| - 1])
    }

    /** What an ALTER changes beside creating and dropping. */
    function Altered(statement: Statement): set<nat> {
      if statement.AlterTable? && Relation(statement.name).Some? then {Relation(statement.name).value} else {}
    }

    /** What a definition reads. */
    function ReadBy(statement: Statement): set<nat> {
      match statement
      case CreateTable(name, temporary, _, Some(query)) => if IsTemporary(temporary, name) then Named(query) else {}
      case CreateTrigger(name, _, _, table, _, _) =>
        if Split(name).Some? && Relation(table).Some? then {Relation(table).value} else {}
      case CreateIndex(name, table) =>
        if Relation(table).Some? && name.Some? && Split(name.value).Some? then {Relation(table).value} else {}
      case _ => {}
    }

    /** The catalogue after one name of a DROP. */
    function Dropped(kind: DropKind, name: ObjectName): State {
      match DropTarget(kind, name)
      case None => this
      case Some((key, id)) =>
        if kind.DropIndex? then this.(indexes := indexes - {key}).Retired(id)
          else this.(relations := relations - {key}).Retired(id)
    }

    function DropTarget(kind: DropKind, name: ObjectName): Option<(string, nat)> {
      match Split(name)
      case None => None
      case Some((schema, key)) =>
        if NamesOtherSchema(schema) || kind.DropOther? then None
        else
          var m := if kind.DropIndex? then indexes else relations;
          if key in m then Some((key, m[key])) else None
    }

    /** A read view reads its bases. */
    ghost predicate UsesClosed(uses: set<nat>) {
      forall id :: id in uses ==> BasesIn(id, uses)
    }

    predicate BasesIn(id: nat, uses: set<nat>) {
      id < |objects| && objects[id].shape.ViewShape? ==> Named(objects[id].shape.bases) <= uses
    }
  }

  function Kill(objects: seq<Object>, dead: set<nat>): (killed: seq<Object>)
    ensures |killed| == |objects|
  {
    seq(|objects|, i requires 0 <= i < |objects| => if i in dead then objects[i].(alive := false) else objects[i])
  }

  function Without(m: map<string, nat>, ids: set<nat>): map<string, nat> {
    map key | key in m && m[key] !in ids :: m[key]
  }

  predicate Submap(a: map<string, nat>, b: map<string, nat>) {
    forall key :: key in a ==> key in b && a[key] == b[key]
  }

  predicate SameShapes(a: seq<Object>, b: seq<Object>) {
    |a| == |b| && forall i :: 0 <= i < |a| ==> a[i].shape == b[i].shape
  }

  lemma SameShapesSameValidity(st: State, next: State, shape: Shape)
    requires |st.objects| <= |next.objects| && SameShapes(st.objects, next.objects[..|st.objects|])
        && st.ValidShape(shape)
    ensures next.ValidShape(shape)
  {
  }

  /** Losing names and lives, and no shape, keeps a catalogue valid. */
  lemma NarrowedIsValid(st: State, next: State)
    requires st.Valid() && SameShapes(st.objects, next.objects)
    requires Submap(next.relations, st.relations) && Submap(next.triggers, st.triggers)
        && Submap(next.indexes, st.indexes)
    ensures next.Valid()
  {
    hide State.ValidShape;
    assert next.objects[..|st.objects|] == next.objects;
    forall i | 0 <= i < |next.objects| ensures next.ValidShape(next.objects[i].shape) {
      SameShapesSameValidity(st, next, st.objects[i].shape);
    }
  }

  lemma RetiredIsValid(st: State, id: nat)
    requires st.Valid()
    ensures st.Retired(id).Valid()
  {
    hide State.Valid;
    NarrowedIsValid(st, st.Retired(id));
  }

  lemma RetiredEvolves(st: State, id: nat)
    requires id < |st.objects|
    ensures Evolves(st, st.Retired(id)) && Changed(st, st.Retired(id)) == st.Dying(id)
  {
  }

  /** What is attached is attached to relations, so nothing hangs off it. */
  lemma AttachedEndsHere(st: State, id: nat, d: nat)
    requires st.Valid() && id < |st.objects| && d in st.Attached(id)
    ensures st.Attached(d) == {}
  {
    assert !st.IsRelation(d);
    forall e: nat | e < |st.objects| ensures !st.HangsOff(e, d) {
      assert st.ValidShape(st.objects[e].shape);
    }
  }

  /** From `st` to `next` objects are only ever added and dropped. */
  ghost predicate Evolves(st: State, next: State) {
    && |st.objects| <= |next.objects|
    && forall i :: 0 <= i < |st.objects| ==>
         next.objects[i].shape == st.objects[i].shape && (next.objects[i].alive ==> st.objects[i].alive)
  }

  /** The objects created or dropped between `st` and `next`. */
  function Changed(st: State, next: State): set<nat> {
    set i: nat | i < |next.objects| && (i >= |st.objects| || next.objects[i] != st.objects[i])
  }

  lemma ChangedThrough(a: State, b: State, c: State)
    requires Evolves(a, b) && Evolves(b, c)
    ensures Evolves(a, c) && Changed(a, c) == Changed(a, b) + Changed(b, c)
  {
  }

  /** A fired trigger and the events it was fired for. */
  type Key = (nat, Events)

  /** What writes add: tables changed, objects read before view bases are
      followed, and whether file storage is written. */
  datatype Charge = Charge(touches: set<nat>, seeds: set<nat>, persistent: bool) {
    function Plus(other: Charge): Charge {
      Charge(touches + other.touches, seeds + other.seeds, persistent || other.persistent)
    }
  }

  /** The recorded effects of one unit. */
  datatype Footprint = Footprint(touches: seq<nat>, uses: seq<nat>, persistentWrite: bool)

  const EMPTY := Footprint([], [], false)

  function Ids(s: seq<nat>): set<nat> {
    set x | x in s
  }

  class Effects {
    var touches: seq<nat>
    var uses: seq<nat>
    var persistentWrite: bool

    constructor ()
      ensures Recorded() == EMPTY
    {
      touches, uses, persistentWrite := [], [], false;
    }

    function Recorded(): Footprint
      reads this
    {
      Footprint(touches, uses, persistentWrite)
    }

    method Touch(id: nat)
      modifies this
      ensures Ids(touches) == Ids(old(touches)) + {id}
      ensures uses == old(uses) && persistentWrite == old(persistentWrite)
    {
      if id !in touches {
        touches := touches + [id];
      }
    }

    method Read(id: nat)
      modifies this
      ensures Ids(uses) == Ids(old(uses)) + {id}
      ensures touches == old(touches) && persistentWrite == old(persistentWrite)
    {
      if id !in uses {
        uses := uses + [id];
      }
    }
  }

  /** `after` is `before` with exactly what `charge` says: its `uses` are the
      least ones that hold the seeds and follow view bases. */
  ghost predicate Grew(st: State, before: Footprint, after: Footprint, charge: Charge) {
    && Ids(after.touches) == Ids(before.touches) + charge.touches
    && after.persistentWrite == (before.persistentWrite || charge.persistent)
    && Ids(before.uses) + charge.seeds <= Ids(after.uses)
    && (forall C: set<nat> :: st.UsesClosed(C) && Ids(before.uses) + charge.seeds <= C ==> Ids(after.uses) <= C)
    && (st.UsesClosed(Ids(before.uses)) ==> st.UsesClosed(Ids(after.uses)))
  }

  lemma GrewThenGrew(st: State, a: Footprint, b: Footprint, c: Footprint, first: Charge, second: Charge)
    requires Grew(st, a, b, first) && Grew(st, b, c, second)
    ensures Grew(st, a, c, first.Plus(second))
  {
    forall C: set<nat> | st.UsesClosed(C) && Ids(a.uses) + first.Plus(second).seeds <= C
      ensures Ids(c.uses) <= C
    {
      assert Ids(b.uses) <= C;
    }
  }

  lemma ChargeOfUnion(st: State, a: set<Key>, b: set<Key>)
    ensures st.ChargeOfKeys(a + b) == st.ChargeOfKeys(a).Plus(st.ChargeOfKeys(b))
  {
  }

  lemma ChargeOfOne(st: State, k: Key)
    ensures st.ChargeOfKeys({k}) == st.ChargeOfKey(k)
  {
    assert k in {k};
  }

  lemma ChargeAlgebra(a: Charge, b: Charge, c: Charge)
    ensures a.Plus(b).Plus(c) == a.Plus(b.Plus(c))
    ensures a.Plus(b) == b.Plus(a)
    ensures a.Plus(Charge({}, {}, false)) == a
  {
  }

  lemma Rearrange(a: Charge, b: Charge, c: Charge, d: Charge)
    ensures a.Plus(b).Plus(c.Plus(d)) == a.Plus(c).Plus(b.Plus(d))
  {
  }

  function Below(n: nat): (ids: set<nat>)
    ensures forall id: nat :: id in ids <==> id < n
  {
    if n == 0 then {} else Below(n - 1) + {n - 1}
  }

  function Keys(fired: seq<Key>): set<Key> {
    set k | k in fired
  }

  const EVERY_EVENTS: set<Events> :=
    {Events(false, false, false), Events(true, false, false), Events(false, true, false), Events(true, true, false),
     Events(false, false, true), Events(true, false, true), Events(false, true, true), Events(true, true, true)}

  /** The pairs a search over `n` objects has not fired, which bounds it. */
  function Unfired(n: nat, fired: seq<Key>): set<Key> {
    set t: nat, e | t < n && e in EVERY_EVENTS && (t, e) !in fired :: (t, e)
  }

  lemma UnfiredShrinks(n: nat, fired: seq<Key>, more: seq<Key>)
    requires Keys(fired) <= Keys(more)
    ensures Unfired(n, more) <= Unfired(n, fired)
  {
    forall k | k in Unfired(n, more) ensures k in Unfired(n, fired) {
      assert k.0 < n && k.1 in EVERY_EVENTS;
      assert k !in Keys(more);
    }
  }

  lemma EventsAreListed(e: Events)
    ensures e in EVERY_EVENTS
  {
    assert e == Events(e.insert, e.update, e.delete);
    match e {
      case Events(true, true, true) =>
      case Events(true, true, false) =>
      case Events(true, false, true) =>
      case Events(true, false, false) =>
      case Events(false, true, true) =>
      case Events(false, true, false) =>
      case Events(false, false, true) =>
      case Events(false, false, false) =>
    }
  }

  lemma FiringShrinks(n: nat, fired: seq<Key>, k: Key)
    requires k.0 < n && k !in fired
    ensures Unfired(n, fired + [k]) < Unfired(n, fired)
  {
    UnfiredShrinks(n, fired, fired + [k]);
    EventsAreListed(k.1);
    assert (k.0, k.1) in Unfired(n, fired);
  }

  /** What a search from the keys `roots` did to `fired`: every root is fired,
      every newly fired key is expanded, and nothing else was fired. */
  ghost predicate Searched(st: State, roots: set<Key>, fired: seq<Key>, fired': seq<Key>) {
    && Keys(fired) <= Keys(fired')
    && roots <= Keys(fired')
    && (forall k :: k in Keys(fired') - Keys(fired) ==> st.Expanded(k, Keys(fired')))
    && (forall C: set<Key> :: st.FiringClosed(C) && roots <= C ==> Keys(fired') - Keys(fired) <= C)
  }

  lemma SearchGrows(st: State, roots: set<Key>, fired: seq<Key>, fired': seq<Key>)
    requires Searched(st, roots, fired, fired')
    ensures Keys(fired) <= Keys(fired')
  {
  }

  lemma SearchedThenSearched(st: State, a: set<Key>, b: set<Key>, f0: seq<Key>, f1: seq<Key>, f2: seq<Key>)
    requires Searched(st, a, f0, f1) && Searched(st, b, f1, f2)
    ensures Searched(st, a + b, f0, f2)
    ensures st.ChargeOfKeys(Keys(f2) - Keys(f0))
        == st.ChargeOfKeys(Keys(f1) - Keys(f0)).Plus(st.ChargeOfKeys(Keys(f2) - Keys(f1)))
  {
    var first, second := Keys(f1) - Keys(f0), Keys(f2) - Keys(f1);
    assert Keys(f2) - Keys(f0) == first + second;
    ChargeOfUnion(st, first, second);
    forall k | k in first + second ensures st.Expanded(k, Keys(f2)) {
      if k in first {
        assert st.Expanded(k, Keys(f1));
      }
    }
  }

  /** The keys the triggers before `n` contribute to a row write. */
  function RaisedBelow(st: State, name: ObjectName, events: Events, n: nat): set<Key> {
    set t: nat | t < n && st.Fires(name, events, t) :: (t, events)
  }

  function RaisedAt(st: State, name: ObjectName, events: Events, t: nat): set<Key> {
    if st.Fires(name, events, t) then {(t, events)} else {}
  }

  lemma RaisedOneMore(st: State, name: ObjectName, events: Events, n: nat)
    ensures RaisedBelow(st, name, events, n + 1) == RaisedBelow(st, name, events, n) + RaisedAt(st, name, events, n)
  {
  }

  function RaisedByPrefix(st: State, body: seq<RowStatement>, n: nat): set<Key>
    requires n <= |body|
  {
    if n == 0 then {} else RaisedByPrefix(st, body, n - 1) + st.RaisedBy(body[n - 1])
  }

  /** One more step of a search: `more` keys are raised, and `step` is charged
      beside what firing them charges. */
  lemma SearchOn(st: State, roots: set<Key>, more: set<Key>, f0: seq<Key>, f1: seq<Key>, f2: seq<Key>,
                 before: Footprint, mid: Footprint, after: Footprint, charge: Charge, step: Charge)
    requires Searched(st, roots, f0, f1) && Searched(st, more, f1, f2)
    requires Grew(st, before, mid, charge.Plus(st.ChargeOfKeys(Keys(f1) - Keys(f0))))
    requires Grew(st, mid, after, step.Plus(st.ChargeOfKeys(Keys(f2) - Keys(f1))))
    ensures Searched(st, roots + more, f0, f2)
    ensures Grew(st, before, after, charge.Plus(step).Plus(st.ChargeOfKeys(Keys(f2) - Keys(f0))))
  {
    SearchedThenSearched(st, roots, more, f0, f1, f2);
    var first, second := st.ChargeOfKeys(Keys(f1) - Keys(f0)), st.ChargeOfKeys(Keys(f2) - Keys(f1));
    GrewThenGrew(st, before, mid, after, charge.Plus(first), step.Plus(second));
    Rearrange(charge, first, step, second);
  }

  lemma {:induction false} PrefixRaises(st: State, body: seq<RowStatement>, n: nat, b: nat)
    requires b < n <= |body|
    ensures st.RaisedBy(body[b]) <= RaisedByPrefix(st, body, n)
  {
    if b < n - 1 {
      PrefixRaises(st, body, n - 1, b);
    }
  }

  lemma {:induction false} PrefixWithin(st: State, body: seq<RowStatement>, n: nat, keys: set<Key>)
    requires n <= |body|
    requires forall b :: 0 <= b < |body| ==> st.RaisedBy(body[b]) <= keys
    ensures RaisedByPrefix(st, body, n) <= keys
  {
    if n > 0 {
      PrefixWithin(st, body, n - 1, keys);
    }
  }

  /** Firing `k` is expanding it: its body's search, and itself. */
  lemma FiredOne(st: State, k: Key, fired: seq<Key>, fired': seq<Key>)
    requires k !in fired
    requires Searched(st, RaisedByPrefix(st, st.Body(k), |st.Body(k)|), fired + [k], fired')
    ensures Searched(st, {k}, fired, fired')
  {
    var start := Keys(fired + [k]);
    assert start == Keys(fired) + {k};
    forall b | 0 <= b < |st.Body(k)| ensures st.RaisedBy(st.Body(k)[b]) <= Keys(fired') {
      PrefixRaises(st, st.Body(k), |st.Body(k)|, b);
    }
    assert st.Expanded(k, Keys(fired'));
    forall C: set<Key> | st.FiringClosed(C) && {k} <= C ensures Keys(fired') - Keys(fired) <= C {
      assert k in C && st.Expanded(k, C);
      PrefixWithin(st, st.Body(k), |st.Body(k)|, C);
      assert Keys(fired') - start <= C;
    }
  }

  lemma FiredOneCharge(st: State, k: Key, fired: seq<Key>, fired': seq<Key>)
    requires k !in fired && Keys(fired + [k]) <= Keys(fired')
    ensures st.ChargeOfKeys(Keys(fired') - Keys(fired))
         == st.ChargeOfKey(k).Plus(st.ChargeOfKeys(Keys(fired') - Keys(fired + [k])))
  {
    assert Keys(fired + [k]) == Keys(fired) + {k};
    assert k in Keys(fired + [k]);
    assert Keys(fired') - Keys(fired) == {k} + (Keys(fired') - Keys(fired + [k]));
    ChargeOfUnion(st, {k}, Keys(fired') - Keys(fired + [k]));
    ChargeOfOne(st, k);
  }

  lemma ReadIsCharged(st: State, before: Footprint, after: Footprint, id: nat)
    requires after.touches == before.touches && after.persistentWrite == before.persistentWrite
    requires Ids(after.uses) == Ids(before.uses) + {id} && !(id < |st.objects| && st.objects[id].shape.ViewShape?)
    ensures Grew(st, before, after, Charge({}, {id}, false).Plus(Charge({}, {}, false)).Plus(Charge({}, {}, false)))
  {
  }

  lemma OneMoreStatement(st: State, body: seq<RowStatement>, b: nat, own: Charge)
    requires b < |body|
    ensures RaisedByPrefix(st, body, b + 1) == RaisedByPrefix(st, body, b) + st.RaisedBy(body[b])
    ensures own.Plus(st.ChargeOfBody(body, b + 1)) == own.Plus(st.ChargeOfBody(body, b)).Plus(st.ChargeOf(body[b]))
  {
  }

  lemma BodyAtFiring(st: State, k: Key)
    requires st.Valid() && k.0 < |st.objects| && st.objects[k.0].shape.TriggerShape?
    ensures var body := st.objects[k.0].shape.body;
            && body == st.Body(k)
            && (forall b :: 0 <= b < |body| ==> MentionsTarget(body[b]))
            && Charge({}, {k.0}, false).Plus(st.ChargeOfBody(body, |body|)) == st.ChargeOfKey(k)
            && st.ChargeOfBody(body, 0) == Charge({}, {}, false)
            && RaisedByPrefix(st, body, 0) == {}
  {
  }

  // ---------------------------------------------------------------------
  // Definitions keep the catalogue valid
  // ---------------------------------------------------------------------

  lemma ForgottenIsValid(st: State, key: string)
    requires st.Valid()
    ensures st.(relations := st.relations - {key}).Valid()
    ensures st.(triggers := st.triggers - {key}).Valid()
    ensures st.(indexes := st.indexes - {key}).Valid()
  {
    hide State.Valid;
    NarrowedIsValid(st, st.(relations := st.relations - {key}));
    NarrowedIsValid(st, st.(triggers := st.triggers - {key}));
    NarrowedIsValid(st, st.(indexes := st.indexes - {key}));
  }

  lemma EnteredEvolves(st: State, key: string, shape: Shape)
    ensures Evolves(st, st.Entered(key, shape)) && Changed(st, st.Entered(key, shape)) == {|st.objects|}
  {
  }

  lemma EnteredShapes(st: State, key: string, shape: Shape)
    requires st.Valid() && st.ValidShape(shape)
    ensures forall i :: 0 <= i < |st.Entered(key, shape).objects| ==>
        st.Entered(key, shape).ValidShape(st.Entered(key, shape).objects[i].shape)
  {
    hide State.ValidShape;
    var next := st.Entered(key, shape);
    assert next.objects[..|st.objects|] == st.objects;
    forall i | 0 <= i < |next.objects| ensures next.ValidShape(next.objects[i].shape) {
      SameShapesSameValidity(st, next, next.objects[i].shape);
    }
  }

  lemma EnteredIsValid(st: State, key: string, shape: Shape)
    requires st.Valid() && st.ValidShape(shape)
    ensures st.Entered(key, shape).Valid()
  {
    EnteredShapes(st, key, shape);
    hide State.ValidShape;
  }

  lemma {:induction false} RenamedIsValid(st: State, name: ObjectName, renames: seq<Option<ObjectName>>, id: nat)
    requires st.Valid() && st.IsRelation(id)
    ensures st.Renamed(name, renames, id).Valid() && st.Renamed(name, renames, id).objects == st.objects
  {
    hide State.Valid;
    if |renames| > 0 {
      var before := st.Renamed(name, renames[..|renames| - 1], id);
      RenamedIsValid(st, name, renames[..|renames| - 1], id);
      if renames[|renames| - 1].Some? && Split(name).Some? && Split(renames[|renames| - 1].value).Some? {
        MovedIsValid(before, Split(name).value.1, Split(renames[|renames| - 1].value).value.1, id);
      }
    }
  }

  lemma MovedIsValid(st: State, key: string, renamed: string, id: nat)
    requires st.Valid() && st.IsRelation(id)
    ensures st.(relations := (st.relations - {key})[renamed := id]).Valid()
  {
    var next := st.(relations := (st.relations - {key})[renamed := id]);
    assert SameShapes(st.objects, next.objects[..|st.objects|]);
    forall shape: Shape ensures st.ValidShape(shape) <==> next.ValidShape(shape) {
    }
  }

  lemma DroppedIsValid(st: State, kind: DropKind, name: ObjectName)
    requires st.Valid()
    ensures st.Dropped(kind, name).Valid() && Evolves(st, st.Dropped(kind, name))
  {
    match st.DropTarget(kind, name)
    case None =>
    case Some((key, id)) =>
      ForgottenIsValid(st, key);
      var forgotten := if kind.DropIndex? then st.(indexes := st.indexes - {key})
        else st.(relations := st.relations - {key});
      RetiredIsValid(forgotten, id);
      RetiredEvolves(forgotten, id);
  }

  lemma NothingChanged(st: State)
    ensures Evolves(st, st) && Changed(st, st) == {}
  {
  }

  lemma NameTargets(st: State, key: string)
    requires st.Valid()
    ensures key in st.relations ==> st.relations[key] < |st.objects|
    ensures key in st.triggers ==> st.triggers[key] < |st.objects|
    ensures key in st.indexes ==> st.indexes[key] < |st.objects|
  {
  }

  /** Forgetting a name changes no object. */
  lemma ForgottenChangesNothing(st: State, forgotten: State, next: State)
    requires forgotten.objects == st.objects && Evolves(forgotten, next)
    ensures Evolves(st, next) && Changed(st, next) == Changed(forgotten, next)
  {
  }

  lemma TriggerShapeIsValid(st: State, t: Statement)
    requires st.Valid() && t.CreateTrigger? && WellFormed(t) && st.OwnerOf(t.table).Some?
    ensures st.ValidShape(TriggerShape(st.OwnerOf(t.table).value, t.events, t.body))
  {
  }

  // ---------------------------------------------------------------------
  // Footprints of a statement
  // ---------------------------------------------------------------------

  /** Every recorded id is one of the first `n` objects. */
  ghost predicate Within(n: nat, footprint: Footprint) {
    Ids(footprint.touches) <= Below(n) && Ids(footprint.uses) <= Below(n)
  }

  /** A row statement is charged what it writes and reads, and what every
      trigger its write fires does. */
  ghost predicate RowEffects(st: State, rows: RowStatement, before: Footprint, after: Footprint) {
    if RowWriteOf(rows.kind).None? then after == before
    else exists fired :: Searched(st, st.RaisedBy(rows), [], fired)
                         && Grew(st, before, after, st.ChargeOf(rows).Plus(st.ChargeOfKeys(Keys(fired))))
  }

  /** A definition touches exactly what it creates, drops or alters. What
      CREATE TABLE AS reads follows view bases. */
  ghost predicate DefinitionEffects(st: State, statement: Statement, next: State, before: Footprint, after: Footprint) {
    && Ids(after.touches) == Ids(before.touches) + Changed(st, next) + st.Altered(statement)
    && after.persistentWrite == before.persistentWrite
    && Ids(before.uses) + st.ReadBy(statement) <= Ids(after.uses)
    && (forall C: set<nat> :: st.UsesClosed(C) && Ids(before.uses) + st.ReadBy(statement) <= C ==> Ids(after.uses) <= C)
    && (statement.CreateTable? && st.UsesClosed(Ids(before.uses)) ==> st.UsesClosed(Ids(after.uses)))
  }

  /** What one statement adds to a unit's effects. */
  ghost predicate StatementEffects(st: State, statement: Statement, before: Footprint, after: Footprint) {
    if statement.Rows? then RowEffects(st, statement.rows, before, after)
    else DefinitionEffects(st, statement, st.After(statement), before, after)
  }

  /** The effects of a unit: each statement's, from none, in order. */
  ghost predicate UnitEffects(st: State, unit: seq<Statement>, footprint: Footprint) {
    if |unit| == 0 then footprint == EMPTY
    else
      var prefix := unit[..|unit| - 1];
      exists before :: UnitEffects(st, prefix, before)
        && StatementEffects(st.AfterAll(prefix), unit[|unit| - 1], before, footprint)
  }

  /** Reads that follow view bases stay closed under them. */
  lemma ReadsStayClosed(st: State, before: set<nat>, after: set<nat>)
    requires before <= after && forall id :: id in after - before ==> st.BasesIn(id, after)
    ensures st.UsesClosed(before) ==> st.UsesClosed(after)
  {
    if st.UsesClosed(before) {
      forall id | id in after ensures st.BasesIn(id, after) {
        if id in before {
          assert st.BasesIn(id, before);
        }
      }
    }
  }

  /** Every id the catalogue holds is a closed set of reads. */
  lemma BelowIsClosed(st: State)
    requires st.Valid()
    ensures st.UsesClosed(Below(|st.objects|))
  {
  }

  lemma DefinitionWithin(st: State, statement: Statement, next: State, before: Footprint, after: Footprint)
    requires st.Valid() && Evolves(st, next) && Within(|st.objects|, before)
    requires DefinitionEffects(st, statement, next, before, after)
    ensures Within(|next.objects|, after)
  {
    BelowIsClosed(st);
    assert st.ReadBy(statement) <= Below(|st.objects|);
    assert st.Altered(statement) <= Below(|st.objects|);
  }

  lemma {:induction false} BodyWithin(st: State, body: seq<RowStatement>, n: nat)
    requires st.Valid() && n <= |body|
    ensures st.ChargeOfBody(body, n).touches <= Below(|st.objects|)
    ensures st.ChargeOfBody(body, n).seeds <= Below(|st.objects|)
  {
    hide State.ChargeOf, State.Valid, Below;
    if n > 0 {
      BodyWithin(st, body, n - 1);
      StatementWithin(st, body[n - 1]);
    }
  }

  lemma StatementWithin(st: State, statement: RowStatement)
    requires st.Valid()
    ensures st.ChargeOf(statement).touches <= Below(|st.objects|) && st.ChargeOf(statement).seeds <= Below(|st.objects|)
  {
  }

  /** The search never leaves the catalogue's triggers. */
  lemma FiredAreTriggers(st: State, rows: RowStatement, fired: seq<Key>)
    requires Searched(st, st.RaisedBy(rows), [], fired)
    ensures forall k :: k in fired ==> k.0 < |st.objects|
  {
    var every := Unfired(|st.objects|, []);
    forall s: RowStatement ensures st.RaisedBy(s) <= every {
      forall k | k in st.RaisedBy(s) ensures k in every {
        EventsAreListed(k.1);
      }
    }
    assert st.FiringClosed(every);
    assert Keys(fired) - Keys([]) == Keys(fired);
    forall k | k in fired ensures k.0 < |st.objects| {
      assert k in Keys(fired) && k in every;
    }
  }

  lemma KeysWithin(st: State, keys: set<Key>)
    requires st.Valid() && forall k :: k in keys ==> k.0 < |st.objects|
    ensures st.ChargeOfKeys(keys).touches <= Below(|st.objects|)
    ensures st.ChargeOfKeys(keys).seeds <= Below(|st.objects|)
  {
    forall k | k in keys
      ensures st.ChargeOfKey(k).touches <= Below(|st.objects|) && st.ChargeOfKey(k).seeds <= Below(|st.objects|)
    {
      BodyWithin(st, st.Body(k), |st.Body(k)|);
    }
  }

  lemma RowsAreWellFormed(statement: Statement)
    requires WellFormed(statement)
    ensures statement.Rows? ==> MentionsTarget(statement.rows)
  {
  }

  lemma RowEffectsGrow(st: State, rows: RowStatement, before: Footprint, after: Footprint)
    requires st.Valid() && RowEffects(st, rows, before, after) && Within(|st.objects|, before)
    ensures Within(|st.objects|, after) && Ids(before.touches) <= Ids(after.touches)
  {
    if RowWriteOf(rows.kind).Some? {
      var fired :| Searched(st, st.RaisedBy(rows), [], fired)
                   && Grew(st, before, after, st.ChargeOf(rows).Plus(st.ChargeOfKeys(Keys(fired))));
      BelowIsClosed(st);
      FiredAreTriggers(st, rows, fired);
      KeysWithin(st, Keys(fired));
      BodyWithin(st, [rows], 1);
    }
  }

  // ---------------------------------------------------------------------
  // What the recorded effects of a row statement mean
  // ---------------------------------------------------------------------

  /** `k` fires after `n` triggers fired one from another's body, the first
      from the statement itself. */
  ghost predicate FiresAfter(st: State, rows: RowStatement, k: Key, n: nat)
    decreases n
  {
    if n == 0 then k in st.RaisedBy(rows)
    else exists a :: FiresAfter(st, rows, a, n - 1) && Leads(st, a, k)
  }

  ghost predicate Leads(st: State, a: Key, k: Key) {
    exists b :: 0 <= b < |st.Body(a)| && k in st.RaisedBy(st.Body(a)[b])
  }

  ghost predicate Reachable(st: State, rows: RowStatement, k: Key) {
    exists n: nat :: FiresAfter(st, rows, k, n)
  }

  /** A statement that runs: the one recorded, or one in a fired body. */
  ghost predicate Runs(st: State, rows: RowStatement, s: RowStatement) {
    s == rows || exists k :: Reachable(st, rows, k) && s in st.Body(k)
  }

  predicate WritesTable(st: State, s: RowStatement, id: nat) {
    match RowWriteOf(s.kind)
    case Some(Table(name, _)) => st.Relation(name) == Some(id) && id < |st.objects| && st.objects[id].shape.TableShape?
    case _ => false
  }

  predicate LeavesConnection(st: State, s: RowStatement) {
    match RowWriteOf(s.kind)
    case Some(Table(name, _)) => st.Relation(name).None?
    case Some(Untracked) => true
    case None => false
  }

  /** `ids` hold every fired trigger and every name a running statement
      mentions. */
  ghost predicate Serves(st: State, rows: RowStatement, ids: set<nat>) {
    && (forall s :: Runs(st, rows, s) ==> st.Named(s.names) <= ids)
    && forall k :: Reachable(st, rows, k) ==> k.0 in ids
  }

  lemma {:induction false} FiringReaches(st: State, rows: RowStatement, keys: set<Key>, k: Key, n: nat)
    requires st.FiringClosed(keys) && st.RaisedBy(rows) <= keys && FiresAfter(st, rows, k, n)
    ensures k in keys
    decreases n
  {
    if n > 0 {
      var a :| FiresAfter(st, rows, a, n - 1) && Leads(st, a, k);
      FiringReaches(st, rows, keys, a, n - 1);
      assert st.Expanded(a, keys);
    }
  }

  lemma ReachedFrom(st: State, rows: RowStatement, k: Key, next: Key)
    requires Reachable(st, rows, k) && Leads(st, k, next)
    ensures Reachable(st, rows, next)
  {
    var n: nat :| FiresAfter(st, rows, k, n);
    assert FiresAfter(st, rows, next, n + 1);
  }

  /** What is reachable is closed under firing. */
  lemma ReachableIsClosed(st: State, rows: RowStatement, reached: set<Key>)
    requires reached == set k | k in Unfired(|st.objects|, []) && Reachable(st, rows, k)
    ensures st.FiringClosed(reached) && st.RaisedBy(rows) <= reached
  {
    hide FiresAfter, Reachable;
    forall k | k in st.RaisedBy(rows) ensures k in reached {
      ReachedFirst(st, rows, k);
      EventsAreListed(k.1);
    }
    forall k, b, next | k in reached && 0 <= b < |st.Body(k)| && next in st.RaisedBy(st.Body(k)[b])
      ensures next in reached
    {
      assert Leads(st, k, next);
      ReachedFrom(st, rows, k, next);
      EventsAreListed(next.1);
    }
  }

  lemma ReachedFirst(st: State, rows: RowStatement, k: Key)
    requires k in st.RaisedBy(rows)
    ensures Reachable(st, rows, k)
  {
    assert FiresAfter(st, rows, k, 0);
  }

  /** The triggers the search fires are the reachable ones, however the
      trigger bodies loop back on one another. */
  lemma FiredIsReachable(st: State, rows: RowStatement, fired: seq<Key>)
    requires Searched(st, st.RaisedBy(rows), [], fired)
    ensures forall k :: k in fired <==> Reachable(st, rows, k)
  {
    assert Keys(fired) - Keys([]) == Keys(fired);
    var reached := set k | k in Unfired(|st.objects|, []) && Reachable(st, rows, k);
    ReachableIsClosed(st, rows, reached);
    forall k | k in fired ensures Reachable(st, rows, k) {
      assert k in Keys(fired) && k in reached;
    }
    forall k | Reachable(st, rows, k) ensures k in fired {
      var n: nat :| FiresAfter(st, rows, k, n);
      FiringReaches(st, rows, Keys(fired), k, n);
    }
  }

  /** What charge the statements of a list make together. */
  lemma {:induction false} BodyContributes(st: State, body: seq<RowStatement>, n: nat, id: nat)
    requires n <= |body|
    ensures id in st.ChargeOfBody(body, n).touches <==> exists b :: 0 <= b < n && id in st.ChargeOf(body[b]).touches
    ensures id in st.ChargeOfBody(body, n).seeds <==> exists b :: 0 <= b < n && id in st.ChargeOf(body[b]).seeds
    ensures st.ChargeOfBody(body, n).persistent <==> exists b :: 0 <= b < n && st.ChargeOf(body[b]).persistent
  {
    hide State.ChargeOf;
    if n > 0 {
      BodyContributes(st, body, n - 1, id);
    }
  }

  lemma KeyContributes(st: State, k: Key, id: nat)
    ensures id in st.ChargeOfKey(k).touches <==> exists s :: s in st.Body(k) && id in st.ChargeOf(s).touches
    ensures id in st.ChargeOfKey(k).seeds <==> id == k.0 || exists s :: s in st.Body(k) && id in st.ChargeOf(s).seeds
    ensures st.ChargeOfKey(k).persistent <==> exists s :: s in st.Body(k) && st.ChargeOf(s).persistent
  {
    hide State.ChargeOf, State.ChargeOfBody, State.Body;
    var body := st.Body(k);
    BodyContributes(st, body, |body|, id);
    assert forall b :: 0 <= b < |body| ==> body[b] in body;
  }

  lemma ChargeMeaning(st: State, s: RowStatement, id: nat)
    requires st.Valid()
    ensures id in st.ChargeOf(s).touches <==> WritesTable(st, s, id)
    ensures st.ChargeOf(s).persistent <==> LeavesConnection(st, s)
    ensures st.Named(s.names) <= st.ChargeOf(s).seeds
    ensures MentionsTarget(s) ==> st.ChargeOf(s).seeds == st.Named(s.names)
  {
  }

  lemma BodiesMention(st: State, k: Key, s: RowStatement)
    requires st.Valid() && s in st.Body(k)
    ensures MentionsTarget(s)
  {
    assert st.ValidShape(st.objects[k.0].shape);
  }

  /** The charge of a whole run, by the statements that run. */
  lemma RunContributes(st: State, rows: RowStatement, fired: seq<Key>, id: nat)
    requires st.Valid()
    requires forall k :: k in fired <==> Reachable(st, rows, k)
    ensures var charge := st.ChargeOf(rows).Plus(st.ChargeOfKeys(Keys(fired)));
            && (id in charge.touches <==> exists s :: Runs(st, rows, s) && WritesTable(st, s, id))
            && (charge.persistent <==> exists s :: Runs(st, rows, s) && LeavesConnection(st, s))
  {
    hide State.Valid, State.ChargeOf, State.ChargeOfKey, State.Body, Reachable, WritesTable, LeavesConnection;
    forall k
      ensures id in st.ChargeOfKey(k).touches <==> exists s :: s in st.Body(k) && id in st.ChargeOf(s).touches
      ensures st.ChargeOfKey(k).persistent <==> exists s :: s in st.Body(k) && st.ChargeOf(s).persistent
    {
      KeyContributes(st, k, id);
    }
    forall s
      ensures id in st.ChargeOf(s).touches <==> WritesTable(st, s, id)
      ensures st.ChargeOf(s).persistent <==> LeavesConnection(st, s)
    {
      ChargeMeaning(st, s, id);
    }
  }

  /** The seeds of a run's reads: what serves it, and nothing more. */
  lemma SeedsServe(st: State, rows: RowStatement, fired: seq<Key>)
    requires st.Valid()
    requires forall k :: k in fired <==> Reachable(st, rows, k)
    ensures Serves(st, rows, st.ChargeOf(rows).Plus(st.ChargeOfKeys(Keys(fired))).seeds)
  {
    hide State.Valid, State.ChargeOf, State.ChargeOfKey, State.Body, Reachable;
    var seeds := st.ChargeOf(rows).Plus(st.ChargeOfKeys(Keys(fired))).seeds;
    forall k | Reachable(st, rows, k) ensures k.0 in seeds {
      KeyContributes(st, k, k.0);
    }
    forall s, id | Runs(st, rows, s) && id in st.Named(s.names) ensures id in seeds {
      ChargeMeaning(st, s, id);
      if s != rows {
        var k :| Reachable(st, rows, k) && s in st.Body(k);
        KeyContributes(st, k, id);
        assert k in Keys(fired);
      }
    }
  }

  lemma SeedsAreNeeded(st: State, rows: RowStatement, fired: seq<Key>, ids: set<nat>, id: nat)
    requires st.Valid() && MentionsTarget(rows)
    requires forall k :: k in fired <==> Reachable(st, rows, k)
    requires Serves(st, rows, ids) && id in st.ChargeOf(rows).Plus(st.ChargeOfKeys(Keys(fired))).seeds
    ensures id in ids
  {
    hide State.Valid, State.ChargeOf, State.ChargeOfKey, State.Body, Reachable;
    ChargeMeaning(st, rows, id);
    assert Runs(st, rows, rows);
    if id !in st.ChargeOf(rows).seeds {
      var k :| k in fired && id in st.ChargeOfKey(k).seeds;
      KeyContributes(st, k, id);
      if id != k.0 {
        var s :| s in st.Body(k) && id in st.ChargeOf(s).seeds;
        BodiesMention(st, k, s);
        ChargeMeaning(st, s, id);
        assert Runs(st, rows, s);
      }
    }
  }

  /** One row statement recorded from nothing: it touches exactly the
      connection tables some running statement writes, it writes persistently
      exactly when some running statement leaves the connection, and its reads
      are the least that serve the run and follow view bases. */
  lemma RowStatementMeaning(st: State, rows: RowStatement, after: Footprint)
    requires st.Valid() && MentionsTarget(rows) && RowWriteOf(rows.kind).Some?
    requires RowEffects(st, rows, EMPTY, after)
    ensures forall id :: id in after.touches <==> exists s :: Runs(st, rows, s) && WritesTable(st, s, id)
    ensures after.persistentWrite <==> exists s :: Runs(st, rows, s) && LeavesConnection(st, s)
    ensures st.UsesClosed(Ids(after.uses)) && Serves(st, rows, Ids(after.uses))
    ensures forall C: set<nat> :: st.UsesClosed(C) && Serves(st, rows, C) ==> Ids(after.uses) <= C
  {
    hide State.Valid, State.ChargeOf, State.ChargeOfKeys, State.BasesIn, Runs, Reachable, WritesTable, LeavesConnection;
    var fired :| Searched(st, st.RaisedBy(rows), [], fired)
                 && Grew(st, EMPTY, after, st.ChargeOf(rows).Plus(st.ChargeOfKeys(Keys(fired))));
    FiredIsReachable(st, rows, fired);
    var charge := st.ChargeOf(rows).Plus(st.ChargeOfKeys(Keys(fired)));
    RunContributes(st, rows, fired, 0);
    forall id ensures id in after.touches <==> exists s :: Runs(st, rows, s) && WritesTable(st, s, id) {
      RunContributes(st, rows, fired, id);
      assert id in after.touches <==> id in Ids(after.touches);
    }
    SeedsServe(st, rows, fired);
    forall C: set<nat> | st.UsesClosed(C) && Serves(st, rows, C) ensures Ids(after.uses) <= C {
      forall id | id in charge.seeds ensures id in C {
        SeedsAreNeeded(st, rows, fired, C, id);
      }
    }
  }

  class Catalog {
    var objects: seq<Object>
    var relations: map<string, nat>
    var triggers: map<string, nat>
    var indexes: map<string, nat>

    constructor ()
      ensures Model() == State([], map[], map[], map[])
      ensures Model().Valid()
    {
      objects, relations, triggers, indexes := [], map[], map[], map[];
    }

    function Model(): State
      reads this
    {
      State(objects, relations, triggers, indexes)
    }

    /** Adds what the names stand for to the reads, and with every view there the
        bases it stands on. */
    method Reads(names: seq<string>, effects: Effects)
      requires Model().Valid()
      modifies effects
      ensures effects.touches == old(effects.touches) && effects.persistentWrite == old(effects.persistentWrite)
      ensures Ids(old(effects.uses)) + Model().Named(names) <= Ids(effects.uses)
      ensures forall id :: id in Ids(effects.uses) - Ids(old(effects.uses)) ==> Model().BasesIn(id, Ids(effects.uses))
      ensures forall C: set<nat> :: Model().UsesClosed(C) && Ids(old(effects.uses)) + Model().Named(names) <= C ==>
          Ids(effects.uses) <= C
      decreases Below(|objects|) - Ids(effects.uses), |names|
    {
      ghost var st, uses0 := Model(), Ids(effects.uses);
      for i := 0 to |names|
        invariant effects.touches == old(effects.touches) && effects.persistentWrite == old(effects.persistentWrite)
        invariant uses0 <= Ids(effects.uses)
        invariant forall j :: 0 <= j < i && names[j] in relations ==> relations[names[j]] in Ids(effects.uses)
        invariant forall id :: id in Ids(effects.uses) - uses0 ==> st.BasesIn(id, Ids(effects.uses))
        invariant forall C: set<nat> :: st.UsesClosed(C) && uses0 + st.Named(names) <= C ==> Ids(effects.uses) <= C
      {
        if names[i] !in relations {
          continue;
        }
        var id := relations[names[i]];
        if id in effects.uses {
          continue;
        }
        ghost var uses1 := Ids(effects.uses);
        effects.Read(id);
        assert id in st.Named(names);
        match objects[id].shape {
          case ViewShape(bases) =>
            Reads(bases, effects);
            forall C: set<nat> | st.UsesClosed(C) && uses0 + st.Named(names) <= C ensures Ids(effects.uses) <= C {
              assert st.BasesIn(id, C);
              assert uses1 + {id} + st.Named(bases) <= C;
            }
          case _ =>
        }
        forall v | v in Ids(effects.uses) - uses0 ensures st.BasesIn(v, Ids(effects.uses)) {
          if v in uses1 {
            assert st.BasesIn(v, uses1) && uses1 <= Ids(effects.uses);
          }
        }
      }
    }

    /** The target of a row write: a table is changed, a view is read, and
        anything else is file storage. */
    method WriteTarget(name: ObjectName, effects: Effects)
      requires Model().Valid()
      requires Model().Hits(name).seeds <= Ids(effects.uses)
      modifies effects
      ensures Grew(Model(), old(effects.Recorded()), effects.Recorded(), Model().Hits(name))
    {
      match Model().Relation(name) {
        case Some(id) =>
          match objects[id].shape {
            case TableShape => effects.Touch(id);
            case ViewShape(_) => effects.Read(id);
            case _ =>
          }
        case None => effects.persistentWrite := true;
      }
    }

    /** Charges the effects with a write of rows to `name` and with all the
        firings it sets off. */
    method Write(name: ObjectName, events: Events, effects: Effects, fired: seq<Key>) returns (fired': seq<Key>)
      requires Model().Valid()
      requires Model().Hits(name).seeds <= Ids(effects.uses)
      modifies effects
      ensures Searched(Model(), Model().Raised(name, events), fired, fired')
      ensures Grew(Model(), old(effects.Recorded()), effects.Recorded(),
                   Model().Hits(name).Plus(Model().ChargeOfKeys(Keys(fired') - Keys(fired))))
      decreases Unfired(|objects|, fired), 2
    {
      hide Grew, Searched, State.Valid, State.ChargeOfKeys, Unfired;
      var st := Model();
      ghost var before := effects.Recorded();
      fired' := fired;
      NothingFired(st, fired);
      ChargeAlgebra(st.Hits(name), Charge({}, {}, false), Charge({}, {}, false));
      WriteTarget(name, effects);
      var owner := st.OwnerOf(name);
      if owner.None? {
        assert st.Raised(name, events) == {};
        return;
      }
      assert RaisedBelow(st, name, events, 0) == {};
      for t := 0 to |objects|
        invariant Searched(st, RaisedBelow(st, name, events, t), fired, fired')
        invariant Grew(st, before, effects.Recorded(), st.Hits(name).Plus(st.ChargeOfKeys(Keys(fired') - Keys(fired))))
      {
        ghost var f1, mid := fired', effects.Recorded();
        SearchGrows(st, RaisedBelow(st, name, events, t), fired, fired');
        UnfiredShrinks(|objects|, fired, fired');
        fired' := Consider(t, name, events, effects, fired');
        RaisedOneMore(st, name, events, t);
        SearchOn(st, RaisedBelow(st, name, events, t), RaisedAt(st, name, events, t), fired, f1, fired', before, mid,
          effects.Recorded(),
                 st.Hits(name), Charge({}, {}, false));
        ChargeAlgebra(st.Hits(name), Charge({}, {}, false), Charge({}, {}, false));
      }
      assert RaisedBelow(st, name, events, |objects|) == st.Raised(name, events);
    }

    /** Fires trigger `t` when the write to `name` raises it anew. */
    method Consider(t: nat, name: ObjectName, events: Events, effects: Effects, fired: seq<Key>)
        returns (fired': seq<Key>)
      requires Model().Valid() && t < |objects|
      modifies effects
      ensures Searched(Model(), RaisedAt(Model(), name, events, t), fired, fired')
      ensures Grew(Model(), old(effects.Recorded()), effects.Recorded(),
                   Charge({}, {}, false).Plus(Model().ChargeOfKeys(Keys(fired') - Keys(fired))))
      decreases Unfired(|objects|, fired), 1
    {
      var k := (t, events);
      NothingFired(Model(), fired);
      if !Model().Fires(name, events, t) || k in fired {
        return fired;
      }
      fired' := Fire(k, effects, fired);
    }

    /** Fires one trigger: reads it, and runs its body. */
    method Fire(k: Key, effects: Effects, fired: seq<Key>) returns (fired': seq<Key>)
      requires Model().Valid() && k.0 < |objects| && objects[k.0].shape.TriggerShape? && k !in fired
      modifies effects
      ensures Searched(Model(), {k}, fired, fired')
      ensures Grew(Model(), old(effects.Recorded()), effects.Recorded(),
          Model().ChargeOfKeys(Keys(fired') - Keys(fired)))
      decreases Unfired(|objects|, fired), 0
    {
      hide Grew, Searched, Unfired, RaisedByPrefix, Keys;
      hide State.Valid, State.Body, State.ChargeOfKeys, State.ChargeOfKey, State.ChargeOfBody, State.RaisedBy;
      ghost var st, before := Model(), effects.Recorded();
      BodyAtFiring(st, k);
      var start := fired + [k];
      fired' := start;
      effects.Read(k.0);
      var body := objects[k.0].shape.body;
      ghost var own := Charge({}, {k.0}, false);
      ReadIsCharged(st, before, effects.Recorded(), k.0);
      FiringShrinks(|objects|, fired, k);
      NothingFired(st, start);
      for b := 0 to |body|
        invariant Searched(st, RaisedByPrefix(st, body, b), start, fired')
        invariant Grew(st, before, effects.Recorded(),
            own.Plus(st.ChargeOfBody(body, b)).Plus(st.ChargeOfKeys(Keys(fired') - Keys(start))))
      {
        ghost var f1, mid := fired', effects.Recorded();
        SearchGrows(st, RaisedByPrefix(st, body, b), start, fired');
        UnfiredShrinks(|objects|, start, fired');
        fired' := RunBody(body[b], effects, fired');
        OneMoreStatement(st, body, b, own);
        SearchOn(st, RaisedByPrefix(st, body, b), st.RaisedBy(body[b]), start, f1, fired', before, mid,
          effects.Recorded(),
                 own.Plus(st.ChargeOfBody(body, b)), st.ChargeOf(body[b]));
      }
      SearchGrows(st, RaisedByPrefix(st, body, |body|), start, fired');
      FiredOne(st, k, fired, fired');
      FiredOneCharge(st, k, fired, fired');
    }

    /** One statement of a trigger body: what it names, then what it writes. */
    method RunBody(statement: RowStatement, effects: Effects, fired: seq<Key>) returns (fired': seq<Key>)
      requires Model().Valid() && MentionsTarget(statement)
      modifies effects
      ensures Searched(Model(), Model().RaisedBy(statement), fired, fired')
      ensures Grew(Model(), old(effects.Recorded()), effects.Recorded(),
                   Model().ChargeOf(statement).Plus(Model().ChargeOfKeys(Keys(fired') - Keys(fired))))
      decreases Unfired(|objects|, fired), 3
    {
      hide State.Valid, State.ChargeOfKeys, State.Raised, Searched, Unfired;
      ghost var st, before := Model(), effects.Recorded();
      Reads(statement.names, effects);
      ghost var named := effects.Recorded();
      ghost var naming := Charge({}, st.Named(statement.names), false);
      assert Grew(st, before, named, naming);
      fired' := fired;
      match RowWriteOf(statement.kind) {
        case Some(Table(name, events)) =>
          fired' := Write(name, events, effects, fired);
          ghost var firing := st.ChargeOfKeys(Keys(fired') - Keys(fired));
          GrewThenGrew(st, before, named, effects.Recorded(), naming, st.Hits(name).Plus(firing));
          ChargeAlgebra(naming, st.Hits(name), firing);
        case Some(Untracked) =>
          effects.persistentWrite := true;
          assert Grew(st, named, effects.Recorded(), Charge({}, {}, true));
          GrewThenGrew(st, before, named, effects.Recorded(), naming, Charge({}, {}, true));
          NothingFired(st, fired);
        case None =>
          NothingFired(st, fired);
      }
    }

    // -------------------------------------------------------------------
    // Definitions
    // -------------------------------------------------------------------

    /** The live triggers and indexes attached to `id`, in creation order. */
    method Dependents(id: nat) returns (attached: seq<nat>)
      ensures Ids(attached) == Model().Attached(id)
      ensures forall j, k :: 0 <= j < k < |attached| ==> attached[j] < attached[k]
    {
      attached := [];
      for d := 0 to |objects|
        invariant forall x: nat :: x in attached <==> x < d && Model().HangsOff(x, id)
        invariant forall j, k :: 0 <= j < k < |attached| ==> attached[j] < attached[k]
      {
        if Model().HangsOff(d, id) {
          assert forall j :: 0 <= j < |attached| ==> attached[j] in attached;
          attached := attached + [d];
        }
      }
    }

    /** Kills an object, and with it what hangs off it. */
    method Retire(id: nat, effects: Effects)
      requires Model().Valid() && id < |objects|
      modifies this, effects
      ensures Model() == old(Model()).Retired(id)
      ensures Ids(effects.touches) == Ids(old(effects.touches)) + old(Model()).Dying(id)
      ensures effects.uses == old(effects.uses) && effects.persistentWrite == old(effects.persistentWrite)
      decreases AliveIds(objects)
    {
      hide State.Valid, State.HangsOff, State.Attached, Kill, Without, Ids;
      ghost var st := Model();
      RetiredUnfolds(st, id);
      if !objects[id].alive {
        return;
      }
      objects := objects[id := objects[id].(alive := false)];
      PartlyFirst(st, Model(), id);
      effects.Touch(id);
      var attached := Dependents(id);
      ghost var gone: set<nat> := {};
      IdsOfPrefixes(attached);
      for j := 0 to |attached|
        invariant gone == Ids(attached[..j])
        invariant Partly(st, Model(), id, gone)
        invariant Ids(effects.touches) == Ids(old(effects.touches)) + {id} + gone
        invariant effects.uses == old(effects.uses) && effects.persistentWrite == old(effects.persistentWrite)
      {
        var dependent := attached[j];
        PartlyStep(st, Model(), id, gone, dependent);
        triggers := Without(triggers, {dependent});
        indexes := Without(indexes, {dependent});
        Retire(dependent, effects);
        gone := gone + {dependent};
      }
    }

    /** A new object under `key`, in the map of its own kind. */
    method Enter(key: string, shape: Shape, effects: Effects)
      requires Model().Valid() && Model().ValidShape(shape)
      modifies this, effects
      ensures Model() == old(Model()).Entered(key, shape) && Model().Valid() && Evolves(old(Model()), Model())
      ensures Ids(effects.touches) == Ids(old(effects.touches)) + Changed(old(Model()), Model())
      ensures effects.uses == old(effects.uses) && effects.persistentWrite == old(effects.persistentWrite)
    {
      hide State.Valid, State.ValidShape, Changed, Evolves;
      EnteredIsValid(Model(), key, shape);
      EnteredEvolves(Model(), key, shape);
      var id := |objects|;
      objects := objects + [Object(shape, true)];
      match shape {
        case TriggerShape(_, _, _) => triggers := triggers[key := id];
        case IndexShape(_) => indexes := indexes[key := id];
        case TableShape | ViewShape(_) => relations := relations[key := id];
      }
      effects.Touch(id);
    }

    method CreateRelation(name: ObjectName, ifNotExists: bool, shape: Shape, effects: Effects)
      requires Model().Valid() && (shape.TableShape? || shape.ViewShape?)
      modifies this, effects
      ensures Model() == old(Model()).Created(name, ifNotExists, shape) && Model().Valid()
          && Evolves(old(Model()), Model())
      ensures Ids(effects.touches) == Ids(old(effects.touches)) + Changed(old(Model()), Model())
      ensures effects.uses == old(effects.uses) && effects.persistentWrite == old(effects.persistentWrite)
    {
      hide State.Valid, State.Entered, Changed, Evolves;
      NothingChanged(Model());
      match Split(name) {
        case None =>
        case Some((_, key)) =>
          if ifNotExists && key in relations {
            return;
          }
          Enter(key, shape, effects);
      }
    }

    method DropOne(kind: DropKind, name: ObjectName, effects: Effects)
      requires Model().Valid()
      modifies this, effects
      ensures Model() == old(Model()).Dropped(kind, name) && Model().Valid() && Evolves(old(Model()), Model())
      ensures Ids(effects.touches) == Ids(old(effects.touches)) + Changed(old(Model()), Model())
      ensures effects.uses == old(effects.uses) && effects.persistentWrite == old(effects.persistentWrite)
    {
      hide State.Valid, State.Retired, State.Dying, Changed, Evolves;
      DroppedIsValid(Model(), kind, name);
      NothingChanged(Model());
      match Split(name) {
        case None =>
        case Some((schema, key)) =>
          if NamesOtherSchema(schema) || kind.DropOther? {
            return;
          }
          ForgottenIsValid(Model(), key);
          if kind.DropIndex? {
            if key in indexes {
              NameTargets(Model(), key);
              ghost var st := Model();
              var id := indexes[key];
              indexes := indexes - {key};
              RetiredEvolves(Model(), id);
              ForgottenChangesNothing(st, Model(), Model().Retired(id));
              Retire(id, effects);
            }
          } else if key in relations {
            NameTargets(Model(), key);
            ghost var st := Model();
            var id := relations[key];
            relations := relations - {key};
            RetiredEvolves(Model(), id);
            ForgottenChangesNothing(st, Model(), Model().Retired(id));
            Retire(id, effects);
          }
      }
    }

    method DropTriggerNamed(name: ObjectName, effects: Effects)
      requires Model().Valid()
      modifies this, effects
      ensures Model() == old(Model()).TriggerDropped(name) && Model().Valid() && Evolves(old(Model()), Model())
      ensures Ids(effects.touches) == Ids(old(effects.touches)) + Changed(old(Model()), Model())
      ensures effects.uses == old(effects.uses) && effects.persistentWrite == old(effects.persistentWrite)
    {
      match Split(name) {
        case None =>
        case Some((_, key)) =>
          if key in triggers {
            ForgottenIsValid(Model(), key);
            var id := triggers[key];
            triggers := triggers - {key};
            RetiredIsValid(Model(), id);
            RetiredEvolves(Model(), id);
            Retire(id, effects);
          }
      }
    }

    method DropEach(kind: DropKind, names: seq<ObjectName>, effects: Effects)
      requires Model().Valid()
      modifies this, effects
      ensures Model() == old(Model()).DroppedAll(kind, names) && Model().Valid() && Evolves(old(Model()), Model())
      ensures Ids(effects.touches) == Ids(old(effects.touches)) + Changed(old(Model()), Model())
      ensures effects.uses == old(effects.uses) && effects.persistentWrite == old(effects.persistentWrite)
    {
      hide State.Valid, State.Dropped, Changed;
      ghost var st := Model();
      NothingChanged(st);
      for i := 0 to |names|
        invariant Model() == st.DroppedAll(kind, names[..i]) && Model().Valid() && Evolves(st, Model())
        invariant Ids(effects.touches) == Ids(old(effects.touches)) + Changed(st, Model())
        invariant effects.uses == old(effects.uses) && effects.persistentWrite == old(effects.persistentWrite)
      {
        ghost var before := Model();
        DropOne(kind, names[i], effects);
        ChangedThrough(st, before, Model());
        assert names[..i + 1][..i] == names[..i];
      }
      assert names[..|names|] == names;
    }

    method CreateViewNamed(name: ObjectName, orReplace: bool, bases: seq<string>, effects: Effects)
      requires Model().Valid()
      modifies this, effects
      ensures Model() == old(Model()).ViewReplaced(name, orReplace).Created(name, false, ViewShape(bases))
      ensures Model().Valid() && Evolves(old(Model()), Model())
      ensures Ids(effects.touches) == Ids(old(effects.touches)) + Changed(old(Model()), Model())
      ensures effects.uses == old(effects.uses) && effects.persistentWrite == old(effects.persistentWrite)
    {
      hide State.Valid, State.Retired, State.Dying, State.Created, Changed;
      ghost var st := Model();
      NothingChanged(st);
      match Split(name) {
        case None =>
        case Some((_, key)) =>
          if orReplace && key in relations {
            ForgottenIsValid(Model(), key);
            var previous := relations[key];
            relations := relations - {key};
            NameTargets(st, key);
            RetiredIsValid(Model(), previous);
            RetiredEvolves(Model(), previous);
            ForgottenChangesNothing(st, Model(), Model().Retired(previous));
            Retire(previous, effects);
          }
      }
      ghost var before := Model();
      CreateRelation(name, false, ViewShape(bases), effects);
      ChangedThrough(st, before, Model());
    }

    method CreateTriggerNamed(t: Statement, effects: Effects)
      requires Model().Valid() && t.CreateTrigger? && WellFormed(t)
      modifies this, effects
      ensures Model() == old(Model()).TriggerCreated(t) && Model().Valid() && Evolves(old(Model()), Model())
      ensures Ids(effects.touches) == Ids(old(effects.touches)) + Changed(old(Model()), Model())
      ensures Ids(effects.uses) == Ids(old(effects.uses)) + old(Model()).ReadBy(t)
      ensures effects.persistentWrite == old(effects.persistentWrite)
    {
      hide State.Valid, State.ValidShape, State.TriggerDropped, State.Entered, Changed, WellFormed;
      ghost var st := Model();
      NothingChanged(st);
      var key;
      match Split(t.name) {
        case None => return;
        case Some((_, k)) => key := k;
      }
      var owner;
      match Model().Relation(t.table) {
        case Some(id) =>
          effects.Read(id);
          owner := Connection(id);
        case None =>
          match Split(t.table) {
            case Some((_, table)) => owner := File(table);
            case None => return;
          }
      }
      TriggerShapeIsValid(st, t);
      if t.orReplace {
        DropTriggerNamed(t.name, effects);
        assert SameShapes(objects[..|st.objects|], st.objects);
        SameShapesSameValidity(st, Model(), TriggerShape(owner, t.events, t.body));
      }
      ghost var before := Model();
      Enter(key, TriggerShape(owner, t.events, t.body), effects);
      ChangedThrough(st, before, Model());
    }

    method CreateIndexNamed(name: Option<ObjectName>, table: ObjectName, effects: Effects)
      requires Model().Valid()
      modifies this, effects
      ensures Model() == old(Model()).IndexCreated(name, table) && Model().Valid() && Evolves(old(Model()), Model())
      ensures Ids(effects.touches) == Ids(old(effects.touches)) + Changed(old(Model()), Model())
      ensures Ids(effects.uses) == Ids(old(effects.uses)) + old(Model()).ReadBy(CreateIndex(name, table))
      ensures effects.persistentWrite == old(effects.persistentWrite)
    {
      ghost var st := Model();
      NothingChanged(st);
      match Model().Relation(table) {
        case None =>
        case Some(owner) =>
          if name.None? {
            return;
          }
          match Split(name.value) {
            case None =>
            case Some((_, key)) =>
              effects.Read(owner);
              Enter(key, IndexShape(owner), effects);
          }
      }
    }

    method Alter(name: ObjectName, renames: seq<Option<ObjectName>>, effects: Effects)
      requires Model().Valid()
      modifies this, effects
      ensures Model() == old(Model()).After(AlterTable(name, renames)) && Model().Valid()
          && Evolves(old(Model()), Model())
      ensures Changed(old(Model()), Model()) == {}
      ensures Ids(effects.touches) == Ids(old(effects.touches)) + old(Model()).Altered(AlterTable(name, renames))
      ensures effects.uses == old(effects.uses) && effects.persistentWrite == old(effects.persistentWrite)
    {
      ghost var st := Model();
      NothingChanged(st);
      match Model().Relation(name) {
        case None =>
        case Some(id) =>
          effects.Touch(id);
          for i := 0 to |renames|
            invariant Model() == st.Renamed(name, renames[..i], id)
            invariant Ids(effects.touches) == Ids(old(effects.touches)) + {id}
            invariant effects.uses == old(effects.uses) && effects.persistentWrite == old(effects.persistentWrite)
          {
            assert renames[..i + 1][..i] == renames[..i];
            match renames[i] {
              case None =>
              case Some(to) =>
                match (Split(name), Split(to)) {
                  case (Some((_, from)), Some((_, key))) =>
                    relations := relations - {from};
                    relations := relations[key := id];
                  case _ =>
                }
            }
          }
          assert renames[..|renames|] == renames;
          RenamedIsValid(st, name, renames, id);
      }
    }

    method RowsWritten(rows: RowStatement, effects: Effects)
      requires Model().Valid() && MentionsTarget(rows)
      modifies effects
      ensures RowEffects(Model(), rows, old(effects.Recorded()), effects.Recorded())
    {
      if RowWriteOf(rows.kind).None? {
        return;
      }
      var fired := RunBody(rows, effects, []);
      assert Keys(fired) - Keys([]) == Keys(fired);
    }

    /** A TEMP table, which reads what its query names and the bases of the
        views among that. */
    method CreateTableNamed(t: Statement, effects: Effects)
      requires Model().Valid() && t.CreateTable?
      modifies this, effects
      ensures Model() == old(Model()).After(t) && Model().Valid() && Evolves(old(Model()), Model())
      ensures DefinitionEffects(old(Model()), t, Model(), old(effects.Recorded()), effects.Recorded())
    {
      hide State.Valid, State.Created, State.Named, State.BasesIn, State.UsesClosed, Changed, Evolves;
      ghost var st, before := Model(), effects.Recorded();
      NothingChanged(st);
      if IsTemporary(t.temporary, t.name) {
        if t.query.Some? {
          Reads(t.query.value, effects);
          ReadsStayClosed(st, Ids(before.uses), Ids(effects.uses));
        }
        CreateRelation(t.name, t.ifNotExists, TableShape, effects);
      }
    }

    /** Records the effects of one statement and applies its definitions. */
    method Apply(statement: Statement, effects: Effects)
      requires Model().Valid() && WellFormed(statement) && Within(|objects|, effects.Recorded())
      modifies this, effects
      ensures Model() == old(Model()).After(statement) && Model().Valid() && Evolves(old(Model()), Model())
      ensures statement.Rows? ==>
                RowEffects(old(Model()), statement.rows, old(effects.Recorded()), effects.Recorded())
      ensures !statement.Rows? ==>
                DefinitionEffects(old(Model()), statement, Model(), old(effects.Recorded()), effects.Recorded())
      ensures Ids(old(effects.touches)) + Changed(old(Model()), Model()) <= Ids(effects.touches)
      ensures Within(|objects|, effects.Recorded())
    {
      hide State.Valid, State.Retired, State.Created, State.TriggerCreated, State.IndexCreated, State.Renamed,
           State.DroppedAll, State.TriggerDropped, State.ViewReplaced, State.Named, State.BasesIn, Changed, RowEffects,
           Evolves, Within, Below, WellFormed;
      RowsAreWellFormed(statement);
      ghost var st, before := Model(), effects.Recorded();
      NothingChanged(st);
      match statement {
        case CreateTable(_, _, _, _) => CreateTableNamed(statement, effects);
        case CreateVirtualTable(name, ifNotExists) =>
          if IsTemporary(false, name) {
            CreateRelation(name, ifNotExists, TableShape, effects);
          }
        case CreateView(name, temporary, orReplace, bases) =>
          if IsTemporary(temporary, name) {
            CreateViewNamed(name, orReplace, bases, effects);
          }
        case CreateTrigger(_, temporary, _, table, _, _) =>
          if temporary || Model().Relation(table).Some? {
            CreateTriggerNamed(statement, effects);
          }
        case CreateIndex(name, table) => CreateIndexNamed(name, table, effects);
        case Drop(kind, names) => DropEach(kind, names, effects);
        case DropTrigger(name) => DropTriggerNamed(name, effects);
        case AlterTable(name, renames) => Alter(name, renames, effects);
        case Rows(rows) =>
          RowsWritten(rows, effects);
          RowEffectsGrow(st, rows, before, effects.Recorded());
        case OtherStatement =>
      }
      if !statement.Rows? {
        DefinitionWithin(st, statement, Model(), before, effects.Recorded());
      }
    }

    /** The footprint of a unit by itself. */
    method ApplyUnit(unit: seq<Statement>) returns (footprint: Footprint)
      requires Model().Valid() && forall i :: 0 <= i < |unit| ==> WellFormed(unit[i])
      modifies this
      ensures Model() == old(Model()).AfterAll(unit) && Model().Valid() && Evolves(old(Model()), Model())
      ensures UnitEffects(old(Model()), unit, footprint)
      ensures Changed(old(Model()), Model()) <= Ids(footprint.touches)
      ensures Within(|objects|, footprint)
    {
      hide State.Valid, State.After, Changed, RowEffects, DefinitionEffects;
      var effects := new Effects();
      ghost var st := Model();
      NothingChanged(st);
      for i := 0 to |unit|
        invariant Model() == st.AfterAll(unit[..i]) && Model().Valid() && Evolves(st, Model())
        invariant Changed(st, Model()) <= Ids(effects.touches)
        invariant UnitEffects(st, unit[..i], effects.Recorded())
        invariant Within(|objects|, effects.Recorded())
        invariant fresh(effects)
      {
        ghost var before, recorded := Model(), effects.Recorded();
        Apply(unit[i], effects);
        ChangedThrough(st, before, Model());
        assert unit[..i + 1][..i] == unit[..i];
        assert StatementEffects(st.AfterAll(unit[..i]), unit[i], recorded, effects.Recorded());
      }
      assert unit[..|unit|] == unit;
      footprint := effects.Recorded();
    }

    /** What is left alive so far. */
    method Alive() returns (ids: seq<nat>)
      ensures Ids(ids) == AliveIds(objects)
      ensures forall id :: id in ids ==> id < |objects|
    {
      ids := [];
      for i := 0 to |objects|
        invariant forall x: nat :: x in ids <==> x < i && objects[x].alive
      {
        if objects[i].alive {
          ids := ids + [i];
        }
      }
    }
  }

  lemma IdsOfPrefixes(log: seq<nat>)
    requires forall j, k :: 0 <= j < k < |log| ==> log[j] < log[k]
    ensures Ids(log[..0]) == {} && Ids(log[..|log|]) == Ids(log)
    ensures forall j :: 0 <= j < |log| ==>
              Ids(log[..j + 1]) == Ids(log[..j]) + {log[j]} && log[j] in Ids(log) && log[j] !in Ids(log[..j])
  {
    assert log[..|log|] == log;
    forall j | 0 <= j < |log| ensures Ids(log[..j + 1]) == Ids(log[..j]) + {log[j]} {
      assert log[..j + 1] == log[..j] + [log[j]];
    }
  }

  lemma RetiredUnfolds(st: State, id: nat)
    requires st.Valid() && id < |st.objects|
    ensures !st.objects[id].alive ==> st.Retired(id) == st && st.Dying(id) == {}
    ensures st.objects[id].alive ==> st.Dying(id) == {id} + st.Attached(id)
    ensures forall now: State :: st.objects[id].alive && Partly(st, now, id, st.Attached(id)) ==> now == st.Retired(id)
  {
    assert Kill(st.objects, {}) == st.objects && Without(st.triggers, {}) == st.triggers
      && Without(st.indexes, {}) == st.indexes;
    assert !st.HangsOff(id, id) by { assert st.ValidShape(st.objects[id].shape); }
    assert st.objects[id].alive ==> st.Dying(id) - {id} == st.Attached(id);
  }

  function AliveIds(objects: seq<Object>): set<nat> {
    set i: nat | i < |objects| && objects[i].alive
  }

  /** `st` while `id` is being dropped, its dependents in `gone` already. */
  ghost predicate Partly(st: State, now: State, id: nat, gone: set<nat>) {
    now == State(Kill(st.objects, {id} + gone), st.relations, Without(st.triggers, gone), Without(st.indexes, gone))
  }

  function Cut(now: State, d: nat): State {
    now.(triggers := Without(now.triggers, {d}), indexes := Without(now.indexes, {d}))
  }

  lemma PartlyIsValid(st: State, now: State, id: nat, gone: set<nat>, d: nat)
    requires st.Valid() && Partly(st, now, id, gone)
    ensures Cut(now, d).Valid()
  {
    hide State.Valid;
    NarrowedIsValid(st, Cut(now, d));
  }

  lemma PartlyAlone(st: State, now: State, id: nat, gone: set<nat>, d: nat)
    requires st.Valid() && id < |st.objects| && Partly(st, now, id, gone) && d in st.Attached(id)
    ensures d != id && Cut(now, d).Attached(d) == {}
  {
    AttachedEndsHere(st, id, d);
    assert st.ValidShape(st.objects[d].shape);
    forall e: nat | e < |now.objects| ensures !Cut(now, d).HangsOff(e, d) {
      assert e !in st.Attached(d);
      assert !st.HangsOff(e, d);
    }
  }

  /** Dropping one more dependent takes it, and nothing else, away. */
  lemma PartlyStep(st: State, now: State, id: nat, gone: set<nat>, d: nat)
    requires st.Valid() && id < |st.objects| && st.objects[id].alive
    requires Partly(st, now, id, gone) && d in st.Attached(id) && d !in gone
    ensures Cut(now, d).Valid() && Cut(now, d).Dying(d) == {d}
    ensures AliveIds(Cut(now, d).objects) < AliveIds(st.objects)
    ensures Partly(st, Cut(now, d).Retired(d), id, gone + {d})
  {
    hide State.Valid;
    PartlyIsValid(st, now, id, gone, d);
    PartlyAlone(st, now, id, gone, d);
    assert Kill(now.objects, {d}) == Kill(st.objects, {id} + (gone + {d}));
    assert Without(Cut(now, d).triggers, {}) == Without(st.triggers, gone + {d});
    assert Without(Cut(now, d).indexes, {}) == Without(st.indexes, gone + {d});
    assert id in AliveIds(st.objects) && id !in AliveIds(now.objects);
  }

  /** The drop's first step: `id` alone is gone. */
  lemma PartlyFirst(st: State, now: State, id: nat)
    requires st.Valid() && id < |st.objects| && st.objects[id].alive
    requires now == st.(objects := st.objects[id := st.objects[id].(alive := false)])
    ensures Partly(st, now, id, {}) && now.Attached(id) == st.Attached(id) && id !in st.Attached(id)
  {
    assert now.objects == Kill(st.objects, {id} + {});
    assert st.ValidShape(st.objects[id].shape);
    assert forall d: nat :: now.HangsOff(d, id) <==> st.HangsOff(d, id);
  }

  lemma NothingFired(st: State, fired: seq<Key>)
    ensures Searched(st, {}, fired, fired)
    ensures st.ChargeOfKeys(Keys(fired) - Keys(fired)) == Charge({}, {}, false)
  {
    assert Keys(fired) - Keys(fired) == {};
  }
}
