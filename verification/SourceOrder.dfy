/** Which trees the visitor shows every stored relation of, and shows them in
    source order. */
module SourceOrder {
  import opened Wrappers
  import opened RelationScope
  import opened ScopedRelations

  // ---------------------------------------------------------------------
  // Every name
  // ---------------------------------------------------------------------

  /** Some common table expression in view has this name. */
  predicate Denotes(matches: Matching, env: seq<Binder>, name: ObjectName) {
    |name| == 1 && exists k :: 0 <= k < |env| && matches(env[k].alias, name[0])
  }

  /** Every TABLE operand of a set operation names a common table expression in
      view where it stands. */
  predicate OperandsDenote(matches: Matching, env: seq<Binder>, node: Node)
    requires WellFormed(node)
    decreases node, 0
  {
    match node
    case Statement(_, parts) => OperandsDenoteAll(matches, env, parts)
    case Query(_, _, _, _, parts) =>
      OperandsDenoteCtes(matches, env, node, 0) && OperandsDenoteAll(matches, Binders(node) + env, parts)
    case TableFactor(_, _, parts) => OperandsDenoteAll(matches, env, parts)
    case OtherFactor(parts) => OperandsDenoteAll(matches, env, parts)
    case Relation(_, _) => true
    case TableOperand(_, name) => Denotes(matches, env, name)
  }

  predicate OperandsDenoteAll(matches: Matching, env: seq<Binder>, nodes: seq<Node>)
    requires WellFormedAll(nodes)
    decreases nodes, 0
  {
    |nodes| > 0 ==> OperandsDenote(matches, env, nodes[0]) && OperandsDenoteAll(matches, env, nodes[1..])
  }

  predicate OperandsDenoteCtes(matches: Matching, env: seq<Binder>, q: Node, i: nat)
    requires q.Query? && CtesAreQueries(q) && i <= |q.ctes| && WellFormedCtes(q, i)
    decreases q, 0, |q.ctes| - i
  {
    i < |q.ctes| ==>
      && OperandsDenote(matches, SiblingEnv(q, i, env), q.ctes[i].query)
      && OperandsDenoteCtes(matches, env, q, i + 1)
  }

  ghost predicate AllShown(occurrences: seq<Occurrence>) {
    forall o :: o in occurrences && !o.hooked ==> o.denotes.Some?
  }

  lemma AllShownConcat(a: seq<Occurrence>, b: seq<Occurrence>)
    ensures AllShown(a + b) <==> AllShown(a) && AllShown(b)
  {
    assert forall o :: o in a || o in b ==> o in a + b;
  }

  lemma {:induction false} LookupFinds(matches: Matching, env: seq<Binder>, reference: Ident)
    ensures Lookup(matches, env, reference).Some? <==> exists k :: 0 <= k < |env| && matches(env[k].alias, reference)
  {
    if |env| > 0 && !matches(env[0].alias, reference) {
      LookupFinds(matches, env[1..], reference);
      assert forall k :: 0 <= k < |env| - 1 ==> env[1..][k] == env[k + 1];
      if Lookup(matches, env[1..], reference).Some? {
        var k :| 0 <= k < |env[1..]| && matches(env[1..][k].alias, reference);
        assert matches(env[k + 1].alias, reference);
      }
      if k :| 0 <= k < |env| && matches(env[k].alias, reference) {
        assert matches(env[1..][k - 1].alias, reference);
      }
    }
  }

  lemma OneOccurrence(o: Occurrence)
    ensures AllShown([o]) <==> o.hooked || o.denotes.Some?
    ensures AllShown([])
  {
    assert o in [o];
  }

  lemma {:induction false} OperandsShown(matches: Matching, env: seq<Binder>, targets: set<nat>, node: Node)
    requires WellFormed(node)
    ensures AllShown(Resolve(matches, env, targets, node)) <==> OperandsDenote(matches, env, node)
    decreases node, 0
  {
    hide AllShown, ResolveAll, ResolveCtes, LookupName, Binders;
    match node
    case Statement(written, parts) =>
      OperandsShownAll(matches, env, targets + (set t | t in written), parts);
    case Query(_, _, _, _, parts) =>
      var inner := Binders(node) + env;
      var bare, ctes, rest := BareTable(matches, inner, node), ResolveCtes(matches, env, targets, node, 0),
        ResolveAll(matches, inner, targets, parts);
      OperandsShownCtes(matches, env, targets, node, 0);
      OperandsShownAll(matches, inner, targets, parts);
      BareIsShown(matches, inner, node);
      AllShownConcat(bare, ctes);
      AllShownConcat(bare + ctes, rest);
    case TableFactor(_, _, parts) =>
      OperandsShownAll(matches, env, targets, parts);
      var own := Resolve(matches, env, targets, node)[..1];
      OneOccurrence(own[0]);
      assert own == [own[0]];
      AllShownConcat(own, ResolveAll(matches, env, targets, parts));
    case OtherFactor(parts) =>
      OperandsShownAll(matches, env, targets, parts);
    case Relation(_, _) =>
      OneOccurrence(Resolve(matches, env, targets, node)[0]);
    case TableOperand(_, name) =>
      OneOccurrence(Resolve(matches, env, targets, node)[0]);
      DenotesIsLookup(matches, env, name);
  }

  lemma DenotesIsLookup(matches: Matching, env: seq<Binder>, name: ObjectName)
    ensures Denotes(matches, env, name) <==> LookupName(matches, env, name).Some?
  {
    if |name| == 1 {
      LookupFinds(matches, env, name[0]);
    }
  }

  lemma BareIsShown(matches: Matching, inner: seq<Binder>, q: Node)
    requires q.Query?
    ensures AllShown(BareTable(matches, inner, q))
  {
  }

  lemma {:induction false} OperandsShownAll(matches: Matching, env: seq<Binder>, targets: set<nat>, nodes: seq<Node>)
    requires WellFormedAll(nodes)
    ensures AllShown(ResolveAll(matches, env, targets, nodes)) <==> OperandsDenoteAll(matches, env, nodes)
    decreases nodes, 0
  {
    hide AllShown, Resolve;
    if |nodes| == 0 {
      NothingHidden();
    } else {
      OperandsShown(matches, env, targets, nodes[0]);
      OperandsShownAll(matches, env, targets, nodes[1..]);
      AllShownConcat(Resolve(matches, env, targets, nodes[0]), ResolveAll(matches, env, targets, nodes[1..]));
    }
  }

  lemma {:induction false} OperandsShownCtes(matches: Matching, env: seq<Binder>, targets: set<nat>, q: Node, i: nat)
    requires q.Query? && CtesAreQueries(q) && i <= |q.ctes| && WellFormedCtes(q, i)
    ensures AllShown(ResolveCtes(matches, env, targets, q, i)) <==> OperandsDenoteCtes(matches, env, q, i)
    decreases q, 0, |q.ctes| - i
  {
    hide AllShown, Resolve, Binders;
    if i == |q.ctes| {
      NothingHidden();
    } else {
      var sibling := SiblingEnv(q, i, env);
      OperandsShown(matches, sibling, targets, q.ctes[i].query);
      OperandsShownCtes(matches, env, targets, q, i + 1);
      AllShownConcat(Resolve(matches, sibling, targets, q.ctes[i].query), ResolveCtes(matches, env, targets, q, i + 1));
    }
  }

  lemma NothingHidden()
    ensures AllShown([])
  {
  }

  /** On every tree, the visitor is shown all the names that denote stored
      relations exactly when every TABLE operand of a set operation denotes a
      common table expression. */
  lemma EveryNameIsShown(matches: Matching, env: seq<Binder>, targets: set<nat>, node: Node)
    requires WellFormed(node)
    ensures Stored(Resolve(matches, env, targets, node)) == StoredAnywhere(Resolve(matches, env, targets, node))
       <==> OperandsDenote(matches, env, node)
  {
    hide Resolve, Stored, StoredAnywhere, OperandsDenote;
    StoredIsEverywhere(Resolve(matches, env, targets, node));
    OperandsShown(matches, env, targets, node);
  }

  // ---------------------------------------------------------------------
  // What a tree names
  // ---------------------------------------------------------------------

  /** The query is a bare TABLE of a stored relation. */
  predicate StoredBare(matches: Matching, inner: seq<Binder>, q: Node)
    requires q.Query?
  {
    q.table.Some? && !Denotes(matches, inner, q.table.value)
  }

  /** Every stored relation shown, by its name, is one of `wanted`. */
  predicate EachStored(wanted: ObjectName -> bool, matches: Matching, env: seq<Binder>, targets: set<nat>, node: Node)
    requires WellFormed(node)
    decreases node, 0
  {
    match node
    case Statement(written, parts) => EachStoredAll(wanted, matches, env, targets + (set t | t in written), parts)
    case Query(_, _, _, table, parts) =>
      var inner := Binders(node) + env;
      && (StoredBare(matches, inner, node) ==> wanted(table.value))
      && EachStoredCtes(wanted, matches, env, targets, node, 0)
      && EachStoredAll(wanted, matches, inner, targets, parts)
    case TableFactor(address, name, parts) =>
      && (address in targets || !Denotes(matches, env, name) ==> wanted(name))
      && EachStoredAll(wanted, matches, env, targets, parts)
    case OtherFactor(parts) => EachStoredAll(wanted, matches, env, targets, parts)
    case Relation(_, name) => wanted(name)
    case TableOperand(_, _) => true
  }

  predicate EachStoredAll(wanted: ObjectName -> bool, matches: Matching, env: seq<Binder>, targets: set<nat>,
      nodes: seq<Node>)
    requires WellFormedAll(nodes)
    decreases nodes, 0
  {
    |nodes| > 0 ==>
      EachStored(wanted, matches, env, targets, nodes[0]) && EachStoredAll(wanted, matches, env, targets, nodes[1..])
  }

  predicate EachStoredCtes(wanted: ObjectName -> bool, matches: Matching, env: seq<Binder>, targets: set<nat>, q: Node,
      i: nat)
    requires q.Query? && CtesAreQueries(q) && i <= |q.ctes| && WellFormedCtes(q, i)
    decreases q, 0, |q.ctes| - i
  {
    i < |q.ctes| ==>
      && EachStored(wanted, matches, SiblingEnv(q, i, env), targets, q.ctes[i].query)
      && EachStoredCtes(wanted, matches, env, targets, q, i + 1)
  }

  predicate NoName(name: ObjectName) {
    false
  }

  /** The WITH list shows no stored relation. */
  predicate NoneStored(matches: Matching, env: seq<Binder>, targets: set<nat>, q: Node)
    requires q.Query? && CtesAreQueries(q) && WellFormedCtes(q, 0)
  {
    EachStoredCtes(NoName, matches, env, targets, q, 0)
  }

  predicate Every(wanted: ObjectName -> bool, names: seq<ObjectName>) {
    forall k :: 0 <= k < |names| ==> wanted(names[k])
  }

  lemma EveryConcat(wanted: ObjectName -> bool, a: seq<Occurrence>, b: seq<Occurrence>)
    ensures Every(wanted, Stored(a + b)) <==> Every(wanted, Stored(a)) && Every(wanted, Stored(b))
  {
    hide Stored;
    StoredConcat(a, b);
    var (s, t) := (Stored(a), Stored(b));
    assert forall k :: 0 <= k < |s| ==> (s + t)[k] == s[k];
    assert forall k :: 0 <= k < |t| ==> (s + t)[|s| + k] == t[k];
  }

  lemma OneName(o: Occurrence, wanted: ObjectName -> bool)
    ensures Stored([o]) == if o.denotes.None? && o.hooked then [o.name] else []
    ensures Every(wanted, Stored([o])) <==> (o.denotes.None? && o.hooked ==> wanted(o.name))
  {
    assert [o][1..] == [];
    assert Stored([o]) == if o.denotes.None? && o.hooked then [o.name] else [];
    assert |Stored([o])| > 0 ==> Stored([o])[0] == o.name;
  }

  lemma StoredBareIs(matches: Matching, inner: seq<Binder>, q: Node, wanted: ObjectName -> bool)
    requires q.Query?
    ensures Every(wanted, Stored(BareTable(matches, inner, q))) <==>
        (StoredBare(matches, inner, q) ==> wanted(q.table.value))
    ensures Stored(BareTable(matches, inner, q)) == if StoredBare(matches, inner, q) then [q.table.value] else []
  {
    if q.table.Some? {
      DenotesIsLookup(matches, inner, q.table.value);
      OneName(BareTable(matches, inner, q)[0], wanted);
    }
  }

  /** So it says of the tree what it says of the names shown. */
  lemma {:induction false} EachStoredIs(wanted: ObjectName -> bool, matches: Matching, env: seq<Binder>,
      targets: set<nat>, node: Node)
    requires WellFormed(node)
    ensures EachStored(wanted, matches, env, targets, node) <==>
        Every(wanted, Stored(Resolve(matches, env, targets, node)))
    decreases node, 0
  {
    hide Stored, ResolveAll, ResolveCtes, LookupName, Binders, BareTable, WellFormedAll, WellFormedCtes, EachStoredAll,
         EachStoredCtes, Denotes;
    match node
    case Statement(written, parts) => EachStoredAllIs(wanted, matches, env, targets + (set t | t in written), parts);
    case Query(_, _, _, _, parts) =>
      var inner := Binders(node) + env;
      var bare, ctes := BareTable(matches, inner, node), ResolveCtes(matches, env, targets, node, 0);
      EachStoredCtesIs(wanted, matches, env, targets, node, 0);
      EachStoredAllIs(wanted, matches, inner, targets, parts);
      StoredBareIs(matches, inner, node, wanted);
      EveryConcat(wanted, bare, ctes);
      EveryConcat(wanted, bare + ctes, ResolveAll(matches, inner, targets, parts));
    case TableFactor(address, name, parts) =>
      EachStoredAllIs(wanted, matches, env, targets, parts);
      var own := Occurrence(NameAt(address), name, if address in targets then None
        else LookupName(matches, env, name), true);
      DenotesIsLookup(matches, env, name);
      OneName(own, wanted);
      EveryConcat(wanted, [own], ResolveAll(matches, env, targets, parts));
    case OtherFactor(parts) => EachStoredAllIs(wanted, matches, env, targets, parts);
    case Relation(address, name) => OneName(Occurrence(NameAt(address), name, None, true), wanted);
    case TableOperand(address, name) =>
      OneName(Occurrence(NameAt(address), name, LookupName(matches, env, name), false), wanted);
  }

  lemma {:induction false} EachStoredAllIs(wanted: ObjectName -> bool, matches: Matching, env: seq<Binder>,
      targets: set<nat>, nodes: seq<Node>)
    requires WellFormedAll(nodes)
    ensures EachStoredAll(wanted, matches, env, targets, nodes) <==>
        Every(wanted, Stored(ResolveAll(matches, env, targets, nodes)))
    decreases nodes, 0
  {
    hide Resolve, WellFormed, EachStored;
    if |nodes| > 0 {
      EachStoredIs(wanted, matches, env, targets, nodes[0]);
      EachStoredAllIs(wanted, matches, env, targets, nodes[1..]);
      EveryConcat(wanted, Resolve(matches, env, targets, nodes[0]), ResolveAll(matches, env, targets, nodes[1..]));
    }
  }

  lemma {:induction false} EachStoredCtesIs(wanted: ObjectName -> bool, matches: Matching, env: seq<Binder>,
      targets: set<nat>, q: Node, i: nat)
    requires q.Query? && CtesAreQueries(q) && i <= |q.ctes| && WellFormedCtes(q, i)
    ensures EachStoredCtes(wanted, matches, env, targets, q, i) <==>
        Every(wanted, Stored(ResolveCtes(matches, env, targets, q, i)))
    decreases q, 0, |q.ctes| - i
  {
    hide Resolve, WellFormed, Binders, EachStored;
    if i < |q.ctes| {
      var sibling := SiblingEnv(q, i, env);
      EachStoredIs(wanted, matches, sibling, targets, q.ctes[i].query);
      EachStoredCtesIs(wanted, matches, env, targets, q, i + 1);
      EveryConcat(wanted, Resolve(matches, sibling, targets, q.ctes[i].query),
        ResolveCtes(matches, env, targets, q, i + 1));
    }
  }

  lemma NoneStoredIs(matches: Matching, env: seq<Binder>, targets: set<nat>, q: Node)
    requires q.Query? && CtesAreQueries(q) && WellFormedCtes(q, 0)
    ensures NoneStored(matches, env, targets, q) <==> Stored(ResolveCtes(matches, env, targets, q, 0)) == []
  {
    hide Stored, ResolveCtes, EachStoredCtes;
    EachStoredCtesIs(NoName, matches, env, targets, q, 0);
    var names := Stored(ResolveCtes(matches, env, targets, q, 0));
    assert |names| > 0 ==> !NoName(names[0]);
  }

  // ---------------------------------------------------------------------
  // Source order
  // ---------------------------------------------------------------------

  /** Resolution in source order: a query's bare TABLE after its WITH list. */
  function InOrder(matches: Matching, env: seq<Binder>, targets: set<nat>, node: Node): seq<Occurrence>
    requires WellFormed(node)
    decreases node, 0
  {
    match node
    case Statement(written, parts) => InOrderAll(matches, env, targets + (set t | t in written), parts)
    case Query(_, _, _, _, parts) =>
      var inner := Binders(node) + env;
      InOrderCtes(matches, env, targets, node, 0) + BareTable(matches, inner, node)
        + InOrderAll(matches, inner, targets, parts)
    case TableFactor(address, name, parts) =>
      [Occurrence(NameAt(address), name, if address in targets then None else LookupName(matches, env, name), true)]
      + InOrderAll(matches, env, targets, parts)
    case OtherFactor(parts) => InOrderAll(matches, env, targets, parts)
    case Relation(_, _) | TableOperand(_, _) => Resolve(matches, env, targets, node)
  }

  function InOrderAll(matches: Matching, env: seq<Binder>, targets: set<nat>, nodes: seq<Node>): seq<Occurrence>
    requires WellFormedAll(nodes)
    decreases nodes, 0
  {
    if |nodes| == 0 then []
    else InOrder(matches, env, targets, nodes[0]) + InOrderAll(matches, env, targets, nodes[1..])
  }

  function InOrderCtes(matches: Matching, env: seq<Binder>, targets: set<nat>, q: Node, i: nat): seq<Occurrence>
    requires q.Query? && CtesAreQueries(q) && i <= |q.ctes| && WellFormedCtes(q, i)
    decreases q, 0, |q.ctes| - i
  {
    if i == |q.ctes| then []
    else
      InOrder(matches, SiblingEnv(q, i, env), targets, q.ctes[i].query)
      + InOrderCtes(matches, env, targets, q, i + 1)
  }

  /** The occurrences that are recorded. */
  function Shown(occurrences: seq<Occurrence>): seq<Occurrence> {
    if |occurrences| == 0 then []
    else
      (if occurrences[0].denotes.None? && occurrences[0].hooked then [occurrences[0]] else [])
      + Shown(occurrences[1..])
  }

  lemma {:induction false} ShownConcat(a: seq<Occurrence>, b: seq<Occurrence>)
    ensures Shown(a + b) == Shown(a) + Shown(b)
  {
    if |a| == 0 {
      assert a + b == b;
    } else {
      assert (a + b)[1..] == a[1..] + b;
      ShownConcat(a[1..], b);
    }
  }

  lemma {:induction false} ShownAreMet(occurrences: seq<Occurrence>)
    ensures forall o :: o in Shown(occurrences) ==> o in occurrences
  {
    if |occurrences| > 0 {
      ShownAreMet(occurrences[1..]);
    }
  }

  lemma {:induction false} StoredAreShown(occurrences: seq<Occurrence>)
    ensures |Stored(occurrences)| == |Shown(occurrences)|
    ensures forall k :: 0 <= k < |Stored(occurrences)| ==> Stored(occurrences)[k] == Shown(occurrences)[k].name
  {
    if |occurrences| > 0 {
      StoredAreShown(occurrences[1..]);
    }
  }

  /** No query has both a bare TABLE and a WITH list that name stored
      relations. */
  predicate KeepsOrder(matches: Matching, env: seq<Binder>, targets: set<nat>, node: Node)
    requires WellFormed(node)
    decreases node, 0
  {
    match node
    case Statement(written, parts) => KeepsOrderAll(matches, env, targets + (set t | t in written), parts)
    case Query(_, _, _, _, parts) =>
      var inner := Binders(node) + env;
      && (!StoredBare(matches, inner, node) || NoneStored(matches, env, targets, node))
      && KeepsOrderCtes(matches, env, targets, node, 0)
      && KeepsOrderAll(matches, inner, targets, parts)
    case TableFactor(_, _, parts) => KeepsOrderAll(matches, env, targets, parts)
    case OtherFactor(parts) => KeepsOrderAll(matches, env, targets, parts)
    case Relation(_, _) | TableOperand(_, _) => true
  }

  predicate KeepsOrderAll(matches: Matching, env: seq<Binder>, targets: set<nat>, nodes: seq<Node>)
    requires WellFormedAll(nodes)
    decreases nodes, 0
  {
    |nodes| > 0 ==> KeepsOrder(matches, env, targets, nodes[0]) && KeepsOrderAll(matches, env, targets, nodes[1..])
  }

  predicate KeepsOrderCtes(matches: Matching, env: seq<Binder>, targets: set<nat>, q: Node, i: nat)
    requires q.Query? && CtesAreQueries(q) && i <= |q.ctes| && WellFormedCtes(q, i)
    decreases q, 0, |q.ctes| - i
  {
    i < |q.ctes| ==>
      && KeepsOrder(matches, SiblingEnv(q, i, env), targets, q.ctes[i].query)
      && KeepsOrderCtes(matches, env, targets, q, i + 1)
  }

  /** Every query in a tree, at any depth. */
  function Bodies(node: Node): set<nat>
    decreases node, 0
  {
    match node
    case Statement(_, parts) => BodiesAll(parts)
    case Query(address, _, _, _, parts) => {address} + BodiesCtes(node, 0) + BodiesAll(parts)
    case TableFactor(_, _, parts) => BodiesAll(parts)
    case OtherFactor(parts) => BodiesAll(parts)
    case Relation(_, _) | TableOperand(_, _) => {}
  }

  function BodiesAll(nodes: seq<Node>): set<nat>
    decreases nodes, 0
  {
    if |nodes| == 0 then {} else Bodies(nodes[0]) + BodiesAll(nodes[1..])
  }

  function BodiesCtes(q: Node, i: nat): set<nat>
    requires q.Query? && i <= |q.ctes|
    decreases q, 0, |q.ctes| - i
  {
    if i == |q.ctes| then {} else Bodies(q.ctes[i].query) + BodiesCtes(q, i + 1)
  }

  /** No query sits at the address of one around it. */
  predicate OwnPlaces(node: Node)
    decreases node, 0
  {
    match node
    case Statement(_, parts) => OwnPlacesAll(parts)
    case Query(address, _, _, _, parts) =>
      address !in BodiesCtes(node, 0) && OwnPlacesCtes(node, 0) && OwnPlacesAll(parts)
    case TableFactor(_, _, parts) => OwnPlacesAll(parts)
    case OtherFactor(parts) => OwnPlacesAll(parts)
    case Relation(_, _) | TableOperand(_, _) => true
  }

  predicate OwnPlacesAll(nodes: seq<Node>)
    decreases nodes, 0
  {
    |nodes| > 0 ==> OwnPlaces(nodes[0]) && OwnPlacesAll(nodes[1..])
  }

  predicate OwnPlacesCtes(q: Node, i: nat)
    requires q.Query? && i <= |q.ctes|
    decreases q, 0, |q.ctes| - i
  {
    i < |q.ctes| ==> OwnPlaces(q.ctes[i].query) && OwnPlacesCtes(q, i + 1)
  }

  ghost predicate PlacedIn(occurrences: seq<Occurrence>, bodies: set<nat>) {
    forall o :: o in occurrences && o.place.BodyOf? ==> o.place.query in bodies
  }

  lemma {:induction false} PlacesInside(matches: Matching, env: seq<Binder>, targets: set<nat>, node: Node)
    requires WellFormed(node)
    ensures PlacedIn(InOrder(matches, env, targets, node), Bodies(node))
    decreases node, 0
  {
    hide InOrderAll, InOrderCtes, BodiesAll, BodiesCtes, WellFormedAll, WellFormedCtes, LookupName, Binders;
    match node
    case Statement(written, parts) => PlacesInsideAll(matches, env, targets + (set t | t in written), parts);
    case Query(_, _, _, _, parts) =>
      PlacesInsideCtes(matches, env, targets, node, 0);
      PlacesInsideAll(matches, Binders(node) + env, targets, parts);
    case TableFactor(_, _, parts) => PlacesInsideAll(matches, env, targets, parts);
    case OtherFactor(parts) => PlacesInsideAll(matches, env, targets, parts);
    case Relation(_, _) | TableOperand(_, _) =>
  }

  lemma {:induction false} PlacesInsideAll(matches: Matching, env: seq<Binder>, targets: set<nat>, nodes: seq<Node>)
    requires WellFormedAll(nodes)
    ensures PlacedIn(InOrderAll(matches, env, targets, nodes), BodiesAll(nodes))
    decreases nodes, 0
  {
    hide InOrder, Bodies, WellFormed;
    if |nodes| > 0 {
      PlacesInside(matches, env, targets, nodes[0]);
      PlacesInsideAll(matches, env, targets, nodes[1..]);
    }
  }

  lemma {:induction false} PlacesInsideCtes(matches: Matching, env: seq<Binder>, targets: set<nat>, q: Node, i: nat)
    requires q.Query? && CtesAreQueries(q) && i <= |q.ctes| && WellFormedCtes(q, i)
    ensures PlacedIn(InOrderCtes(matches, env, targets, q, i), BodiesCtes(q, i))
    decreases q, 0, |q.ctes| - i
  {
    hide InOrder, Bodies, WellFormed, Binders;
    if i < |q.ctes| {
      PlacesInside(matches, SiblingEnv(q, i, env), targets, q.ctes[i].query);
      PlacesInsideCtes(matches, env, targets, q, i + 1);
    }
  }

  lemma Aligned<T>(a: seq<T>, b: seq<T>, c: seq<T>, d: seq<T>)
    requires |a| == |c|
    ensures a + b == c + d <==> a == c && b == d
  {
    if a + b == c + d {
      assert a == (a + b)[..|a|] == (c + d)[..|c|] == c;
      assert b == (a + b)[|a|..] == (c + d)[|c|..] == d;
    }
  }

  /** A name put before others, or after them. */
  lemma BareMoves(bare: seq<Occurrence>, ctes: seq<Occurrence>, moved: seq<Occurrence>, query: nat, bodies: set<nat>)
    requires |bare| <= 1 && |ctes| == |moved| && query !in bodies
    requires forall o :: o in bare ==> o.place == BodyOf(query)
    requires forall o :: o in moved ==> (o.place.BodyOf? ==> o.place.query in bodies)
    ensures bare + ctes == moved + bare <==> (bare == [] || ctes == []) && ctes == moved
  {
    if bare == [] {
      assert bare + ctes == ctes && moved + bare == moved;
    } else if ctes == [] {
      assert moved == [] && bare + ctes == bare == moved + bare;
    } else {
      assert (bare + ctes)[0] == bare[0] && (moved + bare)[0] == moved[0];
      assert bare[0] in bare && moved[0] in moved;
    }
  }

  lemma BareIsPlaced(matches: Matching, inner: seq<Binder>, q: Node)
    requires q.Query?
    ensures |Shown(BareTable(matches, inner, q))| <= 1
    ensures forall o :: o in Shown(BareTable(matches, inner, q)) ==> o.place == BodyOf(q.address)
  {
    ShownAreMet(BareTable(matches, inner, q));
  }

  lemma QueryKeepsOrder(bare: seq<Occurrence>, ctes: seq<Occurrence>, rest: seq<Occurrence>, moved: seq<Occurrence>,
      restMoved: seq<Occurrence>, query: nat, bodies: set<nat>)
    requires |Shown(bare)| <= 1 && |Shown(ctes)| == |Shown(moved)| && query !in bodies
    requires forall o :: o in Shown(bare) ==> o.place == BodyOf(query)
    requires PlacedIn(moved, bodies) && |Shown(rest)| == |Shown(restMoved)|
    ensures |Shown(bare + ctes + rest)| == |Shown(moved + bare + restMoved)|
    ensures Shown(bare + ctes + rest) == Shown(moved + bare + restMoved)
       <==> (Shown(bare) == [] || Shown(ctes) == []) && Shown(ctes) == Shown(moved) && Shown(rest) == Shown(restMoved)
  {
    hide Shown;
    ShownConcat(bare, ctes);
    ShownConcat(bare + ctes, rest);
    ShownConcat(moved, bare);
    ShownConcat(moved + bare, restMoved);
    ShownAreMet(moved);
    BareMoves(Shown(bare), Shown(ctes), Shown(moved), query, bodies);
    Aligned(Shown(bare) + Shown(ctes), Shown(rest), Shown(moved) + Shown(bare), Shown(restMoved));
  }

  /** On every tree, what is recorded stands in source order exactly when no
      query has both a bare TABLE and a WITH list naming stored relations. */
  lemma {:induction false} OrderIsKept(matches: Matching, env: seq<Binder>, targets: set<nat>, node: Node)
    requires WellFormed(node) && OwnPlaces(node)
    ensures |Shown(Resolve(matches, env, targets, node))| == |Shown(InOrder(matches, env, targets, node))|
    ensures Shown(Resolve(matches, env, targets, node)) == Shown(InOrder(matches, env, targets, node))
       <==> KeepsOrder(matches, env, targets, node)
    decreases node, 0
  {
    hide Shown, Stored, ResolveAll, ResolveCtes, InOrderAll, InOrderCtes, KeepsOrderAll, KeepsOrderCtes, WellFormedAll,
         WellFormedCtes, OwnPlacesAll, OwnPlacesCtes, LookupName, Binders, BareTable, PlacedIn, BodiesCtes, BodiesAll;
    match node
    case Statement(written, parts) => OrderIsKeptAll(matches, env, targets + (set t | t in written), parts);
    case Query(address, _, _, _, parts) =>
      var inner := Binders(node) + env;
      var bare := BareTable(matches, inner, node);
      var ctes, moved := ResolveCtes(matches, env, targets, node, 0), InOrderCtes(matches, env, targets, node, 0);
      var rest, restMoved := ResolveAll(matches, inner, targets, parts), InOrderAll(matches, inner, targets, parts);
      OrderIsKeptCtes(matches, env, targets, node, 0);
      OrderIsKeptAll(matches, inner, targets, parts);
      PlacesInsideCtes(matches, env, targets, node, 0);
      BareIsPlaced(matches, inner, node);
      StoredAreShown(ctes);
      StoredAreShown(bare);
      StoredBareIs(matches, inner, node, NoName);
      NoneStoredIs(matches, env, targets, node);
      QueryKeepsOrder(bare, ctes, rest, moved, restMoved, address, BodiesCtes(node, 0));
    case TableFactor(address, name, parts) =>
      OrderIsKeptAll(matches, env, targets, parts);
      var own := [Occurrence(NameAt(address), name, if address in targets then None
        else LookupName(matches, env, name), true)];
      ShownConcat(own, ResolveAll(matches, env, targets, parts));
      ShownConcat(own, InOrderAll(matches, env, targets, parts));
      Aligned(Shown(own), Shown(ResolveAll(matches, env, targets, parts)), Shown(own),
        Shown(InOrderAll(matches, env, targets, parts)));
    case OtherFactor(parts) => OrderIsKeptAll(matches, env, targets, parts);
    case Relation(_, _) | TableOperand(_, _) =>
  }

  lemma {:induction false} OrderIsKeptAll(matches: Matching, env: seq<Binder>, targets: set<nat>, nodes: seq<Node>)
    requires WellFormedAll(nodes) && OwnPlacesAll(nodes)
    ensures |Shown(ResolveAll(matches, env, targets, nodes))| == |Shown(InOrderAll(matches, env, targets, nodes))|
    ensures Shown(ResolveAll(matches, env, targets, nodes)) == Shown(InOrderAll(matches, env, targets, nodes))
       <==> KeepsOrderAll(matches, env, targets, nodes)
    decreases nodes, 0
  {
    hide Shown, Resolve, InOrder, KeepsOrder, WellFormed, OwnPlaces;
    if |nodes| > 0 {
      OrderIsKept(matches, env, targets, nodes[0]);
      OrderIsKeptAll(matches, env, targets, nodes[1..]);
      var first, firstMoved := Resolve(matches, env, targets, nodes[0]), InOrder(matches, env, targets, nodes[0]);
      var rest, restMoved := ResolveAll(matches, env, targets, nodes[1..]),
        InOrderAll(matches, env, targets, nodes[1..]);
      ShownConcat(first, rest);
      ShownConcat(firstMoved, restMoved);
      Aligned(Shown(first), Shown(rest), Shown(firstMoved), Shown(restMoved));
    }
  }

  lemma {:induction false} OrderIsKeptCtes(matches: Matching, env: seq<Binder>, targets: set<nat>, q: Node, i: nat)
    requires q.Query? && CtesAreQueries(q) && i <= |q.ctes| && WellFormedCtes(q, i) && OwnPlacesCtes(q, i)
    ensures |Shown(ResolveCtes(matches, env, targets, q, i))| == |Shown(InOrderCtes(matches, env, targets, q, i))|
    ensures Shown(ResolveCtes(matches, env, targets, q, i)) == Shown(InOrderCtes(matches, env, targets, q, i))
       <==> KeepsOrderCtes(matches, env, targets, q, i)
    decreases q, 0, |q.ctes| - i
  {
    hide Shown, Resolve, InOrder, KeepsOrder, WellFormed, OwnPlaces, Binders;
    if i < |q.ctes| {
      var sibling := SiblingEnv(q, i, env);
      OrderIsKept(matches, sibling, targets, q.ctes[i].query);
      OrderIsKeptCtes(matches, env, targets, q, i + 1);
      var first, firstMoved := Resolve(matches, sibling, targets, q.ctes[i].query),
        InOrder(matches, sibling, targets, q.ctes[i].query);
      var rest, restMoved := ResolveCtes(matches, env, targets, q, i + 1), InOrderCtes(matches, env, targets, q, i + 1);
      ShownConcat(first, rest);
      ShownConcat(firstMoved, restMoved);
      Aligned(Shown(first), Shown(rest), Shown(firstMoved), Shown(restMoved));
    }
  }

  // ---------------------------------------------------------------------
  // The names alone
  // ---------------------------------------------------------------------

  /** A list turned by one: its last name, which is `name`, put first. */
  predicate Turned(name: ObjectName, before: seq<ObjectName>, after: seq<ObjectName>) {
    |before| > 0 && before[|before| - 1] == name && after == [name] + before[..|before| - 1]
  }

  /** Where a bare TABLE names a stored relation, a WITH list whose own names
      read alike names no other, and one whose own do not is turned by one as the
      bare name moves; elsewhere names read alike inside the WITH list. */
  predicate NamesAlike(matches: Matching, env: seq<Binder>, targets: set<nat>, node: Node)
    requires WellFormed(node)
    decreases node, 0
  {
    match node
    case Statement(written, parts) => NamesAlikeAll(matches, env, targets + (set t | t in written), parts)
    case Query(_, _, _, table, parts) =>
      var inner := Binders(node) + env;
      && (if !StoredBare(matches, inner, node) then NamesAlikeCtes(matches, env, targets, node, 0)
          else if NamesAlikeCtes(matches, env, targets, node, 0) then
            EachStoredCtes(name => name == table.value, matches, env, targets, node, 0)
          else
            Turned(table.value, Stored(ResolveCtes(matches, env, targets, node, 0)),
              Stored(InOrderCtes(matches, env, targets, node, 0))))
      && NamesAlikeAll(matches, inner, targets, parts)
    case TableFactor(_, _, parts) => NamesAlikeAll(matches, env, targets, parts)
    case OtherFactor(parts) => NamesAlikeAll(matches, env, targets, parts)
    case Relation(_, _) | TableOperand(_, _) => true
  }

  predicate NamesAlikeAll(matches: Matching, env: seq<Binder>, targets: set<nat>, nodes: seq<Node>)
    requires WellFormedAll(nodes)
    decreases nodes, 0
  {
    |nodes| > 0 ==> NamesAlike(matches, env, targets, nodes[0]) && NamesAlikeAll(matches, env, targets, nodes[1..])
  }

  predicate NamesAlikeCtes(matches: Matching, env: seq<Binder>, targets: set<nat>, q: Node, i: nat)
    requires q.Query? && CtesAreQueries(q) && i <= |q.ctes| && WellFormedCtes(q, i)
    decreases q, 0, |q.ctes| - i
  {
    i < |q.ctes| ==>
      && NamesAlike(matches, SiblingEnv(q, i, env), targets, q.ctes[i].query)
      && NamesAlikeCtes(matches, env, targets, q, i + 1)
  }

  lemma QueryNamesAlike(bare: seq<Occurrence>, ctes: seq<Occurrence>, rest: seq<Occurrence>, moved: seq<Occurrence>,
      restMoved: seq<Occurrence>)
    requires |Stored(ctes)| == |Stored(moved)| && |Stored(rest)| == |Stored(restMoved)|
    ensures |Stored(bare + ctes + rest)| == |Stored(moved + bare + restMoved)|
    ensures Stored(bare + ctes + rest) == Stored(moved + bare + restMoved)
       <==> Stored(bare) + Stored(ctes) == Stored(moved) + Stored(bare) && Stored(rest) == Stored(restMoved)
  {
    hide Stored;
    StoredConcat(bare, ctes);
    StoredConcat(bare + ctes, rest);
    StoredConcat(moved, bare);
    StoredConcat(moved + bare, restMoved);
    Aligned(Stored(bare) + Stored(ctes), Stored(rest), Stored(moved) + Stored(bare), Stored(restMoved));
  }

  lemma {:induction false} PutAround(name: ObjectName, names: seq<ObjectName>)
    ensures [name] + names == names + [name] <==> Every(n => n == name, names)
  {
    if |names| > 0 {
      PutAround(name, names[1..]);
      assert names == [names[0]] + names[1..];
      assert ([name] + names)[0] == name && (names + [name])[0] == names[0];
      assert ([name] + names)[1..] == names && (names + [name])[1..] == names[1..] + [name];
      assert forall k :: 0 <= k < |names| - 1 ==> names[1..][k] == names[k + 1];
      if names[0] == name {
        assert [name] + names == names + [name] <==> names == names[1..] + [name];
      }
    }
  }

  lemma PutBeside(name: ObjectName, before: seq<ObjectName>, after: seq<ObjectName>)
    requires |before| == |after| && before != after
    ensures [name] + before == after + [name] <==> Turned(name, before, after)
  {
    var last := |before| - 1;
    assert before == before[..last] + [before[last]];
    assert [name] + before == ([name] + before[..last]) + [before[last]];
    Aligned([name] + before[..last], [before[last]], after, [name]);
  }

  /** What the bare name does to the names of its WITH list. */
  lemma BareReadsAlike(matches: Matching, env: seq<Binder>, targets: set<nat>, q: Node, inner: seq<Binder>)
    requires q.Query? && CtesAreQueries(q) && WellFormedCtes(q, 0)
    requires |Stored(ResolveCtes(matches, env, targets, q, 0))| == |Stored(InOrderCtes(matches, env, targets, q, 0))|
    ensures
      var before, after := Stored(ResolveCtes(matches, env, targets, q, 0)),
        Stored(InOrderCtes(matches, env, targets, q, 0));
      Stored(BareTable(matches, inner, q)) + before == after + Stored(BareTable(matches, inner, q)) <==>
        if !StoredBare(matches, inner, q) then before == after
        else if before == after then EachStoredCtes(name => name == q.table.value, matches, env, targets, q, 0)
        else Turned(q.table.value, before, after)
  {
    hide Stored, ResolveCtes, InOrderCtes, EachStoredCtes, BareTable, Turned;
    var before, after := Stored(ResolveCtes(matches, env, targets, q, 0)),
      Stored(InOrderCtes(matches, env, targets, q, 0));
    StoredBareIs(matches, inner, q, NoName);
    if !StoredBare(matches, inner, q) {
      assert [] + before == before && after + [] == after;
    } else if before == after {
      PutAround(q.table.value, before);
      EachStoredCtesIs(name => name == q.table.value, matches, env, targets, q, 0);
    } else {
      PutBeside(q.table.value, before, after);
    }
  }

  /** On every tree, the recorded names are those in source order exactly when
      they read alike around every bare TABLE. */
  lemma {:induction false} NamesReadAlike(matches: Matching, env: seq<Binder>, targets: set<nat>, node: Node)
    requires WellFormed(node)
    ensures |Stored(Resolve(matches, env, targets, node))| == |Stored(InOrder(matches, env, targets, node))|
    ensures Stored(Resolve(matches, env, targets, node)) == Stored(InOrder(matches, env, targets, node))
       <==> NamesAlike(matches, env, targets, node)
    decreases node, 0
  {
    hide Stored, ResolveAll, ResolveCtes, InOrderAll, InOrderCtes, NamesAlikeAll, NamesAlikeCtes, WellFormedAll,
         WellFormedCtes, LookupName, Binders, BareTable;
    match node
    case Statement(written, parts) => NamesReadAlikeAll(matches, env, targets + (set t | t in written), parts);
    case Query(_, _, _, _, parts) =>
      var inner := Binders(node) + env;
      NamesReadAlikeCtes(matches, env, targets, node, 0);
      NamesReadAlikeAll(matches, inner, targets, parts);
      BareReadsAlike(matches, env, targets, node, inner);
      QueryNamesAlike(BareTable(matches, inner, node), ResolveCtes(matches, env, targets, node, 0),
        ResolveAll(matches, inner, targets, parts),
                      InOrderCtes(matches, env, targets, node, 0), InOrderAll(matches, inner, targets, parts));
    case TableFactor(address, name, parts) =>
      NamesReadAlikeAll(matches, env, targets, parts);
      var own := [Occurrence(NameAt(address), name, if address in targets then None
        else LookupName(matches, env, name), true)];
      StoredConcat(own, ResolveAll(matches, env, targets, parts));
      StoredConcat(own, InOrderAll(matches, env, targets, parts));
      Aligned(Stored(own), Stored(ResolveAll(matches, env, targets, parts)), Stored(own),
        Stored(InOrderAll(matches, env, targets, parts)));
    case OtherFactor(parts) => NamesReadAlikeAll(matches, env, targets, parts);
    case Relation(_, _) | TableOperand(_, _) =>
  }

  lemma {:induction false} NamesReadAlikeAll(matches: Matching, env: seq<Binder>, targets: set<nat>, nodes: seq<Node>)
    requires WellFormedAll(nodes)
    ensures |Stored(ResolveAll(matches, env, targets, nodes))| == |Stored(InOrderAll(matches, env, targets, nodes))|
    ensures Stored(ResolveAll(matches, env, targets, nodes)) == Stored(InOrderAll(matches, env, targets, nodes))
       <==> NamesAlikeAll(matches, env, targets, nodes)
    decreases nodes, 0
  {
    hide Stored, Resolve, InOrder, NamesAlike, WellFormed;
    if |nodes| > 0 {
      NamesReadAlike(matches, env, targets, nodes[0]);
      NamesReadAlikeAll(matches, env, targets, nodes[1..]);
      var first, firstMoved := Resolve(matches, env, targets, nodes[0]), InOrder(matches, env, targets, nodes[0]);
      var rest, restMoved := ResolveAll(matches, env, targets, nodes[1..]),
        InOrderAll(matches, env, targets, nodes[1..]);
      StoredConcat(first, rest);
      StoredConcat(firstMoved, restMoved);
      Aligned(Stored(first), Stored(rest), Stored(firstMoved), Stored(restMoved));
    }
  }

  lemma {:induction false} NamesReadAlikeCtes(matches: Matching, env: seq<Binder>, targets: set<nat>, q: Node, i: nat)
    requires q.Query? && CtesAreQueries(q) && i <= |q.ctes| && WellFormedCtes(q, i)
    ensures |Stored(ResolveCtes(matches, env, targets, q, i))| == |Stored(InOrderCtes(matches, env, targets, q, i))|
    ensures Stored(ResolveCtes(matches, env, targets, q, i)) == Stored(InOrderCtes(matches, env, targets, q, i))
       <==> NamesAlikeCtes(matches, env, targets, q, i)
    decreases q, 0, |q.ctes| - i
  {
    hide Stored, Resolve, InOrder, NamesAlike, WellFormed, Binders;
    if i < |q.ctes| {
      var sibling := SiblingEnv(q, i, env);
      NamesReadAlike(matches, sibling, targets, q.ctes[i].query);
      NamesReadAlikeCtes(matches, env, targets, q, i + 1);
      var first, firstMoved := Resolve(matches, sibling, targets, q.ctes[i].query),
        InOrder(matches, sibling, targets, q.ctes[i].query);
      var rest, restMoved := ResolveCtes(matches, env, targets, q, i + 1), InOrderCtes(matches, env, targets, q, i + 1);
      StoredConcat(first, rest);
      StoredConcat(firstMoved, restMoved);
      Aligned(Stored(first), Stored(rest), Stored(firstMoved), Stored(restMoved));
    }
  }

  // ---------------------------------------------------------------------
  // Inputs
  // ---------------------------------------------------------------------

  const A := Ident("a", false)
  const B := Ident("b", false)
  const X := Ident("x", false)
  const Y := Ident("y", false)

  function Same(): Matching {
    (p: Ident, q: Ident) => p == q
  }

  /** SELECT * FROM name. */
  function From(address: nat, name: Ident): Node {
    Query(address, false, [], None, [TableFactor(address, [name], [])])
  }

  /** WITH alias AS (inner) TABLE name. */
  function BareOver(address: nat, alias: Ident, inner: Node, name: Ident): Node {
    Query(address, false, [Cte(alias, inner)], Some([name]), [])
  }

  lemma FromResolves(address: nat, name: Ident)
    ensures var q := From(address, name);
      && WellFormed(q) && Names(q) == {address}
      && Resolve(Same(), [], {}, q) == [Occurrence(NameAt(address), [name], None, true)] == InOrder(Same(), [], {}, q)
  {
    var q := From(address, name);
    assert q.parts[1..] == [] && q.parts[0].parts == [];
    assert NamesAll(q.parts[1..]) == {} && QueriesAll(q.parts[1..]) == {};
    var part := q.parts[0];
    assert NamesAll([]) == {} && QueriesAll([]) == {} && HooklessAll([]) && WellFormedAll([]);
    assert WellFormed(part) && Names(part) == {address} && Queries(part) == {};
    assert WellFormedAll(q.parts) && QueriesAll(q.parts) == {} && NamesAll(q.parts) == {address};
    assert OwnAddresses(q) && WellFormedCtes(q, 0) && NamesCtes(q, 0) == {};
    assert Binders(q) + [] == [];
    var own := [Occurrence(NameAt(address), [name], None, true)];
    assert Lookup(Same(), [], name) == None;
    assert ResolveAll(Same(), [], {}, []) == [] && InOrderAll(Same(), [], {}, []) == [] && own + [] == own;
    assert Resolve(Same(), [], {}, part) == own;
    assert InOrder(Same(), [], {}, part) == own;
    assert ResolveAll(Same(), [], {}, q.parts) == own && InOrderAll(Same(), [], {}, q.parts) == own;
  }

  lemma BareOverResolves(address: nat, alias: Ident, inner: Node, name: Ident)
    requires inner.Query? && WellFormed(inner) && alias != name
    ensures var q := BareOver(address, alias, inner, name);
      && WellFormed(q)
      && Resolve(Same(), [], {}, q) == [Occurrence(BodyOf(address), [name], None, true)]
          + Resolve(Same(), [], {}, inner)
      && InOrder(Same(), [], {}, q) == InOrder(Same(), [], {}, inner)
          + [Occurrence(BodyOf(address), [name], None, true)]
  {
    var q := BareOver(address, alias, inner, name);
    assert NamesCtes(q, 1) == {} && WellFormedCtes(q, 1);
    assert WellFormedCtes(q, 0) && QueriesAll([]) == {} && NamesAll([]) == {} && OwnAddresses(q);
    assert SiblingEnv(q, 0, []) == [];
    var binders := Binders(q) + [];
    assert binders == [Binder(alias, inner.address)] && binders[1..] == [];
    assert Lookup(Same(), binders, name) == Lookup(Same(), [], name) == None;
    var ctes, moved := Resolve(Same(), [], {}, inner), InOrder(Same(), [], {}, inner);
    assert ResolveCtes(Same(), [], {}, q, 1) == [] && InOrderCtes(Same(), [], {}, q, 1) == [];
    assert ResolveCtes(Same(), [], {}, q, 0) == ctes + [] == ctes
      && InOrderCtes(Same(), [], {}, q, 0) == moved + [] == moved;
    var bare := [Occurrence(BodyOf(address), [name], None, true)];
    assert bare + ctes + [] == bare + ctes && moved + bare + [] == moved + bare;
  }

  lemma OneStored(o: Occurrence, rest: seq<Occurrence>)
    requires o.denotes.None? && o.hooked
    ensures Stored([o] + rest) == [o.name] + Stored(rest) && Stored([]) == []
  {
    assert ([o] + rest)[1..] == rest;
  }

  /** WITH x AS (SELECT * FROM b) TABLE a records a before b. */
  lemma BareComesFirst()
    ensures var q := BareOver(0, X, From(1, B), A);
      && WellFormed(q)
      && Stored(Resolve(Same(), [], {}, q)) == [[A], [B]] && Stored(InOrder(Same(), [], {}, q)) == [[B], [A]]
  {
    hide Resolve, InOrder, WellFormed, Stored;
    FromResolves(1, B);
    BareOverResolves(0, X, From(1, B), A);
    var a, b := Occurrence(BodyOf(0), [A], None, true), Occurrence(NameAt(1), [B], None, true);
    OneStored(a, [b]);
    OneStored(b, [a]);
    OneStored(a, []);
    OneStored(b, []);
    assert [a] + [] == [a] && [b] + [] == [b];
    assert [[A]] + ([[B]] + []) == [[A], [B]] && [[B]] + ([[A]] + []) == [[B], [A]];
  }

  /** Names may coincide though their places do not: with a further WITH inside,
      a, b, a is recorded for a, b, a while every place has moved. */
  lemma NamesMayCoincide()
    ensures var q := BareOver(0, X, BareOver(1, Y, From(2, A), B), A);
      && WellFormed(q)
      && Stored(Resolve(Same(), [], {}, q)) == [[A], [B], [A]] == Stored(InOrder(Same(), [], {}, q))
      && Resolve(Same(), [], {}, q) != InOrder(Same(), [], {}, q)
  {
    hide Resolve, InOrder, WellFormed, Stored;
    FromResolves(2, A);
    BareOverResolves(1, Y, From(2, A), B);
    BareOverResolves(0, X, BareOver(1, Y, From(2, A), B), A);
    var outer, middle, inner := Occurrence(BodyOf(0), [A], None, true), Occurrence(BodyOf(1), [B], None, true),
      Occurrence(NameAt(2), [A], None, true);
    assert [middle] + [inner] == [middle, inner] && [inner] + [middle] == [inner, middle];
    OneStored(outer, [middle, inner]);
    OneStored(middle, [inner]);
    OneStored(inner, []);
    OneStored(inner, [middle, outer]);
    OneStored(middle, [outer]);
    OneStored(outer, []);
    assert [inner] + [] == [inner] && [outer] + [] == [outer];
    assert [inner, middle] + [outer] == [inner] + [middle, outer] && [middle] + [outer] == [middle, outer];
    assert [outer] + [middle, inner] == [outer, middle, inner];
    var q := BareOver(0, X, BareOver(1, Y, From(2, A), B), A);
    assert Resolve(Same(), [], {}, q) == [outer] + [middle, inner];
    assert InOrder(Same(), [], {}, q) == [inner] + [middle, outer];
    assert [outer] + [middle, inner] != [inner] + [middle, outer] by {
      assert ([outer] + [middle, inner])[0] == outer && ([inner] + [middle, outer])[0] == inner;
    }
    assert [[A]] + ([[B]] + ([[A]] + [])) == [[A], [B], [A]];
  }
}
