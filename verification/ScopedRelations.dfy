/** The relations a syntax tree names, common table expressions excluded. */
module ScopedRelations {
  import opened Wrappers
  import opened Text
  import opened RelationScope

  // ---------------------------------------------------------------------
  // What resolution says is stored
  // ---------------------------------------------------------------------

  /** The names that denote stored relations, among those a visitor is shown. */
  function Stored(occurrences: seq<Occurrence>): seq<ObjectName> {
    if |occurrences| == 0 then []
    else
      (if occurrences[0].denotes.None? && occurrences[0].hooked then [occurrences[0].name] else [])
      + Stored(occurrences[1..])
  }

  /** The names that denote stored relations. */
  function StoredAnywhere(occurrences: seq<Occurrence>): seq<ObjectName> {
    if |occurrences| == 0 then []
    else (if occurrences[0].denotes.None? then [occurrences[0].name] else []) + StoredAnywhere(occurrences[1..])
  }

  lemma StoredConcat(a: seq<Occurrence>, b: seq<Occurrence>)
    ensures Stored(a + b) == Stored(a) + Stored(b)
  {
    if |a| == 0 {
      assert a + b == b;
    } else {
      assert (a + b)[1..] == a[1..] + b;
      StoredConcat(a[1..], b);
    }
  }

  lemma StoredFits(occurrences: seq<Occurrence>)
    ensures |Stored(occurrences)| <= |StoredAnywhere(occurrences)|
  {
  }

  /** The visitor is shown every stored relation exactly when no TABLE operand
      of a set operation names one. */
  lemma {:induction false} StoredIsEverywhere(occurrences: seq<Occurrence>)
    ensures Stored(occurrences) == StoredAnywhere(occurrences)
       <==> forall o :: o in occurrences && !o.hooked ==> o.denotes.Some?
  {
    if |occurrences| > 0 {
      var first, rest := occurrences[0], occurrences[1..];
      StoredIsEverywhere(rest);
      StoredFits(rest);
      assert occurrences == [first] + rest;
      if first.hooked || first.denotes.Some? {
        assert (forall o :: o in occurrences && !o.hooked ==> o.denotes.Some?) <==>
          (forall o :: o in rest && !o.hooked ==> o.denotes.Some?);
        var head := if first.denotes.None? then [first.name] else [];
        assert Stored(occurrences) == head + Stored(rest) && StoredAnywhere(occurrences) == head + StoredAnywhere(rest);
        assert (head + Stored(rest))[|head|..] == Stored(rest)
          && (head + StoredAnywhere(rest))[|head|..] == StoredAnywhere(rest);
      } else {
        assert first in occurrences;
        assert |Stored(occurrences)| < |StoredAnywhere(occurrences)|;
      }
    }
  }

  lemma StoredNothing()
    ensures Stored([]) == []
  {
  }

  lemma NotHooked(o: Occurrence)
    requires !o.hooked
    ensures Stored([o]) == []
  {
  }

  /** No query directly inside is a sibling of the innermost scope. */
  predicate Outside(scopes: seq<CteScope>, queries: set<nat>) {
    |scopes| > 0 ==> forall a :: a in queries ==> !Holds(scopes[|scopes| - 1].bodies, a)
  }

  /** What a node of the tree finds in view when its visit starts. */
  function InView(scopes: seq<CteScope>, node: Node): seq<CteScope> {
    if node.Query? then Narrowed(scopes, node.address) else scopes
  }

  lemma PartsAreOutside(around: seq<CteScope>, q: Node, restore: Option<nat>)
    requires q.Query? && WellFormed(q)
    ensures Outside(around + [ScopeOf(q, restore)], QueriesAll(q.parts))
  {
    hide WellFormedAll, WellFormedCtes, NamesAll, NamesCtes, QueriesAll;
  }

  predicate SameTargets(recorded: seq<nat>, targets: set<nat>, names: set<nat>) {
    forall a :: a in names ==> (a in recorded <==> a in targets)
  }

  predicate Grown(before: seq<nat>, after: seq<nat>, names: set<nat>) {
    (forall a :: a in before ==> a in after) && (forall a :: a in after ==> a in before || a in names)
  }

  class RelationCollector {
    const scopes: RelationScopes
    var occurrences: seq<ObjectName>
    /** Whether the relation met next is the name of a table factor. */
    var insideTableFactor: bool
    /** Every relation met, with what it was found to denote. */
    ghost var met: seq<Occurrence>

    constructor (matches: Matching)
      ensures fresh(scopes) && scopes.matches == matches && scopes.scopes == [] && scopes.targets == []
      ensures occurrences == [] && !insideTableFactor && met == []
    {
      scopes := new RelationScopes(matches);
      occurrences, insideTableFactor, met := [], false, [];
    }

    /** Puts a name on record, with what the scopes say it denotes. */
    method Meet(ghost place: Place, name: ObjectName, bindable: bool)
      requires ValidStack(scopes.scopes)
      modifies this`occurrences, this`met
      ensures var met1 := Occurrence(place, name, if bindable
          then LookupName(scopes.matches, Visible(scopes.scopes), name) else None, true);
              met == old(met) + [met1] && occurrences == old(occurrences) + Stored([met1])
    {
      var binding: Option<(nat, nat)> := None;
      if bindable && |name| == 1 {
        binding := scopes.Binding(name[0]);
      }
      if binding.None? {
        occurrences := occurrences + [name];
        met := met + [Occurrence(place, name, None, true)];
      } else {
        met := met + [Occurrence(place, name, Some(scopes.scopes[binding.value.0].bodies[binding.value.1].0), true)];
      }
    }

    /** Visits a tree: records, in the order met, exactly the names that resolve
        to stored relations, and leaves every scope as it was. */
    method Visit(node: Node, ghost env: seq<Binder>, ghost targets: set<nat>)
      requires WellFormed(node)
      requires ValidStack(scopes.scopes) && ValidStack(InView(scopes.scopes, node))
      requires Visible(InView(scopes.scopes, node)) == env
      requires node.Query? || Outside(scopes.scopes, Queries(node))
      requires SameTargets(scopes.targets, targets, Names(node))
      requires insideTableFactor ==> Hookless(node)
      modifies this, scopes
      ensures scopes.scopes == old(scopes.scopes)
      ensures insideTableFactor ==> old(insideTableFactor)
      ensures Grown(old(scopes.targets), scopes.targets, Names(node))
      ensures met == old(met) + Resolve(scopes.matches, env, targets, node)
      ensures occurrences == old(occurrences) + Stored(Resolve(scopes.matches, env, targets, node))
      decreases node, 1
    {
      hide Visible, ValidStack, Narrowed, Stored, LookupName, ResolveAll, WellFormedAll, NamesAll, QueriesAll,
           HooklessAll, NamesCtes, HooklessCtes, Holds, ResolveCtes, Binders;
      match node {
        case Statement(written, parts) =>
          scopes.RecordTargets(written);
          VisitAll(parts, env, targets + (set t | t in written));
        case Query(_, _, _, _, _) =>
          VisitQuery(node, env, targets);
        case TableFactor(address, name, parts) =>
          insideTableFactor := true;
          ghost var start := met;
          Meet(NameAt(address), name, address !in scopes.targets);
          ghost var own := met[|start|..];
          assert met == start + own;
          VisitAll(parts, env, targets);
          insideTableFactor := false;
          StoredConcat(own, ResolveAll(scopes.matches, env, targets, parts));
        case OtherFactor(parts) =>
          insideTableFactor := false;
          VisitAll(parts, env, targets);
          insideTableFactor := false;
        case Relation(address, name) =>
          var target := address in scopes.targets;
          Meet(NameAt(address), name, insideTableFactor && !target);
        case TableOperand(_, _) =>
          ghost var missed := Resolve(scopes.matches, env, targets, node);
          met := met + missed;
          NotHooked(missed[0]);
      }
    }

    method VisitQuery(q: Node, ghost env: seq<Binder>, ghost targets: set<nat>)
      requires q.Query? && WellFormed(q)
      requires ValidStack(scopes.scopes) && ValidStack(Narrowed(scopes.scopes, q.address))
      requires Visible(Narrowed(scopes.scopes, q.address)) == env
      requires SameTargets(scopes.targets, targets, Names(q))
      requires insideTableFactor ==> Hookless(q)
      modifies this, scopes
      ensures scopes.scopes == old(scopes.scopes)
      ensures insideTableFactor ==> old(insideTableFactor)
      ensures Grown(old(scopes.targets), scopes.targets, Names(q))
      ensures met == old(met) + Resolve(scopes.matches, env, targets, q)
      ensures occurrences == old(occurrences) + Stored(Resolve(scopes.matches, env, targets, q))
      decreases q, 0, |q.ctes| + 1
    {
      hide Visible, ValidStack, Narrowed, Restored, Exited, Stored, LookupName, ResolveAll, WellFormedAll, NamesAll,
           QueriesAll, HooklessAll, NamesCtes, HooklessCtes, WellFormedCtes, Holds, ResolveCtes, Binders, ScopeOf,
           Outside;
      StoredNothing();
      ghost var around := scopes.scopes;
      scopes.Enter(q);
      ghost var narrowed, restore := Narrowed(around, q.address), Restored(around, q.address);
      EnteredSees(narrowed, q, restore);
      ghost var inner := Binders(q) + env;
      ghost var start := met;
      if q.table.Some? {
        Meet(BodyOf(q.address), q.table.value, true);
      }
      ghost var table := met[|start|..];
      assert met == start + table;
      VisitCtes(q, 0, narrowed, restore, env, targets);
      PartsAreOutside(narrowed, q, restore);
      VisitAll(q.parts, inner, targets);
      scopes.Exit();
      ExitUndoesEnter(around, q);
      StoredConcat(table, ResolveCtes(scopes.matches, env, targets, q, 0));
      StoredConcat(table + ResolveCtes(scopes.matches, env, targets, q, 0),
        ResolveAll(scopes.matches, inner, targets, q.parts));
    }

    method VisitCtes(q: Node, i: nat, ghost around: seq<CteScope>, ghost restore: Option<nat>, ghost env: seq<Binder>,
        ghost targets: set<nat>)
      requires q.Query? && i <= |q.ctes| && OwnAddresses(q) && WellFormedCtes(q, i)
      requires scopes.scopes == around + [ScopeOf(q, restore)]
      requires ValidStack(around) && Visible(around) == env
      requires SameTargets(scopes.targets, targets, NamesCtes(q, i))
      requires insideTableFactor ==> HooklessCtes(q, i)
      modifies this, scopes
      ensures scopes.scopes == old(scopes.scopes)
      ensures insideTableFactor ==> old(insideTableFactor)
      ensures Grown(old(scopes.targets), scopes.targets, NamesCtes(q, i))
      ensures met == old(met) + ResolveCtes(scopes.matches, env, targets, q, i)
      ensures occurrences == old(occurrences) + Stored(ResolveCtes(scopes.matches, env, targets, q, i))
      decreases q, 0, |q.ctes| - i
    {
      hide Visible, ValidStack, Narrowed, Stored, Resolve, WellFormed, Names, Hookless, Holds, ScopeOf, Binders,
           SiblingEnv;
      StoredNothing();
      if i < |q.ctes| {
        SiblingSees(around, q, restore, i);
        EnteredSees(around, q, restore);
        Visit(q.ctes[i].query, SiblingEnv(q, i, env), targets);
        VisitCtes(q, i + 1, around, restore, env, targets);
        StoredConcat(Resolve(scopes.matches, SiblingEnv(q, i, env), targets, q.ctes[i].query),
          ResolveCtes(scopes.matches, env, targets, q, i + 1));
      }
    }

    method VisitAll(nodes: seq<Node>, ghost env: seq<Binder>, ghost targets: set<nat>)
      requires WellFormedAll(nodes)
      requires ValidStack(scopes.scopes) && Visible(scopes.scopes) == env
      requires Outside(scopes.scopes, QueriesAll(nodes))
      requires SameTargets(scopes.targets, targets, NamesAll(nodes))
      requires insideTableFactor ==> HooklessAll(nodes)
      modifies this, scopes
      ensures scopes.scopes == old(scopes.scopes)
      ensures insideTableFactor ==> old(insideTableFactor)
      ensures Grown(old(scopes.targets), scopes.targets, NamesAll(nodes))
      ensures met == old(met) + ResolveAll(scopes.matches, env, targets, nodes)
      ensures occurrences == old(occurrences) + Stored(ResolveAll(scopes.matches, env, targets, nodes))
      decreases nodes, 0
    {
      hide Visible, ValidStack, Narrowed, Stored, Resolve, WellFormed, Names, Hookless, Holds;
      StoredNothing();
      if |nodes| > 0 {
        if nodes[0].Query? {
          assert nodes[0].address in Queries(nodes[0]);
          OutsiderSees(scopes.scopes, nodes[0].address);
        }
        Visit(nodes[0], env, targets);
        VisitAll(nodes[1..], env, targets);
        StoredConcat(Resolve(scopes.matches, env, targets, nodes[0]),
          ResolveAll(scopes.matches, env, targets, nodes[1..]));
      }
    }
  }

  /** Every name a visitor is shown that resolves to a stored relation: a
      common table expression's own name, in view, never does. */
  method RelationOccurrences(matches: Matching, node: Node) returns (names: seq<ObjectName>)
    requires WellFormed(node)
    ensures names == Stored(Resolve(matches, [], {}, node))
  {
    var collector := new RelationCollector(matches);
    collector.Visit(node, [], {});
    names := collector.occurrences;
  }

  // ---------------------------------------------------------------------
  // Names
  // ---------------------------------------------------------------------

  function LastValue(name: ObjectName): string {
    if |name| == 0 then "" else name[|name| - 1].value
  }

  function FirstIndex<T(==)>(s: seq<T>, x: T): nat
    requires x in s
  {
    if s[0] == x then 0 else 1 + FirstIndex(s[1..], x)
  }

  lemma FirstIndexPrefix<T>(s: seq<T>, t: seq<T>, x: T)
    requires x in s
    ensures FirstIndex(s + t, x) == FirstIndex(s, x) < |s|
  {
    if s[0] != x {
      assert (s + t)[1..] == s[1..] + t;
      FirstIndexPrefix(s[1..], t, x);
    }
  }

  lemma FirstIndexAfter<T>(s: seq<T>, x: T)
    requires x !in s
    ensures FirstIndex(s + [x], x) == |s|
  {
    if |s| > 0 {
      assert (s + [x])[1..] == s[1..] + [x];
      FirstIndexAfter(s[1..], x);
    }
  }

  function Folded(names: seq<ObjectName>): seq<string> {
    seq(|names|, i requires 0 <= i < |names| => Lower(LastValue(names[i])))
  }

  /** A relation is known by its last identifier in lower case, whatever
      qualifies it. */
  lemma FoldedAre(names: seq<ObjectName>, k: nat, qualifiers: ObjectName, last: Ident)
    requires k < |names| && names[k] == qualifiers + [last]
    ensures Folded(names)[k] == Lower(last.value)
  {
  }

  /** The stored relations' own names, folded, each once, in the order first met. */
  method RelationNames(matches: Matching, node: Node) returns (names: seq<string>)
    requires WellFormed(node)
    ensures var all := Folded(Stored(Resolve(matches, [], {}, node)));
      && (forall n :: n in names <==> n in all)
      && (forall i, j :: 0 <= i < j < |names| ==> FirstIndex(all, names[i]) < FirstIndex(all, names[j]))
  {
    var occurrences := RelationOccurrences(matches, node);
    ghost var all := Folded(occurrences);
    names := [];
    for i := 0 to |occurrences|
      invariant forall n :: n in names <==> n in all[..i]
      invariant forall j, k :: 0 <= j < k < |names| ==> FirstIndex(all[..i], names[j]) < FirstIndex(all[..i], names[k])
    {
      var name := Lower(LastValue(occurrences[i]));
      assert all[..i + 1] == all[..i] + [name];
      forall n | n in all[..i] ensures FirstIndex(all[..i + 1], n) == FirstIndex(all[..i], n) < i {
        FirstIndexPrefix(all[..i], [name], n);
      }
      ghost var before := names;
      if name !in names {
        FirstIndexAfter(all[..i], name);
        names := names + [name];
      }
      forall j, k | 0 <= j < k < |names|
        ensures FirstIndex(all[..i + 1], names[j]) < FirstIndex(all[..i + 1], names[k])
      {
        assert before[j] in before;
        assert names[k] == if k < |before| then before[k] else name;
        if k < |before| {
          assert before[k] in before;
        }
      }
    }
    assert all[..|occurrences|] == all;
  }

  lemma OneOperand(nodes: seq<Node>, name: ObjectName)
    requires |nodes| == 1 && nodes[0].TableOperand? && nodes[0].name == name
    ensures nodes[1..] == [] && WellFormedAll(nodes) && QueriesAll(nodes) == {} && NamesAll(nodes) == {}
  {
    assert nodes[1..] == [];
    assert NamesAll(nodes[1..]) == {} && QueriesAll(nodes[1..]) == {};
    assert Names(nodes[0]) == {} && Queries(nodes[0]) == {} && WellFormed(nodes[0]);
  }

  /** A TABLE operand names a stored relation no visitor is shown. */
  lemma OperandIsMissed(matches: Matching)
    ensures var ident := Ident("a", false);
            var query := Query(0, false, [], None, [TableOperand(1, [ident])]);
            WellFormed(query) && Stored(Resolve(matches, [], {}, query)) == []
              && StoredAnywhere(Resolve(matches, [], {}, query)) == [[ident]]
  {
    var ident := Ident("a", false);
    var query := Query(0, false, [], None, [TableOperand(1, [ident])]);
    var operand := query.parts[0];
    OneOperand(query.parts, [ident]);
    assert CtesAreQueries(query) && OwnAddresses(query) && WellFormedCtes(query, 0) && NamesCtes(query, 0) == {};
    assert Binders(query) == [] && LookupName(matches, [], [ident]) == None;
    assert ResolveAll(matches, [], {}, query.parts[1..]) == [];
    assert ResolveAll(matches, [], {}, query.parts) == [Occurrence(NameAt(1), [ident], None, false)];
    assert Resolve(matches, [], {}, query) == [Occurrence(NameAt(1), [ident], None, false)];
  }
}
