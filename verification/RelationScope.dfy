/** Lexical visibility of common table expressions: a stack of scopes, one per
    query being visited, each with the count of its siblings now in view. */
module RelationScope {
  import opened Wrappers

  datatype Ident = Ident(value: string, quoted: bool)

  type ObjectName = seq<Ident>

  datatype Cte = Cte(alias: Ident, query: Node)

  /** The parts of a syntax tree a visitor is called on. An address is where a
      query, or a relation's name, sits in memory. */
  datatype Node =
    | Statement(written: seq<nat>, parts: seq<Node>)
    | Query(address: nat, recursive: bool, ctes: seq<Cte>, table: Option<ObjectName>, parts: seq<Node>)
    | TableFactor(address: nat, name: ObjectName, parts: seq<Node>)
    | OtherFactor(parts: seq<Node>)
    | Relation(address: nat, name: ObjectName)
    | TableOperand(address: nat, name: ObjectName)

  // ---------------------------------------------------------------------
  // Environment passing
  // ---------------------------------------------------------------------

  /** A common table expression in view: its alias and the query it names. */
  datatype Binder = Binder(alias: Ident, body: nat)

  type Matching = (Ident, Ident) -> bool

  /** The innermost, then leftmost binder a reference matches. */
  function Lookup(matches: Matching, env: seq<Binder>, reference: Ident): Option<nat> {
    if |env| == 0 then None
    else if matches(env[0].alias, reference) then Some(env[0].body)
    else Lookup(matches, env[1..], reference)
  }

  function Binders(q: Node): seq<Binder>
    requires q.Query? && CtesAreQueries(q)
  {
    seq(|q.ctes|, i requires 0 <= i < |q.ctes| => Binder(q.ctes[i].alias, q.ctes[i].query.address))
  }

  /** What sibling `i` of a WITH list sees: the siblings before it, or all of
      them when the list is recursive, then everything around the query. */
  function SiblingEnv(q: Node, i: nat, env: seq<Binder>): seq<Binder>
    requires q.Query? && CtesAreQueries(q) && i <= |q.ctes|
  {
    Binders(q)[..if q.recursive then |q.ctes| else i] + env
  }

  predicate CtesAreQueries(q: Node)
    requires q.Query?
  {
    forall i :: 0 <= i < |q.ctes| ==> q.ctes[i].query.Query?
  }

  /** Where a name stands: at an address of its own, or as a query's whole body. */
  datatype Place = NameAt(address: nat) | BodyOf(query: nat)

  /** A relation name met in the tree: the query of the common table expression
      it denotes, none when it denotes a stored relation. */
  datatype Occurrence = Occurrence(place: Place, name: ObjectName, denotes: Option<nat>, hooked: bool)

  /** The name of a query whose body is a bare TABLE. */
  function BareTable(matches: Matching, inner: seq<Binder>, q: Node): seq<Occurrence>
    requires q.Query?
  {
    if q.table.Some? then [Occurrence(BodyOf(q.address), q.table.value, LookupName(matches, inner, q.table.value),
      true)] else []
  }

  function Resolve(matches: Matching, env: seq<Binder>, targets: set<nat>, node: Node): seq<Occurrence>
    requires WellFormed(node)
    decreases node, 0
  {
    match node
    case Statement(written, parts) => ResolveAll(matches, env, targets + (set t | t in written), parts)
    case Query(_, _, ctes, table, parts) =>
      var inner := Binders(node) + env;
      BareTable(matches, inner, node)
      + ResolveCtes(matches, env, targets, node, 0)
      + ResolveAll(matches, inner, targets, parts)
    case TableFactor(address, name, parts) =>
      [Occurrence(NameAt(address), name, if address in targets then None else LookupName(matches, env, name), true)]
      + ResolveAll(matches, env, targets, parts)
    case OtherFactor(parts) => ResolveAll(matches, env, targets, parts)
    case Relation(address, name) => [Occurrence(NameAt(address), name, None, true)]
    case TableOperand(address, name) => [Occurrence(NameAt(address), name, LookupName(matches, env, name), false)]
  }

  /** Only a one-part name can denote a common table expression. */
  function LookupName(matches: Matching, env: seq<Binder>, name: ObjectName): Option<nat> {
    if |name| == 1 then Lookup(matches, env, name[0]) else None
  }

  function ResolveAll(matches: Matching, env: seq<Binder>, targets: set<nat>, nodes: seq<Node>): seq<Occurrence>
    requires WellFormedAll(nodes)
    decreases nodes, 0
  {
    if |nodes| == 0 then []
    else Resolve(matches, env, targets, nodes[0]) + ResolveAll(matches, env, targets, nodes[1..])
  }

  function ResolveCtes(matches: Matching, env: seq<Binder>, targets: set<nat>, q: Node, i: nat): seq<Occurrence>
    requires q.Query? && CtesAreQueries(q) && i <= |q.ctes| && WellFormedCtes(q, i)
    decreases q, 0, |q.ctes| - i
  {
    if i == |q.ctes| then []
    else
      Resolve(matches, SiblingEnv(q, i, env), targets, q.ctes[i].query)
      + ResolveCtes(matches, env, targets, q, i + 1)
  }

  // ---------------------------------------------------------------------
  // Trees as they sit in memory
  // ---------------------------------------------------------------------

  /** The siblings of a WITH list are queries at addresses of their own. */
  predicate OwnAddresses(q: Node)
    requires q.Query?
  {
    CtesAreQueries(q) && forall i, j :: 0 <= i < j < |q.ctes| ==> q.ctes[i].query.address != q.ctes[j].query.address
  }

  /** Nodes have their own addresses, the written tables of a statement are its
      own, and a table factor's arguments hold no statement. */
  predicate WellFormed(node: Node)
    decreases node, 0
  {
    match node
    case Statement(written, parts) => WellFormedAll(parts) && (set t | t in written) <= NamesAll(parts)
    case Query(_, _, ctes, table, parts) =>
      && OwnAddresses(node)
      && (forall i :: 0 <= i < |ctes| ==> ctes[i].query.address !in QueriesAll(parts))
      && WellFormedCtes(node, 0) && WellFormedAll(parts)
      && NamesCtes(node, 0) !! NamesAll(parts)
    case TableFactor(address, name, parts) => WellFormedAll(parts) && address !in NamesAll(parts) && HooklessAll(parts)
    case OtherFactor(parts) => WellFormedAll(parts)
    case Relation(_, _) | TableOperand(_, _) => true
  }

  predicate WellFormedAll(nodes: seq<Node>)
    decreases nodes, 0
  {
    |nodes| > 0 ==> WellFormed(nodes[0]) && WellFormedAll(nodes[1..]) && Names(nodes[0]) !! NamesAll(nodes[1..])
  }

  predicate WellFormedCtes(q: Node, i: nat)
    requires q.Query? && i <= |q.ctes|
    decreases q, 0, |q.ctes| - i
  {
    i < |q.ctes| ==>
      && WellFormed(q.ctes[i].query) && WellFormedCtes(q, i + 1)
      && Names(q.ctes[i].query) !! NamesCtes(q, i + 1)
  }

  /** The addresses of the table factors' names. */
  function Names(node: Node): set<nat>
    decreases node, 0
  {
    match node
    case Statement(_, parts) => NamesAll(parts)
    case Query(_, _, _, _, parts) => NamesCtes(node, 0) + NamesAll(parts)
    case TableFactor(address, _, parts) => {address} + NamesAll(parts)
    case OtherFactor(parts) => NamesAll(parts)
    case Relation(_, _) | TableOperand(_, _) => {}
  }

  function NamesAll(nodes: seq<Node>): set<nat>
    decreases nodes, 0
  {
    if |nodes| == 0 then {} else Names(nodes[0]) + NamesAll(nodes[1..])
  }

  function NamesCtes(q: Node, i: nat): set<nat>
    requires q.Query? && i <= |q.ctes|
    decreases q, 0, |q.ctes| - i
  {
    if i == |q.ctes| then {} else Names(q.ctes[i].query) + NamesCtes(q, i + 1)
  }

  /** The queries directly inside, with no query in between. */
  function Queries(node: Node): set<nat>
    decreases node, 0
  {
    match node
    case Statement(_, parts) => QueriesAll(parts)
    case Query(address, _, _, _, _) => {address}
    case TableFactor(_, _, parts) => QueriesAll(parts)
    case OtherFactor(parts) => QueriesAll(parts)
    case Relation(_, _) | TableOperand(_, _) => {}
  }

  function QueriesAll(nodes: seq<Node>): set<nat>
    decreases nodes, 0
  {
    if |nodes| == 0 then {} else Queries(nodes[0]) + QueriesAll(nodes[1..])
  }

  /** No relation named outside a table factor: nothing but queries. */
  predicate Hookless(node: Node)
    decreases node, 0
  {
    match node
    case Statement(_, parts) => HooklessAll(parts)
    case Query(_, _, ctes, _, parts) => HooklessCtes(node, 0) && HooklessAll(parts)
    case TableFactor(_, _, parts) => HooklessAll(parts)
    case OtherFactor(parts) => HooklessAll(parts)
    case Relation(_, _) => false
    case TableOperand(_, _) => true
  }

  predicate HooklessAll(nodes: seq<Node>)
    decreases nodes, 0
  {
    |nodes| > 0 ==> Hookless(nodes[0]) && HooklessAll(nodes[1..])
  }

  predicate HooklessCtes(q: Node, i: nat)
    requires q.Query? && i <= |q.ctes|
    decreases q, 0, |q.ctes| - i
  {
    i < |q.ctes| ==> Hookless(q.ctes[i].query) && HooklessCtes(q, i + 1)
  }

  // ---------------------------------------------------------------------
  // The stack
  // ---------------------------------------------------------------------

  datatype CteScope = CteScope(aliases: seq<Ident>, bodies: seq<(nat, nat)>, visible: nat, restore: Option<nat>) {
    predicate Valid() {
      |bodies| == |aliases| && visible <= |aliases| && forall i :: 0 <= i < |bodies| ==> bodies[i].1 <= |aliases|
    }

    function Own(): seq<Binder>
      requires Valid()
    {
      seq(visible, i requires 0 <= i < visible => Binder(aliases[i], bodies[i].0))
    }
  }

  predicate ValidStack(scopes: seq<CteScope>) {
    forall d :: 0 <= d < |scopes| ==> scopes[d].Valid()
  }

  /** What the stack has in view, innermost first. */
  function Visible(scopes: seq<CteScope>): seq<Binder>
    requires ValidStack(scopes)
  {
    if |scopes| == 0 then [] else scopes[|scopes| - 1].Own() + Visible(scopes[..|scopes| - 1])
  }

  /** How many siblings the query at `address` sees, when it is one of them. */
  function BodyVisible(bodies: seq<(nat, nat)>, address: nat): Option<nat> {
    if |bodies| == 0 then None
    else if bodies[0].0 == address then Some(bodies[0].1)
    else BodyVisible(bodies[1..], address)
  }

  /** The stack as the query at `address` finds it. */
  function Narrowed(scopes: seq<CteScope>, address: nat): seq<CteScope> {
    if |scopes| == 0 then scopes
    else
      var top := scopes[|scopes| - 1];
      match BodyVisible(top.bodies, address)
      case None => scopes
      case Some(visible) => scopes[..|scopes| - 1] + [top.(visible := visible)]
  }

  function ScopeOf(q: Node, restore: Option<nat>): CteScope
    requires q.Query? && CtesAreQueries(q)
  {
    CteScope(seq(|q.ctes|, i requires 0 <= i < |q.ctes| => q.ctes[i].alias),
             seq(|q.ctes|, i requires 0 <= i < |q.ctes| => (q.ctes[i].query.address, if q.recursive then |q.ctes|
               else i)),
             |q.ctes|, restore)
  }

  lemma BodyVisibleAt(bodies: seq<(nat, nat)>, address: nat, i: nat)
    requires i < |bodies| && bodies[i].0 == address
    requires forall j :: 0 <= j < i ==> bodies[j].0 != address
    ensures BodyVisible(bodies, address) == Some(bodies[i].1)
  {
    if i > 0 {
      assert forall j :: 0 <= j < i - 1 ==> bodies[1..][j] == bodies[j + 1];
      BodyVisibleAt(bodies[1..], address, i - 1);
    }
  }

  predicate Holds(bodies: seq<(nat, nat)>, address: nat) {
    exists j :: 0 <= j < |bodies| && bodies[j].0 == address
  }

  lemma BodyVisibleNone(bodies: seq<(nat, nat)>, address: nat)
    requires !Holds(bodies, address)
    ensures BodyVisible(bodies, address) == None
  {
  }

  /** The count to put back once the query at `address` has been visited. */
  function Restored(scopes: seq<CteScope>, address: nat): Option<nat> {
    if |scopes| > 0 && BodyVisible(scopes[|scopes| - 1].bodies, address).Some? then Some(scopes[|scopes| - 1].visible)
      else None
  }

  function Entered(scopes: seq<CteScope>, q: Node): seq<CteScope>
    requires q.Query? && CtesAreQueries(q)
  {
    Narrowed(scopes, q.address) + [ScopeOf(q, Restored(scopes, q.address))]
  }

  function Exited(scopes: seq<CteScope>): seq<CteScope> {
    if |scopes| == 0 then scopes
    else
      var rest, restore := scopes[..|scopes| - 1], scopes[|scopes| - 1].restore;
      if restore.Some? && |rest| > 0 then rest[..|rest| - 1] + [rest[|rest| - 1].(visible := restore.value)] else rest
  }

  /** Leaving a query undoes entering it, counts of siblings in view included. */
  lemma ExitUndoesEnter(scopes: seq<CteScope>, q: Node)
    requires q.Query? && CtesAreQueries(q)
    ensures Exited(Entered(scopes, q)) == scopes
  {
    var narrowed := Narrowed(scopes, q.address);
    assert Entered(scopes, q)[..|narrowed|] == narrowed;
    if |scopes| > 0 && BodyVisible(scopes[|scopes| - 1].bodies, q.address).Some? {
      assert narrowed[..|narrowed| - 1] == scopes[..|scopes| - 1];
    }
  }

  /** Entering a query adds its binders to what it finds in view. */
  lemma EnteredSees(scopes: seq<CteScope>, q: Node, restore: Option<nat>)
    requires ValidStack(scopes) && q.Query? && CtesAreQueries(q)
    ensures ScopeOf(q, restore).Valid()
    ensures ValidStack(scopes + [ScopeOf(q, restore)])
    ensures Visible(scopes + [ScopeOf(q, restore)]) == Binders(q) + Visible(scopes)
  {
    var scope := ScopeOf(q, restore);
    var all := scopes + [scope];
    assert all[..|all| - 1] == scopes;
    assert scope.Own() == Binders(q);
  }

  /** A sibling finds in view what the WITH list gives it. */
  lemma SiblingSees(scopes: seq<CteScope>, q: Node, restore: Option<nat>, i: nat)
    requires ValidStack(scopes) && q.Query? && OwnAddresses(q) && i < |q.ctes|
    ensures var entered := scopes + [ScopeOf(q, restore)];
            ValidStack(Narrowed(entered, q.ctes[i].query.address))
            && Visible(Narrowed(entered, q.ctes[i].query.address)) == SiblingEnv(q, i, Visible(scopes))
  {
    EnteredSees(scopes, q, restore);
    var scope := ScopeOf(q, restore);
    var entered := scopes + [scope];
    var address := q.ctes[i].query.address;
    BodyVisibleAt(scope.bodies, address, i);
    var seen := if q.recursive then |q.ctes| else i;
    var narrowed := Narrowed(entered, address);
    assert narrowed == scopes + [scope.(visible := seen)];
    TopSees(scopes, scope.(visible := seen));
    assert scope.(visible := seen).Own() == Binders(q)[..seen];
  }

  lemma TopSees(scopes: seq<CteScope>, top: CteScope)
    requires ValidStack(scopes) && top.Valid()
    ensures ValidStack(scopes + [top]) && Visible(scopes + [top]) == top.Own() + Visible(scopes)
  {
    var all := scopes + [top];
    assert all[..|all| - 1] == scopes;
  }

  /** A query that is no sibling finds what is already in view. */
  lemma OutsiderSees(scopes: seq<CteScope>, address: nat)
    requires |scopes| > 0 ==> !Holds(scopes[|scopes| - 1].bodies, address)
    ensures Narrowed(scopes, address) == scopes
  {
    if |scopes| > 0 {
      BodyVisibleNone(scopes[|scopes| - 1].bodies, address);
    }
  }

  lemma LookupConcat(matches: Matching, a: seq<Binder>, b: seq<Binder>, reference: Ident)
    ensures Lookup(matches, a + b, reference)
         == if Lookup(matches, a, reference).Some? then Lookup(matches, a, reference) else Lookup(matches, b, reference)
  {
    if |a| == 0 {
      assert a + b == b;
    } else {
      assert (a + b)[1..] == a[1..] + b;
      LookupConcat(matches, a[1..], b, reference);
    }
  }

  lemma LookupFirst(matches: Matching, env: seq<Binder>, reference: Ident, i: nat)
    requires i <= |env| && forall j :: 0 <= j < i ==> !matches(env[j].alias, reference)
    ensures Lookup(matches, env, reference)
         == if i == |env| then None
            else if matches(env[i].alias, reference) then Some(env[i].body)
            else Lookup(matches, env[i + 1..], reference)
  {
    if i > 0 {
      assert forall j :: 0 <= j < i - 1 ==> env[1..][j] == env[j + 1];
      LookupFirst(matches, env[1..], reference, i - 1);
      if i < |env| {
        assert env[1..][i..] == env[i + 1..];
      }
    }
  }

  class RelationScopes {
    const matches: Matching
    var scopes: seq<CteScope>
    var targets: seq<nat>

    constructor (matches: Matching)
      ensures this.matches == matches && scopes == [] && targets == []
    {
      this.matches := matches;
      scopes, targets := [], [];
    }

    /** Puts a query's own expressions in view, and hides from it the siblings
        it may not name. */
    method Enter(q: Node)
      requires q.Query? && CtesAreQueries(q)
      modifies this`scopes
      ensures scopes == Entered(old(scopes), q)
    {
      var restore := None;
      if |scopes| > 0 {
        var top := scopes[|scopes| - 1];
        var visible := BodyVisible(top.bodies, q.address);
        if visible.Some? {
          restore := Some(top.visible);
          scopes := scopes[..|scopes| - 1] + [top.(visible := visible.value)];
        }
      }
      scopes := scopes + [ScopeOf(q, restore)];
    }

    /** Takes the innermost query's expressions out of view. */
    method Exit()
      modifies this`scopes
      ensures scopes == Exited(old(scopes))
    {
      if |scopes| > 0 {
        var restore := scopes[|scopes| - 1].restore;
        scopes := scopes[..|scopes| - 1];
        if restore.Some? && |scopes| > 0 {
          scopes := scopes[..|scopes| - 1] + [scopes[|scopes| - 1].(visible := restore.value)];
        }
      }
    }

    /** The leftmost visible alias of one scope that a reference matches. */
    method MatchIn(scope: CteScope, reference: Ident) returns (r: Option<nat>)
      requires scope.Valid()
      ensures r.None? ==> Lookup(matches, scope.Own(), reference) == None
      ensures r.Some? ==>
        && r.value < scope.visible && matches(scope.aliases[r.value], reference)
        && Lookup(matches, scope.Own(), reference) == Some(scope.bodies[r.value].0)
    {
      for index := 0 to scope.visible
        invariant forall j :: 0 <= j < index ==> !matches(scope.aliases[j], reference)
      {
        if matches(scope.aliases[index], reference) {
          LookupFirst(matches, scope.Own(), reference, index);
          return Some(index);
        }
      }
      LookupFirst(matches, scope.Own(), reference, scope.visible);
      return None;
    }

    /** The depth and index of the expression a reference denotes. */
    method Binding(reference: Ident) returns (r: Option<(nat, nat)>)
      requires ValidStack(scopes)
      ensures r.None? ==> Lookup(matches, Visible(scopes), reference) == None
      ensures r.Some? ==> var (depth, index) := r.value;
        && depth < |scopes| && index < scopes[depth].visible
        && matches(scopes[depth].aliases[index], reference)
        && Lookup(matches, Visible(scopes), reference) == Some(scopes[depth].bodies[index].0)
    {
      var depth := |scopes|;
      assert scopes[..depth] == scopes;
      while depth > 0
        invariant depth <= |scopes|
        invariant Lookup(matches, Visible(scopes), reference) == Lookup(matches, Visible(scopes[..depth]), reference)
      {
        depth := depth - 1;
        var scope := scopes[depth];
        assert scopes[..depth + 1][..depth] == scopes[..depth] && scopes[..depth + 1][depth] == scope;
        LookupConcat(matches, scope.Own(), Visible(scopes[..depth]), reference);
        var index := MatchIn(scope, reference);
        if index.Some? {
          return Some((depth, index.value));
        }
      }
      return None;
    }

    /** Notes the tables a statement writes, which no expression can hide. */
    method RecordTargets(written: seq<nat>)
      modifies this`targets
      ensures targets == old(targets) + written
    {
      targets := targets + written;
    }
  }
}
