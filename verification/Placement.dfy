/** Where each created object lives: the main file, the attached one, or the
    connection's own TEMP storage. */
module Placement {
  import opened Wrappers
  import opened Text

  datatype Home = Main | Temp | Attached

  type Homes = map<string, Home>

  /** An emitted statement, as far as homes go. A view's reads are the folded
      names of the relations its query names. */
  datatype Emitted =
    | CreateTable(name: string, temporary: bool)
    | CreateVirtualTable(name: string)
    | CreateView(name: string, temporary: bool, reading: seq<string>)
    | CreateIndex(indexName: Option<string>, table: string)
    | OtherStatement

  /** A statement with whether the unit it was emitted for is about a TEMP table. */
  datatype Placed = Placed(statement: Emitted, temporaryUnit: bool)

  datatype View = View(name: string, reading: seq<string>)

  function Key(name: string): string {
    Lower(name)
  }

  // ---------------------------------------------------------------------
  // Base homes
  // ---------------------------------------------------------------------

  function TableHome(name: string, temporaryUnit: bool, storage: set<string>): Home {
    if temporaryUnit then Temp else if name in storage then Attached else Main
  }

  /** The home a statement gives what it creates, by itself. */
  function OwnHome(p: Placed, storage: set<string>): Option<(string, Home)> {
    match p.statement
    case CreateTable(name, temporary) =>
      Some((Key(name), if temporary then Temp else TableHome(Key(name), p.temporaryUnit, storage)))
    case CreateVirtualTable(name) => Some((Key(name), TableHome(Key(name), p.temporaryUnit, storage)))
    case CreateView(name, temporary, _) => Some((Key(name), if temporary then Temp else Main))
    case CreateIndex(_, _) | OtherStatement => None
  }

  /** Tables and views: the last creation of a name decides. */
  function RelationHomes(statements: seq<Placed>, storage: set<string>): Homes {
    if |statements| == 0 then map[]
    else
      var before := RelationHomes(statements[..|statements| - 1], storage);
      match OwnHome(statements[|statements| - 1], storage)
      case None => before
      case Some((name, home)) => before[name := home]
  }

  function ViewsOf(statements: seq<Placed>): seq<View> {
    if |statements| == 0 then []
    else
      var before := ViewsOf(statements[..|statements| - 1]);
      match statements[|statements| - 1].statement
      case CreateView(name, _, reading) => before + [View(Key(name), reading)]
      case CreateTable(_, _) | CreateVirtualTable(_) | CreateIndex(_, _) | OtherStatement => before
  }

  /** An index lives where its table does. */
  function BaseHomes(statements: seq<Placed>, storage: set<string>, indexed: nat): Homes
    requires indexed <= |statements|
  {
    if indexed == 0 then RelationHomes(statements, storage)
    else
      var before := BaseHomes(statements, storage, indexed - 1);
      match statements[indexed - 1].statement
      case CreateIndex(Some(name), table) =>
        before[Key(name) := if Key(table) in before then before[Key(table)] else Main]
      case CreateIndex(None, _) | CreateTable(_, _) | CreateVirtualTable(_) | CreateView(_, _, _) | OtherStatement =>
        before
  }

  lemma {:induction false} ViewsHaveHomes(statements: seq<Placed>, storage: set<string>)
    ensures forall v :: v in ViewsOf(statements) ==> v.name in RelationHomes(statements, storage)
  {
    if |statements| > 0 {
      ViewsHaveHomes(statements[..|statements| - 1], storage);
    }
  }

  lemma {:induction false} IndexesKeepNames(statements: seq<Placed>, storage: set<string>, indexed: nat)
    requires indexed <= |statements|
    ensures RelationHomes(statements, storage).Keys <= BaseHomes(statements, storage, indexed).Keys
  {
    if indexed > 0 {
      IndexesKeepNames(statements, storage, indexed - 1);
    }
  }

  // ---------------------------------------------------------------------
  // What the base homes are
  // ---------------------------------------------------------------------

  /** A statement that creates a relation under a name, in lower case. */
  predicate Creates(p: Placed, name: string) {
    !p.statement.CreateIndex? && !p.statement.OtherStatement? && Lower(p.statement.name) == name
  }

  predicate LastToCreate(statements: seq<Placed>, j: nat, name: string) {
    j < |statements| && Creates(statements[j], name)
      && forall k :: j < k < |statements| ==> !Creates(statements[k], name)
  }

  /** TEMP is written on a table or view, or, for a table of either kind, the
      unit is about a TEMP table. */
  predicate MadeTemp(p: Placed) {
    || (p.statement.CreateTable? && p.statement.temporary)
    || (p.statement.CreateView? && p.statement.temporary)
    || (!p.statement.CreateView? && p.temporaryUnit)
  }

  /** A name has a home exactly when some statement creates it, and the last one
      decides: TEMP if it is made so, else the attached file for a table stored
      there, else the main file. */
  lemma {:induction false} LastCreationDecides(statements: seq<Placed>, storage: set<string>, name: string)
    ensures name in RelationHomes(statements, storage) <==>
        exists j :: 0 <= j < |statements| && Creates(statements[j], name)
    ensures forall j: nat :: LastToCreate(statements, j, name) ==>
      && name in RelationHomes(statements, storage)
      && var home := RelationHomes(statements, storage)[name];
      && (home == Temp <==> MadeTemp(statements[j]))
      && (home == Attached <==> !MadeTemp(statements[j]) && !statements[j].statement.CreateView? && name in storage)
  {
    hide Creates, OwnHome, MadeTemp;
    if |statements| > 0 {
      var last := |statements| - 1;
      OneCreation(statements[last], storage, name);
      LastCreationDecides(statements[..last], storage, name);
      assert forall k :: 0 <= k < last ==> statements[..last][k] == statements[k];
      if Creates(statements[last], name) {
        assert forall j: nat :: LastToCreate(statements, j, name) ==> j == last;
      } else {
        NotTheLast(statements, name);
      }
    }
  }

  lemma OneCreation(p: Placed, storage: set<string>, name: string)
    ensures Creates(p, name) <==> OwnHome(p, storage).Some? && OwnHome(p, storage).value.0 == name
    ensures Creates(p, name) ==>
      var home := OwnHome(p, storage).value.1;
      && (home == Temp <==> MadeTemp(p))
      && (home == Attached <==> !MadeTemp(p) && !p.statement.CreateView? && name in storage)
  {
  }

  lemma NotTheLast(statements: seq<Placed>, name: string)
    requires |statements| > 0 && !Creates(statements[|statements| - 1], name)
    ensures forall j: nat :: LastToCreate(statements, j, name) ==> LastToCreate(statements[..|statements| - 1], j, name)
    ensures (exists j :: 0 <= j < |statements| && Creates(statements[j], name))
       <==> var rest := statements[..|statements| - 1]; exists j :: 0 <= j < |rest| && Creates(rest[j], name)
  {
    hide Creates;
    var rest := statements[..|statements| - 1];
    assert forall k :: 0 <= k < |rest| ==> rest[k] == statements[k];
    if j :| 0 <= j < |statements| && Creates(statements[j], name) {
      assert Creates(rest[j], name);
    }
  }

  predicate NamesIndex(statement: Emitted) {
    statement.CreateIndex? && statement.indexName.Some?
  }

  /** An index has the home of its table, and the main file when that has none. */
  lemma {:induction false} IndexFollowsTable(statements: seq<Placed>, storage: set<string>, indexed: nat, j: nat)
    requires j < indexed <= |statements| && NamesIndex(statements[j].statement)
    requires forall k :: 0 <= k < indexed && NamesIndex(statements[k].statement) ==>
               Lower(statements[k].statement.indexName.value) !in RelationHomes(statements, storage)
    requires forall k :: j < k < indexed && NamesIndex(statements[k].statement) ==>
               Lower(statements[k].statement.indexName.value) != Lower(statements[j].statement.indexName.value)
    requires forall k :: 0 <= k < j && NamesIndex(statements[k].statement) ==>
               Lower(statements[k].statement.indexName.value) != Lower(statements[j].statement.table)
    ensures var homes, table := BaseHomes(statements, storage, indexed), Lower(statements[j].statement.table);
      && Lower(statements[j].statement.indexName.value) in homes
      && homes[Lower(statements[j].statement.indexName.value)]
         == if table in RelationHomes(statements, storage) then RelationHomes(statements, storage)[table] else Main
  {
    RelationsKeepHomes(statements, storage, indexed - 1);
    if j < indexed - 1 {
      IndexFollowsTable(statements, storage, indexed - 1, j);
    } else if Lower(statements[j].statement.table) !in RelationHomes(statements, storage) {
      OnlyThoseHaveHomes(statements, storage, j, Lower(statements[j].statement.table));
    }
  }

  lemma {:induction false} OnlyThoseHaveHomes(statements: seq<Placed>, storage: set<string>, indexed: nat, name: string)
    requires indexed <= |statements| && name !in RelationHomes(statements, storage)
    requires forall k :: 0 <= k < indexed && NamesIndex(statements[k].statement) ==>
               Lower(statements[k].statement.indexName.value) != name
    ensures name !in BaseHomes(statements, storage, indexed)
  {
    if indexed > 0 {
      OnlyThoseHaveHomes(statements, storage, indexed - 1, name);
    }
  }

  lemma {:induction false} RelationsKeepHomes(statements: seq<Placed>, storage: set<string>, indexed: nat)
    requires indexed <= |statements|
    requires forall k :: 0 <= k < indexed && NamesIndex(statements[k].statement) ==>
               Lower(statements[k].statement.indexName.value) !in RelationHomes(statements, storage)
    ensures forall name :: name in RelationHomes(statements, storage) ==>
      && name in BaseHomes(statements, storage, indexed)
      && BaseHomes(statements, storage, indexed)[name] == RelationHomes(statements, storage)[name]
  {
    if indexed > 0 {
      RelationsKeepHomes(statements, storage, indexed - 1);
    }
  }

  // ---------------------------------------------------------------------
  // Views over what lives elsewhere
  // ---------------------------------------------------------------------

  function HomeOutsideMain(homes: Homes, name: string): bool {
    name in homes && homes[name] != Main
  }

  /** Some relation read has a home other than the main file. */
  predicate ReadsPlaced(reading: seq<string>, homes: Homes) {
    exists i :: 0 <= i < |reading| && HomeOutsideMain(homes, reading[i])
  }

  predicate Reading(views: seq<View>, name: string, read: string) {
    exists v :: v in views && v.name == name && read in v.reading
  }

  /** A view by a name reads a name exactly when some statement creates a view by
      the one, in lower case, over the other. */
  lemma {:induction false} ReadingIsCreated(statements: seq<Placed>, name: string, read: string)
    ensures Reading(ViewsOf(statements), name, read) <==>
      exists j :: 0 <= j < |statements| && CreatesReading(statements[j].statement, name, read)
  {
    if |statements| > 0 {
      var rest := statements[..|statements| - 1];
      ReadingIsCreated(rest, name, read);
      assert forall j :: 0 <= j < |rest| ==> rest[j] == statements[j];
      var views, last := ViewsOf(statements), statements[|statements| - 1].statement;
      assert forall v :: v in ViewsOf(rest) ==> v in views;
      if last.CreateView? {
        assert views[|views| - 1] == View(Lower(last.name), last.reading);
      }
    }
  }

  predicate CreatesReading(statement: Emitted, name: string, read: string) {
    statement.CreateView? && Lower(statement.name) == name && read in statement.reading
  }

  /** Each name on the path is a view that reads the next. */
  predicate IsChain(views: seq<View>, path: seq<string>) {
    forall i :: 0 <= i < |path| - 1 ==> Reading(views, path[i], path[i + 1])
  }

  /** Such a path, to a name that lives in TEMP or in the attached file. */
  ghost predicate ChainOutside(views: seq<View>, base: Homes, name: string, path: seq<string>) {
    && |path| >= 2 && path[0] == name && IsChain(views, path) && path[|path| - 1] in base
    && (base[path[|path| - 1]] == Temp || base[path[|path| - 1]] == Attached)
  }

  /** Some chain of view reads leads from `name` to a relation whose own home
      is not the main file. */
  ghost predicate ReachesOutside(views: seq<View>, base: Homes, name: string) {
    exists path :: ChainOutside(views, base, name, path)
  }

  /** The homes a script's objects get: a view's is TEMP when its own is or it
      reaches outside the main file, every other name keeps its own. */
  ghost predicate AreClosed(views: seq<View>, base: Homes, homes: Homes) {
    homes.Keys == base.Keys
    && forall n :: n in base ==> homes[n] == if base[n] == Temp || ReachesOutside(views, base, n) then Temp else base[n]
  }

  lemma DirectReach(views: seq<View>, base: Homes, name: string, read: string)
    requires Reading(views, name, read) && HomeOutsideMain(base, read)
    ensures ReachesOutside(views, base, name)
  {
    assert ChainOutside(views, base, name, [name, read]);
  }

  lemma ReachThrough(views: seq<View>, base: Homes, name: string, read: string)
    requires Reading(views, name, read) && ReachesOutside(views, base, read)
    ensures ReachesOutside(views, base, name)
  {
    var path :| ChainOutside(views, base, read, path);
    var longer := [name] + path;
    forall i | 0 <= i < |longer| - 1 ensures Reading(views, longer[i], longer[i + 1]) {
      if i > 0 {
        assert Reading(views, path[i - 1], path[i]);
      }
    }
    assert ChainOutside(views, base, name, longer);
  }

  /** Homes only ever move to TEMP, and only for views that reach outside. */
  ghost predicate AreSound(views: seq<View>, base: Homes, homes: Homes) {
    homes.Keys == base.Keys
    && forall n :: n in base ==> homes[n] == base[n] || (homes[n] == Temp && ReachesOutside(views, base, n))
  }

  /** A view reading what is placed elsewhere reaches outside. */
  lemma PlacedReadReaches(views: seq<View>, base: Homes, homes: Homes, view: View)
    requires AreSound(views, base, homes) && view in views && ReadsPlaced(view.reading, homes)
    ensures ReachesOutside(views, base, view.name)
  {
    var i :| 0 <= i < |view.reading| && HomeOutsideMain(homes, view.reading[i]);
    var read := view.reading[i];
    assert Reading(views, view.name, read);
    if homes[read] == base[read] {
      DirectReach(views, base, view.name, read);
    } else {
      ReachThrough(views, base, view.name, read);
    }
  }

  /** Once no view is left to move, every view that reaches outside has moved. */
  lemma {:induction false} ChainIsPlaced(views: seq<View>, base: Homes, homes: Homes, name: string, path: seq<string>)
    requires AreSound(views, base, homes) && ChainOutside(views, base, name, path)
    requires forall v :: v in views ==> v.name in homes && (homes[v.name] == Temp || !ReadsPlaced(v.reading, homes))
    ensures name in homes && homes[name] == Temp
    decreases |path|
  {
    var read := path[1];
    assert Reading(views, path[0], path[1]);
    if |path| > 2 {
      forall i | 0 <= i < |path[1..]| - 1 ensures Reading(views, path[1..][i], path[1..][i + 1]) {
        assert Reading(views, path[i + 1], path[i + 2]);
      }
      ChainIsPlaced(views, base, homes, read, path[1..]);
    }
    assert HomeOutsideMain(homes, read);
    var v :| v in views && v.name == name && read in v.reading;
    var i :| 0 <= i < |v.reading| && v.reading[i] == read;
    assert ReadsPlaced(v.reading, homes);
  }

  /** The homes of all that is created, a view moving to `temp` with what it reads. */
  method HomesOf(statements: seq<Placed>, storage: set<string>) returns (homes: Homes)
    ensures AreClosed(ViewsOf(statements), BaseHomes(statements, storage, |statements|), homes)
    ensures forall v :: v in ViewsOf(statements) ==>
        v.name in homes && (homes[v.name] == Temp || !ReadsPlaced(v.reading, homes))
  {
    hide ReachesOutside, ReadsPlaced;
    homes := map[];
    var views := [];
    for i := 0 to |statements|
      invariant homes == RelationHomes(statements[..i], storage) && views == ViewsOf(statements[..i])
    {
      assert statements[..i + 1][..i] == statements[..i];
      match statements[i].statement {
        case CreateTable(name, temporary) =>
          homes := homes[Key(name) := if temporary then Temp
            else TableHome(Key(name), statements[i].temporaryUnit, storage)];
        case CreateVirtualTable(name) =>
          homes := homes[Key(name) := TableHome(Key(name), statements[i].temporaryUnit, storage)];
        case CreateView(name, temporary, reading) =>
          homes := homes[Key(name) := if temporary then Temp else Main];
          views := views + [View(Key(name), reading)];
        case CreateIndex(_, _) | OtherStatement =>
      }
    }
    assert statements[..|statements|] == statements;
    for i := 0 to |statements|
      invariant homes == BaseHomes(statements, storage, i)
    {
      match statements[i].statement {
        case CreateIndex(Some(name), table) =>
          homes := homes[Key(name) := if Key(table) in homes then homes[Key(table)] else Main];
        case CreateIndex(None, _) | CreateTable(_, _) | CreateVirtualTable(_) | CreateView(_, _, _) | OtherStatement =>
      }
    }
    ViewsHaveHomes(statements, storage);
    IndexesKeepNames(statements, storage, |statements|);
    homes := CloseViews(views, homes);
  }

  /** Moves views to TEMP until none that stays reads what lives elsewhere. */
  method CloseViews(views: seq<View>, base: Homes) returns (homes: Homes)
    requires forall v :: v in views ==> v.name in base
    ensures AreClosed(views, base, homes)
    ensures forall v :: v in views ==> v.name in homes && (homes[v.name] == Temp || !ReadsPlaced(v.reading, homes))
  {
    hide ReachesOutside, ReadsPlaced;
    homes := base;
    var grew := true;
    while grew
      invariant AreSound(views, base, homes)
      invariant !grew ==> forall v :: v in views ==> homes[v.name] == Temp || !ReadsPlaced(v.reading, homes)
      decreases |Staying(homes)| + if grew then 1 else 0
    {
      grew := false;
      ghost var start := homes;
      for i := 0 to |views|
        invariant AreSound(views, base, homes)
        invariant Staying(homes) <= Staying(start) && (grew ==> |Staying(homes)| < |Staying(start)|)
        invariant !grew ==> homes == start
        invariant !grew ==> forall j :: 0 <= j < i ==>
            homes[views[j].name] == Temp || !ReadsPlaced(views[j].reading, homes)
      {
        if homes[views[i].name] != Temp && ReadsPlaced(views[i].reading, homes) {
          PlacedReadReaches(views, base, homes, views[i]);
          OneFewerStays(homes, views[i].name);
          homes := homes[views[i].name := Temp];
          grew := true;
        }
      }
    }
    forall n | n in base && ReachesOutside(views, base, n) ensures homes[n] == Temp {
      ReachIsPlaced(views, base, homes, n);
    }
  }

  lemma ReachIsPlaced(views: seq<View>, base: Homes, homes: Homes, name: string)
    requires AreSound(views, base, homes) && ReachesOutside(views, base, name)
    requires forall v :: v in views ==> v.name in homes && (homes[v.name] == Temp || !ReadsPlaced(v.reading, homes))
    ensures name in homes && homes[name] == Temp
  {
    var path :| ChainOutside(views, base, name, path);
    ChainIsPlaced(views, base, homes, name, path);
  }

  ghost function Staying(homes: Homes): set<string> {
    set n | n in homes && homes[n] != Temp
  }

  lemma OneFewerStays(homes: Homes, name: string)
    requires name in homes && homes[name] != Temp
    ensures Staying(homes[name := Temp]) == Staying(homes) - {name} && |Staying(homes[name := Temp])| < |Staying(homes)|
  {
    assert Staying(homes[name := Temp]) == Staying(homes) - {name};
  }
}
