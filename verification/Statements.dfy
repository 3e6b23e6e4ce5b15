/** Emitted SQLite statements, as far as the connection history reads them. */
module Statements {
  import opened Wrappers
  import opened Text

  /** The identifiers of a possibly qualified name, innermost last. */
  type ObjectName = seq<string>

  /** A name taken apart: the qualifier before its last part, and that part
      in lower case. */
  function Split(name: ObjectName): Option<(Option<string>, string)> {
    if |name| == 0 then None
    else Some((if |name| == 1 then None else Some(name[|name| - 2]), Lower(name[|name| - 1])))
  }

  function EqIgnoreCase(a: string, b: string): bool {
    Lower(a) == Lower(b)
  }

  /** Whether a qualifier other than the connection's own `temp` is written. */
  predicate NamesOtherSchema(schema: Option<string>) {
    schema.Some? && !EqIgnoreCase(schema.value, "temp")
  }

  /** A relation created so is TEMP: by the keyword, or by its qualifier. */
  predicate IsTemporary(flagged: bool, name: ObjectName) {
    flagged || match Split(name)
               case Some((Some(schema), _)) => EqIgnoreCase(schema, "temp")
               case _ => false
  }

  /** The row events a write raises or a trigger covers. */
  datatype Events = Events(insert: bool, update: bool, delete: bool) {
    predicate Overlaps(other: Events) {
      (insert && other.insert) || (update && other.update) || (delete && other.delete)
    }
  }

  const INSERT := Events(true, false, false)
  const UPDATE := Events(false, true, false)
  const DELETE := Events(false, false, true)
  const UPSERT := Events(true, true, false)

  /** A statement that may write rows. A missing target is one this analysis
      cannot name. */
  datatype RowKind =
    | Insert(table: Option<ObjectName>, doUpdate: bool)
    | Update(table: Option<ObjectName>)
    | Delete(table: Option<ObjectName>)
    | Merge
    | Query(body: Option<RowKind>)

  /** A row statement and every relation name it mentions, its target's among
      them, folded. */
  datatype RowStatement = RowStatement(kind: RowKind, names: seq<string>)

  datatype RowWrite = Table(name: ObjectName, events: Events) | Untracked

  /** The rows a statement writes, if it writes any. */
  function RowWriteOf(kind: RowKind): Option<RowWrite> {
    match kind
    case Insert(Some(name), doUpdate) => Some(Table(name, if doUpdate then UPSERT else INSERT))
    case Update(Some(name)) => Some(Table(name, UPDATE))
    case Delete(Some(name)) => Some(Table(name, DELETE))
    case Insert(None, _) => Some(Untracked)
    case Update(None) => Some(Untracked)
    case Delete(None) => Some(Untracked)
    case Merge => Some(Untracked)
    case Query(Some(body)) => RowWriteOf(body)
    case Query(None) => None
  }

  /** The names a statement mentions include the one it writes. */
  predicate MentionsTarget(statement: RowStatement) {
    match RowWriteOf(statement.kind)
    case Some(Table(name, _)) =>
      (match Split(name)
       case Some((_, key)) => key in statement.names
       case None => true)
    case _ => true
  }

  datatype DropKind = DropTable | DropView | DropIndex | DropOther

  datatype Statement =
    | CreateTable(name: ObjectName, temporary: bool, ifNotExists: bool, query: Option<seq<string>>)
    | CreateVirtualTable(name: ObjectName, ifNotExists: bool)
    | CreateView(name: ObjectName, temporary: bool, orReplace: bool, bases: seq<string>)
    | CreateTrigger(name: ObjectName, temporary: bool, orReplace: bool, table: ObjectName, events: Events,
      body: seq<RowStatement>)
    | CreateIndex(indexName: Option<ObjectName>, table: ObjectName)
    | Drop(kind: DropKind, names: seq<ObjectName>)
    | DropTrigger(name: ObjectName)
    | AlterTable(name: ObjectName, renames: seq<Option<ObjectName>>)
    | Rows(rows: RowStatement)
    | OtherStatement

  /** Every row statement mentions what it writes. */
  predicate WellFormed(statement: Statement) {
    match statement
    case Rows(rows) => MentionsTarget(rows)
    case CreateTrigger(_, _, _, _, _, body) => forall b :: 0 <= b < |body| ==> MentionsTarget(body[b])
    case _ => true
  }
}
