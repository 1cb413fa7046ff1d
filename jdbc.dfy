/** The part of JDBC the keywords rely on, abstracted to values.

    A connection holds tables (column names plus rows of cells, a cell being
    `None` for SQL NULL), whether the engine accepts `count(*)`, the
    primary-key metadata, the transaction isolation code, and an engine that
    answers free-form SQL text. Free-form statements are sent through
    `Connection.Execute`, which appends to an append-only trace together with
    `setAutoCommit`, `commit` and `rollback`; the engine's answer may depend
    on everything in the trace so far, which is how transactional effects
    (sections 10.1 and 10.2 of the JDBC 4 specification) stay observable
    without modelling SQL. */
module Jdbc {
  import opened Common

  type Cell = Option<string>
  type Row = seq<Cell>

  datatype TableData = TableData(columns: seq<string>, rows: seq<Row>)
  {
    predicate Shaped() { forall r :: r in rows ==> |r| == |columns| }
  }

  /** A table or a result set: every row is as wide as the header. */
  type Table = t: TableData | t.Shaped() witness TableData([], [])

  /** What `Statement.execute` yields for one SQL text. */
  datatype StatementResult = Failed | UpdateCount | ResultRows(result: Table)

  datatype Event = SetAutoCommit(on: bool) | Exec(sql: string) | Commit | Rollback

  datatype Database = Database(
    tables: map<string, Table>,
    countSupported: bool,
    primaryKeys: map<string, seq<string>>,
    isolation: int,
    wellFormed: string -> bool,
    holds: (string, seq<string>, Row) -> bool,
    engine: (seq<Event>, string) -> StatementResult)

  /** The rows of `rows` satisfying `where`, in the engine's order: every
      satisfying row is kept as often as it occurs, and no other row. */
  function Matching(rows: seq<Row>, header: seq<string>, where: string,
                    holds: (string, seq<string>, Row) -> bool): (r: seq<Row>)
    ensures |r| <= |rows|
    ensures forall x :: x in r ==> x in rows && holds(where, header, x)
    ensures forall x :: multiset(r)[x] == if holds(where, header, x) then multiset(rows)[x] else 0
  {
    if rows == [] then []
    else
      assert rows == [rows[0]] + rows[1..];
      (if holds(where, header, rows[0]) then [rows[0]] else []) + Matching(rows[1..], header, where, holds)
  }

  /** `" where " + w` when a where-clause is given. */
  function WhereSuffix(where: Option<string>): string
  {
    match where
    case None => ""
    case Some(w) => " where " + w
  }

  /** The result set of `select ... from table [where w]`: an unknown table
      or a where-clause the engine rejects is an SQLException. */
  function Select(db: Database, table: string, where: Option<string>): (r: Result<Table>)
    ensures r.Ok? <==> table in db.tables && (where.Some? ==> db.wellFormed(where.value))
    ensures r.Err? ==> r.error == InfraError(SqlError)
    ensures r.Ok? ==> r.value.columns == db.tables[table].columns
    ensures r.Ok? && where.None? ==> r.value == db.tables[table]
  {
    if table !in db.tables then Err(InfraError(SqlError))
    else
      var t := db.tables[table];
      match where
      case None => Ok(t)
      case Some(w) =>
        if !db.wellFormed(w) then Err(InfraError(SqlError))
        else
          var s: Table := TableData(t.columns, Matching(t.rows, t.columns, w, db.holds));
          Ok(s)
  }

  /** JDBC getters find a column by its label without regard to case. */
  predicate SameLabel(a: string, b: string) { ToLower(a) == ToLower(b) }

  /** Some column of `header` is labelled `name`, in any case. */
  predicate HasLabel(header: seq<string>, name: string)
  {
    exists i :: 0 <= i < |header| && SameLabel(header[i], name)
  }

  function Labels(header: seq<string>): (r: seq<string>)
    ensures |r| == |header|
    ensures forall i :: 0 <= i < |header| ==> r[i] == ToLower(header[i])
  {
    seq(|header|, i requires 0 <= i < |header| => ToLower(header[i]))
  }

  /** Position of the first column labelled `name`, or `|header|`. */
  function ColumnIndex(header: seq<string>, name: string): (i: nat)
    ensures i <= |header|
    ensures i < |header| ==> SameLabel(header[i], name)
    ensures forall j :: 0 <= j < i ==> !SameLabel(header[j], name)
  {
    IndexOf(Labels(header), ToLower(name))
  }

  /** `ResultSet.getString(label)` on a row: the first column whose label
      equals `name` up to case is read; no such column is an SQLException;
      SQL NULL reads as Java null (`None`). */
  function GetString(t: Table, row: Row, name: string): (r: Result<Cell>)
    requires row in t.rows
    ensures r.Ok? <==> HasLabel(t.columns, name)
    ensures r.Ok? ==> exists i :: 0 <= i < |t.columns| && SameLabel(t.columns[i], name) && r.value == row[i]
                                  && forall j :: 0 <= j < i ==> !SameLabel(t.columns[j], name)
    ensures r.Err? ==> r.error == InfraError(SqlError)
  {
    var i := ColumnIndex(t.columns, name);
    if i == |t.columns| then Err(InfraError(SqlError)) else Ok(row[i])
  }

  /** `getString` reads the first column carrying the label. */
  lemma LabelFound(t: Table, row: Row, k: nat, name: string)
    requires row in t.rows && k < |t.columns| && SameLabel(t.columns[k], name)
    requires forall j :: 0 <= j < k ==> !SameLabel(t.columns[j], name)
    ensures GetString(t, row, name) == Ok(row[k])
  {
  }

  /** Two labels that differ only in case read the same cell. */
  lemma LabelsIgnoreCase(t: Table, row: Row, a: string, b: string)
    requires row in t.rows && SameLabel(a, b)
    ensures GetString(t, row, a) == GetString(t, row, b)
  {
  }

  /** An open JDBC connection. The data it answers with is fixed; what
      changes is the auto-commit flag and the trace of what was sent. */
  class Connection {
    const db: Database
    var autoCommit: bool
    var trace: seq<Event>

    /** A fresh connection starts in auto-commit mode (section 10.1 of the
        JDBC 4 specification). */
    constructor (db: Database)
      ensures this.db == db && autoCommit && trace == []
    {
      this.db := db;
      autoCommit := true;
      trace := [];
    }

    method SetAutoCommit(on: bool)
      modifies this
      ensures autoCommit == on
      ensures trace == old(trace) + [Event.SetAutoCommit(on)]
    {
      autoCommit := on;
      trace := trace + [Event.SetAutoCommit(on)];
    }

    method Commit()
      modifies this`trace
      ensures trace == old(trace) + [Event.Commit]
    {
      trace := trace + [Event.Commit];
    }

    method Rollback()
      modifies this`trace
      ensures trace == old(trace) + [Event.Rollback]
    {
      trace := trace + [Event.Rollback];
    }

    /** `Statement.execute(sql)`: the engine answers in the light of
        everything sent before. */
    method Execute(sql: string) returns (r: StatementResult)
      modifies this`trace
      ensures r == db.engine(old(trace), sql)
      ensures trace == old(trace) + [Exec(sql)]
    {
      r := db.engine(trace, sql);
      trace := trace + [Exec(sql)];
    }
  }
}
