/** Checking the content of one row, reading a single value, and checking
    that no row matches a where-clause.

    Column names are given comma-separated and expected values
    pipe-separated, both split with `String.split`. The expected value
    `(NULL)` stands for the empty string. Columns are compared in order
    and the first difference ends the check. */
module RowContent {
  import opened Common
  import opened Jdbc
  import RowCount

  const NullSentinel: string := "(NULL)"

  function Columns(columnNames: string): seq<string> { JavaSplit(columnNames, ',') }

  function Values(expectedValues: string): seq<string> { JavaSplit(expectedValues, '|') }

  /** `select <columnNames> from <table> [where w]`: the engine rejects the
      statement when the table is unknown, the where-clause is rejected,
      or a listed name is not a column of the table. SQL reads each name
      of the list without the blanks around it and without regard to
      case. */
  function SelectColumns(db: Database, columnNames: string, table: string, where: Option<string>): (r: Result<Table>)
    ensures r.Ok? <==> Select(db, table, where).Ok? && ColumnsKnown(db.tables[table].columns, columnNames)
    ensures r.Ok? ==> r == Select(db, table, where)
    ensures r.Err? ==> r.error == InfraError(SqlError)
  {
    var sel := Select(db, table, where);
    if sel.Err? then sel
    else if ColumnsKnown(sel.value.columns, columnNames) then sel
    else Err(InfraError(SqlError))
  }

  /** Every comma-separated name, trimmed, labels a column of the table. */
  predicate ColumnsKnown(header: seq<string>, columnNames: string)
  {
    forall f :: f in Fields(columnNames, ',') ==> HasLabel(header, Trim(f))
  }

  /** The value a cell is compared with: the sentinel reads as "". */
  function ExpectedValue(value: string): string
  {
    if value == NullSentinel then "" else value
  }

  /** One column of the comparison: reading the cell (an unknown label
      throws), fetching the expected value (too few values throw), then
      `fieldValue.equals(expected)`, which throws on an SQL NULL. */
  function CellVerdict(cell: Result<Cell>, values: seq<string>, i: nat): Verdict
  {
    match cell
    case Err(e) => e
    case Ok(c) =>
      if i >= |values| then InfraError(IndexOutOfBounds)
      else
        var expected := ExpectedValue(values[i]);
        match c
        case None => InfraError(NullPointer)
        case Some(found) =>
          if found == expected then Pass
          else AssertFail(MismatchMessage(found, expected))
  }

  /** The failure text of a column that holds another value. */
  function MismatchMessage(found: string, expected: string): string
  {
    "Value found: '" + found + "'. Expected: '" + expected + "'"
  }

  /** The verdict of every named column of `row`, in order. */
  function CellVerdicts(t: Table, row: Row, columns: seq<string>, values: seq<string>): (r: seq<Verdict>)
    requires row in t.rows
    ensures |r| == |columns|
  {
    seq(|columns|, i requires 0 <= i < |columns| => CellVerdict(GetString(t, row, columns[i]), values, i))
  }

  /** The first verdict from `k` on that is not `Pass`, or `Pass`. */
  function FirstFailure(vs: seq<Verdict>, k: nat): Verdict
    requires k <= |vs|
    decreases |vs| - k
  {
    if k == |vs| then Pass
    else if vs[k] != Pass then vs[k]
    else FirstFailure(vs, k + 1)
  }

  /** The verdict of comparing the columns of `row`: the first cell that
      does not pass decides. */
  function RowVerdict(t: Table, row: Row, columns: seq<string>, values: seq<string>): Verdict
    requires row in t.rows
  {
    FirstFailure(CellVerdicts(t, row, columns, values), 0)
  }

  /** Column `i` holds exactly the expected value. */
  predicate CellMatches(t: Table, row: Row, columns: seq<string>, values: seq<string>, i: nat)
    requires row in t.rows && i < |columns|
  {
    i < |values| && GetString(t, row, columns[i]) == Ok(Some(ExpectedValue(values[i])))
  }

  /** Every named column of `row` holds its expected value. */
  predicate RowMatches(t: Table, row: Row, columns: seq<string>, values: seq<string>)
    requires row in t.rows
  {
    forall i :: 0 <= i < |columns| ==> CellMatches(t, row, columns, values, i)
  }

  /** No verdict from `k` on fails exactly when every one of them is `Pass`. */
  lemma {:induction false} FirstFailurePassIff(vs: seq<Verdict>, k: nat)
    requires k <= |vs|
    ensures FirstFailure(vs, k) == Pass <==> forall i :: k <= i < |vs| ==> vs[i] == Pass
    decreases |vs| - k
  {
    if k < |vs| {
      FirstFailurePassIff(vs, k + 1);
    }
  }

  /** A failure is the verdict of the first entry that does not pass. */
  lemma {:induction false} FirstFailureIsFirst(vs: seq<Verdict>, k: nat) returns (i: nat)
    requires k <= |vs| && FirstFailure(vs, k) != Pass
    ensures k <= i < |vs| && FirstFailure(vs, k) == vs[i] && vs[i] != Pass
    ensures forall j :: k <= j < i ==> vs[j] == Pass
    decreases |vs| - k
  {
    if vs[k] != Pass {
      return k;
    }
    i := FirstFailureIsFirst(vs, k + 1);
  }

  /** A row passes exactly when every named column holds its expected value. */
  lemma RowVerdictPassIff(t: Table, row: Row, columns: seq<string>, values: seq<string>)
    requires row in t.rows
    ensures RowVerdict(t, row, columns, values) == Pass <==> RowMatches(t, row, columns, values)
  {
    var vs := CellVerdicts(t, row, columns, values);
    FirstFailurePassIff(vs, 0);
    forall i | 0 <= i < |columns|
      ensures vs[i] == Pass <==> CellMatches(t, row, columns, values, i)
    {
      CellPassIff(t, row, columns, values, i);
    }
  }

  /** One column passes exactly when the cell holds the expected value. */
  lemma CellPassIff(t: Table, row: Row, columns: seq<string>, values: seq<string>, i: nat)
    requires row in t.rows && i < |columns|
    ensures CellVerdict(GetString(t, row, columns[i]), values, i) == Pass <==> CellMatches(t, row, columns, values, i)
  {
  }

  /** A failing row is reported by its first column that does not pass. */
  lemma FirstDifferenceReported(t: Table, row: Row, columns: seq<string>, values: seq<string>)
    requires row in t.rows && RowVerdict(t, row, columns, values) != Pass
    ensures exists i :: 0 <= i < |columns|
              && RowVerdict(t, row, columns, values) == CellVerdict(GetString(t, row, columns[i]), values, i)
              && forall j :: 0 <= j < i ==> CellVerdict(GetString(t, row, columns[j]), values, j) == Pass
  {
    var vs := CellVerdicts(t, row, columns, values);
    var i := FirstFailureIsFirst(vs, 0);
    assert forall j :: 0 <= j < i ==> vs[j] == CellVerdict(GetString(t, row, columns[j]), values, j);
  }

  // An example table T(A, B) holding the row (X, Y), checked with the
  // column list "a, B": SQL accepts the list, `getString("a")` reads A, and
  // the untrimmed label " B" names no column.

  lemma {:induction false} ExampleColumns()
    ensures Columns("a, B") == ["a", " B"]
  {
    var s := "a, B";
    assert s[1..] == ", B" && IndexOf(s[1..], ',') == 0;
    assert IndexOf(s, ',') == 1 && s[..1] == "a" && s[2..] == " B";
    assert " B"[1..] == "B" && "B"[1..] == "";
    assert IndexOf("B", ',') == 1 + IndexOf("", ',');
    assert IndexOf(" B", ',') == 2;
    assert Fields(" B", ',') == [" B"];
    assert DropTrailingEmpty(["a", " B"]) == ["a", " B"];
  }

  lemma {:induction false} ExampleValues(v: string, s: string)
    requires |v| == 1 && v[0] != '|' && s == v + "|Y"
    ensures Values(s) == [v, "Y"]
  {
    assert s[1..] == "|Y" && IndexOf(s[1..], '|') == 0;
    assert IndexOf(s, '|') == 1 && s[..1] == v && s[2..] == "Y";
    assert "Y"[1..] == "" && IndexOf("Y", '|') == 1 + IndexOf("", '|');
    assert Fields("Y", '|') == ["Y"];
    assert '|' in s;
  }

  lemma ExampleLabels()
    ensures Trim("a") == "a" && Trim(" B") == "B"
    ensures ToLower("a") == ToLower("A") == "a" && ToLower("B") == "b" && ToLower(" B") == " b"
  {
    assert " B"[1..] == "B";
    assert ToLower(" B") == [LowerChar(' ')] + ToLower("B");
  }

  lemma ExampleKnown()
    ensures ColumnsKnown(["A", "B"], "a, B")
  {
    ExampleColumns();
    ExampleLabels();
    assert SameLabel(["A", "B"][0], "a") && SameLabel(["A", "B"][1], "B");
  }

  lemma ExampleCells(t: Table)
    requires t.columns == ["A", "B"] && t.rows == [[Some("X"), Some("Y")]]
    ensures GetString(t, t.rows[0], "a") == Ok(Some("X"))
    ensures GetString(t, t.rows[0], " B") == Err(InfraError(SqlError))
  {
    ExampleLabels();
    LabelFound(t, t.rows[0], 0, "a");
    assert !SameLabel(t.columns[0], " B") && !SameLabel(t.columns[1], " B");
  }

  lemma ExampleMismatch(t: Table)
    requires t.columns == ["A", "B"] && t.rows == [[Some("X"), Some("Y")]]
    ensures RowVerdict(t, t.rows[0], ["a", " B"], ["Z", "Y"]) == AssertFail(MismatchMessage("X", "Z"))
  {
    ExampleCells(t);
    assert |NullSentinel| == 6;
    assert ExpectedValue("Z") == "Z";
    assert "X" != "Z" by { assert "X"[0] != "Z"[0]; }
    var vs := CellVerdicts(t, t.rows[0], ["a", " B"], ["Z", "Y"]);
    assert vs[0] == AssertFail(MismatchMessage("X", "Z"));
  }

  lemma ExampleUnknownLabel(t: Table)
    requires t.columns == ["A", "B"] && t.rows == [[Some("X"), Some("Y")]]
    ensures RowVerdict(t, t.rows[0], ["a", " B"], ["X", "Y"]) == InfraError(SqlError)
  {
    ExampleCells(t);
    assert |NullSentinel| == 6;
    assert ExpectedValue("X") == "X";
    assert CellVerdict(Ok(Some("X")), ["X", "Y"], 0) == Pass;
    var vs := CellVerdicts(t, t.rows[0], ["a", " B"], ["X", "Y"]);
    assert vs[0] == CellVerdict(GetString(t, t.rows[0], "a"), ["X", "Y"], 0);
    assert vs[1] == CellVerdict(GetString(t, t.rows[0], " B"), ["X", "Y"], 1);
    assert FirstFailure(vs, 0) == FirstFailure(vs, 1);
  }

  /** The example table is `table` of `db`, and `columnNames` is "a, B". */
  predicate ExampleDb(db: Database, table: string, columnNames: string)
  {
    table in db.tables && columnNames == "a, B"
    && db.tables[table].columns == ["A", "B"] && db.tables[table].rows == [[Some("X"), Some("Y")]]
  }

  lemma ExampleSelect(db: Database, table: string, columnNames: string)
    requires ExampleDb(db, table, columnNames)
    ensures SelectColumns(db, columnNames, table, None) == Ok(db.tables[table])
  {
    ExampleKnown();
    assert Select(db, table, None) == Ok(db.tables[table]);
  }

  lemma ExampleRownumRow(db: Database, table: string, columnNames: string, values: string)
    requires ExampleDb(db, table, columnNames)
    ensures RownumVerdictAt(db, columnNames, values, table, 1)
            == RowVerdict(db.tables[table], db.tables[table].rows[0], ["a", " B"], Values(values))
  {
    ExampleSelect(db, table, columnNames);
    ExampleColumns();
  }

  lemma ExampleRownumMismatch(db: Database, table: string, columnNames: string, values: string)
    requires ExampleDb(db, table, columnNames) && values == "Z|Y"
    ensures RownumVerdictAt(db, columnNames, values, table, 1) == AssertFail(MismatchMessage("X", "Z"))
  {
    ExampleRownumRow(db, table, columnNames, values);
    ExampleValues("Z", values);
    ExampleMismatch(db.tables[table]);
  }

  lemma ExampleRownumUnknown(db: Database, table: string, columnNames: string, values: string)
    requires ExampleDb(db, table, columnNames) && values == "X|Y"
    ensures RownumVerdictAt(db, columnNames, values, table, 1) == InfraError(SqlError)
  {
    ExampleRownumRow(db, table, columnNames, values);
    ExampleValues("X", values);
    ExampleUnknownLabel(db.tables[table]);
  }

  /** The select list is read without regard to case or the blanks around
      each name, while `getString` ignores only case: on a table T(A, B)
      holding the one row (X, Y), "a, B" reports a wrong value in A before
      it reaches the label " B", which then fails as an SQLException. */
  lemma ColumnListIgnoresCaseAndBlanks(db: Database)
    requires "T" in db.tables
    requires db.tables["T"].columns == ["A", "B"] && db.tables["T"].rows == [[Some("X"), Some("Y")]]
    ensures SelectColumns(db, "a, B", "T", None) == Ok(db.tables["T"])
    ensures RownumVerdictAt(db, "a, B", "Z|Y", "T", 1) == AssertFail(MismatchMessage("X", "Z"))
    ensures RownumVerdictAt(db, "a, B", "X|Y", "T", 1) == InfraError(SqlError)
  {
    ExampleSelect(db, "T", "a, B");
    ExampleRownumMismatch(db, "T", "a, B", "Z|Y");
    ExampleRownumUnknown(db, "T", "a, B", "X|Y");
  }

  /** The sentinel matches only an empty string: not SQL NULL (which
      throws) and not a cell holding the text "(NULL)". */
  lemma SentinelMatchesOnlyEmpty(c: Cell)
    ensures CellVerdict(Ok(c), [NullSentinel], 0) == Pass <==> c == Some("")
    ensures CellVerdict(Ok(None), [NullSentinel], 0) == InfraError(NullPointer)
    ensures CellVerdict(Ok(Some(NullSentinel)), [NullSentinel], 0) == AssertFail(MismatchMessage(NullSentinel, ""))
  {
    assert ExpectedValue(NullSentinel) == "";
  }

  /** The column loop of both content checks. */
  method CompareRow(t: Table, row: Row, columns: seq<string>, values: seq<string>) returns (v: Verdict)
    requires row in t.rows
    ensures v == RowVerdict(t, row, columns, values)
  {
    ghost var vs := CellVerdicts(t, row, columns, values);
    for i := 0 to |columns|
      invariant FirstFailure(vs, i) == RowVerdict(t, row, columns, values)
    {
      var c := CellVerdict(GetString(t, row, columns[i]), values, i);
      if c != Pass {
        return c;
      }
    }
    return Pass;
  }

  function RownumStatement(columnNames: string, table: string): string
  {
    "select " + columnNames + " from " + table
  }

  /** The failure for a row number outside the result. */
  function RownumMissing(columnNames: string, table: string): Verdict
  {
    AssertFail("Given rownum does not exist for statement: " + RownumStatement(columnNames, table))
  }

  /** Check Content For Row Identified By Rownum. Row `n` is the n-th row
      of the result (1-based); the check passes when that row exists and
      matches, or when `n` is 0 and the result is empty. */
  function RownumVerdict(db: Database, columnNames: string, expectedValues: string,
                         table: string, rowNumValue: string): Verdict
  {
    match ParseLong(rowNumValue)
    case None => InfraError(NumberFormat)
    case Some(n) => RownumVerdictAt(db, columnNames, expectedValues, table, n)
  }

  /** The rownum check once `rowNum` has been parsed. */
  function RownumVerdictAt(db: Database, columnNames: string, expectedValues: string,
                           table: string, n: int): Verdict
  {
    match SelectColumns(db, columnNames, table, None)
    case Err(e) => e
    case Ok(t) => RownumVerdictIn(t, columnNames, expectedValues, table, n)
  }

  /** The rownum check on the result of its query. */
  function RownumVerdictIn(t: Table, columnNames: string, expectedValues: string,
                           table: string, n: int): Verdict
  {
    if 1 <= n <= |t.rows| then RowVerdict(t, t.rows[n - 1], Columns(columnNames), Values(expectedValues))
    else if n == |t.rows| then Pass
    else RownumMissing(columnNames, table)
  }

  method CheckContentForRowIdentifiedByRownum(conn: Connection, columnNames: string, expectedValues: string,
                                              table: string, rowNumValue: string) returns (v: Verdict)
    ensures v == RownumVerdict(conn.db, columnNames, expectedValues, table, rowNumValue)
  {
    var parsed := ParseLong(rowNumValue);
    if parsed.None? {
      return InfraError(NumberFormat);
    }
    var sel := SelectColumns(conn.db, columnNames, table, None);
    if sel.Err? {
      return sel.error;
    }
    v := CheckRowAt(sel.value, columnNames, expectedValues, table, parsed.value);
  }

  /** The scan of the rownum check: count rows until row `rowNum` is
      reached, compare it, and stop. */
  method CheckRowAt(t: Table, columnNames: string, expectedValues: string,
                    table: string, rowNum: int) returns (v: Verdict)
    ensures v == RownumVerdictIn(t, columnNames, expectedValues, table, rowNum)
  {
    var columns := Columns(columnNames);
    var values := Values(expectedValues);
    var count := 0;
    while count < |t.rows|
      invariant 0 <= count <= |t.rows|
      invariant rowNum <= 0 || count < rowNum
    {
      count := count + 1;
      if count == rowNum {
        v := CompareRow(t, t.rows[count - 1], columns, values);
        if v != Pass {
          return v;
        }
        break;
      }
    }
    if count != rowNum {
      return RownumMissing(columnNames, table);
    }
    return Pass;
  }

  /** The rownum check passes exactly when row `n` exists and every named
      column of it holds its expected value, or when `n` is 0 on an empty
      result; any other `n` outside the result is reported as missing. */
  lemma RownumDecides(db: Database, columnNames: string, expectedValues: string, table: string, n: int)
    requires SelectColumns(db, columnNames, table, None).Ok?
    ensures var t := SelectColumns(db, columnNames, table, None).value;
            var columns := Columns(columnNames);
            (RownumVerdictAt(db, columnNames, expectedValues, table, n) == Pass <==>
               ((n == 0 && t.rows == []) || (1 <= n <= |t.rows| && RowMatches(t, t.rows[n - 1], columns, Values(expectedValues)))))
            && (n < 0 || n > |t.rows| ==>
                  RownumVerdictAt(db, columnNames, expectedValues, table, n)
                  == AssertFail("Given rownum does not exist for statement: " + RownumStatement(columnNames, table)))
  {
    var t := SelectColumns(db, columnNames, table, None).value;
    if 1 <= n <= |t.rows| {
      RowVerdictPassIff(t, t.rows[n - 1], Columns(columnNames), Values(expectedValues));
    }
  }

  function WhereStatement(columnNames: string, table: string, where: string): string
  {
    "select " + columnNames + " from " + table + " where " + where
  }

  /** Check Content For Row Identified By WhereClause: the first matching
      row is compared before a second one is looked at. */
  function WhereVerdict(db: Database, columnNames: string, expectedValues: string,
                        table: string, where: string): (v: Verdict)
    ensures SelectColumns(db, columnNames, table, Some(where)).Err? ==> v == InfraError(SqlError)
    ensures v == Pass ==> SelectColumns(db, columnNames, table, Some(where)).Ok?
                          && |SelectColumns(db, columnNames, table, Some(where)).value.rows| == 1
    ensures SelectColumns(db, columnNames, table, Some(where)).Ok?
            && SelectColumns(db, columnNames, table, Some(where)).value.rows == []
            ==> v == NoRowFetched(columnNames, table, where)
  {
    match SelectColumns(db, columnNames, table, Some(where))
    case Err(e) => e
    case Ok(t) => WhereVerdictIn(t, columnNames, expectedValues, table, where)
  }

  /** The where-clause check on the result of its query. */
  function WhereVerdictIn(t: Table, columnNames: string, expectedValues: string,
                          table: string, where: string): Verdict
  {
    if t.rows == [] then NoRowFetched(columnNames, table, where)
    else
      var first := RowVerdict(t, t.rows[0], Columns(columnNames), Values(expectedValues));
      if first != Pass then first
      else if |t.rows| > 1 then TooManyRows(columnNames, table, where)
      else Pass
  }

  /** The failure for a where-clause that selects no row. */
  function NoRowFetched(columnNames: string, table: string, where: string): Verdict
  {
    AssertFail("No row fetched by given where-clause for statement: " + WhereStatement(columnNames, table, where))
  }

  /** The failure for a where-clause that selects several rows. */
  function TooManyRows(columnNames: string, table: string, where: string): Verdict
  {
    AssertFail("More than one row fetched by given where-clause for statement: "
               + WhereStatement(columnNames, table, where))
  }

  method CheckContentForRowIdentifiedByWhereClause(conn: Connection, columnNames: string, expectedValues: string,
                                                   table: string, where: string) returns (v: Verdict)
    ensures v == WhereVerdict(conn.db, columnNames, expectedValues, table, where)
  {
    var sel := SelectColumns(conn.db, columnNames, table, Some(where));
    if sel.Err? {
      return sel.error;
    }
    v := CheckRowsWhere(sel.value, columnNames, expectedValues, table, where);
  }

  /** The scan of the where-clause check: compare the first row, and stop
      at a second one. */
  method CheckRowsWhere(t: Table, columnNames: string, expectedValues: string,
                        table: string, where: string) returns (v: Verdict)
    ensures v == WhereVerdictIn(t, columnNames, expectedValues, table, where)
  {
    var columns := Columns(columnNames);
    var values := Values(expectedValues);
    var count := 0;
    while count < |t.rows|
      invariant 0 <= count <= |t.rows|
      invariant count <= 1
      invariant count == 1 ==> RowVerdict(t, t.rows[0], columns, values) == Pass
    {
      count := count + 1;
      if count == 1 {
        v := CompareRow(t, t.rows[0], columns, values);
        if v != Pass {
          return v;
        }
      }
      if count > 1 {
        return TooManyRows(columnNames, table, where);
      }
    }
    if count == 0 {
      return NoRowFetched(columnNames, table, where);
    }
    return Pass;
  }

  /** The where-clause check passes exactly when one row matches and it
      holds the expected values; a difference in the first row is reported
      even when more rows match. */
  lemma WhereDecides(db: Database, columnNames: string, expectedValues: string, table: string, where: string)
    requires SelectColumns(db, columnNames, table, Some(where)).Ok?
    ensures var t := SelectColumns(db, columnNames, table, Some(where)).value;
            var columns := Columns(columnNames);
            var values := Values(expectedValues);
            (WhereVerdict(db, columnNames, expectedValues, table, where) == Pass <==>
               (|t.rows| == 1 && RowMatches(t, t.rows[0], columns, values)))
            && (|t.rows| >= 1 && RowVerdict(t, t.rows[0], columns, values) != Pass ==>
                  WhereVerdict(db, columnNames, expectedValues, table, where) == RowVerdict(t, t.rows[0], columns, values))
  {
    var t := SelectColumns(db, columnNames, table, Some(where)).value;
    if t.rows != [] {
      RowVerdictPassIff(t, t.rows[0], Columns(columnNames), Values(expectedValues));
    }
  }

  /** Read Single Value From Table: "" when no row matches, the cell (Java
      null for SQL NULL) when one does, a failure when a second row exists. */
  function ReadSingleValueFromTable(db: Database, table: string, column: string, where: string): (r: Result<Cell>)
    ensures SelectColumns(db, column, table, Some(where)).Err? ==> r == Err(InfraError(SqlError))
    ensures SelectColumns(db, column, table, Some(where)).Ok? ==>
              var t := SelectColumns(db, column, table, Some(where)).value;
              (t.rows == [] ==> r == Ok(Some("")))
              && (|t.rows| == 1 ==> r == GetString(t, t.rows[0], column))
              && (|t.rows| > 1 && HasLabel(t.columns, column) ==>
                    r == Err(AssertFail("More than one value fetched for: " + WhereStatement(column, table, where))))
              && (|t.rows| > 1 && !HasLabel(t.columns, column) ==> r == Err(InfraError(SqlError)))
  {
    match SelectColumns(db, column, table, Some(where))
    case Err(e) => Err(e)
    case Ok(t) =>
      if t.rows == [] then Ok(Some(""))
      else
        var cell := GetString(t, t.rows[0], column);
        if cell.Err? then cell
        else if |t.rows| > 1 then Err(AssertFail("More than one value fetched for: " + WhereStatement(column, table, where)))
        else cell
  }

  /** Reading a value back agrees with checking it: for a single column and
      a value that is neither the sentinel nor contains "|", the where-clause
      check passes exactly when the read returns that value. */
  lemma ReadAgreesWithCheck(db: Database, table: string, column: string, where: string, value: string)
    requires ',' !in column && '|' !in value && value != NullSentinel
    requires SelectColumns(db, column, table, Some(where)).Ok?
    requires |SelectColumns(db, column, table, Some(where)).value.rows| == 1
    ensures WhereVerdict(db, column, value, table, where) == Pass
            <==> ReadSingleValueFromTable(db, table, column, where) == Ok(Some(value))
  {
    var t := SelectColumns(db, column, table, Some(where)).value;
    var row := t.rows[0];
    assert Columns(column) == [column];
    assert Values(value) == [value];
    RowVerdictPassIff(t, row, [column], [value]);
    assert WhereVerdict(db, column, value, table, where) == RowVerdict(t, row, [column], [value]);
    assert ReadSingleValueFromTable(db, table, column, where) == GetString(t, row, column);
    assert CellMatches(t, row, [column], [value], 0) <==> GetString(t, row, column) == Ok(Some(value));
  }

  /** Row Should Not Exist In Table. */
  function RowShouldNotExistInTable(db: Database, table: string, where: string): (v: Verdict)
    ensures v == Pass <==> Select(db, table, Some(where)).Ok? && Select(db, table, Some(where)).value.rows == []
    ensures Select(db, table, Some(where)).Ok? && v != Pass ==>
              v == AssertFail("Row exists (but should not) for where-clause: " + where + " in table: " + table)
  {
    match Select(db, table, Some(where))
    case Err(e) => e
    case Ok(t) =>
      if t.rows != [] then AssertFail("Row exists (but should not) for where-clause: " + where + " in table: " + table)
      else Pass
  }

  /** A row must not exist exactly when zero rows match the where-clause,
      so the keyword passes exactly when counting the matching rows against
      "0" passes. */
  lemma RowShouldNotExistIsZeroCount(db: Database, table: string, where: string)
    ensures RowShouldNotExistInTable(db, table, where) == Pass
            <==> RowCount.ThresholdVerdict(db, table, Some(where), RowCount.Exactly, "0") == Pass
  {
    assert ParseLong("0") == Some(0) by {
      assert DigitsValue("0") == DigitsValue("") * 10 + 0;
    }
    if Select(db, table, Some(where)).Ok? {
      RowCount.ThresholdDecides(db, table, Some(where), RowCount.Exactly, "0");
    }
  }
}
