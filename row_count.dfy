/** Counting rows and the keywords that compare a count with a threshold.

    The counter first asks the engine for `count(*)`; when the engine does
    not support that, it scans `select *` and stops counting at `limit`.
    The threshold keywords pick `limit` so that the cut-off never changes
    their verdict. */
module RowCount {
  import opened Common
  import opened Jdbc

  /** What the bounded scan counts: no row for a non-positive limit,
      otherwise the rows up to the limit. */
  function Clamp(count: nat, limit: int): nat
  {
    if limit <= 0 then 0 else if count < limit then count else limit
  }

  /** The count `getNumberOfRows(table, where, limit)` returns. */
  function RowsReported(db: Database, table: string, where: Option<string>, limit: int): Result<int>
  {
    match Select(db, table, where)
    case Err(e) => Err(e)
    case Ok(t) => Ok(if db.countSupported then |t.rows| else Clamp(|t.rows|, limit))
  }

  /** The bounded scan counts exactly, as long as the count is below the
      limit, and reports the limit itself otherwise. */
  lemma ClampBounds(count: nat, limit: int)
    ensures Clamp(count, limit) <= count
    ensures count <= limit ==> Clamp(count, limit) == count
    ensures 0 < limit <= count ==> Clamp(count, limit) == limit
    ensures Clamp(count, limit) < limit ==> Clamp(count, limit) == count
    ensures limit <= 0 ==> Clamp(count, limit) == 0
  {
  }

  /** `getNumberOfRows`: `count(*)` first; when that throws, a `select *`
      scan that stops at `limit`. An unknown table or a rejected where-clause
      makes both queries throw. */
  method GetNumberOfRows(conn: Connection, table: string, where: Option<string>, limit: int)
    returns (r: Result<int>)
    ensures r.Err? <==> Select(conn.db, table, where).Err?
    ensures r.Err? ==> r.error == InfraError(SqlError)
    ensures r.Ok? && conn.db.countSupported ==> r.value == |Select(conn.db, table, where).value.rows|
    ensures r.Ok? && !conn.db.countSupported ==> r.value == Clamp(|Select(conn.db, table, where).value.rows|, limit)
  {
    var sel := Select(conn.db, table, where);
    if sel.Err? {
      return Err(sel.error);
    }
    var rows := sel.value.rows;
    if conn.db.countSupported {
      return Ok(|rows|);
    }
    var num := 0;
    while num < |rows| && num < limit
      invariant 0 <= num <= |rows|
      invariant num == 0 || num <= limit
    {
      num := num + 1;
    }
    return Ok(num);
  }

  /** The three threshold relations the count keywords check. */
  datatype Threshold = Exactly | MoreThan | LessThan

  predicate Accepts(th: Threshold, num: int, n: int)
  {
    match th
    case Exactly => num == n
    case MoreThan => num > n
    case LessThan => num < n
  }

  /** `Long.MAX_VALUE + 1` wraps to `Long.MIN_VALUE`. */
  lemma WrapLongPastMax()
    ensures WrapLong(LongMax + 1) == LongMin
  {
    assert LongMax + 1 - LongMin == LongRange;
  }

  /** The limit each keyword hands to the counter: `rowNum` for less-than,
      `rowNum + 1` (in `long` arithmetic) otherwise. */
  function Limit(th: Threshold, n: int): int
  {
    if th == LessThan then n else WrapLong(n + 1)
  }

  function FailureMessage(th: Threshold, n: int, num: int): string
  {
    match th
    case Exactly => "Expecting " + IntToString(n) + " rows, fetched: " + IntToString(num)
    case MoreThan => "Expecting more than" + IntToString(n) + " rows, fetched: " + IntToString(num)
    case LessThan => "Expecting less than" + IntToString(n) + " rows, fetched: " + IntToString(num)
  }

  /** The verdict of a threshold keyword given the text of `rowNum`. */
  function ThresholdVerdict(db: Database, table: string, where: Option<string>,
                            th: Threshold, rowNumValue: string): (v: Verdict)
    ensures ParseLong(rowNumValue).None? ==> v == InfraError(NumberFormat)
    ensures ParseLong(rowNumValue).Some? && Select(db, table, where).Err? ==> v == InfraError(SqlError)
    ensures ParseLong(rowNumValue).Some? && Select(db, table, where).Ok? ==> !v.InfraError?
  {
    match ParseLong(rowNumValue)
    case None => InfraError(NumberFormat)
    case Some(n) =>
      match RowsReported(db, table, where, Limit(th, n))
      case Err(e) => e
      case Ok(num) => if Accepts(th, num, n) then Pass else AssertFail(FailureMessage(th, n, num))
  }

  method CheckThreshold(conn: Connection, table: string, where: Option<string>,
                        th: Threshold, rowNumValue: string) returns (v: Verdict)
    ensures v == ThresholdVerdict(conn.db, table, where, th, rowNumValue)
  {
    var parsed := ParseLong(rowNumValue);
    if parsed.None? {
      return InfraError(NumberFormat);
    }
    var n := parsed.value;
    var r := GetNumberOfRows(conn, table, where, Limit(th, n));
    if r.Err? {
      return r.error;
    }
    v := if Accepts(th, r.value, n) then Pass else AssertFail(FailureMessage(th, n, r.value));
  }

  /** The main correctness fact: whichever path the counter takes, a
      threshold keyword passes exactly when the true number of (matching)
      rows satisfies the relation, except for `rowNum = Long.MAX_VALUE`
      where `rowNum + 1` overflows. */
  lemma ThresholdDecides(db: Database, table: string, where: Option<string>,
                         th: Threshold, rowNumValue: string)
    requires ParseLong(rowNumValue).Some? && Select(db, table, where).Ok?
    requires th == LessThan || ParseLong(rowNumValue).value < LongMax
    ensures ThresholdVerdict(db, table, where, th, rowNumValue) == Pass
            <==> Accepts(th, |Select(db, table, where).value.rows|, ParseLong(rowNumValue).value)
  {
    var n := ParseLong(rowNumValue).value;
    var count := |Select(db, table, where).value.rows|;
    assert Limit(th, n) == if th == LessThan then n else n + 1;
    ClampBounds(count, Limit(th, n));
  }

  /** When the counter reports a failure on the `count(*)` path, the
      message carries the true count. */
  lemma ThresholdMessageOnAggregatePath(db: Database, table: string, where: Option<string>,
                                        th: Threshold, rowNumValue: string)
    requires ParseLong(rowNumValue).Some? && Select(db, table, where).Ok? && db.countSupported
    requires !Accepts(th, |Select(db, table, where).value.rows|, ParseLong(rowNumValue).value)
    ensures ThresholdVerdict(db, table, where, th, rowNumValue)
         == AssertFail(FailureMessage(th, ParseLong(rowNumValue).value, |Select(db, table, where).value.rows|))
  {
  }

  /** With `rowNum = Long.MAX_VALUE` and no `count(*)`, `rowNum + 1` wraps
      to `Long.MIN_VALUE`, the scan counts nothing, and the exact and
      more-than checks fail whatever the table holds. */
  lemma ThresholdOverflow(db: Database, table: string, where: Option<string>,
                          th: Threshold, rowNumValue: string)
    requires ParseLong(rowNumValue) == Some(LongMax) && th != LessThan
    requires Select(db, table, where).Ok? && !db.countSupported
    ensures Limit(th, LongMax) == LongMin
    ensures ThresholdVerdict(db, table, where, th, rowNumValue) == AssertFail(FailureMessage(th, LongMax, 0))
  {
    WrapLongPastMax();
    assert RowsReported(db, table, where, Limit(th, LongMax)) == Ok(0);
    assert !Accepts(th, 0, LongMax);
  }

  /** Table Must Contain Number Of Rows. */
  method TableMustContainNumberOfRows(conn: Connection, table: string, rowNumValue: string)
    returns (v: Verdict)
    ensures v == ThresholdVerdict(conn.db, table, None, Exactly, rowNumValue)
  {
    v := CheckThreshold(conn, table, None, Exactly, rowNumValue);
  }

  /** Table Must Contain More Than Number Of Rows. */
  method TableMustContainMoreThanNumberOfRows(conn: Connection, table: string, rowNumValue: string)
    returns (v: Verdict)
    ensures v == ThresholdVerdict(conn.db, table, None, MoreThan, rowNumValue)
  {
    v := CheckThreshold(conn, table, None, MoreThan, rowNumValue);
  }

  /** Table Must Contain Less Than Number Of Rows. */
  method TableMustContainLessThanNumberOfRows(conn: Connection, table: string, rowNumValue: string)
    returns (v: Verdict)
    ensures v == ThresholdVerdict(conn.db, table, None, LessThan, rowNumValue)
  {
    v := CheckThreshold(conn, table, None, LessThan, rowNumValue);
  }

  /** Verify Number Of Rows Matching Where: the exact check on the rows the
      where-clause selects. */
  method VerifyNumberOfRowsMatchingWhere(conn: Connection, table: string, where: string, rowNumValue: string)
    returns (v: Verdict)
    ensures v == ThresholdVerdict(conn.db, table, Some(where), Exactly, rowNumValue)
  {
    v := CheckThreshold(conn, table, Some(where), Exactly, rowNumValue);
  }

  /** Table Must Be Empty: the exact check with "0", so it passes exactly
      when the table exists and has no rows. */
  method TableMustBeEmpty(conn: Connection, table: string) returns (v: Verdict)
    ensures v == ThresholdVerdict(conn.db, table, None, Exactly, "0")
    ensures v == Pass <==> table in conn.db.tables && conn.db.tables[table].rows == []
  {
    v := TableMustContainNumberOfRows(conn, table, "0");
    assert ParseLong("0") == Some(0) by {
      assert DigitsValue("0") == DigitsValue("") * 10 + 0;
    }
    if table in conn.db.tables {
      ThresholdDecides(conn.db, table, None, Exactly, "0");
    }
  }

  /** The verdict of Tables Must Contain Same Amount Of Rows, given the
      verdicts of its two counts (each limited by `Long.MAX_VALUE`). */
  function SameAmountVerdict(db: Database, first: string, second: string): Verdict
  {
    match RowsReported(db, first, None, LongMax)
    case Err(e) => e
    case Ok(n1) =>
      match RowsReported(db, second, None, LongMax)
      case Err(e) => e
      case Ok(n2) =>
        if n1 == n2 then Pass
        else AssertFail("Expecting same amount of rows, but table " + first + " has " + IntToString(n1)
                        + " rows and table " + second + " has " + IntToString(n2) + " rows!")
  }

  method TablesMustContainSameAmountOfRows(conn: Connection, first: string, second: string)
    returns (v: Verdict)
    ensures v == SameAmountVerdict(conn.db, first, second)
  {
    var r1 := GetNumberOfRows(conn, first, None, LongMax);
    var r2 := GetNumberOfRows(conn, second, None, LongMax);
    if r1.Err? {
      return r1.error;
    }
    if r2.Err? {
      return r2.error;
    }
    if r1.value == r2.value {
      return Pass;
    }
    return AssertFail("Expecting same amount of rows, but table " + first + " has " + IntToString(r1.value)
                      + " rows and table " + second + " has " + IntToString(r2.value) + " rows!");
  }

  /** For two existing tables of at most `Long.MAX_VALUE` rows, the check
      passes exactly when they hold equally many rows, on either path. */
  lemma SameAmountDecides(db: Database, first: string, second: string)
    requires first in db.tables && second in db.tables
    requires |db.tables[first].rows| <= LongMax && |db.tables[second].rows| <= LongMax
    ensures SameAmountVerdict(db, first, second) == Pass
            <==> |db.tables[first].rows| == |db.tables[second].rows|
  {
    ClampBounds(|db.tables[first].rows|, LongMax);
    ClampBounds(|db.tables[second].rows|, LongMax);
  }

  /** Table Must Exist: the catalog lookup finds the table or the keyword
      fails naming it. */
  function TableMustExist(db: Database, table: string): (v: Verdict)
    ensures v == Pass <==> table in db.tables
    ensures v != Pass ==> v == AssertFail("Table: " + table + " was not found")
  {
    if table in db.tables then Pass else AssertFail("Table: " + table + " was not found")
  }
}
