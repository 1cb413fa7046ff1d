/** Query results against golden files, and the statements behind export
    and import.

    A result set is stored one row per line: each cell's string (Java's
    "null" for SQL NULL) followed by "|", then "\n". Comparing walks the
    live rows and the file's lines in lockstep, records at most ten
    differences, and then reports unread file content. Export sends
    `Select * from <table> [where <w>]`; import sends one multi-row
    `INSERT INTO <table> VALUES ...` statement. */
module ResultFile {
  import opened Common
  import opened Jdbc
  import opened TextFile
  import opened SqlScript
  import opened RowCount

  // ---------------------------------------------------------------------
  // The stored format

  /** A possibly-null Java string in a string concatenation. */
  function NullableText(s: Option<string>): string
  {
    match s
    case None => "null"
    case Some(v) => v
  }

  /** One row as `actRow` / the writer builds it: every cell followed by "|". */
  function RowLine(row: Row): string
  {
    if row == [] then "" else RowLine(row[..|row| - 1]) + NullableText(row[|row| - 1]) + "|"
  }

  /** The `actRow` of every row, in order. */
  function RowLines(rows: seq<Row>): (r: seq<string>)
    ensures |r| == |rows|
  {
    if rows == [] then [] else RowLines(rows[..|rows| - 1]) + [RowLine(rows[|rows| - 1])]
  }

  /** Entry `i` is the line of row `i`. */
  lemma {:induction false} RowLinesAt(rows: seq<Row>, i: nat)
    requires i < |rows|
    ensures RowLines(rows)[i] == RowLine(rows[i])
  {
    if i < |rows| - 1 {
      RowLinesAt(rows[..|rows| - 1], i);
    }
  }

  /** The file `storeQueryResultToFile` writes. */
  function Stored(rows: seq<Row>): string
  {
    if rows == [] then "" else Stored(rows[..|rows| - 1]) + RowLine(rows[|rows| - 1]) + "\n"
  }

  /** No cell holds a line terminator of its own. */
  predicate PlainCells(rows: seq<Row>)
  {
    forall k, j :: 0 <= k < |rows| && 0 <= j < |rows[k]| && rows[k][j].Some? ==> NoTerminator(rows[k][j].value)
  }

  lemma UnlinesSnoc(lines: seq<string>, line: string)
    ensures Unlines(lines + [line]) == Unlines(lines) + line + "\n"
  {
    if lines != [] {
      assert (lines + [line])[1..] == lines[1..] + [line];
      UnlinesSnoc(lines[1..], line);
    }
  }

  /** What is stored is the row lines, each ended by "\n". */
  lemma {:induction false} StoredIsUnlines(rows: seq<Row>)
    ensures Stored(rows) == Unlines(RowLines(rows))
  {
    if rows != [] {
      var init := rows[..|rows| - 1];
      StoredIsUnlines(init);
      assert RowLines(rows) == RowLines(init) + [RowLine(rows[|rows| - 1])];
      UnlinesSnoc(RowLines(init), RowLine(rows[|rows| - 1]));
    }
  }

  /** "|" and "null" hold no terminator, so a row of plain cells is one line. */
  lemma {:induction false} RowLineIsOneLine(row: Row)
    requires forall j :: 0 <= j < |row| && row[j].Some? ==> NoTerminator(row[j].value)
    ensures NoTerminator(RowLine(row))
  {
    if row != [] {
      var init := row[..|row| - 1];
      RowLineIsOneLine(init);
      var a := RowLine(init);
      var b := NullableText(row[|row| - 1]);
      assert NoTerminator(b);
      assert RowLine(row) == a + b + "|";
      assert forall j :: 0 <= j < |a + b + "|"| ==> (a + b + "|")[j] == if j < |a| then a[j] else if j < |a| + |b| then b[j - |a|] else '|';
    }
  }

  /** The outcome of Store Query Result To File: the text written. A
      statement with no result set leaves `getResultSet()` null, and
      `getMetaData()` on it throws. */
  function StoreOutcome(answer: StatementResult): Result<string>
  {
    match answer
    case Failed => Err(InfraError(SqlError))
    case UpdateCount => Err(InfraError(NullPointer))
    case ResultRows(t) => Ok(Stored(t.rows))
  }

  method StoreQueryResultToFile(conn: Connection, sql: string) returns (r: Result<string>)
    modifies conn`trace
    ensures conn.trace == old(conn.trace) + [Exec(sql)]
    ensures r == StoreOutcome(conn.db.engine(old(conn.trace), sql))
  {
    var answer := conn.Execute(sql);
    if answer.Failed? {
      return Err(InfraError(SqlError));
    }
    if answer.UpdateCount? {
      return Err(InfraError(NullPointer));
    }
    var rows := answer.result.rows;
    var out := "";
    for k := 0 to |rows|
      invariant out == Stored(rows[..k])
      invariant conn.trace == old(conn.trace) + [Exec(sql)]
    {
      assert rows[..k + 1][..k] == rows[..k];
      assert Stored(rows[..k + 1]) == Stored(rows[..k]) + RowLine(rows[k]) + "\n";
      out := WriteRow(out, rows[k]);
      out := out + "\n";
    }
    assert rows[..|rows|] == rows;
    return Ok(out);
  }

  /** The inner loop of the writer: every cell's text and "|" appended to
      what was written so far. */
  method WriteRow(out: string, row: Row) returns (written: string)
    ensures written == out + RowLine(row)
  {
    written := out;
    for i := 0 to |row|
      invariant written == out + RowLine(row[..i])
    {
      assert row[..i + 1][..i] == row[..i];
      written := written + (NullableText(row[i]) + "|");
    }
    assert row[..|row|] == row;
  }

  // ---------------------------------------------------------------------
  // Comparing

  const MaxDiffs := 10

  /** One difference the comparison records. */
  datatype Diff = RowMismatch(row: nat, expected: Option<string>, actual: string) | MoreRows | FewerRows

  function DiffText(d: Diff): string
  {
    match d
    case RowMismatch(n, e, a) => MismatchText(n, NullableText(e), a)
    case MoreRows => MoreRowsText
    case FewerRows => FewerRowsText
  }

  const MoreRowsText: string := "More rows" + RowsTail
  const FewerRowsText: string := "Fewer rows" + RowsTail
  const RowsTail: string := " in expected file than in query result\n"

  /** The entry for a row whose line differs. */
  function MismatchText(n: nat, expected: string, actual: string): string
  {
    "Row " + IntToString(n) + " does not match:\nexp: " + expected + "\nact: " + actual + "\n"
  }

  /** The `diffs` string: the entries' texts in order. */
  function DiffsText(ds: seq<Diff>): string
  {
    TextUpTo(ds, |ds|)
  }

  /** The texts of the first `n` entries, in order. */
  function TextUpTo(ds: seq<Diff>, n: nat): string
    requires n <= |ds|
  {
    if n == 0 then "" else TextUpTo(ds, n - 1) + DiffText(ds[n - 1])
  }

  /** `numDiffs` and `diffs` hold the count and the text of `ds`. */
  predicate Reports(numDiffs: int, diffs: string, ds: seq<Diff>)
  {
    numDiffs == |ds| && diffs == DiffsText(ds)
  }

  lemma DiffsTextSnoc(ds: seq<Diff>, d: Diff)
    ensures DiffsText(ds + [d]) == DiffsText(ds) + DiffText(d)
  {
    TextUpToPrefix(ds, ds + [d], |ds|);
  }

  /** The text of the first `n` entries depends on those entries only. */
  lemma {:induction false} TextUpToPrefix(a: seq<Diff>, b: seq<Diff>, n: nat)
    requires n <= |a| && n <= |b| && a[..n] == b[..n]
    ensures TextUpTo(a, n) == TextUpTo(b, n)
  {
    if n > 0 {
      assert a[..n - 1] == a[..n][..n - 1] && b[..n - 1] == b[..n][..n - 1];
      assert a[n - 1] == a[..n][n - 1] && b[n - 1] == b[..n][n - 1];
      TextUpToPrefix(a, b, n - 1);
    }
  }

  /** The differences recorded so far and whether a read has failed. */
  datatype Walk = Walk(diffs: seq<Diff>, faulted: bool)

  /** The line index the read for row `i` (0-based) asks for: past the end
      of the file every read asks for the end again. */
  function ReadIndex(i: nat, count: nat): nat
  {
    if i < count then i else count
  }

  /** The lockstep loop over the first `n` row lines of `actual`: it
      stops once ten differences are recorded or a read fails; a missing
      line reads as Java null and never matches. */
  function Compared(actual: seq<string>, n: nat, lines: seq<string>, faultAt: Option<nat>): Walk
    requires n <= |actual|
  {
    if n == 0 then Walk([], false)
    else
      var prev := Compared(actual, n - 1, lines, faultAt);
      if prev.faulted || |prev.diffs| >= MaxDiffs then prev
      else
        var i := n - 1;
        if faultAt == Some(ReadIndex(i, |lines|)) then Walk(prev.diffs + [FewerRows], true)
        else
          var expected := if i < |lines| then Some(lines[i]) else None;
          if expected == Some(actual[i]) then prev
          else Walk(prev.diffs + [RowMismatch(i + 1, expected, actual[i])], false)
  }

  /** The loop over all rows, then the check for unread content (skipped
      after a failed read and once ten differences are recorded). */
  function CompareDiffs(actual: seq<string>, lines: seq<string>, faultAt: Option<nat>): seq<Diff>
  {
    var w := Compared(actual, |actual|, lines, faultAt);
    if !w.faulted && |w.diffs| < MaxDiffs && |actual| < |lines| then w.diffs + [MoreRows] else w.diffs
  }

  /** The verdict of Compare Query Result To File. The query runs before
      the file is opened; a missing file is reported as such, since no
      difference has been recorded when it is found. */
  function CompareVerdict(answer: StatementResult, file: File): (v: Verdict)
    ensures v == Pass <==> answer.ResultRows? && file.Present?
                           && Lines(file.content) == RowLines(answer.result.rows)
                           && (file.faultAt.Some? ==> file.faultAt.value >= |answer.result.rows|)
    ensures v.InfraError? <==> !answer.ResultRows? || file.Missing?
  {
    match answer
    case Failed => InfraError(SqlError)
    case UpdateCount => InfraError(NullPointer)
    case ResultRows(t) =>
      match file
      case Missing => InfraError(FileNotFound)
      case Present(content, faultAt) =>
        var ds := CompareDiffs(RowLines(t.rows), Lines(content), faultAt);
        ComparePassIff(RowLines(t.rows), Lines(content), faultAt);
        if ds == [] then Pass else AssertFail(DiffsText(ds))
  }

  /** Only the `RowMismatch` entries carry row numbers; they are 1-based,
      at most `n`, and strictly increasing; a `FewerRows` or `MoreRows`
      entry can only come last. */
  predicate Ordered(ds: seq<Diff>, n: nat)
  {
    (forall k :: 0 <= k < |ds| - 1 ==> ds[k].RowMismatch?)
    && (forall k :: 0 <= k < |ds| && ds[k].RowMismatch? ==> 1 <= ds[k].row <= n)
    && (forall k, l :: 0 <= k < l < |ds| && ds[l].RowMismatch? ==> ds[k].row < ds[l].row)
  }

  /** What the loop can have recorded after `n` rows of a file of `count`
      lines: at most ten differences, in row order; a failed read is
      recorded last, as `FewerRows`, and only a read that actually fails
      records it. */
  predicate WalkShape(w: Walk, n: nat, count: nat, faultAt: Option<nat>)
  {
    |w.diffs| <= MaxDiffs
    && Ordered(w.diffs, n)
    && (w.faulted <==> (w.diffs != [] && w.diffs[|w.diffs| - 1] == FewerRows))
    && (w.faulted ==> faultAt.Some? && faultAt.value <= count)
    && (!w.faulted ==> forall k :: 0 <= k < |w.diffs| ==> w.diffs[k].RowMismatch?)
  }

  /** The loop only ever leaves a walk of that shape. */
  lemma {:induction false} ComparedShape(actual: seq<string>, n: nat, lines: seq<string>, faultAt: Option<nat>)
    requires n <= |actual|
    ensures WalkShape(Compared(actual, n, lines, faultAt), n, |lines|, faultAt)
  {
    if n > 0 {
      ComparedShape(actual, n - 1, lines, faultAt);
      ShapeStep(actual, n - 1, lines, faultAt);
    }
  }

  /** One more row keeps the shape. */
  lemma ShapeStep(actual: seq<string>, i: nat, lines: seq<string>, faultAt: Option<nat>)
    requires i < |actual|
    requires WalkShape(Compared(actual, i, lines, faultAt), i, |lines|, faultAt)
    ensures WalkShape(Compared(actual, i + 1, lines, faultAt), i + 1, |lines|, faultAt)
  {
    var prev := Compared(actual, i, lines, faultAt);
    var w := Compared(actual, i + 1, lines, faultAt);
    if prev.faulted || |prev.diffs| >= MaxDiffs {
      assert w == prev;
    } else if faultAt == Some(ReadIndex(i, |lines|)) {
      assert w.diffs == prev.diffs + [FewerRows];
      OrderedSnoc(prev.diffs, i, FewerRows);
    } else if w != prev {
      var expected := if i < |lines| then Some(lines[i]) else None;
      assert w.diffs == prev.diffs + [RowMismatch(i + 1, expected, actual[i])];
      OrderedSnoc(prev.diffs, i, RowMismatch(i + 1, expected, actual[i]));
    }
  }

  /** Appending the entry for row `n + 1` to entries for rows up to `n`
      keeps them in order. */
  lemma OrderedSnoc(ds: seq<Diff>, n: nat, d: Diff)
    requires Ordered(ds, n) && forall k :: 0 <= k < |ds| ==> ds[k].RowMismatch?
    requires d.RowMismatch? ==> d.row == n + 1
    ensures Ordered(ds + [d], n + 1)
  {
  }

  /** The first `n` rows agree with the first `n` lines of the file. */
  predicate AgreeUpTo(actual: seq<string>, lines: seq<string>, n: nat)
  {
    n <= |actual| && n <= |lines| && forall i :: 0 <= i < n ==> actual[i] == lines[i]
  }

  /** Nothing is recorded for the first `n` rows exactly when they are the
      first `n` lines of the file and no read so far failed. */
  lemma {:induction false} ComparedCleanIff(actual: seq<string>, n: nat, lines: seq<string>, faultAt: Option<nat>)
    requires n <= |actual|
    ensures Compared(actual, n, lines, faultAt).diffs == [] <==>
            (AgreeUpTo(actual, lines, n) && (faultAt.Some? ==> faultAt.value >= n))
    ensures Compared(actual, n, lines, faultAt).diffs == [] ==> !Compared(actual, n, lines, faultAt).faulted
  {
    ComparedShape(actual, n, lines, faultAt);
    if n > 0 {
      ComparedCleanIff(actual, n - 1, lines, faultAt);
    }
  }

  /** Compare passes exactly when the file holds the row lines and nothing
      more, and no read fails. */
  lemma ComparePassIff(actual: seq<string>, lines: seq<string>, faultAt: Option<nat>)
    ensures CompareDiffs(actual, lines, faultAt) == [] <==>
            (lines == actual && (faultAt.Some? ==> faultAt.value >= |actual|))
  {
    ComparedCleanIff(actual, |actual|, lines, faultAt);
    if AgreeUpTo(actual, lines, |actual|) && |actual| == |lines| {
      assert lines == actual;
    }
  }

  /** At most ten differences are reported, in row order; "Fewer rows" is
      reported only when a read fails, and "More rows" only when the rows
      ran out before the file did. */
  lemma CompareCapped(actual: seq<string>, lines: seq<string>, faultAt: Option<nat>)
    ensures var ds := CompareDiffs(actual, lines, faultAt);
            |ds| <= MaxDiffs
            && Ordered(ds, |actual|)
            && (FewerRows in ds ==> faultAt.Some? && faultAt.value <= |lines|)
            && (MoreRows in ds ==> |actual| < |lines|)
  {
    var w := Compared(actual, |actual|, lines, faultAt);
    ComparedShape(actual, |actual|, lines, faultAt);
    var ds := CompareDiffs(actual, lines, faultAt);
    if FewerRows in ds {
      var k :| 0 <= k < |ds| && ds[k] == FewerRows;
      assert w.faulted;
    }
    if MoreRows in ds {
      var k :| 0 <= k < |ds| && ds[k] == MoreRows;
      assert ds != w.diffs;
    }
  }

  /** Differences recorded for the first rows stay recorded: the loop only
      ever appends. */
  lemma {:induction false} ComparedGrows(actual: seq<string>, m: nat, n: nat, lines: seq<string>, faultAt: Option<nat>)
    requires m <= n <= |actual|
    ensures Compared(actual, m, lines, faultAt).diffs <= Compared(actual, n, lines, faultAt).diffs
    decreases n
  {
    if m < n {
      ComparedGrows(actual, m, n - 1, lines, faultAt);
    }
  }

  /** A file with fewer lines than there are rows, and no failing read:
      when the lines it has all match, the first difference is the first
      row past its end, shown against Java's "null". */
  lemma ShortFileShowsNull(actual: seq<string>, lines: seq<string>)
    requires |lines| < |actual| && lines == actual[..|lines|]
    ensures CompareDiffs(actual, lines, None) != []
    ensures CompareDiffs(actual, lines, None)[0] == RowMismatch(|lines| + 1, None, actual[|lines|])
    ensures DiffText(RowMismatch(|lines| + 1, None, actual[|lines|])) == MismatchText(|lines| + 1, "null", actual[|lines|])
  {
    var n := |lines|;
    assert AgreeUpTo(actual, lines, n);
    ComparedCleanIff(actual, n, lines, None);
    assert Compared(actual, n + 1, lines, None).diffs == [RowMismatch(n + 1, None, actual[n])];
    ComparedGrows(actual, n + 1, |actual|, lines, None);
  }

  /** One iteration of the loop, for the method below: after `n` rows
      recorded `ds`, the read for row `n` succeeds and delivers `expected`,
      and the loop goes on with `next`. */
  lemma CompareStep(actual: seq<string>, lines: seq<string>, faultAt: Option<nat>, n: nat, ds: seq<Diff>,
                    expected: Option<string>, next: seq<Diff>)
    requires n < |actual| && |ds| < MaxDiffs
    requires Compared(actual, n, lines, faultAt) == Walk(ds, false)
    requires faultAt != Some(ReadIndex(n, |lines|))
    requires expected == if n < |lines| then Some(lines[n]) else None
    requires next == if expected == Some(actual[n]) then ds else ds + [RowMismatch(n + 1, expected, actual[n])]
    ensures Compared(actual, n + 1, lines, faultAt) == Walk(next, false)
  {
  }

  /** The same iteration when the read for row `n` fails. */
  lemma CompareFault(actual: seq<string>, lines: seq<string>, faultAt: Option<nat>, n: nat, ds: seq<Diff>)
    requires n < |actual| && |ds| < MaxDiffs
    requires Compared(actual, n, lines, faultAt) == Walk(ds, false)
    requires faultAt == Some(ReadIndex(n, |lines|))
    ensures Compared(actual, n + 1, lines, faultAt) == Walk(ds + [FewerRows], true)
  {
  }

  /** Once the loop has stopped, later rows change nothing. */
  lemma {:induction false} CompareStops(actual: seq<string>, m: nat, n: nat, lines: seq<string>, faultAt: Option<nat>)
    requires m <= n <= |actual|
    requires Compared(actual, m, lines, faultAt).faulted || |Compared(actual, m, lines, faultAt).diffs| >= MaxDiffs
    ensures Compared(actual, n, lines, faultAt) == Compared(actual, m, lines, faultAt)
    decreases n
  {
    if m < n {
      CompareStops(actual, m, n - 1, lines, faultAt);
    }
  }

  /** The loop leaves after the last row or at ten differences; only then
      is unread content reported, and only when the rows ran out first. */
  lemma CompareEnd(actual: seq<string>, lines: seq<string>, faultAt: Option<nat>, n: nat, ds: seq<Diff>)
    requires n <= |actual| && (n == |actual| || |ds| >= MaxDiffs)
    requires Compared(actual, n, lines, faultAt) == Walk(ds, false)
    ensures CompareDiffs(actual, lines, faultAt) ==
            if |ds| < MaxDiffs && ReadIndex(n, |lines|) < |lines| then ds + [MoreRows] else ds
  {
    if n < |actual| {
      CompareStops(actual, n, |actual|, lines, faultAt);
    }
  }

  /** `actRow`: the cells of one row, each followed by "|". */
  method ActualRow(row: Row) returns (actRow: string)
    ensures actRow == RowLine(row)
  {
    actRow := "";
    for i := 0 to |row|
      invariant actRow == RowLine(row[..i])
    {
      assert row[..i + 1][..i] == row[..i];
      actRow := actRow + (NullableText(row[i]) + "|");
    }
    assert row[..|row|] == row;
  }

  /** Appends the text of one more difference to `diffs`. */
  method Record(numDiffs: int, diffs: string, ghost ds: seq<Diff>, d: Diff) returns (numDiffs': int, diffs': string)
    requires Reports(numDiffs, diffs, ds)
    ensures Reports(numDiffs', diffs', ds + [d])
  {
    DiffsTextSnoc(ds, d);
    numDiffs' := numDiffs + 1;
    diffs' := diffs + DiffText(d);
  }

  /** One pass of the lockstep loop: row `n` is rendered, the next line is
      read and a difference is recorded when they disagree, or "Fewer rows"
      when the read fails; the walk then covers `n + 1` rows. */
  method CompareNext(rows: seq<Row>, br: LineReader, n: nat, ghost ds: seq<Diff>, numDiffs: int, diffs: string)
    returns (ghost ds': seq<Diff>, numDiffs': int, diffs': string, faulted: bool)
    modifies br
    requires n < |rows| && |ds| < MaxDiffs
    requires br.next == ReadIndex(n, |br.lines|)
    requires Compared(RowLines(rows), n, br.lines, br.faultAt) == Walk(ds, false)
    requires Reports(numDiffs, diffs, ds)
    ensures Compared(RowLines(rows), n + 1, br.lines, br.faultAt) == Walk(ds', faulted)
    ensures !faulted ==> br.next == ReadIndex(n + 1, |br.lines|)
    ensures Reports(numDiffs', diffs', ds')
  {
    ghost var actual := RowLines(rows);
    var actRow := ActualRow(rows[n]);
    RowLinesAt(rows, n);
    var r := br.ReadLine();
    if r.Err? {
      CompareFault(actual, br.lines, br.faultAt, n, ds);
      numDiffs', diffs' := Record(numDiffs, diffs, ds, FewerRows);
      return ds + [FewerRows], numDiffs', diffs', true;
    }
    var expRow := r.value;
    ds', numDiffs', diffs', faulted := ds, numDiffs, diffs, false;
    if expRow != Some(actRow) {
      numDiffs', diffs' := Record(numDiffs, diffs, ds, RowMismatch(n + 1, expRow, actRow));
      ds' := ds + [RowMismatch(n + 1, expRow, actRow)];
    }
    CompareStep(actual, br.lines, br.faultAt, n, ds, expRow, ds');
  }

  /** The body of the comparison once the file is open: the lockstep
      loop, then the check for unread content; a failed read ends it with
      "Fewer rows". */
  method CompareRows(rows: seq<Row>, br: LineReader) returns (numDiffs: int, diffs: string)
    modifies br
    requires br.next == 0
    ensures Reports(numDiffs, diffs, CompareDiffs(RowLines(rows), br.lines, br.faultAt))
  {
    ghost var lines := br.lines;
    ghost var actual := RowLines(rows);
    ghost var ds: seq<Diff> := [];
    numDiffs := 0;
    diffs := "";
    var row := 0;
    while row < |rows| && numDiffs < MaxDiffs
      invariant row <= |rows| && br.lines == lines
      invariant br.next == ReadIndex(row, |lines|)
      invariant Compared(actual, row, lines, br.faultAt) == Walk(ds, false)
      invariant Reports(numDiffs, diffs, ds)
    {
      var faulted;
      ds, numDiffs, diffs, faulted := CompareNext(rows, br, row, ds, numDiffs, diffs);
      row := row + 1;
      if faulted {
        CompareStops(actual, row, |actual|, lines, br.faultAt);
        return;
      }
    }
    CompareEnd(actual, lines, br.faultAt, row, ds);
    if br.Ready() && numDiffs < MaxDiffs {
      numDiffs, diffs := Record(numDiffs, diffs, ds, MoreRows);
      ds := ds + [MoreRows];
    }
  }

  /** Compare Query Result To File: the query, the file, and a failure
      listing every recorded difference. */
  method CompareQueryResultToFile(conn: Connection, sql: string, file: File) returns (v: Verdict)
    modifies conn`trace
    ensures conn.trace == old(conn.trace) + [Exec(sql)]
    ensures v == CompareVerdict(conn.db.engine(old(conn.trace), sql), file)
  {
    var answer := conn.Execute(sql);
    if answer.Failed? {
      return InfraError(SqlError);
    }
    if answer.UpdateCount? {
      return InfraError(NullPointer);
    }
    if file.Missing? {
      return InfraError(FileNotFound);
    }
    var br := new LineReader(file.content, file.faultAt);
    var numDiffs, diffs := CompareRows(answer.result.rows, br);
    if numDiffs > 0 {
      return AssertFail(diffs);
    }
    return Pass;
  }

  /** Reading back a stored file line by line gives the row lines, as
      long as no cell holds a line terminator. */
  lemma StoredLines(rows: seq<Row>)
    requires PlainCells(rows)
    ensures Lines(Stored(rows)) == RowLines(rows)
  {
    var lines := RowLines(rows);
    StoredIsUnlines(rows);
    forall k | 0 <= k < |lines|
      ensures NoTerminator(lines[k])
    {
      assert forall j :: 0 <= j < |rows[k]| && rows[k][j].Some? ==> NoTerminator(rows[k][j].value);
      RowLineIsOneLine(rows[k]);
    }
    LinesOfUnlines(lines);
  }

  /** Round trip: comparing a result set with the file stored from it
      passes, whatever "|" the cells hold, as long as no cell holds a line
      terminator and no read fails. */
  lemma StoreThenCompare(t: Table, faultAt: Option<nat>)
    requires PlainCells(t.rows)
    requires faultAt.Some? ==> faultAt.value >= |t.rows|
    ensures StoreOutcome(ResultRows(t)).Ok?
    ensures CompareVerdict(ResultRows(t), Present(StoreOutcome(ResultRows(t)).value, faultAt)) == Pass
  {
    var stored := Stored(t.rows);
    var actual := RowLines(t.rows);
    assert StoreOutcome(ResultRows(t)) == Ok(stored);
    StoredLines(t.rows);
    ComparePassIff(actual, actual, faultAt);
    CleanComparePasses(t, stored, faultAt);
  }

  lemma CleanComparePasses(t: Table, content: string, faultAt: Option<nat>)
    requires CompareDiffs(RowLines(t.rows), Lines(content), faultAt) == []
    ensures CompareVerdict(ResultRows(t), Present(content, faultAt)) == Pass
  {
  }

  // ---------------------------------------------------------------------
  // Export and import

  /** The query Export Data From Table sends. */
  function ExportQuery(table: string, where: Option<string>): string
  {
    "Select * from " + table + WhereSuffix(where)
  }

  /** A child node of a `Row` element in the import file: only element
      nodes carry a value; text and comment nodes between them do not. */
  datatype Node = Element(text: string) | OtherNode

  /** The values `dataList` collects from a row's child nodes, in order. */
  function ElementTexts(nodes: seq<Node>): (r: seq<string>)
    ensures |r| <= |nodes|
  {
    if nodes == [] then []
    else ElementTexts(nodes[..|nodes| - 1]) + (if nodes[|nodes| - 1].Element? then [nodes[|nodes| - 1].text] else [])
  }

  /** `"('" + join(values, "', '") + "')"`. */
  function RowTuple(values: seq<string>): string
  {
    "('" + Join(values, "', '") + "')"
  }

  function RowTuples(rows: seq<seq<Node>>): (r: seq<string>)
    ensures |r| == |rows|
    ensures forall i :: 0 <= i < |rows| ==> r[i] == RowTuple(ElementTexts(rows[i]))
  {
    seq(|rows|, i requires 0 <= i < |rows| => RowTuple(ElementTexts(rows[i])))
  }

  /** The statement Import Data From File sends. */
  function InsertHead(table: string): string
  {
    "INSERT INTO " + table + " VALUES "
  }

  /** The statement Import Data From File sends: the fixed head, then one
      tuple per row, separated by ", ". */
  function InsertStatement(table: string, rows: seq<seq<Node>>): (r: string)
    ensures StartsWith(r, InsertHead(table))
    ensures rows == [] ==> r == InsertHead(table)
    ensures |rows| == 1 ==> r == InsertHead(table) + RowTuple(ElementTexts(rows[0]))
  {
    InsertHead(table) + Join(RowTuples(rows), ", ")
  }

  lemma {:induction false} JoinSnoc(parts: seq<string>, part: string, sep: string)
    requires parts != []
    ensures Join(parts + [part], sep) == Join(parts, sep) + sep + part
    decreases |parts|
  {
    if |parts| > 1 {
      assert (parts + [part])[1..] == parts[1..] + [part];
      JoinSnoc(parts[1..], part, sep);
    }
  }

  /** Each further row adds ", " and its tuple at the end, so the rows
      appear in file order; with no row at all the statement ends right
      after "VALUES ". */
  lemma InsertAppendsRow(table: string, rows: seq<seq<Node>>, row: seq<Node>)
    ensures InsertStatement(table, []) == "INSERT INTO " + table + " VALUES "
    ensures rows != [] ==>
              InsertStatement(table, rows + [row]) == InsertStatement(table, rows) + ", " + RowTuple(ElementTexts(row))
  {
    if rows != [] {
      var tuples := RowTuples(rows);
      var last := RowTuple(ElementTexts(row));
      assert RowTuples(rows + [row]) == tuples + [last];
      JoinSnoc(tuples, last, ", ");
      calc {
        InsertStatement(table, rows + [row]);
        InsertHead(table) + Join(tuples + [last], ", ");
        InsertHead(table) + (Join(tuples, ", ") + ", " + last);
        (InsertHead(table) + Join(tuples, ", ")) + ", " + last;
      }
    }
  }

  /** Import Data From File: the nested loops collecting values, one
      statement, and the number of rows it listed. */
  method ImportDataFromFile(conn: Connection, table: string, rows: seq<seq<Node>>) returns (r: Result<int>)
    modifies conn`trace
    ensures conn.trace == old(conn.trace) + [Exec(InsertStatement(table, rows))]
    ensures r.Ok? <==> !conn.db.engine(old(conn.trace), InsertStatement(table, rows)).Failed?
    ensures r.Err? ==> r.error == InfraError(SqlError)
    ensures r.Ok? ==> r.value == |rows|
  {
    var query := "INSERT INTO " + table + " VALUES ";
    var insertList: seq<string> := [];
    for rowIndex := 0 to |rows|
      invariant insertList == RowTuples(rows[..rowIndex])
    {
      var rowData := rows[rowIndex];
      var dataList: seq<string> := [];
      for dataIndex := 0 to |rowData|
        invariant dataList == ElementTexts(rowData[..dataIndex])
      {
        assert rowData[..dataIndex + 1][..dataIndex] == rowData[..dataIndex];
        if rowData[dataIndex].Element? {
          dataList := dataList + [rowData[dataIndex].text];
        }
      }
      assert rowData[..|rowData|] == rowData;
      insertList := insertList + ["('" + Join(dataList, "', '") + "')"];
      assert insertList == RowTuples(rows[..rowIndex + 1]);
    }
    assert rows[..|rows|] == rows;
    query := query + Join(insertList, ", ");
    var result := ExecuteSql(conn, query);
    if result.Err? {
      return Err(result.error);
    }
    return Ok(|insertList|);
  }

  predicate HasNull(data: seq<map<string, Cell>>)
  {
    exists k :: 0 <= k < |data| && None in data[k].Values
  }

  /** The outcome of Export Data From Table, apart from the XML written:
      the table must exist; a value that is SQL NULL makes `toString()`
      throw; otherwise the number of rows written. */
  function ExportOutcome(db: Database, before: seq<Event>, table: string, where: Option<string>): Result<int>
  {
    if table !in db.tables then Err(TableMustExist(db, table))
    else
      match SqlOutcome(db.engine(before, ExportQuery(table, where)))
      case Err(e) => Err(e)
      case Ok(data) => if HasNull(data) then Err(InfraError(NullPointer)) else Ok(|data|)
  }

  method ExportDataFromTable(conn: Connection, table: string, where: Option<string>) returns (r: Result<int>)
    modifies conn`trace
    ensures table in conn.db.tables ==> conn.trace == old(conn.trace) + [Exec(ExportQuery(table, where))]
    ensures table !in conn.db.tables ==> conn.trace == old(conn.trace)
    ensures r == ExportOutcome(conn.db, old(conn.trace), table, where)
    ensures table in conn.db.tables ==>
              var answer := conn.db.engine(old(conn.trace), ExportQuery(table, where));
              (answer.Failed? ==> r == Err(InfraError(SqlError)))
              && (answer.UpdateCount? ==> r == Ok(0))
              && (answer.ResultRows? && !HasNull(RowMaps(answer.result)) ==> r == Ok(|answer.result.rows|))
              && (answer.ResultRows? && HasNull(RowMaps(answer.result)) ==> r == Err(InfraError(NullPointer)))
  {
    var check := TableMustExist(conn.db, table);
    if check != Pass {
      return Err(check);
    }
    var query := "Select * from " + table;
    if where.Some? {
      query := query + " where " + where.value;
    }
    assert query == ExportQuery(table, where);
    var data := ExecuteSql(conn, query);
    if data.Err? {
      return Err(data.error);
    }
    r := WriteQueryResults(data.value);
  }

  /** The writer of the export file, apart from the XML: one `Row` element
      per map, and `toString()` on each value, which throws on SQL NULL. */
  method WriteQueryResults(data: seq<map<string, Cell>>) returns (r: Result<int>)
    ensures r.Ok? <==> forall k :: 0 <= k < |data| ==> None !in data[k].Values
    ensures r.Ok? ==> r.value == |data|
    ensures r.Err? ==> r.error == InfraError(NullPointer)
  {
    var rowNumber := 0;
    while rowNumber < |data|
      invariant rowNumber <= |data|
      invariant forall k :: 0 <= k < rowNumber ==> None !in data[k].Values
    {
      if None in data[rowNumber].Values {
        return Err(InfraError(NullPointer));
      }
      rowNumber := rowNumber + 1;
    }
    return Ok(rowNumber);
  }
}
