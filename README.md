# Robot Framework database keyword library, modelled in Dafny

The library offers Robot Framework keywords for checking the state of a
database over JDBC. This project models the verification logic behind those
keywords and proves what each keyword decides:

- the row counters, and the threshold checks built on them;
- the checks on the content of one row, the single-value reader and the
  row-must-not-exist check;
- the SQL script runner, with its line splitter and its two transaction
  modes;
- storing a query result to a golden file, and comparing a result with one;
- the statements that export and import data;
- the metadata keywords (transaction isolation level, primary-key columns);
- the alias registry that finds the connection, and the single connection
  slot of the monolithic library classes.

The same algorithms appear in three generations of the code: the split
keyword classes (`Assert`, `Query`, `FileHandling`, `DatabaseConnection`,
`Information`), a newer monolithic `DatabaseLibrary` and an older one. Each
algorithm is modelled once. The table cites the split class and names the
line ranges of the other copies. In the table, "newer copy" means
`src/main/java/com/github/hi_fi/dblibrary/keywords/DatabaseLibrary.java` and
"old copy" means `dblibrary/src/main/java/org/robot/database/keywords/DatabaseLibrary.java`.

## How the model is built

- **Database (`Jdbc`).** A database is a value holding:
  - tables, as column names plus rows, where a cell is `None` for SQL NULL;
  - whether `count(*)` is accepted;
  - the primary-key metadata;
  - the isolation code;
  - a predicate on where-clauses;
  - an engine that answers free-form SQL text.

  As the `ResultSet` getters do, `getString(label)` finds a column by its
  label without regard to letter case. A select list is accepted when each
  comma-separated name, without the blanks around it, labels a column up
  to case.
- **Connection (`Jdbc.Connection`).** A connection object keeps the
  auto-commit flag and an append-only trace of `SetAutoCommit`, `Exec`,
  `Commit` and `Rollback`. The engine answers in the light of the trace
  so far, so transactional effects stay observable without modelling SQL
  (sections 10.1 and 10.2 of the JDBC 4 specification).
- **Keyword outcomes.** A keyword ends with `Pass`, `AssertFail(msg)` (the
  library's own exception, with its exact message) or
  `InfraError(kind)` (an SQLException, IllegalStateException,
  FileNotFoundException, IOException, NumberFormatException,
  NullPointerException or ArrayIndexOutOfBoundsException that escapes).
- **Files (`TextFile`).** A file is either missing, or present with its
  text and, optionally, the read at which an IOException occurs.
  `readLine` splits lines at "\n", "\r" and "\r\n".
- **Java semantics written out.** `Long.valueOf`, `long` wrap-around, the
  text of a long, `trim`, `toLowerCase` on ASCII, `String.split` with its
  removal of trailing empty strings, and `null` printed as "null".

A keyword that loops, buffers, commits or rolls back is a method that does
what the Java method does, step by step. Its contract ties its result, and
the trace it leaves, to a specification function. A keyword that only reads
the database once and has no loop is modelled as a function over the
`Database` value, with no trace: `RowCount.TableMustExist`,
`RowContent.ReadSingleValueFromTable`, `RowContent.RowShouldNotExistInTable`,
`Metadata.IsolationVerdict` and `Metadata.IsolationName`. The lemmas then say
what those functions decide.

Some facts below are behaviour of the source that differs from what its
keyword documentation suggests:

- the primary-key reader returns only the last key column;
- the isolation check is case-sensitive;
- a comment line is any line starting with "rem", such as "REMOVE";
- a short golden file shows "exp: null" rather than "Fewer rows";
- with rowNum = Long.MAX_VALUE, the exact and more-than checks fail on a
  database without `count(*)`.

The model follows the code in each case.

## Model

| member | source | states |
|---|---|---|
| Common.WrapLong | src/main/java/com/github/hi_fi/dblibrary/keywords/Assert.java:44-69 | `rowNum + 1` in Java `long`: the result is in range, equals the exact sum when that is in range, and differs from it by a multiple of 2^64 |
| Common.ParseLong | src/main/java/com/github/hi_fi/dblibrary/keywords/Assert.java:31 | `Long.valueOf`: a parsed value is a `long` and comes from non-empty text |
| Common.ParseLongOfIntToString | src/main/java/com/github/hi_fi/dblibrary/keywords/Assert.java:63 | `Long.valueOf` reads back the decimal text of every `long` |
| Common.ToLower | src/main/java/com/github/hi_fi/dblibrary/keywords/Query.java:98 | `toLowerCase`: same length, each character lowered (ASCII letters) |
| Common.TrimBounds | src/main/java/com/github/hi_fi/dblibrary/keywords/Query.java:95 | `trim`: the result is a contiguous part of the line with no character at or below U+0020 at either end, and everything cut off is such a character |
| Common.TrimIsSlice | src/main/java/com/github/hi_fi/dblibrary/keywords/Query.java:95 | the trimmed line is the slice that starts after the leading characters up to U+0020, with no such character left at either end |
| Common.TrimTrailing | src/main/java/com/github/hi_fi/dblibrary/keywords/Query.java:95 | only characters up to U+0020 follow the part `trim` keeps |
| Common.DropTrailingEmpty | src/main/java/com/github/hi_fi/dblibrary/keywords/DatabaseConnection.java:118-119 | the removal `String.split` does: a prefix of the fields, not ending in an empty one, having dropped only empty ones |
| Common.JavaSplit | src/main/java/com/github/hi_fi/dblibrary/keywords/DatabaseConnection.java:118-119 | splitting at commas, and at pipe characters: no piece contains the separator |
| Common.JoinFields | src/main/java/com/github/hi_fi/dblibrary/keywords/DatabaseConnection.java:118-119 | joining the fields of a text with the separator gives the text back |
| TextFile.Lines | src/main/java/com/github/hi_fi/dblibrary/keywords/Query.java:94 | the lines `readLine` returns contain no terminator; there are none exactly when the file is empty |
| TextFile.LinesOfUnlines | src/main/java/com/github/hi_fi/dblibrary/keywords/FileHandling.java:186-192 | lines written each followed by "\n" are read back unchanged, provided none holds a terminator |
| TextFile.LinesOfOneLine | src/main/java/com/github/hi_fi/dblibrary/keywords/FileHandling.java:189-191 | a line without terminators followed by "\n" reads back as that line, then the lines of what follows |
| TextFile.LineReader.ReadLine | src/main/java/com/github/hi_fi/dblibrary/keywords/FileHandling.java:86 | the next line and one step on, `null` at the end without moving, or the IOException at the faulty read |
| TextFile.LineReader.constructor | src/main/java/com/github/hi_fi/dblibrary/keywords/FileHandling.java:74-75 | a new reader over the lines of the file, with nothing read yet |
| TextFile.LinesBeforeFault | src/main/java/com/github/hi_fi/dblibrary/keywords/Query.java:94-115 | the lines delivered before the end or a failed read: a prefix of the file, exactly as long as the fault position when a read fails, the whole file otherwise |
| Jdbc.Matching | src/main/java/com/github/hi_fi/dblibrary/keywords/Assert.java:154-157 | a where-clause selects only rows of the table that satisfy it, and keeps every satisfying row exactly as often as the table holds it |
| Jdbc.Select | src/main/java/com/github/hi_fi/dblibrary/keywords/Assert.java:153-162 | `select * from t [where w]` succeeds exactly when the table exists and the clause is accepted, keeps the table's columns, and without a clause returns the table itself; otherwise an SQLException |
| Jdbc.GetString | src/main/java/com/github/hi_fi/dblibrary/keywords/DatabaseConnection.java:133 | `getString(label)` succeeds exactly when some column carries the label, letter case ignored, and then reads the first such column; otherwise an SQLException |
| Jdbc.LabelFound | src/main/java/com/github/hi_fi/dblibrary/keywords/DatabaseConnection.java:133 | `getString` reads the first column whose label equals the given one up to case |
| Jdbc.LabelsIgnoreCase | src/main/java/com/github/hi_fi/dblibrary/keywords/DatabaseConnection.java:133 | two labels that differ only in letter case read the same cell |
| Jdbc.Connection.SetAutoCommit | src/main/java/com/github/hi_fi/dblibrary/keywords/Query.java:87 | sets the flag and records the call |
| Jdbc.Connection.Commit | src/main/java/com/github/hi_fi/dblibrary/keywords/Query.java:125 | records the commit |
| Jdbc.Connection.Rollback | src/main/java/com/github/hi_fi/dblibrary/keywords/Query.java:119 | records the rollback |
| Jdbc.Connection.Execute | src/main/java/com/github/hi_fi/dblibrary/keywords/Query.java:49 | `Statement.execute`: the engine's answer given the trace before, and the statement appended to the trace (also the whole of `executeSql` in the newer copy 545-553 and the old copy 691-699) |
| RowCount.ClampBounds | src/main/java/com/github/hi_fi/dblibrary/keywords/Assert.java:163-165 | the bounded scan counts at most the rows, exactly the rows when they do not exceed the limit, the limit when they reach it, and nothing for a limit of 0 or less |
| RowCount.GetNumberOfRows | src/main/java/com/github/hi_fi/dblibrary/keywords/Assert.java:128-173 | `count(*)` gives the exact count and ignores the limit; otherwise the scan loop gives min(rows, limit); an unknown table or rejected clause is an SQLException (newer copy 889-934, old copy 1029-1073) |
| RowCount.CheckThreshold | src/main/java/com/github/hi_fi/dblibrary/keywords/Assert.java:28-69 | the shared body of the threshold keywords: parse, count with the chosen limit, compare, and fail with the source's message |
| RowCount.ThresholdDecides | src/main/java/com/github/hi_fi/dblibrary/keywords/Assert.java:28-69 | each threshold check passes exactly when the true count is =, > or < rowNum, on either counting path, as long as rowNum + 1 does not overflow (newer copy 144-198, old copy 272-329) |
| RowCount.ThresholdVerdict | src/main/java/com/github/hi_fi/dblibrary/keywords/Assert.java:28-69 | a bad number is a NumberFormatException; once it parses, an unknown table or rejected clause is an SQLException and nothing else is an infrastructure error; when it passes is stated by RowCount.ThresholdDecides |
| RowCount.ThresholdMessageOnAggregatePath | src/main/java/com/github/hi_fi/dblibrary/keywords/Assert.java:34-35 | with `count(*)`, a failing check reports the true count in its message |
| RowCount.ThresholdOverflow | src/main/java/com/github/hi_fi/dblibrary/keywords/Assert.java:60-69 | rowNum = Long.MAX_VALUE wraps the limit to Long.MIN_VALUE, so without `count(*)` the exact and more-than checks fail, reporting 0 rows |
| RowCount.WrapLongPastMax | src/main/java/com/github/hi_fi/dblibrary/keywords/Assert.java:63-65 | `rowNum + 1` with rowNum = Long.MAX_VALUE is Long.MIN_VALUE |
| RowCount.TableMustContainNumberOfRows | src/main/java/com/github/hi_fi/dblibrary/keywords/Assert.java:60-69 | the exact check with limit rowNum + 1 (newer copy 144-153, old copy 272-282) |
| RowCount.TableMustContainMoreThanNumberOfRows | src/main/java/com/github/hi_fi/dblibrary/keywords/Assert.java:44-53 | the more-than check with limit rowNum + 1 (newer copy 166-175, old copy 295-305) |
| RowCount.TableMustContainLessThanNumberOfRows | src/main/java/com/github/hi_fi/dblibrary/keywords/Assert.java:28-37 | the less-than check with limit rowNum (newer copy 189-198, old copy 319-329) |
| RowCount.VerifyNumberOfRowsMatchingWhere | src/main/java/com/github/hi_fi/dblibrary/keywords/Assert.java:109-118 | the exact check over the rows the where-clause selects (newer copy 712-721, old copy 857-867) |
| RowCount.TableMustBeEmpty | src/main/java/com/github/hi_fi/dblibrary/keywords/Assert.java:19-21 | the exact check with "0"; passes exactly when the table exists and has no rows (newer copy 109-111, old copy 234-237) |
| RowCount.TablesMustContainSameAmountOfRows | src/main/java/com/github/hi_fi/dblibrary/keywords/Assert.java:74-84 | both tables counted with limit Long.MAX_VALUE, failing with the source's message when the counts differ (newer copy 210-220, old copy 341-355) |
| RowCount.SameAmountDecides | src/main/java/com/github/hi_fi/dblibrary/keywords/Assert.java:74-84 | for two existing tables, the check passes exactly when they hold equally many rows, on either counting path |
| RowCount.TableMustExist | src/main/java/com/github/hi_fi/dblibrary/keywords/Assert.java:90-101 | passes exactly when the catalog has the table, otherwise fails with "Table: t was not found" (newer copy 87-98, old copy 209-222) |
| RowContent.SelectColumns | src/main/java/com/github/hi_fi/dblibrary/keywords/DatabaseConnection.java:116-124 | `select <columns> from t [where w]` succeeds exactly when the select succeeds and every listed name, without the blanks around it, labels a column up to case |
| RowContent.ColumnListIgnoresCaseAndBlanks | src/main/java/com/github/hi_fi/dblibrary/keywords/DatabaseConnection.java:116-138 | on a table T(A, B) holding (X, Y), the list "a, B" is accepted; when Z and Y are expected, the check reports "Value found: 'X'. Expected: 'Z'"; when X and Y are expected, the untrimmed label " B" fails as an SQLException |
| RowContent.RowVerdictPassIff | src/main/java/com/github/hi_fi/dblibrary/keywords/DatabaseConnection.java:132-144 | the column loop passes exactly when every named column holds its expected value ("(NULL)" read as "") |
| RowContent.CellPassIff | src/main/java/com/github/hi_fi/dblibrary/keywords/DatabaseConnection.java:133-140 | one column passes exactly when its cell holds the expected value, "(NULL)" standing for "" |
| RowContent.FirstFailurePassIff | src/main/java/com/github/hi_fi/dblibrary/keywords/DatabaseConnection.java:132-144 | the column loop gets through without throwing exactly when every column passes |
| RowContent.FirstFailureIsFirst | src/main/java/com/github/hi_fi/dblibrary/keywords/DatabaseConnection.java:140-143 | a thrown difference is that of the first column that fails, every column before it passing |
| RowContent.FirstDifferenceReported | src/main/java/com/github/hi_fi/dblibrary/keywords/DatabaseConnection.java:132-144 | a failing row is reported by its first column that does not pass, all columns before it passing |
| RowContent.SentinelMatchesOnlyEmpty | src/main/java/com/github/hi_fi/dblibrary/keywords/DatabaseConnection.java:136-143 | "(NULL)" matches only an empty string; SQL NULL throws NullPointerException, and a cell holding the text "(NULL)" fails |
| RowContent.CompareRow | src/main/java/com/github/hi_fi/dblibrary/keywords/DatabaseConnection.java:132-144 | the column loop computes the row verdict |
| RowContent.CheckContentForRowIdentifiedByRownum | src/main/java/com/github/hi_fi/dblibrary/keywords/DatabaseConnection.java:111-159 | the rownum keyword: a NumberFormatException for a bad number, else the scan's verdict (newer copy 238-286, old copy 373-423) |
| RowContent.CheckRowAt | src/main/java/com/github/hi_fi/dblibrary/keywords/DatabaseConnection.java:121-152 | the counting loop stops at row n and compares it; the verdict is the rownum verdict |
| RowContent.RownumDecides | src/main/java/com/github/hi_fi/dblibrary/keywords/DatabaseConnection.java:111-159 | passes exactly when row n (1-based) exists and matches, or n = 0 on an empty result; any other n outside the result gives "Given rownum does not exist" |
| RowContent.CheckContentForRowIdentifiedByWhereClause | src/main/java/com/github/hi_fi/dblibrary/keywords/DatabaseConnection.java:174-225 | the where-clause keyword's loop: row 1 compared before row 2 is seen (newer copy 307-358, old copy 444-500) |
| RowContent.CheckRowsWhere | src/main/java/com/github/hi_fi/dblibrary/keywords/DatabaseConnection.java:187-218 | the scan compares the first row, fails at a second one, and reports "No row fetched" when there is none; its verdict is the where-clause verdict on the selected rows |
| RowContent.WhereDecides | src/main/java/com/github/hi_fi/dblibrary/keywords/DatabaseConnection.java:174-225 | passes exactly when one row matches and holds the expected values; a mismatch in row 1 is reported even when more rows match |
| RowContent.WhereVerdict | src/main/java/com/github/hi_fi/dblibrary/keywords/DatabaseConnection.java:174-225 | a rejected select is an SQLException, an empty result is "No row fetched by given where-clause", and a pass needs exactly one row (newer copy 307-358, old copy 444-500) |
| RowContent.ReadSingleValueFromTable | src/main/java/com/github/hi_fi/dblibrary/keywords/Query.java:196-221 | "" for no row, the cell (null for SQL NULL) for one; for more rows an SQLException when no column carries the label (the first row is read before the count is checked), otherwise "More than one value fetched" (same in DatabaseConnection.java 233-258, newer copy 372-397, old copy 513-538) |
| RowContent.ReadAgreesWithCheck | src/main/java/com/github/hi_fi/dblibrary/keywords/Query.java:196-221 | on one matching row, the where-clause check of one plain value passes exactly when the reader returns that value |
| RowContent.RowShouldNotExistInTable | src/main/java/com/github/hi_fi/dblibrary/keywords/DatabaseConnection.java:369-386 | passes exactly when the query succeeds with no row, else "Row exists (but should not) for where-clause: W in table: T" (newer copy 736-753, old copy 882-898) |
| RowContent.RowShouldNotExistIsZeroCount | src/main/java/com/github/hi_fi/dblibrary/keywords/DatabaseConnection.java:369-386 | the keyword passes exactly when counting the matching rows against "0" passes |
| SqlScript.IsComment | src/main/java/com/github/hi_fi/dblibrary/keywords/Query.java:98-103 | a trimmed line is skipped exactly when its first three characters are "rem" in any case, or it begins with "#" |
| SqlScript.SplitBounds | src/main/java/com/github/hi_fi/dblibrary/keywords/Query.java:94-115 | each line completes at most one statement, and the unsent buffer never ends with ";" |
| SqlScript.FeedKeepsText | src/main/java/com/github/hi_fi/dblibrary/keywords/Query.java:106-115 | one kept line grows the sent statements plus buffer by exactly that line, and the buffer never ends with ";" |
| SqlScript.AppendKeepsText | src/main/java/com/github/hi_fi/dblibrary/keywords/Query.java:106-115 | appending a kept line grows the sent statements plus buffer by exactly that line, and the buffer never ends with ";" |
| SqlScript.SentKeepsText | src/main/java/com/github/hi_fi/dblibrary/keywords/Query.java:110-114 | sending a buffer that ends with ";" moves its text, ";" included, into the statements |
| SqlScript.SplitReassembles | src/main/java/com/github/hi_fi/dblibrary/keywords/Query.java:94-115 | the statements, each with its ";", followed by the unsent buffer, spell out the trimmed non-comment lines joined without separator (newer copy 582-625, old copy 726-771) |
| SqlScript.CommentAddsNothing | src/main/java/com/github/hi_fi/dblibrary/keywords/Query.java:98-103 | a line whose trimmed text starts with "rem" (any case) or "#" changes nothing |
| SqlScript.RemPrefixIsComment | src/main/java/com/github/hi_fi/dblibrary/keywords/Query.java:98-103 | "REMOVE", "remark" and "# note" are comments; "select 1;" is not |
| SqlScript.StatementsGrow | src/main/java/com/github/hi_fi/dblibrary/keywords/Query.java:94-115 | reading more lines only appends statements |
| SqlScript.FailFastStopsAtFirstFailure | src/main/java/com/github/hi_fi/dblibrary/keywords/Query.java:104-122 | statements are sent in order up to and including the first failing one, and none after it |
| SqlScript.StoppedStays | src/main/java/com/github/hi_fi/dblibrary/keywords/Query.java:116-122 | after a failure, further statements change nothing |
| SqlScript.FailFastRollbackTrace | src/main/java/com/github/hi_fi/dblibrary/keywords/Query.java:116-122 | on a failure: auto-commit off, the statements through the failing one, Rollback, SetAutoCommit(true), no Commit, and a message naming no statement (newer copy 613-619, old copy 758-764) |
| SqlScript.FailFastCommitTrace | src/main/java/com/github/hi_fi/dblibrary/keywords/Query.java:85-128 | with no failure: auto-commit off, every statement once in order, Commit, SetAutoCommit(true); trailing text without ";" is never sent |
| SqlScript.FailFastFaultTrace | src/main/java/com/github/hi_fi/dblibrary/keywords/Query.java:85-128 | a failed read leaves the statements sent, neither committed nor rolled back, and auto-commit off |
| SqlScript.IgnoreErrorsTrace | src/main/java/com/github/hi_fi/dblibrary/keywords/Query.java:146-188 | the trace of the outcome function IgnoreErrorsOutcome: every statement is sent whatever the engine answers, then exactly one Commit; the loop in ReadScriptIgnoringErrors leaves that trace (newer copy 654-696, old copy 798-841) |
| SqlScript.FailureExit | src/main/java/com/github/hi_fi/dblibrary/keywords/Query.java:116-122 | once a statement fails, whatever the file holds after it is never read or sent |
| SqlScript.SendLineFailFast | src/main/java/com/github/hi_fi/dblibrary/keywords/Query.java:95-122 | one line of the fail-fast loop: the splitter's step, and the statement sent when the buffer ends with ";" |
| SqlScript.AppendLineFailFast | src/main/java/com/github/hi_fi/dblibrary/keywords/Query.java:106-122 | a kept line in fail-fast mode: the splitter's append, the statement sent when the buffer ends with ";", and the run stopped when that statement fails |
| SqlScript.ReadScriptFailFast | src/main/java/com/github/hi_fi/dblibrary/keywords/Query.java:94-123 | the reading loop stops at the end of the file, at a read that throws, or at the first failing statement; the trace is then the fail-fast run of the statements of the lines read |
| SqlScript.ExecuteSqlFromFile | src/main/java/com/github/hi_fi/dblibrary/keywords/Query.java:85-128 | the keyword's verdict, final trace and auto-commit mode are the fail-fast outcome of the file (a missing file is found after auto-commit is switched off) |
| SqlScript.SendLine | src/main/java/com/github/hi_fi/dblibrary/keywords/Query.java:157-183 | one line of the ignore-errors loop |
| SqlScript.AppendLine | src/main/java/com/github/hi_fi/dblibrary/keywords/Query.java:168-182 | a kept line in ignore-errors mode: the statement is sent whatever the engine answers |
| SqlScript.ReadScriptIgnoringErrors | src/main/java/com/github/hi_fi/dblibrary/keywords/Query.java:156-183 | the reading loop sends every statement of the lines read, and stops only at the end of the file or at a read that throws |
| SqlScript.ExecuteSqlFromFileIgnoreErrors | src/main/java/com/github/hi_fi/dblibrary/keywords/Query.java:146-188 | the keyword's verdict, trace and auto-commit mode are the ignore-errors outcome of the file |
| SqlScript.RowMapContents | src/main/java/com/github/hi_fi/dblibrary/keywords/Query.java:54-59 | a row's map has exactly the column names as keys, each mapped to the value of its last occurrence |
| SqlScript.RowMapKeys | src/main/java/com/github/hi_fi/dblibrary/keywords/Query.java:55-58 | the keys of a row's map are exactly the column names |
| SqlScript.RowMapAt | src/main/java/com/github/hi_fi/dblibrary/keywords/Query.java:57 | a later column of the same name replaces an earlier one |
| SqlScript.RowToMap | src/main/java/com/github/hi_fi/dblibrary/keywords/Query.java:55-58 | the `put` loop builds the row map |
| SqlScript.RowMaps | src/main/java/com/github/hi_fi/dblibrary/keywords/Query.java:54-60 | one map per result row, in order |
| SqlScript.ExecuteSql | src/main/java/com/github/hi_fi/dblibrary/keywords/Query.java:45-67 | sends the statement; a result set becomes one map per row, no result set an empty list, a failure an SQLException |
| SqlScript.DeleteAllRowsFromTable | src/main/java/com/github/hi_fi/dblibrary/keywords/Query.java:28-37 | sends "delete from t"; passes exactly when the engine accepts it (same in DatabaseConnection.java 89-98, newer copy 123-132, old copy 250-259) |
| ResultFile.StoredIsUnlines | src/main/java/com/github/hi_fi/dblibrary/keywords/FileHandling.java:186-192 | the stored file is the row lines, each followed by "\n" |
| ResultFile.RowLineIsOneLine | src/main/java/com/github/hi_fi/dblibrary/keywords/FileHandling.java:188-189 | a row whose cells hold no terminator is stored on one line ("null" and the pipe character add none) |
| ResultFile.RowLinesAt | src/main/java/com/github/hi_fi/dblibrary/keywords/FileHandling.java:81-85 | the line compared for row i is the `actRow` of row i |
| ResultFile.StoreQueryResultToFile | src/main/java/com/github/hi_fi/dblibrary/keywords/FileHandling.java:176-199 | the writer loops write each cell's text and the pipe character, then "\n", per row; a statement without result set throws NullPointerException (same in DatabaseConnection.java 396-419, newer copy 771-794, old copy 914-936) |
| ResultFile.WriteRow | src/main/java/com/github/hi_fi/dblibrary/keywords/FileHandling.java:187-190 | the inner writer loop appends each cell's text and the pipe character to what was written |
| ResultFile.ComparedShape | src/main/java/com/github/hi_fi/dblibrary/keywords/FileHandling.java:80-101 | the loop records at most 10 differences, with 1-based strictly increasing row numbers; "Fewer rows" comes last and only from a read that fails |
| ResultFile.ComparedCleanIff | src/main/java/com/github/hi_fi/dblibrary/keywords/FileHandling.java:80-91 | the loop records nothing exactly when the row lines so far are the first lines of the file and no read failed |
| ResultFile.ComparePassIff | src/main/java/com/github/hi_fi/dblibrary/keywords/FileHandling.java:80-95 | no difference exactly when the file holds the row lines and nothing more, and no read fails |
| ResultFile.CompareCapped | src/main/java/com/github/hi_fi/dblibrary/keywords/FileHandling.java:67-101 | at most 10 differences in row order; "Fewer rows" only when a read fails, "More rows" only when rows ran out before the file did |
| ResultFile.ComparedGrows | src/main/java/com/github/hi_fi/dblibrary/keywords/FileHandling.java:80-91 | the loop only appends differences |
| ResultFile.ShortFileShowsNull | src/main/java/com/github/hi_fi/dblibrary/keywords/FileHandling.java:86-89 | a file that is a proper prefix of the rows gives "Row n does not match:\nexp: null\nact: ..." for the first missing row, not "Fewer rows" |
| ResultFile.ActualRow | src/main/java/com/github/hi_fi/dblibrary/keywords/FileHandling.java:81-85 | `actRow`: each cell's text followed by the pipe character |
| ResultFile.Record | src/main/java/com/github/hi_fi/dblibrary/keywords/FileHandling.java:88-89 | `numDiffs` and `diffs` grow by one entry and its text, so they stay the count and the text of the recorded differences |
| ResultFile.CompareNext | src/main/java/com/github/hi_fi/dblibrary/keywords/FileHandling.java:81-90 | one pass of the loop: row n rendered, one line read, a mismatch recorded, or "Fewer rows" when the read throws; the result is the specified walk over one more row |
| ResultFile.CompareStops | src/main/java/com/github/hi_fi/dblibrary/keywords/FileHandling.java:80 | once ten differences are recorded or a read has failed, later rows change nothing |
| ResultFile.CompareEnd | src/main/java/com/github/hi_fi/dblibrary/keywords/FileHandling.java:92-95 | after the loop, "More rows" is added exactly when fewer than ten differences were recorded and the file has unread lines |
| ResultFile.CompareRows | src/main/java/com/github/hi_fi/dblibrary/keywords/FileHandling.java:79-101 | the lockstep loop and the check for unread content: `numDiffs` and `diffs` are the count and text of the specified differences |
| ResultFile.CompareQueryResultToFile | src/main/java/com/github/hi_fi/dblibrary/keywords/FileHandling.java:62-109 | the keyword's verdict; a missing file is a FileNotFoundException, not a difference (newer copy 817-864, old copy 958-1002) |
| ResultFile.CompareVerdict | src/main/java/com/github/hi_fi/dblibrary/keywords/FileHandling.java:62-109 | passes exactly when the query has a result set, the file exists, holds exactly the row lines and reads without fault; an infrastructure error exactly when there is no result set or no file |
| ResultFile.StoredLines | src/main/java/com/github/hi_fi/dblibrary/keywords/FileHandling.java:186-192 | reading a stored file line by line gives the row lines, when no cell holds a line terminator |
| ResultFile.StoreThenCompare | src/main/java/com/github/hi_fi/dblibrary/keywords/FileHandling.java:81-92 | comparing a result with the file stored from it passes, whatever the pipe character the cells hold |
| ResultFile.InsertStatement | src/main/java/com/github/hi_fi/dblibrary/keywords/FileHandling.java:151-163 | the statement starts with "INSERT INTO t VALUES "; with no row that is all of it, and with one row it is followed by that row's tuple |
| ResultFile.InsertAppendsRow | src/main/java/com/github/hi_fi/dblibrary/keywords/FileHandling.java:151-163 | "INSERT INTO t VALUES " then the row tuples joined with ", ", in file order; a tuple is "('" + values joined by "', '" + "')" |
| ResultFile.ImportDataFromFile | src/main/java/com/github/hi_fi/dblibrary/keywords/FileHandling.java:147-166 | the nested loops build that statement from the element children of each Row; it is sent once and the count of Row elements returned |
| ResultFile.ExportDataFromTable | src/main/java/com/github/hi_fi/dblibrary/keywords/FileHandling.java:124-134 | table must exist, then "Select * from t [where w]" is sent; a rejected query is an SQLException, a statement without result set exports no row, a NULL value throws NullPointerException, and otherwise every row of the result is exported |
| ResultFile.WriteQueryResults | src/main/java/com/github/hi_fi/dblibrary/keywords/FileHandling.java:219-239 | succeeds exactly when no value is SQL NULL and returns the number of rows; otherwise a NullPointerException |
| Metadata.IsolationName | src/main/java/com/github/hi_fi/dblibrary/keywords/Information.java:48-78 | the five listed codes get one of the five constant names, and every other code gets "" |
| Metadata.IsolationCode | src/main/java/com/github/hi_fi/dblibrary/keywords/Information.java:54-75 | the inverse of the name mapping: defined exactly on the five names, giving one of the five codes |
| Metadata.IsolationNameRoundTrip | src/main/java/com/github/hi_fi/dblibrary/keywords/Information.java:48-78 | codes 0/1/2/4/8 get their "TRANSACTION_*" name and read back as themselves; every other code gets "" (DatabaseConnection.java 284-314, newer copy 435-465, old copy 579-609) |
| Metadata.IsolationCodeRoundTrip | src/main/java/com/github/hi_fi/dblibrary/keywords/Information.java:54-75 | every one of the five names is the name of its code |
| Metadata.IsolationNameInjective | src/main/java/com/github/hi_fi/dblibrary/keywords/Information.java:54-75 | no two codes share a non-empty name |
| Metadata.IsolationVerdict | src/main/java/com/github/hi_fi/dblibrary/keywords/DatabaseConnection.java:267-276 | exact equality with the reported name, else "Expected Transaction Isolation Level: L Level found: N" (newer copy 413-422, old copy 554-565) |
| Metadata.IsolationVerdictPasses | src/main/java/com/github/hi_fi/dblibrary/keywords/DatabaseConnection.java:267-276 | passes only for the name of the connection's code, or "" for an unlisted code; a lower-case name never passes |
| Metadata.GetPrimaryKeyColumnsForTable | src/main/java/com/github/hi_fi/dblibrary/keywords/Information.java:20-40 | the loop overwrites, so the result is the last key column, its "," removed; "" when there are no keys (DatabaseConnection.java 341-361, newer copy 509-529, old copy 654-675) |
| Metadata.KeyTextIsNotTheList | src/main/java/com/github/hi_fi/dblibrary/keywords/Information.java:27-29 | with two or more key columns, the result is never their comma-joined list |
| Metadata.KeyVerdict | src/main/java/com/github/hi_fi/dblibrary/keywords/DatabaseConnection.java:323-334 | passes exactly when both sides agree after lower-casing, else "Given column list: c Keys found: k" with both lower-cased (newer copy 483-494, old copy 627-639) |
| Metadata.CheckPrimaryKeyColumnsForTable | src/main/java/com/github/hi_fi/dblibrary/keywords/DatabaseConnection.java:323-334 | the keyword's verdict is the check on the table's key metadata |
| Metadata.KeyVerdictRejectsList | src/main/java/com/github/hi_fi/dblibrary/keywords/DatabaseConnection.java:323-334 | a table with two or more key columns fails the check against their full comma-separated list |
| Registry.Lookup | src/main/java/com/github/hi_fi/dblibrary/keywords/DatabaseConnection.java:430-436 | `getConnection(alias)` returns the alias's connection, and throws IllegalStateException exactly when the alias is absent |
| Registry.Connected | src/main/java/com/github/hi_fi/dblibrary/keywords/DatabaseConnection.java:421-424 | the alias now names the new connection, replacing any old one, and becomes current; other aliases are unchanged |
| Registry.Activated | src/main/java/com/github/hi_fi/dblibrary/keywords/DatabaseConnection.java:35-43 | an open alias becomes current with the map unchanged; an unknown one throws IllegalStateException |
| Registry.Disconnected | src/main/java/com/github/hi_fi/dblibrary/keywords/DatabaseConnection.java:70-81 | only the given alias is removed; the current alias is cleared only if it was that alias; an unknown alias throws first; the invariant is kept |
| Registry.RunKeepsValid | src/main/java/com/github/hi_fi/dblibrary/keywords/DatabaseConnection.java:35-81 | after any sequence of connects, activations and disconnects, failed ones included, the current alias is "" or names an open connection |
| Registry.AliasRegistry.constructor | src/main/java/com/github/hi_fi/dblibrary/keywords/DatabaseConnection.java:23-26 | no connection and no current alias at start |
| Registry.AliasRegistry.ConnectToDatabase | src/main/java/com/github/hi_fi/dblibrary/keywords/DatabaseConnection.java:57-63 | with alias "default" unless one is given, the registry becomes `Connected` |
| Registry.AliasRegistry.ActivateDatabaseConnection | src/main/java/com/github/hi_fi/dblibrary/keywords/DatabaseConnection.java:35-43 | the registry becomes `Activated`, or is left unchanged with the IllegalStateException |
| Registry.AliasRegistry.GetConnection | src/main/java/com/github/hi_fi/dblibrary/keywords/DatabaseConnection.java:430-436 | the lookup in the current state |
| Registry.AliasRegistry.GetCurrentConnection | src/main/java/com/github/hi_fi/dblibrary/keywords/DatabaseConnection.java:426-428 | the current alias's connection; in a valid registry it never fails while an alias is current |
| Registry.AliasRegistry.DisconnectFromDatabase | src/main/java/com/github/hi_fi/dblibrary/keywords/DatabaseConnection.java:70-81 | the registry becomes `Disconnected`, or is left unchanged with the IllegalStateException |
| Registry.ConnectionSlot.constructor | src/main/java/com/github/hi_fi/dblibrary/keywords/DatabaseLibrary.java:29 | the slot starts empty (old copy 76) |
| Registry.ConnectionSlot.ConnectToDatabase | src/main/java/com/github/hi_fi/dblibrary/keywords/DatabaseLibrary.java:61-66 | the slot holds the new connection (old copy 172-180) |
| Registry.ConnectionSlot.GetConnection | src/main/java/com/github/hi_fi/dblibrary/keywords/DatabaseLibrary.java:870-875 | the slot's connection, or IllegalStateException exactly when it is empty (old copy 1010-1015) |
| Registry.ConnectionSlot.DisconnectFromDatabase | src/main/java/com/github/hi_fi/dblibrary/keywords/DatabaseLibrary.java:72-76 | fails on an empty slot; otherwise the newer copy empties the slot and the old copy (190-194) leaves it as it was |
| Registry.SlotStaysFilled | dblibrary/src/main/java/org/robot/database/keywords/DatabaseLibrary.java:190-194 | in the old copy a slot once filled is never empty again, so "No connection open" is raised only before the first connect; in the newer copy a disconnect empties it |

## Left out

- Opening a connection (driver loading, `DriverManager`, its failures): the open connection is a parameter.
- Closing statements, result sets, readers, writers and connections, and the SQL warnings logged on disconnect.
- All `System.out` logging, including the statements ignore-errors mode logs when they fail.
- The real SQL engine: free-form statements are answered by an uninterpreted function of the trace and the text; whether DDL is transactional is not modelled.
- Queries the counting, row-content, single-value, metadata and table-existence keywords send are answered from the fixed tables and are not recorded in the trace.
- Whether `count(*)` works is a property of the database, not of each statement; its `getLong` conversion is taken to give the exact count.
- A failure partway through a result set (`rs.next()` throwing) is not modelled: every result is complete.
- Faults while writing a file, and an IOException from `BufferedReader.ready()`; only read faults are modelled.
- `getTables` name patterns (LIKE wildcards, case rules of the catalog): table existence is exact membership.
- `toLowerCase` beyond ASCII letters, and locale rules; the same goes for the case-insensitive matching of column labels.
- Select lists other than plain column names (`*`, expressions, aliases, quoted identifiers, which SQL matches case-sensitively): each comma-separated name is looked up as a column label. Which characters SQL treats as blanks around a name is taken to be those `trim` removes.
- Typed values from `getObject`: the maps of Execute Sql hold each cell's text, or nothing for SQL NULL.
- XML parsing of the import file and the XML written by export: import takes each Row element's child nodes, and its table attribute, as parameters. Export's outcome is modelled, but not the document it writes.
- Element names invalid in XML, which make the export writer throw.
- "(NULL)" is written back into the values array in place; the model computes the replaced value instead, which is observably the same because each index is read once.
- Row counts at or beyond 2^63, and more than 2^31 rows in a golden-file comparison, where the source's counters would overflow.
- The remote server, reflection-based keyword registration, keyword documentation strings, and the exception class (an error variant instead).
- The connection map of the split library is static, shared by every instance; the model has one registry object.
- Common.ParseLong: its contract states only that the value is a `long` from non-empty text. The digit grammar is in its body, and the round trip with the text of a long is a separate lemma. Only the ASCII digits '0' to '9' are accepted, where `Long.valueOf` also accepts every other Unicode decimal digit (through `Character.digit`); such text is a NumberFormatException in the model.
