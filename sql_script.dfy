/** Running SQL: a single statement, `delete from`, and scripts read from
    a file.

    A script is split into statements line by line: each line is trimmed;
    a line starting with "rem" (any case) or "#" is dropped; any other line
    is appended to a buffer with no separator, and when the buffer ends
    with ";" it is sent without that ";" and the buffer is emptied. Text
    after the last ";" is never sent. Auto-commit is switched off first. In
    fail-fast mode the first failing statement rolls the transaction back;
    in ignore-errors mode every statement is sent and the work is committed
    at the end. */
module SqlScript {
  import opened Common
  import opened Jdbc
  import opened TextFile

  // ---------------------------------------------------------------------
  // Splitting lines into statements

  /** A trimmed line that the script reader skips: it begins with "rem"
      in any case, or with "#". */
  predicate IsComment(line: string)
    ensures IsComment(line) <==>
              (|line| >= 3 && LowerChar(line[0]) == 'r' && LowerChar(line[1]) == 'e' && LowerChar(line[2]) == 'm')
              || (|line| > 0 && line[0] == '#')
  {
    assert |line| >= 3 ==> ToLower(line)[..3] == [LowerChar(line[0]), LowerChar(line[1]), LowerChar(line[2])];

    StartsWith(ToLower(line), "rem") || StartsWith(line, "#")
  }

  datatype Splitter = Splitter(statements: seq<string>, buffer: string)

  /** One line of the reading loop: the line is trimmed first. */
  function Feed(sp: Splitter, rawLine: string): Splitter
  {
    FeedTrimmed(sp, Trim(rawLine))
  }

  function FeedTrimmed(sp: Splitter, line: string): Splitter
  {
    if IsComment(line) then sp else Append(sp, line)
  }

  /** A line that is not a comment: append it, and send the buffer when
      it then ends with ";". */
  function Append(sp: Splitter, line: string): Splitter
  {
    var sql := sp.buffer + line;
    if EndsWith(sql, ";") then Splitter(sp.statements + [sql[..|sql| - 1]], "")
    else Splitter(sp.statements, sql)
  }

  /** The splitter after reading `lines`. */
  function Split(lines: seq<string>): Splitter
  {
    if lines == [] then Splitter([], "") else Feed(Split(lines[..|lines| - 1]), lines[|lines| - 1])
  }

  /** Each line completes at most one statement, and the buffer never ends
      with ";" (it would have been sent). */
  lemma {:induction false} SplitBounds(lines: seq<string>)
    ensures |Split(lines).statements| <= |lines|
    ensures !EndsWith(Split(lines).buffer, ";")
  {
    if lines != [] {
      SplitBounds(lines[..|lines| - 1]);
    }
  }

  function Statements(lines: seq<string>): seq<string> { Split(lines).statements }

  /** The trimmed lines that are not comments, in order. */
  function Kept(lines: seq<string>): seq<string>
  {
    if lines == [] then []
    else
      var line := Trim(lines[|lines| - 1]);
      Kept(lines[..|lines| - 1]) + (if IsComment(line) then [] else [line])
  }

  /** Each statement followed by the ";" that ended it. */
  function Terminated(statements: seq<string>): string
  {
    if statements == [] then ""
    else Terminated(statements[..|statements| - 1]) + statements[|statements| - 1] + ";"
  }

  lemma ConcatSnoc(parts: seq<string>, part: string)
    ensures Concat(parts + [part]) == Concat(parts) + part
  {
    assert (parts + [part])[..|parts|] == parts;
  }

  lemma TerminatedSnoc(statements: seq<string>, s: string)
    ensures Terminated(statements + [s]) == Terminated(statements) + s + ";"
  {
    assert (statements + [s])[..|statements|] == statements;
  }

  /** The splitter's bookkeeping survives one line: what it holds grows by
      exactly the kept line, and a non-empty buffer never ends with ";". */
  lemma FeedKeepsText(sp: Splitter, line: string)
    requires !EndsWith(sp.buffer, ";")
    ensures Terminated(FeedTrimmed(sp, line).statements) + FeedTrimmed(sp, line).buffer
              == Terminated(sp.statements) + sp.buffer + (if IsComment(line) then "" else line)
    ensures !EndsWith(FeedTrimmed(sp, line).buffer, ";")
  {
    if IsComment(line) {
      assert Terminated(sp.statements) + sp.buffer + "" == Terminated(sp.statements) + sp.buffer;
    } else {
      AppendKeepsText(sp, line);
    }
  }

  /** The same for a line that is appended. */
  lemma AppendKeepsText(sp: Splitter, line: string)
    requires !EndsWith(sp.buffer, ";")
    ensures Terminated(Append(sp, line).statements) + Append(sp, line).buffer
              == Terminated(sp.statements) + sp.buffer + line
    ensures !EndsWith(Append(sp, line).buffer, ";")
  {
    var sql := sp.buffer + line;
    var before := Terminated(sp.statements);
    if EndsWith(sql, ";") {
      SentKeepsText(sp.statements, sql);
      assert before + sql + "" == before + sp.buffer + line;
    } else {
      assert before + sql == before + sp.buffer + line;
    }
  }

  /** Sending a buffer that ends with ";" moves its text, ";" included, to
      the statements. */
  lemma SentKeepsText(statements: seq<string>, sql: string)
    requires EndsWith(sql, ";")
    ensures Terminated(statements + [sql[..|sql| - 1]]) == Terminated(statements) + sql
  {
    var s := sql[..|sql| - 1];
    TerminatedSnoc(statements, s);
    assert sql == s + ";";
  }

  /** Nothing is lost or invented: the statements, each with its ";", and
      the unsent buffer spell out the kept lines joined without separator;
      and the buffer never ends with ";". */
  lemma {:induction false} SplitReassembles(lines: seq<string>)
    ensures Terminated(Statements(lines)) + Split(lines).buffer == Concat(Kept(lines))
    ensures !EndsWith(Split(lines).buffer, ";")
  {
    if lines != [] {
      var init := lines[..|lines| - 1];
      var raw := lines[|lines| - 1];
      var line := Trim(raw);
      SplitReassembles(init);
      FeedKeepsText(Split(init), line);
      if !IsComment(line) {
        assert Kept(lines) == Kept(init) + [line];
        ConcatSnoc(Kept(init), line);
      } else {
        assert Kept(lines) == Kept(init);
      }
    }
  }

  /** A comment line, such as "REMOVE" or "remark", adds nothing. */
  lemma CommentAddsNothing(lines: seq<string>, line: string)
    requires IsComment(Trim(line))
    ensures Split(lines + [line]) == Split(lines)
  {
    assert (lines + [line])[..|lines|] == lines;
  }

  /** Any line whose first three letters spell "rem" in any case, such as
      "REMOVE" or "remark", is skipped; a line whose first character is
      neither "#" nor an r is kept. */
  lemma RemPrefixIsComment(line: string)
    ensures (|line| >= 3 && LowerChar(line[0]) == 'r' && LowerChar(line[1]) == 'e'
             && LowerChar(line[2]) == 'm') ==> IsComment(line)
    ensures |line| > 0 && LowerChar(line[0]) != 'r' && line[0] != '#' ==> !IsComment(line)
  {
    if |line| >= 3 && LowerChar(line[0]) == 'r' && LowerChar(line[1]) == 'e' && LowerChar(line[2]) == 'm' {
      assert ToLower(line)[..3] == "rem";
    }
  }

  /** Reading more lines only adds statements at the end. */
  lemma {:induction false} StatementsGrow(lines: seq<string>, n: nat)
    requires n <= |lines|
    ensures Statements(lines[..n]) <= Statements(lines)
    decreases |lines|
  {
    if n < |lines| {
      var init := lines[..|lines| - 1];
      StatementsGrow(init, n);
      assert init[..n] == lines[..n];
    } else {
      assert lines[..n] == lines;
    }
  }

  // ---------------------------------------------------------------------
  // Running statements

  function Execs(statements: seq<string>): (r: seq<Event>)
    ensures |r| == |statements|
    ensures forall i :: 0 <= i < |r| ==> r[i] == Exec(statements[i])
  {
    if statements == [] then [] else Execs(statements[..|statements| - 1]) + [Exec(statements[|statements| - 1])]
  }

  datatype Run = Running(trace: seq<Event>) | Stopped(trace: seq<Event>)

  /** Sending statements in order until one fails. */
  function FailFast(engine: (seq<Event>, string) -> StatementResult, start: seq<Event>, statements: seq<string>): Run
  {
    if statements == [] then Running(start)
    else
      match FailFast(engine, start, statements[..|statements| - 1])
      case Stopped(t) => Stopped(t)
      case Running(t) =>
        var s := statements[|statements| - 1];
        if engine(t, s).Failed? then Stopped(t + [Exec(s)]) else Running(t + [Exec(s)])
  }

  /** Statement `j` fails when sent after the ones before it. */
  predicate FailsAt(engine: (seq<Event>, string) -> StatementResult, start: seq<Event>, statements: seq<string>, j: nat)
    requires j < |statements|
  {
    engine(start + Execs(statements[..j]), statements[j]).Failed?
  }

  /** No statement before `j` fails. */
  predicate NoneFailsBefore(engine: (seq<Event>, string) -> StatementResult, start: seq<Event>, statements: seq<string>, j: nat)
    requires j <= |statements|
  {
    forall i :: 0 <= i < j ==> !FailsAt(engine, start, statements, i)
  }

  /** Fail-fast sends exactly the statements up to and including the first
      failing one: when none fails, all are sent; when statement `j` fails,
      those before it succeeded and none after it is sent. */
  lemma {:induction false} FailFastStopsAtFirstFailure(engine: (seq<Event>, string) -> StatementResult,
                                                       start: seq<Event>, statements: seq<string>)
    ensures FailFast(engine, start, statements).Running? ==>
              FailFast(engine, start, statements).trace == start + Execs(statements)
              && NoneFailsBefore(engine, start, statements, |statements|)
    ensures FailFast(engine, start, statements).Stopped? ==>
              exists j :: 0 <= j < |statements| && FailsAt(engine, start, statements, j)
                && NoneFailsBefore(engine, start, statements, j)
                && FailFast(engine, start, statements).trace == start + Execs(statements[..j + 1])
  {
    if statements != [] {
      var init := statements[..|statements| - 1];
      FailFastStopsAtFirstFailure(engine, start, init);
      if FailFast(engine, start, init).Stopped? {
        var j :| 0 <= j < |init| && FailsAt(engine, start, init, j)
                 && NoneFailsBefore(engine, start, init, j)
                 && FailFast(engine, start, init).trace == start + Execs(init[..j + 1]);
        StoppedBefore(engine, start, statements, j);
      } else {
        RunningBefore(engine, start, statements);
      }
    }
  }

  /** A statement's failure depends only on the statements before it. */
  lemma FailsAtPrefix(engine: (seq<Event>, string) -> StatementResult, start: seq<Event>,
                      statements: seq<string>, i: nat, m: nat)
    requires i < m <= |statements|
    ensures FailsAt(engine, start, statements, i) == FailsAt(engine, start, statements[..m], i)
  {
    assert statements[..m][..i] == statements[..i];
  }

  /** The step of the induction when the run had already stopped. */
  lemma StoppedBefore(engine: (seq<Event>, string) -> StatementResult, start: seq<Event>,
                      statements: seq<string>, j: nat)
    requires j < |statements| - 1
    requires var init := statements[..|statements| - 1];
             FailFast(engine, start, init).Stopped?
             && FailsAt(engine, start, init, j) && NoneFailsBefore(engine, start, init, j)
    ensures FailFast(engine, start, statements) == FailFast(engine, start, statements[..|statements| - 1])
    ensures FailsAt(engine, start, statements, j) && NoneFailsBefore(engine, start, statements, j)
    ensures statements[..|statements| - 1][..j + 1] == statements[..j + 1]
  {
    var n := |statements| - 1;
    FailsAtPrefix(engine, start, statements, j, n);
    forall i | 0 <= i < j
      ensures !FailsAt(engine, start, statements, i)
    {
      FailsAtPrefix(engine, start, statements, i, n);
    }
  }

  /** The step of the induction when the run was still going. */
  lemma RunningBefore(engine: (seq<Event>, string) -> StatementResult, start: seq<Event>, statements: seq<string>)
    requires statements != []
    requires var init := statements[..|statements| - 1];
             FailFast(engine, start, init).Running?
             && FailFast(engine, start, init).trace == start + Execs(init)
             && NoneFailsBefore(engine, start, init, |init|)
    ensures FailFast(engine, start, statements).Running? ==>
              FailFast(engine, start, statements).trace == start + Execs(statements)
              && NoneFailsBefore(engine, start, statements, |statements|)
    ensures FailFast(engine, start, statements).Stopped? ==>
              FailsAt(engine, start, statements, |statements| - 1)
              && NoneFailsBefore(engine, start, statements, |statements| - 1)
              && FailFast(engine, start, statements).trace == start + Execs(statements[..|statements|])
  {
    var n := |statements| - 1;
    var init := statements[..n];
    assert statements[..n + 1] == statements;
    ExecsSnoc(init, statements[n]);
    assert init + [statements[n]] == statements;
    forall i | 0 <= i < n
      ensures !FailsAt(engine, start, statements, i)
    {
      FailsAtPrefix(engine, start, statements, i, n);
    }
  }

  /** Once a statement has failed, further statements change nothing. */
  lemma {:induction false} StoppedStays(engine: (seq<Event>, string) -> StatementResult,
                                        start: seq<Event>, statements: seq<string>, n: nat)
    requires n <= |statements| && FailFast(engine, start, statements[..n]).Stopped?
    ensures FailFast(engine, start, statements) == FailFast(engine, start, statements[..n])
    decreases |statements|
  {
    if n < |statements| {
      var init := statements[..|statements| - 1];
      assert init[..n] == statements[..n];
      StoppedStays(engine, start, init, n);
    } else {
      assert statements[..n] == statements;
    }
  }

  /** The outcome of a script keyword: its verdict, the trace it leaves and
      the auto-commit mode it leaves. */
  datatype Outcome = Outcome(verdict: Verdict, trace: seq<Event>, autoCommit: bool)

  /** The message is built after the buffer is cleared, so it names no
      statement. */
  const RolledBackMessage: string := "Error executing: " + "" + " Execution from file rolled back!"

  /** Fail-fast over the statements read before the file ended (or a read
      failed, `faulted`), after `setAutoCommit(false)`. */
  function FailFastOutcome(engine: (seq<Event>, string) -> StatementResult, before: seq<Event>,
                           statements: seq<string>, faulted: bool): Outcome
  {
    match FailFast(engine, before + [SetAutoCommit(false)], statements)
    case Stopped(t) => Outcome(AssertFail(RolledBackMessage), t + [Rollback, SetAutoCommit(true)], true)
    case Running(t) =>
      if faulted then Outcome(InfraError(IoError), t, false)
      else Outcome(Pass, t + [Commit, SetAutoCommit(true)], true)
  }

  /** Ignore-errors over the statements read, after `setAutoCommit(false)`. */
  function IgnoreErrorsOutcome(before: seq<Event>, statements: seq<string>, faulted: bool): Outcome
  {
    var t := before + [SetAutoCommit(false)] + Execs(statements);
    if faulted then Outcome(InfraError(IoError), t, false)
    else Outcome(Pass, t + [Commit, SetAutoCommit(true)], true)
  }

  /** Execute Sql From File. A missing file is found only after auto-commit
      was switched off, and nothing restores it. */
  function ExecuteSqlFromFileOutcome(engine: (seq<Event>, string) -> StatementResult,
                                     before: seq<Event>, file: File): Outcome
  {
    match file
    case Missing => Outcome(InfraError(FileNotFound), before + [SetAutoCommit(false)], false)
    case Present(content, faultAt) =>
      var read := LinesBeforeFault(content, faultAt);
      FailFastOutcome(engine, before, Statements(read.0), read.1)
  }

  /** Execute Sql From File Ignore Errors. */
  function ExecuteSqlFromFileIgnoreErrorsOutcome(before: seq<Event>, file: File): Outcome
  {
    match file
    case Missing => Outcome(InfraError(FileNotFound), before + [SetAutoCommit(false)], false)
    case Present(content, faultAt) =>
      var read := LinesBeforeFault(content, faultAt);
      IgnoreErrorsOutcome(before, Statements(read.0), read.1)
  }

  /** Fail-fast rolls back exactly when some statement fails: the trace
      is auto-commit off, the statements up to and including the first
      failing one, then Rollback and SetAutoCommit(true), with no Commit. */
  lemma FailFastRollbackTrace(engine: (seq<Event>, string) -> StatementResult, before: seq<Event>,
                              statements: seq<string>, faulted: bool)
    requires FailFast(engine, before + [SetAutoCommit(false)], statements).Stopped?
    ensures FailFastOutcome(engine, before, statements, faulted).verdict == AssertFail(RolledBackMessage)
    ensures FailFastOutcome(engine, before, statements, faulted).autoCommit
    ensures exists j :: 0 <= j < |statements| && FailsAt(engine, before + [SetAutoCommit(false)], statements, j)
              && NoneFailsBefore(engine, before + [SetAutoCommit(false)], statements, j)
              && FailFastOutcome(engine, before, statements, faulted).trace
                 == before + [SetAutoCommit(false)] + Execs(statements[..j + 1]) + [Rollback, SetAutoCommit(true)]
  {
    var start := before + [SetAutoCommit(false)];
    FailFastStopsAtFirstFailure(engine, start, statements);
    var t := FailFast(engine, start, statements).trace;
    assert FailFastOutcome(engine, before, statements, faulted)
           == Outcome(AssertFail(RolledBackMessage), t + [Rollback, SetAutoCommit(true)], true);
    var j :| 0 <= j < |statements| && FailsAt(engine, start, statements, j)
             && NoneFailsBefore(engine, start, statements, j)
             && t == start + Execs(statements[..j + 1]);
  }

  /** When no statement fails and the whole file was read, every statement
      is sent once, in order, and then the work is committed and auto-commit
      restored. */
  lemma FailFastCommitTrace(engine: (seq<Event>, string) -> StatementResult, before: seq<Event>,
                            statements: seq<string>)
    requires NoneFailsBefore(engine, before + [SetAutoCommit(false)], statements, |statements|)
    ensures FailFastOutcome(engine, before, statements, false)
            == Outcome(Pass, before + [SetAutoCommit(false)] + Execs(statements) + [Commit, SetAutoCommit(true)], true)
  {
    var start := before + [SetAutoCommit(false)];
    FailFastStopsAtFirstFailure(engine, start, statements);
  }

  /** A failed read with no failed statement before it leaves the
      statements sent, uncommitted and not rolled back, with auto-commit
      still off. */
  lemma FailFastFaultTrace(engine: (seq<Event>, string) -> StatementResult, before: seq<Event>,
                           statements: seq<string>)
    requires NoneFailsBefore(engine, before + [SetAutoCommit(false)], statements, |statements|)
    ensures FailFastOutcome(engine, before, statements, true)
            == Outcome(InfraError(IoError), before + [SetAutoCommit(false)] + Execs(statements), false)
  {
    var start := before + [SetAutoCommit(false)];
    FailFastStopsAtFirstFailure(engine, start, statements);
  }

  /** Ignore-errors: every statement read is sent whatever the engine
      answers, so the trace does not depend on the engine at all; a run that
      reads the whole file commits exactly once, after the last statement; a
      failed read commits nothing and leaves auto-commit off. */
  lemma IgnoreErrorsTrace(before: seq<Event>, statements: seq<string>, faulted: bool)
    ensures var o := IgnoreErrorsOutcome(before, statements, faulted);
            (o.verdict == Pass <==> !faulted)
            && (!faulted ==>
                  o.trace == before + [SetAutoCommit(false)] + Execs(statements) + [Commit, SetAutoCommit(true)]
                  && o.autoCommit)
            && (faulted ==>
                  o.verdict == InfraError(IoError) && !o.autoCommit
                  && o.trace == before + [SetAutoCommit(false)] + Execs(statements))
  {
  }

  // ---------------------------------------------------------------------
  // Steps of the reading loop

  /** Reading one more line feeds its trimmed text to the splitter. */
  lemma SplitStep(lines: seq<string>, k: nat)
    requires k < |lines|
    ensures Split(lines[..k + 1]) == Feed(Split(lines[..k]), lines[k])
  {
    assert lines[..k + 1][..k] == lines[..k];
  }

  lemma ExecsSnoc(statements: seq<string>, s: string)
    ensures Execs(statements + [s]) == Execs(statements) + [Exec(s)]
  {
    assert (statements + [s])[..|statements|] == statements;
  }

  /** Sending one more statement extends the trace by its event. */
  lemma TraceSnoc(start: seq<Event>, statements: seq<string>, s: string)
    ensures start + Execs(statements + [s]) == start + Execs(statements) + [Exec(s)]
  {
    ExecsSnoc(statements, s);
  }

  lemma FailFastSnoc(engine: (seq<Event>, string) -> StatementResult, start: seq<Event>,
                     statements: seq<string>, s: string)
    requires FailFast(engine, start, statements).Running?
    ensures var t := FailFast(engine, start, statements).trace;
            FailFast(engine, start, statements + [s])
            == if engine(t, s).Failed? then Stopped(t + [Exec(s)]) else Running(t + [Exec(s)])
  {
    assert (statements + [s])[..|statements|] == statements;
  }

  /** The `k`-th read fails: what was sent stays sent, uncommitted. */
  lemma FaultExit(engine: (seq<Event>, string) -> StatementResult, before: seq<Event>,
                  file: File, k: nat, t: seq<Event>)
    requires file.Present? && file.faultAt == Some(k) && k <= |Lines(file.content)|
    requires FailFast(engine, before + [SetAutoCommit(false)], Statements(Lines(file.content)[..k])) == Running(t)
    ensures ExecuteSqlFromFileOutcome(engine, before, file) == Outcome(InfraError(IoError), t, false)
  {
  }

  /** The whole file was read and no statement failed. */
  lemma CleanExit(engine: (seq<Event>, string) -> StatementResult, before: seq<Event>,
                  file: File, t: seq<Event>)
    requires file.Present? && (file.faultAt.Some? ==> file.faultAt.value > |Lines(file.content)|)
    requires FailFast(engine, before + [SetAutoCommit(false)], Statements(Lines(file.content))) == Running(t)
    ensures ExecuteSqlFromFileOutcome(engine, before, file)
            == Outcome(Pass, t + [Commit, SetAutoCommit(true)], true)
  {
  }

  /** A statement failed after `k` lines were read: whatever the file holds
      after them is never sent. */
  lemma FailureExit(engine: (seq<Event>, string) -> StatementResult, before: seq<Event>,
                    file: File, k: nat, t: seq<Event>)
    requires file.Present? && k <= |Lines(file.content)| && (file.faultAt.Some? ==> file.faultAt.value >= k)
    requires FailFast(engine, before + [SetAutoCommit(false)], Statements(Lines(file.content)[..k])) == Stopped(t)
    ensures ExecuteSqlFromFileOutcome(engine, before, file)
            == Outcome(AssertFail(RolledBackMessage), t + [Rollback, SetAutoCommit(true)], true)
  {
    var content := file.content;
    var faultAt := file.faultAt;
    var start := before + [SetAutoCommit(false)];
    var read := LinesBeforeFault(content, faultAt);
    assert k <= |read.0|;
    assert read.0[..k] == Lines(content)[..k];
    StatementsGrow(read.0, k);
    var all := Statements(read.0);
    var m := |Statements(read.0[..k])|;
    assert all[..m] == Statements(Lines(content)[..k]);
    StoppedStays(engine, start, all, m);
    assert FailFast(engine, start, all) == Stopped(t);
    assert ExecuteSqlFromFileOutcome(engine, before, file)
           == FailFastOutcome(engine, before, all, read.1);
  }

  // ---------------------------------------------------------------------
  // Keywords

  /** The body of the fail-fast reading loop for one line: trim it, skip
      it when it is a comment, otherwise append it to the buffer and, when
      the buffer then ends with ";", send it without that ";". */
  method SendLineFailFast(conn: Connection, ghost start: seq<Event>, ghost sp: Splitter, sql: string, rawLine: string)
    returns (rest: string, failed: bool)
    modifies conn`trace
    requires sql == sp.buffer
    requires FailFast(conn.db.engine, start, sp.statements) == Running(conn.trace)
    ensures !failed ==> rest == Feed(sp, rawLine).buffer
                        && FailFast(conn.db.engine, start, Feed(sp, rawLine).statements) == Running(conn.trace)
    ensures failed ==> rest == "" && FailFast(conn.db.engine, start, Feed(sp, rawLine).statements) == Stopped(conn.trace)
  {
    var line := Trim(rawLine);
    if IsComment(line) {
      return sql, false;
    }
    rest, failed := AppendLineFailFast(conn, start, sp, sql, line);
  }

  /** A line that is not a comment, in fail-fast mode. */
  method AppendLineFailFast(conn: Connection, ghost start: seq<Event>, ghost sp: Splitter, sql: string, line: string)
    returns (rest: string, failed: bool)
    modifies conn`trace
    requires sql == sp.buffer
    requires FailFast(conn.db.engine, start, sp.statements) == Running(conn.trace)
    ensures !failed ==> rest == Append(sp, line).buffer
                        && FailFast(conn.db.engine, start, Append(sp, line).statements) == Running(conn.trace)
    ensures failed ==> rest == "" && FailFast(conn.db.engine, start, Append(sp, line).statements) == Stopped(conn.trace)
  {
    rest := sql + line;
    failed := false;
    if EndsWith(rest, ";") {
      rest := rest[..|rest| - 1];
      FailFastSnoc(conn.db.engine, start, sp.statements, rest);
      var res := conn.Execute(rest);
      failed := res.Failed?;
      rest := "";
    }
  }

  /** How a reading loop ended. */
  datatype ScriptEnd = EndOfFile | ReadFault | StatementFailed

  /** The fail-fast reading loop, from the first line: it stops at the end
      of the file, at a read that throws, or at the first statement that
      fails, after `k` lines were read. */
  method ReadScriptFailFast(conn: Connection, reader: LineReader, ghost start: seq<Event>)
    returns (sql: string, stop: ScriptEnd, ghost k: nat)
    modifies conn`trace, reader
    requires reader.next == 0 && conn.trace == start
    ensures k <= |reader.lines|
    ensures stop == ReadFault ==>
              reader.faultAt == Some(k)
              && FailFast(conn.db.engine, start, Statements(reader.lines[..k])) == Running(conn.trace)
    ensures stop == StatementFailed ==>
              sql == "" && (reader.faultAt.Some? ==> reader.faultAt.value >= k)
              && FailFast(conn.db.engine, start, Statements(reader.lines[..k])) == Stopped(conn.trace)
    ensures stop == EndOfFile ==>
              (reader.faultAt.Some? ==> reader.faultAt.value > |reader.lines|)
              && FailFast(conn.db.engine, start, Statements(reader.lines)) == Running(conn.trace)
  {
    ghost var lines := reader.lines;
    sql := "";
    while true
      invariant reader.next <= |lines|
      invariant reader.faultAt.Some? ==> reader.faultAt.value >= reader.next
      invariant sql == Split(lines[..reader.next]).buffer
      invariant FailFast(conn.db.engine, start, Statements(lines[..reader.next])) == Running(conn.trace)
      decreases |lines| - reader.next
    {
      k := reader.next;
      var r := reader.ReadLine();
      if r.Err? {
        return sql, ReadFault, k;
      }
      if r.value.None? {
        assert lines[..k] == lines;
        return sql, EndOfFile, k;
      }
      var line := r.value.value;
      assert line == lines[k] && reader.next == k + 1;
      SplitStep(lines, k);
      var failed;
      sql, failed := SendLineFailFast(conn, start, Split(lines[..k]), sql, line);
      if failed {
        return sql, StatementFailed, k + 1;
      }
    }
  }

  /** Execute Sql From File: the reading loop with fail-fast rollback. */
  method ExecuteSqlFromFile(conn: Connection, file: File) returns (v: Verdict)
    modifies conn
    ensures Outcome(v, conn.trace, conn.autoCommit) == ExecuteSqlFromFileOutcome(conn.db.engine, old(conn.trace), file)
  {
    ghost var before := conn.trace;
    conn.SetAutoCommit(false);
    if file.Missing? {
      return InfraError(FileNotFound);
    }
    var reader := new LineReader(file.content, file.faultAt);
    var sql, stop, k := ReadScriptFailFast(conn, reader, before + [SetAutoCommit(false)]);
    if stop == ReadFault {
      FaultExit(conn.db.engine, before, file, k, conn.trace);
      return InfraError(IoError);
    }
    if stop == StatementFailed {
      FailureExit(conn.db.engine, before, file, k, conn.trace);
      conn.Rollback();
      conn.SetAutoCommit(true);
      return AssertFail("Error executing: " + sql + " Execution from file rolled back!");
    }
    CleanExit(conn.db.engine, before, file, conn.trace);
    conn.Commit();
    conn.SetAutoCommit(true);
    return Pass;
  }

  /** The body of the ignore-errors reading loop for one line: as in
      fail-fast mode, but the engine's answer is not looked at. */
  method SendLine(conn: Connection, ghost start: seq<Event>, ghost sp: Splitter, sql: string, rawLine: string)
    returns (rest: string)
    modifies conn`trace
    requires sql == sp.buffer && conn.trace == start + Execs(sp.statements)
    ensures rest == Feed(sp, rawLine).buffer
    ensures conn.trace == start + Execs(Feed(sp, rawLine).statements)
  {
    var line := Trim(rawLine);
    if IsComment(line) {
      return sql;
    }
    rest := AppendLine(conn, start, sp, sql, line);
  }

  /** A line that is not a comment, in ignore-errors mode. */
  method AppendLine(conn: Connection, ghost start: seq<Event>, ghost sp: Splitter, sql: string, line: string)
    returns (rest: string)
    modifies conn`trace
    requires sql == sp.buffer && conn.trace == start + Execs(sp.statements)
    ensures rest == Append(sp, line).buffer
    ensures conn.trace == start + Execs(Append(sp, line).statements)
  {
    rest := sql + line;
    if EndsWith(rest, ";") {
      rest := rest[..|rest| - 1];
      TraceSnoc(start, sp.statements, rest);
      var ignored := conn.Execute(rest);
      rest := "";
    }
  }

  /** The ignore-errors reading loop, from the first line: it stops at
      the end of the file or at a read that throws, after `k` lines were
      read. */
  method ReadScriptIgnoringErrors(conn: Connection, reader: LineReader, ghost start: seq<Event>)
    returns (faulted: bool, ghost k: nat)
    modifies conn`trace, reader
    requires reader.next == 0 && conn.trace == start
    ensures k <= |reader.lines|
    ensures conn.trace == start + Execs(Statements(reader.lines[..k]))
    ensures faulted ==> reader.faultAt == Some(k)
    ensures !faulted ==> k == |reader.lines| && (reader.faultAt.Some? ==> reader.faultAt.value > k)
  {
    ghost var lines := reader.lines;
    var sql := "";
    assert Statements(lines[..0]) == [];
    while true
      invariant reader.next <= |lines|
      invariant reader.faultAt.Some? ==> reader.faultAt.value >= reader.next
      invariant sql == Split(lines[..reader.next]).buffer
      invariant conn.trace == start + Execs(Statements(lines[..reader.next]))
      decreases |lines| - reader.next
    {
      k := reader.next;
      var r := reader.ReadLine();
      if r.Err? {
        return true, k;
      }
      if r.value.None? {
        return false, k;
      }
      var line := r.value.value;
      assert line == lines[k] && reader.next == k + 1;
      SplitStep(lines, k);
      sql := SendLine(conn, start, Split(lines[..k]), sql, line);
    }
  }

  /** Execute Sql From File Ignore Errors: the same loop, but a failing
      statement is only logged. */
  method ExecuteSqlFromFileIgnoreErrors(conn: Connection, file: File) returns (v: Verdict)
    modifies conn
    ensures Outcome(v, conn.trace, conn.autoCommit) == ExecuteSqlFromFileIgnoreErrorsOutcome(old(conn.trace), file)
  {
    ghost var before := conn.trace;
    conn.SetAutoCommit(false);
    if file.Missing? {
      return InfraError(FileNotFound);
    }
    var reader := new LineReader(file.content, file.faultAt);
    var faulted, k := ReadScriptIgnoringErrors(conn, reader, before + [SetAutoCommit(false)]);
    if faulted {
      return InfraError(IoError);
    }
    assert reader.lines[..k] == reader.lines;
    conn.Commit();
    conn.SetAutoCommit(true);
    return Pass;
  }

  /** The map `executeSql` builds for one result row: column name to value,
      a later column of the same name replacing an earlier one. */
  function RowMap(columns: seq<string>, row: Row): map<string, Cell>
    requires |row| == |columns|
  {
    if columns == [] then map[]
    else RowMap(columns[..|columns| - 1], row[..|row| - 1])[columns[|columns| - 1] := row[|row| - 1]]
  }

  /** Every column is a key, nothing else is, and a column name maps to the
      value of its last occurrence. */
  lemma RowMapContents(columns: seq<string>, row: Row)
    requires |row| == |columns|
    ensures RowMap(columns, row).Keys == set c | c in columns
    ensures forall i :: 0 <= i < |columns| && columns[i] !in columns[i + 1..] ==> RowMap(columns, row)[columns[i]] == row[i]
  {
    RowMapKeys(columns, row);
    forall i | 0 <= i < |columns| && columns[i] !in columns[i + 1..]
      ensures RowMap(columns, row)[columns[i]] == row[i]
    {
      RowMapAt(columns, row, i);
    }
  }

  lemma {:induction false} RowMapKeys(columns: seq<string>, row: Row)
    requires |row| == |columns|
    ensures RowMap(columns, row).Keys == set c | c in columns
  {
    if columns != [] {
      var n := |columns| - 1;
      RowMapKeys(columns[..n], row[..n]);
      assert columns == columns[..n] + [columns[n]];
    }
  }

  /** The last occurrence of a column name decides its value. */
  lemma {:induction false} RowMapAt(columns: seq<string>, row: Row, i: nat)
    requires |row| == |columns| && i < |columns| && columns[i] !in columns[i + 1..]
    ensures columns[i] in RowMap(columns, row) && RowMap(columns, row)[columns[i]] == row[i]
  {
    var n := |columns| - 1;
    if i < n {
      assert columns[i + 1..] == columns[..n][i + 1..] + [columns[n]];
      RowMapAt(columns[..n], row[..n], i);
    }
  }

  /** One result row as a map, built column by column. */
  method RowToMap(columns: seq<string>, row: Row) returns (m: map<string, Cell>)
    requires |row| == |columns|
    ensures m == RowMap(columns, row)
  {
    m := map[];
    for n := 0 to |columns|
      invariant m == RowMap(columns[..n], row[..n])
    {
      assert columns[..n + 1][..n] == columns[..n] && row[..n + 1][..n] == row[..n];
      m := m[columns[n] := row[n]];
    }
    assert columns[..|columns|] == columns && row[..|row|] == row;
  }

  /** One map per result row, in order. */
  function RowMaps(t: Table): (r: seq<map<string, Cell>>)
    ensures |r| == |t.rows|
    ensures forall k :: 0 <= k < |t.rows| ==> r[k] == RowMap(t.columns, t.rows[k])
  {
    seq(|t.rows|, k requires 0 <= k < |t.rows| => RowMap(t.columns, t.rows[k]))
  }

  /** What Execute Sql returns for the engine's answer: an empty list when
      the statement yields no result set, an SQLException when it fails. */
  function SqlOutcome(answer: StatementResult): Result<seq<map<string, Cell>>>
  {
    match answer
    case Failed => Err(InfraError(SqlError))
    case UpdateCount => Ok([])
    case ResultRows(t) => Ok(RowMaps(t))
  }

  /** Execute Sql: the statement is sent, and the result set, if any, is
      copied row by row into a list of maps. */
  method ExecuteSql(conn: Connection, sql: string) returns (r: Result<seq<map<string, Cell>>>)
    modifies conn`trace
    ensures conn.trace == old(conn.trace) + [Exec(sql)]
    ensures r == SqlOutcome(conn.db.engine(old(conn.trace), sql))
  {
    var answer := conn.Execute(sql);
    if answer.Failed? {
      return Err(InfraError(SqlError));
    }
    if answer.UpdateCount? {
      return Ok([]);
    }
    var t := answer.result;
    var list: seq<map<string, Cell>> := [];
    while |list| < |t.rows|
      invariant |list| <= |t.rows|
      invariant conn.trace == old(conn.trace) + [Exec(sql)]
      invariant forall k :: 0 <= k < |list| ==> list[k] == RowMap(t.columns, t.rows[k])
    {
      var m := RowToMap(t.columns, t.rows[|list|]);
      list := list + [m];
    }
    assert list == RowMaps(t);
    return Ok(list);
  }

  /** Delete All Rows From Table: one `delete from` statement. */
  method DeleteAllRowsFromTable(conn: Connection, table: string) returns (v: Verdict)
    modifies conn`trace
    ensures conn.trace == old(conn.trace) + [Exec("delete from " + table)]
    ensures v == Pass <==> !conn.db.engine(old(conn.trace), "delete from " + table).Failed?
    ensures v != Pass ==> v == InfraError(SqlError)
  {
    var answer := conn.Execute("delete from " + table);
    v := if answer.Failed? then InfraError(SqlError) else Pass;
  }
}
