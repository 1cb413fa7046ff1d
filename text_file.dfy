/** Text files as the keywords see them through `BufferedReader`.

    A file is either missing (opening it throws FileNotFoundException) or
    present with its content and, optionally, the number of lines after
    which the next `readLine` throws an IOException. */
module TextFile {
  import opened Common

  datatype File = Missing | Present(content: string, faultAt: Option<nat>)

  predicate IsTerminator(c: char) { c == '\n' || c == '\r' }

  /** Index of the first line terminator, or `|s|`. */
  function LineEnd(s: string): (i: nat)
    ensures i <= |s|
    ensures i < |s| ==> IsTerminator(s[i])
    ensures forall j :: 0 <= j < i ==> !IsTerminator(s[j])
  {
    if s == [] then 0 else if IsTerminator(s[0]) then 0 else 1 + LineEnd(s[1..])
  }

  /** The lines successive `readLine` calls return: a line ends at "\n",
      "\r" or "\r\n", and a last line without terminator still counts. */
  function Lines(s: string): (r: seq<string>)
    ensures forall k :: 0 <= k < |r| ==> forall j :: 0 <= j < |r[k]| ==> !IsTerminator(r[k][j])
    ensures s == [] <==> r == []
    decreases |s|
  {
    if s == [] then []
    else
      var i := LineEnd(s);
      if i == |s| then [s]
      else
        var skip := if s[i] == '\r' && i + 1 < |s| && s[i + 1] == '\n' then 2 else 1;
        [s[..i]] + Lines(s[i + skip..])
  }

  predicate NoTerminator(line: string) { forall j :: 0 <= j < |line| ==> !IsTerminator(line[j]) }

  /** Lines each followed by "\n", as `write(...); write("\n")` produces. */
  function Unlines(lines: seq<string>): string
  {
    if lines == [] then "" else lines[0] + "\n" + Unlines(lines[1..])
  }

  /** Reading back what was written line by line gives the same lines,
      provided no line holds a terminator of its own. */
  lemma {:induction false} LinesOfUnlines(lines: seq<string>)
    requires forall k :: 0 <= k < |lines| ==> NoTerminator(lines[k])
    ensures Lines(Unlines(lines)) == lines
  {
    if lines != [] {
      LinesOfUnlines(lines[1..]);
      LinesOfOneLine(lines[0], Unlines(lines[1..]));
    }
  }

  /** A line without terminators, then "\n", reads back as that line
      followed by the lines of the rest. */
  lemma LinesOfOneLine(first: string, rest: string)
    requires NoTerminator(first)
    ensures Lines(first + "\n" + rest) == [first] + Lines(rest)
  {
    var s := first + "\n" + rest;
    LineEndOfPrefix(first, "\n" + rest);
    assert s == first + ("\n" + rest);
    assert s[|first|] == '\n';
    assert s[..|first|] == first;
    assert s[|first| + 1..] == rest;
  }

  lemma LineEndOfPrefix(line: string, rest: string)
    requires NoTerminator(line) && rest != [] && IsTerminator(rest[0])
    ensures LineEnd(line + rest) == |line|
  {
    var s := line + rest;
    assert s[|line|] == rest[0];
    assert forall j :: 0 <= j < |line| ==> s[j] == line[j];
  }

  /** An open `BufferedReader`: the lines of the file, how many were
      delivered, and the read (if any) that fails. */
  class LineReader {
    const lines: seq<string>
    const faultAt: Option<nat>
    var next: nat

    constructor (content: string, faultAt: Option<nat>)
      ensures lines == Lines(content) && this.faultAt == faultAt && next == 0
    {
      lines := Lines(content);
      this.faultAt := faultAt;
      next := 0;
    }

    /** `readLine()`: the next line, `None` (Java null) at the end, or an
        IOException at the faulty read. */
    method ReadLine() returns (r: Result<Option<string>>)
      modifies this
      ensures faultAt == Some(old(next)) ==> r == Err(InfraError(IoError)) && next == old(next)
      ensures faultAt != Some(old(next)) && old(next) < |lines| ==>
                r == Ok(Some(lines[old(next)])) && next == old(next) + 1
      ensures faultAt != Some(old(next)) && old(next) >= |lines| ==> r == Ok(None) && next == old(next)
    {
      if faultAt == Some(next) {
        return Err(InfraError(IoError));
      }
      if next < |lines| {
        r := Ok(Some(lines[next]));
        next := next + 1;
      } else {
        r := Ok(None);
      }
    }

    /** `ready()`: unread content remains. */
    function Ready(): bool
      reads this
    {
      next < |lines|
    }
  }

  /** The lines a reader delivers before the file ends or a read fails,
      and whether a read failed. */
  function LinesBeforeFault(content: string, faultAt: Option<nat>): (r: (seq<string>, bool))
    ensures r.0 <= Lines(content)
    ensures r.1 <==> faultAt.Some? && faultAt.value <= |Lines(content)|
    ensures r.1 ==> |r.0| == faultAt.value
    ensures !r.1 ==> r.0 == Lines(content)
  {
    var lines := Lines(content);
    if faultAt.Some? && faultAt.value <= |lines| then (lines[..faultAt.value], true) else (lines, false)
  }
}
