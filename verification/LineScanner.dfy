/** `bufio.Scanner` with its default split function: lines without their terminator and
    without one trailing carriage return. Tokens are slices of the scanner's own buffer. */
module LineScanners {

  /** The length of the first line, without its newline. */
  function LineLength(s: string): (n: nat)
    ensures n <= |s|
    ensures forall i :: 0 <= i < n ==> s[i] != '\n'
    ensures n < |s| ==> s[n] == '\n'
  {
    if s == "" || s[0] == '\n' then 0 else 1 + LineLength(s[1..])
  }

  predicate EndsInCR(line: string) {
    line != "" && line[|line| - 1] == '\r'
  }

  function DropCR(line: string): string {
    if line != "" && line[|line| - 1] == '\r' then line[..|line| - 1] else line
  }

  /** What is left after the first line and its newline. */
  function AfterLine(s: string): (rest: string)
    ensures s != "" ==> |rest| < |s|
  {
    if LineLength(s) < |s| then s[LineLength(s) + 1..] else ""
  }

  /** The tokens of the scanner on the input `s`. */
  function Lines(s: string): seq<string>
    decreases |s|
  {
    if s == "" then [] else [DropCR(s[..LineLength(s)])] + Lines(AfterLine(s))
  }

  lemma LineLengthIs(s: string, n: nat)
    requires n <= |s| && (forall i :: 0 <= i < n ==> s[i] != '\n') && (n < |s| ==> s[n] == '\n')
    ensures LineLength(s) == n
  {
  }

  class LineScanner {
    const data: array<char>
    /** The current token is `data[start..end]`; `next` is where the next one begins. */
    var start: nat
    var end: nat
    var next: nat

    ghost predicate Valid()
      reads this
    {
      start <= end <= next <= data.Length
    }

    ghost function Token(): string
      requires Valid()
      reads this, data
    {
      data[start..end]
    }

    ghost function Unread(): string
      requires Valid()
      reads this, data
    {
      data[next..]
    }

    constructor (input: string)
      ensures Valid() && fresh(data) && data[..] == input && next == 0 && Unread() == input
    {
      start, end, next := 0, 0, 0;
      data := new char[|input|](i requires 0 <= i < |input| => input[i]);
    }

    method Scan() returns (ok: bool)
      requires Valid()
      modifies this
      ensures Valid() && ok == (old(Unread()) != "")
      ensures ok ==> start == old(next) < next
      ensures ok ==> Lines(old(Unread())) == [Token()] + Lines(Unread())
      ensures !ok ==> Unread() == ""
    {
      if next == data.Length {
        return false;
      }
      ghost var s := data[next..];
      var i := FindNewline();
      assert s[..i - next] == data[next..i];
      start, end := next, i;
      if end > start && data[end - 1] == '\r' {
        end := end - 1;
      }
      assert data[start..end] == DropCR(s[..LineLength(s)]);
      next := if i < data.Length then i + 1 else i;
      assert Unread() == AfterLine(s);
      ok := true;
    }

    /** The end of the line that begins at `next`. */
    method FindNewline() returns (i: nat)
      requires Valid()
      ensures next <= i <= data.Length && i - next == LineLength(Unread())
    {
      i := next;
      while i < data.Length && data[i] != '\n'
        invariant next <= i <= data.Length
        invariant forall j :: next <= j < i ==> data[j] != '\n'
      {
        i := i + 1;
      }
      LineLengthIs(Unread(), i - next);
    }
  }

  /** A line is scanned without its newline, */
  lemma NewlineIsDropped(line: string, rest: string)
    requires '\n' !in line && !EndsInCR(line)
    ensures Lines(line + "\n" + rest) == [line] + Lines(rest)
  {
    LinesCons(line, rest);
  }

  /** without a carriage return before it, */
  lemma CarriageReturnIsDropped(line: string, rest: string)
    requires '\n' !in line
    ensures Lines(line + "\r\n" + rest) == [line] + Lines(rest)
  {
    var withCR := line + "\r";
    LinesCons(withCR, rest);
    assert line + "\r\n" + rest == withCR + "\n" + rest;
    assert withCR[..|withCR| - 1] == line;
  }

  /** and at the end of the input without either. */
  lemma LastLineIsScanned(line: string)
    requires '\n' !in line && line != "" && !EndsInCR(line)
    ensures Lines(line) == [line]
  {
    LineLengthIs(line, |line|);
    assert line[..|line|] == line;
  }

  // ---- Printing lines back ----------------------------------------------------------------------

  /** Each line followed by a newline: what the buffering loops of the hooks write. */
  function Unlines(lines: seq<string>): string {
    if lines == [] then "" else lines[0] + "\n" + Unlines(lines[1..])
  }

  lemma {:induction false} UnlinesAppend(lines: seq<string>, line: string)
    ensures Unlines(lines + [line]) == Unlines(lines) + line + "\n"
  {
    if lines == [] {
      assert lines + [line] == [line];
    } else {
      assert (lines + [line])[1..] == lines[1..] + [line];
      UnlinesAppend(lines[1..], line);
    }
  }

  /** A text that starts with a whole line scans to that line and then to the rest. */
  lemma LinesCons(line: string, rest: string)
    requires '\n' !in line
    ensures Lines(line + "\n" + rest) == [DropCR(line)] + Lines(rest)
  {
    var s := line + "\n" + rest;
    LineLengthIs(s, |line|);
    assert s[..|line|] == line && s[|line| + 1..] == rest;
  }

  /** Lines printed back rescan to themselves exactly when none ends in a carriage return. */
  lemma {:induction false} UnlinesRescan(lines: seq<string>)
    requires forall l :: l in lines ==> '\n' !in l
    ensures Lines(Unlines(lines)) == lines <==> forall l :: l in lines ==> !EndsInCR(l)
  {
    if lines == [] {
    } else {
      assert lines == [lines[0]] + lines[1..];
      LinesCons(lines[0], Unlines(lines[1..]));
      UnlinesRescan(lines[1..]);
      if EndsInCR(lines[0]) {
        assert |DropCR(lines[0])| < |lines[0]|;
      }
    }
  }

  lemma {:induction false} LinesHaveNoNewline(s: string)
    ensures forall l :: l in Lines(s) ==> '\n' !in l
    decreases |s|
  {
    if s == "" {
    } else {
      LinesHaveNoNewline(AfterLine(s));
    }
  }

  /** The input with a missing final newline added. */
  function Terminated(s: string): string {
    if s == "" || s[|s| - 1] == '\n' then s else s + "\n"
  }

  /** Some line of the input carries a carriage return that the scanner drops. */
  predicate HasTrailingCR(s: string)
    decreases |s|
  {
    s != "" && (EndsInCR(s[..LineLength(s)]) || HasTrailingCR(AfterLine(s)))
  }

  lemma {:induction false} TerminatedCons(s: string)
    requires s != ""
    ensures Terminated(s) == s[..LineLength(s)] + "\n" + Terminated(AfterLine(s))
  {
    var n := LineLength(s);
    if n < |s| {
      assert s == s[..n] + "\n" + AfterLine(s);
    }
  }

  /** Printing the scanned lines gives back the terminated input exactly when the scanner had
      no carriage return to drop. */
  lemma {:induction false} UnlinesOfLines(s: string)
    ensures |Unlines(Lines(s))| <= |Terminated(s)|
    ensures Unlines(Lines(s)) == Terminated(s) <==> !HasTrailingCR(s)
    decreases |s|
  {
    if s == "" {
    } else {
      var line, rest := s[..LineLength(s)], AfterLine(s);
      UnlinesOfLines(rest);
      assert Lines(s)[0] == DropCR(line) && Lines(s)[1..] == Lines(rest);
      TerminatedCons(s);
      if !EndsInCR(line) {
        SamePrefix(line + "\n", Unlines(Lines(rest)), Terminated(rest));
      }
    }
  }

  lemma SamePrefix(p: string, a: string, b: string)
    ensures p + a == p + b <==> a == b
  {
    if p + a == p + b {
      assert a == (p + a)[|p|..] && b == (p + b)[|p|..];
    }
  }
}
