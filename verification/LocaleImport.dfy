/** The locale importer of Gogs: strips the double quotes that the translation service puts
    around values, editing each line in place inside the scanner's buffer. */
module LocaleImport {
  import opened Wrappers
  import opened GoStrings
  import opened LineScanners

  const BAD_CHARS := "=\""
  const ESCAPED_QUOTE := "\\\""
  const QUOTE := "\""

  // ---- One line ---------------------------------------------------------------------------------

  function Unescape(s: string): string {
    ReplaceAll(s, ESCAPED_QUOTE, QUOTE)
  }

  /** The line is one that the importer rewrites. */
  predicate IsQuoted(line: string) {
    Index(line, BAD_CHARS) > -1 && line[|line| - 1] == '"'
  }

  /** The quote after the first `=` and the last quote are the same character: slicing between
      them panics. */
  predicate Panics(line: string) {
    IsQuoted(line) && Index(line, BAD_CHARS) + 2 == |line|
  }

  /** The line without the quote after its `=` and without its last quote. */
  function CutQuotes(line: string, idx: nat): string
    requires idx + 3 <= |line|
  {
    line[..idx + 1] + line[idx + 2..|line| - 1]
  }

  /** The rewritten line, or the run-time panic. */
  function Rewrite(line: string): Result<string> {
    var idx := Index(line, BAD_CHARS);
    if Panics(line) then Err
    else if IsQuoted(line) then Ok(Unescape(CutQuotes(line, idx)))
    else Ok(line)
  }

  /** `append(data[..to], data[from..from+n]...)` when both lie in one buffer with room: an
      overlapping move towards the front. */
  method AppendWithin(data: array<char>, to: nat, from: nat, n: nat)
    requires to <= from && from + n <= data.Length
    modifies data
    ensures data[..] == Moved(old(data[..]), to, from, n)
  {
    ghost var was := data[..];
    var i := 0;
    while i < n
      invariant 0 <= i <= n
      invariant data[..] == Moved(was, to, from, i)
    {
      ghost var now := data[..];
      MovedStep(was, to, from, i);
      assert data[from + i] == now[from + i] == was[from + i];
      data[to + i] := data[from + i];
      assert data[..] == now[to + i := was[from + i]];
      i := i + 1;
    }
  }

  lemma MovedStep(s: string, to: nat, from: nat, i: nat)
    requires to <= from && from + i < |s|
    ensures Moved(s, to, from, i)[to + i := s[from + i]] == Moved(s, to, from, i + 1)
    ensures Moved(s, to, from, i)[from + i] == s[from + i]
  {
  }

  /** The buffer with `n` characters moved from `from` to `to`, everything else in place. */
  function Moved(s: string, to: nat, from: nat, n: nat): string
    requires to <= from && from + n <= |s|
  {
    s[..to] + s[from..from + n] + s[to + n..]
  }

  /** The in-place edit: the shortened token is the concatenation of the two slices of the old
      one, and no other part of the buffer changes. */
  method EditToken(data: array<char>, start: nat, end: nat, idx: nat) returns (line: string)
    requires start + idx + 3 <= end <= data.Length
    modifies data
    ensures line == CutQuotes(old(data[start..end]), idx)
    ensures data[..start] == old(data[..start])
    ensures forall p :: end <= p <= data.Length ==> data[p..] == old(data[p..])
  {
    ghost var was := data[..];
    AppendWithin(data, start + idx + 1, start + idx + 2, end - start - idx - 3);
    line := data[start..end - 2];
    MovedInToken(was, start, end, idx);
    assert was[start..end] == old(data[start..end]);
  }

  /** The move concatenates the two slices of the token and leaves the rest of the buffer alone. */
  lemma MovedInToken(s: string, start: nat, end: nat, idx: nat)
    requires start + idx + 3 <= end <= |s|
    ensures
      var now := Moved(s, start + idx + 1, start + idx + 2, end - start - idx - 3);
      && now[start..end - 2] == CutQuotes(s[start..end], idx)
      && now[..start] == s[..start] && forall p :: end <= p <= |s| ==> now[p..] == s[p..]
  {
    var n, line := end - start - idx - 3, s[start..end];
    var now := Moved(s, start + idx + 1, start + idx + 2, n);
    var shifted := CutQuotes(line, idx);
    assert |shifted| == end - 2 - start;
    forall k | 0 <= k < |shifted|
      ensures now[start..end - 2][k] == shifted[k]
    {
      assert now[start + k] == if k <= idx then s[start + k] else s[start + k + 1];
    }
  }

  /** Rewrites the scanner's current token. What the scanner has not read yet is unchanged. */
  method RewriteToken(scanner: LineScanner) returns (r: Result<string>)
    requires scanner.Valid()
    modifies scanner.data
    ensures r == Rewrite(old(scanner.Token()))
    ensures scanner.data[..scanner.start] == old(scanner.data[..scanner.start])
    ensures scanner.data[scanner.end..] == old(scanner.data[scanner.end..])
    ensures scanner.Unread() == old(scanner.Unread())
  {
    var line := scanner.data[scanner.start..scanner.end];
    var idx := Index(line, BAD_CHARS);
    if idx > -1 && line[|line| - 1] == '"' {
      if idx + 2 > |line| - 1 {
        return Err;
      }
      line := EditToken(scanner.data, scanner.start, scanner.end, idx);
      line := ReplaceAll(line, ESCAPED_QUOTE, QUOTE);
    }
    r := Ok(line);
  }

  // ---- One file ---------------------------------------------------------------------------------

  /** What one file's import leaves in the target: everything up to the first panicking line. */
  datatype FileOutcome = FileOutcome(written: string, panicked: bool)

  function ImportLines(lines: seq<string>): FileOutcome {
    if lines == [] then FileOutcome("", false)
    else
      match Rewrite(lines[0])
      case Err => FileOutcome("", true)
      case Ok(line) =>
        var rest := ImportLines(lines[1..]);
        FileOutcome(line + "\n" + rest.written, rest.panicked)
  }

  /** The scanning loop: although every line is edited in the buffer that holds the following
      ones, the result is that of rewriting each line of the original text. */
  method ImportFile(text: string) returns (outcome: FileOutcome)
    ensures outcome == ImportLines(Lines(text))
  {
    var scanner := new LineScanner(text);
    var written := "";
    ghost var lines, whole := Lines(text), ImportLines(Lines(text));
    var more := scanner.Scan();
    while more
      invariant scanner.Valid() && fresh(scanner) && fresh(scanner.data)
      invariant lines == if more then [scanner.Token()] + Lines(scanner.Unread()) else []
      invariant Extends(whole, written, ImportLines(lines))
      decreases |lines|
    {
      var r := RewriteToken(scanner);
      ImportNext(whole, written, lines);
      if r.Err? {
        return FileOutcome(written, true);
      }
      written := written + r.value + "\n";
      lines := lines[1..];
      more := scanner.Scan();
    }
    outcome := FileOutcome(written, false);
  }

  lemma ImportNext(whole: FileOutcome, before: string, lines: seq<string>)
    requires lines != [] && Extends(whole, before, ImportLines(lines))
    ensures Rewrite(lines[0]).Err? ==> whole == FileOutcome(before, true)
    ensures Rewrite(lines[0]).Ok? ==> Extends(whole, before + Rewrite(lines[0]).value + "\n", ImportLines(lines[1..]))
  {
    if Rewrite(lines[0]).Ok? {
      var line, rest := Rewrite(lines[0]).value, ImportLines(lines[1..]).written;
      assert before + (line + "\n" + rest) == before + line + "\n" + rest;
    }
  }

  /** `whole` is `rest` with `before` written first. */
  ghost predicate Extends(whole: FileOutcome, before: string, rest: FileOutcome) {
    whole == FileOutcome(before + rest.written, rest.panicked)
  }

  // ---- All files --------------------------------------------------------------------------------

  /** How the command ends: done, an error return, or a run-time panic. */
  datatype Outcome = Done | OpenFailed | Panicked

  /** The directories and the run-time faults that the command cannot see in advance. */
  datatype Disk = Disk(source: map<string, string>, target: map<string, string>,
                       unreadable: set<string>, unwritable: set<string>)

  /** Every language of `langs` with a source file has been imported whole. */
  ghost predicate AllImported(disk: Disk, langs: seq<string>, target: map<string, string>) {
    forall i :: 0 <= i < |langs| && langs[i] in disk.source ==>
      && langs[i] in target
      && FileOutcome(target[langs[i]], false) == Imported(disk, langs[i])
  }

  /** Nothing but the languages of `langs` that have a source file has been touched. */
  ghost predicate OthersKept(disk: Disk, langs: seq<string>, target: map<string, string>) {
    forall l :: l !in langs || l !in disk.source ==>
      && (l in target <==> l in disk.target)
      && (l in target ==> target[l] == disk.target[l])
  }

  /** Writing one more file keeps the files already imported, a repeated language included. */
  lemma WriteKeepsImported(disk: Disk, langs: seq<string>, target: map<string, string>, lang: string)
    requires AllImported(disk, langs, target) && OthersKept(disk, langs, target) && lang in disk.source
    ensures
      var target' := target[lang := Imported(disk, lang).written];
      && AllImported(disk, langs, target') && OthersKept(disk, langs + [lang], target')
      && (!Imported(disk, lang).panicked ==> AllImported(disk, langs + [lang], target'))
  {
    assert forall l :: l !in langs + [lang] ==> l !in langs && l != lang;
  }

  lemma SkipKeepsImported(disk: Disk, langs: seq<string>, target: map<string, string>, lang: string)
    requires AllImported(disk, langs, target) && OthersKept(disk, langs, target) && lang !in disk.source
    ensures AllImported(disk, langs + [lang], target) && OthersKept(disk, langs + [lang], target)
  {
  }

  /** The loop over the configured languages, the first of which (en-US) is cut out. `reached`
      is how far it got. */
  method RunImportLocale(langs: seq<string>, disk: Disk)
    returns (target: map<string, string>, outcome: Outcome, reached: nat)
    ensures langs == [] ==> outcome == Panicked && target == disk.target
    ensures langs != [] ==>
              && 1 <= reached <= |langs|
              && AllImported(disk, langs[1..reached], target)
              && (outcome == Done <==> reached == |langs|)
              && (outcome != Panicked ==> OthersKept(disk, langs[1..reached], target))
    ensures langs != [] && outcome == Panicked ==>
              && Imported(disk, langs[reached]).panicked
              && langs[reached] in target && target[langs[reached]] == Imported(disk, langs[reached]).written
              && OthersKept(disk, langs[1..reached + 1], target)
    ensures langs != [] && outcome == OpenFailed ==>
              langs[reached] in disk.source && langs[reached] in disk.unreadable + disk.unwritable
  {
    target, reached := disk.target, 1;
    if langs == [] {
      return target, Panicked, 0;
    }
    ghost var done: seq<string> := [];
    while reached < |langs|
      invariant 1 <= reached <= |langs| && done == langs[1..reached]
      invariant AllImported(disk, done, target) && OthersKept(disk, done, target)
    {
      var lang := langs[reached];
      assert langs[1..reached + 1] == done + [lang];
      if lang in disk.source {
        if lang in disk.unreadable || lang in disk.unwritable {
          return target, OpenFailed, reached;
        }
        var file := ImportFile(disk.source[lang]);
        WriteKeepsImported(disk, done, target, lang);
        target := target[lang := file.written];
        if file.panicked {
          return target, Panicked, reached;
        }
      } else {
        SkipKeepsImported(disk, done, target, lang);
      }
      done, reached := done + [lang], reached + 1;
    }
    outcome := Done;
  }

  function Imported(disk: Disk, lang: string): FileOutcome {
    if lang in disk.source then ImportLines(Lines(disk.source[lang])) else FileOutcome("", false)
  }

  // ---- Every kind of line ------------------------------------------------------------------------------

  /** The line is none that the translation service has quoted. */
  predicate IsVerbatim(line: string) {
    !Contains(line, "=\"") || line[|line| - 1] != '"'
  }

  /** Such a line (a section, a comment, a plain entry) is imported as itself. */
  lemma VerbatimLineIsKept(line: string)
    requires IsVerbatim(line)
    ensures Rewrite(line) == Ok(line)
  {
    NoOccurrence(line, "=\"");
  }

  lemma FirstIsAfterKey(key: string, rest: string)
    requires !Contains(key, "=\"")
    ensures Index(key + "=\"" + rest, "=\"") == |key|
  {
    var line := key + "=\"" + rest;
    assert line[|key|..|key| + 2] == "=\"";
    assert At(line, "=\"", |key|);
    forall i | 0 <= i < |key|
      ensures !At(line, "=\"", i)
    {
      assert !At(key, "=\"", i);
      assert i + 2 <= |key| ==> key[i..i + 2] == line[i..i + 2];
      assert line[i..i + 2][1] == line[i + 1];
      assert i + 1 == |key| ==> line[i + 1] == '=';
    }
  }

  /** Any other line loses the quote after its first `=` and its last quote, and every `\"` in it
      becomes `"`. */
  lemma QuotedLineIsUnquoted(key: string, x: string)
    requires !Contains(key, "=\"")
    ensures Rewrite(key + "=\"" + x + "\"") == Ok(ReplaceAll(key + "=" + x, "\\\"", "\""))
  {
    var line := key + "=\"" + x + "\"";
    FirstIsAfterKey(key, x + "\"");
    assert line == key + "=\"" + (x + "\"");
    assert CutQuotes(line, |key|) == key + "=" + x;
  }

  // ---- Unquoting undoes quoting --------------------------------------------------------------------

  /** The translation service's side: quotes inside a value are escaped, and the whole is quoted. */
  function Quote(v: string): string {
    ReplaceAll(v, QUOTE, ESCAPED_QUOTE)
  }

  function ExportLine(key: string, v: string): string {
    key + BAD_CHARS + Quote(v) + QUOTE
  }

  lemma StartsEscaped(s: string)
    ensures ESCAPED_QUOTE <= s <==> |s| >= 2 && s[0] == '\\' && s[1] == '"'
  {
    if |s| >= 2 {
      assert s[..2] == [s[0], s[1]];
    }
  }

  /** A split that no escaped quote straddles splits the unescaping. */
  lemma {:induction false} UnescapeConcat(a: string, b: string)
    requires a == "" || a[|a| - 1] != '\\' || b == "" || b[0] != '"'
    ensures Unescape(a + b) == Unescape(a) + Unescape(b)
    decreases |a|
  {
    if a == "" {
      assert a + b == b;
    } else if ESCAPED_QUOTE <= a {
      assert (a + b)[2..] == a[2..] + b;
      UnescapeConcat(a[2..], b);
    } else {
      assert (a + b)[1..] == a[1..] + b;
      StartsEscaped(a);
      StartsEscaped(a + b);
      assert |a| == 1 ==> b != "" ==> (a + b)[1] == b[0];
      UnescapeConcat(a[1..], b);
    }
  }

  /** Unescaping shortens exactly the texts that contain an escaped quote. */
  lemma {:induction false} UnescapeShortens(s: string)
    ensures |Unescape(s)| <= |s|
    ensures Contains(s, ESCAPED_QUOTE) ==> |Unescape(s)| < |s|
    ensures !Contains(s, ESCAPED_QUOTE) ==> Unescape(s) == s
    decreases |s|
  {
    if s == "" {
    } else if ESCAPED_QUOTE <= s {
      assert At(s, ESCAPED_QUOTE, 0);
      UnescapeShortens(s[2..]);
    } else {
      UnescapeShortens(s[1..]);
      ContainsTail(s, ESCAPED_QUOTE);
    }
  }

  lemma ContainsTail(s: string, pat: string)
    requires s != "" && !(pat <= s)
    ensures Contains(s, pat) <==> Contains(s[1..], pat)
  {
    if Contains(s, pat) {
      var i :| 0 <= i <= |s| && At(s, pat, i);
      assert i != 0;
      assert At(s[1..], pat, i - 1);
    }
    if Contains(s[1..], pat) {
      var i :| 0 <= i <= |s[1..]| && At(s[1..], pat, i);
      assert At(s, pat, i + 1);
    }
  }

  /** Whatever the value, backslashes before quotes included. */
  lemma {:induction false} UnescapeQuote(v: string)
    ensures Unescape(Quote(v)) == v
    decreases |v|
  {
    if v == "" {
    } else {
      UnescapeQuote(v[1..]);
      if v[0] == '"' {
        assert Quote(v) == ESCAPED_QUOTE + Quote(v[1..]);
        assert (ESCAPED_QUOTE + Quote(v[1..]))[2..] == Quote(v[1..]);
      } else {
        assert Quote(v) == [v[0]] + Quote(v[1..]);
        QuoteStart(v[1..]);
        UnescapeConcat([v[0]], Quote(v[1..]));
      }
    }
  }

  /** A quoted value never begins with a bare quote. */
  lemma QuoteStart(v: string)
    ensures Quote(v) == "" || Quote(v)[0] != '"'
  {
  }

  lemma UnescapeSplit(a: string, mid: string, q: string)
    requires mid == "=" || mid == BAD_CHARS
    ensures Unescape(a + (mid + q)) == Unescape(a) + mid + Unescape(q)
  {
    UnescapeConcat(a, mid + q);
    UnescapeConcat(mid, q);
    if mid == BAD_CHARS {
      UnescapeConcat("=", "\"");
      assert "=" + "\"" == BAD_CHARS;
      assert Unescape("\"") == "\"" + Unescape("");
    }
    assert Unescape("=") == "=" + Unescape("");
  }

  lemma NoBadCharsInKey(key: string, v: string)
    requires Index(ExportLine(key, v), BAD_CHARS) == |key|
    ensures !Contains(key, BAD_CHARS)
  {
    if Contains(key, BAD_CHARS) {
      var i :| 0 <= i <= |key| && At(key, BAD_CHARS, i);
      assert At(ExportLine(key, v), BAD_CHARS, i);
    }
  }

  lemma BadCharsInKey(key: string, v: string)
    requires Index(ExportLine(key, v), BAD_CHARS) < |key|
    ensures Contains(key, BAD_CHARS) && At(key, BAD_CHARS, Index(ExportLine(key, v), BAD_CHARS))
  {
    var line := ExportLine(key, v);
    assert At(line, BAD_CHARS, |key|);
    var i := Index(line, BAD_CHARS);
    assert At(line, BAD_CHARS, i);
    assert line[i + 1] == '"' && line[|key|] == '=';
    assert i + 2 <= |key|;
    assert key[i..i + 2] == line[i..i + 2];
    assert At(key, BAD_CHARS, i);
  }

  /** Exactly the keys that contain neither `="` nor an escaped quote survive: for every value,
      importing an exported line gives back `key=value` if and only if the key is such a key. */
  lemma UnquotingUndoesQuoting(key: string, v: string)
    ensures Rewrite(ExportLine(key, v)) == Ok(key + "=" + v)
            <==> !Contains(key, BAD_CHARS) && !Contains(key, ESCAPED_QUOTE)
  {
    assert At(ExportLine(key, v), BAD_CHARS, |key|);
    if Index(ExportLine(key, v), BAD_CHARS) == |key| {
      NoBadCharsInKey(key, v);
      FirstAtKey(key, v);
      UnescapeShortens(key);
      if |Unescape(key)| < |key| {
        assert |Unescape(key) + "=" + v| < |key + "=" + v|;
      }
    } else {
      BadCharsInKey(key, v);
      FirstInKey(key, v);
    }
  }

  /** When the first `="` is the one after the key, only the key's own escapes are lost. */
  lemma FirstAtKey(key: string, v: string)
    requires Index(ExportLine(key, v), BAD_CHARS) == |key|
    ensures Rewrite(ExportLine(key, v)) == Ok(Unescape(key) + "=" + v)
  {
    assert CutQuotes(ExportLine(key, v), |key|) == key + ("=" + Quote(v));
    UnescapeSplit(key, "=", Quote(v));
    UnescapeQuote(v);
  }

  /** When it is inside the key, the quote after the key survives and the result is wrong. */
  lemma FirstInKey(key: string, v: string)
    requires At(key, BAD_CHARS, Index(ExportLine(key, v), BAD_CHARS))
    ensures Rewrite(ExportLine(key, v)) != Ok(key + "=" + v)
  {
    var idx := Index(ExportLine(key, v), BAD_CHARS);
    var key' := key[..idx + 1] + key[idx + 2..];
    assert CutQuotes(ExportLine(key, v), idx) == key' + (BAD_CHARS + Quote(v));
    UnescapeSplit(key', BAD_CHARS, Quote(v));
    UnescapeQuote(v);
    DifferentEnds(Unescape(key') + BAD_CHARS, key + "=", v);
  }

  lemma DifferentEnds(a: string, b: string, v: string)
    requires a != "" && b != "" && a[|a| - 1] != b[|b| - 1]
    ensures a + v != b + v
  {
    if |a| == |b| {
      assert (a + v)[|a| - 1] != (b + v)[|b| - 1];
    } else {
      assert |a + v| != |b + v|;
    }
  }

  /** Only a line whose first `="` is its end makes the importer panic; `k="` is one. */
  lemma PanicsIff(line: string)
    ensures Rewrite(line).Err? <==> HasSuffix(line, BAD_CHARS) && Index(line, BAD_CHARS) == |line| - 2
    ensures Rewrite("k=\"").Err?
  {
    if HasSuffix(line, BAD_CHARS) {
      assert At(line, BAD_CHARS, |line| - 2);
    }
    var short := "k=\"";
    assert At(short, BAD_CHARS, 1);
    assert short[0..2][0] == 'k' && BAD_CHARS[0] == '=';
  }

  // ---- A whole file ---------------------------------------------------------------------------------

  /** A line of a locale file: an entry that the translation service has exported, or one that it has
      left alone. */
  datatype Entry = Exported(key: string, v: string) | Verbatim(line: string)

  function ExportedText(e: Entry): string {
    match e
    case Exported(key, v) => ExportLine(key, v)
    case Verbatim(line) => line
  }

  function PlainText(e: Entry): string {
    match e
    case Exported(key, v) => key + "=" + v
    case Verbatim(line) => line
  }

  function ExportFile(entries: seq<Entry>): string {
    if entries == [] then "" else ExportedText(entries[0]) + "\n" + ExportFile(entries[1..])
  }

  function PlainFile(entries: seq<Entry>): string {
    if entries == [] then "" else PlainText(entries[0]) + "\n" + PlainFile(entries[1..])
  }

  predicate Importable(e: Entry) {
    match e
    case Exported(key, v) =>
      !Contains(key, "=\"") && !Contains(key, "\\\"") && '\n' !in key && '\n' !in v
    case Verbatim(line) =>
      IsVerbatim(line) && '\n' !in line && !EndsInCR(line)
  }

  lemma {:induction false} QuoteKeepsOneLine(v: string)
    requires '\n' !in v
    ensures '\n' !in Quote(v)
    decreases |v|
  {
    if v == "" {
    } else {
      QuoteKeepsOneLine(v[1..]);
    }
  }

  /** One entry: it is one line, which is imported as it should be. */
  lemma EntryIsImported(e: Entry)
    requires Importable(e)
    ensures '\n' !in ExportedText(e) && !EndsInCR(ExportedText(e))
    ensures Rewrite(ExportedText(e)) == Ok(PlainText(e))
  {
    match e
    case Exported(key, v) =>
      QuoteKeepsOneLine(v);
      assert '\n' !in BAD_CHARS && '\n' !in QUOTE;
      UnquotingUndoesQuoting(key, v);
    case Verbatim(line) =>
      VerbatimLineIsKept(line);
  }

  lemma ImportCons(line: string, plain: string, rest: string)
    requires '\n' !in line && !EndsInCR(line) && Rewrite(line) == Ok(plain)
    ensures
      var later := ImportLines(Lines(rest));
      ImportLines(Lines(line + "\n" + rest)) == FileOutcome(plain + "\n" + later.written, later.panicked)
  {
    NewlineIsDropped(line, rest);
    assert ([line] + Lines(rest))[1..] == Lines(rest);
  }

  lemma Regroup(a: string, b: string, c: string)
    ensures a + "\n" + b + c == a + "\n" + (b + c)
  {
  }

  /** Importing a file of exported entries and other lines yields the plain entries and the other
      lines as they were, in order; whatever follows is imported after them. */
  lemma {:induction false} ImportUndoesExport(entries: seq<Entry>, more: string)
    requires forall e :: e in entries ==> Importable(e)
    ensures
      var rest := ImportLines(Lines(more));
      ImportLines(Lines(ExportFile(entries) + more)) == FileOutcome(PlainFile(entries) + rest.written, rest.panicked)
  {
    if entries == [] {
      assert ExportFile(entries) + more == more;
      assert PlainFile(entries) + ImportLines(Lines(more)).written == ImportLines(Lines(more)).written;
    } else {
      var e := entries[0];
      EntryIsImported(e);
      ImportUndoesExport(entries[1..], more);
      ImportCons(ExportedText(e), PlainText(e), ExportFile(entries[1..]) + more);
      Regroup(ExportedText(e), ExportFile(entries[1..]), more);
      Regroup(PlainText(e), PlainFile(entries[1..]), ImportLines(Lines(more)).written);
    }
  }

  /** A panic leaves the lines before it written, and nothing of its own line or of those after. */
  lemma ImportStopsAtPanic(entries: seq<Entry>, key: string, after: string)
    requires (forall e :: e in entries ==> Importable(e)) && !Contains(key, "=\"") && '\n' !in key
    ensures ImportLines(Lines(ExportFile(entries) + (key + "=\"" + "\n" + after))) == FileOutcome(PlainFile(entries), true)
  {
    var bad := key + "=\"";
    PanickingLine(key, after);
    ImportUndoesExport(entries, bad + "\n" + after);
    assert PlainFile(entries) + "" == PlainFile(entries);
  }

  lemma PanickingLine(key: string, after: string)
    requires !Contains(key, "=\"") && '\n' !in key
    ensures ImportLines(Lines(key + "=\"" + "\n" + after)) == FileOutcome("", true)
  {
    var bad := key + "=\"";
    FirstIsAfterKey(key, "");
    assert bad + "" == bad;
    assert HasSuffix(bad, BAD_CHARS);
    PanicsIff(bad);
    LinesCons(bad, after);
  }
}
