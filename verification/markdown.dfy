/** The Markdown report renderer (stograde/formatters/markdown.py): turns one
    recording into the Markdown fragment of a student's report.

    Every formatting step that can raise returns a `Result`; `KeyError(key)`
    is a dictionary lookup of an absent key and `TypeError` an operation on a
    value of the wrong type. */
module Markdown {
  import opened Outcomes
  import opened Text
  import opened Recordings

  datatype RenderError = KeyError(key: string) | TypeError

  /** `d[key]`: the value, or `KeyError` when the key is absent. */
  function Lookup<T>(field: Option<T>, key: string): (r: Result<T, RenderError>)
    ensures field.Some? <==> r.Ok?
    ensures r.Ok? ==> r.value == field.value
    ensures r.Err? ==> r.error == KeyError(key)
  {
    match field
    case Some(v) => Ok(v)
    case None => Err(KeyError(key))
  }

  /** Whether `s` ends with `suffix`. */
  predicate EndsWith(s: string, suffix: string)
  {
    |suffix| <= |s| && s[|s| - |suffix|..] == suffix
  }

  const Fence: string := "```"
  const EmptyFileNote: string := "*File empty*"

  // ---------------------------------------------------------------------
  // File contents
  // ---------------------------------------------------------------------

  /** The contents of a file in a code block whose language is the file's
      extension; a file that is empty or whitespace only is noted as empty. */
  function FormatFileContents(contents: string, filename: string): (r: string)
    ensures r == EmptyFileNote <==> Blank(contents)
    ensures !Blank(contents) ==> |r| > 0 && r[0] == '`' && EndsWith(r, "\n" + Fence + "\n")
  {
    RStripEmptyIffBlank(contents);
    if RStrip(contents) == [] then EmptyFileNote
    else
      var r := Fence + Extension(filename) + "\n" + contents + "\n" + Fence + "\n";
      assert r[0] == '`';
      r
  }

  /** Position of the first newline of `s`, or `|s|` when it has none. */
  function NewlineIndex(s: string): (k: nat)
    ensures k <= |s|
    ensures forall i :: 0 <= i < k ==> s[i] != '\n'
    ensures k < |s| ==> s[k] == '\n'
  {
    if s == [] then 0
    else if s[0] == '\n' then 0
    else 1 + NewlineIndex(s[1..])
  }

  /** Reads a fenced block back: the language named after the opening fence
      and the text between the first line and the closing fence. */
  function Unfence(block: string): (r: Option<(string, string)>)
  {
    if |block| >= |Fence| + 1 + 5 && block[..|Fence|] == Fence && EndsWith(block, "\n" + Fence + "\n") then
      var inner := block[|Fence|..|block| - 5];
      var k := NewlineIndex(inner);
      if k < |inner| then Some((inner[..k], inner[k + 1..])) else None
    else None
  }

  /** A fenced block reads back as its language and its text. */
  lemma UnfenceOf(lang: string, text: string)
    requires '\n' !in lang
    ensures Unfence(Fence + lang + "\n" + text + "\n" + Fence + "\n") == Some((lang, text))
  {
    var inner := lang + "\n" + text;
    var block := Fence + lang + "\n" + text + "\n" + Fence + "\n";
    assert block == Fence + inner + "\n" + Fence + "\n";
    assert block[..|Fence|] == Fence;
    assert block[|block| - 5..] == "\n" + Fence + "\n";
    assert block[|Fence|..|block| - 5] == inner;
    NewlineAfter(lang, text);
    assert inner[..|lang|] == lang;
    assert inner[|lang| + 1..] == text;
  }

  /** Rendering file contents and reading the block back gives the file's
      extension and its unchanged contents; an empty file gives no block. */
  lemma ContentsRoundTrip(contents: string, filename: string)
    requires '\n' !in Extension(filename)
    ensures Blank(contents) ==> Unfence(FormatFileContents(contents, filename)) == None
    ensures !Blank(contents) ==>
      Unfence(FormatFileContents(contents, filename)) == Some((Extension(filename), contents))
  {
    var r := FormatFileContents(contents, filename);
    RStripEmptyIffBlank(contents);
    if Blank(contents) {
      assert r == EmptyFileNote;
      assert r[..|Fence|] != Fence by {
        assert r[0] == '*';
      }
    } else {
      var ext := Extension(filename);
      assert r == Fence + ext + "\n" + contents + "\n" + Fence + "\n";
      UnfenceOf(ext, contents);
    }
  }

  /** The first newline of `a + "\n" + b` is the one after `a`, when `a` has none. */
  lemma {:induction false} NewlineAfter(a: string, b: string)
    requires '\n' !in a
    ensures NewlineIndex(a + "\n" + b) == |a|
    decreases |a|
  {
    var s := a + "\n" + b;
    if a != [] {
      assert s[0] == a[0];
      assert s[1..] == a[1..] + "\n" + b;
      NewlineAfter(a[1..], b);
    }
  }

  // ---------------------------------------------------------------------
  // Compile output
  // ---------------------------------------------------------------------

  /** An entry holding both keys that compile steps need. */
  predicate CompileComplete(e: CompileEntry)
  {
    e.output.Some? && e.command.Some?
  }

  /** The error of an incomplete compile entry: `output` is read before `command`. */
  function CompileKeyError(e: CompileEntry): RenderError
  {
    if e.output.None? then KeyError("output") else KeyError("command")
  }

  /** The pieces one compile entry adds to the report. */
  function CompileEntryPieces(e: CompileEntry): (r: Result<seq<string>, RenderError>)
    ensures r.Ok? <==> CompileComplete(e)
    ensures r.Err? ==> r.error == CompileKeyError(e)
    ensures r.Ok? ==> |r.value| == (if e.output.value == "" then 1 else 2)
  {
    var output :- Lookup(e.output, "output");
    var command :- Lookup(e.command, "command");
    var cmd := "`" + command + "`";
    if output == "" then Ok(["**no warnings: " + cmd + "**\n"])
    else Ok(["**warnings: " + cmd + "**\n", Fence + "\n" + output + "\n" + Fence + "\n"])
  }

  /** The pieces of all compile entries in order; the first incomplete entry raises. */
  function CompilationPieces(es: seq<CompileEntry>): (r: Result<seq<string>, RenderError>)
    ensures r.Ok? <==> forall i :: 0 <= i < |es| ==> CompileComplete(es[i])
    ensures r.Err? ==> exists k :: 0 <= k < |es| && !CompileComplete(es[k]) && r.error == CompileKeyError(es[k])
                                  && forall i :: 0 <= i < k ==> CompileComplete(es[i])
    ensures r.Ok? ==> (|r.value| == 0 <==> |es| == 0)
  {
    if es == [] then Ok([])
    else
      var first :- CompileEntryPieces(es[0]);
      var rest :- CompilationPieces(es[1..]);
      assert forall i :: 1 <= i < |es| ==> es[i] == es[1..][i - 1];
      Ok(first + rest)
  }

  /** `format_file_compilation`: the pieces joined by newlines. */
  function FormatFileCompilation(es: seq<CompileEntry>): (r: Result<string, RenderError>)
    ensures r.Ok? <==> forall i :: 0 <= i < |es| ==> CompileComplete(es[i])
    ensures es == [] ==> r == Ok("")
  {
    var pieces :- CompilationPieces(es);
    Ok(Join("\n", pieces))
  }

  /** The pieces of consecutive entry lists are consecutive. */
  lemma {:induction false} CompilationPiecesConcat(a: seq<CompileEntry>, b: seq<CompileEntry>)
    requires CompilationPieces(a).Ok? && CompilationPieces(b).Ok?
    ensures CompilationPieces(a + b) == Ok(CompilationPieces(a).value + CompilationPieces(b).value)
    decreases |a|
  {
    if a == [] {
      assert a + b == b;
      assert CompilationPieces(a).value + CompilationPieces(b).value == CompilationPieces(b).value;
    } else {
      assert (a + b)[0] == a[0];
      assert (a + b)[1..] == a[1..] + b;
      assert CompileComplete(a[0]);
      assert forall i :: 1 <= i < |a| ==> a[i] == a[1..][i - 1];
      CompilationPiecesConcat(a[1..], b);
      var first := CompileEntryPieces(a[0]).value;
      assert CompilationPieces(a) == Ok(first + CompilationPieces(a[1..]).value);
      assert CompilationPieces(a + b) == Ok(first + CompilationPieces(a[1..] + b).value);
      var x, y := CompilationPieces(a[1..]).value, CompilationPieces(b).value;
      assert first + (x + y) == (first + x) + y;
    }
  }

  /** The compile section of two entry lists is theirs joined by a newline:
      entries are rendered one after another in input order. */
  lemma CompilationConcat(a: seq<CompileEntry>, b: seq<CompileEntry>)
    requires a != [] && b != []
    requires FormatFileCompilation(a).Ok? && FormatFileCompilation(b).Ok?
    ensures FormatFileCompilation(a + b) == Ok(FormatFileCompilation(a).value + "\n" + FormatFileCompilation(b).value)
  {
    CompilationPiecesConcat(a, b);
    JoinConcat("\n", CompilationPieces(a).value, CompilationPieces(b).value);
  }

  /** What one compile entry renders as: a "no warnings" line when its output
      is empty, otherwise a "warnings" line, a blank line and the output in a
      code block. */
  lemma CompilationSingle(e: CompileEntry)
    requires CompileComplete(e)
    ensures e.output.value == "" ==>
      FormatFileCompilation([e]) == Ok("**no warnings: `" + e.command.value + "`**\n")
    ensures e.output.value != "" ==>
      FormatFileCompilation([e]) == Ok("**warnings: `" + e.command.value + "`**\n" + "\n" + (Fence + "\n" + e.output.value + "\n" + Fence + "\n"))
  {
    assert [e][1..] == [];
    assert CompilationPieces([]) == Ok([]);
    var pieces := CompileEntryPieces(e).value;
    assert CompilationPieces([e]).value == pieces + [];
    assert pieces + [] == pieces;
    assert FormatFileCompilation([e]).value == Join("\n", pieces);
    var c, o := e.command.value, e.output.value;
    assert "**no warnings: " + ("`" + c + "`") + "**\n" == "**no warnings: `" + c + "`**\n";
    assert "**warnings: " + ("`" + c + "`") + "**\n" == "**warnings: `" + c + "`**\n";
    if e.output.value != "" {
      assert pieces[..1] == [pieces[0]];
      assert Join("\n", pieces) == pieces[0] + "\n" + pieces[1];
    }
  }

  // ---------------------------------------------------------------------
  // Test output
  // ---------------------------------------------------------------------

  /** A test entry holding every key its block reads. */
  predicate TestComplete(t: TestEntry)
  {
    t.command.Some? && t.status.Some? && t.output.Some? && t.truncated.Some?
    && (t.truncated.value ==> t.truncatedAfter.Some?)
  }

  /** The header line of a test block. */
  function TestHeader(command: string, status: string): string
  {
    "**results of `" + command + "`** (status: " + status + ")\n"
  }

  /** The run's output between fences, on the line after the header. */
  function FencedOutput(output: string): string
  {
    "\n" + Fence + output + Fence
  }

  /** The note closing the block of a truncated run. */
  function TruncationNote(after: string): string
  {
    "\n" + "(truncated after " + after + ")"
  }

  /** The text of a test block: header, the output between fences, and the
      truncation note when the run was cut short. */
  function TestText(command: string, status: string, output: string, truncatedAfter: Option<string>): string
  {
    var body := TestHeader(command, status) + FencedOutput(output);
    match truncatedAfter
    case Some(after) => body + TruncationNote(after)
    case None => body
  }

  /** A test block opens with its header line and closes with the truncation
      note exactly when the run was truncated, with the fenced output otherwise. */
  lemma TestBlockShape(t: TestEntry)
    requires TestComplete(t)
    ensures var r := TestBlock(t).value;
            var h := TestHeader(t.command.value, t.status.value);
            && |h| <= |r| && r[..|h|] == h
            && (t.truncated.value ==> EndsWith(r, TruncationNote(t.truncatedAfter.value)))
            && (!t.truncated.value ==> EndsWith(r, FencedOutput(t.output.value)))
            && (t.truncated.value <==> r[|r| - 1] == ')')
  {
    TestTextShape(t.command.value, t.status.value, t.output.value,
                  if t.truncated.value then t.truncatedAfter else None);
  }

  /** `TestBlockShape` for the text of a block. */
  lemma TestTextShape(command: string, status: string, output: string, truncatedAfter: Option<string>)
    ensures var r := TestText(command, status, output, truncatedAfter);
            var h := TestHeader(command, status);
            && |h| <= |r| && r[..|h|] == h
            && (truncatedAfter.Some? ==> EndsWith(r, TruncationNote(truncatedAfter.value)))
            && (truncatedAfter.None? ==> EndsWith(r, FencedOutput(output)))
            && (truncatedAfter.Some? <==> r[|r| - 1] == ')')
  {
    var header := TestHeader(command, status);
    var fenced := FencedOutput(output);
    Ends(header, fenced);
    LastOf("\n" + Fence + output, Fence);
    assert Fence[|Fence| - 1] == '`';
    LastOf(header, fenced);
    match truncatedAfter
    case Some(after) =>
      var note := TruncationNote(after);
      Ends(header + fenced, note);
      LastOf("\n" + "(truncated after " + after, ")");
      LastOf(header + fenced, note);
      PrefixOfLonger(header, fenced, note);
    case None =>
  }

  /** A concatenation starts with its first part and ends with its second. */
  lemma Ends(x: string, y: string)
    ensures (x + y)[..|x|] == x
    ensures EndsWith(x + y, y)
  {
    assert (x + y)[|x|..] == y;
  }

  /** The first part of a concatenation stays its start when more is appended. */
  lemma PrefixOfLonger(x: string, y: string, z: string)
    ensures (x + y + z)[..|x|] == x
  {
    assert (x + y + z)[..|x|] == (x + y)[..|x|];
  }

  /** A concatenation ending in a non-empty part ends with that part's last character. */
  lemma LastOf(x: string, y: string)
    requires y != []
    ensures (x + y)[|x + y| - 1] == y[|y| - 1]
  {
  }

  /** The block one test run adds to the report; `truncated after` is read
      only for a truncated run. */
  function TestBlock(t: TestEntry): (r: Result<string, RenderError>)
    ensures r.Ok? <==> TestComplete(t)
    ensures r.Ok? ==> r.value == TestText(t.command.value, t.status.value, t.output.value,
                                          if t.truncated.value then t.truncatedAfter else None)
  {
    var command :- Lookup(t.command, "command");
    var status :- Lookup(t.status, "status");
    var output :- Lookup(t.output, "output");
    var truncated :- Lookup(t.truncated, "truncated");
    if truncated then
      var after :- Lookup(t.truncatedAfter, "truncated after");
      Ok(TestText(command, status, output, Some(after)))
    else
      Ok(TestText(command, status, output, None))
  }

  /** `format_file_results`: the blocks of all test runs, concatenated in order. */
  function FormatFileResults(ts: seq<TestEntry>): (r: Result<string, RenderError>)
    ensures r.Ok? <==> forall i :: 0 <= i < |ts| ==> TestComplete(ts[i])
    ensures ts == [] ==> r == Ok("")
  {
    ConcatAll(ts, TestBlock)
  }

  /** The test section of two lists is the concatenation of theirs. */
  lemma ResultsConcat(a: seq<TestEntry>, b: seq<TestEntry>)
    requires FormatFileResults(a).Ok? && FormatFileResults(b).Ok?
    ensures FormatFileResults(a + b) == Ok(FormatFileResults(a).value + FormatFileResults(b).value)
  {
    ConcatAllAppend(a, b, TestBlock);
  }

  /** The test section of a single run is that run's block. */
  lemma ResultsSingle(t: TestEntry)
    requires TestComplete(t)
    ensures FormatFileResults([t]) == TestBlock(t)
  {
    assert [t][1..] == [];
    assert FormatFileResults([]) == Ok("");
    assert FormatFileResults([t]).value == TestBlock(t).value + "";
    assert TestBlock(t).value + "" == TestBlock(t).value;
  }

  // ---------------------------------------------------------------------
  // Warnings and the header
  // ---------------------------------------------------------------------

  const NoSubmissionKey: string := "no submission"
  const UnmergedKey: string := "unmerged branches"
  const NoSubmissionText: string := "**No submission found**\n"
  const UnmergedHead: string := "**Repository has unmerged branches:"

  /** What `for b in value` yields: list items, or the characters of a string,
      each as a one-character string; iterating a bool raises `TypeError`. */
  function Iterate(v: WarningValue): (r: Result<seq<string>, RenderError>)
    ensures r.Err? <==> v.BoolValue?
    ensures r.Err? ==> r.error == TypeError
    ensures v.ListValue? ==> r == Ok(v.items)
    ensures v.StrValue? ==> r.Ok? && |r.value| == |v.s| && forall i :: 0 <= i < |v.s| ==> r.value[i] == [v.s[i]]
  {
    match v
    case ListValue(items) => Ok(items)
    case StrValue(s) => Ok(seq(|s|, i requires 0 <= i < |s| => [s[i]]))
    case BoolValue(_) => Err(TypeError)
  }

  /** `format_warning`: the text of one warning, '' for one that is not shown. */
  function FormatWarning(w: string, value: WarningValue): (r: Result<string, RenderError>)
    ensures w == NoSubmissionKey ==> r == Ok(NoSubmissionText)
    ensures r == Ok("") <==> w != NoSubmissionKey && !Truthy(value)
    ensures r.Err? <==> w != NoSubmissionKey && Truthy(value) && (if w == UnmergedKey then value.BoolValue? else !value.StrValue?)
    ensures w != NoSubmissionKey && w != UnmergedKey && value.StrValue? && Truthy(value) ==>
      r == Ok("**Warning: " + value.s + "**")
  {
    if w == NoSubmissionKey then Ok(NoSubmissionText)
    else if w == UnmergedKey && Truthy(value) then
      var branches :- Iterate(value);
      Ok(UnmergedHead + "\n" + Join("\n", PrefixEach("  - ", branches)) + "**")
    else if Truthy(value) then
      match value
      case StrValue(s) => Ok("**Warning: " + s + "**")
      case _ => Err(TypeError)
    else Ok("")
  }

  /** The unmerged-branches warning, bold marks aside, has the heading line
      and then one `  - b` line per branch, in order. */
  lemma UnmergedBranchLines(branches: seq<string>)
    requires branches != []
    requires forall i :: 0 <= i < |branches| ==> '\n' !in branches[i]
    ensures var r := FormatWarning(UnmergedKey, ListValue(branches));
            && r.Ok? && EndsWith(r.value, "**")
            && Split('\n', r.value[..|r.value| - 2]) == [UnmergedHead] + PrefixEach("  - ", branches)
  {
    var lines := PrefixEach("  - ", branches);
    var text := UnmergedHead + "\n" + Join("\n", lines);
    assert FormatWarning(UnmergedKey, ListValue(branches)) == Ok(text + "**");
    Ends(text, "**");
    var all := [UnmergedHead] + lines;
    assert text == Join("\n", all) by {
      JoinCons("\n", UnmergedHead, lines);
    }
    assert forall i :: 0 <= i < |all| ==> '\n' !in all[i] by {
      UnmergedHeadOneLine();
      forall i | 1 <= i < |all|
        ensures '\n' !in all[i]
      {
        assert all[i] == "  - " + branches[i - 1];
      }
    }
    assert "\n" == ['\n'];
    SplitJoin('\n', all);
  }

  /** The heading of the unmerged-branches warning is a single line. */
  lemma UnmergedHeadOneLine()
    ensures '\n' !in UnmergedHead
  {
    assert forall i :: 0 <= i < |UnmergedHead| ==> UnmergedHead[i] != '\n';
  }

  /** Whether a warning appears in the report. */
  predicate Shown(w: (string, WarningValue))
  {
    w.0 == NoSubmissionKey || Truthy(w.1)
  }

  /** The warnings that appear in the report, in order. */
  function ShownWarnings(ws: seq<(string, WarningValue)>): (shown: seq<(string, WarningValue)>)
    ensures |shown| <= |ws|
    ensures forall i :: 0 <= i < |shown| ==> Shown(shown[i]) && shown[i] in ws
  {
    if ws == [] then []
    else (if Shown(ws[0]) then [ws[0]] else []) + ShownWarnings(ws[1..])
  }

  /** `format_warnings`: every warning formatted in order, empty texts dropped. */
  function FormatWarnings(ws: seq<(string, WarningValue)>): (r: Result<seq<string>, RenderError>)
    ensures r.Ok? <==> forall i :: 0 <= i < |ws| ==> FormatWarning(ws[i].0, ws[i].1).Ok?
    ensures r.Ok? ==> forall i :: 0 <= i < |r.value| ==> r.value[i] != ""
  {
    if ws == [] then Ok([])
    else
      var text :- FormatWarning(ws[0].0, ws[0].1);
      var rest :- FormatWarnings(ws[1..]);
      assert forall i :: 1 <= i < |ws| ==> ws[i] == ws[1..][i - 1];
      Ok((if text == "" then [] else [text]) + rest)
  }

  /** The formatted warnings are exactly the shown warnings formatted, one
      each, in their original order. */
  lemma {:induction false} WarningsShown(ws: seq<(string, WarningValue)>)
    requires FormatWarnings(ws).Ok?
    ensures var r := FormatWarnings(ws).value;
            var shown := ShownWarnings(ws);
            && |r| == |shown|
            && forall i :: 0 <= i < |r| ==> FormatWarning(shown[i].0, shown[i].1) == Ok(r[i])
    decreases |ws|
  {
    if ws != [] {
      assert forall i :: 1 <= i < |ws| ==> ws[i] == ws[1..][i - 1];
      WarningsShown(ws[1..]);
    }
  }

  /** The first line of every report. */
  function Title(spec: string, student: string): string
  {
    "# " + spec + " \U{2013} " + student + "\n"
  }

  /** The first-submission line, present only when the recording has one. */
  function FirstSubmitLine(firstSubmit: Option<string>): (line: string)
    ensures firstSubmit.None? <==> line == ""
  {
    match firstSubmit
    case Some(f) => f + "\n"
    case None => ""
  }

  /** `format_header`: title, first-submission line, and a warnings block
      after a blank line when there are warnings. */
  function FormatHeader(rec: Recording, warnings: seq<string>): (r: string)
    ensures var t := Title(rec.spec, rec.student) + FirstSubmitLine(rec.firstSubmit);
            && |t| <= |r| && r[..|t|] == t
            && (warnings == [] <==> |r| == |t|)
            && (warnings != [] ==> r[|t|..] == "\n" + Join("\n", warnings) + "\n")
  {
    var t := Title(rec.spec, rec.student) + FirstSubmitLine(rec.firstSubmit);
    if warnings == [] then t
    else
      var r := t + "\n" + Join("\n", warnings) + "\n";
      assert r[..|t|] == t;
      assert r[|t|..] == "\n" + Join("\n", warnings) + "\n";
      r
  }

  // ---------------------------------------------------------------------
  // Files
  // ---------------------------------------------------------------------

  const MissingNote: string := "File not found. `ls .` says that these files exist:\n"
  const OptionalMark: string := " (**optional submission**)\n"
  const ListingIndent: string := "    "

  /** The last-modified parenthetical, present only for a non-empty time. */
  function LastModifiedNote(lastModified: string): (note: string)
    ensures note == "" <==> lastModified == ""
  {
    if lastModified != "" then " (" + lastModified + ")" else ""
  }

  /** The heading of a file's section. */
  function FileHeader(filename: string, lastModified: string): string
  {
    "## " + filename + LastModifiedNote(lastModified) + "\n"
  }

  /** Whether a file's section renders: its compile and test entries are
      complete, `missing` is present, and `optional` too for a missing file. */
  predicate FileRenders(info: FileInfo)
  {
    && FormatFileCompilation(info.compilation).Ok?
    && FormatFileResults(info.result).Ok?
    && info.missing.Some?
    && (info.missing.value ==> info.optional.Some?)
  }

  /** A present file's section: the heading, then the contents, compile and
      test sections, one per line. */
  function PresentSection(header: string, contents: string, compilation: string, tests: string): (r: string)
    ensures r == header + "\n" + contents + "\n" + compilation + "\n" + tests
  {
    JoinFour("\n", header, contents, compilation, tests);
    Join("\n", [header, contents, compilation, tests])
  }

  /** A missing file's section: the heading (marked when the file is
      optional), the note, and the indented directory listing. */
  function MissingSection(filename: string, info: FileInfo): (r: Result<string, RenderError>)
    ensures r.Ok? <==> info.optional.Some?
    ensures r.Err? ==> r.error == KeyError("optional")
    ensures r.Ok? ==>
      var header := FileHeader(filename, info.lastModified);
      var heading := if info.optional.value then Strip(header) + OptionalMark else header;
      r.value == heading + "\n" + MissingNote + "\n" + Indent(Join("\n", info.otherFiles), ListingIndent) + "\n\n"
  {
    var header := FileHeader(filename, info.lastModified);
    var listing := Indent(Join("\n", info.otherFiles), ListingIndent);
    var optional :- Lookup(info.optional, "optional");
    var heading := if optional then Strip(header) + OptionalMark else header;
    JoinThree("\n", heading, MissingNote, listing + "\n\n");
    AppendAssoc(heading + "\n" + MissingNote + "\n", listing, "\n\n");
    Ok(Join("\n", [heading, MissingNote, listing + "\n\n"]))
  }

  /** `format_file`: the section of one file. The contents, compile and test
      sections are rendered first, so their errors surface even for a missing
      file; a missing file then shows the directory listing instead. */
  function FormatFile(filename: string, info: FileInfo): (r: Result<string, RenderError>)
    ensures r.Ok? <==> FileRenders(info)
    ensures FormatFileCompilation(info.compilation).Err? ==> r == Err(FormatFileCompilation(info.compilation).error)
  {
    var contents := FormatFileContents(info.contents, filename) + "\n";
    var compilation :- FormatFileCompilation(info.compilation);
    var tests :- FormatFileResults(info.result);
    var missing :- Lookup(info.missing, "missing");
    if missing then MissingSection(filename, info)
    else Ok(PresentSection(FileHeader(filename, info.lastModified), contents, compilation + "\n", tests + "\n"))
  }

  /** A present file's section: heading, contents, compile output and test
      output, each closed by a newline and separated by one more. */
  lemma PresentFileLayout(filename: string, info: FileInfo)
    requires FileRenders(info) && !info.missing.value
    ensures FormatFile(filename, info) == Ok(
      FileHeader(filename, info.lastModified) + "\n"
      + (FormatFileContents(info.contents, filename) + "\n") + "\n"
      + (FormatFileCompilation(info.compilation).value + "\n") + "\n"
      + (FormatFileResults(info.result).value + "\n"))
  {
    var contents := FormatFileContents(info.contents, filename) + "\n";
    var compilation := FormatFileCompilation(info.compilation).value;
    var tests := FormatFileResults(info.result).value;
    assert FormatFile(filename, info)
        == Ok(PresentSection(FileHeader(filename, info.lastModified), contents, compilation + "\n", tests + "\n"));
  }

  /** A missing file's section depends only on its name, last-modified time,
      the `optional` flag and the directory listing: contents, compile output
      and test output are left out. */
  lemma MissingFileIgnoresSections(filename: string, a: FileInfo, b: FileInfo)
    requires FileRenders(a) && FileRenders(b)
    requires a.missing == b.missing == Some(true)
    requires a.optional == b.optional && a.lastModified == b.lastModified && a.otherFiles == b.otherFiles
    ensures FormatFile(filename, a) == FormatFile(filename, b)
  {
  }

  /** A missing file that is not optional: heading, the note, and one line
      per other file in the directory, indented by four spaces. */
  lemma MissingFileLayout(filename: string, info: FileInfo)
    requires FileRenders(info) && info.missing == Some(true) && info.optional == Some(false)
    requires forall i :: 0 <= i < |info.otherFiles| ==> !Blank(info.otherFiles[i])
    requires forall i, j :: 0 <= i < |info.otherFiles| && 0 <= j < |info.otherFiles[i]| ==> !IsLineBreak(info.otherFiles[i][j])
    ensures FormatFile(filename, info) == Ok(
      FileHeader(filename, info.lastModified) + "\n" + MissingNote + "\n"
      + Join("\n", PrefixEach(ListingIndent, info.otherFiles))
      + "\n\n")
  {
    var header := FileHeader(filename, info.lastModified);
    assert FormatFile(filename, info) == MissingSection(filename, info);
    assert MissingSection(filename, info).value
        == header + "\n" + MissingNote + "\n" + Indent(Join("\n", info.otherFiles), ListingIndent) + "\n\n";
    IndentJoinedLines(info.otherFiles, ListingIndent);
  }

  /** The heading of a missing optional file with a last-modified time is the
      usual heading with the optional mark in place of its newline. */
  lemma OptionalMissingHeading(filename: string, lastModified: string)
    requires lastModified != ""
    ensures Strip(FileHeader(filename, lastModified)) + OptionalMark
         == "## " + filename + " (" + lastModified + ")" + OptionalMark
  {
    var t := "## " + filename + " (" + lastModified + ")";
    var header := FileHeader(filename, lastModified);
    assert header == t + "\n";
    LStripOf(header);
    assert Blank("\n");
    RStripOf(t, "\n");
  }

  /** The sections of all files, in order; the first failing file raises. */
  function FormatFiles(files: seq<(string, FileInfo)>): (r: Result<seq<string>, RenderError>)
    ensures r.Ok? <==> forall i :: 0 <= i < |files| ==> FormatFile(files[i].0, files[i].1).Ok?
    ensures r.Ok? ==> |r.value| == |files|
                      && forall i :: 0 <= i < |files| ==> FormatFile(files[i].0, files[i].1) == Ok(r.value[i])
  {
    MapAll(files, (f: (string, FileInfo)) => FormatFile(f.0, f.1))
  }

  /** `format_files_list`: a blank line, then the file sections separated by blank lines. */
  function FormatFilesList(files: seq<(string, FileInfo)>): (r: Result<string, RenderError>)
    ensures r.Ok? <==> forall i :: 0 <= i < |files| ==> FileRenders(files[i].1)
    ensures files == [] ==> r == Ok("\n\n")
    ensures r.Ok? ==> r.value == "\n\n" + Join("\n\n", FormatFiles(files).value)
  {
    var sections :- FormatFiles(files);
    assert files == [] ==> "\n\n" + Join("\n\n", sections) == "\n\n";
    Ok("\n\n" + Join("\n\n", sections))
  }

  // ---------------------------------------------------------------------
  // The whole report
  // ---------------------------------------------------------------------

  /** The dictionary `format_assignment_markdown` returns; `kind` is its `type`. */
  datatype Report = Report(assignment: string, content: string, student: string, kind: string)

  /** The report text when nothing raises: header, files and a closing blank line. */
  function RenderContent(rec: Recording): (r: Result<string, RenderError>)
    ensures r.Ok? <==> FormatFilesList(rec.files).Ok? && FormatWarnings(rec.warnings).Ok?
    ensures r.Ok? ==> var t := Title(rec.spec, rec.student);
                      |t| <= |r.value| && r.value[..|t|] == t && EndsWith(r.value, "\n\n")
  {
    var files :- FormatFilesList(rec.files);
    var warnings :- FormatWarnings(rec.warnings);
    var header := FormatHeader(rec, warnings);
    var body := header + files;
    Ends(body, "\n\n");
    assert (body + "\n\n")[..|Title(rec.spec, rec.student)|] == header[..|Title(rec.spec, rec.student)|] by {
      PrefixOfLonger(header, files, "\n\n");
    }
    Ok(body + "\n\n")
  }

  /** `format_assignment_markdown`. `traceback` stands for
      `traceback.format_exc()`, the diagnostic text of the error raised. With
      `debug` off a rendering error never escapes: the report then holds the
      diagnostic, indented by four spaces. */
  function FormatAssignmentMarkdown(rec: Recording, debug: bool, traceback: RenderError -> string): (r: Result<Report, RenderError>)
    ensures r.Err? <==> debug && RenderContent(rec).Err?
    ensures r.Err? ==> r.error == RenderContent(rec).error
    ensures r.Ok? ==> r.value.assignment == rec.spec && r.value.student == rec.student && r.value.kind == "md"
    ensures r.Ok? && RenderContent(rec).Ok? ==> r.value.content == RenderContent(rec).value
    ensures r.Ok? && RenderContent(rec).Err? ==>
      r.value.content == Indent(traceback(RenderContent(rec).error), ListingIndent) + "\n\n"
  {
    var content := RenderContent(rec);
    if content.Err? && debug then Err(content.error)
    else
      var text := if content.Ok? then content.value else Indent(traceback(content.error), ListingIndent) + "\n\n";
      Ok(Report(rec.spec, text, rec.student, "md"))
  }

  /** The report content is the header, a blank line, the file sections
      separated by blank lines, and a closing blank line. */
  lemma ContentLayout(rec: Recording)
    requires RenderContent(rec).Ok?
    ensures RenderContent(rec).value
         == FormatHeader(rec, FormatWarnings(rec.warnings).value) + "\n\n"
            + Join("\n\n", FormatFiles(rec.files).value) + "\n\n"
  {
    var header := FormatHeader(rec, FormatWarnings(rec.warnings).value);
    var joined := Join("\n\n", FormatFiles(rec.files).value);
    assert RenderContent(rec).value == header + FormatFilesList(rec.files).value + "\n\n";
    AppendAssoc(header, "\n\n", joined);
  }
}
