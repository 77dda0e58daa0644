/** The Python string operations the report renderer relies on:
    `str.isspace`, `str.rstrip`/`str.strip`, `sep.join`, `str.split`,
    `str.splitlines(True)` and `textwrap.indent`. */
module Text {

  /** Characters for which Python's `str.isspace` holds. */
  predicate IsSpace(c: char)
  {
    || ('\t' <= c <= '\r')
    || ('\U{1C}' <= c <= ' ')
    || c == '\U{85}' || c == '\U{A0}' || c == '\U{1680}'
    || ('\U{2000}' <= c <= '\U{200A}')
    || c == '\U{2028}' || c == '\U{2029}' || c == '\U{202F}' || c == '\U{205F}' || c == '\U{3000}'
  }

  /** Line boundaries of Python's `str.splitlines` ("\r\n" counts as one). */
  predicate IsLineBreak(c: char)
  {
    || ('\n' <= c <= '\r')
    || ('\U{1C}' <= c <= '\U{1E}')
    || c == '\U{85}' || c == '\U{2028}' || c == '\U{2029}'
  }

  /** Empty or whitespace only: what `not s.strip()` tests. */
  predicate Blank(s: string)
  {
    s == [] || (IsSpace(s[0]) && Blank(s[1..]))
  }

  /** `Blank` holds exactly when every character is whitespace. */
  lemma {:induction false} BlankChars(s: string)
    ensures Blank(s) <==> forall i :: 0 <= i < |s| ==> IsSpace(s[i])
    decreases |s|
  {
    if s != [] {
      BlankChars(s[1..]);
      assert forall i :: 1 <= i < |s| ==> s[i] == s[1..][i - 1];
    }
  }

  /** Two blank texts make a blank text. */
  lemma {:induction false} BlankAppend(a: string, b: string)
    requires Blank(a) && Blank(b)
    ensures Blank(a + b)
  {
    BlankChars(a);
    BlankChars(b);
    BlankChars(a + b);
  }

  /** Python's `s.rstrip()`. */
  function RStrip(s: string): (r: string)
    ensures |r| <= |s| && r == s[..|r|]
    ensures Blank(s[|r|..])
    ensures r == [] || !IsSpace(r[|r| - 1])
  {
    if s != [] && IsSpace(s[|s| - 1]) then
      var r := RStrip(s[..|s| - 1]);
      assert s[|r|..] == s[..|s| - 1][|r|..] + [s[|s| - 1]];
      BlankAppend(s[..|s| - 1][|r|..], [s[|s| - 1]]);
      r
    else s
  }

  /** Python's `s.lstrip()`. */
  function LStrip(s: string): (r: string)
    ensures |r| <= |s| && r == s[|s| - |r|..]
    ensures Blank(s[..|s| - |r|])
    ensures r == [] || !IsSpace(r[0])
  {
    if s != [] && IsSpace(s[0]) then
      var r := LStrip(s[1..]);
      assert s[..|s| - |r|] == [s[0]] + s[1..][..|s[1..]| - |r|];
      r
    else s
  }

  /** Python's `s.strip()`. */
  function Strip(s: string): string
  {
    RStrip(LStrip(s))
  }

  /** `s.rstrip()` is empty exactly when `s` is blank. */
  lemma {:induction false} RStripEmptyIffBlank(s: string)
    ensures RStrip(s) == [] <==> Blank(s)
  {
    var r := RStrip(s);
    BlankChars(s);
    BlankChars(s[|r|..]);
    if r != [] {
      assert r[|r| - 1] == s[|r| - 1];
    } else {
      assert s[|r|..] == s;
    }
  }

  /** `rstrip` removes exactly the trailing whitespace: whatever ends in a
      non-space character followed by whitespace strips back to that point. */
  lemma {:induction false} RStripOf(t: string, w: string)
    requires t == [] || !IsSpace(t[|t| - 1])
    requires Blank(w)
    ensures RStrip(t + w) == t
    decreases |w|
  {
    var s := t + w;
    if w == [] {
      assert s == t;
    } else {
      var w' := w[..|w| - 1];
      assert IsSpace(w[|w| - 1]) && Blank(w') by {
        BlankChars(w);
        BlankChars(w');
      }
      assert s[|s| - 1] == w[|w| - 1];
      assert s[..|s| - 1] == t + w';
      RStripOf(t, w');
    }
  }

  /** `lstrip` leaves a string that starts with a non-space character alone. */
  lemma LStripOf(s: string)
    requires s == [] || !IsSpace(s[0])
    ensures LStrip(s) == s
  {
  }

  /** Python's `sep.join(parts)`. */
  function Join(sep: string, parts: seq<string>): string
  {
    if |parts| == 0 then ""
    else if |parts| == 1 then parts[0]
    else Join(sep, parts[..|parts| - 1]) + sep + parts[|parts| - 1]
  }

  /** Joining two non-empty lists puts one separator between their joins. */
  lemma {:induction false} JoinConcat(sep: string, a: seq<string>, b: seq<string>)
    requires |a| > 0 && |b| > 0
    ensures Join(sep, a + b) == Join(sep, a) + sep + Join(sep, b)
    decreases |b|
  {
    var ab := a + b;
    if |b| == 1 {
      assert ab[..|ab| - 1] == a;
    } else {
      var b' := b[..|b| - 1];
      assert ab[..|ab| - 1] == a + b';
      JoinConcat(sep, a, b');
    }
  }

  /** `sep.join([x] + rest)` for a non-empty `rest`. */
  lemma JoinCons(sep: string, x: string, rest: seq<string>)
    requires |rest| > 0
    ensures Join(sep, [x] + rest) == x + sep + Join(sep, rest)
  {
    JoinConcat(sep, [x], rest);
  }

  /** `sep.join` of three parts. */
  lemma JoinThree(sep: string, a: string, b: string, c: string)
    ensures Join(sep, [a, b, c]) == a + sep + b + sep + c
  {
    assert [a, b, c][..2] == [a, b];
    assert [a, b][..1] == [a];
    assert Join(sep, [a, b]) == a + sep + b;
    assert Join(sep, [a, b, c]) == Join(sep, [a, b]) + sep + c;
  }

  /** `sep.join` of four parts. */
  lemma JoinFour(sep: string, a: string, b: string, c: string, d: string)
    ensures Join(sep, [a, b, c, d]) == a + sep + b + sep + c + sep + d
  {
    assert [a, b, c, d][..3] == [a, b, c];
    JoinThree(sep, a, b, c);
  }

  /** Python's `s.split(sep)` for a one-character separator: the pieces
      between separators, from the first character to the last. */
  function Split(sep: char, s: string): (parts: seq<string>)
    ensures |parts| > 0
  {
    if s == [] then [""]
    else
      var init := Split(sep, s[..|s| - 1]);
      var c := s[|s| - 1];
      if c == sep then init + [""]
      else init[..|init| - 1] + [init[|init| - 1] + [c]]
  }

  /** The pieces of a split hold no separator; the last piece is the text
      after the last separator (all of `s` when it has none). */
  lemma SplitPieces(sep: char, s: string)
    ensures forall i :: 0 <= i < |Split(sep, s)| ==> sep !in Split(sep, s)[i]
    ensures sep !in s ==> Split(sep, s) == [s]
    ensures var parts := Split(sep, s);
            var last := parts[|parts| - 1];
            && |last| <= |s|
            && last == s[|s| - |last|..]
            && (|last| < |s| ==> s[|s| - |last| - 1] == sep)
  {
    SplitSeparatorFree(sep, s);
    SplitLastPiece(sep, s);
  }

  /** No piece of a split holds the separator. */
  lemma {:induction false} SplitSeparatorFree(sep: char, s: string)
    ensures forall i :: 0 <= i < |Split(sep, s)| ==> sep !in Split(sep, s)[i]
    decreases |s|
  {
    if s != [] {
      var s' := s[..|s| - 1];
      var c := s[|s| - 1];
      SplitSeparatorFree(sep, s');
      var init := Split(sep, s');
      var parts := Split(sep, s);
      if c != sep {
        var last := init[|init| - 1];
        assert sep !in last + [c];
        assert forall i :: 0 <= i < |parts| - 1 ==> parts[i] == init[i];
      } else {
        assert forall i :: 0 <= i < |parts| - 1 ==> parts[i] == init[i];
      }
    }
  }

  /** The last piece of a split is the text after the last separator, and
      the whole text when there is no separator. */
  lemma {:induction false} SplitLastPiece(sep: char, s: string)
    ensures sep !in s ==> Split(sep, s) == [s]
    ensures var parts := Split(sep, s);
            var last := parts[|parts| - 1];
            && |last| <= |s|
            && last == s[|s| - |last|..]
            && (|last| < |s| ==> s[|s| - |last| - 1] == sep)
    decreases |s|
  {
    if s != [] {
      var s' := s[..|s| - 1];
      var c := s[|s| - 1];
      assert s == s' + [c];
      SplitLastPiece(sep, s');
      if sep !in s {
        assert sep !in s';
      }
    }
  }

  /** Splitting a joined list gives the list back, when no piece holds the separator. */
  lemma {:induction false} SplitJoin(sep: char, parts: seq<string>)
    requires |parts| > 0
    requires forall i :: 0 <= i < |parts| ==> sep !in parts[i]
    ensures Split(sep, Join([sep], parts)) == parts
    decreases |parts|
  {
    if |parts| == 1 {
      SplitPieces(sep, parts[0]);
    } else {
      var init := parts[..|parts| - 1];
      SplitJoin(sep, init);
      SplitAfterSeparator(sep, Join([sep], init), parts[|parts| - 1]);
    }
  }

  /** A separator followed by separator-free text closes the split with that text. */
  lemma {:induction false} SplitAfterSeparator(sep: char, a: string, b: string)
    requires sep !in b
    ensures Split(sep, a + [sep] + b) == Split(sep, a) + [b]
    decreases |b|
  {
    var s := a + [sep] + b;
    if b == [] {
      assert s[..|s| - 1] == a;
      assert s[|s| - 1] == sep;
    } else {
      var b' := b[..|b| - 1];
      var c := b[|b| - 1];
      assert c != sep;
      assert s[..|s| - 1] == a + [sep] + b';
      assert s[|s| - 1] == c;
      SplitAfterSeparator(sep, a, b');
      var init := Split(sep, a + [sep] + b');
      assert init[..|init| - 1] == Split(sep, a);
      assert b' + [c] == b;
    }
  }

  /** Python's `name.split('.')[-1]`: the text after the last '.', or the
      whole name when it has none. */
  function Extension(name: string): (ext: string)
    ensures '.' !in ext
    ensures |ext| <= |name| && ext == name[|name| - |ext|..]
    ensures |ext| < |name| ==> name[|name| - |ext| - 1] == '.'
    ensures '.' !in name ==> ext == name
  {
    SplitPieces('.', name);
    var parts := Split('.', name);
    parts[|parts| - 1]
  }

  /** Length of the first line of `s` as `str.splitlines(True)` cuts it,
      terminator included. */
  function LineLength(s: string): (k: nat)
    requires s != []
    ensures 0 < k <= |s|
    ensures k < |s| ==> IsLineBreak(s[k - 1]) && !(s[k - 1] == '\r' && s[k] == '\n')
  {
    LineEndBreak(s, 0);
    LineEnd(s, 0)
  }

  /** Where the line of `s` running through position `i` ends. */
  function LineEnd(s: string, i: nat): (j: nat)
    requires i < |s|
    ensures i < j <= |s|
    decreases |s| - i
  {
    if IsLineBreak(s[i]) then
      (if s[i] == '\r' && i + 1 < |s| && s[i + 1] == '\n' then i + 2 else i + 1)
    else if i + 1 == |s| then |s|
    else LineEnd(s, i + 1)
  }

  /** A line that ends before the end of the text ends with a line break,
      and never between the two characters of `\r\n`. */
  lemma {:induction false} LineEndBreak(s: string, i: nat)
    requires i < |s|
    ensures var j := LineEnd(s, i);
            j < |s| ==> IsLineBreak(s[j - 1]) && !(s[j - 1] == '\r' && s[j] == '\n')
    decreases |s| - i
  {
    if !IsLineBreak(s[i]) && i + 1 < |s| {
      LineEndBreak(s, i + 1);
    }
  }

  /** Appending text after a complete line does not change where it ends. */
  lemma {:induction false} LineEndAppend(a: string, b: string, i: nat)
    requires i < |a|
    requires LineEnd(a, i) < |a| || (IsLineBreak(a[|a| - 1]) && !(a[|a| - 1] == '\r' && b != [] && b[0] == '\n'))
    ensures LineEnd(a + b, i) == LineEnd(a, i)
    decreases |a| - i
  {
    var ab := a + b;
    assert ab[i] == a[i];
    if IsLineBreak(a[i]) {
      if i + 1 < |a| {
        assert ab[i + 1] == a[i + 1];
      } else if b != [] {
        assert ab[i + 1] == b[0];
      }
    } else if i + 1 < |a| {
      LineEndAppend(a, b, i + 1);
    }
  }

  /** The first line of `a + b` is that of `a` when `a`'s first line is complete. */
  lemma LineLengthAppend(a: string, b: string)
    requires a != []
    requires LineLength(a) < |a| || (IsLineBreak(a[|a| - 1]) && !(a[|a| - 1] == '\r' && b != [] && b[0] == '\n'))
    ensures LineLength(a + b) == LineLength(a)
  {
    LineEndAppend(a, b, 0);
  }

  /** Characters that are not line breaks do not end a line. */
  lemma {:induction false} LineEndSkip(s: string, i: nat, j: nat)
    requires i <= j < |s|
    requires forall m :: i <= m < j ==> !IsLineBreak(s[m])
    ensures LineEnd(s, i) == LineEnd(s, j)
    decreases j - i
  {
    if i < j {
      LineEndSkip(s, i + 1, j);
    }
  }

  /** Python's `textwrap.indent(s, prefix)`: `prefix` goes in front of every
      line (as `str.splitlines(True)` cuts them) that is not blank. */
  function Indent(s: string, prefix: string): (r: string)
    ensures |s| <= |r|
    ensures !Blank(s) ==> |s| + |prefix| <= |r|
    ensures Blank(s) || prefix == [] ==> r == s
    decreases |s|
  {
    if s == [] then []
    else
      var k := LineLength(s);
      BlankSplit(s, k);
      IndentLineLaws(s[..k], prefix);
      assert s[..k] + s[k..] == s;
      IndentLine(s[..k], prefix) + Indent(s[k..], prefix)
  }

  /** What `IndentLine` does to the length and when it leaves the line alone. */
  lemma IndentLineLaws(line: string, prefix: string)
    ensures |IndentLine(line, prefix)| == if Blank(line) then |line| else |line| + |prefix|
    ensures Blank(line) || prefix == [] ==> IndentLine(line, prefix) == line
  {
  }

  /** A text is blank exactly when both pieces of a cut through it are. */
  lemma {:induction false} BlankSplit(s: string, k: nat)
    requires k <= |s|
    ensures Blank(s) <==> Blank(s[..k]) && Blank(s[k..])
  {
    if k == 0 {
      assert s[k..] == s;
    } else {
      BlankSplit(s[1..], k - 1);
      assert s[..k][1..] == s[1..][..k - 1];
      assert s[k..] == s[1..][k - 1..];
    }
  }

  /** What `Indent` does to one line. */
  function IndentLine(line: string, prefix: string): string
  {
    if Blank(line) then line else prefix + line
  }

  /** Indentation works line by line: text after a newline is indented on its own. */
  lemma {:induction false} IndentConcat(a: string, b: string, prefix: string)
    requires a == [] || a[|a| - 1] == '\n'
    ensures Indent(a + b, prefix) == Indent(a, prefix) + Indent(b, prefix)
    decreases |a|
  {
    if a == [] {
      assert a + b == b;
    } else {
      var k := LineLength(a);
      var line, rest := a[..k], a[k..];
      assert Indent(a + b, prefix) == IndentLine(line, prefix) + Indent(rest + b, prefix) by {
        LineLengthAppend(a, b);
        assert (a + b)[..k] == line;
        assert (a + b)[k..] == rest + b;
      }
      assert rest == [] || rest[|rest| - 1] == '\n';
      IndentConcat(rest, b, prefix);
      AppendAssoc(IndentLine(line, prefix), Indent(rest, prefix), Indent(b, prefix));
    }
  }

  /** Concatenation is associative. */
  lemma AppendAssoc(x: string, y: string, z: string)
    ensures (x + y) + z == x + (y + z)
  {
  }

  /** A single line with no line breaks and some visible character gets exactly one prefix. */
  lemma {:induction false} IndentSingleLine(line: string, prefix: string)
    requires forall i :: 0 <= i < |line| ==> !IsLineBreak(line[i])
    requires !Blank(line)
    ensures Indent(line + "\n", prefix) == prefix + line + "\n"
    ensures Indent(line, prefix) == prefix + line
  {
    assert line != [];
    var l := line + "\n";
    assert LineLength(l) == |l| by {
      assert forall m :: 0 <= m < |line| ==> l[m] == line[m];
      LineEndSkip(l, 0, |line|);
      assert l[|line|] == '\n';
    }
    assert !Blank(l) by {
      BlankChars(line);
      BlankChars(l);
      var m :| 0 <= m < |line| && !IsSpace(line[m]);
      assert l[m] == line[m];
    }
    assert l[..|l|] == l && l[|l|..] == [];
    assert Indent(l, prefix) == IndentLine(l, prefix) + Indent([], prefix);
    assert LineLength(line) == |line| by {
      LineEndSkip(line, 0, |line| - 1);
    }
    assert line[..|line|] == line && line[|line|..] == [];
    assert Indent(line, prefix) == IndentLine(line, prefix) + Indent([], prefix);
  }

  /** `prefix` put in front of every one of `names`. */
  function PrefixEach(prefix: string, names: seq<string>): (r: seq<string>)
    ensures |r| == |names|
    ensures forall i :: 0 <= i < |names| ==> r[i] == prefix + names[i]
  {
    seq(|names|, i requires 0 <= i < |names| => prefix + names[i])
  }

  /** Indenting a newline-joined list of single-line, non-blank names puts the
      prefix in front of each name. */
  lemma {:induction false} IndentJoinedLines(names: seq<string>, prefix: string)
    requires forall i :: 0 <= i < |names| ==> !Blank(names[i])
    requires forall i, j :: 0 <= i < |names| && 0 <= j < |names[i]| ==> !IsLineBreak(names[i][j])
    ensures Indent(Join("\n", names), prefix) == Join("\n", PrefixEach(prefix, names))
    decreases |names|
  {
    if |names| == 1 {
      IndentSingleLine(names[0], prefix);
    } else if |names| > 1 {
      IndentJoinedLines(names[1..], prefix);
      IndentJoinedCons(names, prefix);
    }
  }

  /** The inductive step of `IndentJoinedLines`: the first name's line is
      indented on its own, the rest as a block. */
  lemma IndentJoinedCons(names: seq<string>, prefix: string)
    requires |names| > 1
    requires !Blank(names[0])
    requires forall j :: 0 <= j < |names[0]| ==> !IsLineBreak(names[0][j])
    requires Indent(Join("\n", names[1..]), prefix) == Join("\n", PrefixEach(prefix, names[1..]))
    ensures Indent(Join("\n", names), prefix) == Join("\n", PrefixEach(prefix, names))
  {
    var first := names[0];
    var tail := Join("\n", names[1..]);
    var indented := PrefixEach(prefix, names);
    assert indented[1..] == PrefixEach(prefix, names[1..]);
    var indentedTail := Join("\n", indented[1..]);
    JoinHead("\n", names);
    JoinHead("\n", indented);
    assert first + "\n" + tail == (first + "\n") + tail;
    IndentConcat(first + "\n", tail, prefix);
    IndentSingleLine(first, prefix);
    assert (prefix + first + "\n") + indentedTail == indented[0] + "\n" + indentedTail;
  }

  /** `sep.join(parts)` for two or more parts: the first part, a separator,
      then the join of the rest. */
  lemma JoinHead(sep: string, parts: seq<string>)
    requires |parts| > 1
    ensures Join(sep, parts) == parts[0] + sep + Join(sep, parts[1..])
  {
    assert parts == [parts[0]] + parts[1..];
    JoinCons(sep, parts[0], parts[1..]);
  }

  // ---------------------------------------------------------------------
  // repr of a string
  // ---------------------------------------------------------------------

  /** The quote `repr` puts around `s`: a double quote when `s` holds a
      single quote and no double quote, a single quote otherwise. */
  function ReprQuote(s: string): char
  {
    if '\'' in s && '"' !in s then '"' else '\''
  }

  /** Characters below U+0100 that `repr` writes as `\xhh`: the control
      characters other than tab, newline and carriage return, DEL through
      the no-break space, and the soft hyphen. */
  predicate EscapedAsHex(c: char)
  {
    || (c < ' ' && c != '\t' && c != '\n' && c != '\r')
    || ('\U{7F}' <= c <= '\U{A0}')
    || c == '\U{AD}'
  }

  /** A lower-case hexadecimal digit. */
  function HexDigit(n: nat): (d: char)
    requires n < 16
  {
    if n < 10 then (48 + n) as char else (87 + n) as char
  }

  /** The value of a lower-case hexadecimal digit; 0 for any other character. */
  function HexValue(d: char): (n: nat)
    ensures n < 16
  {
    if '0' <= d <= '9' then d as int - 48
    else if 'a' <= d <= 'f' then d as int - 87
    else 0
  }

  /** How `repr` writes one character inside quotes `q`. */
  function EscapeChar(c: char, q: char): string
  {
    if c == '\\' then "\\\\"
    else if c == q then ['\\', q]
    else if c == '\t' then "\\t"
    else if c == '\n' then "\\n"
    else if c == '\r' then "\\r"
    else if EscapedAsHex(c) then ['\\', 'x', HexDigit(c as int / 16), HexDigit(c as int % 16)]
    else [c]
  }

  /** The characters of `s`, each written as `repr` writes it. */
  function EscapeBody(s: string, q: char): string
  {
    if s == [] then [] else EscapeChar(s[0], q) + EscapeBody(s[1..], q)
  }

  /** `repr(s)` of a string whose characters are all below U+0100 or printable. */
  function Repr(s: string): (r: string)
    ensures 2 <= |r| && r[0] == r[|r| - 1] == ReprQuote(s)
    ensures ('\'' !in s || '"' in s) ==> r[0] == '\''
  {
    [ReprQuote(s)] + EscapeBody(s, ReprQuote(s)) + [ReprQuote(s)]
  }

  /** Reads the inside of a `repr` back: the escapes `repr` writes are
      replaced by the characters they stand for. */
  function Unescape(t: string): string
    decreases |t|
  {
    if t == [] then []
    else if t[0] == '\\' && |t| >= 4 && t[1] == 'x' then
      [(HexValue(t[2]) * 16 + HexValue(t[3])) as char] + Unescape(t[4..])
    else if t[0] == '\\' && |t| >= 2 then
      var c := if t[1] == 't' then '\t' else if t[1] == 'n' then '\n' else if t[1] == 'r' then '\r' else t[1];
      [c] + Unescape(t[2..])
    else [t[0]] + Unescape(t[1..])
  }

  /** Reading one written character back gives the character. */
  lemma UnescapeChar(c: char, q: char, rest: string)
    requires q == '\'' || q == '"'
    ensures Unescape(EscapeChar(c, q) + rest) == [c] + Unescape(rest)
  {
    var e := EscapeChar(c, q);
    if EscapedAsHex(c) && c != q {
      var hi, lo := c as int / 16, c as int % 16;
      assert HexValue(HexDigit(hi)) == hi && HexValue(HexDigit(lo)) == lo;
      assert (e + rest)[4..] == rest;
      assert (hi * 16 + lo) as char == c;
    } else if c == '\\' || c == q || c == '\t' || c == '\n' || c == '\r' {
      assert (e + rest)[2..] == rest;
    } else {
      assert (e + rest)[1..] == rest;
    }
  }

  /** Reading a written text back gives the text. */
  lemma {:induction false} UnescapeBody(s: string, q: char)
    requires q == '\'' || q == '"'
    ensures Unescape(EscapeBody(s, q)) == s
    decreases |s|
  {
    if s != [] {
      UnescapeBody(s[1..], q);
      UnescapeChar(s[0], q, EscapeBody(s[1..], q));
      assert s == [s[0]] + s[1..];
    }
  }

  /** `repr` loses nothing: the text between its quotes reads back as `s`. */
  lemma ReprRoundTrip(s: string)
    ensures var r := Repr(s); Unescape(r[1..|r| - 1]) == s
  {
    var q := ReprQuote(s);
    assert Repr(s)[1..|Repr(s)| - 1] == EscapeBody(s, q);
    UnescapeBody(s, q);
  }

  /** A text with no quote, backslash or escaped character is written as it is. */
  lemma {:induction false} EscapeBodyPlain(s: string, q: char)
    requires forall i :: 0 <= i < |s| ==> s[i] != q && s[i] != '\\' && !IsLineBreak(s[i]) && s[i] != '\t' && !EscapedAsHex(s[i])
    ensures EscapeBody(s, q) == s
    decreases |s|
  {
    if s != [] {
      EscapeBodyPlain(s[1..], q);
      assert s == [s[0]] + s[1..];
    }
  }
}
