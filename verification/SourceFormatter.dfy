/** The source formatter: a line-by-line machine that re-indents, re-spaces and collapses blank lines. */
module SourceFormatter {
  import opened Wrappers
  import opened SourceText
  import opened LineSpacing

  // --- counting brackets ----------------------------------------------------

  predicate IsCloser(c: char) {
    c == '}' || c == ']' || c == ')'
  }

  /** The closing brackets a line starts with, white space between them ignored. */
  function LeadingClosers(s: string): nat {
    if s == "" then 0
    else if IsCloser(s[0]) then 1 + LeadingClosers(s[1..])
    else if IsWhitespace(s[0]) then LeadingClosers(s[1..])
    else 0
  }

  method CountLeadingClosers(s: string) returns (count: nat)
    ensures count == LeadingClosers(s)
  {
    count := 0;
    var rest := s;
    while rest != ""
      invariant count + LeadingClosers(rest) == LeadingClosers(s)
      decreases |rest|
    {
      var c := rest[0];
      if IsCloser(c) {
        count := count + 1;
      } else if !IsWhitespace(c) {
        break;
      }
      rest := rest[1..];
    }
  }

  datatype Braces = Braces(opens: nat, closes: nat) {
    function Plus(c: char): Braces {
      if c == '{' || c == '[' then Braces(opens + 1, closes)
      else if c == '}' || c == ']' then Braces(opens, closes + 1)
      else this
    }
  }

  /** The braces and square brackets of a line outside quoted runs and its trailing comment. */
  function BracesOf(rest: string, scan: Scan): Braces
    decreases |rest|
  {
    if rest == "" then Braces(0, 0)
    else
      var c := rest[0];
      if scan.quote.Some? then BracesOf(rest[1..], AfterQuoted(scan, c))
      else if c == '/' && Peek(rest, 1) == Some('/') then Braces(0, 0)
      else if IsQuote(c) then BracesOf(rest[1..], Scan(Some(c), false))
      else BracesOf(rest[1..], CODE).Plus(c)
  }

  method CountBracesOutsideStrings(s: string) returns (opens: nat, closes: nat)
    ensures Braces(opens, closes) == BracesOf(s, CODE)
  {
    opens, closes := 0, 0;
    var scan, rest := CODE, s;
    while rest != ""
      invariant scan.quote.None? ==> !scan.escaped
      invariant opens + BracesOf(rest, scan).opens == BracesOf(s, CODE).opens
      invariant closes + BracesOf(rest, scan).closes == BracesOf(s, CODE).closes
      decreases |rest|
    {
      var c := rest[0];
      var peek := Peek(rest, 1);
      if scan.quote.Some? {
        scan := AfterQuoted(scan, c);
      } else if c == '/' && peek == Some('/') {
        break;
      } else if c == '"' || c == '\'' || c == '`' {
        scan := Scan(Some(c), false);
      } else if c == '{' || c == '[' {
        opens := opens + 1;
      } else if c == '}' || c == ']' {
        closes := closes + 1;
      }
      rest := rest[1..];
    }
  }

  // --- the line machine -----------------------------------------------------

  /** The formatter's variables; `started` says that something has been written. */
  datatype Layout = Layout(indent: nat, blanks: nat, inComment: bool, started: bool)

  const START := Layout(0, 0, false, false)

  function Minus(a: nat, b: nat): nat {
    if b <= a then a - b else 0
  }

  predicate OpensComment(line: string) {
    StartsWith(line, "/*") && !Contains(line, "*/")
  }

  function Indented(level: nat, text: string): string {
    Spaces(4 * level) + text
  }

  /** One input line: the line written for it, if any. */
  function Written(st: Layout, raw: string): Option<string> {
    var line := Trim(raw);
    if line == "" then
      if !st.inComment && st.blanks == 0 && st.started then Some("") else None
    else if st.inComment || OpensComment(line) then Some(Indented(st.indent, line))
    else Some(Indented(Minus(st.indent, LeadingClosers(line)), FormatLine(line)))
  }

  /** One input line: the variables behind it. */
  function Advance(st: Layout, raw: string): Layout {
    var line := Trim(raw);
    if line == "" then
      if st.inComment then st else st.(blanks := st.blanks + 1)
    else if st.inComment then
      st.(blanks := 0, started := true, inComment := !Contains(line, "*/"))
    else if OpensComment(line) then
      st.(blanks := 0, started := true, inComment := true)
    else
      var braces := BracesOf(line, CODE);
      st.(blanks := 0, started := true, indent := Minus(st.indent + braces.opens, braces.closes))
  }

  function FormatLines(lines: seq<string>, st: Layout): seq<string> {
    if lines == [] then []
    else
      var rest := FormatLines(lines[1..], Advance(st, lines[0]));
      match Written(st, lines[0])
      case None => rest
      case Some(line) => [line] + rest
  }

  function Formatted(source: string): string {
    Unlines(FormatLines(Lines(source), START))
  }

  /** What the machine turns `result` into when `lines` are still to come. */
  function Pending(result: string, lines: seq<string>, st: Layout): string {
    result + Unlines(FormatLines(lines, st))
  }

  lemma PendingStep(result: string, lines: seq<string>, st: Layout)
    requires lines != []
    ensures
      var w := Written(st, lines[0]);
      var result' := if w.None? then result else result + w.value + "\n";
      Pending(result, lines, st) == Pending(result', lines[1..], Advance(st, lines[0]))
  {
    var rest := FormatLines(lines[1..], Advance(st, lines[0]));
    var w := Written(st, lines[0]);
    hide Written, Advance;
    if w.Some? {
      assert ([w.value] + rest)[1..] == rest;
      hide *;
      assert result + (w.value + "\n" + Unlines(rest)) == (result + w.value + "\n") + Unlines(rest);
    }
  }

  method FormatSource(source: string) returns (result: string)
    ensures result == Formatted(source)
  {
    result := "";
    var indentLevel: nat, blankCount: nat, inBlockComment := 0, 0, false;
    var lines := Lines(source);
    assert Pending("", lines, START) == Formatted(source);
    while lines != []
      invariant result != "" ==> result[|result| - 1] == '\n'
      invariant Pending(result, lines, Layout(indentLevel, blankCount, inBlockComment, result != ""))
             == Formatted(source)
      decreases |lines|
    {
      ghost var st := Layout(indentLevel, blankCount, inBlockComment, result != "");
      ghost var w, next := Written(st, lines[0]), Advance(st, lines[0]);
      PendingStep(result, lines, st);
      var rawLine := lines[0];
      lines := lines[1..];
      hide Pending, Formatted, FormatLine, BracesOf, LeadingClosers, Contains, Indented;
      var trimmed := Trim(rawLine);
      if trimmed == "" {
        if !inBlockComment {
          blankCount := blankCount + 1;
          if blankCount <= 1 && result != "" {
            result := result + "" + "\n";
          }
        }
      } else {
        blankCount := 0;
        if inBlockComment {
          result := result + Indented(indentLevel, trimmed) + "\n";
          if Contains(trimmed, "*/") {
            inBlockComment := false;
          }
        } else if StartsWith(trimmed, "/*") && !Contains(trimmed, "*/") {
          inBlockComment := true;
          result := result + Indented(indentLevel, trimmed) + "\n";
        } else {
          var leadingClosers := CountLeadingClosers(trimmed);
          var currentIndent := Minus(indentLevel, leadingClosers);
          var formattedLine := FormatLineTokens(trimmed);
          result := result + Indented(currentIndent, formattedLine) + "\n";
          var opens, closes := CountBracesOutsideStrings(trimmed);
          indentLevel := Minus(indentLevel + opens, closes);
        }
      }
      assert next == Layout(indentLevel, blankCount, inBlockComment, result != "");
    }
    if result != "" && result[|result| - 1] != '\n' {
      result := result + "\n";
    }
  }

  // --- counts depend on the tokens only -------------------------------------

  function TokenClosers(tokens: seq<Token>): nat {
    if tokens != [] && tokens[0].Plain? && IsCloser(tokens[0].c) then 1 + TokenClosers(tokens[1..]) else 0
  }

  lemma {:induction false} ClosersByTokens(s: string)
    ensures LeadingClosers(s) == TokenClosers(Tokens(s, CODE))
  {
    if s != "" {
      var t := Lex(s, CODE);
      assert Tokens(s, CODE) == Kept(t) + Tokens(s[Width(t)..], Next(t, CODE));
      if IsCloser(s[0]) || IsWhitespace(s[0]) {
        assert t == Plain(s[0]);
        var after := Tokens(s[1..], CODE);
        ClosersByTokens(s[1..]);
        assert [] + after == after && ([t] + after)[1..] == after;
      } else {
        assert Kept(t) == [t];
      }
    }
  }

  function TokenBraces(tokens: seq<Token>): Braces {
    if tokens == [] then Braces(0, 0)
    else
      var rest := TokenBraces(tokens[1..]);
      if tokens[0].Plain? then rest.Plus(tokens[0].c) else rest
  }

  /** Both scanners of a line agree on where code ends and quoted text begins. */
  lemma {:induction false} BracesByTokens(rest: string, scan: Scan)
    requires scan.quote.None? ==> !scan.escaped
    ensures BracesOf(rest, scan) == TokenBraces(Tokens(rest, scan))
    decreases |rest|
  {
    if rest != "" {
      var t := Lex(rest, scan);
      var after := rest[Width(t)..];
      assert Tokens(rest, scan) == Kept(t) + Tokens(after, Next(t, scan));
      NextIsCoherent(t, scan);
      BracesByTokens(after, Next(t, scan));
      BracesOfToken(rest, scan);
      TokenBracesStep(t, Tokens(after, Next(t, scan)));
    } else {
      assert Tokens(rest, scan) == [];
    }
  }

  lemma TokenBracesStep(t: Token, tokens: seq<Token>)
    ensures TokenBraces(Kept(t) + tokens) == if t.Plain? then TokenBraces(tokens).Plus(t.c) else TokenBraces(tokens)
  {
    if Kept(t) == [] {
      assert Kept(t) + tokens == tokens;
    } else {
      assert ([t] + tokens)[1..] == tokens;
    }
  }

  lemma BracesOfToken(rest: string, scan: Scan)
    requires rest != "" && (scan.quote.None? ==> !scan.escaped)
    ensures
      var t := Lex(rest, scan);
      var after := BracesOf(rest[Width(t)..], Next(t, scan));
      BracesOf(rest, scan) == if t.Plain? then after.Plus(t.c) else after
  {
    var t := Lex(rest, scan);
    if Width(t) == 2 && !t.Comment? {
      assert rest[1..][1..] == rest[2..];
      assert BracesOf(rest, scan) == BracesOf(rest[1..], CODE);
      assert BracesOf(rest[1..], CODE) == BracesOf(rest[2..], CODE);
    }
  }

  // --- formatting twice -----------------------------------------------------

  /** Two machines that write the same for every line to come. */
  predicate Alike(a: Layout, b: Layout) {
    && a.indent == b.indent && a.inComment == b.inComment && a.started == b.started
    && (a.started ==> (a.blanks == 0 <==> b.blanks == 0))
  }

  lemma TrimOfIndented(level: nat, text: string)
    ensures Trim(Indented(level, text)) == Trim(text)
  {
    TrimDropsIndent(4 * level, text);
  }

  lemma SolidIsTrimmed(line: string)
    requires Solid(line)
    ensures Trim(line) == line
  {
    TrimEndSolid(line);
  }

  /** A line and what was written for it leave the machine in the same place and are written alike. */
  lemma WrittenAgain(a: Layout, b: Layout, raw: string)
    requires Alike(a, b)
    ensures
      match Written(a, raw)
      case None => Alike(Advance(a, raw), b)
      case Some(line) => Written(b, line) == Some(line) && Alike(Advance(a, raw), Advance(b, line))
  {
    var line := Trim(raw);
    TrimIsSolid(raw);
    if line == "" {
      if Written(a, raw).Some? {
        assert Trim("") == "";
      }
    } else if a.inComment || OpensComment(line) {
      hide Contains;
      TrimOfIndented(a.indent, line);
      SolidIsTrimmed(line);
    } else {
      CodeLineAgain(a, b, raw);
    }
  }

  lemma CodeLineAgain(a: Layout, b: Layout, raw: string)
    requires Alike(a, b) && !a.inComment && Solid(Trim(raw)) && !OpensComment(Trim(raw))
    ensures
      var w := Indented(Minus(a.indent, LeadingClosers(Trim(raw))), FormatLine(Trim(raw)));
      && Written(a, raw) == Some(w)
      && Written(b, w) == Some(w)
      && Alike(Advance(a, raw), Advance(b, w))
  {
    var line := Trim(raw);
    var f := FormatLine(line);
    var u := Trim(f);
    FormatLineAgain(line);
    TrimOfIndented(Minus(a.indent, LeadingClosers(line)), f);
    ClosersByTokens(line);
    ClosersByTokens(u);
    BracesByTokens(line, CODE);
    BracesByTokens(u, CODE);
    assert !OpensComment(u) by {
      hide Contains, FormatLine, Tokens;
    }
    hide FormatLine, Tokens, BracesOf, LeadingClosers, TokenClosers, TokenBraces, OpensComment, Indented, Trim;
  }

  lemma {:induction false} FormatLinesAgain(lines: seq<string>, a: Layout, b: Layout)
    requires Alike(a, b)
    ensures FormatLines(FormatLines(lines, a), b) == FormatLines(lines, a)
  {
    if lines != [] {
      var rest := FormatLines(lines[1..], Advance(a, lines[0]));
      WrittenAgain(a, b, lines[0]);
      match Written(a, lines[0])
      case None =>
        FormatLinesAgain(lines[1..], Advance(a, lines[0]), b);
      case Some(line) =>
        FormatLinesAgain(lines[1..], Advance(a, lines[0]), Advance(b, line));
        assert ([line] + rest)[1..] == rest;
    }
  }

  /** What the machine writes splits into the lines it wrote. */
  predicate Terminable(line: string) {
    '\n' !in line && StripCarriageReturn(line) == line
  }

  lemma WrittenIsTerminable(st: Layout, raw: string)
    requires '\n' !in raw
    ensures Written(st, raw).Some? ==> Terminable(Written(st, raw).value)
  {
    var line := Trim(raw);
    TrimIsSolid(raw);
    hide Trim, LeadingClosers, Contains, Indented, FormatLine;
    if line != "" {
      FormatLineIsOneLine(line);
      IndentedIsTerminable(st.indent, line);
      IndentedIsTerminable(Minus(st.indent, LeadingClosers(line)), FormatLine(line));
    }
  }

  lemma FormatLineIsOneLine(line: string)
    requires Solid(line) && '\n' !in line
    ensures var f := FormatLine(line); f != "" && '\n' !in f && f[|f| - 1] != '\r'
  {
    FormatLineAgain(line);
    if !IsCommentLine(line) {
      RespaceOneLine(line, CODE, None);
    }
    hide Respace, Tokens, Trim;
  }

  lemma IndentedIsTerminable(level: nat, text: string)
    requires text != "" && '\n' !in text && text[|text| - 1] != '\r'
    ensures Terminable(Indented(level, text))
  {
    var s := Indented(level, text);
    assert s[|s| - 1] == text[|text| - 1];
  }

  lemma {:induction false} LinesAreTerminated(lines: seq<string>, st: Layout)
    requires forall k :: 0 <= k < |lines| ==> '\n' !in lines[k]
    ensures forall k :: 0 <= k < |FormatLines(lines, st)| ==> Terminable(FormatLines(lines, st)[k])
  {
    if lines != [] {
      LinesAreTerminated(lines[1..], Advance(st, lines[0]));
      WrittenIsTerminable(st, lines[0]);
    }
  }

  lemma {:induction false} LinesHoldNoNewline(s: string)
    ensures forall k :: 0 <= k < |Lines(s)| ==> '\n' !in Lines(s)[k]
    decreases |s|
  {
    if s != "" {
      var i := NewlineIndex(s);
      if i < |s| {
        LinesHoldNoNewline(s[i + 1..]);
      }
    }
  }

  /** Formatting is idempotent, for every source text. */
  lemma FormatTwice(source: string)
    ensures Formatted(Formatted(source)) == Formatted(source)
  {
    var out := FormatLines(Lines(source), START);
    LinesHoldNoNewline(source);
    LinesAreTerminated(Lines(source), START);
    LinesOfUnlines(out);
    FormatLinesAgain(Lines(source), START, START);
  }

  // --- nothing but white space changes --------------------------------------

  lemma SqueezeWritten(st: Layout, raw: string)
    ensures Squeeze(if Written(st, raw).Some? then Written(st, raw).value else "") == Squeeze(raw)
  {
    var line := Trim(raw);
    SqueezeTrim(raw);
    if line != "" {
      if !IsCommentLine(line) {
        RespaceSqueeze(line, CODE, None);
      }
      hide Respace, LeadingClosers, Contains, Trim, Squeeze;
      SqueezeIndented(st.indent, line);
      SqueezeIndented(Minus(st.indent, LeadingClosers(line)), FormatLine(line));
    }
  }

  lemma SqueezeIndented(level: nat, text: string)
    ensures Squeeze(Indented(level, text)) == Squeeze(text)
  {
    SqueezeSpaces(4 * level);
    SqueezeConcat(Spaces(4 * level), text);
  }

  lemma SqueezeUnlines(line: string, lines: seq<string>)
    ensures Squeeze(Unlines([line] + lines)) == Squeeze(line) + Squeeze(Unlines(lines))
  {
    assert ([line] + lines)[1..] == lines;
    SqueezeConcat(line + "\n", Unlines(lines));
    SqueezeConcat(line, "\n");
    assert Squeeze("\n") == "" by {
      assert "\n"[1..] == "";
    }
  }

  lemma {:induction false} SqueezeFormatLines(lines: seq<string>, st: Layout)
    ensures Squeeze(Unlines(FormatLines(lines, st))) == Squeeze(Unlines(lines))
  {
    if lines != [] {
      var rest := FormatLines(lines[1..], Advance(st, lines[0]));
      SqueezeFormatLines(lines[1..], Advance(st, lines[0]));
      SqueezeWritten(st, lines[0]);
      assert [lines[0]] + lines[1..] == lines;
      SqueezeUnlines(lines[0], lines[1..]);
      var w := Written(st, lines[0]);
      hide Squeeze, Written, Advance, Unlines;
      if w.Some? {
        SqueezeUnlines(w.value, rest);
      } else {
        assert Squeeze("") == "" by { SqueezeSpaces(0); assert Spaces(0) == ""; }
      }
    }
  }

  /** Formatting conserves content: only white space is added or dropped. */
  lemma FormatConservesContent(source: string)
    ensures Squeeze(Formatted(source)) == Squeeze(source)
  {
    SqueezeFormatLines(Lines(source), START);
    SqueezeLines(source);
  }

  /** What a line says to a reader who ignores layout. */
  datatype Content = Remark(text: string) | Code(tokens: seq<Token>)

  function ContentOf(line: string, inComment: bool): Content {
    if inComment || IsCommentLine(line) then Remark(line) else Code(Tokens(line, CODE))
  }

  /** The contents of the non-blank lines, in order. */
  function Contents(lines: seq<string>, inComment: bool): seq<Content> {
    if lines == [] then []
    else
      var line := Trim(lines[0]);
      if line == "" then Contents(lines[1..], inComment)
      else
        var inside := if inComment then !Contains(line, "*/") else OpensComment(line);
        [ContentOf(line, inComment)] + Contents(lines[1..], inside)
  }

  /**
   * Formatting keeps every non-blank line, in order: comments word for word, and of a line of code every token
   * with its text, so that quoted runs are copied character by character.
   */
  lemma {:induction false} FormatKeepsContents(lines: seq<string>, st: Layout)
    ensures Contents(FormatLines(lines, st), st.inComment) == Contents(lines, st.inComment)
  {
    if lines != [] {
      var raw := lines[0];
      var rest := FormatLines(lines[1..], Advance(st, raw));
      FormatKeepsContents(lines[1..], Advance(st, raw));
      TrimIsSolid(raw);
      var w := Written(st, raw);
      if Trim(raw) == "" {
        if w.Some? {
          assert Trim("") == "" && ([""] + rest)[1..] == rest;
        }
      } else {
        ContentWritten(st, raw);
        hide Written, Advance, OpensComment, Contains, Trim, ContentOf;
        assert ([w.value] + rest)[1..] == rest;
      }
    }
  }

  lemma ContentWritten(st: Layout, raw: string)
    requires Trim(raw) != ""
    ensures
      var line, w := Trim(raw), Written(st, raw);
      && w.Some? && Trim(w.value) != ""
      && ContentOf(Trim(w.value), st.inComment) == ContentOf(line, st.inComment)
      && Advance(st, raw).inComment == (if st.inComment then !Contains(line, "*/") else OpensComment(line))
      && (if st.inComment then !Contains(Trim(w.value), "*/") else OpensComment(Trim(w.value)))
         == Advance(st, raw).inComment
  {
    var line := Trim(raw);
    TrimIsSolid(raw);
    hide Contains, LeadingClosers, Tokens, BracesOf, FormatLine, Indented;
    if st.inComment || OpensComment(line) {
      TrimOfIndented(st.indent, line);
      SolidIsTrimmed(line);
    } else {
      TrimOfIndented(Minus(st.indent, LeadingClosers(line)), FormatLine(line));
      FormatLineAgain(line);
    }
  }

  /** No text starts with a blank line or holds two in a row once it is formatted. */
  lemma {:induction false} BlankRunsCollapse(lines: seq<string>, st: Layout)
    ensures
      var out := FormatLines(lines, st);
      && (forall k :: 1 <= k < |out| ==> out[k] != "" || out[k - 1] != "")
      && (out != [] && out[0] == "" ==> st.started && st.blanks == 0)
  {
    if lines != [] {
      var next, w := Advance(st, lines[0]), Written(st, lines[0]);
      BlankRunsCollapse(lines[1..], next);
      BlankWritten(st, lines[0]);
      var rest := FormatLines(lines[1..], next);
      hide Advance, Written;
      if w.Some? {
        var out := [w.value] + rest;
        assert forall k :: 1 <= k < |out| ==> out[k] == rest[k - 1];
      }
    }
  }

  lemma BlankWritten(st: Layout, raw: string)
    ensures
      var next, w := Advance(st, raw), Written(st, raw);
      && (w == Some("") ==> st.started && st.blanks == 0 && next.blanks > 0)
      && (w == None ==> next.started && next.blanks == 0 ==> st.started && st.blanks == 0)
  {
    var line := Trim(raw);
    TrimIsSolid(raw);
    if line != "" {
      FormatLineAgain(line);
      hide Contains, LeadingClosers, FormatLine, Tokens;
    }
  }
}
