/** How the formatter spaces the tokens of one line of code. */
module LineSpacing {
  import opened Wrappers
  import opened SourceText

  /** Where a left-to-right scan of a line stands: inside a quoted run or not. */
  datatype Scan = Scan(quote: Option<char>, escaped: bool)

  const CODE := Scan(None, false)

  /** What the spacer distinguishes on a line. */
  datatype Token =
    | Quoted(c: char)         // a character of a quoted run, its delimiters included
    | Comment(text: string)   // "//" and everything behind it
    | Arrow(c: char)          // "=>" or "|>"
    | PathSeparator           // "::"
    | Comma
    | Colon
    | Plain(c: char)

  function Width(t: Token): nat {
    match t
    case Comment(text) => |text|
    case Arrow(_) => 2
    case PathSeparator => 2
    case _ => 1
  }

  predicate IsQuote(c: char) {
    c == '"' || c == '\'' || c == '`'
  }

  function Peek(rest: string, n: nat): Option<char> {
    if n < |rest| then Some(rest[n]) else None
  }

  function LastOf(s: string): Option<char> {
    if s == "" then None else Some(s[|s| - 1])
  }

  function AfterQuoted(scan: Scan, c: char): Scan
    requires scan.quote.Some?
  {
    if scan.escaped then Scan(scan.quote, false)
    else if c == '\\' then Scan(scan.quote, true)
    else if c == scan.quote.value then CODE
    else scan
  }

  /** The first token of a non-empty rest of a line. */
  function Lex(rest: string, scan: Scan): (t: Token)
    requires rest != ""
    ensures 0 < Width(t) <= |rest|
  {
    var c, peek := rest[0], Peek(rest, 1);
    if scan.quote.Some? then Quoted(c)
    else if c == '/' && peek == Some('/') then Comment(rest)
    else if IsQuote(c) then Quoted(c)
    else if c == ',' then Comma
    else if c == ':' then if peek == Some(':') then PathSeparator else Colon
    else if (c == '|' || c == '=') && peek == Some('>') then Arrow(c)
    else Plain(c)
  }

  /** The scan behind a token. */
  function Next(t: Token, scan: Scan): Scan {
    if t.Quoted? then if scan.quote.Some? then AfterQuoted(scan, t.c) else Scan(Some(t.c), false)
    else CODE
  }

  /** Whether a space is put before a token; `last` is the last character written so far. */
  predicate GapBefore(t: Token, last: Option<char>) {
    || (t.Comment? && last.Some? && last.value != ' ')
    || (t.Arrow? && last != Some(' '))
  }

  /** Whether a space is put behind a token that the character `peek` follows. */
  predicate GapBehind(t: Token, peek: Option<char>) {
    || (t.Comma? && peek.Some? && peek.value != ' ' && peek.value != '\n' && peek.value != ')')
    || (t.Colon? && peek.Some? && peek.value != ' ' && peek.value != ':')
    || (t.Arrow? && peek != Some(' '))
  }

  function Pad(gap: bool): string {
    if gap then " " else ""
  }

  /** `out` with the next `taken` characters of the rest written behind it. */
  function Append(out: string, before: bool, rest: string, taken: nat, behind: bool): string
    requires taken <= |rest|
  {
    out + (Pad(before) + rest[..taken] + Pad(behind))
  }

  /** The first token of `rest` with the spaces around it. */
  function Piece(rest: string, scan: Scan, last: Option<char>): (s: string)
    requires rest != ""
    ensures s != ""
  {
    var t := Lex(rest, scan);
    Pad(GapBefore(t, last)) + rest[..Width(t)] + Pad(GapBehind(t, Peek(rest, Width(t))))
  }

  /** What the scan of `rest` appends to a line whose last written character is `last`. */
  function Respace(rest: string, scan: Scan, last: Option<char>): string
    decreases |rest|
  {
    if rest == "" then ""
    else
      var t := Lex(rest, scan);
      var piece := Piece(rest, scan, last);
      piece + Respace(rest[Width(t)..], Next(t, scan), LastOf(piece))
  }

  predicate IsCommentLine(line: string) {
    StartsWith(line, "//") || StartsWith(line, "/*") || StartsWith(line, "*")
  }

  function FormatLine(line: string): string {
    if IsCommentLine(line) then line else Respace(line, CODE, None)
  }

  // --- the scanner loop -----------------------------------------------------

  /** What the scan turns `out` into when `rest` is still to be read. */
  function Completed(rest: string, scan: Scan, out: string): string {
    out + Respace(rest, scan, LastOf(out))
  }

  lemma Associative(a: string, b: string, c: string)
    ensures a + (b + c) == (a + b) + c
  {
  }

  lemma LastOfConcat(a: string, b: string)
    requires b != ""
    ensures LastOf(a + b) == LastOf(b)
  {
  }

  lemma Turn(rest: string, scan: Scan, out: string)
    requires rest != ""
    ensures
      var t := Lex(rest, scan);
      var out' := Append(out, GapBefore(t, LastOf(out)), rest, Width(t), GapBehind(t, Peek(rest, Width(t))));
      Completed(rest, scan, out) == Completed(rest[Width(t)..], Next(t, scan), out')
  {
    var t := Lex(rest, scan);
    var piece := Piece(rest, scan, LastOf(out));
    hide Lex, Next, Width, GapBefore, GapBehind, Peek, Pad;
    LastOfConcat(out, piece);
    Associative(out, piece, Respace(rest[Width(t)..], Next(t, scan), LastOf(piece)));
  }

  method FormatLineTokens(line: string) returns (out: string)
    ensures out == FormatLine(line)
  {
    if StartsWith(line, "//") || StartsWith(line, "/*") || StartsWith(line, "*") {
      return line;
    }
    out := "";
    var scan, rest := CODE, line;
    while rest != ""
      invariant scan.quote.None? ==> !scan.escaped
      invariant Completed(rest, scan, out) == FormatLine(line)
      decreases |rest|
    {
      Turn(rest, scan, out);
      hide Completed, FormatLine, Append, IsCommentLine;
      ghost var t, next := Lex(rest, scan), Next(Lex(rest, scan), scan);
      var c, peek := rest[0], Peek(rest, 1);
      var before, taken, behind := false, 1, false;
      if scan.quote.Some? {
        if scan.escaped {
          scan := Scan(scan.quote, false);
        } else if c == '\\' {
          scan := Scan(scan.quote, true);
        } else if c == scan.quote.value {
          scan := CODE;
        }
      } else if c == '/' && peek == Some('/') {
        before := LastOf(out) != Some(' ') && out != "";
        taken := |rest|;
      } else if c == '"' || c == '\'' || c == '`' {
        scan := Scan(Some(c), false);
      } else if c == ',' {
        behind := peek.Some? && peek.value != ' ' && peek.value != '\n' && peek.value != ')';
      } else if c == ':' && peek == Some(':') {
        taken := 2;
      } else if c == ':' {
        behind := peek.Some? && peek.value != ' ' && peek.value != ':';
      } else if (c == '|' || c == '=') && peek == Some('>') {
        taken := 2;
        before := LastOf(out) != Some(' ');
        behind := Peek(rest, 2) != Some(' ');
      }
      assert scan == next;
      assert taken == Width(t);
      assert before == GapBefore(t, LastOf(out));
      assert behind == GapBehind(t, Peek(rest, taken));
      out := Append(out, before, rest, taken, behind);
      rest := rest[taken..];
    }
  }

  // --- what formatting a line keeps -----------------------------------------

  /** White space outside quoted runs and comments carries no meaning. */
  function Kept(t: Token): seq<Token> {
    if t.Plain? && IsWhitespace(t.c) then [] else [t]
  }

  /** The tokens of a line, without the white space that stands outside quoted runs and comments. */
  function Tokens(rest: string, scan: Scan): seq<Token>
    decreases |rest|
  {
    if rest == "" then []
    else
      var t := Lex(rest, scan);
      Kept(t) + Tokens(rest[Width(t)..], Next(t, scan))
  }

  /** `z` starts with the first token of `rest`, followed by what followed it there or by a space. */
  predicate StartsAlike(z: string, rest: string, scan: Scan)
    requires rest != ""
  {
    var t := Lex(rest, scan);
    && Width(t) <= |z|
    && z[..Width(t)] == rest[..Width(t)]
    && (t.Comment? ==> z == rest)
    && (Peek(z, Width(t)) == Peek(rest, Width(t)) || Peek(z, Width(t)) == Some(' '))
  }

  lemma LexAlike(z: string, rest: string, scan: Scan)
    requires rest != "" && StartsAlike(z, rest, scan)
    ensures Lex(z, scan) == Lex(rest, scan)
  {
    var t := Lex(rest, scan);
    assert z[0] == z[..Width(t)][0] == rest[..Width(t)][0] == rest[0];
    if Width(t) == 2 {
      assert z[1] == z[..2][1] == rest[..2][1] == rest[1];
    }
  }

  /** A token that wants no gap is copied. */
  lemma CopyToken(text: string, z: string, rest: string, scan: Scan, last: Option<char>)
    requires rest != "" && StartsAlike(text + z, rest, scan)
    requires |text| == Width(Lex(rest, scan))
    requires !GapBefore(Lex(rest, scan), last)
    requires !GapBehind(Lex(rest, scan), Peek(z, 0))
    ensures
      var t := Lex(rest, scan);
      && Respace(text + z, scan, last) == text + Respace(z, Next(t, scan), LastOf(text))
      && Tokens(text + z, scan) == Kept(t) + Tokens(z, Next(t, scan))
  {
    var t := Lex(rest, scan);
    LexAlike(text + z, rest, scan);
    hide Lex, Next, GapBefore, StartsAlike;
    assert (text + z)[..|text|] == text;
    assert (text + z)[|text|..] == z;
    assert Peek(text + z, |text|) == Peek(z, 0);
    assert Piece(text + z, scan, last) == text;
  }

  lemma CopySpace(z: string, last: Option<char>)
    ensures Respace(" " + z, CODE, last) == " " + Respace(z, CODE, Some(' '))
    ensures Tokens(" " + z, CODE) == Tokens(z, CODE)
  {
    assert (" " + z)[1..] == z;
    CopyToken(" ", z, " " + z, CODE, last);
  }

  /** A rest that the formatter may read instead of `after` with the same outcome. */
  predicate ReadsAs(x: string, after: string) {
    Peek(x, 0) == Peek(after, 0) || (Peek(x, 0) == Some(' ') && after != "")
  }

  lemma GapsStandInCode(rest: string, scan: Scan, last: Option<char>, peek: Option<char>)
    requires rest != "" && (scan.quote.None? ==> !scan.escaped)
    ensures
      var t := Lex(rest, scan);
      && (GapBefore(t, last) ==> scan == CODE)
      && (GapBehind(t, peek) ==> Next(t, scan) == CODE)
      && !GapBefore(t, if GapBefore(t, last) then Some(' ') else last)
  {
  }

  /** A token with the gap that was written behind it reads as that token again. */
  lemma AlikeAfterGap(rest: string, scan: Scan, x: string)
    requires rest != "" && ReadsAs(x, rest[Width(Lex(rest, scan))..])
    ensures
      var t := Lex(rest, scan);
      var z := Pad(GapBehind(t, Peek(rest, Width(t)))) + x;
      && StartsAlike(rest[..Width(t)] + z, rest, scan)
      && !GapBehind(t, Peek(z, 0))
  {
    var t := Lex(rest, scan);
    var text, after := rest[..Width(t)], rest[Width(t)..];
    var behind := GapBehind(t, Peek(rest, Width(t)));
    var z := Pad(behind) + x;
    assert Peek(rest, Width(t)) == Peek(after, 0);
    PeekOfPad(behind, x);
    assert (text + z)[..Width(t)] == text;
    assert Peek(text + z, Width(t)) == Peek(z, 0);
    if t.Comment? {
      assert after == "" && x == "" && z == "";
      assert text + z == rest;
    }
  }

  /** Reading a piece that the scan has written writes that piece again. */
  lemma PieceAgain(rest: string, scan: Scan, last: Option<char>, x: string)
    requires rest != "" && (scan.quote.None? ==> !scan.escaped)
    requires ReadsAs(x, rest[Width(Lex(rest, scan))..])
    ensures
      var t, piece := Lex(rest, scan), Piece(rest, scan, last);
      && Respace(piece + x, scan, last) == piece + Respace(x, Next(t, scan), LastOf(piece))
      && Tokens(piece + x, scan) == Kept(t) + Tokens(x, Next(t, scan))
  {
    var t := Lex(rest, scan);
    var text, next := rest[..Width(t)], Next(t, scan);
    var before, behind := GapBefore(t, last), GapBehind(t, Peek(rest, Width(t)));
    var z := Pad(behind) + x;
    var lastBefore := if before then Some(' ') else last;
    var lastBehind := if behind then Some(' ') else LastOf(text);
    GapsStandInCode(rest, scan, last, Peek(rest, Width(t)));
    AlikeAfterGap(rest, scan, x);
    hide Lex, Next, GapBefore, GapBehind, Respace, Tokens, Peek, LastOf, Kept, StartsAlike, ReadsAs, Pad;
    CopyToken(text, z, rest, scan, lastBefore);
    PadOrNot(before, text + z, scan, last);
    PadOrNot(behind, x, next, LastOf(text));
    PieceParts(before, text, behind, x, Respace(x, next, lastBehind));
  }

  lemma PadOrNot(gap: bool, z: string, scan: Scan, last: Option<char>)
    requires gap ==> scan == CODE
    ensures Respace(Pad(gap) + z, scan, last) == Pad(gap) + Respace(z, scan, if gap then Some(' ') else last)
    ensures Tokens(Pad(gap) + z, scan) == Tokens(z, scan)
  {
    hide Respace, Tokens;
    if gap {
      CopySpace(z, last);
    } else {
      assert "" + z == z;
      assert "" + Respace(z, scan, last) == Respace(z, scan, last);
    }
  }

  lemma PeekOfPad(gap: bool, x: string)
    ensures Peek(Pad(gap) + x, 0) == if gap then Some(' ') else Peek(x, 0)
  {
  }

  lemma PieceParts(before: bool, text: string, behind: bool, x: string, tail: string)
    ensures (Pad(before) + text + Pad(behind)) + x == Pad(before) + (text + (Pad(behind) + x))
    ensures (Pad(before) + text + Pad(behind)) + tail == Pad(before) + (text + (Pad(behind) + tail))
    ensures text != "" ==> LastOf(Pad(before) + text + Pad(behind)) == if behind then Some(' ') else LastOf(text)
  {
  }

  lemma PieceHead(rest: string, scan: Scan, last: Option<char>)
    requires rest != ""
    ensures Piece(rest, scan, last)[0] == rest[0] || Piece(rest, scan, last)[0] == ' '
    ensures Lex(rest, scan).Plain? ==> Piece(rest, scan, last) == [rest[0]]
  {
    var t := Lex(rest, scan);
    hide GapBefore, GapBehind;
    if t.Plain? {
      assert !GapBefore(t, last) && !GapBehind(t, Peek(rest, 1)) by { NoGapsAtPlain(t, last, Peek(rest, 1)); }
      assert rest[..1] == [rest[0]];
    }
  }

  lemma NoGapsAtPlain(t: Token, last: Option<char>, peek: Option<char>)
    requires t.Plain?
    ensures !GapBefore(t, last) && !GapBehind(t, peek)
  {
  }

  /** The head of what is written for a rest, as a later reader sees it. */
  predicate SameHead(y: string, rest: string, scan: Scan)
    requires y != "" && rest != ""
  {
    && (y[0] == rest[0] || y[0] == ' ')
    && (Lex(rest, scan).Plain? ==>
          y[0] == rest[0] && (|y| > 1 ==> |rest| > 1 && (y[1] == rest[1] || y[1] == ' ')))
  }

  /** The last token of a line: trimming drops at most the space behind it, and that comes back. */
  lemma LastPieceAgain(rest: string, scan: Scan, last: Option<char>)
    requires rest != "" && !IsWhitespace(rest[|rest| - 1]) && (scan.quote.None? ==> !scan.escaped)
    requires Width(Lex(rest, scan)) == |rest|
    ensures
      var w := Respace(rest, scan, last);
      var y := TrimEnd(w);
      && y != "" && SameHead(y, rest, scan)
      && w != "" && w[|w| - 1] != '\r'
      && Respace(y, scan, last) == w
      && Tokens(y, scan) == Tokens(rest, scan)
  {
    var t := Lex(rest, scan);
    var before, behind := GapBefore(t, last), GapBehind(t, Peek(rest, |rest|));
    var lastBefore := if before then Some(' ') else last;
    assert t.Plain? ==> |rest| == 1 && !before;
    GapsStandInCode(rest, scan, last, Peek(rest, |rest|));
    WholePiece(rest, scan, last);
    WholePiece(rest, scan, lastBefore);
    assert !GapBefore(t, lastBefore);
    hide *;
    PadOrNot(before, rest, scan, last);
    PadTrim(before, rest, behind);
    WholeHead(Pad(before) + rest, before, rest, scan);
  }

  lemma WholeHead(y: string, before: bool, rest: string, scan: Scan)
    requires y != "" && rest != ""
    requires y[0] == if before then ' ' else rest[0]
    requires |y| == |rest| + if before then 1 else 0
    requires Lex(rest, scan).Plain? ==> |rest| == 1 && !before
    ensures SameHead(y, rest, scan)
  {
  }

  lemma PadTrim(before: bool, rest: string, behind: bool)
    requires rest != "" && !IsWhitespace(rest[|rest| - 1])
    ensures
      var w, y := Pad(before) + rest + Pad(behind), Pad(before) + rest;
      && TrimEnd(w) == y && y[0] == (if before then ' ' else rest[0]) && w[|w| - 1] != '\r'
      && |y| == |rest| + (if before then 1 else 0)
      && w == Pad(before) + (Pad(false) + rest + Pad(behind))
  {
    var w, y := Pad(before) + rest + Pad(behind), Pad(before) + rest;
    assert y[|y| - 1] == rest[|rest| - 1];
    if behind {
      assert w[..|w| - 1] == y;
    } else {
      assert w == y;
    }
  }

  lemma WholePiece(rest: string, scan: Scan, last: Option<char>)
    requires rest != "" && Width(Lex(rest, scan)) == |rest|
    ensures
      var t := Lex(rest, scan);
      var piece := Piece(rest, scan, last);
      && piece == Pad(GapBefore(t, last)) + rest + Pad(GapBehind(t, Peek(rest, |rest|)))
      && Respace(rest, scan, last) == piece
  {
    assert rest[..|rest|] == rest && rest[|rest|..] == "";
    hide GapBefore, GapBehind, Lex, Next;
  }

  lemma Unfold(rest: string, scan: Scan, last: Option<char>)
    requires rest != ""
    ensures
      var t, piece := Lex(rest, scan), Piece(rest, scan, last);
      && Respace(rest, scan, last) == piece + Respace(rest[Width(t)..], Next(t, scan), LastOf(piece))
      && Tokens(rest, scan) == Kept(t) + Tokens(rest[Width(t)..], Next(t, scan))
      && piece == Pad(GapBefore(t, last)) + rest[..Width(t)] + Pad(GapBehind(t, Peek(rest, Width(t))))
  {
    hide Lex, Next, GapBefore, GapBehind, Kept, Peek, Pad, LastOf, Width;
  }

  lemma NextIsCoherent(t: Token, scan: Scan)
    requires scan.quote.None? ==> !scan.escaped
    ensures Next(t, scan).quote.None? ==> !Next(t, scan).escaped
  {
  }

  lemma HeadReadsAs(y: string, rest: string, scan: Scan)
    requires y != "" && rest != "" && SameHead(y, rest, scan)
    ensures ReadsAs(y, rest) && (y[0] == rest[0] || y[0] == ' ')
  {
  }

  lemma HeadBehindPiece(piece: string, y: string, after: string, rest: string, scan: Scan)
    requires rest != "" && after != "" && after == rest[Width(Lex(rest, scan))..]
    requires piece != "" && (piece[0] == rest[0] || piece[0] == ' ')
    requires Lex(rest, scan).Plain? ==> piece == [rest[0]]
    requires y != "" && (y[0] == after[0] || y[0] == ' ')
    ensures SameHead(piece + y, rest, scan)
  {
    if Lex(rest, scan).Plain? {
      assert (piece + y)[1] == y[0] && after[0] == rest[1];
    }
  }

  /** Formatting what formatting left behind, after trimming, writes the same and sees the same tokens. */
  lemma {:induction false} RespaceAgain(rest: string, scan: Scan, last: Option<char>)
    requires rest != "" && !IsWhitespace(rest[|rest| - 1]) && (scan.quote.None? ==> !scan.escaped)
    ensures
      var w := Respace(rest, scan, last);
      var y := TrimEnd(w);
      && y != "" && SameHead(y, rest, scan)
      && w != "" && w[|w| - 1] != '\r'
      && Respace(y, scan, last) == w
      && Tokens(y, scan) == Tokens(rest, scan)
    decreases |rest|
  {
    hide *;
    var t := Lex(rest, scan);
    var after := rest[Width(t)..];
    if after == "" {
      LastPieceAgain(rest, scan, last);
    } else {
      var piece := Piece(rest, scan, last);
      var w2 := Respace(after, Next(t, scan), LastOf(piece));
      NextIsCoherent(t, scan);
      RespaceAgain(after, Next(t, scan), LastOf(piece));
      var y2 := TrimEnd(w2);
      HeadReadsAs(y2, after, Next(t, scan));
      PieceHead(rest, scan, last);
      Unfold(rest, scan, last);
      PieceAgain(rest, scan, last, y2);
      TrimEndKeepsPrefix(piece, w2);
      HeadBehindPiece(piece, y2, after, rest, scan);
      assert (piece + w2)[|piece + w2| - 1] == w2[|w2| - 1];
    }
  }

  // --- whole lines ----------------------------------------------------------

  lemma {:induction false} RespaceSqueeze(rest: string, scan: Scan, last: Option<char>)
    ensures Squeeze(Respace(rest, scan, last)) == Squeeze(rest)
    decreases |rest|
  {
    if rest != "" {
      hide *;
      var t := Lex(rest, scan);
      var text, after := rest[..Width(t)], rest[Width(t)..];
      var piece := Piece(rest, scan, last);
      RespaceSqueeze(after, Next(t, scan), LastOf(piece));
      Unfold(rest, scan, last);
      SqueezePads(GapBefore(t, last), text, GapBehind(t, Peek(rest, Width(t))));
      SqueezeConcat(piece, Respace(after, Next(t, scan), LastOf(piece)));
      SqueezeConcat(text, after);
      assert rest == text + after;
    }
  }

  lemma {:induction false} RespaceOneLine(rest: string, scan: Scan, last: Option<char>)
    requires '\n' !in rest
    ensures '\n' !in Respace(rest, scan, last)
    decreases |rest|
  {
    if rest != "" {
      var t, piece := Lex(rest, scan), Piece(rest, scan, last);
      Unfold(rest, scan, last);
      hide Lex, Next, Width, Respace, Piece, Peek, GapBefore, GapBehind, LastOf;
      assert '\n' !in rest[..Width(t)] && '\n' !in rest[Width(t)..];
      RespaceOneLine(rest[Width(t)..], Next(t, scan), LastOf(piece));
    }
  }

  lemma SqueezePads(before: bool, text: string, behind: bool)
    ensures Squeeze(Pad(before) + text + Pad(behind)) == Squeeze(text)
  {
    SqueezePad(before);
    SqueezePad(behind);
    SqueezeConcat(Pad(before), text);
    SqueezeConcat(Pad(before) + text, Pad(behind));
    hide Squeeze;
    assert Squeeze(Pad(before)) + Squeeze(text) + Squeeze(Pad(behind)) == Squeeze(text);
  }

  lemma SqueezePad(gap: bool)
    ensures Squeeze(Pad(gap)) == ""
  {
    assert " "[1..] == "";
  }

  lemma FirstKeptToken(rest: string)
    requires rest != "" && !IsWhitespace(rest[0])
    ensures Tokens(rest, CODE) != [] && Tokens(rest, CODE)[0] == Lex(rest, CODE)
  {
  }

  lemma LeadingArrow(u: string)
    requires u != "" && Lex(u, CODE).Arrow?
    ensures Respace(u, CODE, None) == " " + Respace(u, CODE, Some(' '))
  {
    var t := Lex(u, CODE);
    var p, q := Piece(u, CODE, None), Piece(u, CODE, Some(' '));
    assert GapBefore(t, None) && !GapBefore(t, Some(' '));
    assert p == " " + q by {
      hide Lex, GapBehind, GapBefore;
    }
    assert Respace(u, CODE, None) == p + Respace(u[2..], Next(t, CODE), LastOf(p));
    assert Respace(u, CODE, Some(' ')) == q + Respace(u[2..], Next(t, CODE), LastOf(q));
    hide Respace, Piece, Lex, Next;
    LastOfConcat(" ", q);
    Associative(" ", q, Respace(u[2..], Next(t, CODE), LastOf(q)));
  }

  /** A line that begins as a comment line does is one. */
  lemma CommentLineHead(u: string, line: string)
    requires line != "" && u != "" && IsCommentLine(u)
    requires SameHead(u, line, CODE) && u[0] == line[0] && Lex(u, CODE) == Lex(line, CODE)
    ensures IsCommentLine(line)
  {
    assert line[..1] == [line[0]];
    if StartsWith(u, "//") {
      assert u[1] == '/' && Lex(u, CODE).Comment?;
      assert line[..2] == "//";
    } else if StartsWith(u, "/*") {
      assert u[1] == '*' && Lex(line, CODE) == Plain('/');
      assert line[..2] == "/*";
    }
  }

  /** Formatting a formatted and trimmed line changes nothing. */
  lemma FormatLineAgain(line: string)
    requires Solid(line)
    ensures
      var f := FormatLine(line);
      var u := Trim(f);
      && Solid(u) && FormatLine(u) == f
      && f != "" && f[|f| - 1] != '\r'
      && IsCommentLine(u) == IsCommentLine(line)
      && (IsCommentLine(line) ==> u == line)
      && Tokens(u, CODE) == Tokens(line, CODE)
  {
    if IsCommentLine(line) {
      TrimEndSolid(line);
    } else {
      hide Respace, Tokens, TrimEnd, TrimStart, IsCommentLine;
      var w := Respace(line, CODE, None);
      RespaceAgain(line, CODE, None);
      TrimIsSolid(w);
      if TrimEnd(w)[0] == line[0] {
        PlainStart(line);
      } else {
        IndentedLine(line);
      }
    }
  }

  lemma PlainStart(line: string)
    requires Solid(line) && !IsCommentLine(line)
    requires TrimEnd(Respace(line, CODE, None)) != "" && TrimEnd(Respace(line, CODE, None))[0] == line[0]
    ensures
      var w := Respace(line, CODE, None);
      var u := Trim(w);
      && u != "" && Respace(u, CODE, None) == w && !IsCommentLine(u) && Tokens(u, CODE) == Tokens(line, CODE)
  {
    var w := Respace(line, CODE, None);
    RespaceAgain(line, CODE, None);
    var y := TrimEnd(w);
    TrimEndShape(w);
    assert w[0] == y[0];
    assert TrimStart(w) == w;
    FirstKeptToken(y);
    FirstKeptToken(line);
    hide *;
    if IsCommentLine(y) {
      CommentLineHead(y, line);
    }
  }

  /** The one case in which a space is written at the start of a line: it starts with an arrow. */
  lemma IndentedLine(line: string)
    requires Solid(line) && !IsCommentLine(line)
    requires TrimEnd(Respace(line, CODE, None)) != "" && TrimEnd(Respace(line, CODE, None))[0] != line[0]
    ensures
      var w := Respace(line, CODE, None);
      var u := Trim(w);
      && u != "" && Respace(u, CODE, None) == w && !IsCommentLine(u) && Tokens(u, CODE) == Tokens(line, CODE)
  {
    var w := Respace(line, CODE, None);
    TrimEndShape(w);
    LineHead(line);
    LeadingArrow(line);
    var w1 := Respace(line, CODE, Some(' '));
    RespaceAgain(line, CODE, Some(' '));
    var u := TrimEnd(w1);
    TrimEndShape(w1);
    assert u[0] == w1[0] == line[0];
    hide Respace, Tokens, TrimEnd;
    assert (" " + w1)[1..] == w1;
    assert TrimStart(w) == w1;
    FirstKeptToken(u);
    FirstKeptToken(line);
    LeadingArrow(u);
    if IsCommentLine(u) {
      CommentLineHead(u, line);
    }
  }

  lemma LineHead(line: string)
    requires line != ""
    ensures Respace(line, CODE, None) != "" && Respace(line, CODE, Some(' ')) != ""
    ensures Respace(line, CODE, None)[0] != line[0] ==> Lex(line, CODE).Arrow?
    ensures Lex(line, CODE).Arrow? ==> Respace(line, CODE, Some(' '))[0] == line[0]
  {
    var t := Lex(line, CODE);
    assert Respace(line, CODE, None)[0] == Piece(line, CODE, None)[0];
    assert Respace(line, CODE, Some(' '))[0] == Piece(line, CODE, Some(' '))[0];
    assert line[..Width(t)][0] == line[0];
    hide Lex, GapBehind, Respace;
    assert Piece(line, CODE, None)[0] == if GapBefore(t, None) then ' ' else line[0];
    assert Piece(line, CODE, Some(' '))[0] == if GapBefore(t, Some(' ')) then ' ' else line[0];
  }

  // --- the layout rules -----------------------------------------------------

  /** The layout rules, read off a finished text: where a space must stand around its tokens. */
  predicate WellSpaced(rest: string, scan: Scan, last: Option<char>)
    decreases |rest|
  {
    rest == "" ||
    var t := Lex(rest, scan);
    var behind := Peek(rest, Width(t));
    && (t.Comment? ==> last.None? || last == Some(' '))
    && (t.Arrow? ==> last == Some(' ') && behind == Some(' '))
    && (t.Comma? ==> behind.None? || behind.value == ' ' || behind.value == ')' || behind.value == '\n')
    && (t.Colon? ==> behind.None? || behind.value == ' ')
    && WellSpaced(rest[Width(t)..], Next(t, scan), LastOf(rest[..Width(t)]))
  }

  lemma {:induction false} RespaceGrows(rest: string, scan: Scan, last: Option<char>)
    ensures |Respace(rest, scan, last)| >= |rest|
    ensures rest != "" ==> Respace(rest, scan, last)[0] == rest[0] || Respace(rest, scan, last)[0] == ' '
    decreases |rest|
  {
    if rest != "" {
      hide *;
      var t := Lex(rest, scan);
      Unfold(rest, scan, last);
      PieceHead(rest, scan, last);
      RespaceGrows(rest[Width(t)..], Next(t, scan), LastOf(Piece(rest, scan, last)));
      assert |rest[..Width(t)]| + |rest[Width(t)..]| == |rest|;
    } else {
      assert |Respace(rest, scan, last)| >= 0;
    }
  }

  /** What the scan has written it would write again. */
  lemma {:induction false} RespaceFixed(rest: string, scan: Scan, last: Option<char>)
    requires scan.quote.None? ==> !scan.escaped
    ensures Respace(Respace(rest, scan, last), scan, last) == Respace(rest, scan, last)
    decreases |rest|
  {
    if rest != "" {
      var t, piece := Lex(rest, scan), Piece(rest, scan, last);
      var after, next := rest[Width(t)..], Next(t, scan);
      var w2 := Respace(after, next, LastOf(piece));
      assert ReadsAs(w2, after) by {
        RespaceGrows(after, next, LastOf(piece));
        assert after == "" ==> w2 == "";
      }
      hide *;
      NextIsCoherent(t, scan);
      RespaceFixed(after, next, LastOf(piece));
      Unfold(rest, scan, last);
      PieceAgain(rest, scan, last, w2);
    }
  }

  lemma NoGapWanted(t: Token, last: Option<char>, behind: Option<char>)
    requires t.Colon? ==> behind != Some(':')
    ensures !GapBefore(t, last) && !GapBehind(t, behind) <==>
      && (t.Comment? ==> last.None? || last == Some(' '))
      && (t.Arrow? ==> last == Some(' ') && behind == Some(' '))
      && (t.Comma? ==> behind.None? || behind.value == ' ' || behind.value == ')' || behind.value == '\n')
      && (t.Colon? ==> behind.None? || behind.value == ' ')
  {
  }

  /** The scan leaves a text alone exactly when the text keeps the layout rules. */
  lemma {:induction false} WellSpacedIsFixed(rest: string, scan: Scan, last: Option<char>)
    ensures WellSpaced(rest, scan, last) <==> Respace(rest, scan, last) == rest
    decreases |rest|
  {
    if rest != "" {
      hide *;
      var t, piece := Lex(rest, scan), Piece(rest, scan, last);
      var text, after, next := rest[..Width(t)], rest[Width(t)..], Next(t, scan);
      WellSpacedIsFixed(after, next, LastOf(text));
      WellSpacedHere(rest, scan, last);
      QuietPiece(rest, scan, last);
      Unfold(rest, scan, last);
      RespaceGrows(after, next, LastOf(piece));
      var tail := Respace(after, next, LastOf(piece));
      if Quiet(rest, scan, last) {
        SameTail(text, after, tail, rest);
      } else {
        assert |piece + tail| > |rest|;
      }
    }
  }

  /** No space is put around the first token. */
  predicate Quiet(rest: string, scan: Scan, last: Option<char>)
    requires rest != ""
  {
    var t := Lex(rest, scan);
    !GapBefore(t, last) && !GapBehind(t, Peek(rest, Width(t)))
  }

  lemma WellSpacedHere(rest: string, scan: Scan, last: Option<char>)
    requires rest != ""
    ensures var t := Lex(rest, scan);
            WellSpaced(rest, scan, last)
            == (Quiet(rest, scan, last) && WellSpaced(rest[Width(t)..], Next(t, scan), LastOf(rest[..Width(t)])))
  {
    var t := Lex(rest, scan);
    NoGapWanted(t, last, Peek(rest, Width(t)));
    hide Lex, Next, Width, LastOf;
  }

  lemma QuietPiece(rest: string, scan: Scan, last: Option<char>)
    requires rest != ""
    ensures var t, piece := Lex(rest, scan), Piece(rest, scan, last);
            if Quiet(rest, scan, last) then piece == rest[..Width(t)] else |piece| > Width(t)
  {
    hide Lex, Width, GapBefore, GapBehind;
    var t := Lex(rest, scan);
    assert "" + rest[..Width(t)] + "" == rest[..Width(t)];
  }

  lemma SameTail(text: string, after: string, tail: string, rest: string)
    requires text + after == rest || (|text| <= |rest| && text == rest[..|text|] && after == rest[|text|..])
    ensures (text + tail == rest) == (tail == after)
  {
    assert text + after == rest;
    assert (text + tail)[|text|..] == tail && (text + after)[|text|..] == after;
  }

  /** Every formatted line of code keeps the layout rules. */
  lemma FormatLineKeepsRules(line: string)
    requires !IsCommentLine(line)
    ensures WellSpaced(FormatLine(line), CODE, None)
    ensures FormatLine(line) == line <==> WellSpaced(line, CODE, None)
  {
    RespaceFixed(line, CODE, None);
    WellSpacedIsFixed(FormatLine(line), CODE, None);
    WellSpacedIsFixed(line, CODE, None);
  }
}
