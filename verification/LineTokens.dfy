/** What the spacer's tokens are, said of the characters: the pairs it knows, and where a quoted run ends. */
module LineTokens {
  import opened Wrappers
  import opened SourceText
  import opened LineSpacing

  /** Outside quoted runs. */
  lemma FirstToken(rest: string)
    requires rest != ""
    ensures var t := Lex(rest, CODE);
            && (t == Comment(rest) <==> "//" <= rest)
            && (t == PathSeparator <==> "::" <= rest)
            && (t == Arrow('|') <==> "|>" <= rest) && (t == Arrow('=') <==> "=>" <= rest)
            && (t == Comma <==> rest[0] == ',')
            && (t == Colon <==> rest[0] == ':' && !("::" <= rest))
            && (t.Quoted? <==> rest[0] in {'"', '\'', '`'}) && (t.Quoted? ==> t.c == rest[0])
            && (t.Plain? ==> t.c == rest[0])
  {
    var t := Lex(rest, CODE);
    if |rest| > 1 { assert rest[..2] == [rest[0], rest[1]]; }
    hide Width;
  }

  /** A line that begins like a comment is copied; any other is spaced from its first character. */
  lemma CommentLinesAreCopied(line: string)
    ensures FormatLine(line)
         == if "//" <= line || "/*" <= line || "*" <= line then line else Respace(line, CODE, None)
  {
    hide Respace;
  }

  /** The backslashes that stand right before position `k` of a run, its opening quote left out. */
  function Backslashes(run: string, k: nat): nat
    requires k <= |run|
  {
    if k > 1 && run[k - 1] == '\\' then 1 + Backslashes(run, k - 1) else 0
  }

  /** A quote ends the run unless an odd number of backslashes stands before it. */
  predicate Closes(run: string, k: nat)
    requires k < |run|
  {
    k > 0 && run[k] == run[0] && Backslashes(run, k) % 2 == 0
  }

  function AllQuoted(s: string): (ts: seq<Token>) {
    if s == "" then [] else [Quoted(s[0])] + AllQuoted(s[1..])
  }

  lemma {:induction false} QuotedSnoc(s: string, c: char)
    ensures AllQuoted(s + [c]) == AllQuoted(s) + [Quoted(c)]
  {
    if s == "" {
      assert [c][1..] == "";
    } else {
      assert (s + [c])[1..] == s[1..] + [c];
      QuotedSnoc(s[1..], c);
    }
  }

  function InRun(run: string, k: nat): Scan
    requires 0 < k <= |run|
  {
    Scan(Some(run[0]), Backslashes(run, k) % 2 == 1)
  }

  /** One character further into a run that it does not end. */
  lemma OneFurther(run: string, k: nat)
    requires 0 < k < |run| && run[0] in {'"', '\'', '`'} && !Closes(run, k)
    ensures Tokens(run[k..], InRun(run, k)) == [Quoted(run[k])] + Tokens(run[k + 1..], InRun(run, k + 1))
  {
    var rest, scan := run[k..], InRun(run, k);
    var t := Lex(rest, scan);
    assert t == Quoted(run[k]) && rest[1..] == run[k + 1..];
    assert AfterQuoted(scan, run[k]) == InRun(run, k + 1);
  }

  lemma {:induction false} IntoRun(run: string, k: nat)
    requires 0 < k <= |run| && run[0] in {'"', '\'', '`'}
    requires forall j :: 0 < j < k ==> !Closes(run, j)
    ensures Tokens(run, CODE) == AllQuoted(run[..k]) + Tokens(run[k..], InRun(run, k))
  {
    hide *;
    if k == 1 {
      RunBegins(run);
    } else {
      IntoRun(run, k - 1);
      OneFurther(run, k - 1);
      OneMoreQuoted(run, k - 1);
      Regroup(AllQuoted(run[..k - 1]), [Quoted(run[k - 1])], Tokens(run[k..], InRun(run, k)));
    }
  }

  lemma RunBegins(run: string)
    requires run != "" && run[0] in {'"', '\'', '`'}
    ensures Tokens(run, CODE) == AllQuoted(run[..1]) + Tokens(run[1..], InRun(run, 1))
  {
    assert Lex(run, CODE) == Quoted(run[0]);
    assert AllQuoted(run[..1]) == [Quoted(run[0])] by { assert run[..1][1..] == "" && run[..1] == [run[0]]; }
    assert Tokens(run, CODE) == [Quoted(run[0])] + Tokens(run[1..], Scan(Some(run[0]), false));
    hide Tokens, Lex, AllQuoted;
  }

  /** A quoted run reaches from a quote to the next like it that is not escaped, and code goes on behind it. */
  lemma RunEnds(run: string, n: nat)
    requires run != "" && run[0] in {'"', '\'', '`'} && n < |run| && Closes(run, n)
    requires forall j :: 0 < j < n ==> !Closes(run, j)
    ensures Tokens(run, CODE) == AllQuoted(run[..n + 1]) + Tokens(run[n + 1..], CODE)
  {
    hide *;
    NotAtStart(run, n);
    IntoRun(run, n);
    ClosingQuote(run, n);
    OneMoreQuoted(run, n);
    Regroup(AllQuoted(run[..n]), [Quoted(run[n])], Tokens(run[n + 1..], CODE));
  }

  lemma NotAtStart(run: string, n: nat)
    requires n < |run| && Closes(run, n)
    ensures n > 0
  {
  }

  lemma OneMoreQuoted(run: string, n: nat)
    requires n < |run|
    ensures AllQuoted(run[..n + 1]) == AllQuoted(run[..n]) + [Quoted(run[n])]
  {
    assert run[..n + 1] == run[..n] + [run[n]];
    QuotedSnoc(run[..n], run[n]);
    hide AllQuoted;
  }

  lemma Regroup(a: seq<Token>, b: seq<Token>, c: seq<Token>)
    ensures a + (b + c) == (a + b) + c
  {
  }

  lemma ClosingQuote(run: string, n: nat)
    requires 0 < n < |run| && run[0] in {'"', '\'', '`'} && Closes(run, n)
    ensures Tokens(run[n..], InRun(run, n)) == [Quoted(run[n])] + Tokens(run[n + 1..], CODE)
  {
    var rest, scan := run[n..], InRun(run, n);
    assert Lex(rest, scan) == Quoted(run[n]) && rest[1..] == run[n + 1..];
    assert AfterQuoted(scan, run[n]) == CODE;
  }

  /** Without one, it reaches to the end of the line. */
  lemma RunGoesOn(run: string)
    requires run != "" && run[0] in {'"', '\'', '`'}
    requires forall j :: 0 < j < |run| ==> !Closes(run, j)
    ensures Tokens(run, CODE) == AllQuoted(run)
  {
    IntoRun(run, |run|);
    assert run[..|run|] == run && run[|run|..] == "";
  }

  /** A comment outside quoted runs is one token, and so is each pair; every other character stands for itself. */
  lemma CodeToken(rest: string)
    requires rest != "" && rest[0] !in {'"', '\'', '`'}
    ensures var t := Lex(rest, CODE);
            Tokens(rest, CODE)
            == if "//" <= rest then [Comment(rest)]
               else if "::" <= rest || "|>" <= rest || "=>" <= rest then [t] + Tokens(rest[2..], CODE)
               else if IsWhitespace(rest[0]) then Tokens(rest[1..], CODE)
               else [t] + Tokens(rest[1..], CODE)
  {
    FirstToken(rest);
    var t := Lex(rest, CODE);
    assert Tokens(rest, CODE) == Kept(t) + Tokens(rest[Width(t)..], Next(t, CODE));
    if "//" <= rest { assert rest[|rest|..] == ""; }
  }

  // --- one space each ------------------------------------------------------------

  /** A character that is no part of any token the spacer knows. */
  predicate Ordinary(c: char) {
    !IsWhitespace(c) && c !in {'"', '\'', '`', ',', ':', '|', '=', '/', '*', '>', ')'}
  }

  /** The last character of a line. */
  lemma LastChar(b: char, last: Option<char>)
    requires Ordinary(b)
    ensures Respace([b], CODE, last) == [b]
  {
    assert Lex([b], CODE) == Plain(b) && [b][1..] == "";
    assert Piece([b], CODE, last) == [b];
  }

  lemma FirstChar(a: char, rest: string)
    requires Ordinary(a)
    ensures FormatLine([a] + rest) == [a] + Respace(rest, CODE, Some(a))
  {
    var s := [a] + rest;
    assert s[1..] == rest && s[..1] == [a];
    assert Lex(s, CODE) == Plain(a) && Piece(s, CODE, None) == [a] && LastOf([a]) == Some(a);
    assert !IsCommentLine(s) by { assert s[0] == a; }
  }

  /** A mark of one character between two others. */
  lemma MarkOfOne(a: char, mark: char, b: char)
    requires Ordinary(a) && Ordinary(b) && mark in {',', ':'}
    ensures FormatLine([a, mark, b]) == [a, mark, ' ', b]
  {
    var s, w := [mark, b], [mark, ' '];
    FirstChar(a, s);
    assert [a] + s == [a, mark, b];
    PieceOfMark(a, mark, b);
    LastChar(b, Some(' '));
    hide Lex, Piece, Ordinary, FormatLine;
    assert s[1..] == [b] && w + [b] == [mark, ' ', b] && [a] + [mark, ' ', b] == [a, mark, ' ', b];
    assert LastOf(w) == Some(' ');
    assert Respace(s, CODE, Some(a)) == w + Respace([b], CODE, Some(' '));
  }

  lemma PieceOfMark(a: char, mark: char, b: char)
    requires Ordinary(b) && mark in {',', ':'}
    ensures Piece([mark, b], CODE, Some(a)) == [mark, ' '] && Width(Lex([mark, b], CODE)) == 1
    ensures Next(Lex([mark, b], CODE), CODE) == CODE
  {
    var s := [mark, b];
    var t := Lex(s, CODE);
    assert s[..1] == [mark] && Peek(s, 1) == Some(b);
    assert GapBehind(t, Some(b)) && !GapBefore(t, Some(a));
    var middle: string := [mark];
    assert "" + middle + " " == [mark, ' '];
  }

  /** An arrow between two others. */
  lemma MarkOfTwo(a: char, mark: char, b: char)
    requires Ordinary(a) && Ordinary(b) && mark in {'|', '='}
    ensures FormatLine([a, mark, '>', b]) == [a, ' ', mark, '>', ' ', b]
  {
    var s, w := [mark, '>', b], [' ', mark, '>', ' '];
    FirstChar(a, s);
    assert [a] + s == [a, mark, '>', b];
    PieceOfArrow(a, mark, b);
    LastChar(b, Some(' '));
    hide Lex, Piece, Ordinary, FormatLine;
    assert s[2..] == [b] && w + [b] == [' ', mark, '>', ' ', b];
    assert [a] + [' ', mark, '>', ' ', b] == [a, ' ', mark, '>', ' ', b];
    assert LastOf(w) == Some(' ');
    assert Respace(s, CODE, Some(a)) == w + Respace([b], CODE, Some(' '));
  }

  lemma PieceOfArrow(a: char, mark: char, b: char)
    requires Ordinary(a) && Ordinary(b) && mark in {'|', '='}
    ensures Piece([mark, '>', b], CODE, Some(a)) == [' ', mark, '>', ' ']
    ensures Width(Lex([mark, '>', b], CODE)) == 2 && Next(Lex([mark, '>', b], CODE), CODE) == CODE
  {
    var s := [mark, '>', b];
    assert Lex(s, CODE) == Arrow(mark);
    assert s[..2] == [mark, '>'] && Peek(s, 2) == Some(b);
    var middle: string := [mark, '>'];
    assert " " + middle + " " == [' ', mark, '>', ' '];
  }

  lemma PathMark(a: char, b: char)
    requires Ordinary(a) && Ordinary(b)
    ensures FormatLine([a, ':', ':', b]) == [a, ':', ':', b]
  {
    var s := [':', ':', b];
    FirstChar(a, s);
    assert [a] + s == [a, ':', ':', b];
    assert s[2..] == [b] && s[..2] == [':', ':'] && Lex(s, CODE) == PathSeparator;
    assert Piece(s, CODE, Some(a)) == [':', ':'] && LastOf([':', ':']) == Some(':');
    LastChar(b, Some(':'));
    assert Respace(s, CODE, Some(a)) == [':', ':'] + Respace([b], CODE, Some(':'));
  }

  /** A trailing comment, whatever it says. */
  lemma CommentMark(a: char, text: string)
    requires Ordinary(a)
    ensures FormatLine([a] + ("//" + text)) == [a] + (" " + ("//" + text))
  {
    var s := "//" + text;
    FirstChar(a, s);
    assert s[|s|..] == "" && s[..|s|] == s && Lex(s, CODE) == Comment(s);
    assert Piece(s, CODE, Some(a)) == " " + s;
    assert Respace(s, CODE, Some(a)) == Piece(s, CODE, Some(a)) + Respace("", CODE, LastOf(Piece(s, CODE, Some(a))));
  }

  /** Where a space is missing between two characters and a mark, just one is put in. */
  lemma OneSpaceEach(a: char, b: char, text: string)
    requires Ordinary(a) && Ordinary(b)
    ensures FormatLine([a, ',', b]) == [a, ',', ' ', b] && FormatLine([a, ':', b]) == [a, ':', ' ', b]
    ensures FormatLine([a, '|', '>', b]) == [a, ' ', '|', '>', ' ', b]
    ensures FormatLine([a, '=', '>', b]) == [a, ' ', '=', '>', ' ', b]
    ensures FormatLine([a, ':', ':', b]) == [a, ':', ':', b]
    ensures FormatLine([a] + ("//" + text)) == [a] + (" " + ("//" + text))
  {
    hide *;
    MarkOfOne(a, ',', b);
    MarkOfOne(a, ':', b);
    MarkOfTwo(a, '|', b);
    MarkOfTwo(a, '=', b);
    PathMark(a, b);
    CommentMark(a, text);
  }
}
