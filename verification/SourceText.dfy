/** Rust's view of text that the formatter relies on: white space, trimming and lines. */
module SourceText {

  /** The code points with the Unicode property White_Space. */
  predicate IsWhitespace(c: char) {
    || '\U{0009}' <= c <= '\U{000D}'
    || c == ' '
    || c == '\U{0085}'
    || c == '\U{00A0}'
    || c == '\U{1680}'
    || '\U{2000}' <= c <= '\U{200A}'
    || c == '\U{2028}'
    || c == '\U{2029}'
    || c == '\U{202F}'
    || c == '\U{205F}'
    || c == '\U{3000}'
  }

  function TrimStart(s: string): string {
    if s != "" && IsWhitespace(s[0]) then TrimStart(s[1..]) else s
  }

  function TrimEnd(s: string): string {
    if s != "" && IsWhitespace(s[|s| - 1]) then TrimEnd(s[..|s| - 1]) else s
  }

  function Trim(s: string): string {
    TrimEnd(TrimStart(s))
  }

  /** Text that trimming leaves alone and that is not empty. */
  predicate Solid(s: string) {
    s != "" && !IsWhitespace(s[0]) && !IsWhitespace(s[|s| - 1])
  }

  predicate StartsWith(s: string, prefix: string) {
    prefix <= s
  }

  predicate Contains(s: string, part: string) {
    exists i :: 0 <= i <= |s| && part <= s[i..]
  }

  function NewlineIndex(s: string): (i: nat)
    ensures i <= |s|
    ensures forall k :: 0 <= k < i ==> s[k] != '\n'
    ensures i < |s| ==> s[i] == '\n'
  {
    if s == "" || s[0] == '\n' then 0 else 1 + NewlineIndex(s[1..])
  }

  function StripCarriageReturn(s: string): string {
    if s != "" && s[|s| - 1] == '\r' then s[..|s| - 1] else s
  }

  /** `str::lines`: a line ends at "\n" or "\r\n", and the last one needs no terminator. */
  function Lines(s: string): seq<string>
    decreases |s|
  {
    if s == "" then []
    else
      var i := NewlineIndex(s);
      if i == |s| then [s] else [StripCarriageReturn(s[..i])] + Lines(s[i + 1..])
  }

  function Unlines(lines: seq<string>): string {
    if lines == [] then "" else lines[0] + "\n" + Unlines(lines[1..])
  }

  function Spaces(n: nat): (r: string)
    ensures |r| == n && forall k :: 0 <= k < n ==> r[k] == ' '
  {
    seq(n, _ => ' ')
  }

  /** The text with all white space deleted. */
  function Squeeze(s: string): string {
    if s == "" then ""
    else (if IsWhitespace(s[0]) then "" else [s[0]]) + Squeeze(s[1..])
  }

  // --- trimming -------------------------------------------------------------

  lemma {:induction false} TrimStartShape(s: string)
    ensures TrimStart(s) == "" || !IsWhitespace(TrimStart(s)[0])
    ensures exists n: nat :: n <= |s| && TrimStart(s) == s[n..]
  {
    if s != "" && IsWhitespace(s[0]) {
      TrimStartShape(s[1..]);
      var n: nat :| n <= |s[1..]| && TrimStart(s[1..]) == s[1..][n..];
      assert s[1..][n..] == s[n + 1..];
    } else {
      assert s[0..] == s;
    }
  }

  lemma {:induction false} TrimEndShape(s: string)
    ensures TrimEnd(s) <= s
    ensures TrimEnd(s) != "" ==> !IsWhitespace(TrimEnd(s)[|TrimEnd(s)| - 1])
  {
    if s != "" && IsWhitespace(s[|s| - 1]) {
      TrimEndShape(s[..|s| - 1]);
    }
  }

  lemma TrimIsSolid(s: string)
    ensures Trim(s) == "" || Solid(Trim(s))
    ensures '\n' !in s ==> '\n' !in Trim(s)
  {
    TrimStartShape(s);
    TrimEndShape(TrimStart(s));
  }

  predicate AllWhite(s: string) {
    forall c :: c in s ==> IsWhitespace(c)
  }

  lemma {:induction false} StartIsWhite(s: string)
    ensures exists a :: AllWhite(a) && s == a + TrimStart(s)
  {
    if s != "" && IsWhitespace(s[0]) {
      StartIsWhite(s[1..]);
      var a :| AllWhite(a) && s[1..] == a + TrimStart(s[1..]);
      assert AllWhite([s[0]] + a) && s == ([s[0]] + a) + TrimStart(s);
    } else {
      assert AllWhite("") && s == "" + TrimStart(s);
    }
  }

  lemma {:induction false} EndIsWhite(s: string)
    ensures exists b :: AllWhite(b) && s == TrimEnd(s) + b
  {
    if s != "" && IsWhitespace(s[|s| - 1]) {
      var n := |s| - 1;
      EndIsWhite(s[..n]);
      var b :| AllWhite(b) && s[..n] == TrimEnd(s[..n]) + b;
      assert AllWhite(b + [s[n]]) && s == TrimEnd(s) + (b + [s[n]]);
    } else {
      assert AllWhite("") && s == TrimEnd(s) + "";
    }
  }

  /** Trimming takes white space off both ends and leaves none there. */
  lemma TrimIsMiddle(s: string)
    ensures Trim(s) == "" || Solid(Trim(s))
    ensures exists a, b :: AllWhite(a) && AllWhite(b) && s == a + Trim(s) + b
  {
    TrimIsSolid(s);
    StartIsWhite(s);
    EndIsWhite(TrimStart(s));
    var a :| AllWhite(a) && s == a + TrimStart(s);
    var b :| AllWhite(b) && TrimStart(s) == TrimEnd(TrimStart(s)) + b;
    hide *;
    Reassociate(a, Trim(s), b);
    TrimIs(s);
    assert s == a + Trim(s) + b;
  }

  lemma TrimIs(s: string)
    ensures Trim(s) == TrimEnd(TrimStart(s))
  {
  }

  lemma {:induction false} TrimEndKeepsPrefix(x: string, y: string)
    requires TrimEnd(y) != ""
    ensures TrimEnd(x + y) == x + TrimEnd(y)
    decreases |y|
  {
    if IsWhitespace(y[|y| - 1]) {
      assert (x + y)[..|x + y| - 1] == x + y[..|y| - 1];
      TrimEndKeepsPrefix(x, y[..|y| - 1]);
    }
  }

  lemma {:induction false} TrimDropsIndent(n: nat, s: string)
    ensures Trim(Spaces(n) + s) == Trim(s)
  {
    if n == 0 {
      assert Spaces(0) + s == s;
    } else {
      assert (Spaces(n) + s)[1..] == Spaces(n - 1) + s;
      TrimDropsIndent(n - 1, s);
    }
  }

  lemma {:induction false} TrimEndSolid(s: string)
    requires s != "" && !IsWhitespace(s[|s| - 1])
    ensures TrimEnd(s) == s
  {
  }

  lemma {:induction false} TrimOfCarriageReturn(s: string)
    ensures Trim(StripCarriageReturn(s)) == Trim(s)
    decreases |s|
  {
    if s != "" && s[|s| - 1] == '\r' {
      if IsWhitespace(s[0]) {
        if |s| > 1 {
          assert s[..|s| - 1][1..] == s[1..][..|s| - 2];
          TrimOfCarriageReturn(s[1..]);
        }
      } else {
        assert TrimStart(s) == s;
        assert TrimStart(s[..|s| - 1]) == s[..|s| - 1];
      }
    }
  }

  // --- squeezing ------------------------------------------------------------

  lemma {:induction false} SqueezeConcat(x: string, y: string)
    ensures Squeeze(x + y) == Squeeze(x) + Squeeze(y)
  {
    if x == "" {
      assert x + y == y;
    } else {
      assert (x + y)[1..] == x[1..] + y;
      SqueezeConcat(x[1..], y);
    }
  }

  lemma {:induction false} SqueezeTrimStart(s: string)
    ensures Squeeze(TrimStart(s)) == Squeeze(s)
  {
    if s != "" && IsWhitespace(s[0]) {
      SqueezeTrimStart(s[1..]);
    }
  }

  lemma {:induction false} SqueezeTrimEnd(s: string)
    ensures Squeeze(TrimEnd(s)) == Squeeze(s)
  {
    if s != "" && IsWhitespace(s[|s| - 1]) {
      SqueezeTrimEnd(s[..|s| - 1]);
      SqueezeConcat(s[..|s| - 1], s[|s| - 1..]);
      assert s == s[..|s| - 1] + s[|s| - 1..];
    }
  }

  lemma SqueezeTrim(s: string)
    ensures Squeeze(Trim(s)) == Squeeze(s)
  {
    SqueezeTrimStart(s);
    SqueezeTrimEnd(TrimStart(s));
  }

  lemma {:induction false} SqueezeSpaces(n: nat)
    ensures Squeeze(Spaces(n)) == ""
  {
    if n > 0 {
      assert Spaces(n)[1..] == Spaces(n - 1);
      SqueezeSpaces(n - 1);
    }
  }

  lemma SqueezeLine(head: string, rest: string)
    ensures Squeeze(StripCarriageReturn(head) + "\n" + rest) == Squeeze(head) + Squeeze(rest)
  {
    hide *;
    var kept := StripCarriageReturn(head);
    SqueezeConcat(kept + "\n", rest);
    SqueezeConcat(kept, "\n");
    SqueezeNewline();
    SqueezeStripped(head);
    assert Squeeze(kept) + "" == Squeeze(kept);
  }

  lemma SqueezeStripped(head: string)
    ensures Squeeze(StripCarriageReturn(head)) == Squeeze(head)
  {
    var kept := StripCarriageReturn(head);
    if kept != head {
      assert head == kept + "\r";
      SqueezeConcat(kept, "\r");
      assert "\r"[1..] == "";
    }
  }

  /** Splitting into lines loses white space only. */
  lemma {:induction false} SqueezeLines(s: string)
    ensures Squeeze(Unlines(Lines(s))) == Squeeze(s)
    decreases |s|
  {
    hide *;
    if s == "" {
      NoLines();
    } else {
      var i := NewlineIndex(s);
      if i == |s| {
        SqueezeOneLine(s);
      } else {
        SqueezeLines(s[i + 1..]);
        SqueezeMoreLines(s, i);
      }
    }
  }

  lemma NoLines()
    ensures Unlines(Lines("")) == "" && Lines("") == []
  {
  }

  lemma SqueezeOneLine(s: string)
    requires s != "" && NewlineIndex(s) == |s|
    ensures Squeeze(Unlines(Lines(s))) == Squeeze(s)
  {
    hide *;
    LinesOfOne(s);
    SqueezeConcat(s, "\n");
    SqueezeNewline();
    assert Squeeze(s) + "" == Squeeze(s);
  }

  lemma SqueezeMoreLines(s: string, i: nat)
    requires i < |s| && i == NewlineIndex(s)
    requires Squeeze(Unlines(Lines(s[i + 1..]))) == Squeeze(s[i + 1..])
    ensures Squeeze(Unlines(Lines(s))) == Squeeze(s)
  {
    hide *;
    LinesOfMore(s, i);
    SqueezeLine(s[..i], Unlines(Lines(s[i + 1..])));
    assert s == s[..i] + s[i..];
    SqueezeConcat(s[..i], s[i..]);
    SqueezeBreak(s, i);
  }

  lemma SqueezeNewline()
    ensures Squeeze("\n") == ""
  {
    assert "\n"[1..] == "";
  }

  lemma SqueezeBreak(s: string, i: nat)
    requires i < |s| && s[i] == '\n'
    ensures Squeeze(s[i..]) == Squeeze(s[i + 1..])
  {
    assert s[i..][1..] == s[i + 1..];
  }

  lemma LinesOfOne(s: string)
    requires s != "" && NewlineIndex(s) == |s|
    ensures Lines(s) == [s] && Unlines(Lines(s)) == s + "\n"
  {
    assert [s][1..] == [];
    assert Unlines([s]) == s + "\n" + Unlines([s][1..]);
  }

  lemma LinesOfMore(s: string, i: nat)
    requires i < |s| && i == NewlineIndex(s)
    ensures Lines(s) == [StripCarriageReturn(s[..i])] + Lines(s[i + 1..])
    ensures Unlines(Lines(s)) == StripCarriageReturn(s[..i]) + "\n" + Unlines(Lines(s[i + 1..]))
  {
    hide *;
    LinesUnfold(s, i);
    UnlinesOfMore(StripCarriageReturn(s[..i]), Lines(s[i + 1..]));
  }

  lemma LinesUnfold(s: string, i: nat)
    requires i < |s| && i == NewlineIndex(s)
    ensures Lines(s) == [StripCarriageReturn(s[..i])] + Lines(s[i + 1..])
  {
    hide NewlineIndex, StripCarriageReturn;
  }

  lemma UnlinesOfMore(line: string, lines: seq<string>)
    ensures Unlines([line] + lines) == line + "\n" + Unlines(lines)
  {
    assert ([line] + lines)[1..] == lines;
  }

  // --- lines ----------------------------------------------------------------

  lemma NewlineIndexAt(line: string, rest: string)
    requires '\n' !in line
    ensures NewlineIndex(line + "\n" + rest) == |line|
  {
    var s := line + "\n" + rest;
    assert s[|line|] == '\n';
    assert forall k :: 0 <= k < |line| ==> s[k] == line[k] && line[k] in line;
  }

  lemma {:induction false} LinesOfUnlines(lines: seq<string>)
    requires forall k :: 0 <= k < |lines| ==> '\n' !in lines[k] && StripCarriageReturn(lines[k]) == lines[k]
    ensures Lines(Unlines(lines)) == lines
  {
    if lines != [] {
      var s := Unlines(lines);
      var tail := Unlines(lines[1..]);
      NewlineIndexAt(lines[0], tail);
      assert s[..|lines[0]|] == lines[0];
      assert s[|lines[0]| + 1..] == tail;
      LinesOfUnlines(lines[1..]);
    }
  }

  /** The newline a text lacks at its end. */
  function Ending(s: string): string {
    if s == "" || s[|s| - 1] == '\n' then "" else "\n"
  }

  /** The lines of a text without carriage returns are the text cut behind every newline. */
  lemma {:induction false} LinesRejoin(s: string)
    requires '\r' !in s
    ensures Unlines(Lines(s)) == s + Ending(s)
    decreases |s|
  {
    hide *;
    EndingOfOne(s);
    if s == "" {
      NoLines();
    } else {
      var i := NewlineIndex(s);
      if i == |s| {
        LinesOfOne(s);
      } else {
        LinesRejoin(s[i + 1..]);
        RejoinMore(s, i);
      }
    }
  }

  lemma RejoinMore(s: string, i: nat)
    requires '\r' !in s && i < |s| && i == NewlineIndex(s)
    requires Unlines(Lines(s[i + 1..])) == s[i + 1..] + Ending(s[i + 1..])
    ensures Unlines(Lines(s)) == s + Ending(s)
  {
    hide *;
    var rest := s[i + 1..];
    LinesOfMore(s, i);
    NothingStripped(s, i);
    SplitAt(s, i);
    Reassociate(s[..i] + "\n", rest, Ending(rest));
  }

  lemma NothingStripped(s: string, i: nat)
    requires '\r' !in s && i < |s|
    ensures StripCarriageReturn(s[..i]) == s[..i]
  {
  }

  lemma SplitAt(s: string, i: nat)
    requires i < |s| && i == NewlineIndex(s)
    ensures s == s[..i] + "\n" + s[i + 1..] && Ending(s) == Ending(s[i + 1..])
  {
    assert s[i] == '\n';
    SameEnding(s, i);
    hide *;
    var t := s[..i] + "\n" + s[i + 1..];
    assert |t| == |s|;
    forall k | 0 <= k < |s| ensures t[k] == s[k] {
      if k > i { assert t[k] == s[i + 1..][k - i - 1]; }
    }
  }

  lemma SameEnding(s: string, i: nat)
    requires i < |s| && s[i] == '\n'
    ensures Ending(s) == Ending(s[i + 1..])
  {
    var rest := s[i + 1..];
    if rest != "" { assert rest[|rest| - 1] == s[|s| - 1]; } else { assert i == |s| - 1; }
  }

  lemma EndingOfOne(s: string)
    ensures s != "" && NewlineIndex(s) == |s| ==> Ending(s) == "\n"
    ensures Ending("") == ""
  {
  }

  lemma Reassociate(a: string, b: string, c: string)
    ensures (a + b) + c == a + (b + c)
  {
  }
}
