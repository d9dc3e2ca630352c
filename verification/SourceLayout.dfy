/**
  * Where the formatter puts each line, said of the lines themselves: which are shown, how
  * far each is indented and what stands behind the indent.
  */
module SourceLayout {
  import opened Wrappers
  import opened SourceText
  import opened LineSpacing
  import opened SourceFormatter

  // --- block comments -------------------------------------------------------

  function LineAt(lines: seq<string>, j: nat): string
    requires j < |lines|
  {
    Trim(lines[j])
  }

  /** Line `i` begins a block comment that it does not end. */
  predicate Opens(lines: seq<string>, i: nat)
    requires i < |lines|
  {
    "/*" <= LineAt(lines, i) && !Ends(lines, i)
  }

  predicate Ends(lines: seq<string>, i: nat)
    requires i < |lines|
  {
    exists k :: 0 <= k <= |LineAt(lines, i)| - 2 && LineAt(lines, i)[k] == '*' && LineAt(lines, i)[k + 1] == '/'
  }

  /** Some line before line `j` begins a block comment that no line in between ends. */
  ghost predicate Inside(lines: seq<string>, j: nat)
    requires j <= |lines|
  {
    exists i :: 0 <= i < j && OpenUntil(lines, i, j)
  }

  ghost predicate OpenUntil(lines: seq<string>, i: nat, j: nat)
    requires i < j <= |lines|
  {
    Opens(lines, i) && forall k :: i < k < j ==> !Ends(lines, k)
  }

  /** A line that is neither blank nor part of a block comment that spans lines. */
  ghost predicate IsCode(lines: seq<string>, j: nat)
    requires j < |lines|
  {
    LineAt(lines, j) != "" && !Inside(lines, j) && !Opens(lines, j)
  }

  // --- depth ----------------------------------------------------------------

  /** What a line opens more than it closes, outside quoted runs and trailing comments. */
  function Net(line: string): int {
    var tokens := multiset(Tokens(line, CODE));
    var opens: int, closes: int := tokens[Plain('{')] + tokens[Plain('[')], tokens[Plain('}')] + tokens[Plain(']')];
    opens - closes
  }

  ghost function NetOf(lines: seq<string>, j: nat): int
    requires j < |lines|
  {
    if IsCode(lines, j) then Net(LineAt(lines, j)) else 0
  }

  function AtLeastZero(n: int): nat {
    if n < 0 then 0 else n
  }

  /** The nets of the lines of code from `i` up to `j`, added up. */
  ghost function NetFrom(lines: seq<string>, i: nat, j: nat): int
    requires i <= j <= |lines|
  {
    if i == j then 0 else NetFrom(lines, i, j - 1) + NetOf(lines, j - 1)
  }

  /** The brackets open at line `j`, where closing more than are open counts for nothing: the greatest of the sums. */
  ghost predicate Depth(lines: seq<string>, j: nat, n: nat)
    requires j <= |lines|
  {
    && (forall i :: 0 <= i <= j ==> NetFrom(lines, i, j) <= n)
    && exists i :: 0 <= i <= j && NetFrom(lines, i, j) == n
  }

  /** The line starts with exactly `c` closing brackets or parentheses. */
  predicate Closers(line: string, c: nat) {
    var tokens := Tokens(line, CODE);
    && c <= |tokens|
    && (forall k :: 0 <= k < c ==> tokens[k] in {Plain('}'), Plain(']'), Plain(')')})
    && (c < |tokens| ==> tokens[c] !in {Plain('}'), Plain(']'), Plain(')')})
  }

  // --- the written lines ----------------------------------------------------

  predicate SpacesThen(w: string, n: nat, text: string) {
    |w| == n + |text| && (forall k :: 0 <= k < n ==> w[k] == ' ') && w[n..] == text
  }

  /** Lines that say something are shown, and of blank ones the first behind such a line, outside block comments. */
  ghost predicate Shown(lines: seq<string>, j: nat)
    requires j < |lines|
  {
    LineAt(lines, j) != "" || (j > 0 && LineAt(lines, j - 1) != "" && !Inside(lines, j))
  }

  ghost function ShownBefore(lines: seq<string>, j: nat): nat
    requires j <= |lines|
  {
    if j == 0 then 0 else ShownBefore(lines, j - 1) + if Shown(lines, j - 1) then 1 else 0
  }

  /**
    * Code is formatted behind four spaces for every bracket open before it, less those it
    * closes itself at its start; a line of a block comment is copied behind four for each.
    */
  ghost predicate Placed(lines: seq<string>, j: nat, w: string)
    requires j < |lines|
  {
    var line := LineAt(lines, j);
    if line == "" then w == ""
    else if IsCode(lines, j) then
      exists n: nat, c: nat :: Depth(lines, j, n) && Closers(line, c) &&
        SpacesThen(w, if c <= n then 4 * (n - c) else 0, FormatLine(line))
    else exists n: nat :: Depth(lines, j, n) && SpacesThen(w, 4 * n, line)
  }

  // --- the machine is where the lines say -------------------------------------

  function StateAt(lines: seq<string>, j: nat): Layout
    requires j <= |lines|
  {
    if j == 0 then START else Advance(StateAt(lines, j - 1), lines[j - 1])
  }

  lemma EndsIsContains(lines: seq<string>, i: nat)
    requires i < |lines|
    ensures Ends(lines, i) <==> Contains(LineAt(lines, i), "*/")
  {
    var s := LineAt(lines, i);
    if Contains(s, "*/") {
      var k :| 0 <= k <= |s| && "*/" <= s[k..];
      assert s[k] == s[k..][0] == "*/"[0] && s[k + 1] == s[k..][1] == "*/"[1];
    }
    if Ends(lines, i) {
      var k :| 0 <= k <= |s| - 2 && s[k] == '*' && s[k + 1] == '/';
      assert s[k..][..2] == "*/";
    }
  }

  lemma BlankDoesNothing(lines: seq<string>, i: nat)
    requires i < |lines| && LineAt(lines, i) == ""
    ensures !Ends(lines, i) && !Opens(lines, i)
  {
  }

  /** Inside a comment a line may end it; outside, it may begin one. */
  lemma InsideNext(lines: seq<string>, j: nat)
    requires j < |lines|
    ensures Inside(lines, j + 1) <==> if Inside(lines, j) then !Ends(lines, j) else Opens(lines, j)
  {
    hide Opens, Ends;
    if Inside(lines, j) && !Ends(lines, j) {
      var i :| 0 <= i < j && OpenUntil(lines, i, j);
      assert OpenUntil(lines, i, j + 1);
    }
    if Opens(lines, j) { assert OpenUntil(lines, j, j + 1); }
    if Inside(lines, j + 1) {
      var i :| 0 <= i < j + 1 && OpenUntil(lines, i, j + 1);
      if i < j { assert OpenUntil(lines, i, j); }
    }
    assert Opens(lines, j) ==> !Ends(lines, j) by { OpensDoesNotEnd(lines, j); }
  }

  lemma OpensDoesNotEnd(lines: seq<string>, j: nat)
    requires j < |lines|
    ensures Opens(lines, j) ==> !Ends(lines, j)
  {
  }

  lemma {:induction false} InComment(lines: seq<string>, j: nat)
    requires j <= |lines|
    ensures StateAt(lines, j).inComment <==> Inside(lines, j)
  {
    if j > 0 {
      InComment(lines, j - 1);
      InsideNext(lines, j - 1);
      EndsIsContains(lines, j - 1);
      if LineAt(lines, j - 1) == "" { BlankDoesNothing(lines, j - 1); }
      hide Inside, Ends, Contains, BracesOf;
    }
  }

  // --- counting ---------------------------------------------------------------

  lemma {:induction false} BracesAreCounted(tokens: seq<Token>)
    ensures var m := multiset(tokens);
            && TokenBraces(tokens).opens == m[Plain('{')] + m[Plain('[')]
            && TokenBraces(tokens).closes == m[Plain('}')] + m[Plain(']')]
  {
    if tokens != [] {
      BracesAreCounted(tokens[1..]);
      assert tokens == [tokens[0]] + tokens[1..];
    }
  }

  lemma {:induction false} ClosersAreCounted(tokens: seq<Token>)
    ensures var c := TokenClosers(tokens);
            && c <= |tokens|
            && (forall k :: 0 <= k < c ==> tokens[k] in {Plain('}'), Plain(']'), Plain(')')})
            && (c < |tokens| ==> tokens[c] !in {Plain('}'), Plain(']'), Plain(')')})
  {
    if tokens != [] { ClosersAreCounted(tokens[1..]); }
  }

  lemma NetIs(line: string)
    ensures BracesOf(line, CODE).opens - BracesOf(line, CODE).closes == Net(line)
  {
    BracesByTokens(line, CODE);
    BracesAreCounted(Tokens(line, CODE));
  }

  lemma ClosersIs(line: string)
    ensures Closers(line, LeadingClosers(line))
  {
    ClosersByTokens(line);
    ClosersAreCounted(Tokens(line, CODE));
  }

  /** Adding a line to all sums, and the empty sum behind it. */
  lemma DepthNext(lines: seq<string>, j: nat, n: nat)
    requires j < |lines| && Depth(lines, j, n)
    ensures Depth(lines, j + 1, AtLeastZero(n + NetOf(lines, j)))
  {
    hide NetOf;
    var net, next := NetOf(lines, j), j + 1;
    var m := AtLeastZero(n + net);
    forall k | 0 <= k <= j ensures NetFrom(lines, k, next) == NetFrom(lines, k, j) + net {
      assert next - 1 == j;
    }
    assert NetFrom(lines, next, next) == 0;
    forall k | 0 <= k <= next ensures NetFrom(lines, k, next) <= m {
      if k <= j { assert NetFrom(lines, k, j) <= n; }
    }
    var i :| 0 <= i <= j && NetFrom(lines, i, j) == n;
    assert NetFrom(lines, if n + net < 0 then next else i, next) == m;
  }

  lemma {:induction false} IndentIsDepth(lines: seq<string>, j: nat)
    requires j <= |lines|
    ensures Depth(lines, j, StateAt(lines, j).indent)
  {
    hide *;
    if j == 0 {
      StartsAtZero(lines);
    } else {
      IndentIsDepth(lines, j - 1);
      DepthNext(lines, j - 1, StateAt(lines, j - 1).indent);
      IndentNext(lines, j - 1);
    }
  }

  lemma StartsAtZero(lines: seq<string>)
    ensures Depth(lines, 0, StateAt(lines, 0).indent)
  {
    assert NetFrom(lines, 0, 0) == 0;
  }

  lemma IndentNext(lines: seq<string>, j: nat)
    requires j < |lines|
    ensures StateAt(lines, j + 1).indent == AtLeastZero(StateAt(lines, j).indent + NetOf(lines, j))
  {
    InComment(lines, j);
    EndsIsContains(lines, j);
    AdvanceIndent(StateAt(lines, j), lines[j]);
    hide Inside, Ends, Contains, Net, Advance, Trim;
    assert StateAt(lines, j + 1) == Advance(StateAt(lines, j), lines[j]);
  }

  lemma AdvanceIndent(st: Layout, raw: string)
    ensures var line, next := Trim(raw), Advance(st, raw).indent;
            if line == "" || st.inComment || ("/*" <= line && !Contains(line, "*/")) then next == st.indent
            else next == AtLeastZero(st.indent + Net(line))
  {
    NetIs(Trim(raw));
    hide Contains, BracesOf, Net, Trim;
  }

  /** Outside comments the machine stands behind a line that says something exactly when no blank line is pending. */
  lemma {:induction false} BlanksPending(lines: seq<string>, j: nat)
    requires j <= |lines|
    ensures var st := StateAt(lines, j);
            !st.inComment ==> (st.started && st.blanks == 0 <==> j > 0 && LineAt(lines, j - 1) != "")
  {
    if j > 0 {
      BlanksPending(lines, j - 1);
      hide Contains, BracesOf, Trim;
    }
  }

  lemma WrittenWhere(lines: seq<string>, j: nat)
    requires j < |lines|
    ensures Written(StateAt(lines, j), lines[j]).Some? <==> Shown(lines, j)
  {
    InComment(lines, j);
    BlanksPending(lines, j);
    hide Inside, Contains, StateAt, Trim, FormatLine, LeadingClosers;
  }

  lemma IndentedIs(level: nat, text: string)
    ensures SpacesThen(Indented(level, text), 4 * level, text)
  {
  }

  lemma WrittenIsPlaced(lines: seq<string>, j: nat)
    requires j < |lines| && Shown(lines, j)
    ensures Written(StateAt(lines, j), lines[j]).Some?
    ensures Placed(lines, j, Written(StateAt(lines, j), lines[j]).value)
  {
    var st, line := StateAt(lines, j), LineAt(lines, j);
    WrittenWhere(lines, j);
    if line != "" {
      InComment(lines, j);
      EndsIsContains(lines, j);
      IndentIsDepth(lines, j);
      ClosersIs(line);
      IndentedIs(st.indent, line);
      IndentedIs(Minus(st.indent, LeadingClosers(line)), FormatLine(line));
      hide Inside, Contains, StateAt, Trim, FormatLine, LeadingClosers, Ends, Indented, Depth, Closers, SpacesThen;
    }
  }

  /** `out` holds the lines shown from line `j` on, in order. */
  ghost predicate AllPlaced(lines: seq<string>, j: nat, out: seq<string>)
    requires j <= |lines|
  {
    && ShownBefore(lines, j) + |out| == ShownBefore(lines, |lines|)
    && forall k :: j <= k < |lines| && Shown(lines, k) ==> At(lines, j, out, k)
  }

  ghost predicate At(lines: seq<string>, j: nat, out: seq<string>, k: nat)
    requires j <= k < |lines|
  {
    var at := ShownBefore(lines, k) - ShownBefore(lines, j);
    0 <= at < |out| && Placed(lines, k, out[at])
  }

  lemma {:induction false} FormatFrom(lines: seq<string>, j: nat)
    requires j <= |lines|
    ensures AllPlaced(lines, j, FormatLines(lines[j..], StateAt(lines, j)))
    decreases |lines| - j
  {
    hide *;
    if j == |lines| {
      NothingPlaced(lines);
    } else {
      var rest := FormatLines(lines[j + 1..], StateAt(lines, j + 1));
      FormatFrom(lines, j + 1);
      FormatOne(lines, j);
      WrittenWhere(lines, j);
      if Shown(lines, j) { WrittenIsPlaced(lines, j); }
      OneMorePlaced(lines, j, Written(StateAt(lines, j), lines[j]), rest);
    }
  }

  lemma NothingPlaced(lines: seq<string>)
    ensures AllPlaced(lines, |lines|, FormatLines(lines[|lines|..], StateAt(lines, |lines|)))
  {
    assert lines[|lines|..] == [];
    hide StateAt;
  }

  lemma OneMorePlaced(lines: seq<string>, j: nat, w: Option<string>, rest: seq<string>)
    requires j < |lines| && AllPlaced(lines, j + 1, rest)
    requires w.Some? <==> Shown(lines, j)
    requires w.Some? ==> Placed(lines, j, w.value)
    ensures AllPlaced(lines, j, match w case None => rest case Some(line) => [line] + rest)
  {
    hide Shown, Placed;
    var out := match w case None => rest case Some(line) => [line] + rest;
    forall k | j <= k < |lines| && Shown(lines, k) ensures At(lines, j, out, k) {
      if k > j {
        assert At(lines, j + 1, rest, k);
      }
    }
  }

  lemma FormatOne(lines: seq<string>, j: nat)
    requires j < |lines|
    ensures var w, rest := Written(StateAt(lines, j), lines[j]), FormatLines(lines[j + 1..], StateAt(lines, j + 1));
            FormatLines(lines[j..], StateAt(lines, j)) == match w case None => rest case Some(line) => [line] + rest
  {
    assert lines[j..][1..] == lines[j + 1..];
    hide Written, Advance;
  }

  /**
    * The formatted text has one line for every line shown, in order, each where its brackets
    * put it.
    */
  lemma LinesArePlaced(source: string)
    ensures var lines, out := Lines(source), Lines(Formatted(source));
            && Formatted(source) == Unlines(out)
            && |out| == ShownBefore(lines, |lines|)
            && forall k :: 0 <= k < |lines| && Shown(lines, k) ==>
                 ShownBefore(lines, k) < |out| && Placed(lines, k, out[ShownBefore(lines, k)])
  {
    hide Shown, Placed;
    var lines := Lines(source);
    var out := FormatLines(lines, START);
    LinesHoldNoNewline(source);
    LinesAreTerminated(lines, START);
    LinesOfUnlines(out);
    assert lines[0..] == lines;
    FormatFrom(lines, 0);
    forall k | 0 <= k < |lines| && Shown(lines, k)
      ensures ShownBefore(lines, k) < |out| && Placed(lines, k, out[ShownBefore(lines, k)])
    {
      assert At(lines, 0, out, k);
    }
  }
}
