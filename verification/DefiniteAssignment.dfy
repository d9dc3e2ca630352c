/**
  * Definite field assignment (definite_field_assignment.rs): the fields of `this`
  * that a constructor body is said to assign on every path, and how far that is
  * true of its runs.
  */
module DefiniteAssignment {
  import opened Wrappers
  import opened ConstructorRuns
  import opened AssignmentPaths

  /** The single targets inside a destructuring pattern. */
  function Leaves(t: Expr): seq<Expr>
    decreases t
  {
    match t
    case Collection(ps) => LeavesAll(ps)
    case ComputedKey(_) => []
    case Assign(Plain, inner, _) => Leaves(inner)
    case _ => [t]
  }

  function LeavesAll(ps: seq<Expr>): seq<Expr>
    decreases ps
  {
    if ps == [] then [] else Leaves(ps[0]) + LeavesAll(ps[1..])
  }

  /** The field that a target is said to assign. */
  function ThisField(e: Expr): Option<string> {
    if e.Field? && e.base.This? && e.property.Ident? then Some(e.property.name) else None
  }

  function FieldsOf(name: Option<string>): Fields {
    if name.Some? then {name.value} else {}
  }

  function FoundIn(leaves: seq<Expr>): Fields {
    if leaves == [] then {} else FieldsOf(ThisField(leaves[0])) + FoundIn(leaves[1..])
  }

  /** The targets recognised are those written `this.f`, and a run stores to the field of no other. */
  lemma ThisFieldIsWrittenSo(e: Expr, f: string)
    ensures ThisField(e) == Some(f) <==> e == Field(This, Ident(f))
    ensures FieldsOf(ThisField(e)) == Stored(e)
  {
  }

  function WalkedExpr(e: Expr): Fields {
    if e.Assign? && e.op.Plain? then
      FoundIn(if e.target.Collection? then Leaves(e.target) else [e.target])
    else {}
  }

  /** Loops, switches, `try`, labels and declarations contribute nothing. */
  function Walked(s: Stmt): Fields
    decreases s
  {
    match s
    case Block(ss) => WalkedAll(ss)
    case ExprStmt(e) => WalkedExpr(e)
    case If(_, c, alt) => Walked(c) * (if alt.Some? then Walked(alt.value) else {})
    case _ => {}
  }

  function WalkedAll(ss: seq<Stmt>): Fields
    decreases ss
  {
    if ss == [] then {} else Walked(ss[0]) + WalkedAll(ss[1..])
  }

  // --- the walk, filling a set in place ------------------------------------------

  lemma {:induction false} WalkedAllSplit(ss: seq<Stmt>, i: nat)
    requires i < |ss|
    ensures WalkedAll(ss[..i + 1]) == WalkedAll(ss[..i]) + Walked(ss[i])
  {
    if i == 0 {
      assert ss[..1] == [ss[0]] && ss[..1][1..] == [] && ss[..0] == [];
    } else {
      WalkedAllSplit(ss[1..], i - 1);
      assert ss[..i + 1][1..] == ss[1..][..i] && ss[..i][1..] == ss[1..][..i - 1];
    }
  }

  lemma {:induction false} FoundInSplit(ls: seq<Expr>, i: nat)
    requires i < |ls|
    ensures FoundIn(ls[..i + 1]) == FoundIn(ls[..i]) + FieldsOf(ThisField(ls[i]))
  {
    if i == 0 {
      assert ls[..1] == [ls[0]] && ls[..1][1..] == [] && ls[..0] == [];
    } else {
      FoundInSplit(ls[1..], i - 1);
      assert ls[..i + 1][1..] == ls[1..][..i] && ls[..i][1..] == ls[1..][..i - 1];
    }
  }

  class AssignedFields {
    var out: Fields

    constructor ()
      ensures out == {}
    {
      out := {};
    }

    method WalkExpr(e: Expr)
      modifies this
      ensures out == old(out) + WalkedExpr(e)
    {
      if e.Assign? && e.op == Plain {
        var leaves := if e.target.Collection? then Leaves(e.target) else [e.target];
        for i := 0 to |leaves|
          invariant out == old(out) + FoundIn(leaves[..i])
        {
          FoundInSplit(leaves, i);
          var name := ThisField(leaves[i]);
          if name.Some? { out := out + {name.value}; }
        }
        assert leaves[..|leaves|] == leaves;
      }
    }

    method WalkStmt(s: Stmt)
      modifies this
      ensures out == old(out) + Walked(s)
      decreases s
    {
      match s
      case Block(ss) =>
        for i := 0 to |ss|
          invariant out == old(out) + WalkedAll(ss[..i])
        {
          WalkedAllSplit(ss, i);
          WalkStmt(ss[i]);
        }
        assert ss[..|ss|] == ss;
      case ExprStmt(e) => WalkExpr(e);
      case If(_, c, alt) =>
        var thenSet := new AssignedFields();
        thenSet.WalkStmt(c);
        var elseSet := new AssignedFields();
        if alt.Some? { elseSet.WalkStmt(alt.value); }
        out := out + thenSet.out * elseSet.out;
      case _ =>
    }
  }

  /** Every field found is assigned whenever the body runs to its end. */
  method FieldsAssignedOnEveryPath(body: Stmt) returns (fields: Fields)
    ensures fields == Walked(body)
    ensures forall b: Fields, a: Fields :: Ends(body, {}, b, Normal, a) ==> fields <= a
  {
    var walk := new AssignedFields();
    walk.WalkStmt(body);
    fields := walk.out;
    forall b: Fields, a: Fields | Ends(body, {}, b, Normal, a) ensures fields <= a {
      AssignedAtNormalEnd(body, b, a);
    }
  }

  // --- every field found is one the run must assign ---------------------------------

  lemma {:induction false} FoundInJoin(x: seq<Expr>, y: seq<Expr>)
    ensures FoundIn(x + y) == FoundIn(x) + FoundIn(y)
  {
    if x == [] {
      assert x + y == y;
    } else {
      FoundInJoin(x[1..], y);
      assert (x + y)[1..] == x[1..] + y;
    }
  }

  lemma FoundInOne(t: Expr)
    ensures FoundIn([t]) == Stored(t)
  {
    assert [t][1..] == [];
  }

  lemma {:induction false} LeavesAreBound(t: Expr, f: string)
    requires f in FoundIn(Leaves(t))
    ensures MustBind(t, f)
    decreases t
  {
    match t
    case Collection(ps) => LeavesAllAreBound(ps, f);
    case ComputedKey(_) =>
    case Assign(Plain, inner, _) => LeavesAreBound(inner, f);
    case _ => FoundInOne(t);
  }

  lemma {:induction false} LeavesAllAreBound(ps: seq<Expr>, f: string)
    requires f in FoundIn(LeavesAll(ps))
    ensures MustBindAny(ps, f)
    decreases ps
  {
    if ps != [] {
      FoundInJoin(Leaves(ps[0]), LeavesAll(ps[1..]));
      if f in FoundIn(Leaves(ps[0])) { LeavesAreBound(ps[0], f); } else { LeavesAllAreBound(ps[1..], f); }
    }
  }

  /** `t` is a target of some plain assignment in the part of the body that is walked. */
  predicate Assigns(s: Stmt, t: Expr)
    decreases s
  {
    match s
    case Block(ss) => exists i :: 0 <= i < |ss| && Assigns(ss[i], t)
    case ExprStmt(e) =>
      e.Assign? && e.op.Plain? && if e.target.Collection? then t in Leaves(e.target) else t == e.target
    case If(_, c, alt) => Assigns(c, t) && alt.Some? && Assigns(alt.value, t)
    case _ => false
  }

  lemma {:induction false} FoundAreTargets(leaves: seq<Expr>, f: string)
    ensures f in FoundIn(leaves) <==> Field(This, Ident(f)) in leaves
  {
    if leaves != [] {
      ThisFieldIsWrittenSo(leaves[0], f);
      FoundAreTargets(leaves[1..], f);
    }
  }

  /** A field is found only where `this.f` itself is assigned: the fields of no other object are. */
  lemma {:induction false} FoundIsWritten(s: Stmt, f: string)
    requires f in Walked(s)
    ensures Assigns(s, Field(This, Ident(f)))
    decreases s
  {
    match s
    case Block(ss) =>
      var i := FoundAt(ss, f);
      FoundIsWritten(ss[i], f);
    case ExprStmt(e) => FoundAreTargets(if e.target.Collection? then Leaves(e.target) else [e.target], f);
    case If(_, c, alt) =>
      FoundIsWritten(c, f);
      FoundIsWritten(alt.value, f);
  }

  lemma {:induction false} FoundAt(ss: seq<Stmt>, f: string) returns (i: nat)
    requires f in WalkedAll(ss)
    ensures i < |ss| && f in Walked(ss[i])
  {
    if f in Walked(ss[0]) {
      i := 0;
    } else {
      var k := FoundAt(ss[1..], f);
      i := k + 1;
    }
  }

  lemma WalkedExprMust(e: Expr, f: string)
    requires f in WalkedExpr(e)
    ensures Must(e, f)
  {
    if e.target.Collection? { LeavesAreBound(e.target, f); }
    else { FoundInOne(e.target); }
  }

  lemma {:induction false} WalkedNeverAvoided(s: Stmt, labels: set<string>, f: string)
    requires f in Walked(s)
    ensures Normal !in Avoid(s, labels, f)
    decreases s
  {
    match s
    case Block(ss) => WalkedAllNeverAvoided(ss, f);
    case ExprStmt(e) => WalkedExprMust(e, f);
    case If(_, c, alt) =>
      WalkedNeverAvoided(c, {}, f);
      WalkedNeverAvoided(alt.value, {}, f);
  }

  lemma {:induction false} WalkedAllNeverAvoided(ss: seq<Stmt>, f: string)
    requires f in WalkedAll(ss)
    ensures Normal !in AvoidAll(ss, f)
    decreases ss
  {
    if f in Walked(ss[0]) { WalkedNeverAvoided(ss[0], {}, f); } else { WalkedAllNeverAvoided(ss[1..], f); }
  }

  lemma AssignedAtNormalEnd(body: Stmt, b: Fields, a: Fields)
    requires Ends(body, {}, b, Normal, a)
    ensures Walked(body) <= a
  {
    forall f | f in Walked(body) ensures f in a {
      if f !in a {
        RunsAreForeseen(body, {}, b, Normal, a, f);
        WalkedNeverAvoided(body, {}, f);
        assert false;
      }
    }
  }

  // --- the analysis of paths is exact ----------------------------------------------

  lemma AvoidIsExact(s: Stmt, labels: set<string>, o: Outcome, f: string)
    ensures o in Avoid(s, labels, f) <==> exists a: Fields :: Ends(s, labels, {}, o, a) && f !in a
  {
    hide Avoid, Ends;
    if o in Avoid(s, labels, f) {
      var a := RunWithout(s, labels, {}, o, f);
    }
    if exists a: Fields :: Ends(s, labels, {}, o, a) && f !in a {
      var a :| Ends(s, labels, {}, o, a) && f !in a;
      RunsAreForeseen(s, labels, {}, o, a, f);
    }
  }

  // --- bodies that return early ---------------------------------------------------

  /** A constructor also completes by `return`. */
  predicate Completes(o: Outcome) {
    o == Normal || o == Returned
  }

  ghost predicate AssignedOnCompletion(body: Stmt) {
    forall o: Outcome, a: Fields :: Completes(o) && Ends(body, {}, {}, o, a) ==> Walked(body) <= a
  }

  /** No `return` is reached before a field that the walk reports. */
  predicate ReturnsLate(body: Stmt) {
    forall f :: f in Walked(body) ==> Returned !in Avoid(body, {}, f)
  }

  /** The walk ignores `return`; its answer holds of every completed run exactly when none comes early. */
  lemma GuaranteeIsExact(body: Stmt)
    ensures AssignedOnCompletion(body) <==> ReturnsLate(body)
  {
    hide Avoid, Ends, Walked;
    if ReturnsLate(body) {
      forall o: Outcome, a: Fields | Completes(o) && Ends(body, {}, {}, o, a) ensures Walked(body) <= a {
        if o == Normal {
          AssignedAtNormalEnd(body, {}, a);
        } else {
          forall f | f in Walked(body) ensures f in a {
            if f !in a { RunsAreForeseen(body, {}, {}, o, a, f); }
          }
        }
      }
    } else {
      var f :| f in Walked(body) && Returned in Avoid(body, {}, f);
      var a := RunWithout(body, {}, {}, Returned, f);
      assert Completes(Returned) && Ends(body, {}, {}, Returned, a);
    }
  }

  const GUARD := If(Ident("c"), Return(None), None)
  const ASSIGN_X := ExprStmt(Assign(Plain, Field(This, Ident("x")), Strict([])))

  lemma GuardMayReturn()
    ensures Ends(GUARD, {}, {}, Returned, {})
  {
    assert Evals(Ident("c"), {}, true, {});
    assert Ends(Return(None), {}, {}, Returned, {});
  }

  lemma WalkOfGuarded()
    ensures Walked(Block([GUARD, ASSIGN_X])) == {"x"}
  {
    FoundInOne(ASSIGN_X.e.target);
    assert Walked(ASSIGN_X) == {"x"};
    assert [GUARD, ASSIGN_X][1..] == [ASSIGN_X] && [ASSIGN_X][1..] == [];
    assert WalkedAll([ASSIGN_X]) == Walked(ASSIGN_X) + WalkedAll([ASSIGN_X][1..]);
    var ss := [GUARD, ASSIGN_X];
    assert WalkedAll(ss) == Walked(ss[0]) + WalkedAll(ss[1..]);
    assert Walked(Block(ss)) == WalkedAll(ss);
  }

  /** `if (c) { return; } this.x = 1` is said to assign `x`, and may complete without. */
  lemma EarlyReturnEscapes()
    ensures Walked(Block([GUARD, ASSIGN_X])) == {"x"} && !AssignedOnCompletion(Block([GUARD, ASSIGN_X]))
  {
    hide Walked;
    var body := Block([GUARD, ASSIGN_X]);
    GuardMayReturn();
    WalkOfGuarded();
    assert EndsAll(body.stmts, {}, Returned, {});
    assert Completes(Returned) && Ends(body, {}, {}, Returned, {});
  }

  // --- without `return` nothing escapes ------------------------------------------------

  predicate NoReturn(s: Stmt)
    decreases s, 1
  {
    match s
    case Return(_) => false
    case Block(ss) => NoReturns(ss)
    case If(_, c, alt) => NoReturn(c) && (alt.Some? ==> NoReturn(alt.value))
    case Loop(_, body) => NoReturn(body)
    case Switch(_, cs) => NoReturnCases(cs)
    case Try(block, catches, fin) =>
      NoReturn(block) && NoReturnClauses(catches) && (fin.Some? ==> NoReturn(fin.value))
    case Labeled(_, body) => NoReturn(body)
    case _ => true
  }

  predicate NoReturns(ss: seq<Stmt>)
    decreases ss, 0
  {
    ss != [] ==> NoReturn(ss[0]) && NoReturns(ss[1..])
  }

  predicate NoReturnCase(c: Case)
    decreases c, 0
  {
    NoReturns(CaseBody(c))
  }

  predicate NoReturnCases(cs: seq<Case>)
    decreases cs, 0
  {
    cs != [] ==> NoReturnCase(cs[0]) && NoReturnCases(cs[1..])
  }

  predicate NoReturnClause(c: Catch)
    decreases c, 0
  {
    NoReturn(c.body)
  }

  predicate NoReturnClauses(catches: seq<Catch>)
    decreases catches, 0
  {
    catches != [] ==> NoReturnClause(catches[0]) && NoReturnClauses(catches[1..])
  }

  lemma {:induction false} NoReturnNeverReturns(s: Stmt, labels: set<string>, f: string)
    requires NoReturn(s)
    ensures Returned !in Avoid(s, labels, f)
    decreases s, 1
  {
    match s
    case Block(ss) => NoReturnsNeverReturn(ss, f);
    case If(_, c, alt) =>
      NoReturnNeverReturns(c, {}, f);
      if alt.Some? { NoReturnNeverReturns(alt.value, {}, f); }
    case Loop(_, body) => NoReturnNeverReturns(body, {}, f);
    case Switch(_, cs) => NoReturnCasesNeverReturn(cs, f);
    case Try(block, catches, fin) =>
      NoReturnNeverReturns(block, {}, f);
      NoReturnClausesNeverReturn(catches, f);
      if fin.Some? { NoReturnNeverReturns(fin.value, {}, f); }
    case Labeled(l, body) => NoReturnNeverReturns(body, labels + {l}, f);
    case _ =>
  }

  lemma {:induction false} NoReturnsNeverReturn(ss: seq<Stmt>, f: string)
    requires NoReturns(ss)
    ensures Returned !in AvoidAll(ss, f)
    decreases ss, 0
  {
    if ss != [] {
      NoReturnNeverReturns(ss[0], {}, f);
      NoReturnsNeverReturn(ss[1..], f);
    }
  }

  lemma {:induction false} NoReturnCaseNeverReturns(c: Case, f: string)
    requires NoReturnCase(c)
    ensures Returned !in AvoidCase(c, f)
    decreases c, 0
  {
    NoReturnsNeverReturn(CaseBody(c), f);
  }

  lemma {:induction false} NoReturnCasesNeverReturn(cs: seq<Case>, f: string)
    requires NoReturnCases(cs)
    ensures Returned !in AvoidCases(cs, f)
    decreases cs, 0
  {
    if cs != [] {
      NoReturnCaseNeverReturns(cs[0], f);
      NoReturnCasesNeverReturn(cs[1..], f);
    }
  }

  lemma {:induction false} NoReturnClauseNeverReturns(c: Catch, f: string)
    requires NoReturnClause(c)
    ensures Returned !in AvoidClause(c, f)
    decreases c, 0
  {
    NoReturnNeverReturns(c.body, {}, f);
  }

  lemma {:induction false} NoReturnClausesNeverReturn(catches: seq<Catch>, f: string)
    requires NoReturnClauses(catches)
    ensures Returned !in AvoidClauses(catches, f)
    decreases catches, 0
  {
    if catches != [] {
      NoReturnClauseNeverReturns(catches[0], f);
      NoReturnClausesNeverReturn(catches[1..], f);
    }
  }

  lemma BodiesWithoutReturn(body: Stmt)
    requires NoReturn(body)
    ensures AssignedOnCompletion(body)
  {
    hide Avoid, Ends, Walked;
    forall f | f in Walked(body) ensures Returned !in Avoid(body, {}, f) {
      NoReturnNeverReturns(body, {}, f);
    }
    GuaranteeIsExact(body);
  }

  // --- what the walk does not miss ---------------------------------------------------

  /** Evaluating `e` assigns nothing. */
  predicate Quiet(e: Expr)
    decreases e
  {
    match e
    case This => true
    case Ident(_) => true
    case Field(o, _) => Quiet(o)
    case Assign(_, _, _) => false
    case ComputedKey(k) => Quiet(k)
    case Choice(h, arms, _) => Quiet(h) && QuietAll(arms)
    case Index(ps) => QuietAll(ps)
    case Collection(ps) => QuietAll(ps)
    case Strict(ps) => QuietAll(ps)
  }

  predicate QuietAll(es: seq<Expr>)
    decreases es
  {
    es != [] ==> Quiet(es[0]) && QuietAll(es[1..])
  }

  /** A pattern whose targets, keys and defaults assign nothing themselves. */
  predicate QuietPattern(t: Expr)
    decreases t
  {
    match t
    case Collection(ps) => QuietPatterns(ps)
    case ComputedKey(k) => Quiet(k)
    case Assign(Plain, inner, d) => QuietPattern(inner) && Quiet(d)
    case _ => QuietTarget(t)
  }

  predicate QuietPatterns(ps: seq<Expr>)
    decreases ps
  {
    ps != [] ==> QuietPattern(ps[0]) && QuietPatterns(ps[1..])
  }

  predicate QuietTarget(t: Expr) {
    (t.Field? ==> Quiet(t.base)) && (t.Index? ==> QuietAll(t.parts))
  }

  /** Nothing is assigned, or a plain assignment assigns its targets and nothing else. */
  predicate Direct(e: Expr) {
    || Quiet(e)
    || (e.Assign? && e.op.Plain? && Quiet(e.value)
        && if e.target.Collection? then QuietPattern(e.target) else QuietTarget(e.target))
  }

  /** Blocks and branches over direct expressions. */
  predicate Plainly(s: Stmt)
    decreases s
  {
    match s
    case Block(ss) => PlainlyAll(ss)
    case Skip => true
    case ExprStmt(e) => Direct(e)
    case If(t, c, alt) => Quiet(t) && Plainly(c) && (alt.Some? ==> Plainly(alt.value))
    case _ => false
  }

  predicate PlainlyAll(ss: seq<Stmt>)
    decreases ss
  {
    ss != [] ==> Plainly(ss[0]) && PlainlyAll(ss[1..])
  }

  lemma {:induction false} QuietNeedNot(e: Expr, f: string)
    requires Quiet(e)
    ensures !Must(e, f)
    decreases e
  {
    match e
    case Field(o, _) => QuietNeedNot(o, f);
    case ComputedKey(k) => QuietNeedNot(k, f);
    case Choice(h, arms, _) =>
      QuietNeedNot(h, f);
      QuietAllNeedNot(arms, f);
    case Index(ps) => QuietAllNeedNot(ps, f);
    case Collection(ps) => QuietAllNeedNot(ps, f);
    case Strict(ps) => QuietAllNeedNot(ps, f);
    case _ =>
  }

  lemma {:induction false} QuietAllNeedNot(es: seq<Expr>, f: string)
    requires QuietAll(es)
    ensures !MustAny(es, f) && (es != [] ==> !MustEvery(es, f))
    decreases es
  {
    if es != [] {
      QuietNeedNot(es[0], f);
      QuietAllNeedNot(es[1..], f);
    }
  }

  lemma QuietTargetStores(t: Expr, f: string)
    requires QuietTarget(t)
    ensures MustStore(t, f) <==> f in Stored(t)
  {
    if t.Field? { QuietNeedNot(t.base, f); }
    if t.Index? { QuietAllNeedNot(t.parts, f); }
  }

  lemma {:induction false} BoundIsLeaf(t: Expr, f: string)
    requires QuietPattern(t) && MustBind(t, f)
    ensures f in FoundIn(Leaves(t))
    decreases t
  {
    match t
    case Collection(ps) => BoundIsLeafAll(ps, f);
    case ComputedKey(k) => QuietNeedNot(k, f);
    case Assign(Plain, inner, _) => BoundIsLeaf(inner, f);
    case _ =>
      FoundInOne(t);
      QuietTargetStores(t, f);
  }

  lemma {:induction false} BoundIsLeafAll(ps: seq<Expr>, f: string)
    requires QuietPatterns(ps) && MustBindAny(ps, f)
    ensures f in FoundIn(LeavesAll(ps))
    decreases ps
  {
    FoundInJoin(Leaves(ps[0]), LeavesAll(ps[1..]));
    if MustBind(ps[0], f) { BoundIsLeaf(ps[0], f); } else { BoundIsLeafAll(ps[1..], f); }
  }

  lemma DirectIsWalked(e: Expr, f: string)
    requires Direct(e) && Must(e, f)
    ensures f in WalkedExpr(e)
  {
    if Quiet(e) {
      QuietNeedNot(e, f);
    } else {
      QuietNeedNot(e.value, f);
      if e.target.Collection? {
        BoundIsLeaf(e.target, f);
      } else {
        QuietTargetStores(e.target, f);
        FoundInOne(e.target);
      }
    }
  }

  lemma {:induction false} MissedIsAvoided(s: Stmt, labels: set<string>, f: string)
    requires Plainly(s) && f !in Walked(s)
    ensures Normal in Avoid(s, labels, f)
    decreases s
  {
    match s
    case Block(ss) => MissedAllAvoided(ss, f);
    case Skip =>
    case ExprStmt(e) =>
      OneOperand(e, f);
      if Must(e, f) { DirectIsWalked(e, f); }
    case If(t, c, alt) =>
      QuietNeedNot(t, f);
      if f !in Walked(c) { MissedIsAvoided(c, {}, f); }
      else if alt.Some? { MissedIsAvoided(alt.value, {}, f); }
  }

  lemma OneOperand(e: Expr, f: string)
    ensures MustAny([e], f) == Must(e, f)
  {
    hide Must;
    assert [e][1..] == [];
  }

  lemma {:induction false} MissedAllAvoided(ss: seq<Stmt>, f: string)
    requires PlainlyAll(ss) && f !in WalkedAll(ss)
    ensures Normal in AvoidAll(ss, f)
    decreases ss
  {
    if ss != [] {
      MissedIsAvoided(ss[0], {}, f);
      MissedAllAvoided(ss[1..], f);
    }
  }

  /**
    * Over blocks and branches of plain assignments the walk finds exactly the fields that every run
    * to the end assigns.
    */
  lemma WalkIsExactWhenPlain(body: Stmt, f: string)
    requires Plainly(body)
    ensures f in Walked(body) <==> forall a: Fields :: Ends(body, {}, {}, Normal, a) ==> f in a
  {
    hide Avoid, Ends, Walked, Plainly;
    if f in Walked(body) {
      forall a: Fields | Ends(body, {}, {}, Normal, a) ensures f in a { AssignedAtNormalEnd(body, {}, a); }
    } else {
      MissedIsAvoided(body, {}, f);
      var a := RunWithout(body, {}, {}, Normal, f);
    }
  }
}
