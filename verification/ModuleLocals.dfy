/** Promotion of module variables to locals of the top level, and the proof that it preserves meaning. */
module ModuleLocals {
  import opened Wrappers
  import opened Tir

  // --- which globals are candidates -----------------------------------------

  /** A declarator of a top-level statement: the name it binds, unless its pattern destructures. */
  datatype Declarator = Declarator(name: Option<string>, classValued: bool)

  datatype TopStmt = Variable(isDeclare: bool, declarators: seq<Declarator>) | OtherStmt

  ghost predicate DeclaresVariable(program: seq<TopStmt>, name: string) {
    exists i, j :: 0 <= i < |program| && program[i].Variable? && !program[i].isDeclare &&
      0 <= j < |program[i].declarators| && program[i].declarators[j] == Declarator(Some(name), false)
  }

  method TopLevelVariables(program: seq<TopStmt>) returns (names: set<string>)
    ensures forall name :: name in names <==> DeclaresVariable(program, name)
  {
    names := {};
    var i := 0;
    while i < |program|
      invariant 0 <= i <= |program|
      invariant forall name :: name in names <==> DeclaresVariable(program[..i], name)
    {
      ghost var before := names;
      match program[i] {
        case OtherStmt =>
        case Variable(isDeclare, declarators) =>
          if !isDeclare {
            var bound := NamesBound(declarators);
            names := names + bound;
          }
      }
      OneMore(program, i);
      i := i + 1;
    }
    assert program[..i] == program;
  }

  method NamesBound(declarators: seq<Declarator>) returns (names: set<string>)
    ensures forall name :: name in names <==> Declarator(Some(name), false) in declarators
  {
    names := {};
    var j := 0;
    while j < |declarators|
      invariant 0 <= j <= |declarators|
      invariant forall name :: name in names <==> Declarator(Some(name), false) in declarators[..j]
    {
      var d := declarators[j];
      if d.name.Some? && !d.classValued {
        names := names + {d.name.value};
        assert d == Declarator(Some(d.name.value), false);
      }
      j := j + 1;
    }
    assert declarators[..j] == declarators;
  }

  lemma OneMore(program: seq<TopStmt>, i: nat)
    requires i < |program|
    ensures forall name :: DeclaresVariable(program[..i + 1], name) <==>
              DeclaresVariable(program[..i], name) ||
              (program[i].Variable? && !program[i].isDeclare && Declarator(Some(name), false) in program[i].declarators)
  {
    var a, b := program[..i], program[..i + 1];
    assert b == a + [program[i]];
    forall name ensures DeclaresVariable(b, name) <==>
              DeclaresVariable(a, name) ||
              (program[i].Variable? && !program[i].isDeclare && Declarator(Some(name), false) in program[i].declarators)
    {
      if DeclaresVariable(a, name) {
        var k, j :| 0 <= k < |a| && a[k].Variable? && !a[k].isDeclare &&
          0 <= j < |a[k].declarators| && a[k].declarators[j] == Declarator(Some(name), false);
        assert b[k] == a[k];
      }
      if DeclaresVariable(b, name) {
        var k, j :| 0 <= k < |b| && b[k].Variable? && !b[k].isDeclare &&
          0 <= j < |b[k].declarators| && b[k].declarators[j] == Declarator(Some(name), false);
        if k < i {
          assert a[k] == b[k];
          assert DeclaresVariable(a, name);
        }
      }
    }
  }

  // --- the variables that code mentions -------------------------------------

  function SlotOf(res: Resolution): set<nat> {
    if res.GlobalSlot? then {res.slot} else {}
  }

  function ExprSlots(e: Expr): set<nat> {
    SlotOf(e.res) +
    match e.kind
    case Lit(_) => {}
    case Var => {}
    case Op(_, args) => ExprsSlots(args)
    case Assign(target, source) => ExprSlots(target) + ExprSlots(source)
    case Select(cond, a, b) => ExprSlots(cond) + ExprSlots(a) + ExprSlots(b)
    case Seq(stmts, result) => StmtsSlots(stmts) + ExprSlots(result)
    case Closure(_, _) => {}
  }

  function ExprsSlots(es: seq<Expr>): set<nat> {
    if es == [] then {} else ExprSlots(es[0]) + ExprsSlots(es[1..])
  }

  function OptionalSlots(e: Option<Expr>): set<nat> {
    if e.None? then {} else ExprSlots(e.value)
  }

  function StmtSlots(s: Stmt): set<nat> {
    match s
    case Do(e) => ExprSlots(e)
    case Let(_, init) => OptionalSlots(init)
    case Return(result) => OptionalSlots(result)
    case If(cond, a, b) => ExprSlots(cond) + StmtsSlots(a) + StmtsSlots(b)
    case Loop(cond, body) => ExprSlots(cond) + StmtsSlots(body)
    case Break => {}
    case Continue => {}
    case Throw(e) => ExprSlots(e)
    case Try(body, _, catchBody) => StmtsSlots(body) + StmtsSlots(catchBody)
    case BuildClass(_) => {}
  }

  function StmtsSlots(ss: seq<Stmt>): set<nat> {
    if ss == [] then {} else StmtSlots(ss[0]) + StmtsSlots(ss[1..])
  }

  function ClassSlots(d: ClassDef): set<nat> {
    StmtsSlots(d.prelude) + ExprsSlots(d.exprs)
  }

  // --- the rewrite ----------------------------------------------------------

  type Promoted = map<nat, nat>

  function RewriteRes(res: Resolution, p: Promoted): Resolution {
    if res.GlobalSlot? && res.slot in p then Local(p[res.slot]) else res
  }

  function RewriteExpr(e: Expr, p: Promoted): Expr {
    Expr(match e.kind
         case Lit(v) => e.kind
         case Var => e.kind
         case Op(op, args) => Op(op, RewriteExprs(args, p))
         case Assign(target, source) => Assign(RewriteExpr(target, p), RewriteExpr(source, p))
         case Select(cond, a, b) => Select(RewriteExpr(cond, p), RewriteExpr(a, p), RewriteExpr(b, p))
         case Seq(stmts, result) => Seq(RewriteStmts(stmts, p), RewriteExpr(result, p))
         case Closure(_, _) => e.kind,
         RewriteRes(e.res, p))
  }

  function RewriteExprs(es: seq<Expr>, p: Promoted): seq<Expr> {
    if es == [] then [] else [RewriteExpr(es[0], p)] + RewriteExprs(es[1..], p)
  }

  function RewriteOptional(e: Option<Expr>, p: Promoted): Option<Expr> {
    if e.None? then None else Some(RewriteExpr(e.value, p))
  }

  function RewriteStmt(s: Stmt, p: Promoted): Stmt {
    match s
    case Do(e) => Do(RewriteExpr(e, p))
    case Let(id, init) => Let(id, RewriteOptional(init, p))
    case Return(result) => Return(RewriteOptional(result, p))
    case If(cond, a, b) => If(RewriteExpr(cond, p), RewriteStmts(a, p), RewriteStmts(b, p))
    case Loop(cond, body) => Loop(RewriteExpr(cond, p), RewriteStmts(body, p))
    case Break => s
    case Continue => s
    case Throw(e) => Throw(RewriteExpr(e, p))
    case Try(body, id, catchBody) => Try(RewriteStmts(body, p), id, RewriteStmts(catchBody, p))
    case BuildClass(_) => s
  }

  function RewriteStmts(ss: seq<Stmt>, p: Promoted): seq<Stmt> {
    if ss == [] then [] else [RewriteStmt(ss[0], p)] + RewriteStmts(ss[1..], p)
  }

  /** Code that mentions no promoted global is not touched. */
  lemma {:induction false} RewriteExprIsId(e: Expr, p: Promoted)
    requires ExprSlots(e) !! p.Keys
    ensures RewriteExpr(e, p) == e
  {
    match e.kind
    case Lit(_) =>
    case Var =>
    case Op(_, args) => RewriteExprsIsId(args, p);
    case Assign(target, source) =>
      RewriteExprIsId(target, p);
      RewriteExprIsId(source, p);
    case Select(cond, a, b) =>
      RewriteExprIsId(cond, p);
      RewriteExprIsId(a, p);
      RewriteExprIsId(b, p);
    case Seq(stmts, result) =>
      RewriteStmtsIsId(stmts, p);
      RewriteExprIsId(result, p);
    case Closure(_, _) =>
  }

  lemma {:induction false} RewriteExprsIsId(es: seq<Expr>, p: Promoted)
    requires ExprsSlots(es) !! p.Keys
    ensures RewriteExprs(es, p) == es
  {
    if es != [] {
      RewriteExprIsId(es[0], p);
      RewriteExprsIsId(es[1..], p);
    }
  }

  lemma {:induction false} RewriteOptionalIsId(e: Option<Expr>, p: Promoted)
    requires OptionalSlots(e) !! p.Keys
    ensures RewriteOptional(e, p) == e
  {
    if e.Some? {
      RewriteExprIsId(e.value, p);
    }
  }

  lemma {:induction false} RewriteStmtIsId(s: Stmt, p: Promoted)
    requires StmtSlots(s) !! p.Keys
    ensures RewriteStmt(s, p) == s
  {
    match s
    case Do(e) => RewriteExprIsId(e, p);
    case Let(_, init) => RewriteOptionalIsId(init, p);
    case Return(result) => RewriteOptionalIsId(result, p);
    case If(cond, a, b) =>
      RewriteExprIsId(cond, p);
      RewriteStmtsIsId(a, p);
      RewriteStmtsIsId(b, p);
    case Loop(cond, body) =>
      RewriteExprIsId(cond, p);
      RewriteStmtsIsId(body, p);
    case Break =>
    case Continue =>
    case Throw(e) => RewriteExprIsId(e, p);
    case Try(body, _, catchBody) =>
      RewriteStmtsIsId(body, p);
      RewriteStmtsIsId(catchBody, p);
    case BuildClass(_) =>
  }

  lemma {:induction false} RewriteStmtsIsId(ss: seq<Stmt>, p: Promoted)
    requires StmtsSlots(ss) !! p.Keys
    ensures RewriteStmts(ss, p) == ss
  {
    if ss != [] {
      RewriteStmtIsId(ss[0], p);
      RewriteStmtsIsId(ss[1..], p);
    }
  }

  /** Code that mentions a promoted global is: nothing else counts as mentioned. */
  lemma {:induction false} MentionedIsRewritten(e: Expr, s: nat, l: nat)
    requires s in ExprSlots(e)
    ensures RewriteExpr(e, map[s := l]) != e
  {
    match e.kind
    case Op(_, args) => if e.res != GlobalSlot(s) { MentionedAreRewritten(args, s, l); }
    case Assign(target, source) =>
      if s in ExprSlots(target) { MentionedIsRewritten(target, s, l); }
      if s in ExprSlots(source) { MentionedIsRewritten(source, s, l); }
    case Select(cond, a, b) =>
      if s in ExprSlots(cond) { MentionedIsRewritten(cond, s, l); }
      if s in ExprSlots(a) { MentionedIsRewritten(a, s, l); }
      if s in ExprSlots(b) { MentionedIsRewritten(b, s, l); }
    case Seq(stmts, result) =>
      if s in StmtsSlots(stmts) { MentionedInStmts(stmts, s, l); }
      if s in ExprSlots(result) { MentionedIsRewritten(result, s, l); }
    case _ =>
  }

  lemma {:induction false} MentionedAreRewritten(es: seq<Expr>, s: nat, l: nat)
    requires s in ExprsSlots(es)
    ensures RewriteExprs(es, map[s := l]) != es
  {
    var r := RewriteExprs(es, map[s := l]);
    assert r[1..] == RewriteExprs(es[1..], map[s := l]);
    if s in ExprSlots(es[0]) { MentionedIsRewritten(es[0], s, l); } else { MentionedAreRewritten(es[1..], s, l); }
  }

  lemma {:induction false} MentionedInOptional(e: Option<Expr>, s: nat, l: nat)
    requires s in OptionalSlots(e)
    ensures RewriteOptional(e, map[s := l]) != e
  {
    MentionedIsRewritten(e.value, s, l);
  }

  lemma {:induction false} MentionedInStmt(t: Stmt, s: nat, l: nat)
    requires s in StmtSlots(t)
    ensures RewriteStmt(t, map[s := l]) != t
  {
    match t
    case Do(e) => MentionedIsRewritten(e, s, l);
    case Let(_, init) => MentionedInOptional(init, s, l);
    case Return(result) => MentionedInOptional(result, s, l);
    case If(cond, a, b) =>
      if s in ExprSlots(cond) { MentionedIsRewritten(cond, s, l); }
      if s in StmtsSlots(a) { MentionedInStmts(a, s, l); }
      if s in StmtsSlots(b) { MentionedInStmts(b, s, l); }
    case Loop(cond, body) =>
      if s in ExprSlots(cond) { MentionedIsRewritten(cond, s, l); }
      if s in StmtsSlots(body) { MentionedInStmts(body, s, l); }
    case Throw(e) => MentionedIsRewritten(e, s, l);
    case Try(body, _, catchBody) =>
      if s in StmtsSlots(body) { MentionedInStmts(body, s, l); }
      if s in StmtsSlots(catchBody) { MentionedInStmts(catchBody, s, l); }
  }

  lemma {:induction false} MentionedInStmts(ts: seq<Stmt>, s: nat, l: nat)
    requires s in StmtsSlots(ts)
    ensures RewriteStmts(ts, map[s := l]) != ts
  {
    var r := RewriteStmts(ts, map[s := l]);
    assert r[1..] == RewriteStmts(ts[1..], map[s := l]);
    if s in StmtSlots(ts[0]) { MentionedInStmt(ts[0], s, l); } else { MentionedInStmts(ts[1..], s, l); }
  }

  // --- the pass -------------------------------------------------------------

  datatype Export = Export(name: string, isReexport: bool)

  function FunctionsSlots(fs: seq<Function>): set<nat> {
    if fs == [] then {} else StmtsSlots(fs[0].body) + FunctionsSlots(fs[1..])
  }

  function ClassesSlots(ds: seq<ClassDef>): set<nat> {
    if ds == [] then {} else ClassSlots(ds[0]) + ClassesSlots(ds[1..])
  }

  /** The globals that are plain variables and not exported. */
  ghost predicate Candidate(names: seq<string>, exports: seq<Export>, variables: set<string>, slot: nat) {
    && slot < |names|
    && names[slot] in variables
    && forall e :: e in exports && !e.isReexport ==> e.name != names[slot]
  }

  /** The globals that code outside the top level mentions. */
  function EscapingSlots(functions: seq<Function>, classDefs: seq<ClassDef>): set<nat> {
    FunctionsSlots(functions) + ClassesSlots(classDefs)
  }

  /** The new locals of the promoted globals: numbered on from the old locals, in slot order. */
  ghost predicate Numbering(p: Promoted, from: nat, locals: seq<Ty>, globals: seq<Ty>) {
    && |locals| == from + |p|
    && (forall s :: s in p ==> from <= p[s] < |locals| && s < |globals| && locals[p[s]] == globals[s])
    && (forall s, t :: s in p && t in p && s < t ==> p[s] < p[t])
  }

  /** Only the top level differs. */
  ghost predicate Rewritten(m: Code, m': Code) {
    m'.functions == m.functions && m'.classDefs == m.classDefs
  }

  /** The result of the pass: the promoted globals escape nowhere, and the top level uses their locals instead. */
  ghost predicate IsPromotion(m: Code, m': Code, p: Promoted, globals: seq<Ty>) {
    && Rewritten(m, m')
    && m'.top.body == RewriteStmts(m.top.body, p)
    && Numbering(p, |m.top.locals|, m'.top.locals, globals)
    && p.Keys !! EscapingSlots(m.functions, m.classDefs)
  }

  class TirModule {
    var functions: seq<Function>
    var classDefs: seq<ClassDef>
    var top: Function
    var globals: seq<Ty>
    var globalNames: seq<string>
    var exports: seq<Export>

    ghost function AsCode(): Code
      reads this
    {
      Code(functions, classDefs, top)
    }

    method Escaping() returns (slots: set<nat>)
      ensures slots == EscapingSlots(functions, classDefs)
    {
      slots := {};
      var fs := functions;
      while fs != []
        invariant slots + FunctionsSlots(fs) == FunctionsSlots(functions)
        decreases |fs|
      {
        slots := slots + StmtsSlots(fs[0].body);
        fs := fs[1..];
      }
      var ds := classDefs;
      while ds != []
        invariant slots + ClassesSlots(ds) == FunctionsSlots(functions) + ClassesSlots(classDefs)
        decreases |ds|
      {
        slots := slots + ClassSlots(ds[0]);
        ds := ds[1..];
      }
    }

    method Candidates(variables: set<string>) returns (slots: seq<nat>)
      ensures forall slot: nat :: slot in slots <==> Candidate(globalNames, exports, variables, slot)
      ensures forall i, j :: 0 <= i < j < |slots| ==> slots[i] < slots[j]
      ensures forall slot :: slot in slots ==> slot < |globalNames|
    {
      var exported := set e | e in exports && !e.isReexport :: e.name;
      slots := [];
      var slot := 0;
      while slot < |globalNames|
        invariant 0 <= slot <= |globalNames|
        invariant forall s: nat :: s in slots <==> s < slot && Candidate(globalNames, exports, variables, s)
        invariant forall i, j :: 0 <= i < j < |slots| ==> slots[i] < slots[j]
      {
        if globalNames[slot] in variables && globalNames[slot] !in exported {
          assert forall i :: 0 <= i < |slots| ==> slots[i] in slots;
          slots := slots + [slot];
        }
        slot := slot + 1;
      }
    }

    method Promote(variables: set<string>) returns (ghost p: Promoted)
      requires |globalNames| <= |globals|
      modifies this`top
      ensures forall slot: nat :: slot in p <==>
                Candidate(globalNames, exports, variables, slot) && slot !in EscapingSlots(functions, classDefs)
      ensures IsPromotion(old(AsCode()), AsCode(), p, globals)
      ensures old(top).locals <= top.locals
    {
      var candidates := Candidates(variables);
      if candidates == [] {
        p := map[];
        assert forall slot: nat :: slot !in candidates;
        RewriteStmtsIsId(top.body, p);
        return;
      }
      hide RewriteStmts, EscapingSlots, Candidate;
      var escaping := Escaping();
      var promoted, locals := AssignLocals(candidates, escaping, top.locals, globals);
      p := promoted;
      top := Function(locals, RewriteStmts(top.body, promoted));
    }
  }

  /** Gives every candidate that does not escape a new local. */
  method AssignLocals(candidates: seq<nat>, escaping: set<nat>, locals: seq<Ty>, globals: seq<Ty>)
    returns (promoted: Promoted, grown: seq<Ty>)
    requires forall i, j :: 0 <= i < j < |candidates| ==> candidates[i] < candidates[j]
    requires forall s :: s in candidates ==> s < |globals|
    ensures forall s: nat :: s in promoted <==> s in candidates && s !in escaping
    ensures Numbering(promoted, |locals|, grown, globals)
    ensures locals <= grown
  {
    promoted, grown := map[], locals;
    var i := 0;
    assert Numbering(promoted, |locals|, grown, globals);
    hide Numbering;
    while i < |candidates|
      invariant 0 <= i <= |candidates|
      invariant locals <= grown
      invariant forall s: nat :: s in promoted <==> s in candidates[..i] && s !in escaping
      invariant Numbering(promoted, |locals|, grown, globals)
    {
      var slot := candidates[i];
      OneCandidate(candidates, i);
      if slot !in escaping {
        NumberOneMore(promoted, |locals|, grown, globals, slot);
        promoted := promoted[slot := |grown|];
        grown := grown + [globals[slot]];
      }
      i := i + 1;
    }
    assert candidates[..i] == candidates;
  }

  lemma OneCandidate(candidates: seq<nat>, i: nat)
    requires forall i, j :: 0 <= i < j < |candidates| ==> candidates[i] < candidates[j]
    requires i < |candidates|
    ensures candidates[i] in candidates
    ensures forall s :: s in candidates[..i] ==> s < candidates[i]
    ensures forall s :: s in candidates[..i + 1] <==> s in candidates[..i] || s == candidates[i]
  {
    assert candidates[..i + 1] == candidates[..i] + [candidates[i]];
  }

  lemma NumberOneMore(p: Promoted, from: nat, locals: seq<Ty>, globals: seq<Ty>, slot: nat)
    requires Numbering(p, from, locals, globals)
    requires slot < |globals| && forall s :: s in p ==> s < slot
    ensures Numbering(p[slot := |locals|], from, locals + [globals[slot]], globals)
  {
  }
}
