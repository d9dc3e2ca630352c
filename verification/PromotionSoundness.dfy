/** Promotion preserves meaning: the rewritten module runs in lockstep with the original. */
module PromotionSoundness {
  import opened Wrappers
  import opened Tir
  import opened ModuleLocals

  // --- the locals that code mentions ------------------------------------------

  function LocalOf(res: Resolution): set<nat> {
    if res.Local? then {res.id} else {}
  }

  function UpvaluesLocals(us: seq<Upvalue>): set<nat> {
    if us == [] then {} else (if us[0].ParentLocal? then {us[0].id} else {}) + UpvaluesLocals(us[1..])
  }

  /** The locals that an expression reads, writes, captures or catches into. */
  function ExprLocals(e: Expr): set<nat> {
    LocalOf(e.res) +
    match e.kind
    case Lit(_) => {}
    case Var => {}
    case Op(_, args) => ExprsLocals(args)
    case Assign(target, source) => ExprLocals(target) + ExprLocals(source)
    case Select(cond, a, b) => ExprLocals(cond) + ExprLocals(a) + ExprLocals(b)
    case Seq(stmts, result) => StmtsLocals(stmts) + ExprLocals(result)
    case Closure(_, us) => UpvaluesLocals(us)
  }

  function ExprsLocals(es: seq<Expr>): set<nat> {
    if es == [] then {} else ExprLocals(es[0]) + ExprsLocals(es[1..])
  }

  function OptionalLocals(e: Option<Expr>): set<nat> {
    if e.None? then {} else ExprLocals(e.value)
  }

  function StmtLocals(s: Stmt): set<nat> {
    match s
    case Do(e) => ExprLocals(e)
    case Let(id, init) => {id} + OptionalLocals(init)
    case Return(result) => OptionalLocals(result)
    case If(cond, a, b) => ExprLocals(cond) + StmtsLocals(a) + StmtsLocals(b)
    case Loop(cond, body) => ExprLocals(cond) + StmtsLocals(body)
    case Break => {}
    case Continue => {}
    case Throw(e) => ExprLocals(e)
    case Try(body, id, catchBody) => {id} + StmtsLocals(body) + StmtsLocals(catchBody)
    case BuildClass(_) => {}
  }

  function StmtsLocals(ss: seq<Stmt>): set<nat> {
    if ss == [] then {} else StmtLocals(ss[0]) + StmtsLocals(ss[1..])
  }

  function ClassLocals(d: ClassDef): set<nat> {
    StmtsLocals(d.prelude) + ExprsLocals(d.exprs)
  }

  // --- matching states ------------------------------------------------------

  /** Cells that are not one of the new locals of the top level, which is activation 0. */
  predicate OldCell(c: Cell, news: set<nat>) {
    c.frame != 0 || c.isParam || c.index !in news
  }

  /** The original state `a` and the rewritten state `b`: a promoted global lives in its new local. */
  ghost predicate Matches<W(!new)>(a: State<W>, b: State<W>, p: Promoted, news: set<nat>) {
    && a.world == b.world
    && 0 < |a.frames| == |b.frames|
    && (forall i :: 0 <= i < |a.frames| ==> a.frames[i].env == b.frames[i].env)
    && a.envs == b.envs
    && (forall i, j :: 0 <= i < |a.envs| && 0 <= j < |a.envs[i]| ==> OldCell(a.envs[i][j], news))
    && (forall c: Cell :: OldCell(c, news) ==> ReadCell(a, c) == ReadCell(b, c))
    && (forall s: nat :: s !in p ==> At(a.globals, s) == At(b.globals, s))
    && (forall s: nat :: s in p ==> At(a.globals, s) == ReadCell(b, Cell(0, false, p[s])))
  }

  /** The new locals are new, and no two globals share one. */
  predicate FreshLocals(p: Promoted, news: set<nat>) {
    && (forall s :: s in p ==> p[s] in news)
    && (forall s, t :: s in p && t in p && s != t ==> p[s] != p[t])
  }

  lemma ReadAfterWrite<W>(s: State<W>, c: Cell, v: Value, d: Cell)
    ensures ReadCell(WriteCell(s, c, v), d) == if d == c && c.frame < |s.frames| then v else ReadCell(s, d)
  {
  }

  lemma MatchesWrite<W(!new)>(a: State<W>, b: State<W>, p: Promoted, news: set<nat>, c: Cell, v: Value)
    requires Matches(a, b, p, news) && FreshLocals(p, news) && OldCell(c, news)
    ensures Matches(WriteCell(a, c, v), WriteCell(b, c, v), p, news)
  {
    var a', b' := WriteCell(a, c, v), WriteCell(b, c, v);
    forall d: Cell | OldCell(d, news) ensures ReadCell(a', d) == ReadCell(b', d) {
      ReadAfterWrite(a, c, v, d);
      ReadAfterWrite(b, c, v, d);
    }
    forall s: nat | s in p ensures At(a'.globals, s) == ReadCell(b', Cell(0, false, p[s])) {
      ReadAfterWrite(b, c, v, Cell(0, false, p[s]));
    }
    hide ReadCell;
  }

  lemma MatchesGlobal<W(!new)>(a: State<W>, b: State<W>, p: Promoted, news: set<nat>, slot: nat, v: Value)
    requires Matches(a, b, p, news) && slot !in p
    ensures Matches(a.(globals := a.globals[slot := v]), b.(globals := b.globals[slot := v]), p, news)
  {
    var a', b' := a.(globals := a.globals[slot := v]), b.(globals := b.globals[slot := v]);
    assert forall c: Cell :: ReadCell(a', c) == ReadCell(a, c) && ReadCell(b', c) == ReadCell(b, c);
    hide ReadCell;
  }

  /** Writing a promoted global writes its local. */
  lemma MatchesPromoted<W(!new)>(a: State<W>, b: State<W>, p: Promoted, news: set<nat>, slot: nat, v: Value)
    requires Matches(a, b, p, news) && FreshLocals(p, news) && slot in p
    ensures Matches(a.(globals := a.globals[slot := v]), WriteCell(b, Cell(0, false, p[slot]), v), p, news)
  {
    var c := Cell(0, false, p[slot]);
    var a', b' := a.(globals := a.globals[slot := v]), WriteCell(b, c, v);
    forall d: Cell | OldCell(d, news) ensures ReadCell(a', d) == ReadCell(b', d) {
      ReadAfterWrite(b, c, v, d);
    }
    forall s: nat | s in p ensures At(a'.globals, s) == ReadCell(b', Cell(0, false, p[s])) {
      ReadAfterWrite(b, c, v, Cell(0, false, p[s]));
    }
    hide ReadCell;
  }

  lemma MatchesWorld<W(!new)>(a: State<W>, b: State<W>, p: Promoted, news: set<nat>, w: W)
    requires Matches(a, b, p, news)
    ensures Matches(a.(world := w), b.(world := w), p, news)
  {
    var a', b' := a.(world := w), b.(world := w);
    assert forall c: Cell :: ReadCell(a', c) == ReadCell(a, c) && ReadCell(b', c) == ReadCell(b, c);
    hide ReadCell;
  }

  lemma MatchesCall<W(!new)>(a: State<W>, b: State<W>, p: Promoted, news: set<nat>, w: W, f: Frame)
    requires Matches(a, b, p, news)
    ensures Matches(a.(world := w, frames := a.frames + [f]), b.(world := w, frames := b.frames + [f]), p, news)
  {
    var a', b' := a.(world := w, frames := a.frames + [f]), b.(world := w, frames := b.frames + [f]);
    forall c: Cell
      ensures c.frame < |a.frames| ==> ReadCell(a', c) == ReadCell(a, c) && ReadCell(b', c) == ReadCell(b, c)
      ensures c.frame >= |a.frames| ==> ReadCell(a', c) == ReadCell(b', c)
    {
    }
    hide ReadCell;
  }

  lemma MatchesEnv<W(!new)>(a: State<W>, b: State<W>, p: Promoted, news: set<nat>, cells: seq<Cell>)
    requires Matches(a, b, p, news) && forall j :: 0 <= j < |cells| ==> OldCell(cells[j], news)
    ensures Matches(a.(envs := a.envs + [cells]), b.(envs := b.envs + [cells]), p, news)
  {
    var a', b' := a.(envs := a.envs + [cells]), b.(envs := b.envs + [cells]);
    assert forall c: Cell :: ReadCell(a', c) == ReadCell(a, c) && ReadCell(b', c) == ReadCell(b, c);
    hide ReadCell, OldCell;
  }

  /**
    * Code that activation `frame` may run: the top level avoids the new locals, everything else the
    * promoted globals.
    */
  predicate ResScoped(res: Resolution, frame: nat, p: Promoted, news: set<nat>) {
    if frame == 0 then LocalOf(res) !! news else SlotOf(res) !! p.Keys
  }

  predicate ExprScoped(e: Expr, frame: nat, p: Promoted, news: set<nat>) {
    if frame == 0 then ExprLocals(e) !! news else ExprSlots(e) !! p.Keys
  }

  predicate ExprsScoped(es: seq<Expr>, frame: nat, p: Promoted, news: set<nat>) {
    if frame == 0 then ExprsLocals(es) !! news else ExprsSlots(es) !! p.Keys
  }

  predicate OptionalScoped(e: Option<Expr>, frame: nat, p: Promoted, news: set<nat>) {
    if frame == 0 then OptionalLocals(e) !! news else OptionalSlots(e) !! p.Keys
  }

  predicate StmtScoped(s: Stmt, frame: nat, p: Promoted, news: set<nat>) {
    if frame == 0 then StmtLocals(s) !! news else StmtSlots(s) !! p.Keys
  }

  predicate StmtsScoped(ss: seq<Stmt>, frame: nat, p: Promoted, news: set<nat>) {
    if frame == 0 then StmtsLocals(ss) !! news else StmtsSlots(ss) !! p.Keys
  }

  /** The same name in both modules denotes the same variable, a promoted global its new local. */
  lemma MatchesPlace<W(!new)>(a: State<W>, b: State<W>, p: Promoted, news: set<nat>, res: Resolution, frame: nat)
    requires Matches(a, b, p, news) && ResScoped(res, frame, p, news)
    ensures
      var place, place' := PlaceOf(res, frame, a), PlaceOf(RewriteRes(res, p), frame, b);
      match place
      case InCell(c) => place' == place && OldCell(c, news) && ReadCell(a, c) == ReadCell(b, c)
      case InGlobal(slot) =>
        if slot in p
        then place' == InCell(Cell(0, false, p[slot])) && At(a.globals, slot) == ReadCell(b, Cell(0, false, p[slot]))
        else place' == place && At(a.globals, slot) == At(b.globals, slot)
      case Elsewhere(key) => place' == place
  {
    hide ReadCell;
  }

  lemma {:induction false} MatchesCapture<W(!new)>(a: State<W>, b: State<W>, p: Promoted, news: set<nat>,
        us: seq<Upvalue>, frame: nat)
    requires Matches(a, b, p, news) && (frame == 0 ==> UpvaluesLocals(us) !! news)
    ensures CaptureAll(us, frame, a) == CaptureAll(us, frame, b)
    ensures forall j :: 0 <= j < |CaptureAll(us, frame, a)| ==> OldCell(CaptureAll(us, frame, a)[j], news)
  {
    if us != [] {
      MatchesCapture(a, b, p, news, us[1..], frame);
      CaptureOne(a, b, p, news, us[0], frame);
      hide Capture, Matches;
    }
  }

  lemma CaptureOne<W(!new)>(a: State<W>, b: State<W>, p: Promoted, news: set<nat>, u: Upvalue, frame: nat)
    requires Matches(a, b, p, news) && (frame == 0 ==> u.ParentLocal? ==> u.id !in news)
    ensures Capture(u, frame, a) == Capture(u, frame, b) && OldCell(Capture(u, frame, a), news)
  {
    if u.ParentUpvalue? {
      MatchesPlace(a, b, p, news, Upvalue(u.index), frame);
    }
    hide Matches, ReadCell;
  }

  // --- lockstep -------------------------------------------------------------

  /** The functions and class definitions of a module mention no promoted global and no new local. */
  ghost predicate Closed(m: Code, p: Promoted, news: set<nat>) {
    && FreshLocals(p, news)
    && (forall i :: 0 <= i < |m.functions| ==> StmtsSlots(m.functions[i].body) !! p.Keys)
    && (forall i :: 0 <= i < |m.classDefs| ==>
          var d := m.classDefs[i];
          ClassSlots(d) !! p.Keys && ClassLocals(d) !! news)
  }

  ghost predicate Agree<W(!new)>(ra: Out<W>, rb: Out<W>, p: Promoted, news: set<nat>) {
    ra.control == rb.control && Matches(ra.state, rb.state, p, news)
  }

  ghost predicate AgreeAll<W(!new)>(ra: ArgsOut<W>, rb: ArgsOut<W>, p: Promoted, news: set<nat>) {
    && Matches(ra.state, rb.state, p, news)
    && match ra
       case Stop(c, _) => rb.Stop? && rb.control == c
       case Values(vs, _) => rb.Values? && rb.values == vs
  }

  lemma FrameCount<W(!new)>(a: State<W>, b: State<W>, p: Promoted, news: set<nat>)
    requires Matches(a, b, p, news)
    ensures a.world == b.world && 0 < |a.frames| == |b.frames| && a.envs == b.envs
  {
  }

  lemma {:induction false} LockstepPerform<W(!new)>(m: Code, m': Code, prim: (Action, W) -> Effect<W>, p: Promoted,
        news: set<nat>, act: Action, a: State<W>, b: State<W>, fuel: nat)
    requires Closed(m, p, news) && Rewritten(m, m') && Matches(a, b, p, news)
    ensures Agree(Perform(m, prim, act, a, fuel), Perform(m', prim, act, b, fuel), p, news)
    decreases fuel
  {
    FrameCount(a, b, p, news);
    hide Matches;
    if fuel > 0 {
      match prim(act, a.world)
      case Done(v, w) => MatchesWorld(a, b, p, news, w);
      case Raised(v, w) => MatchesWorld(a, b, p, news, w);
      case Invoke(f, env, args, w) =>
        MatchesWorld(a, b, p, news, w);
        if f < |m.functions| {
          var frame := Frame(Numbered(args), map[], env);
          var a1, b1 := a.(world := w, frames := a.frames + [frame]), b.(world := w, frames := b.frames + [frame]);
          MatchesCall(a, b, p, news, w, frame);
          RewriteStmtsIsId(m.functions[f].body, p);
          LockstepExecAll(m, m', prim, p, news, m.functions[f].body, |a.frames|, a1, b1, fuel - 1);
        }
    }
  }

  lemma {:induction false} LockstepLoad<W(!new)>(m: Code, m': Code, prim: (Action, W) -> Effect<W>, p: Promoted,
        news: set<nat>, res: Resolution, frame: nat, a: State<W>, b: State<W>, fuel: nat)
    requires Closed(m, p, news) && Rewritten(m, m') && Matches(a, b, p, news) && ResScoped(res, frame, p, news)
    ensures Agree(Load(m, prim, res, frame, a, fuel), Load(m', prim, RewriteRes(res, p), frame, b, fuel), p, news)
    decreases fuel
  {
    if fuel > 0 {
      MatchesPlace(a, b, p, news, res, frame);
      var place := PlaceOf(res, frame, a);
      hide Matches, PlaceOf, ReadCell, Closed, RewriteRes, ResScoped;
      if place.Elsewhere? {
        LockstepPerform(m, m', prim, p, news, Action(0, place.key, false, []), a, b, fuel - 1);
      }
    }
  }

  lemma {:induction false} LockstepStore<W(!new)>(m: Code, m': Code, prim: (Action, W) -> Effect<W>, p: Promoted,
        news: set<nat>, target: Expr, v: Value, frame: nat, a: State<W>, b: State<W>, fuel: nat)
    requires Closed(m, p, news) && Rewritten(m, m') && Matches(a, b, p, news) && ExprScoped(target, frame, p, news)
    ensures Agree(Store(m, prim, target, v, frame, a, fuel),
                  Store(m', prim, RewriteExpr(target, p), v, frame, b, fuel), p, news)
    decreases fuel
  {
    hide Matches, ReadCell, Closed, WriteCell;
    if fuel > 0 {
      match target.kind
      case Var =>
        assert ResScoped(target.res, frame, p, news);
        StoreVar(m, m', prim, p, news, target.res, v, frame, a, b, fuel);
      case Op(op, args) =>
        assert ExprsScoped(args, frame, p, news);
        assert KeyOf(target.res) == KeyOf(RewriteRes(target.res, p));
        LockstepEvalAll(m, m', prim, p, news, args, frame, a, b, fuel - 1);
        var ra, rb := EvalAll(m, prim, args, frame, a, fuel - 1),
                      EvalAll(m', prim, RewriteExprs(args, p), frame, b, fuel - 1);
        if ra.Values? {
          LockstepPerform(m, m', prim, p, news, Action(op, KeyOf(target.res), true, ra.values + [v]), ra.state,
                          rb.state, fuel - 1);
        }
      case _ =>
    }
  }

  lemma {:induction false} StoreVar<W(!new)>(m: Code, m': Code, prim: (Action, W) -> Effect<W>, p: Promoted,
        news: set<nat>, res: Resolution, v: Value, frame: nat, a: State<W>, b: State<W>, fuel: nat)
    requires Closed(m, p, news) && Rewritten(m, m') && Matches(a, b, p, news)
    requires ResScoped(res, frame, p, news) && fuel > 0
    ensures Agree(Store(m, prim, Expr(Var, res), v, frame, a, fuel),
                  Store(m', prim, Expr(Var, RewriteRes(res, p)), v, frame, b, fuel), p, news)
    decreases fuel, 0
  {
    MatchesPlace(a, b, p, news, res, frame);
    var place := PlaceOf(res, frame, a);
    assert FreshLocals(p, news);
    hide Matches, PlaceOf, ReadCell, Closed, RewriteRes, ResScoped, WriteCell;
    match place
    case InCell(c) => MatchesWrite(a, b, p, news, c, v);
    case InGlobal(slot) =>
      if slot in p {
        MatchesPromoted(a, b, p, news, slot, v);
      } else {
        MatchesGlobal(a, b, p, news, slot, v);
      }
    case Elsewhere(key) =>
      LockstepPerform(m, m', prim, p, news, Action(0, key, true, [v]), a, b, fuel - 1);
  }

  lemma {:induction false} LockstepOp<W(!new)>(m: Code, m': Code, prim: (Action, W) -> Effect<W>, p: Promoted,
        news: set<nat>, op: nat, args: seq<Expr>, res: Resolution, frame: nat, a: State<W>, b: State<W>, fuel: nat)
    requires Closed(m, p, news) && Rewritten(m, m') && Matches(a, b, p, news) && fuel > 0
    requires ExprScoped(Expr(Op(op, args), res), frame, p, news)
    ensures
      var e := Expr(Op(op, args), res);
      Agree(Eval(m, prim, e, frame, a, fuel), Eval(m', prim, RewriteExpr(e, p), frame, b, fuel), p, news)
    decreases fuel, 0
  {
    hide Matches, Closed;
    LockstepEvalAll(m, m', prim, p, news, args, frame, a, b, fuel - 1);
    var ra, rb := EvalAll(m, prim, args, frame, a, fuel - 1),
                  EvalAll(m', prim, RewriteExprs(args, p), frame, b, fuel - 1);
    assert KeyOf(res) == KeyOf(RewriteRes(res, p));
    if ra.Values? {
      LockstepPerform(m, m', prim, p, news, Action(op, KeyOf(res), false, ra.values), ra.state, rb.state, fuel - 1);
    }
  }

  lemma {:induction false} LockstepAssign<W(!new)>(m: Code, m': Code, prim: (Action, W) -> Effect<W>, p: Promoted,
        news: set<nat>, target: Expr, source: Expr, res: Resolution, frame: nat, a: State<W>, b: State<W>, fuel: nat)
    requires Closed(m, p, news) && Rewritten(m, m') && Matches(a, b, p, news) && fuel > 0
    requires ExprScoped(Expr(Assign(target, source), res), frame, p, news)
    ensures
      var e := Expr(Assign(target, source), res);
      Agree(Eval(m, prim, e, frame, a, fuel), Eval(m', prim, RewriteExpr(e, p), frame, b, fuel), p, news)
    decreases fuel, 0
  {
    hide Matches, Closed;
    LockstepEval(m, m', prim, p, news, source, frame, a, b, fuel - 1);
    var ra, rb := Eval(m, prim, source, frame, a, fuel - 1), Eval(m', prim, RewriteExpr(source, p), frame, b, fuel - 1);
    if ra.control.Normal? {
      LockstepStore(m, m', prim, p, news, target, ra.control.value, frame, ra.state, rb.state, fuel - 1);
    }
  }

  lemma {:induction false} LockstepSelect<W(!new)>(m: Code, m': Code, prim: (Action, W) -> Effect<W>, p: Promoted,
        news: set<nat>, cond: Expr, x: Expr, y: Expr, res: Resolution, frame: nat, a: State<W>, b: State<W>, fuel: nat)
    requires Closed(m, p, news) && Rewritten(m, m') && Matches(a, b, p, news) && fuel > 0
    requires ExprScoped(Expr(Select(cond, x, y), res), frame, p, news)
    ensures
      var e := Expr(Select(cond, x, y), res);
      Agree(Eval(m, prim, e, frame, a, fuel), Eval(m', prim, RewriteExpr(e, p), frame, b, fuel), p, news)
    decreases fuel, 0
  {
    hide Matches, Closed;
    LockstepEval(m, m', prim, p, news, cond, frame, a, b, fuel - 1);
    var ra, rb := Eval(m, prim, cond, frame, a, fuel - 1), Eval(m', prim, RewriteExpr(cond, p), frame, b, fuel - 1);
    if ra.control.Normal? {
      LockstepEval(m, m', prim, p, news, if Truthy(ra.control.value) then x else y, frame,
                   ra.state, rb.state, fuel - 1);
    }
  }

  lemma {:induction false} LockstepSeq<W(!new)>(m: Code, m': Code, prim: (Action, W) -> Effect<W>, p: Promoted,
        news: set<nat>, stmts: seq<Stmt>, result: Expr, res: Resolution, frame: nat,
        a: State<W>, b: State<W>, fuel: nat)
    requires Closed(m, p, news) && Rewritten(m, m') && Matches(a, b, p, news) && fuel > 0
    requires ExprScoped(Expr(Seq(stmts, result), res), frame, p, news)
    ensures
      var e := Expr(Seq(stmts, result), res);
      Agree(Eval(m, prim, e, frame, a, fuel), Eval(m', prim, RewriteExpr(e, p), frame, b, fuel), p, news)
    decreases fuel, 0
  {
    hide Matches, Closed;
    LockstepExecAll(m, m', prim, p, news, stmts, frame, a, b, fuel - 1);
    var ra, rb := ExecAll(m, prim, stmts, frame, a, fuel - 1),
                  ExecAll(m', prim, RewriteStmts(stmts, p), frame, b, fuel - 1);
    if ra.control.Normal? {
      LockstepEval(m, m', prim, p, news, result, frame, ra.state, rb.state, fuel - 1);
    }
  }

  lemma {:induction false} LockstepClosure<W(!new)>(m: Code, m': Code, prim: (Action, W) -> Effect<W>, p: Promoted,
        news: set<nat>, func: nat, us: seq<Upvalue>, res: Resolution, frame: nat, a: State<W>, b: State<W>, fuel: nat)
    requires Closed(m, p, news) && Rewritten(m, m') && Matches(a, b, p, news) && fuel > 0
    requires ExprScoped(Expr(Closure(func, us), res), frame, p, news)
    ensures
      var e := Expr(Closure(func, us), res);
      Agree(Eval(m, prim, e, frame, a, fuel), Eval(m', prim, RewriteExpr(e, p), frame, b, fuel), p, news)
    decreases fuel, 0
  {
    MatchesCapture(a, b, p, news, us, frame);
    FrameCount(a, b, p, news);
    MatchesEnv(a, b, p, news, CaptureAll(us, frame, a));
    hide Matches, Closed;
  }

  lemma {:induction false} LockstepEval<W(!new)>(m: Code, m': Code, prim: (Action, W) -> Effect<W>, p: Promoted,
        news: set<nat>, e: Expr, frame: nat, a: State<W>, b: State<W>, fuel: nat)
    requires Closed(m, p, news) && Rewritten(m, m') && Matches(a, b, p, news) && ExprScoped(e, frame, p, news)
    ensures Agree(Eval(m, prim, e, frame, a, fuel), Eval(m', prim, RewriteExpr(e, p), frame, b, fuel), p, news)
    decreases fuel, 1
  {
    hide Matches, Closed;
    if fuel > 0 {
      match e.kind
      case Lit(_) =>
      case Var => LockstepLoad(m, m', prim, p, news, e.res, frame, a, b, fuel - 1);
      case Op(op, args) => LockstepOp(m, m', prim, p, news, op, args, e.res, frame, a, b, fuel);
      case Assign(target, source) => LockstepAssign(m, m', prim, p, news, target, source, e.res, frame, a, b, fuel);
      case Select(cond, x, y) => LockstepSelect(m, m', prim, p, news, cond, x, y, e.res, frame, a, b, fuel);
      case Seq(stmts, result) => LockstepSeq(m, m', prim, p, news, stmts, result, e.res, frame, a, b, fuel);
      case Closure(func, us) => LockstepClosure(m, m', prim, p, news, func, us, e.res, frame, a, b, fuel);
    }
  }

  lemma {:induction false} LockstepEvalAll<W(!new)>(m: Code, m': Code, prim: (Action, W) -> Effect<W>, p: Promoted,
        news: set<nat>, es: seq<Expr>, frame: nat, a: State<W>, b: State<W>, fuel: nat)
    requires Closed(m, p, news) && Rewritten(m, m') && Matches(a, b, p, news) && ExprsScoped(es, frame, p, news)
    ensures AgreeAll(EvalAll(m, prim, es, frame, a, fuel), EvalAll(m', prim, RewriteExprs(es, p), frame, b, fuel),
                     p, news)
    decreases fuel
  {
    hide Matches, Closed;
    if fuel > 0 && es != [] {
      LockstepEval(m, m', prim, p, news, es[0], frame, a, b, fuel - 1);
      var ra, rb := Eval(m, prim, es[0], frame, a, fuel - 1), Eval(m', prim, RewriteExpr(es[0], p), frame, b, fuel - 1);
      if ra.control.Normal? {
        LockstepEvalAll(m, m', prim, p, news, es[1..], frame, ra.state, rb.state, fuel - 1);
      }
    }
  }

  lemma {:induction false} LockstepOptional<W(!new)>(m: Code, m': Code, prim: (Action, W) -> Effect<W>, p: Promoted,
        news: set<nat>, e: Option<Expr>, frame: nat, a: State<W>, b: State<W>, fuel: nat)
    requires Closed(m, p, news) && Rewritten(m, m') && Matches(a, b, p, news) && OptionalScoped(e, frame, p, news)
    ensures Agree(EvalOptional(m, prim, e, frame, a, fuel),
                  EvalOptional(m', prim, RewriteOptional(e, p), frame, b, fuel), p, news)
    decreases fuel
  {
    hide Matches, Closed;
    if fuel > 0 && e.Some? {
      LockstepEval(m, m', prim, p, news, e.value, frame, a, b, fuel - 1);
    }
  }

  lemma {:induction false} LockstepExecAll<W(!new)>(m: Code, m': Code, prim: (Action, W) -> Effect<W>, p: Promoted,
        news: set<nat>, ss: seq<Stmt>, frame: nat, a: State<W>, b: State<W>, fuel: nat)
    requires Closed(m, p, news) && Rewritten(m, m') && Matches(a, b, p, news) && StmtsScoped(ss, frame, p, news)
    ensures Agree(ExecAll(m, prim, ss, frame, a, fuel), ExecAll(m', prim, RewriteStmts(ss, p), frame, b, fuel), p, news)
    decreases fuel
  {
    hide Matches, Closed;
    if fuel > 0 && ss != [] {
      LockstepExec(m, m', prim, p, news, ss[0], frame, a, b, fuel - 1);
      var ra, rb := Exec(m, prim, ss[0], frame, a, fuel - 1), Exec(m', prim, RewriteStmt(ss[0], p), frame, b, fuel - 1);
      if ra.control.Normal? {
        LockstepExecAll(m, m', prim, p, news, ss[1..], frame, ra.state, rb.state, fuel - 1);
      }
    }
  }

  lemma {:induction false} LockstepLet<W(!new)>(m: Code, m': Code, prim: (Action, W) -> Effect<W>, p: Promoted,
        news: set<nat>, id: nat, init: Option<Expr>, frame: nat, a: State<W>, b: State<W>, fuel: nat)
    requires Closed(m, p, news) && Rewritten(m, m') && Matches(a, b, p, news)
    requires StmtScoped(Let(id, init), frame, p, news) && fuel > 0
    ensures Agree(Exec(m, prim, Let(id, init), frame, a, fuel),
                  Exec(m', prim, RewriteStmt(Let(id, init), p), frame, b, fuel), p, news)
    decreases fuel, 0
  {
    assert FreshLocals(p, news);
    hide Matches, Closed, WriteCell, FreshLocals;
    LockstepOptional(m, m', prim, p, news, init, frame, a, b, fuel - 1);
    var ra := EvalOptional(m, prim, init, frame, a, fuel - 1);
    var rb := EvalOptional(m', prim, RewriteOptional(init, p), frame, b, fuel - 1);
    if ra.control.Normal? {
      MatchesWrite(ra.state, rb.state, p, news, Cell(frame, false, id), ra.control.value);
    }
  }

  lemma {:induction false} LockstepIf<W(!new)>(m: Code, m': Code, prim: (Action, W) -> Effect<W>, p: Promoted,
        news: set<nat>, cond: Expr, x: seq<Stmt>, y: seq<Stmt>, frame: nat, a: State<W>, b: State<W>, fuel: nat)
    requires Closed(m, p, news) && Rewritten(m, m') && Matches(a, b, p, news)
    requires StmtScoped(If(cond, x, y), frame, p, news) && fuel > 0
    ensures Agree(Exec(m, prim, If(cond, x, y), frame, a, fuel),
                  Exec(m', prim, RewriteStmt(If(cond, x, y), p), frame, b, fuel), p, news)
    decreases fuel, 0
  {
    hide Matches, Closed;
    LockstepEval(m, m', prim, p, news, cond, frame, a, b, fuel - 1);
    var ra, rb := Eval(m, prim, cond, frame, a, fuel - 1), Eval(m', prim, RewriteExpr(cond, p), frame, b, fuel - 1);
    if ra.control.Normal? {
      LockstepExecAll(m, m', prim, p, news, if Truthy(ra.control.value) then x else y, frame,
                      ra.state, rb.state, fuel - 1);
    }
  }

  lemma {:induction false} LockstepTry<W(!new)>(m: Code, m': Code, prim: (Action, W) -> Effect<W>, p: Promoted,
        news: set<nat>, body: seq<Stmt>, id: nat, catchBody: seq<Stmt>, frame: nat, a: State<W>, b: State<W>, fuel: nat)
    requires Closed(m, p, news) && Rewritten(m, m') && Matches(a, b, p, news)
    requires StmtScoped(Try(body, id, catchBody), frame, p, news) && fuel > 0
    ensures Agree(Exec(m, prim, Try(body, id, catchBody), frame, a, fuel),
                  Exec(m', prim, RewriteStmt(Try(body, id, catchBody), p), frame, b, fuel), p, news)
    decreases fuel, 0
  {
    assert FreshLocals(p, news);
    hide Matches, Closed, WriteCell, FreshLocals;
    LockstepExecAll(m, m', prim, p, news, body, frame, a, b, fuel - 1);
    var ra, rb := ExecAll(m, prim, body, frame, a, fuel - 1),
                  ExecAll(m', prim, RewriteStmts(body, p), frame, b, fuel - 1);
    if ra.control.Thrown? {
      var c := Cell(frame, false, id);
      MatchesWrite(ra.state, rb.state, p, news, c, ra.control.value);
      LockstepExecAll(m, m', prim, p, news, catchBody, frame,
                      WriteCell(ra.state, c, ra.control.value), WriteCell(rb.state, c, ra.control.value), fuel - 1);
    }
  }

  lemma {:induction false} LockstepExec<W(!new)>(m: Code, m': Code, prim: (Action, W) -> Effect<W>, p: Promoted,
        news: set<nat>, s: Stmt, frame: nat, a: State<W>, b: State<W>, fuel: nat)
    requires Closed(m, p, news) && Rewritten(m, m') && Matches(a, b, p, news) && StmtScoped(s, frame, p, news)
    ensures Agree(Exec(m, prim, s, frame, a, fuel), Exec(m', prim, RewriteStmt(s, p), frame, b, fuel), p, news)
    decreases fuel, 1
  {
    hide Matches, Closed;
    if fuel > 0 {
      match s
      case Do(e) => LockstepEval(m, m', prim, p, news, e, frame, a, b, fuel - 1);
      case Let(id, init) => LockstepLet(m, m', prim, p, news, id, init, frame, a, b, fuel);
      case Return(result) => LockstepOptional(m, m', prim, p, news, result, frame, a, b, fuel - 1);
      case If(cond, x, y) => LockstepIf(m, m', prim, p, news, cond, x, y, frame, a, b, fuel);
      case Loop(cond, body) => LockstepLoop(m, m', prim, p, news, cond, body, frame, a, b, fuel - 1);
      case Break =>
      case Continue =>
      case Throw(e) => LockstepEval(m, m', prim, p, news, e, frame, a, b, fuel - 1);
      case Try(body, id, catchBody) => LockstepTry(m, m', prim, p, news, body, id, catchBody, frame, a, b, fuel);
      case BuildClass(def) => LockstepBuild(m, m', prim, p, news, def, frame, a, b, fuel - 1);
    }
  }

  lemma {:induction false} LockstepLoop<W(!new)>(m: Code, m': Code, prim: (Action, W) -> Effect<W>, p: Promoted,
        news: set<nat>, cond: Expr, body: seq<Stmt>, frame: nat, a: State<W>, b: State<W>, fuel: nat)
    requires Closed(m, p, news) && Rewritten(m, m') && Matches(a, b, p, news)
    requires ExprScoped(cond, frame, p, news) && StmtsScoped(body, frame, p, news)
    ensures Agree(ExecLoop(m, prim, cond, body, frame, a, fuel),
                  ExecLoop(m', prim, RewriteExpr(cond, p), RewriteStmts(body, p), frame, b, fuel), p, news)
    decreases fuel
  {
    hide Matches, Closed;
    if fuel > 0 {
      LockstepEval(m, m', prim, p, news, cond, frame, a, b, fuel - 1);
      var ra, rb := Eval(m, prim, cond, frame, a, fuel - 1), Eval(m', prim, RewriteExpr(cond, p), frame, b, fuel - 1);
      if ra.control.Normal? && Truthy(ra.control.value) {
        LockstepExecAll(m, m', prim, p, news, body, frame, ra.state, rb.state, fuel - 1);
        var xa := ExecAll(m, prim, body, frame, ra.state, fuel - 1);
        var xb := ExecAll(m', prim, RewriteStmts(body, p), frame, rb.state, fuel - 1);
        if xa.control.Normal? || xa.control.Continued? {
          LockstepLoop(m, m', prim, p, news, cond, body, frame, xa.state, xb.state, fuel - 1);
        }
      }
    }
  }

  lemma {:induction false} LockstepBuild<W(!new)>(m: Code, m': Code, prim: (Action, W) -> Effect<W>, p: Promoted,
        news: set<nat>, def: nat, frame: nat, a: State<W>, b: State<W>, fuel: nat)
    requires Closed(m, p, news) && Rewritten(m, m') && Matches(a, b, p, news)
    ensures Agree(Build(m, prim, def, frame, a, fuel), Build(m', prim, def, frame, b, fuel), p, news)
    decreases fuel
  {
    hide Matches;
    if fuel > 0 && def < |m.classDefs| {
      var d := m.classDefs[def];
      RewriteStmtsIsId(d.prelude, p);
      RewriteExprsIsId(d.exprs, p);
      LockstepExecAll(m, m', prim, p, news, d.prelude, frame, a, b, fuel - 1);
      var ra, rb := ExecAll(m, prim, d.prelude, frame, a, fuel - 1), ExecAll(m', prim, d.prelude, frame, b, fuel - 1);
      if ra.control.Normal? {
        LockstepEvalAll(m, m', prim, p, news, d.exprs, frame, ra.state, rb.state, fuel - 1);
        var xa, xb := EvalAll(m, prim, d.exprs, frame, ra.state, fuel - 1),
                      EvalAll(m', prim, d.exprs, frame, rb.state, fuel - 1);
        if xa.Values? {
          LockstepPerform(m, m', prim, p, news, Action(d.op, 0, false, xa.values), xa.state, xb.state, fuel - 1);
        }
      }
    }
  }

  // --- the theorem ----------------------------------------------------------

  /** The top level's own code numbers its locals within its table. */
  predicate TopNumbered(m: Code) {
    forall l :: l in StmtsLocals(m.top.body) ==> l < |m.top.locals|
  }

  /**
   * No class definition mentions a local that promotion adds. The emitter does not see to it: it numbers the
   * temporaries of a class definition from zero in a table of its own, and they are built in the locals of the
   * activation that builds the class.
   */
  predicate ClassesAvoid(m: Code, p: Promoted) {
    forall i :: 0 <= i < |m.classDefs| ==> ClassLocals(m.classDefs[i]) !! p.Values
  }

  lemma {:induction false} FunctionAvoids(fs: seq<Function>, i: nat)
    requires i < |fs|
    ensures StmtsSlots(fs[i].body) <= FunctionsSlots(fs)
  {
    if i > 0 {
      FunctionAvoids(fs[1..], i - 1);
    }
  }

  lemma {:induction false} ClassAvoids(ds: seq<ClassDef>, i: nat)
    requires i < |ds|
    ensures ClassSlots(ds[i]) <= ClassesSlots(ds)
  {
    if i > 0 {
      ClassAvoids(ds[1..], i - 1);
    }
  }

  lemma NewLocalsAreFresh(p: Promoted, from: nat, locals: seq<Ty>, globals: seq<Ty>)
    requires Numbering(p, from, locals, globals)
    ensures FreshLocals(p, p.Values) && forall l :: l in p.Values ==> l >= from
  {
    forall s, t | s in p && t in p && s != t ensures p[s] != p[t] {
      assert s < t || t < s;
    }
  }

  /** Whatever is not a class definition's own temporary is kept away from promoted slots and new locals. */
  lemma PromotionIsClosed(m: Code, m': Code, p: Promoted, globals: seq<Ty>)
    requires IsPromotion(m, m', p, globals)
    ensures Closed(m, p, p.Values) <==> ClassesAvoid(m, p)
    ensures TopNumbered(m) ==> StmtsLocals(m.top.body) !! p.Values
  {
    hide ClassSlots, StmtsSlots, StmtsLocals, ClassLocals, ClassesSlots, FunctionsSlots;
    NewLocalsAreFresh(p, |m.top.locals|, m'.top.locals, globals);
    forall i | 0 <= i < |m.functions| ensures StmtsSlots(m.functions[i].body) !! p.Keys {
      FunctionAvoids(m.functions, i);
    }
    forall i | 0 <= i < |m.classDefs| ensures ClassSlots(m.classDefs[i]) !! p.Keys {
      ClassAvoids(m.classDefs, i);
    }
  }

  /**
    * Both modules end the same way with the same world, and every global has the value it had,
    * promoted ones in their locals.
    */
  ghost predicate SameMeaning<W(!new)>(m: Code, m': Code, p: Promoted,
      prim: (Action, W) -> Effect<W>, world: W, globals: map<nat, Value>, fuel: nat) {
    var ra, rb := Run(m, prim, world, globals, fuel), Run(m', prim, world, globals, fuel);
    && ra.control == rb.control
    && ra.state.world == rb.state.world
    && (forall s: nat :: s !in p ==> At(ra.state.globals, s) == At(rb.state.globals, s))
    && (forall s: nat :: s in p ==> At(ra.state.globals, s) == ReadCell(rb.state, Cell(0, false, p[s])))
  }

  /**
   * Promotion preserves meaning when the class definitions avoid the new locals. Whatever the operators do,
   * whatever the world and the globals hold at the start, and however far the run goes: both modules end the
   * same way with the same world, every global that was not promoted holds the same value, and every promoted
   * one is found in its local.
   */
  lemma PromotionPreservesMeaning<W(!new)>(m: Code, m': Code, p: Promoted, types: seq<Ty>,
      prim: (Action, W) -> Effect<W>, world: W, globals: map<nat, Value>, fuel: nat)
    requires TopNumbered(m) && ClassesAvoid(m, p) && IsPromotion(m, m', p, types)
    requires forall s :: s in p ==> At(globals, s) == UNSET
    ensures SameMeaning(m, m', p, prim, world, globals, fuel)
  {
    PromotionIsClosed(m, m', p, types);
    var start := State(world, globals, [Frame(map[], map[], 0)], []);
    assert Matches(start, start, p, p.Values);
    LockstepExecAll(m, m', prim, p, p.Values, m.top.body, 0, start, start, fuel);
    hide ExecAll, ReadCell;
  }
}
