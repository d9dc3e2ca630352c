/**
 * Where promotion stops preserving meaning. The temporaries of a class definition are numbered from zero in a
 * table of their own, yet they are built in the top level's locals: one that shares the number of a new local
 * overwrites the variable promoted to it.
 */
module PromotionLimits {
  import opened Wrappers
  import opened Tir
  import opened ModuleLocals
  import opened PromotionSoundness

  /** Operators without effect: each yields the same value and leaves the world alone. */
  function Steady<W>(a: Action, w: W): Effect<W> {
    Done(Data(1), w)
  }

  // --- code that ends normally ------------------------------------------------

  predicate PlainExpr(e: Expr) {
    match e.kind
    case Lit(_) => true
    case Var => !e.res.Upvalue?
    case Op(_, args) => PlainExprs(args)
    case Assign(target, source) => PlainTarget(target) && PlainExpr(source)
    case Select(cond, a, b) => PlainExpr(cond) && PlainExpr(a) && PlainExpr(b)
    case Seq(_, _) => false
    case Closure(_, _) => true
  }

  predicate PlainTarget(e: Expr) {
    match e.kind
    case Var => !e.res.Upvalue?
    case Op(_, args) => PlainExprs(args)
    case _ => false
  }

  predicate PlainExprs(es: seq<Expr>) {
    es == [] || (PlainExpr(es[0]) && PlainExprs(es[1..]))
  }

  /** Fuel that is enough for a plain expression. */
  function Cost(e: Expr): nat {
    match e.kind
    case Lit(_) => 1
    case Var => 3
    case Op(_, args) => 2 + CostAll(args)
    case Assign(target, source) => 3 + Cost(source) + Cost(target)
    case Select(cond, a, b) => 1 + Cost(cond) + Cost(a) + Cost(b)
    case Seq(_, _) => 1
    case Closure(_, _) => 1
  }

  function CostAll(es: seq<Expr>): nat {
    if es == [] then 1 else 1 + Cost(es[0]) + CostAll(es[1..])
  }

  predicate PlainStmt(s: Stmt) {
    match s
    case Do(e) => PlainExpr(e)
    case Let(_, init) => init.Some? ==> PlainExpr(init.value)
    case _ => false
  }

  function CostStmt(s: Stmt): nat {
    match s
    case Do(e) => 1 + Cost(e)
    case Let(_, init) => if init.Some? then 2 + Cost(init.value) else 2
    case _ => 1
  }

  // --- a local that code does not mention ---------------------------------------

  /** A local of the top level, which is activation 0. */
  function TopLocal(l: nat): Cell {
    Cell(0, false, l)
  }

  function With<W>(s: State<W>, l: nat, v: Value): State<W> {
    WriteCell(s, TopLocal(l), v)
  }

  /** The outcome `r` with local `l` changed. */
  function OutWith<W>(r: Out<W>, l: nat, v: Value): Out<W> {
    Out(r.control, With(r.state, l, v))
  }

  lemma WriteSwaps<W>(s: State<W>, l: nat, v: Value, c: Cell, x: Value)
    requires c != TopLocal(l)
    ensures WriteCell(With(s, l, v), c, x) == With(WriteCell(s, c, x), l, v)
  {
    if s.frames != [] && c.frame < |s.frames| {
      var f := s.frames[0];
      if c.frame == 0 {
        if !c.isParam {
          assert f.locals[l := v][c.index := x] == f.locals[c.index := x][l := v];
        }
        assert WriteCell(With(s, l, v), c, x).frames == With(WriteCell(s, c, x), l, v).frames;
      } else {
        assert s.frames[0 := f.(locals := f.locals[l := v])][c.frame] == s.frames[c.frame];
        assert WriteCell(With(s, l, v), c, x).frames == With(WriteCell(s, c, x), l, v).frames;
      }
    }
  }

  lemma Overwrites<W>(s: State<W>, l: nat, v: Value, x: Value)
    ensures With(With(s, l, v), l, x) == With(s, l, x)
  {
    if s.frames != [] {
      var f := s.frames[0];
      assert f.locals[l := v][l := x] == f.locals[l := x];
      assert With(With(s, l, v), l, x).frames == With(s, l, x).frames;
    }
  }

  lemma {:induction false} CapturesSame<W>(us: seq<Upvalue>, frame: nat, s: State<W>, l: nat, v: Value)
    ensures CaptureAll(us, frame, With(s, l, v)) == CaptureAll(us, frame, s)
  {
    if us != [] {
      CapturesSame(us[1..], frame, s, l, v);
    }
  }

  lemma SteadyPerform<W>(m: Code, a: Action, s: State<W>, fuel: nat)
    ensures Perform(m, Steady, a, s, fuel) == if fuel == 0 then Out(OutOfFuel, s) else Out(Normal(Data(1)), s)
  {
    assert Steady(a, s.world) == Done(Data(1), s.world);
  }

  lemma PlaceSame<W>(res: Resolution, s: State<W>, l: nat, v: Value)
    requires !res.Upvalue?
    ensures PlaceOf(res, 0, With(s, l, v)) == PlaceOf(res, 0, s)
    ensures PlaceOf(res, 0, s).InCell? ==> l !in LocalOf(res) ==> PlaceOf(res, 0, s).cell != TopLocal(l)
  {
  }

  lemma LoadSame<W>(m: Code, res: Resolution, s: State<W>, l: nat, v: Value, fuel: nat)
    requires !res.Upvalue? && l !in LocalOf(res) && fuel >= 2
    ensures var r := Load(m, Steady, res, 0, s, fuel);
            r.control.Normal? && Load(m, Steady, res, 0, With(s, l, v), fuel) == OutWith(r, l, v)
  {
    hide Perform;
    PlaceSame(res, s, l, v);
    var place := PlaceOf(res, 0, s);
    match place
    case InCell(c) => ReadAfterWrite(s, TopLocal(l), v, c);
    case InGlobal(_) =>
    case Elsewhere(key) =>
      SteadyPerform(m, Action(0, key, false, []), s, fuel - 1);
      SteadyPerform(m, Action(0, key, false, []), With(s, l, v), fuel - 1);
  }

  lemma StoreVarSame<W>(m: Code, res: Resolution, x: Value, s: State<W>, l: nat, v: Value, fuel: nat)
    requires !res.Upvalue? && l !in LocalOf(res) && fuel >= 2
    ensures var t, r := Expr(Var, res), Store(m, Steady, Expr(Var, res), x, 0, s, fuel);
            r.control.Normal? && Store(m, Steady, t, x, 0, With(s, l, v), fuel) == OutWith(r, l, v)
  {
    hide Perform;
    PlaceSame(res, s, l, v);
    match PlaceOf(res, 0, s)
    case InCell(c) => WriteSwaps(s, l, v, c, x);
    case InGlobal(_) =>
    case Elsewhere(key) =>
      SteadyPerform(m, Action(0, key, true, [x]), s, fuel - 1);
      SteadyPerform(m, Action(0, key, true, [x]), With(s, l, v), fuel - 1);
  }

  lemma {:induction false} StoreSame<W>(m: Code, t: Expr, x: Value, s: State<W>, l: nat, v: Value, fuel: nat)
    requires PlainTarget(t) && l !in ExprLocals(t) && fuel >= Cost(t)
    ensures var r := Store(m, Steady, t, x, 0, s, fuel);
            r.control.Normal? && Store(m, Steady, t, x, 0, With(s, l, v), fuel) == OutWith(r, l, v)
    decreases fuel
  {
    hide Perform, Steady, PlaceOf, WriteCell;
    match t.kind
    case Var => StoreVarSame(m, t.res, x, s, l, v, fuel);
    case Op(op, args) =>
      AllSame(m, args, s, l, v, fuel - 1);
      var r := EvalAll(m, Steady, args, 0, s, fuel - 1);
      var a := Action(op, KeyOf(t.res), true, r.values + [x]);
      SteadyPerform(m, a, r.state, fuel - 1);
      SteadyPerform(m, a, With(r.state, l, v), fuel - 1);
  }

  lemma {:induction false} ExprSame<W>(m: Code, e: Expr, s: State<W>, l: nat, v: Value, fuel: nat)
    requires PlainExpr(e) && l !in ExprLocals(e) && fuel >= Cost(e)
    ensures var r := Eval(m, Steady, e, 0, s, fuel);
            r.control.Normal? && Eval(m, Steady, e, 0, With(s, l, v), fuel) == OutWith(r, l, v)
    decreases fuel
  {
    hide Perform, Steady, PlaceOf, WriteCell, Load, Store;
    match e.kind
    case Lit(_) =>
    case Var => LoadSame(m, e.res, s, l, v, fuel - 1);
    case Op(op, args) =>
      AllSame(m, args, s, l, v, fuel - 1);
      var r := EvalAll(m, Steady, args, 0, s, fuel - 1);
      var a := Action(op, KeyOf(e.res), false, r.values);
      SteadyPerform(m, a, r.state, fuel - 1);
      SteadyPerform(m, a, With(r.state, l, v), fuel - 1);
    case Assign(target, source) =>
      ExprSame(m, source, s, l, v, fuel - 1);
      var r := Eval(m, Steady, source, 0, s, fuel - 1);
      StoreSame(m, target, r.control.value, r.state, l, v, fuel - 1);
    case Select(cond, a, b) =>
      ExprSame(m, cond, s, l, v, fuel - 1);
      var r := Eval(m, Steady, cond, 0, s, fuel - 1);
      ExprSame(m, if Truthy(r.control.value) then a else b, r.state, l, v, fuel - 1);
    case Closure(_, us) =>
      CapturesSame(us, 0, s, l, v);
      EnvsSwap(s, l, v, CaptureAll(us, 0, s));
  }

  lemma EnvsSwap<W>(s: State<W>, l: nat, v: Value, cells: seq<Cell>)
    ensures var t := With(s, l, v);
            t.envs == s.envs && t.(envs := s.envs + [cells]) == With(s.(envs := s.envs + [cells]), l, v)
  {
  }

  lemma {:induction false} AllSame<W>(m: Code, es: seq<Expr>, s: State<W>, l: nat, v: Value, fuel: nat)
    requires PlainExprs(es) && l !in ExprsLocals(es) && fuel >= CostAll(es)
    ensures var r := EvalAll(m, Steady, es, 0, s, fuel);
            && r.Values?
            && EvalAll(m, Steady, es, 0, With(s, l, v), fuel) == Values(r.values, With(r.state, l, v))
    decreases fuel
  {
    hide Steady, WriteCell, Eval;
    if es != [] {
      ExprSame(m, es[0], s, l, v, fuel - 1);
      AllSame(m, es[1..], Eval(m, Steady, es[0], 0, s, fuel - 1).state, l, v, fuel - 1);
    }
  }

  lemma OptionalSame<W>(m: Code, e: Option<Expr>, s: State<W>, l: nat, v: Value, fuel: nat)
    requires e.Some? ==> PlainExpr(e.value) && fuel > Cost(e.value)
    requires l !in OptionalLocals(e) && fuel > 0
    ensures var r := EvalOptional(m, Steady, e, 0, s, fuel);
            r.control.Normal? && EvalOptional(m, Steady, e, 0, With(s, l, v), fuel) == OutWith(r, l, v)
  {
    hide Eval, WriteCell;
    if e.Some? { ExprSame(m, e.value, s, l, v, fuel - 1); }
  }

  lemma StmtSame<W>(m: Code, t: Stmt, s: State<W>, l: nat, v: Value, fuel: nat)
    requires PlainStmt(t) && l !in StmtLocals(t) && fuel >= CostStmt(t)
    ensures var r := Exec(m, Steady, t, 0, s, fuel);
            r.control.Normal? && Exec(m, Steady, t, 0, With(s, l, v), fuel) == OutWith(r, l, v)
  {
    hide Eval, EvalOptional, WriteCell;
    match t
    case Do(e) => ExprSame(m, e, s, l, v, fuel - 1);
    case Let(id, init) =>
      OptionalSame(m, init, s, l, v, fuel - 1);
      var r := EvalOptional(m, Steady, init, 0, s, fuel - 1);
      WriteSwaps(r.state, l, v, TopLocal(id), r.control.value);
  }

  // --- code that sets a local before it uses it ------------------------------------

  /** Some statement sets `l`, and the code up to it neither mentions `l` nor can fail. */
  predicate SetsFirst(ss: seq<Stmt>, l: nat) {
    && ss != [] && PlainStmt(ss[0])
    && if ss[0].Let? && ss[0].id == l then l !in OptionalLocals(ss[0].init)
       else l !in StmtLocals(ss[0]) && SetsFirst(ss[1..], l)
  }

  function CostUntil(ss: seq<Stmt>, l: nat): nat
    requires SetsFirst(ss, l)
  {
    1 + CostStmt(ss[0]) + if ss[0].Let? && ss[0].id == l then 0 else CostUntil(ss[1..], l)
  }

  /** What the local held before is forgotten. */
  lemma {:induction false} SettingForgets<W>(m: Code, ss: seq<Stmt>, s: State<W>, l: nat, v: Value, x: Value, fuel: nat)
    requires SetsFirst(ss, l) && fuel >= CostUntil(ss, l)
    ensures ExecAll(m, Steady, ss, 0, With(s, l, v), fuel) == ExecAll(m, Steady, ss, 0, With(s, l, x), fuel)
    decreases fuel
  {
    hide Exec, WriteCell, StmtLocals;
    if ss[0].Let? && ss[0].id == l {
      LetForgets(m, ss[0], s, v, x, fuel - 1);
    } else {
      StmtSame(m, ss[0], s, l, v, fuel - 1);
      StmtSame(m, ss[0], s, l, x, fuel - 1);
      var r := Exec(m, Steady, ss[0], 0, s, fuel - 1);
      SettingForgets(m, ss[1..], r.state, l, v, x, fuel - 1);
    }
  }

  lemma LetForgets<W>(m: Code, t: Stmt, s: State<W>, v: Value, x: Value, fuel: nat)
    requires t.Let? && PlainStmt(t) && t.id !in OptionalLocals(t.init) && fuel >= CostStmt(t)
    ensures Exec(m, Steady, t, 0, With(s, t.id, v), fuel) == Exec(m, Steady, t, 0, With(s, t.id, x), fuel)
  {
    hide EvalOptional, WriteCell;
    OptionalSame(m, t.init, s, t.id, v, fuel - 1);
    OptionalSame(m, t.init, s, t.id, x, fuel - 1);
    var r := EvalOptional(m, Steady, t.init, 0, s, fuel - 1);
    Overwrites(r.state, t.id, v, r.control.value);
    Overwrites(r.state, t.id, x, r.control.value);
  }

  // --- a global that code does not mention -----------------------------------------

  ghost predicate Kept<W>(s: nat, a: State<W>, b: State<W>) {
    At(a.globals, s) == At(b.globals, s)
  }

  /** No class definition mentions the global. */
  predicate ClassesOmit(m: Code, s: nat) {
    s !in ClassesSlots(m.classDefs)
  }

  lemma {:induction false} StoreKeeps<W>(m: Code, t: Expr, x: Value, frame: nat, s: State<W>, g: nat, fuel: nat)
    requires ClassesOmit(m, g) && g !in ExprSlots(t)
    ensures Kept(g, s, Store(m, Steady, t, x, frame, s, fuel).state)
    decreases fuel
  {
    hide Perform, ClassesOmit;
    if fuel > 0 {
      match t.kind
      case Var =>
        var place := PlaceOf(t.res, frame, s);
        if place.Elsewhere? { SteadyPerform(m, Action(0, place.key, true, [x]), s, fuel - 1); }
      case Op(op, args) =>
        AllKeeps(m, args, frame, s, g, fuel - 1);
        var r := EvalAll(m, Steady, args, frame, s, fuel - 1);
        if r.Values? { SteadyPerform(m, Action(op, KeyOf(t.res), true, r.values + [x]), r.state, fuel - 1); }
      case _ =>
    }
  }

  lemma {:induction false} ExprKeeps<W>(m: Code, e: Expr, frame: nat, s: State<W>, g: nat, fuel: nat)
    requires ClassesOmit(m, g) && g !in ExprSlots(e)
    ensures Kept(g, s, Eval(m, Steady, e, frame, s, fuel).state)
    decreases fuel
  {
    hide Perform, Store, ClassesOmit;
    if fuel > 0 {
      match e.kind
      case Lit(_) =>
      case Closure(_, _) =>
      case Var =>
        if fuel > 1 {
          var place := PlaceOf(e.res, frame, s);
          if place.Elsewhere? { SteadyPerform(m, Action(0, place.key, false, []), s, fuel - 2); }
        }
      case Op(op, args) =>
        AllKeeps(m, args, frame, s, g, fuel - 1);
        var r := EvalAll(m, Steady, args, frame, s, fuel - 1);
        if r.Values? { SteadyPerform(m, Action(op, KeyOf(e.res), false, r.values), r.state, fuel - 1); }
      case Assign(target, source) =>
        ExprKeeps(m, source, frame, s, g, fuel - 1);
        var r := Eval(m, Steady, source, frame, s, fuel - 1);
        if r.control.Normal? { StoreKeeps(m, target, r.control.value, frame, r.state, g, fuel - 1); }
      case Select(cond, a, b) =>
        ExprKeeps(m, cond, frame, s, g, fuel - 1);
        var r := Eval(m, Steady, cond, frame, s, fuel - 1);
        if r.control.Normal? {
          ExprKeeps(m, if Truthy(r.control.value) then a else b, frame, r.state, g, fuel - 1);
        }
      case Seq(stmts, result) =>
        StmtsKeep(m, stmts, frame, s, g, fuel - 1);
        var r := ExecAll(m, Steady, stmts, frame, s, fuel - 1);
        if r.control.Normal? { ExprKeeps(m, result, frame, r.state, g, fuel - 1); }
    }
  }

  lemma {:induction false} AllKeeps<W>(m: Code, es: seq<Expr>, frame: nat, s: State<W>, g: nat, fuel: nat)
    requires ClassesOmit(m, g) && g !in ExprsSlots(es)
    ensures Kept(g, s, EvalAll(m, Steady, es, frame, s, fuel).state)
    decreases fuel
  {
    hide Eval, ClassesOmit;
    if fuel > 0 && es != [] {
      ExprKeeps(m, es[0], frame, s, g, fuel - 1);
      var r := Eval(m, Steady, es[0], frame, s, fuel - 1);
      if r.control.Normal? { AllKeeps(m, es[1..], frame, r.state, g, fuel - 1); }
    }
  }

  lemma {:induction false} OptionalKeeps<W>(m: Code, e: Option<Expr>, frame: nat, s: State<W>, g: nat, fuel: nat)
    requires ClassesOmit(m, g) && g !in OptionalSlots(e)
    ensures Kept(g, s, EvalOptional(m, Steady, e, frame, s, fuel).state)
    decreases fuel
  {
    hide Eval, ClassesOmit;
    if fuel > 0 && e.Some? { ExprKeeps(m, e.value, frame, s, g, fuel - 1); }
  }

  lemma {:induction false} StmtKeeps<W>(m: Code, t: Stmt, frame: nat, s: State<W>, g: nat, fuel: nat)
    requires ClassesOmit(m, g) && g !in StmtSlots(t)
    ensures Kept(g, s, Exec(m, Steady, t, frame, s, fuel).state)
    decreases fuel
  {
    hide Eval, EvalOptional, ExecAll, ExecLoop, Build, ClassesOmit;
    if fuel > 0 {
      match t
      case Do(e) => ExprKeeps(m, e, frame, s, g, fuel - 1);
      case Throw(e) => ExprKeeps(m, e, frame, s, g, fuel - 1);
      case Let(_, init) => OptionalKeeps(m, init, frame, s, g, fuel - 1);
      case Return(result) => OptionalKeeps(m, result, frame, s, g, fuel - 1);
      case If(cond, a, b) =>
        ExprKeeps(m, cond, frame, s, g, fuel - 1);
        var r := Eval(m, Steady, cond, frame, s, fuel - 1);
        if r.control.Normal? {
          StmtsKeep(m, if Truthy(r.control.value) then a else b, frame, r.state, g, fuel - 1);
        }
      case Loop(cond, body) => LoopKeeps(m, cond, body, frame, s, g, fuel - 1);
      case Break =>
      case Continue =>
      case Try(body, id, catchBody) =>
        StmtsKeep(m, body, frame, s, g, fuel - 1);
        var r := ExecAll(m, Steady, body, frame, s, fuel - 1);
        if r.control.Thrown? {
          StmtsKeep(m, catchBody, frame, WriteCell(r.state, Cell(frame, false, id), r.control.value), g, fuel - 1);
        }
      case BuildClass(def) => BuildKeeps(m, def, frame, s, g, fuel - 1);
    }
  }

  lemma {:induction false} StmtsKeep<W>(m: Code, ss: seq<Stmt>, frame: nat, s: State<W>, g: nat, fuel: nat)
    requires ClassesOmit(m, g) && g !in StmtsSlots(ss)
    ensures Kept(g, s, ExecAll(m, Steady, ss, frame, s, fuel).state)
    decreases fuel
  {
    hide Exec, ClassesOmit;
    if fuel > 0 && ss != [] {
      StmtKeeps(m, ss[0], frame, s, g, fuel - 1);
      var r := Exec(m, Steady, ss[0], frame, s, fuel - 1);
      if r.control.Normal? { StmtsKeep(m, ss[1..], frame, r.state, g, fuel - 1); }
    }
  }

  lemma {:induction false} LoopKeeps<W>(m: Code, cond: Expr, body: seq<Stmt>, frame: nat, s: State<W>, g: nat,
                                        fuel: nat)
    requires ClassesOmit(m, g) && g !in ExprSlots(cond) && g !in StmtsSlots(body)
    ensures Kept(g, s, ExecLoop(m, Steady, cond, body, frame, s, fuel).state)
    decreases fuel
  {
    hide Eval, ExecAll, ClassesOmit;
    if fuel > 0 {
      ExprKeeps(m, cond, frame, s, g, fuel - 1);
      var r := Eval(m, Steady, cond, frame, s, fuel - 1);
      if r.control.Normal? && Truthy(r.control.value) {
        StmtsKeep(m, body, frame, r.state, g, fuel - 1);
        var b := ExecAll(m, Steady, body, frame, r.state, fuel - 1);
        if b.control.Normal? || b.control.Continued? { LoopKeeps(m, cond, body, frame, b.state, g, fuel - 1); }
      }
    }
  }

  lemma {:induction false} BuildKeeps<W>(m: Code, def: nat, frame: nat, s: State<W>, g: nat, fuel: nat)
    requires ClassesOmit(m, g)
    ensures Kept(g, s, Build(m, Steady, def, frame, s, fuel).state)
    decreases fuel
  {
    hide Perform, ExecAll, EvalAll;
    if fuel > 0 && def < |m.classDefs| {
      var d := m.classDefs[def];
      ClassAvoids(m.classDefs, def);
      StmtsKeep(m, d.prelude, frame, s, g, fuel - 1);
      var r := ExecAll(m, Steady, d.prelude, frame, s, fuel - 1);
      if r.control.Normal? {
        AllKeeps(m, d.exprs, frame, r.state, g, fuel - 1);
        var q := EvalAll(m, Steady, d.exprs, frame, r.state, fuel - 1);
        if q.Values? { SteadyPerform(m, Action(d.op, 0, false, q.values), q.state, fuel - 1); }
      }
    }
  }

  // --- the condition is needed --------------------------------------------------------

  function Before(functions: seq<Function>, classDefs: seq<ClassDef>, locals: seq<Ty>, body: seq<Stmt>): Code {
    Code(functions, classDefs, Function(locals, body))
  }

  function After(functions: seq<Function>, classDefs: seq<ClassDef>, locals: seq<Ty>, body: seq<Stmt>,
                 p: Promoted): Code {
    Code(functions, classDefs, Function(locals, RewriteStmts(body, p)))
  }

  /** Promotion keeps the meaning of every top level over these functions and class definitions. */
  ghost predicate Safe<W(!new)>(functions: seq<Function>, classDefs: seq<ClassDef>, locals: seq<Ty>, grown: seq<Ty>,
      p: Promoted, prim: (Action, W) -> Effect<W>) {
    forall body: seq<Stmt>, world: W, globals: map<nat, Value>, fuel: nat ::
      var m := Before(functions, classDefs, locals, body);
      (TopNumbered(m) && forall s :: s in p ==> At(globals, s) == UNSET)
      ==> SameMeaning(m, After(functions, classDefs, grown, body, p), p, prim, world, globals, fuel)
  }

  /**
   * A class definition that mentions a new local sets one of them before it uses it, as the emitter does with the
   * temporary into which it hoists an operand.
   */
  ghost predicate SetsOwnTemporaries(d: ClassDef, p: Promoted) {
    ClassLocals(d) !! p.Values || exists l :: l in p.Values && SetsFirst(d.prelude, l)
  }

  function Setting(res: Resolution, c: Value): Stmt {
    Do(Expr(Assign(Expr(Var, res), Expr(Lit(c), Unresolved)), Unresolved))
  }

  /** Sets a variable, then builds a class. */
  function Probe(res: Resolution, c: Value, k: nat): seq<Stmt> {
    [Setting(res, c), BuildClass(k)]
  }

  lemma SettingRewritten(s: nat, c: Value, p: Promoted)
    requires s in p
    ensures RewriteStmt(Setting(GlobalSlot(s), c), p) == Setting(Local(p[s]), c)
    ensures StmtLocals(Setting(GlobalSlot(s), c)) == {}
  {
    var e := Setting(GlobalSlot(s), c).e;
    assert RewriteExpr(e.kind.target, p) == Expr(Var, Local(p[s]));
    assert RewriteExpr(e.kind.source, p) == e.kind.source;
    assert RewriteExpr(e, p) == Setting(Local(p[s]), c).e;
    assert ExprLocals(e.kind.target) == {} && ExprLocals(e.kind.source) == {};
    assert ExprLocals(e) == {};
  }

  lemma ProbeRewritten(s: nat, c: Value, k: nat, p: Promoted)
    requires s in p
    ensures RewriteStmts(Probe(GlobalSlot(s), c, k), p) == Probe(Local(p[s]), c, k)
    ensures StmtsLocals(Probe(GlobalSlot(s), c, k)) == {}
  {
    hide Setting;
    var ss, rest := Probe(GlobalSlot(s), c, k), [BuildClass(k)];
    SettingRewritten(s, c, p);
    assert ss[1..] == rest && rest[1..] == [];
    assert RewriteStmts(rest[1..], p) == [] && StmtsLocals(rest[1..]) == {};
    assert RewriteStmts(rest, p) == [BuildClass(k)];
    assert StmtsLocals(rest) == StmtLocals(BuildClass(k)) + StmtsLocals(rest[1..]);
  }

  lemma SetsThenBuilds<W>(m: Code, first: Stmt, k: nat, s: State<W>, t: State<W>, x: Value, fuel: nat)
    requires fuel >= 3 && Exec(m, Steady, first, 0, s, fuel - 1) == Out(Normal(x), t)
    ensures ExecAll(m, Steady, [first, BuildClass(k)], 0, s, fuel).state == Build(m, Steady, k, 0, t, fuel - 3).state
  {
    hide Build;
    var ss, rest := [first, BuildClass(k)], [BuildClass(k)];
    assert ss[1..] == rest && rest[1..] == [];
    var r := Exec(m, Steady, BuildClass(k), 0, t, fuel - 2);
    assert r == Build(m, Steady, k, 0, t, fuel - 3);
    assert ExecAll(m, Steady, rest, 0, t, fuel - 1).state == r.state by {
      assert ExecAll(m, Steady, rest[1..], 0, r.state, fuel - 2) == Out(Normal(UNSET), r.state);
    }
  }

  lemma SettingRuns<W>(m: Code, res: Resolution, c: Value, st: State<W>, fuel: nat)
    requires fuel >= 4 && (res.GlobalSlot? || res.Local?)
    ensures Exec(m, Steady, Setting(res, c), 0, st, fuel)
         == Out(Normal(c), if res.Local? then With(st, res.id, c) else st.(globals := st.globals[res.slot := c]))
  {
    hide WriteCell;
    var e := Setting(res, c).e;
    assert Eval(m, Steady, e.kind.source, 0, st, fuel - 2) == Out(Normal(c), st);
    assert Eval(m, Steady, e, 0, st, fuel - 1) == Store(m, Steady, e.kind.target, c, 0, st, fuel - 2);
  }

  lemma BuildForgets<W>(m: Code, k: nat, s: State<W>, l: nat, v: Value, x: Value, fuel: nat)
    requires k < |m.classDefs| && SetsFirst(m.classDefs[k].prelude, l)
    requires fuel > CostUntil(m.classDefs[k].prelude, l)
    ensures Build(m, Steady, k, 0, With(s, l, v), fuel) == Build(m, Steady, k, 0, With(s, l, x), fuel)
  {
    hide WriteCell, ExecAll, EvalAll, SetsFirst, CostUntil;
    SettingForgets(m, m.classDefs[k].prelude, s, l, v, x, fuel - 1);
  }

  /** Building a class does not depend on what the top level goes on to do. */
  lemma BuildIgnoresTop<W(!new)>(m: Code, m': Code, k: nat, s: State<W>, fuel: nat)
    requires m'.functions == m.functions && m'.classDefs == m.classDefs && s.frames != []
    ensures forall c :: ReadCell(Build(m, Steady, k, 0, s, fuel).state, c)
                     == ReadCell(Build(m', Steady, k, 0, s, fuel).state, c)
  {
    hide Build;
    assert Closed(m, map[], {});
    assert Matches(s, s, map[], {});
    LockstepBuild(m, m', Steady, map[], {}, k, 0, s, s, fuel);
  }

  /** What the promoted module leaves in the local does not depend on what was assigned to the variable. */
  lemma ValueIsLost<W(!new)>(functions: seq<Function>, classDefs: seq<ClassDef>, grown: seq<Ty>,
      p: Promoted, s: nat, k: nat, world: W, fuel: nat, c: Value, d: Value)
    requires s in p && k < |classDefs| && SetsFirst(classDefs[k].prelude, p[s])
    requires fuel > CostUntil(classDefs[k].prelude, p[s]) + 5
    ensures ReadCell(RunAfter(functions, classDefs, grown, p, s, k, world, fuel, c), TopLocal(p[s]))
         == ReadCell(RunAfter(functions, classDefs, grown, p, s, k, world, fuel, d), TopLocal(p[s]))
  {
    hide Build, ExecAll, Exec, WriteCell, ReadCell, SetsFirst, CostUntil, RewriteStmts, Setting;
    var l, start := p[s], State(world, map[], [Frame(map[], map[], 0)], []);
    var m := After(functions, classDefs, grown, Probe(GlobalSlot(s), c, k), p);
    var m' := After(functions, classDefs, grown, Probe(GlobalSlot(s), d, k), p);
    ProbeRewritten(s, c, k, p);
    ProbeRewritten(s, d, k, p);
    SettingRuns(m, Local(l), c, start, fuel - 1);
    SettingRuns(m', Local(l), d, start, fuel - 1);
    SetsThenBuilds(m, Setting(Local(l), c), k, start, With(start, l, c), c, fuel);
    SetsThenBuilds(m', Setting(Local(l), d), k, start, With(start, l, d), d, fuel);
    BuildForgets(m, k, start, l, c, d, fuel - 3);
    FramesKept(start, l, d);
    BuildIgnoresTop(m, m', k, With(start, l, d), fuel - 3);
  }

  /** The end of the promoted probe. */
  function RunAfter<W>(functions: seq<Function>, classDefs: seq<ClassDef>, grown: seq<Ty>,
      p: Promoted, s: nat, k: nat, world: W, fuel: nat, c: Value): State<W> {
    Run(After(functions, classDefs, grown, Probe(GlobalSlot(s), c, k), p), Steady, world, map[], fuel).state
  }

  lemma FramesKept<W>(s: State<W>, l: nat, v: Value)
    ensures |With(s, l, v).frames| == |s.frames|
  {
  }

  /** The original module keeps what was assigned. */
  lemma ValueIsKept<W>(functions: seq<Function>, classDefs: seq<ClassDef>, locals: seq<Ty>, s: nat, k: nat,
      world: W, fuel: nat, c: Value)
    requires s !in ClassesSlots(classDefs) && fuel >= 5
    ensures var m := Before(functions, classDefs, locals, Probe(GlobalSlot(s), c, k));
            At(Run(m, Steady, world, map[], fuel).state.globals, s) == c
  {
    hide Build, ExecAll, Exec, Setting;
    var start := State(world, map[], [Frame(map[], map[], 0)], []);
    var m := Before(functions, classDefs, locals, Probe(GlobalSlot(s), c, k));
    SettingRuns(m, GlobalSlot(s), c, start, fuel - 1);
    SetsThenBuilds(m, Setting(GlobalSlot(s), c), k, start, start.(globals := map[s := c]), c, fuel);
    BuildKeeps(m, k, 0, start.(globals := map[s := c]), s, fuel - 3);
  }

  /**
   * Over class definitions that set their own temporaries, promotion keeps the meaning of every top level, even
   * under operators without effect, exactly when none of them mentions a new local; and then it does so under all
   * operators.
   */
  lemma SafetyIsDecidedByClasses<W(!new)>(functions: seq<Function>, classDefs: seq<ClassDef>, locals: seq<Ty>,
      grown: seq<Ty>, p: Promoted, types: seq<Ty>, prim: (Action, W) -> Effect<W>, world: W)
    requires Numbering(p, |locals|, grown, types) && p.Keys !! EscapingSlots(functions, classDefs)
    requires forall d :: d in classDefs ==> SetsOwnTemporaries(d, p)
    ensures Safe(functions, classDefs, locals, grown, p, Steady<W>) <==> AllAvoid(classDefs, p)
    ensures AllAvoid(classDefs, p) ==> Safe(functions, classDefs, locals, grown, p, prim)
  {
    hide Safe, SetsFirst, ClassLocals, EscapingSlots, Numbering;
    if AllAvoid(classDefs, p) {
      AvoidingIsSafe(functions, classDefs, locals, grown, p, types, prim);
      AvoidingIsSafe(functions, classDefs, locals, grown, p, types, Steady<W>);
    } else {
      var d :| d in classDefs && !(ClassLocals(d) !! p.Values);
      var k :| 0 <= k < |classDefs| && classDefs[k] == d;
      assert SetsOwnTemporaries(d, p);
      var l :| l in p.Values && SetsFirst(d.prelude, l);
      var s :| s in p && p[s] == l;
      SharedLocalIsUnsafe(functions, classDefs, locals, grown, p, types, s, k, world);
    }
  }

  predicate AllAvoid(classDefs: seq<ClassDef>, p: Promoted) {
    forall d :: d in classDefs ==> ClassLocals(d) !! p.Values
  }

  lemma AvoidingIsSafe<W(!new)>(functions: seq<Function>, classDefs: seq<ClassDef>, locals: seq<Ty>, grown: seq<Ty>,
      p: Promoted, types: seq<Ty>, prim: (Action, W) -> Effect<W>)
    requires Numbering(p, |locals|, grown, types) && p.Keys !! EscapingSlots(functions, classDefs)
    requires AllAvoid(classDefs, p)
    ensures Safe(functions, classDefs, locals, grown, p, prim)
  {
    hide Run, SameMeaning, ClassLocals, EscapingSlots, Numbering, TopNumbered;
    forall body: seq<Stmt>, world: W, globals: map<nat, Value>, fuel: nat |
      && TopNumbered(Before(functions, classDefs, locals, body))
      && (forall s :: s in p ==> At(globals, s) == UNSET)
      ensures SameMeaning(Before(functions, classDefs, locals, body), After(functions, classDefs, grown, body, p),
                          p, prim, world, globals, fuel)
    {
      PromotionPreservesMeaning(Before(functions, classDefs, locals, body),
                                After(functions, classDefs, grown, body, p), p, types, prim, world, globals, fuel);
    }
  }

  /** A variable whose local some class definition sets is lost in one of two probes. */
  lemma SharedLocalIsUnsafe<W(!new)>(functions: seq<Function>, classDefs: seq<ClassDef>, locals: seq<Ty>,
      grown: seq<Ty>, p: Promoted, types: seq<Ty>, s: nat, k: nat, world: W)
    requires Numbering(p, |locals|, grown, types) && p.Keys !! EscapingSlots(functions, classDefs)
    requires s in p && k < |classDefs| && SetsFirst(classDefs[k].prelude, p[s])
    ensures !Safe(functions, classDefs, locals, grown, p, Steady<W>)
  {
    hide Run, ReadCell, SetsFirst, CostUntil, RewriteStmts, Safe, Probe;
    var fuel := CostUntil(classDefs[k].prelude, p[s]) + 6;
    ValueIsLost(functions, classDefs, grown, p, s, k, world, fuel, Data(0), Data(1));
    ValueIsKept(functions, classDefs, locals, s, k, world, fuel, Data(0));
    ValueIsKept(functions, classDefs, locals, s, k, world, fuel, Data(1));
    if Safe(functions, classDefs, locals, grown, p, Steady<W>) {
      SafeProbe(functions, classDefs, locals, grown, p, s, k, world, fuel, Data(0));
      SafeProbe(functions, classDefs, locals, grown, p, s, k, world, fuel, Data(1));
    }
  }

  lemma SafeProbe<W(!new)>(functions: seq<Function>, classDefs: seq<ClassDef>, locals: seq<Ty>,
      grown: seq<Ty>, p: Promoted, s: nat, k: nat, world: W, fuel: nat, c: Value)
    requires s in p && Safe(functions, classDefs, locals, grown, p, Steady<W>)
    ensures var m := Before(functions, classDefs, locals, Probe(GlobalSlot(s), c, k));
            At(Run(m, Steady, world, map[], fuel).state.globals, s)
            == ReadCell(RunAfter(functions, classDefs, grown, p, s, k, world, fuel, c), TopLocal(p[s]))
  {
    hide Run, ReadCell, RewriteStmts, Probe, StmtsLocals;
    var body := Probe(GlobalSlot(s), c, k);
    var m := Before(functions, classDefs, locals, body);
    ProbeRewritten(s, c, k, p);
    assert TopNumbered(m) && forall t :: t in p ==> At(map[], t) == UNSET;
    assert SameMeaning(m, After(functions, classDefs, grown, body, p), p, Steady<W>, world, map[], fuel);
  }

  // --- a module that loses a variable ---------------------------------------------------

  const CALL := 2
  const PRINT := 3
  const MAKE_CLASS := 4

  /** Printing appends to the world; anything else has no effect. */
  function Printing(a: Action, w: seq<Value>): Effect<seq<Value>> {
    if a.op == PRINT then Done(UNSET, w + a.args) else Done(Data(0), w)
  }

  function Int(n: int): Expr {
    Expr(Lit(Data(n)), Unresolved)
  }

  /** `class A { static y = 1 |> add(_, 2); }`: the piped operand is hoisted into local 0 of the definition. */
  const PIPED := ClassDef([Let(0, Some(Int(1)))], [Expr(Op(CALL, [Expr(Var, Local(0)), Int(2)]), Unresolved)],
                          MAKE_CLASS)

  function PrintVar(res: Resolution): Stmt {
    Do(Expr(Op(PRINT, [Expr(Var, res)]), Unresolved))
  }

  /** `x = 5`, then the class, then `print(x)`. */
  function Body(x: Resolution): seq<Stmt> {
    [Setting(x, Data(5)), BuildClass(0), PrintVar(x)]
  }

  const ORIGINAL := Code([], [PIPED], Function([], Body(GlobalSlot(0))))
  const PROMOTED := Code([], [PIPED], Function([7], Body(Local(0))))
  const X_IS_LOCAL_0: Promoted := map[0 := 0]

  type Log = State<seq<Value>>

  lemma SetX(m: Code, x: Resolution, s: Log)
    requires x.GlobalSlot? || x.Local?
    ensures Exec(m, Printing, Setting(x, Data(5)), 0, s, 19)
         == Out(Normal(Data(5)),
                if x.Local? then With(s, x.id, Data(5)) else s.(globals := s.globals[x.slot := Data(5)]))
  {
    hide WriteCell;
    var e := Setting(x, Data(5)).e;
    assert Eval(m, Printing, e.kind.source, 0, s, 17) == Out(Normal(Data(5)), s);
    assert Eval(m, Printing, e, 0, s, 18) == Store(m, Printing, e.kind.target, Data(5), 0, s, 17);
  }

  /** Building the class leaves 1 in local 0 of the activation that builds it. */
  lemma BuildPiped(m: Code, s: Log)
    requires m.classDefs == [PIPED]
    ensures Exec(m, Printing, BuildClass(0), 0, s, 18) == Out(Normal(Data(0)), With(s, 0, Data(1)))
  {
    var t := With(s, 0, Data(1));
    hide WriteCell;
    PreludeOfPiped(m, s);
    ExprsOfPiped(m, t);
    assert m.classDefs[0] == PIPED;
    PrintingPerforms(m, Action(MAKE_CLASS, 0, false, [Data(0)]), t, 16);
  }

  lemma PreludeOfPiped(m: Code, s: Log)
    ensures ExecAll(m, Printing, PIPED.prelude, 0, s, 16) == Out(Normal(UNSET), With(s, 0, Data(1)))
  {
    hide WriteCell;
    var ss := PIPED.prelude;
    assert ss[1..] == [];
    assert Eval(m, Printing, Int(1), 0, s, 13) == Out(Normal(Data(1)), s);
    assert Exec(m, Printing, ss[0], 0, s, 15) == Out(Normal(UNSET), With(s, 0, Data(1)));
  }

  lemma PrintingPerforms(m: Code, a: Action, s: Log, fuel: nat)
    requires fuel > 0
    ensures Perform(m, Printing, a, s, fuel)
         == if a.op == PRINT then Out(Normal(UNSET), s.(world := s.world + a.args)) else Out(Normal(Data(0)), s)
  {
    assert Printing(a, s.world).Done?;
  }

  lemma ExprsOfPiped(m: Code, s: Log)
    ensures EvalAll(m, Printing, PIPED.exprs, 0, s, 16) == Values([Data(0)], s)
  {
    hide ReadCell;
    var args := [Expr(Var, Local(0)), Int(2)];
    var e := Expr(Op(CALL, args), Unresolved);
    assert PIPED.exprs[0] == e && PIPED.exprs[1..] == [];
    assert args[1..] == [Int(2)] && args[1..][1..] == [];
    var v := ReadCell(s, TopLocal(0));
    assert Eval(m, Printing, args[0], 0, s, 13) == Out(Normal(v), s);
    assert EvalAll(m, Printing, args[1..], 0, s, 13) == Values([Data(2)], s);
    assert EvalAll(m, Printing, args, 0, s, 14) == Values([v] + [Data(2)], s);
    PrintingPerforms(m, Action(CALL, 0, false, [v] + [Data(2)]), s, 14);
    assert Eval(m, Printing, e, 0, s, 15) == Out(Normal(Data(0)), s);
    assert EvalAll(m, Printing, PIPED.exprs[1..], 0, s, 15) == Values([], s);
  }

  lemma PrintX(m: Code, x: Resolution, s: Log)
    requires x.GlobalSlot? || x.Local?
    ensures Exec(m, Printing, PrintVar(x), 0, s, 17)
         == Out(Normal(UNSET),
                s.(world := s.world + [if x.Local? then ReadCell(s, TopLocal(x.id)) else At(s.globals, x.slot)]))
  {
    hide ReadCell;
    var args := [Expr(Var, x)];
    var v := if x.Local? then ReadCell(s, TopLocal(x.id)) else At(s.globals, x.slot);
    assert args[1..] == [];
    assert Eval(m, Printing, args[0], 0, s, 14) == Out(Normal(v), s);
    assert EvalAll(m, Printing, args, 0, s, 15) == Values([v], s);
    PrintingPerforms(m, Action(PRINT, 0, false, [v]), s, 15);
  }

  lemma RunBody(m: Code, x: Resolution)
    requires x.GlobalSlot? || x.Local?
    requires m.classDefs == [PIPED] && m.top.body == Body(x)
    ensures Run(m, Printing, [], map[], 20).state.world == [if x == Local(0) then Data(1) else Data(5)]
  {
    hide Exec, Setting, PrintVar;
    var start: Log := State([], map[], [Frame(map[], map[], 0)], []);
    var ss := Body(x);
    assert ss[1..] == [BuildClass(0), PrintVar(x)] && ss[1..][1..] == [PrintVar(x)] && ss[1..][1..][1..] == [];
    SetX(m, x, start);
    var s1 := Exec(m, Printing, ss[0], 0, start, 19).state;
    BuildPiped(m, s1);
    var s2 := With(s1, 0, Data(1));
    PrintX(m, x, s2);
  }

  lemma BodyRewritten()
    ensures RewriteStmts(Body(GlobalSlot(0)), X_IS_LOCAL_0) == Body(Local(0))
    ensures StmtsLocals(Body(GlobalSlot(0))) == {}
  {
    hide Setting;
    var ss, rest, last := Body(GlobalSlot(0)), [BuildClass(0), PrintVar(GlobalSlot(0))], [PrintVar(GlobalSlot(0))];
    SettingRewritten(0, Data(5), X_IS_LOCAL_0);
    PrintRewritten();
    hide PrintVar;
    assert ss[1..] == rest && rest[1..] == last && last[1..] == [];
    assert RewriteStmts(last, X_IS_LOCAL_0) == [PrintVar(Local(0))] && StmtsLocals(last) == {};
    assert RewriteStmts(rest, X_IS_LOCAL_0) == [BuildClass(0), PrintVar(Local(0))] && StmtsLocals(rest) == {};
  }

  lemma PrintRewritten()
    ensures RewriteStmt(PrintVar(GlobalSlot(0)), X_IS_LOCAL_0) == PrintVar(Local(0))
    ensures StmtLocals(PrintVar(GlobalSlot(0))) == {}
  {
    var args := [Expr(Var, GlobalSlot(0))];
    assert args[1..] == [];
    assert RewriteExprs(args, X_IS_LOCAL_0) == [Expr(Var, Local(0))] && ExprsLocals(args) == {};
  }

  lemma PipedMentions()
    ensures ClassSlots(PIPED) == {} && 0 in ClassLocals(PIPED) && SetsFirst(PIPED.prelude, 0)
  {
    var args := [Expr(Var, Local(0)), Int(2)];
    assert args[1..] == [Int(2)] && args[1..][1..] == [];
    assert ExprsSlots(args[1..]) == {} && ExprsSlots(args) == {};
    assert PIPED.exprs[1..] == [] && PIPED.prelude[1..] == [];
    assert ExprSlots(PIPED.exprs[0]) == {} && StmtSlots(PIPED.prelude[0]) == {};
    assert 0 in StmtLocals(PIPED.prelude[0]);
  }

  /** The original prints 5, the promoted module 1. */
  lemma TemporaryOverwritesVariable()
    ensures IsPromotion(ORIGINAL, PROMOTED, X_IS_LOCAL_0, [7]) && TopNumbered(ORIGINAL)
    ensures !AllAvoid(ORIGINAL.classDefs, X_IS_LOCAL_0) && SetsOwnTemporaries(PIPED, X_IS_LOCAL_0)
    ensures Run(ORIGINAL, Printing, [], map[], 20).state.world == [Data(5)]
    ensures Run(PROMOTED, Printing, [], map[], 20).state.world == [Data(1)]
  {
    hide Run, Body, ClassLocals, ClassSlots, SetsFirst, RewriteStmts, StmtsLocals;
    BodyRewritten();
    PipedMentions();
    assert [PIPED][1..] == [] && ClassesSlots([PIPED]) == ClassSlots(PIPED) + ClassesSlots([PIPED][1..]);
    assert 0 in X_IS_LOCAL_0 && X_IS_LOCAL_0[0] in X_IS_LOCAL_0.Values;
    assert PIPED in ORIGINAL.classDefs;
    RunBody(ORIGINAL, GlobalSlot(0));
    RunBody(PROMOTED, Local(0));
  }
}
