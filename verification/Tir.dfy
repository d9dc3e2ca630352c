/** The typed intermediate representation: its syntax and a small operational semantics. */
module Tir {
  import opened Wrappers

  // --- syntax ---------------------------------------------------------------

  /** What a name or an operation was resolved to; `Other` covers everything that is not a variable of the module. */
  datatype Resolution =
    | Unresolved
    | Local(id: nat)
    | Param(index: nat)
    | Upvalue(index: nat)
    | GlobalSlot(slot: nat)
    | Other(key: nat)

  datatype Upvalue = ParentLocal(id: nat) | ParentParam(index: nat) | ParentUpvalue(index: nat)

  datatype Value = Data(bits: int) | Fn(func: nat, env: nat)

  datatype Expr = Expr(kind: Kind, res: Resolution)

  /** `Op` stands for every node that evaluates its operands in order and then acts on their values. */
  datatype Kind =
    | Lit(value: Value)
    | Var
    | Op(op: nat, args: seq<Expr>)
    | Assign(target: Expr, source: Expr)
    | Select(cond: Expr, thenValue: Expr, elseValue: Expr)
    | Seq(stmts: seq<Stmt>, result: Expr)
    | Closure(func: nat, upvalues: seq<Upvalue>)

  datatype Stmt =
    | Do(e: Expr)
    | Let(id: nat, init: Option<Expr>)
    | Return(result: Option<Expr>)
    | If(cond: Expr, thenBody: seq<Stmt>, elseBody: seq<Stmt>)
    | Loop(cond: Expr, body: seq<Stmt>)
    | Break
    | Continue
    | Throw(e: Expr)
    | Try(body: seq<Stmt>, catchId: nat, catchBody: seq<Stmt>)
    | BuildClass(def: nat)

  type Ty = nat

  datatype Function = Function(locals: seq<Ty>, body: seq<Stmt>)

  /** A class definition: its prelude, the expressions it evaluates in order, and the act of building it. */
  datatype ClassDef = ClassDef(prelude: seq<Stmt>, exprs: seq<Expr>, op: nat)

  datatype Code = Code(functions: seq<Function>, classDefs: seq<ClassDef>, top: Function)

  // --- state ----------------------------------------------------------------

  /** What a variable holds before anything has been stored in it. */
  const UNSET := Data(0)

  /** Where a variable of some function activation lives. */
  datatype Cell = Cell(frame: nat, isParam: bool, index: nat)

  datatype Frame = Frame(params: map<nat, Value>, locals: map<nat, Value>, env: nat)

  /** `world` is the heap and everything observable; `envs` holds the variables that closures have captured. */
  datatype State<W> = State(world: W, globals: map<nat, Value>, frames: seq<Frame>, envs: seq<seq<Cell>>)

  function At(m: map<nat, Value>, i: nat): Value {
    if i in m then m[i] else UNSET
  }

  function ReadCell<W>(s: State<W>, c: Cell): Value {
    if c.frame >= |s.frames| then UNSET
    else At(if c.isParam then s.frames[c.frame].params else s.frames[c.frame].locals, c.index)
  }

  function WriteCell<W>(s: State<W>, c: Cell, v: Value): State<W> {
    if c.frame >= |s.frames| then s
    else
      var f := s.frames[c.frame];
      var g := if c.isParam then f.(params := f.params[c.index := v]) else f.(locals := f.locals[c.index := v]);
      s.(frames := s.frames[c.frame := g])
  }

  // --- evaluation -----------------------------------------------------------

  /** An action on the world: an operator node, a store through one, or an access to a name outside the module. */
  datatype Action = Action(op: nat, key: nat, store: bool, args: seq<Value>)

  /** What an action does; it may call a function of the module and take its result. */
  datatype Effect<W> =
    | Done(value: Value, world: W)
    | Raised(value: Value, world: W)
    | Invoke(func: nat, env: nat, args: seq<Value>, world: W)

  datatype Control =
    | Normal(value: Value)
    | Returned(value: Value)
    | Broke
    | Continued
    | Thrown(value: Value)
    | OutOfFuel

  datatype Out<W> = Out(control: Control, state: State<W>)

  datatype ArgsOut<W> = Values(values: seq<Value>, state: State<W>) | Stop(control: Control, state: State<W>)

  /** Where a resolved name is stored. */
  datatype Place = InCell(cell: Cell) | InGlobal(slot: nat) | Elsewhere(key: nat)

  function KeyOf(res: Resolution): nat {
    match res
    case Other(key) => key + 1
    case _ => 0
  }

  function PlaceOf<W>(res: Resolution, frame: nat, s: State<W>): Place {
    match res
    case Local(id) => InCell(Cell(frame, false, id))
    case Param(index) => InCell(Cell(frame, true, index))
    case Upvalue(index) =>
      if frame < |s.frames| && s.frames[frame].env < |s.envs| && index < |s.envs[s.frames[frame].env]|
      then InCell(s.envs[s.frames[frame].env][index])
      else Elsewhere(0)
    case GlobalSlot(slot) => InGlobal(slot)
    case Other(key) => Elsewhere(key + 1)
    case Unresolved => Elsewhere(0)
  }

  function Capture<W>(u: Upvalue, frame: nat, s: State<W>): Cell {
    match u
    case ParentLocal(id) => Cell(frame, false, id)
    case ParentParam(index) => Cell(frame, true, index)
    case ParentUpvalue(index) =>
      match PlaceOf(Upvalue(index), frame, s)
      case InCell(cell) => cell
      case _ => Cell(frame, true, index)
  }

  function CaptureAll<W>(us: seq<Upvalue>, frame: nat, s: State<W>): seq<Cell> {
    if us == [] then [] else [Capture(us[0], frame, s)] + CaptureAll(us[1..], frame, s)
  }

  function Numbered(values: seq<Value>): map<nat, Value> {
    map i: nat | 0 <= i < |values| :: values[i]
  }

  /** What a function activation hands to its caller. */
  function ResultOf(c: Control): Control {
    match c
    case Returned(v) => Normal(v)
    case Thrown(v) => c
    case OutOfFuel => c
    case _ => Normal(UNSET)
  }

  predicate Truthy(v: Value) {
    v != Data(0)
  }

  function Perform<W>(m: Code, prim: (Action, W) -> Effect<W>, a: Action, s: State<W>, fuel: nat): Out<W>
    decreases fuel
  {
    if fuel == 0 then Out(OutOfFuel, s)
    else
      match prim(a, s.world)
      case Done(v, w) => Out(Normal(v), s.(world := w))
      case Raised(v, w) => Out(Thrown(v), s.(world := w))
      case Invoke(f, env, args, w) =>
        if f >= |m.functions| then Out(Thrown(UNSET), s.(world := w))
        else
          var entered := s.(world := w, frames := s.frames + [Frame(Numbered(args), map[], env)]);
          var r := ExecAll(m, prim, m.functions[f].body, |s.frames|, entered, fuel - 1);
          Out(ResultOf(r.control), r.state)
  }

  function Load<W>(m: Code, prim: (Action, W) -> Effect<W>, res: Resolution, frame: nat, s: State<W>, fuel: nat): Out<W>
    decreases fuel
  {
    if fuel == 0 then Out(OutOfFuel, s)
    else
      match PlaceOf(res, frame, s)
      case InCell(cell) => Out(Normal(ReadCell(s, cell)), s)
      case InGlobal(slot) => Out(Normal(At(s.globals, slot)), s)
      case Elsewhere(key) => Perform(m, prim, Action(0, key, false, []), s, fuel - 1)
  }

  function Store<W>(m: Code, prim: (Action, W) -> Effect<W>, target: Expr, v: Value, frame: nat, s: State<W>,
                    fuel: nat): Out<W>
    decreases fuel
  {
    if fuel == 0 then Out(OutOfFuel, s)
    else
      match target.kind
      case Var =>
        (match PlaceOf(target.res, frame, s)
         case InCell(cell) => Out(Normal(v), WriteCell(s, cell, v))
         case InGlobal(slot) => Out(Normal(v), s.(globals := s.globals[slot := v]))
         case Elsewhere(key) => Perform(m, prim, Action(0, key, true, [v]), s, fuel - 1))
      case Op(op, args) =>
        (match EvalAll(m, prim, args, frame, s, fuel - 1)
         case Stop(c, s1) => Out(c, s1)
         case Values(vs, s1) => Perform(m, prim, Action(op, KeyOf(target.res), true, vs + [v]), s1, fuel - 1))
      case _ => Out(Thrown(UNSET), s)
  }

  function Eval<W>(m: Code, prim: (Action, W) -> Effect<W>, e: Expr, frame: nat, s: State<W>, fuel: nat): Out<W>
    decreases fuel
  {
    if fuel == 0 then Out(OutOfFuel, s)
    else
      match e.kind
      case Lit(v) => Out(Normal(v), s)
      case Var => Load(m, prim, e.res, frame, s, fuel - 1)
      case Op(op, args) =>
        (match EvalAll(m, prim, args, frame, s, fuel - 1)
         case Stop(c, s1) => Out(c, s1)
         case Values(vs, s1) => Perform(m, prim, Action(op, KeyOf(e.res), false, vs), s1, fuel - 1))
      case Assign(target, source) =>
        var r := Eval(m, prim, source, frame, s, fuel - 1);
        if r.control.Normal? then Store(m, prim, target, r.control.value, frame, r.state, fuel - 1) else r
      case Select(cond, a, b) =>
        var r := Eval(m, prim, cond, frame, s, fuel - 1);
        if !r.control.Normal? then r
        else Eval(m, prim, if Truthy(r.control.value) then a else b, frame, r.state, fuel - 1)
      case Seq(stmts, result) =>
        var r := ExecAll(m, prim, stmts, frame, s, fuel - 1);
        if r.control.Normal? then Eval(m, prim, result, frame, r.state, fuel - 1) else r
      case Closure(func, upvalues) =>
        Out(Normal(Fn(func, |s.envs|)), s.(envs := s.envs + [CaptureAll(upvalues, frame, s)]))
  }

  function EvalAll<W>(m: Code, prim: (Action, W) -> Effect<W>, es: seq<Expr>, frame: nat, s: State<W>,
                      fuel: nat): ArgsOut<W>
    decreases fuel
  {
    if fuel == 0 then Stop(OutOfFuel, s)
    else if es == [] then Values([], s)
    else
      var r := Eval(m, prim, es[0], frame, s, fuel - 1);
      if !r.control.Normal? then Stop(r.control, r.state)
      else
        match EvalAll(m, prim, es[1..], frame, r.state, fuel - 1)
        case Stop(c, s1) => Stop(c, s1)
        case Values(vs, s1) => Values([r.control.value] + vs, s1)
  }

  function ExecAll<W>(m: Code, prim: (Action, W) -> Effect<W>, stmts: seq<Stmt>, frame: nat, s: State<W>,
                      fuel: nat): Out<W>
    decreases fuel
  {
    if fuel == 0 then Out(OutOfFuel, s)
    else if stmts == [] then Out(Normal(UNSET), s)
    else
      var r := Exec(m, prim, stmts[0], frame, s, fuel - 1);
      if r.control.Normal? then ExecAll(m, prim, stmts[1..], frame, r.state, fuel - 1) else r
  }

  function EvalOptional<W>(m: Code, prim: (Action, W) -> Effect<W>, e: Option<Expr>, frame: nat, s: State<W>,
                           fuel: nat): Out<W>
    decreases fuel
  {
    if fuel == 0 then Out(OutOfFuel, s)
    else if e.None? then Out(Normal(UNSET), s)
    else Eval(m, prim, e.value, frame, s, fuel - 1)
  }

  function Exec<W>(m: Code, prim: (Action, W) -> Effect<W>, stmt: Stmt, frame: nat, s: State<W>, fuel: nat): Out<W>
    decreases fuel
  {
    if fuel == 0 then Out(OutOfFuel, s)
    else
      match stmt
      case Do(e) => Eval(m, prim, e, frame, s, fuel - 1)
      case Let(id, init) =>
        var r := EvalOptional(m, prim, init, frame, s, fuel - 1);
        if r.control.Normal? then Out(Normal(UNSET), WriteCell(r.state, Cell(frame, false, id), r.control.value)) else r
      case Return(result) =>
        var r := EvalOptional(m, prim, result, frame, s, fuel - 1);
        if r.control.Normal? then Out(Returned(r.control.value), r.state) else r
      case If(cond, thenBody, elseBody) =>
        var r := Eval(m, prim, cond, frame, s, fuel - 1);
        if r.control.Normal?
        then ExecAll(m, prim, if Truthy(r.control.value) then thenBody else elseBody, frame, r.state, fuel - 1)
        else r
      case Loop(cond, body) => ExecLoop(m, prim, cond, body, frame, s, fuel - 1)
      case Break => Out(Broke, s)
      case Continue => Out(Continued, s)
      case Throw(e) =>
        var r := Eval(m, prim, e, frame, s, fuel - 1);
        if r.control.Normal? then Out(Thrown(r.control.value), r.state) else r
      case Try(body, catchId, catchBody) =>
        var r := ExecAll(m, prim, body, frame, s, fuel - 1);
        if r.control.Thrown?
        then ExecAll(m, prim, catchBody, frame, WriteCell(r.state, Cell(frame, false, catchId), r.control.value),
                     fuel - 1)
        else r
      case BuildClass(def) => Build(m, prim, def, frame, s, fuel - 1)
  }

  function ExecLoop<W>(m: Code, prim: (Action, W) -> Effect<W>, cond: Expr, body: seq<Stmt>, frame: nat, s: State<W>,
                       fuel: nat): Out<W>
    decreases fuel
  {
    if fuel == 0 then Out(OutOfFuel, s)
    else
      var r := Eval(m, prim, cond, frame, s, fuel - 1);
      if !r.control.Normal? then r
      else if !Truthy(r.control.value) then Out(Normal(UNSET), r.state)
      else
        var b := ExecAll(m, prim, body, frame, r.state, fuel - 1);
        if b.control.Normal? || b.control.Continued? then ExecLoop(m, prim, cond, body, frame, b.state, fuel - 1)
        else if b.control.Broke? then Out(Normal(UNSET), b.state)
        else b
  }

  function Build<W>(m: Code, prim: (Action, W) -> Effect<W>, def: nat, frame: nat, s: State<W>, fuel: nat): Out<W>
    decreases fuel
  {
    if fuel == 0 then Out(OutOfFuel, s)
    else if def >= |m.classDefs| then Out(Thrown(UNSET), s)
    else
      var d := m.classDefs[def];
      var r := ExecAll(m, prim, d.prelude, frame, s, fuel - 1);
      if !r.control.Normal? then r
      else
        match EvalAll(m, prim, d.exprs, frame, r.state, fuel - 1)
        case Stop(c, s1) => Out(c, s1)
        case Values(vs, s1) => Perform(m, prim, Action(d.op, 0, false, vs), s1, fuel - 1)
  }

  /** Runs the top level of a module: one activation, no closures yet, the globals as given. */
  function Run<W>(m: Code, prim: (Action, W) -> Effect<W>, world: W, globals: map<nat, Value>, fuel: nat): Out<W> {
    ExecAll(m, prim, m.top.body, 0, State(world, globals, [Frame(map[], map[], 0)], []), fuel)
  }
}
