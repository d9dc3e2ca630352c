/**
  * The part of the syntax tree that decides which fields of `this` a constructor
  * assigns, and every run of it: each test may go either way, each evaluation may
  * throw, and each loop may turn any number of times.  A run is described by the
  * set of fields assigned before and after.
  */
module ConstructorRuns {
  import opened Wrappers

  type Fields = set<string>

  datatype AssignOp = Plain | Compound | Logical

  datatype Expr =
    | This
    | Ident(name: string)
    | Field(base: Expr, property: Expr)
    /** Computed access: the object and the key. */
    | Index(parts: seq<Expr>)
    | Assign(op: AssignOp, target: Expr, value: Expr)
    /** Array, tuple or object literal, or the pattern written like one. */
    | Collection(parts: seq<Expr>)
    /** A computed key of an object literal; only among the parts of a `Collection`. */
    | ComputedKey(key: Expr)
    /** Any expression that evaluates all its parts in order; a function has none. */
    | Strict(parts: seq<Expr>)
    /** The head, then one arm, or perhaps none when the choice is not mandatory. */
    | Choice(head: Expr, arms: seq<Expr>, mandatory: bool)

  datatype LoopHead =
    | While(test: Expr)
    | DoWhile(test: Expr)
    | For(init: seq<Expr>, forTest: Option<Expr>, update: Option<Expr>)
    | ForEach(subject: Expr)

  datatype Case = Case(test: Option<Expr>, body: seq<Stmt>)
  datatype Catch = Catch(typed: bool, body: Stmt)

  datatype Stmt =
    | Block(stmts: seq<Stmt>)
    | Skip
    | ExprStmt(e: Expr)
    | Declare(inits: seq<Expr>)
    | If(test: Expr, consequent: Stmt, alternate: Option<Stmt>)
    | Loop(head: LoopHead, body: Stmt)
    | Switch(discriminant: Expr, cases: seq<Case>)
    | Return(argument: Option<Expr>)
    | Break(to: Option<string>)
    | Continue(to: Option<string>)
    | Throw(e: Expr)
    | Try(block: Stmt, catches: seq<Catch>, cleanup: Option<Stmt>)
    | Labeled(name: string, body: Stmt)

  datatype Outcome =
    | Normal
    | Broke(to: Option<string>)
    | Continued(to: Option<string>)
    | Returned
    | Threw

  /** What storing to a target assigns: a field of `this` only if it is written so. */
  function Stored(t: Expr): Fields {
    match t
    case Field(This, Ident(f)) => {f}
    case _ => {}
  }

  // --- evaluations ------------------------------------------------------------

  /** Evaluating `e` from `b` ends with `a` assigned; `ok` tells whether it threw. */
  ghost predicate Evals(e: Expr, b: Fields, ok: bool, a: Fields)
    decreases e, 2
  {
    match e
    case ComputedKey(k) => Evals(k, b, ok, a)
    case Collection(ps) => exists k: bool :: EvalsAll(ps, b, k, a) && (ok ==> k)
    case Strict(ps) => exists k: bool :: EvalsAll(ps, b, k, a) && (ok ==> k)
    case Choice(h, arms, must) =>
      || (!ok && Evals(h, b, false, a))
      || (exists m: Fields :: Evals(h, b, true, m) && Chooses(arms, must, m, ok, a))
    case Assign(op, t, v) =>
      || (!ok && Evals(v, b, false, a))
      || (op.Logical? && Reaches(t, b, ok, a))
      || (exists m: Fields ::
            && Evals(v, b, true, m)
            && if op.Plain? && t.Collection? then Binds(t, m, ok, a) else Stores(t, m, ok, a))
    case _ => Reaches(e, b, ok, a)
  }

  ghost predicate EvalsAll(es: seq<Expr>, b: Fields, ok: bool, a: Fields)
    decreases es, 0
  {
    if es == [] then ok && a == b
    else
      || (!ok && Evals(es[0], b, false, a))
      || (exists m: Fields :: Evals(es[0], b, true, m) && EvalsAll(es[1..], m, ok, a))
  }

  ghost predicate Chooses(arms: seq<Expr>, must: bool, b: Fields, ok: bool, a: Fields)
    decreases arms, 0
  {
    || ((arms == [] || !must) && a == b)
    || (exists i :: 0 <= i < |arms| && Evals(arms[i], b, ok, a))
  }

  /** Evaluating the operands of an access. */
  ghost predicate Reaches(t: Expr, b: Fields, ok: bool, a: Fields)
    decreases t, 0
  {
    match t
    case Field(o, _) => exists k: bool :: Evals(o, b, k, a) && (ok ==> k)
    case Index(ps) => exists k: bool :: EvalsAll(ps, b, k, a) && (ok ==> k)
    case _ => a == b
  }

  /** Assigning to a single target. */
  ghost predicate Stores(t: Expr, b: Fields, ok: bool, a: Fields)
    decreases t, 1
  {
    if ok then exists m: Fields :: Reaches(t, b, true, m) && a == m + Stored(t)
    else Reaches(t, b, false, a)
  }

  /** Assigning to a pattern; a default is evaluated only when it is needed. */
  ghost predicate Binds(t: Expr, b: Fields, ok: bool, a: Fields)
    decreases t, 2
  {
    match t
    case Collection(ps) => BindsAll(ps, b, ok, a)
    case ComputedKey(k) => Evals(k, b, ok, a)
    case Assign(Plain, inner, d) =>
      || Binds(inner, b, ok, a)
      || (!ok && Evals(d, b, false, a))
      || (exists m: Fields :: Evals(d, b, true, m) && Binds(inner, m, ok, a))
    case _ => Stores(t, b, ok, a)
  }

  ghost predicate BindsAll(ps: seq<Expr>, b: Fields, ok: bool, a: Fields)
    decreases ps, 0
  {
    if ps == [] then ok && a == b
    else
      || (!ok && Binds(ps[0], b, false, a))
      || (exists m: Fields :: Binds(ps[0], b, true, m) && BindsAll(ps[1..], m, ok, a))
  }

  // --- statements ----------------------------------------------------------------

  /** Statements that evaluate some expressions and then end in one way. */
  predicate Straight(s: Stmt) {
    s.Skip? || s.ExprStmt? || s.Declare? || s.Return? || s.Break? || s.Continue? || s.Throw?
  }

  function Optional(e: Option<Expr>): seq<Expr> {
    if e.Some? then [e.value] else []
  }

  function Operands(s: Stmt): seq<Expr>
    requires Straight(s)
  {
    match s
    case ExprStmt(e) => [e]
    case Throw(e) => [e]
    case Declare(es) => es
    case Return(arg) => Optional(arg)
    case _ => []
  }

  function Leaving(s: Stmt): Outcome
    requires Straight(s)
  {
    match s
    case Return(_) => Returned
    case Throw(_) => Threw
    case Break(l) => Broke(l)
    case Continue(l) => Continued(l)
    case _ => Normal
  }

  function Init(h: LoopHead): seq<Expr> {
    match h
    case For(init, _, _) => init
    case ForEach(subject) => [subject]
    case _ => []
  }

  function Test(h: LoopHead): seq<Expr> {
    match h
    case While(t) => [t]
    case DoWhile(t) => [t]
    case For(_, t, _) => Optional(t)
    case ForEach(_) => []
  }

  function Update(h: LoopHead): seq<Expr> {
    if h.For? then Optional(h.update) else []
  }

  /** A loop without a test never stops between turns. */
  predicate CanStop(h: LoopHead) {
    h.For? ==> h.forTest.Some?
  }

  /** The outcomes of a loop's body after which it goes on to the next turn. */
  predicate GoesOn(o: Outcome, labels: set<string>) {
    o == Normal || o == Continued(None) || (o.Continued? && o.to.Some? && o.to.value in labels)
  }

  /** What any other outcome of the body makes of the loop. */
  function LoopOutcome(o: Outcome): Outcome {
    if o == Broke(None) then Normal else o
  }

  function LabelOutcome(o: Outcome, l: string): Outcome {
    if o == Broke(Some(l)) then Normal else o
  }

  /** A closing `break` is dropped from a case, which never falls through. */
  function CaseBody(c: Case): (r: seq<Stmt>)
    ensures r <= c.body
  {
    if c.body != [] && c.body[|c.body| - 1] == Break(None) then c.body[..|c.body| - 1] else c.body
  }

  /** `labels` are those written directly on the statement. */
  ghost predicate Ends(s: Stmt, labels: set<string>, b: Fields, o: Outcome, a: Fields)
    decreases s, 1, 0
  {
    if Straight(s) then
      || (o == Leaving(s) && EvalsAll(Operands(s), b, true, a))
      || (o == Threw && EvalsAll(Operands(s), b, false, a))
    else match s
      case Block(ss) => EndsAll(ss, b, o, a)
      case If(t, c, alt) =>
        || (o == Threw && Evals(t, b, false, a))
        || (exists m: Fields ::
              && Evals(t, b, true, m)
              && (Ends(c, {}, m, o, a)
                  || (if alt.Some? then Ends(alt.value, {}, m, o, a) else o == Normal && a == m)))
      case Loop(h, body) =>
        || (o == Threw && EvalsAll(Init(h), b, false, a))
        || (exists m: Fields, n: nat ::
              && EvalsAll(Init(h), b, true, m)
              && Turns(h, body, labels, h.DoWhile?, n, m, o, a))
      case Switch(d, cs) =>
        || (o == Threw && Evals(d, b, false, a))
        || (exists m: Fields :: Evals(d, b, true, m) && Switches(cs, m, o, a))
      case Try(block, catches, fin) =>
        exists p: Outcome, m: Fields ::
          && Caught(s, b, p, m)
          && if fin.Some? then Finishes(fin.value, p, m, o, a) else o == p && a == m
      case Labeled(l, body) =>
        exists p: Outcome :: Ends(body, labels + {l}, b, p, a) && o == LabelOutcome(p, l)
  }

  ghost predicate EndsAll(ss: seq<Stmt>, b: Fields, o: Outcome, a: Fields)
    decreases ss, 0, 0
  {
    if ss == [] then o == Normal && a == b
    else
      || (o != Normal && Ends(ss[0], {}, b, o, a))
      || (exists m: Fields :: Ends(ss[0], {}, b, Normal, m) && EndsAll(ss[1..], m, o, a))
  }

  /** At most `n` more steps of a loop that stands before its test or before its body. */
  ghost predicate Turns(h: LoopHead, body: Stmt, labels: set<string>, atBody: bool, n: nat,
                        b: Fields, o: Outcome, a: Fields)
    decreases body, 2, n
  {
    if atBody then
      exists p: Outcome, m: Fields ::
        && Ends(body, {}, b, p, m)
        && if GoesOn(p, labels) then Updates(h, body, labels, n, m, o, a)
           else a == m && o == LoopOutcome(p)
    else
      || (o == Threw && EvalsAll(Test(h), b, false, a))
      || (exists m: Fields ::
            && EvalsAll(Test(h), b, true, m)
            && ((CanStop(h) && o == Normal && a == m)
                || (n > 0 && Turns(h, body, labels, true, n - 1, m, o, a))))
  }

  ghost predicate Updates(h: LoopHead, body: Stmt, labels: set<string>, n: nat, b: Fields, o: Outcome, a: Fields)
    decreases body, 2, n, 0
  {
    || (o == Threw && EvalsAll(Update(h), b, false, a))
    || (n > 0 && exists m: Fields :: EvalsAll(Update(h), b, true, m)
                                     && Turns(h, body, labels, false, n - 1, m, o, a))
  }

  /**
    * Cases are compared in order and the matching one ends the switch; the default
    * case runs where it stands, after which the later cases are still compared.
    */
  ghost predicate Switches(cs: seq<Case>, b: Fields, o: Outcome, a: Fields)
    decreases cs, 0, 0
  {
    if cs == [] then o == Normal && a == b
    else
      var c := cs[0];
      match c.test
      case Some(t) =>
        || (o == Threw && Evals(t, b, false, a))
        || (exists m: Fields ::
              && Evals(t, b, true, m)
              && (CaseEnds(c, m, o, a) || Switches(cs[1..], m, o, a)))
      case None =>
        || (o != Normal && CaseEnds(c, b, o, a))
        || (exists m: Fields :: CaseEnds(c, b, Normal, m) && Switches(cs[1..], m, o, a))
  }

  ghost predicate CaseEnds(c: Case, b: Fields, o: Outcome, a: Fields)
    decreases c, 0, 0
  {
    EndsAll(CaseBody(c), b, o, a)
  }

  ghost predicate Caught(s: Stmt, b: Fields, o: Outcome, a: Fields)
    requires s.Try?
    decreases s, 0, 0
  {
    || (o != Threw && Ends(s.block, {}, b, o, a))
    || (exists m: Fields :: Ends(s.block, {}, b, Threw, m) && Handles(s.catches, m, o, a))
  }

  /** Any typed clause may match; otherwise an untyped one does, if there is one. */
  ghost predicate Handles(catches: seq<Catch>, b: Fields, o: Outcome, a: Fields)
    decreases catches, 0, 0
  {
    || (exists i :: 0 <= i < |catches| && CatchEnds(catches[i], b, o, a))
    || ((forall c :: c in catches ==> c.typed) && o == Threw && a == b)
  }

  ghost predicate CatchEnds(c: Catch, b: Fields, o: Outcome, a: Fields)
    decreases c, 0, 0
  {
    Ends(c.body, {}, b, o, a)
  }

  /** A `finally` that ends normally hands on how the block ended. */
  ghost predicate Finishes(f: Stmt, p: Outcome, b: Fields, o: Outcome, a: Fields)
    decreases f, 2, 0
  {
    || (o == p && Ends(f, {}, b, Normal, a))
    || (o != Normal && Ends(f, {}, b, o, a))
  }

  // --- where jumps end ---------------------------------------------------------------

  lemma JumpsLeave(to: Option<string>, labels: set<string>, b: Fields, o: Outcome, a: Fields)
    ensures Ends(Break(to), labels, b, o, a) <==> o == Broke(to) && a == b
    ensures Ends(Continue(to), labels, b, o, a) <==> o == Continued(to) && a == b
    ensures Ends(Return(None), labels, b, o, a) <==> o == Returned && a == b
    ensures Ends(Skip, labels, b, o, a) <==> o == Normal && a == b
  {
  }

  /** A label takes the breaks to it, and nothing else. */
  lemma LabelsCatch(l: string, body: Stmt, labels: set<string>, b: Fields, o: Outcome, a: Fields)
    ensures Ends(Labeled(l, body), labels, b, o, a)
       <==> || (o == Normal && Ends(body, labels + {l}, b, Normal, a))
            || (o == Normal && Ends(body, labels + {l}, b, Broke(Some(l)), a))
            || (o != Normal && o != Broke(Some(l)) && Ends(body, labels + {l}, b, o, a))
  {
    var s := Labeled(l, body);
    assert Ends(s, labels, b, o, a)
      <==> exists p: Outcome :: Ends(body, labels + {l}, b, p, a) && o == LabelOutcome(p, l);
  }

  /** What a loop's body ends with to be over: not another turn. */
  predicate LeavesLoop(p: Outcome, labels: set<string>) {
    p != Normal && p != Continued(None) && forall l :: l in labels ==> p != Continued(Some(l))
  }

  /** A break ends the loop, any other way out of the body is handed on. */
  lemma LoopsEnd(t: Expr, body: Stmt, labels: set<string>, b: Fields, p: Outcome, a: Fields)
    requires Ends(body, {}, b, p, a) && LeavesLoop(p, labels)
    ensures Ends(Loop(DoWhile(t), body), labels, b, if p == Broke(None) then Normal else p, a)
  {
    var h := DoWhile(t);
    var o := if p == Broke(None) then Normal else p;
    assert !GoesOn(p, labels) && LoopOutcome(p) == o;
    assert Turns(h, body, labels, true, 0, b, o, a);
    assert EvalsAll(Init(h), b, true, b);
  }

  /** No loop ends with a jump that was meant for it. */
  lemma {:induction false} LoopsCatch(h: LoopHead, body: Stmt, labels: set<string>, b: Fields, o: Outcome, a: Fields)
    requires Ends(Loop(h, body), labels, b, o, a)
    ensures o != Broke(None) && (o == Normal || LeavesLoop(o, labels))
  {
    if !(o == Threw && EvalsAll(Init(h), b, false, a)) {
      var m: Fields, n: nat :| EvalsAll(Init(h), b, true, m) && Turns(h, body, labels, h.DoWhile?, n, m, o, a);
      TurnsCatch(h, body, labels, h.DoWhile?, n, m, o, a);
    }
  }

  /** How a step that stands before the body goes on. */
  lemma BodyCases(h: LoopHead, body: Stmt, labels: set<string>, n: nat, b: Fields, o: Outcome, a: Fields)
    returns (p: Outcome, m: Fields)
    requires Turns(h, body, labels, true, n, b, o, a)
    ensures Ends(body, {}, b, p, m)
    ensures if GoesOn(p, labels) then Updates(h, body, labels, n, m, o, a) else a == m && o == LoopOutcome(p)
  {
    hide Ends, Updates, GoesOn;
    p, m :| && Ends(body, {}, b, p, m)
            && if GoesOn(p, labels) then Updates(h, body, labels, n, m, o, a) else a == m && o == LoopOutcome(p);
  }

  /** How a step that stands before the test goes on. */
  lemma TestCases(h: LoopHead, body: Stmt, labels: set<string>, n: nat, b: Fields, o: Outcome, a: Fields)
    returns (m: Fields)
    requires Turns(h, body, labels, false, n, b, o, a)
    ensures || (o == Threw && EvalsAll(Test(h), b, false, a))
            || (EvalsAll(Test(h), b, true, m) &&
                ((CanStop(h) && o == Normal && a == m) || (n > 0 && Turns(h, body, labels, true, n - 1, m, o, a))))
  {
    hide EvalsAll;
    if o == Threw && EvalsAll(Test(h), b, false, a) {
      m := a;
    } else {
      m :| && EvalsAll(Test(h), b, true, m)
           && ((CanStop(h) && o == Normal && a == m) || (n > 0 && Turns(h, body, labels, true, n - 1, m, o, a)));
    }
  }

  lemma UpdateCases(h: LoopHead, body: Stmt, labels: set<string>, n: nat, b: Fields, o: Outcome, a: Fields)
    returns (m: Fields)
    requires Updates(h, body, labels, n, b, o, a)
    ensures || (o == Threw && EvalsAll(Update(h), b, false, a))
            || (n > 0 && EvalsAll(Update(h), b, true, m) && Turns(h, body, labels, false, n - 1, m, o, a))
  {
    hide EvalsAll, Turns;
    if o == Threw && EvalsAll(Update(h), b, false, a) {
      m := a;
    } else {
      m :| EvalsAll(Update(h), b, true, m) && Turns(h, body, labels, false, n - 1, m, o, a);
    }
  }

  lemma {:induction false} TurnsCatch(h: LoopHead, body: Stmt, labels: set<string>, atBody: bool, n: nat,
                                      b: Fields, o: Outcome, a: Fields)
    requires Turns(h, body, labels, atBody, n, b, o, a)
    ensures o != Broke(None) && (o == Normal || LeavesLoop(o, labels))
    decreases n, atBody
  {
    hide EvalsAll, Ends, Turns, Updates;
    if atBody {
      var p, m := BodyCases(h, body, labels, n, b, o, a);
      if GoesOn(p, labels) {
        var k := UpdateCases(h, body, labels, n, m, o, a);
        if !(o == Threw && EvalsAll(Update(h), m, false, a)) { TurnsCatch(h, body, labels, false, n - 1, k, o, a); }
      }
    } else {
      var m := TestCases(h, body, labels, n, b, o, a);
      if !(o == Threw && EvalsAll(Test(h), b, false, a)) && !(CanStop(h) && o == Normal && a == m) {
        TurnsCatch(h, body, labels, true, n - 1, m, o, a);
      }
    }
  }

  /** A case runs its statements; a break that closes them is not run. */
  lemma CasesDropBreak(test: Option<Expr>, body: seq<Stmt>, b: Fields, o: Outcome, a: Fields)
    ensures CaseEnds(Case(test, body + [Break(None)]), b, o, a) <==> EndsAll(body, b, o, a)
    ensures body == [] || body[|body| - 1] != Break(None) ==>
              (CaseEnds(Case(test, body), b, o, a) <==> EndsAll(body, b, o, a))
  {
    hide EndsAll;
    assert (body + [Break(None)])[..|body|] == body;
  }
}
