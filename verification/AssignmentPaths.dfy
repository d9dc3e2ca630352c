/**
  * An exact analysis of `ConstructorRuns`: for one field, the ways in which a
  * statement can end without having assigned it.
  */
module AssignmentPaths {
  import opened Wrappers
  import opened ConstructorRuns

  // --- expressions ----------------------------------------------------------

  /** Every evaluation that does not throw assigns `f`. */
  predicate Must(e: Expr, f: string)
    decreases e, 2
  {
    match e
    case ComputedKey(k) => Must(k, f)
    case Collection(ps) => MustAny(ps, f)
    case Strict(ps) => MustAny(ps, f)
    case Choice(h, arms, must) => Must(h, f) || (must && arms != [] && MustEvery(arms, f))
    case Assign(op, t, v) =>
      if op.Logical? then MustReach(t, f) && (Must(v, f) || MustStore(t, f))
      else Must(v, f) || (if op.Plain? && t.Collection? then MustBind(t, f) else MustStore(t, f))
    case _ => MustReach(e, f)
  }

  predicate MustAny(es: seq<Expr>, f: string)
    decreases es, 0
  {
    es != [] && (Must(es[0], f) || MustAny(es[1..], f))
  }

  predicate MustEvery(es: seq<Expr>, f: string)
    decreases es, 0
  {
    es != [] ==> Must(es[0], f) && MustEvery(es[1..], f)
  }

  predicate MustReach(t: Expr, f: string)
    decreases t, 0
  {
    match t
    case Field(o, _) => Must(o, f)
    case Index(ps) => MustAny(ps, f)
    case _ => false
  }

  predicate MustStore(t: Expr, f: string)
    decreases t, 1
  {
    MustReach(t, f) || f in Stored(t)
  }

  predicate MustBind(t: Expr, f: string)
    decreases t, 2
  {
    match t
    case Collection(ps) => MustBindAny(ps, f)
    case ComputedKey(k) => Must(k, f)
    case Assign(Plain, inner, _) => MustBind(inner, f)
    case _ => MustStore(t, f)
  }

  predicate MustBindAny(ps: seq<Expr>, f: string)
    decreases ps, 0
  {
    ps != [] && (MustBind(ps[0], f) || MustBindAny(ps[1..], f))
  }

  // Every evaluation keeps what is assigned and assigns what it must.

  lemma {:induction false} EvalsSound(e: Expr, b: Fields, ok: bool, a: Fields, f: string)
    requires Evals(e, b, ok, a)
    ensures b <= a && (ok && Must(e, f) ==> f in a)
    decreases e, 2
  {
    match e
    case ComputedKey(k) => EvalsSound(k, b, ok, a, f);
    case Collection(ps) => var k: bool :| EvalsAll(ps, b, k, a) && (ok ==> k); EvalsAllSound(ps, b, k, a, f);
    case Strict(ps) => var k: bool :| EvalsAll(ps, b, k, a) && (ok ==> k); EvalsAllSound(ps, b, k, a, f);
    case Choice(h, arms, must) =>
      if !ok && Evals(h, b, false, a) {
        EvalsSound(h, b, false, a, f);
      } else {
        var m :| Evals(h, b, true, m) && Chooses(arms, must, m, ok, a);
        EvalsSound(h, b, true, m, f);
        if !((arms == [] || !must) && a == m) {
          var i :| 0 <= i < |arms| && Evals(arms[i], m, ok, a);
          EvalsSound(arms[i], m, ok, a, f);
          if MustEvery(arms, f) { EveryAt(arms, i, f); }
        }
      }
    case Assign(op, t, v) =>
      if !ok && Evals(v, b, false, a) {
        EvalsSound(v, b, false, a, f);
      } else if op.Logical? && Reaches(t, b, ok, a) {
        ReachesSound(t, b, ok, a, f);
      } else {
        var m :| Evals(v, b, true, m)
              && if op.Plain? && t.Collection? then Binds(t, m, ok, a) else Stores(t, m, ok, a);
        EvalsSound(v, b, true, m, f);
        if op.Plain? && t.Collection? { BindsSound(t, m, ok, a, f); } else { StoresSound(t, m, ok, a, f); }
      }
    case _ => ReachesSound(e, b, ok, a, f);
  }

  lemma {:induction false} EvalsAllSound(es: seq<Expr>, b: Fields, ok: bool, a: Fields, f: string)
    requires EvalsAll(es, b, ok, a)
    ensures b <= a && (ok && MustAny(es, f) ==> f in a)
    decreases es, 0
  {
    if es == [] {
    } else if !ok && Evals(es[0], b, false, a) {
      EvalsSound(es[0], b, false, a, f);
    } else {
      var m :| Evals(es[0], b, true, m) && EvalsAll(es[1..], m, ok, a);
      EvalsSound(es[0], b, true, m, f);
      EvalsAllSound(es[1..], m, ok, a, f);
    }
  }

  lemma {:induction false} EveryAt(es: seq<Expr>, i: nat, f: string)
    requires i < |es| && MustEvery(es, f)
    ensures Must(es[i], f)
  {
    if i > 0 { EveryAt(es[1..], i - 1, f); }
  }

  lemma {:induction false} ReachesSound(t: Expr, b: Fields, ok: bool, a: Fields, f: string)
    requires Reaches(t, b, ok, a)
    ensures b <= a && (ok && MustReach(t, f) ==> f in a)
    decreases t, 0
  {
    match t
    case Field(o, _) => var k: bool :| Evals(o, b, k, a) && (ok ==> k); EvalsSound(o, b, k, a, f);
    case Index(ps) => var k: bool :| EvalsAll(ps, b, k, a) && (ok ==> k); EvalsAllSound(ps, b, k, a, f);
    case _ =>
  }

  lemma {:induction false} StoresSound(t: Expr, b: Fields, ok: bool, a: Fields, f: string)
    requires Stores(t, b, ok, a)
    ensures b <= a && (ok && MustStore(t, f) ==> f in a)
    decreases t, 1
  {
    if ok {
      var m :| Reaches(t, b, true, m) && a == m + Stored(t);
      ReachesSound(t, b, true, m, f);
    } else {
      ReachesSound(t, b, false, a, f);
    }
  }

  lemma {:induction false} BindsSound(t: Expr, b: Fields, ok: bool, a: Fields, f: string)
    requires Binds(t, b, ok, a)
    ensures b <= a && (ok && MustBind(t, f) ==> f in a)
    decreases t, 2
  {
    match t
    case Collection(ps) => BindsAllSound(ps, b, ok, a, f);
    case ComputedKey(k) => EvalsSound(k, b, ok, a, f);
    case Assign(Plain, inner, d) =>
      if Binds(inner, b, ok, a) {
        BindsSound(inner, b, ok, a, f);
      } else if !ok && Evals(d, b, false, a) {
        EvalsSound(d, b, false, a, f);
      } else {
        var m :| Evals(d, b, true, m) && Binds(inner, m, ok, a);
        EvalsSound(d, b, true, m, f);
        BindsSound(inner, m, ok, a, f);
      }
    case _ => StoresSound(t, b, ok, a, f);
  }

  lemma {:induction false} BindsAllSound(ps: seq<Expr>, b: Fields, ok: bool, a: Fields, f: string)
    requires BindsAll(ps, b, ok, a)
    ensures b <= a && (ok && MustBindAny(ps, f) ==> f in a)
    decreases ps, 0
  {
    if ps == [] {
    } else if !ok && Binds(ps[0], b, false, a) {
      BindsSound(ps[0], b, false, a, f);
    } else {
      var m :| Binds(ps[0], b, true, m) && BindsAll(ps[1..], m, ok, a);
      BindsSound(ps[0], b, true, m, f);
      BindsAllSound(ps[1..], m, ok, a, f);
    }
  }

  // Any evaluation may throw before it assigns anything.

  lemma {:induction false} ThrowsAtOnce(e: Expr, b: Fields)
    ensures Evals(e, b, false, b)
    decreases e, 2
  {
    match e
    case ComputedKey(k) => ThrowsAtOnce(k, b);
    case Collection(ps) => StopsAtOnce(ps, b);
    case Strict(ps) => StopsAtOnce(ps, b);
    case Choice(h, _, _) => ThrowsAtOnce(h, b);
    case Assign(_, _, v) => ThrowsAtOnce(v, b);
    case Field(o, _) => ThrowsAtOnce(o, b); assert Reaches(e, b, false, b);
    case Index(ps) => StopsAtOnce(ps, b); assert Reaches(e, b, false, b);
    case _ =>
  }

  lemma {:induction false} StopsAtOnce(es: seq<Expr>, b: Fields)
    ensures EvalsAll(es, b, es == [], b)
    decreases es, 0
  {
    if es != [] { ThrowsAtOnce(es[0], b); }
  }

  // An evaluation that need not assign `f` has a run that does not.

  lemma {:induction false} EvalsWithout(e: Expr, b: Fields, f: string) returns (a: Fields)
    requires !Must(e, f) && f !in b
    ensures Evals(e, b, true, a) && f !in a
    decreases e, 2
  {
    match e
    case ComputedKey(k) => a := EvalsWithout(k, b, f);
    case Collection(ps) => a := EvalsAllWithout(ps, b, f);
    case Strict(ps) => a := EvalsAllWithout(ps, b, f);
    case Choice(h, arms, must) =>
      var m := EvalsWithout(h, b, f);
      if arms == [] || !must {
        a := m;
      } else {
        var i := NotEvery(arms, f);
        a := EvalsWithout(arms[i], m, f);
      }
      assert Chooses(arms, must, m, true, a);
    case Assign(op, t, v) =>
      if op.Logical? && !MustReach(t, f) {
        a := ReachesWithout(t, b, f);
      } else {
        var m := EvalsWithout(v, b, f);
        if op.Plain? && t.Collection? { a := BindsWithout(t, m, f); } else { a := StoresWithout(t, m, f); }
      }
    case _ => a := ReachesWithout(e, b, f);
  }

  lemma {:induction false} NotEvery(es: seq<Expr>, f: string) returns (i: nat)
    requires !MustEvery(es, f)
    ensures i < |es| && !Must(es[i], f)
  {
    if !Must(es[0], f) { i := 0; } else { i := NotEvery(es[1..], f); i := i + 1; }
  }

  lemma {:induction false} EvalsAllWithout(es: seq<Expr>, b: Fields, f: string) returns (a: Fields)
    requires !MustAny(es, f) && f !in b
    ensures EvalsAll(es, b, true, a) && f !in a
    decreases es, 0
  {
    if es == [] { a := b; } else {
      var m := EvalsWithout(es[0], b, f);
      a := EvalsAllWithout(es[1..], m, f);
    }
  }

  lemma {:induction false} ReachesWithout(t: Expr, b: Fields, f: string) returns (a: Fields)
    requires !MustReach(t, f) && f !in b
    ensures Reaches(t, b, true, a) && f !in a
    decreases t, 0
  {
    match t
    case Field(o, _) => a := EvalsWithout(o, b, f);
    case Index(ps) => a := EvalsAllWithout(ps, b, f);
    case _ => a := b;
  }

  lemma {:induction false} StoresWithout(t: Expr, b: Fields, f: string) returns (a: Fields)
    requires !MustStore(t, f) && f !in b
    ensures Stores(t, b, true, a) && f !in a
    decreases t, 1
  {
    var m := ReachesWithout(t, b, f);
    a := m + Stored(t);
  }

  lemma {:induction false} BindsWithout(t: Expr, b: Fields, f: string) returns (a: Fields)
    requires !MustBind(t, f) && f !in b
    ensures Binds(t, b, true, a) && f !in a
    decreases t, 2
  {
    match t
    case Collection(ps) => a := BindsAllWithout(ps, b, f);
    case ComputedKey(k) => a := EvalsWithout(k, b, f);
    case Assign(Plain, inner, _) => a := BindsWithout(inner, b, f);
    case _ => a := StoresWithout(t, b, f);
  }

  lemma {:induction false} BindsAllWithout(ps: seq<Expr>, b: Fields, f: string) returns (a: Fields)
    requires !MustBindAny(ps, f) && f !in b
    ensures BindsAll(ps, b, true, a) && f !in a
    decreases ps, 0
  {
    if ps == [] { a := b; } else {
      var m := BindsWithout(ps[0], b, f);
      a := BindsAllWithout(ps[1..], m, f);
    }
  }

  // --- statements ----------------------------------------------------------------

  function MayThrow(es: seq<Expr>): set<Outcome> {
    if es == [] then {} else {Threw}
  }

  /** Ends like `x`, except that a normal end goes on to end like `y`. */
  function Then(x: set<Outcome>, y: set<Outcome>): set<Outcome> {
    (x - {Normal}) + (if Normal in x then y else {})
  }

  /** The outcomes that some run of `s` reaches without assigning `f`. */
  function Avoid(s: Stmt, labels: set<string>, f: string): set<Outcome>
    decreases s, 1
  {
    if Straight(s) then
      MayThrow(Operands(s)) + (if MustAny(Operands(s), f) then {} else {Leaving(s)})
    else match s
      case Block(ss) => AvoidAll(ss, f)
      case If(t, c, alt) =>
        {Threw} + (if Must(t, f) then {}
                   else Avoid(c, {}, f) + (if alt.Some? then Avoid(alt.value, {}, f) else {Normal}))
      case Loop(h, body) =>
        MayThrow(Init(h)) + (if MustAny(Init(h), f) then {} else AvoidTurns(h, Avoid(body, {}, f), labels, f))
      case Switch(d, cs) => {Threw} + (if Must(d, f) then {} else AvoidCases(cs, f))
      case Try(block, catches, fin) =>
        var x := Avoid(block, {}, f);
        var y := (x - {Threw}) + (if Threw in x then AvoidCatches(catches, f) else {});
        if fin.Some? then AvoidFinally(y, Avoid(fin.value, {}, f)) else y
      case Labeled(l, body) =>
        set o | o in Avoid(body, labels + {l}, f) :: LabelOutcome(o, l)
  }

  function AvoidAll(ss: seq<Stmt>, f: string): set<Outcome>
    decreases ss, 0
  {
    if ss == [] then {Normal} else Then(Avoid(ss[0], {}, f), AvoidAll(ss[1..], f))
  }

  /** Some turn of the loop leaves `f` unassigned and goes on. */
  predicate MayRepeat(inBody: set<Outcome>, labels: set<string>) {
    exists o :: o in inBody && GoesOn(o, labels)
  }

  predicate BodyReached(h: LoopHead, f: string) {
    h.DoWhile? || !MustAny(Test(h), f)
  }

  predicate TestReached(h: LoopHead, inBody: set<Outcome>, labels: set<string>, f: string) {
    h.DoWhile? ==> MayRepeat(inBody, labels) && !MustAny(Update(h), f)
  }

  function AvoidTurns(h: LoopHead, inBody: set<Outcome>, labels: set<string>, f: string): set<Outcome> {
    (if TestReached(h, inBody, labels, f) then
       MayThrow(Test(h)) + (if CanStop(h) && !MustAny(Test(h), f) then {Normal} else {})
     else {})
    + (if BodyReached(h, f) then
         (set o | o in inBody && !GoesOn(o, labels) :: LoopOutcome(o))
         + (if MayRepeat(inBody, labels) then MayThrow(Update(h)) else {})
       else {})
  }

  function AvoidCases(cs: seq<Case>, f: string): set<Outcome>
    decreases cs, 0
  {
    if cs == [] then {Normal}
    else if cs[0].test.Some? then
      {Threw} + (if Must(cs[0].test.value, f) then {} else AvoidCase(cs[0], f) + AvoidCases(cs[1..], f))
    else Then(AvoidCase(cs[0], f), AvoidCases(cs[1..], f))
  }

  function AvoidCase(c: Case, f: string): set<Outcome>
    decreases c, 0
  {
    AvoidAll(CaseBody(c), f)
  }

  function AvoidCatches(catches: seq<Catch>, f: string): set<Outcome>
    decreases catches, 0
  {
    (if forall c :: c in catches ==> c.typed then {Threw} else {}) + AvoidClauses(catches, f)
  }

  function AvoidClauses(catches: seq<Catch>, f: string): set<Outcome>
    decreases catches, 0, 0
  {
    if catches == [] then {} else AvoidClause(catches[0], f) + AvoidClauses(catches[1..], f)
  }

  function AvoidClause(c: Catch, f: string): set<Outcome>
    decreases c, 0
  {
    Avoid(c.body, {}, f)
  }

  function AvoidFinally(y: set<Outcome>, z: set<Outcome>): set<Outcome> {
    if y == {} then {} else (z - {Normal}) + (if Normal in z then y else {})
  }

  // A run that ends without `f` assigned began without it and ends as foreseen.

  lemma {:induction false} RunsAreForeseen(s: Stmt, labels: set<string>, b: Fields, o: Outcome, a: Fields, f: string)
    requires Ends(s, labels, b, o, a) && f !in a
    ensures f !in b && o in Avoid(s, labels, f)
    decreases s, 1, 0
  {
    if Straight(s) {
      StraightForeseen(s, labels, b, o, a, f);
    } else {
      match s
      case Block(ss) => AllForeseen(ss, b, o, a, f);
      case If(_, _, _) => IfForeseen(s, labels, b, o, a, f);
      case Loop(_, _) => LoopForeseen(s, labels, b, o, a, f);
      case Switch(d, cs) =>
        if o == Threw && Evals(d, b, false, a) {
          EvalsSound(d, b, false, a, f);
        } else {
          var m :| Evals(d, b, true, m) && Switches(cs, m, o, a);
          SwitchForeseen(cs, m, o, a, f);
          EvalsSound(d, b, true, m, f);
        }
      case Try(_, _, _) => TryForeseen(s, labels, b, o, a, f);
      case Labeled(l, body) =>
        var p: Outcome :| Ends(body, labels + {l}, b, p, a) && o == LabelOutcome(p, l);
        RunsAreForeseen(body, labels + {l}, b, p, a, f);
    }
  }

  lemma StraightForeseen(s: Stmt, labels: set<string>, b: Fields, o: Outcome, a: Fields, f: string)
    requires Straight(s) && Ends(s, labels, b, o, a) && f !in a
    ensures f !in b && o in Avoid(s, labels, f)
  {
    hide Evals, Must;
    if o == Leaving(s) && EvalsAll(Operands(s), b, true, a) {
      EvalsAllSound(Operands(s), b, true, a, f);
    } else {
      EvalsAllSound(Operands(s), b, false, a, f);
    }
  }

  lemma {:induction false} AllForeseen(ss: seq<Stmt>, b: Fields, o: Outcome, a: Fields, f: string)
    requires EndsAll(ss, b, o, a) && f !in a
    ensures f !in b && o in AvoidAll(ss, f)
    decreases ss, 0, 0
  {
    hide Ends, Avoid;
    if ss == [] {
    } else if o != Normal && Ends(ss[0], {}, b, o, a) {
      RunsAreForeseen(ss[0], {}, b, o, a, f);
    } else {
      var m :| Ends(ss[0], {}, b, Normal, m) && EndsAll(ss[1..], m, o, a);
      AllForeseen(ss[1..], m, o, a, f);
      RunsAreForeseen(ss[0], {}, b, Normal, m, f);
    }
  }

  lemma {:induction false} IfForeseen(s: Stmt, labels: set<string>, b: Fields, o: Outcome, a: Fields, f: string)
    requires s.If? && Ends(s, labels, b, o, a) && f !in a
    ensures f !in b && o in Avoid(s, labels, f)
    decreases s, 0, 0
  {
    var t, c, alt := s.test, s.consequent, s.alternate;
    if o == Threw && Evals(t, b, false, a) {
      EvalsSound(t, b, false, a, f);
    } else {
      var m :| && Evals(t, b, true, m)
               && (Ends(c, {}, m, o, a)
                   || (if alt.Some? then Ends(alt.value, {}, m, o, a) else o == Normal && a == m));
      if Ends(c, {}, m, o, a) { RunsAreForeseen(c, {}, m, o, a, f); }
      else if alt.Some? { RunsAreForeseen(alt.value, {}, m, o, a, f); }
      EvalsSound(t, b, true, m, f);
    }
  }

  lemma {:induction false} LoopForeseen(s: Stmt, labels: set<string>, b: Fields, o: Outcome, a: Fields, f: string)
    requires s.Loop? && Ends(s, labels, b, o, a) && f !in a
    ensures f !in b && o in Avoid(s, labels, f)
    decreases s, 0, 0
  {
    var h, body := s.head, s.body;
    if o == Threw && EvalsAll(Init(h), b, false, a) {
      EvalsAllSound(Init(h), b, false, a, f);
    } else {
      var m, n: nat :| EvalsAll(Init(h), b, true, m) && Turns(h, body, labels, h.DoWhile?, n, m, o, a);
      TurnsForeseen(h, body, labels, h.DoWhile?, n, m, o, a, f);
      EvalsAllSound(Init(h), b, true, m, f);
    }
  }

  predicate Reached(h: LoopHead, inBody: set<Outcome>, labels: set<string>, atBody: bool, f: string) {
    if atBody then BodyReached(h, f) else TestReached(h, inBody, labels, f)
  }

  lemma LeavingForeseen(h: LoopHead, inBody: set<Outcome>, labels: set<string>, p: Outcome, f: string)
    requires p in inBody && !GoesOn(p, labels) && BodyReached(h, f)
    ensures LoopOutcome(p) in AvoidTurns(h, inBody, labels, f)
  {
  }

  lemma {:induction false} TurnsForeseen(h: LoopHead, body: Stmt, labels: set<string>, atBody: bool, n: nat,
                                         b: Fields, o: Outcome, a: Fields, f: string)
    requires Turns(h, body, labels, atBody, n, b, o, a) && f !in a
    ensures f !in b
    ensures var inBody := Avoid(body, {}, f);
            Reached(h, inBody, labels, atBody, f) ==> o in AvoidTurns(h, inBody, labels, f)
    decreases body, 2, n
  {
    hide Avoid, AvoidTurns, BodyReached, Ends, MayRepeat, Updates, Turns, TestReached;
    if atBody {
      var inBody := Avoid(body, {}, f);
      var p, m := BodyCases(h, body, labels, n, b, o, a);
      if GoesOn(p, labels) {
        UpdatesForeseen(h, body, labels, n, m, o, a, f);
        RunsAreForeseen(body, {}, b, p, m, f);
        Repeats(inBody, labels, p);
      } else {
        RunsAreForeseen(body, {}, b, p, m, f);
        if BodyReached(h, f) { LeavingForeseen(h, inBody, labels, p, f); }
      }
    } else {
      TestForeseen(h, body, labels, n, b, o, a, f);
    }
  }

  lemma Repeats(inBody: set<Outcome>, labels: set<string>, p: Outcome)
    requires p in inBody && GoesOn(p, labels)
    ensures MayRepeat(inBody, labels)
  {
  }

  predicate TestEnds(h: LoopHead, o: Outcome, f: string) {
    o in MayThrow(Test(h)) || (o == Normal && CanStop(h) && !MustAny(Test(h), f))
  }

  lemma TestEndForeseen(h: LoopHead, inBody: set<Outcome>, labels: set<string>, o: Outcome, f: string)
    requires TestReached(h, inBody, labels, f) && TestEnds(h, o, f)
    ensures o in AvoidTurns(h, inBody, labels, f)
  {
    hide MustAny, MayRepeat, MayThrow;
  }

  lemma {:induction false} TestForeseen(h: LoopHead, body: Stmt, labels: set<string>, n: nat,
                                        b: Fields, o: Outcome, a: Fields, f: string)
    requires Turns(h, body, labels, false, n, b, o, a) && f !in a
    ensures f !in b
    ensures var inBody := Avoid(body, {}, f);
            TestReached(h, inBody, labels, f) ==> o in AvoidTurns(h, inBody, labels, f)
    decreases body, 2, n, 0
  {
    hide Avoid, AvoidTurns, Ends, EvalsAll, MustAny, MayRepeat, Updates, TestReached, Turns;
    var inBody := Avoid(body, {}, f);
    var m := TestCases(h, body, labels, n, b, o, a);
    if o == Threw && EvalsAll(Test(h), b, false, a) {
      EvalsAllSound(Test(h), b, false, a, f);
      NothingThrows(Test(h), b, a);
      if TestReached(h, inBody, labels, f) { TestEndForeseen(h, inBody, labels, o, f); }
    } else if CanStop(h) && o == Normal && a == m {
      EvalsAllSound(Test(h), b, true, m, f);
      if TestReached(h, inBody, labels, f) { TestEndForeseen(h, inBody, labels, o, f); }
    } else {
      TurnsForeseen(h, body, labels, true, n - 1, m, o, a, f);
      EvalsAllSound(Test(h), b, true, m, f);
      TestLeadsOn(h, inBody, labels, f);
    }
  }

  lemma TestLeadsOn(h: LoopHead, inBody: set<Outcome>, labels: set<string>, f: string)
    requires !MustAny(Test(h), f)
    ensures TestReached(h, inBody, labels, f) ==> Reached(h, inBody, labels, true, f)
  {
    hide MustAny, MayRepeat;
  }

  lemma {:induction false} UpdatesForeseen(h: LoopHead, body: Stmt, labels: set<string>, n: nat,
                                           b: Fields, o: Outcome, a: Fields, f: string)
    requires Updates(h, body, labels, n, b, o, a) && f !in a
    ensures f !in b
    ensures var inBody := Avoid(body, {}, f);
            BodyReached(h, f) && MayRepeat(inBody, labels) ==> o in AvoidTurns(h, inBody, labels, f)
    decreases body, 2, n, 0
  {
    hide Avoid, Ends, EvalsAll, MustAny, MayRepeat, Turns, Updates;
    var m := UpdateCases(h, body, labels, n, b, o, a);
    if o == Threw && EvalsAll(Update(h), b, false, a) {
      EvalsAllSound(Update(h), b, false, a, f);
      NothingThrows(Update(h), b, a);
    } else {
      TurnsForeseen(h, body, labels, false, n - 1, m, o, a, f);
      EvalsAllSound(Update(h), b, true, m, f);
    }
  }

  lemma NothingThrows(es: seq<Expr>, b: Fields, a: Fields)
    requires EvalsAll(es, b, false, a)
    ensures es != []
  {
  }

  lemma {:induction false} SwitchForeseen(cs: seq<Case>, b: Fields, o: Outcome, a: Fields, f: string)
    requires Switches(cs, b, o, a) && f !in a
    ensures f !in b && o in AvoidCases(cs, f)
    decreases cs, 0, 0
  {
    hide Evals, Must, CaseEnds, AvoidCase;
    if cs == [] {
    } else {
      var c := cs[0];
      if c.test.Some? {
        var t := c.test.value;
        if o == Threw && Evals(t, b, false, a) {
          EvalsSound(t, b, false, a, f);
        } else {
          var m :| && Evals(t, b, true, m) && (CaseEnds(c, m, o, a) || Switches(cs[1..], m, o, a));
          if CaseEnds(c, m, o, a) { CaseForeseen(c, m, o, a, f); } else { SwitchForeseen(cs[1..], m, o, a, f); }
          EvalsSound(t, b, true, m, f);
        }
      } else if o != Normal && CaseEnds(c, b, o, a) {
        CaseForeseen(c, b, o, a, f);
      } else {
        var m :| CaseEnds(c, b, Normal, m) && Switches(cs[1..], m, o, a);
        SwitchForeseen(cs[1..], m, o, a, f);
        CaseForeseen(c, b, Normal, m, f);
      }
    }
  }

  lemma {:induction false} CaseForeseen(c: Case, b: Fields, o: Outcome, a: Fields, f: string)
    requires CaseEnds(c, b, o, a) && f !in a
    ensures f !in b && o in AvoidCase(c, f)
    decreases c, 0, 0
  {
    AllForeseen(CaseBody(c), b, o, a, f);
  }

  lemma {:induction false} TryForeseen(s: Stmt, labels: set<string>, b: Fields, o: Outcome, a: Fields, f: string)
    requires s.Try? && Ends(s, labels, b, o, a) && f !in a
    ensures f !in b && o in Avoid(s, labels, f)
    decreases s, 0, 1
  {
    var fin := s.cleanup;
    var p: Outcome, m: Fields :| && Caught(s, b, p, m)
             && if fin.Some? then Finishes(fin.value, p, m, o, a) else o == p && a == m;
    if fin.Some? {
      if o == p && Ends(fin.value, {}, m, Normal, a) { RunsAreForeseen(fin.value, {}, m, Normal, a, f); }
      else { RunsAreForeseen(fin.value, {}, m, o, a, f); }
    }
    CaughtForeseen(s, b, p, m, f);
  }

  /** What the block and its clauses leave to `finally`. */
  function AvoidCaught(s: Stmt, f: string): set<Outcome>
    requires s.Try?
  {
    var x := Avoid(s.block, {}, f);
    (x - {Threw}) + (if Threw in x then AvoidCatches(s.catches, f) else {})
  }

  lemma {:induction false} CaughtForeseen(s: Stmt, b: Fields, o: Outcome, a: Fields, f: string)
    requires s.Try? && Caught(s, b, o, a) && f !in a
    ensures f !in b && o in AvoidCaught(s, f)
    decreases s, 0, 0
  {
    hide Ends, Avoid;
    if o != Threw && Ends(s.block, {}, b, o, a) {
      RunsAreForeseen(s.block, {}, b, o, a, f);
    } else {
      var m :| Ends(s.block, {}, b, Threw, m) && Handles(s.catches, m, o, a);
      if exists i :: 0 <= i < |s.catches| && CatchEnds(s.catches[i], m, o, a) {
        var i :| 0 <= i < |s.catches| && CatchEnds(s.catches[i], m, o, a);
        ClauseForeseen(s.catches[i], m, o, a, f);
        ClauseIn(s.catches, i, f);
      }
      RunsAreForeseen(s.block, {}, b, Threw, m, f);
    }
  }

  lemma {:induction false} ClauseForeseen(c: Catch, b: Fields, o: Outcome, a: Fields, f: string)
    requires CatchEnds(c, b, o, a) && f !in a
    ensures f !in b && o in AvoidClause(c, f)
    decreases c, 0, 0
  {
    RunsAreForeseen(c.body, {}, b, o, a, f);
  }

  lemma {:induction false} ClauseIn(catches: seq<Catch>, i: nat, f: string)
    requires i < |catches|
    ensures AvoidClause(catches[i], f) <= AvoidClauses(catches, f)
    decreases i
  {
    if i > 0 { ClauseIn(catches[1..], i - 1, f); }
  }

  // Every outcome foreseen has a run, from any start without `f`, that leaves `f` unassigned.

  lemma {:induction false} RunWithout(s: Stmt, labels: set<string>, b: Fields, o: Outcome, f: string)
    returns (a: Fields)
    requires o in Avoid(s, labels, f) && f !in b
    ensures Ends(s, labels, b, o, a) && f !in a
    decreases s, 1, 0
  {
    if Straight(s) {
      a := StraightWithout(s, labels, b, o, f);
    } else {
      match s
      case Block(ss) => a := AllWithout(ss, b, o, f);
      case If(_, _, _) => a := IfWithout(s, labels, b, o, f);
      case Loop(_, _) => a := LoopWithout(s, labels, b, o, f);
      case Switch(d, cs) =>
        if o == Threw {
          a := b;
          ThrowsAtOnce(d, b);
        } else {
          var m := EvalsWithout(d, b, f);
          a := SwitchWithout(cs, m, o, f);
        }
      case Try(_, _, _) => a := TryWithout(s, labels, b, o, f);
      case Labeled(l, body) =>
        var p :| p in Avoid(body, labels + {l}, f) && o == LabelOutcome(p, l);
        a := RunWithout(body, labels + {l}, b, p, f);
    }
  }

  lemma StraightWithout(s: Stmt, labels: set<string>, b: Fields, o: Outcome, f: string) returns (a: Fields)
    requires Straight(s) && o in Avoid(s, labels, f) && f !in b
    ensures Ends(s, labels, b, o, a) && f !in a
  {
    hide Evals, Must;
    if !MustAny(Operands(s), f) && o == Leaving(s) {
      a := EvalsAllWithout(Operands(s), b, f);
    } else {
      a := b;
      StopsAtOnce(Operands(s), b);
    }
  }

  lemma {:induction false} AllWithout(ss: seq<Stmt>, b: Fields, o: Outcome, f: string) returns (a: Fields)
    requires o in AvoidAll(ss, f) && f !in b
    ensures EndsAll(ss, b, o, a) && f !in a
    decreases ss, 0, 0
  {
    hide Ends, Avoid;
    if ss == [] {
      a := b;
    } else if o != Normal && o in Avoid(ss[0], {}, f) {
      a := RunWithout(ss[0], {}, b, o, f);
    } else {
      var m := RunWithout(ss[0], {}, b, Normal, f);
      a := AllWithout(ss[1..], m, o, f);
    }
  }

  lemma {:induction false} IfWithout(s: Stmt, labels: set<string>, b: Fields, o: Outcome, f: string) returns (a: Fields)
    requires s.If? && o in Avoid(s, labels, f) && f !in b
    ensures Ends(s, labels, b, o, a) && f !in a
    decreases s, 0, 0
  {
    if Must(s.test, f) {
      a := b;
      ThrowsAtOnce(s.test, b);
    } else {
      var m := EvalsWithout(s.test, b, f);
      if o in Avoid(s.consequent, {}, f) {
        a := RunWithout(s.consequent, {}, m, o, f);
      } else if s.alternate.Some? && o in Avoid(s.alternate.value, {}, f) {
        a := RunWithout(s.alternate.value, {}, m, o, f);
      } else if o == Threw {
        a := b;
        ThrowsAtOnce(s.test, b);
      } else {
        a := m;
      }
    }
  }

  lemma {:induction false} LoopWithout(s: Stmt, labels: set<string>, b: Fields, o: Outcome, f: string)
    returns (a: Fields)
    requires s.Loop? && o in Avoid(s, labels, f) && f !in b
    ensures Ends(s, labels, b, o, a) && f !in a
    decreases s, 0, 0
  {
    hide EvalsAll, MustAny, AvoidTurns, Turns;
    var h, body := s.head, s.body;
    if MustAny(Init(h), f) || o !in AvoidTurns(h, Avoid(body, {}, f), labels, f) {
      a := b;
      StopsAtOnce(Init(h), b);
    } else {
      var m := EvalsAllWithout(Init(h), b, f);
      a := TurnsWithout(h, body, labels, m, o, f);
      var n: nat :| Turns(h, body, labels, h.DoWhile?, n, m, o, a);
    }
  }

  /** The outcomes of the loop that come from a turn of the body. */
  predicate BodyEnds(h: LoopHead, inBody: set<Outcome>, labels: set<string>, o: Outcome) {
    || (exists p :: p in inBody && !GoesOn(p, labels) && o == LoopOutcome(p))
    || (MayRepeat(inBody, labels) && o in MayThrow(Update(h)))
  }

  lemma TurnsEnd(h: LoopHead, inBody: set<Outcome>, labels: set<string>, o: Outcome, f: string)
    requires o in AvoidTurns(h, inBody, labels, f)
    ensures || (BodyReached(h, f) && BodyEnds(h, inBody, labels, o))
            || (TestReached(h, inBody, labels, f) && TestEnds(h, o, f))
  {
    hide MustAny, MayRepeat, MayThrow, TestReached, BodyReached;
  }

  /** From the loop's start, a run to each outcome takes at most one turn of the body. */
  lemma {:induction false} TurnsWithout(h: LoopHead, body: Stmt, labels: set<string>, b: Fields, o: Outcome, f: string)
    returns (a: Fields)
    requires o in AvoidTurns(h, Avoid(body, {}, f), labels, f) && f !in b
    ensures f !in a && exists n: nat :: Turns(h, body, labels, h.DoWhile?, n, b, o, a)
    decreases body, 2, 2
  {
    hide Avoid, AvoidTurns, Ends, EvalsAll, MustAny, MayRepeat, Turns, TestEnds, TestReached, BodyEnds;
    var inBody := Avoid(body, {}, f);
    TurnsEnd(h, inBody, labels, o, f);
    if BodyReached(h, f) && BodyEnds(h, inBody, labels, o) {
      var before := b;
      if !h.DoWhile? { before := EvalsAllWithout(Test(h), b, f); }
      a := BodyWithout(h, body, labels, before, o, f);
      StartAtBody(h, body, labels, 0, b, before, o, a);
    } else {
      a := TestWithout(h, body, labels, b, o, f);
    }
  }

  lemma {:induction false} BodyWithout(h: LoopHead, body: Stmt, labels: set<string>, b: Fields, o: Outcome, f: string)
    returns (a: Fields)
    requires BodyEnds(h, Avoid(body, {}, f), labels, o) && f !in b
    ensures f !in a && Turns(h, body, labels, true, 0, b, o, a)
    decreases body, 2, 1
  {
    hide Avoid, Ends, EvalsAll, MayRepeat;
    var inBody := Avoid(body, {}, f);
    if p :| p in inBody && !GoesOn(p, labels) && o == LoopOutcome(p) {
      a := RunWithout(body, {}, b, p, f);
    } else {
      a := RepeatWithout(body, labels, b, f);
      StopsAtOnce(Update(h), a);
      assert Updates(h, body, labels, 0, a, o, a);
      RepeatThen(h, body, labels, 0, b, a, o, a);
    }
  }

  /** A turn of the body that goes on, and what follows it. */
  ghost predicate GoingTurn(body: Stmt, labels: set<string>, b: Fields, a: Fields) {
    exists p: Outcome :: GoesOn(p, labels) && Ends(body, {}, b, p, a)
  }

  lemma {:induction false} RepeatWithout(body: Stmt, labels: set<string>, b: Fields, f: string) returns (a: Fields)
    requires MayRepeat(Avoid(body, {}, f), labels) && f !in b
    ensures GoingTurn(body, labels, b, a) && f !in a
    decreases body, 2, 0
  {
    hide Avoid, Ends;
    var p :| p in Avoid(body, {}, f) && GoesOn(p, labels);
    a := RunWithout(body, {}, b, p, f);
  }

  lemma RepeatThen(h: LoopHead, body: Stmt, labels: set<string>, n: nat, b: Fields, m: Fields, o: Outcome, a: Fields)
    requires GoingTurn(body, labels, b, m) && Updates(h, body, labels, n, m, o, a)
    ensures Turns(h, body, labels, true, n, b, o, a)
  {
    hide Ends, Updates;
    var p: Outcome :| GoesOn(p, labels) && Ends(body, {}, b, p, m);
  }

  lemma StartAtBody(h: LoopHead, body: Stmt, labels: set<string>, n: nat, b: Fields, m: Fields, o: Outcome, a: Fields)
    requires Turns(h, body, labels, true, n, m, o, a)
    requires if h.DoWhile? then m == b else EvalsAll(Test(h), b, true, m)
    ensures exists k: nat :: Turns(h, body, labels, h.DoWhile?, k, b, o, a)
  {
    hide Ends, EvalsAll, Updates;
    if !h.DoWhile? {
      assert Turns(h, body, labels, false, n + 1, b, o, a) by {
        assert EvalsAll(Test(h), b, true, m) && n + 1 > 0 && Turns(h, body, labels, true, n + 1 - 1, m, o, a);
      }
    }
  }

  /** The outcomes of the test itself, before the first turn or after a repeated one. */
  lemma {:induction false} TestWithout(h: LoopHead, body: Stmt, labels: set<string>, b: Fields, o: Outcome, f: string)
    returns (a: Fields)
    requires TestReached(h, Avoid(body, {}, f), labels, f) && TestEnds(h, o, f) && f !in b
    ensures f !in a && exists n: nat :: Turns(h, body, labels, h.DoWhile?, n, b, o, a)
    decreases body, 2, 1
  {
    hide Avoid, Ends, EvalsAll, MustAny, MayRepeat;
    var before, turned := b, b;
    if h.DoWhile? {
      turned := RepeatWithout(body, labels, b, f);
      before := EvalsAllWithout(Update(h), turned, f);
    }
    if o in MayThrow(Test(h)) {
      a := before;
      StopsAtOnce(Test(h), before);
    } else {
      a := EvalsAllWithout(Test(h), before, f);
    }
    assert Turns(h, body, labels, false, 0, before, o, a);
    if h.DoWhile? {
      assert Updates(h, body, labels, 1, turned, o, a) by {
        assert EvalsAll(Update(h), turned, true, before) && Turns(h, body, labels, false, 1 - 1, before, o, a);
      }
      RepeatThen(h, body, labels, 1, b, turned, o, a);
    }
  }

  lemma {:induction false} SwitchWithout(cs: seq<Case>, b: Fields, o: Outcome, f: string) returns (a: Fields)
    requires o in AvoidCases(cs, f) && f !in b
    ensures Switches(cs, b, o, a) && f !in a
    decreases cs, 0, 0
  {
    hide Evals, Must, CaseEnds, AvoidCase;
    if cs == [] {
      a := b;
    } else {
      var c := cs[0];
      if c.test.Some? {
        if o == Threw {
          a := b;
          ThrowsAtOnce(c.test.value, b);
        } else {
          var m := EvalsWithout(c.test.value, b, f);
          if o in AvoidCase(c, f) { a := CaseWithout(c, m, o, f); } else { a := SwitchWithout(cs[1..], m, o, f); }
        }
      } else if o != Normal && o in AvoidCase(c, f) {
        a := CaseWithout(c, b, o, f);
      } else {
        var m := CaseWithout(c, b, Normal, f);
        a := SwitchWithout(cs[1..], m, o, f);
      }
    }
  }

  lemma {:induction false} CaseWithout(c: Case, b: Fields, o: Outcome, f: string) returns (a: Fields)
    requires o in AvoidCase(c, f) && f !in b
    ensures CaseEnds(c, b, o, a) && f !in a
    decreases c, 0, 0
  {
    a := AllWithout(CaseBody(c), b, o, f);
  }

  lemma {:induction false} TryWithout(s: Stmt, labels: set<string>, b: Fields, o: Outcome, f: string)
    returns (a: Fields)
    requires s.Try? && o in Avoid(s, labels, f) && f !in b
    ensures Ends(s, labels, b, o, a) && f !in a
    decreases s, 0, 1
  {
    hide Caught, AvoidCatches;
    var fin := s.cleanup;
    if fin.None? {
      a := CaughtWithout(s, b, o, f);
    } else if o in AvoidCaught(s, f) && Normal in Avoid(fin.value, {}, f) {
      var m := CaughtWithout(s, b, o, f);
      a := RunWithout(fin.value, {}, m, Normal, f);
      assert Finishes(fin.value, o, m, o, a);
    } else {
      var p :| p in AvoidCaught(s, f);
      var m := CaughtWithout(s, b, p, f);
      a := RunWithout(fin.value, {}, m, o, f);
      assert Finishes(fin.value, p, m, o, a);
    }
  }

  lemma {:induction false} CaughtWithout(s: Stmt, b: Fields, o: Outcome, f: string) returns (a: Fields)
    requires s.Try? && o in AvoidCaught(s, f) && f !in b
    ensures Caught(s, b, o, a) && f !in a
    decreases s, 0, 0
  {
    hide Ends, Avoid, AvoidClauses, CatchEnds;
    if o != Threw && o in Avoid(s.block, {}, f) {
      a := RunWithout(s.block, {}, b, o, f);
    } else {
      var m := RunWithout(s.block, {}, b, Threw, f);
      if o in AvoidClauses(s.catches, f) {
        var i := ClauseOf(s.catches, o, f);
        a := ClauseWithout(s.catches[i], m, o, f);
      } else {
        a := m;
      }
      assert Handles(s.catches, m, o, a);
    }
  }

  lemma {:induction false} ClauseOf(catches: seq<Catch>, o: Outcome, f: string) returns (i: nat)
    requires o in AvoidClauses(catches, f)
    ensures i < |catches| && o in AvoidClause(catches[i], f)
  {
    hide AvoidClause;
    if o in AvoidClause(catches[0], f) { i := 0; } else { i := ClauseOf(catches[1..], o, f); i := i + 1; }
  }

  lemma {:induction false} ClauseWithout(c: Catch, b: Fields, o: Outcome, f: string) returns (a: Fields)
    requires o in AvoidClause(c, f) && f !in b
    ensures CatchEnds(c, b, o, a) && f !in a
    decreases c, 0, 0
  {
    a := RunWithout(c.body, {}, b, o, f);
  }
}
