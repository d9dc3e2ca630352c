/**
  * The checker's types as trees, and the two operations of the type table that
  * inference is the inverse of: building a union and substituting type
  * parameters.  The source interns types, so that equal trees have equal ids.
  */
module TypeTerms {
  import opened Wrappers
  import NumberText

  datatype Primitive =
    Int | Float | Decimal | BigInt | Str | Char | Bool | Void | Null | Never | Dynamic | Error

  datatype Param = Param(name: Option<string>, ty: Type, optional: bool, isRest: bool)

  datatype Type =
    | Prim(p: Primitive)
    | Named(name: string, origin: Option<string>)
    | Generic(name: string, args: seq<Type>, origin: Option<string>)
    | Array(inner: Type)
    | Fn(params: seq<Param>, ret: Type, isArrow: bool, typeParams: seq<string>)
    | Union(members: seq<Type>)
    | Tuple(members: seq<Type>)
    | Object(fields: seq<Member>)
    | Conditional(check: Type, bound: Type, onTrue: Type, onFalse: Type)
    /** A kind that neither inference nor substitution looks into. */
    | Other(kind: string, parts: seq<Type>)

  datatype Member =
    | Property(name: string, ty: Type, optional: bool, isReadonly: bool)
    | Method(name: string, params: seq<Param>, ret: Type, optional: bool, isArrow: bool, typeParams: seq<string>)
    | Index(param: string, key: Type, value: Type)
    | Callable(params: seq<Param>, ret: Type, isArrow: bool)

  const NULL := Prim(Null)
  const NEVER := Prim(Never)
  const ERROR := Prim(Error)

  type Subst = map<string, Type>

  /** What a conditional type comes to: its parts are the type tested, the bound and the two outcomes. */
  type Evaluate = (Type, Type, Type, Type) -> Type

  // --- unions ---------------------------------------------------------------

  function WithoutNever(ms: seq<Type>): seq<Type> {
    if ms == [] then []
    else (if ms[0] == NEVER then [] else [ms[0]]) + WithoutNever(ms[1..])
  }

  /** Appends the members not yet present; `NEVER` never gets in. */
  function AddNew(flat: seq<Type>, ms: seq<Type>): seq<Type>
    decreases ms
  {
    if ms == [] then flat
    else AddNew(if ms[0] == NEVER || ms[0] in flat then flat else flat + [ms[0]], ms[1..])
  }

  function Flatten(flat: seq<Type>, ms: seq<Type>): seq<Type>
    decreases ms
  {
    if ms == [] then flat
    else Flatten(AddNew(flat, if ms[0].Union? then ms[0].members else [ms[0]]), ms[1..])
  }

  function UnionOf(ms: seq<Type>): Type {
    if ERROR in ms then ERROR
    else
      var kept := WithoutNever(ms);
      if ms != [] && kept == [] then NEVER
      else if |kept| == 1 && !kept[0].Union? then kept[0]
      else if |kept| == 2 && !kept[0].Union? && !kept[1].Union? then
        if kept[0] == kept[1] then kept[0] else Union(kept)
      else if kept == [] then Union([])
      else
        var flat := Flatten([], kept);
        if |flat| == 1 then flat[0] else Union(flat)
  }

  /** What a value of the type may be: a union's members apart, never nothing. */
  function Alternatives(t: Type): set<Type>
    decreases t
  {
    if t == NEVER then {} else if t.Union? then AllAlternatives(t.members) else {t}
  }

  function AllAlternatives(ts: seq<Type>): set<Type>
    decreases ts
  {
    if ts == [] then {} else Alternatives(ts[0]) + AllAlternatives(ts[1..])
  }

  lemma {:induction false} AlternativesOfMember(ts: seq<Type>, t: Type)
    requires t in ts
    ensures Alternatives(t) <= AllAlternatives(ts)
  {
    if t != ts[0] { AlternativesOfMember(ts[1..], t); }
  }

  lemma {:induction false} AlternativesOfJoin(a: seq<Type>, b: seq<Type>)
    ensures AllAlternatives(a + b) == AllAlternatives(a) + AllAlternatives(b)
  {
    if a == [] {
      assert a + b == b;
    } else {
      assert (a + b)[1..] == a[1..] + b;
      AlternativesOfJoin(a[1..], b);
    }
  }

  lemma {:induction false} NeverAddsNothing(ms: seq<Type>)
    ensures AllAlternatives(WithoutNever(ms)) == AllAlternatives(ms)
  {
    if ms != [] {
      NeverAddsNothing(ms[1..]);
      if ms[0] == NEVER {
        assert WithoutNever(ms) == WithoutNever(ms[1..]);
      } else {
        assert WithoutNever(ms)[1..] == WithoutNever(ms[1..]);
      }
    }
  }

  lemma {:induction false} AlternativesOfAddNew(flat: seq<Type>, ms: seq<Type>)
    ensures AllAlternatives(AddNew(flat, ms)) == AllAlternatives(flat) + AllAlternatives(ms)
    decreases ms
  {
    if ms != [] {
      if ms[0] == NEVER || ms[0] in flat {
        AlternativesOfAddNew(flat, ms[1..]);
        if ms[0] in flat { AlternativesOfMember(flat, ms[0]); }
      } else {
        AlternativesOfAddNew(flat + [ms[0]], ms[1..]);
        AlternativesOfJoin(flat, [ms[0]]);
        assert AllAlternatives([ms[0]]) == Alternatives(ms[0]) + AllAlternatives([ms[0]][1..]);
      }
    }
  }

  lemma {:induction false} AlternativesOfFlatten(flat: seq<Type>, ms: seq<Type>)
    ensures AllAlternatives(Flatten(flat, ms)) == AllAlternatives(flat) + AllAlternatives(ms)
    decreases ms
  {
    if ms != [] {
      var inner := if ms[0].Union? then ms[0].members else [ms[0]];
      assert AllAlternatives(inner) == Alternatives(ms[0]) by {
        if !ms[0].Union? { assert inner[1..] == []; }
      }
      AlternativesOfAddNew(flat, inner);
      AlternativesOfFlatten(AddNew(flat, inner), ms[1..]);
    }
  }

  /** A union offers what its members offer, neither more nor less, unless one of them is the error type. */
  lemma UnionOffersAll(ms: seq<Type>)
    ensures if ERROR in ms then UnionOf(ms) == ERROR else Alternatives(UnionOf(ms)) == AllAlternatives(ms)
  {
    var kept := WithoutNever(ms);
    NeverAddsNothing(ms);
    AlternativesOfFlatten([], kept);
    if |kept| == 1 { assert kept[1..] == []; }
    if |kept| == 2 { assert kept[1..] == [kept[1]] && kept[1..][1..] == []; }
    var flat := Flatten([], kept);
    if |flat| == 1 { assert flat[1..] == []; }
  }

  // --- substitution -----------------------------------------------------------

  /** The parameter behind a rest slot written `...xs: T` or `...xs: T[]`. */
  function PackName(ty: Type): Option<string> {
    match ty
    case Named(n, _) => Some(n)
    case Array(Named(n, _)) => Some(n)
    case _ => None
  }

  /** A rest parameter whose type stands for a tuple expands to its slots. */
  predicate Expands(p: Param, sigma: Subst) {
    && p.isRest && PackName(p.ty).Some? && PackName(p.ty).value in sigma
    && sigma[PackName(p.ty).value].Tuple?
  }

  function Slots(members: seq<Type>): (ps: seq<Param>)
    ensures |ps| == |members|
    ensures forall i :: 0 <= i < |ps| ==> ps[i].ty == members[i]
  {
    seq(|members|, i requires 0 <= i < |members| =>
      Param(Some("arg" + NumberText.Digits(i)), members[i], false, false))
  }

  function Substitute(t: Type, ev: Evaluate, sigma: Subst): Type
    decreases t
  {
    match t
    case Named(n, _) => if n in sigma then sigma[n] else t
    case Generic(n, args, o) => Generic(n, SubstituteAll(args, ev, sigma), o)
    case Array(inner) => Array(Substitute(inner, ev, sigma))
    case Union(ms) => UnionOf(SubstituteAll(ms, ev, sigma))
    case Tuple(ms) => Tuple(SubstituteAll(ms, ev, sigma))
    case Fn(ps, ret, arrow, tps) => Fn(SubstituteParams(ps, ev, sigma), Substitute(ret, ev, sigma), arrow, tps)
    case Object(fields) => Object(SubstituteMembers(fields, ev, sigma))
    case Conditional(c, b, x, y) =>
      var c', b' := Substitute(c, ev, sigma), Substitute(b, ev, sigma);
      var x', y' := Substitute(x, ev, sigma), Substitute(y, ev, sigma);
      if c' != c then ev(c', b', x', y') else Conditional(c', b', x', y')
    case _ => t
  }

  /** In the members of an object type no rest parameter is expanded. */
  function SubstituteMember(m: Member, ev: Evaluate, sigma: Subst): Member
    decreases m
  {
    match m
    case Property(n, ty, optional, isReadonly) => Property(n, Substitute(ty, ev, sigma), optional, isReadonly)
    case Method(n, ps, ret, optional, arrow, tps) =>
      Method(n, SubstituteEach(ps, ev, sigma), Substitute(ret, ev, sigma), optional, arrow, tps)
    case Index(n, key, value) => Index(n, Substitute(key, ev, sigma), Substitute(value, ev, sigma))
    case Callable(ps, ret, arrow) => Callable(SubstituteEach(ps, ev, sigma), Substitute(ret, ev, sigma), arrow)
  }

  function SubstituteMembers(ms: seq<Member>, ev: Evaluate, sigma: Subst): seq<Member>
    decreases ms
  {
    if ms == [] then [] else [SubstituteMember(ms[0], ev, sigma)] + SubstituteMembers(ms[1..], ev, sigma)
  }

  function SubstituteEach(ps: seq<Param>, ev: Evaluate, sigma: Subst): seq<Param>
    decreases ps
  {
    if ps == [] then []
    else
      assert ps[0].ty < ps[0];
      [ps[0].(ty := Substitute(ps[0].ty, ev, sigma))] + SubstituteEach(ps[1..], ev, sigma)
  }

  function SubstituteAll(ts: seq<Type>, ev: Evaluate, sigma: Subst): (r: seq<Type>)
    ensures |r| == |ts|
    decreases ts
  {
    if ts == [] then [] else [Substitute(ts[0], ev, sigma)] + SubstituteAll(ts[1..], ev, sigma)
  }

  function SubstituteParam(p: Param, ev: Evaluate, sigma: Subst): seq<Param>
    decreases p
  {
    if Expands(p, sigma) then Slots(sigma[PackName(p.ty).value].members)
    else [p.(ty := Substitute(p.ty, ev, sigma))]
  }

  function SubstituteParams(ps: seq<Param>, ev: Evaluate, sigma: Subst): seq<Param>
    decreases ps
  {
    if ps == [] then [] else SubstituteParam(ps[0], ev, sigma) + SubstituteParams(ps[1..], ev, sigma)
  }

  // --- which names a substitution can touch --------------------------------------

  function Occurs(t: Type): set<string>
    decreases t
  {
    match t
    case Named(n, _) => {n}
    case Generic(_, args, _) => OccursAll(args)
    case Array(inner) => Occurs(inner)
    case Union(ms) => OccursAll(ms)
    case Tuple(ms) => OccursAll(ms)
    case Fn(ps, ret, _, _) => OccursParams(ps) + Occurs(ret)
    case Object(fields) => OccursMembers(fields)
    case Conditional(c, b, x, y) => Occurs(c) + Occurs(b) + Occurs(x) + Occurs(y)
    case _ => {}
  }

  function OccursMember(m: Member): set<string>
    decreases m
  {
    match m
    case Property(_, ty, _, _) => Occurs(ty)
    case Method(_, ps, ret, _, _, _) => OccursParams(ps) + Occurs(ret)
    case Index(_, key, value) => Occurs(key) + Occurs(value)
    case Callable(ps, ret, _) => OccursParams(ps) + Occurs(ret)
  }

  function OccursMembers(ms: seq<Member>): set<string>
    decreases ms
  {
    if ms == [] then {} else OccursMember(ms[0]) + OccursMembers(ms[1..])
  }

  function OccursAll(ts: seq<Type>): set<string>
    decreases ts
  {
    if ts == [] then {} else Occurs(ts[0]) + OccursAll(ts[1..])
  }

  function OccursParams(ps: seq<Param>): set<string>
    decreases ps
  {
    if ps == [] then {} else assert ps[0].ty < ps[0]; Occurs(ps[0].ty) + OccursParams(ps[1..])
  }

  ghost predicate AgreeOn(names: set<string>, a: Subst, b: Subst) {
    forall n :: n in names ==> (n in a <==> n in b) && (n in a ==> a[n] == b[n])
  }

  /** Substitution depends only on the names that occur. */
  lemma {:induction false} SubstituteDependsOnOccurring(t: Type, ev: Evaluate, a: Subst, b: Subst)
    requires AgreeOn(Occurs(t), a, b)
    ensures Substitute(t, ev, a) == Substitute(t, ev, b)
    decreases t
  {
    match t
    case Generic(_, args, _) => SubstituteAllAgree(args, ev, a, b);
    case Array(inner) => SubstituteDependsOnOccurring(inner, ev, a, b);
    case Union(ms) => SubstituteAllAgree(ms, ev, a, b);
    case Tuple(ms) => SubstituteAllAgree(ms, ev, a, b);
    case Fn(ps, ret, _, _) =>
      SubstituteParamsAgree(ps, ev, a, b);
      SubstituteDependsOnOccurring(ret, ev, a, b);
    case Object(fields) => SubstituteMembersAgree(fields, ev, a, b);
    case Conditional(c, b0, x, y) =>
      SubstituteDependsOnOccurring(c, ev, a, b);
      SubstituteDependsOnOccurring(b0, ev, a, b);
      SubstituteDependsOnOccurring(x, ev, a, b);
      SubstituteDependsOnOccurring(y, ev, a, b);
    case _ =>
  }

  lemma {:induction false} SubstituteMembersAgree(ms: seq<Member>, ev: Evaluate, a: Subst, b: Subst)
    requires AgreeOn(OccursMembers(ms), a, b)
    ensures SubstituteMembers(ms, ev, a) == SubstituteMembers(ms, ev, b)
    decreases ms
  {
    if ms != [] {
      SubstituteMemberAgrees(ms[0], ev, a, b);
      SubstituteMembersAgree(ms[1..], ev, a, b);
    }
  }

  lemma {:induction false} SubstituteMemberAgrees(m: Member, ev: Evaluate, a: Subst, b: Subst)
    requires AgreeOn(OccursMember(m), a, b)
    ensures SubstituteMember(m, ev, a) == SubstituteMember(m, ev, b)
    decreases m
  {
    match m
    case Property(_, ty, _, _) => SubstituteDependsOnOccurring(ty, ev, a, b);
    case Method(_, ps, ret, _, _, _) =>
      SubstituteEachAgrees(ps, ev, a, b);
      SubstituteDependsOnOccurring(ret, ev, a, b);
    case Index(_, key, value) =>
      SubstituteDependsOnOccurring(key, ev, a, b);
      SubstituteDependsOnOccurring(value, ev, a, b);
    case Callable(ps, ret, _) =>
      SubstituteEachAgrees(ps, ev, a, b);
      SubstituteDependsOnOccurring(ret, ev, a, b);
  }

  lemma {:induction false} SubstituteEachAgrees(ps: seq<Param>, ev: Evaluate, a: Subst, b: Subst)
    requires AgreeOn(OccursParams(ps), a, b)
    ensures SubstituteEach(ps, ev, a) == SubstituteEach(ps, ev, b)
    decreases ps
  {
    if ps != [] {
      assert ps[0].ty < ps[0];
      SubstituteDependsOnOccurring(ps[0].ty, ev, a, b);
      SubstituteEachAgrees(ps[1..], ev, a, b);
    }
  }

  lemma {:induction false} SubstituteAllAgree(ts: seq<Type>, ev: Evaluate, a: Subst, b: Subst)
    requires AgreeOn(OccursAll(ts), a, b)
    ensures SubstituteAll(ts, ev, a) == SubstituteAll(ts, ev, b)
    decreases ts
  {
    if ts != [] {
      SubstituteDependsOnOccurring(ts[0], ev, a, b);
      SubstituteAllAgree(ts[1..], ev, a, b);
    }
  }

  lemma {:induction false} SubstituteParamsAgree(ps: seq<Param>, ev: Evaluate, a: Subst, b: Subst)
    requires AgreeOn(OccursParams(ps), a, b)
    ensures SubstituteParams(ps, ev, a) == SubstituteParams(ps, ev, b)
    decreases ps
  {
    if ps != [] {
      assert ps[0].ty < ps[0];
      SubstituteDependsOnOccurring(ps[0].ty, ev, a, b);
      assert SubstituteParam(ps[0], ev, a) == SubstituteParam(ps[0], ev, b) by {
        assert AgreeOn(Occurs(ps[0].ty), a, b);
        PackOccurs(ps[0].ty);
      }
      SubstituteParamsAgree(ps[1..], ev, a, b);
    }
  }

  lemma PackOccurs(t: Type)
    ensures PackName(t).Some? ==> PackName(t).value in Occurs(t)
  {
    if t.Array? { assert Occurs(t) == Occurs(t.inner); }
  }

  // --- what is left after substitution --------------------------------------------

  ghost predicate LeftOver(n: string, names: set<string>, sigma: Subst) {
    (n in names && n !in sigma) || exists k :: k in sigma && n in Occurs(sigma[k])
  }

  /** Every name of the result stood there unsubstituted or came in with a substituted type. */
  ghost predicate Leaves(result: set<string>, names: set<string>, sigma: Subst) {
    forall n :: n in result ==> LeftOver(n, names, sigma)
  }

  /** Evaluating a conditional type brings in no names of its own. */
  ghost predicate Tame(ev: Evaluate) {
    forall c, b, x, y :: Occurs(ev(c, b, x, y)) <= Occurs(c) + Occurs(b) + Occurs(x) + Occurs(y)
  }

  lemma LeavesBoth(r: set<string>, s: set<string>, names: set<string>, more: set<string>, sigma: Subst)
    requires Leaves(r, names, sigma) && Leaves(s, more, sigma)
    ensures Leaves(r + s, names + more, sigma)
  {
  }

  lemma LeavesFewer(r: set<string>, s: set<string>, names: set<string>, sigma: Subst)
    requires r <= s && Leaves(s, names, sigma)
    ensures Leaves(r, names, sigma)
  {
  }

  lemma {:induction false} OccursInMember(ts: seq<Type>, t: Type)
    requires t in ts
    ensures Occurs(t) <= OccursAll(ts)
  {
    if t != ts[0] { OccursInMember(ts[1..], t); }
  }

  lemma {:induction false} OccursInAll(ts: seq<Type>, us: seq<Type>)
    requires forall t :: t in ts ==> Occurs(t) <= OccursAll(us)
    ensures OccursAll(ts) <= OccursAll(us)
  {
    if ts != [] { OccursInAll(ts[1..], us); }
  }

  lemma {:induction false} KeptOccur(ms: seq<Type>, t: Type)
    requires t in WithoutNever(ms)
    ensures t in ms
  {
    if ms != [] && !(ms[0] != NEVER && t == ms[0]) { KeptOccur(ms[1..], t); }
  }

  lemma {:induction false} AddedOccur(flat: seq<Type>, ms: seq<Type>, names: set<string>)
    requires forall t :: t in flat || t in ms ==> Occurs(t) <= names
    ensures forall t :: t in AddNew(flat, ms) ==> Occurs(t) <= names
    decreases ms
  {
    if ms != [] {
      AddedOccur(if ms[0] == NEVER || ms[0] in flat then flat else flat + [ms[0]], ms[1..], names);
    }
  }

  lemma {:induction false} FlatOccur(flat: seq<Type>, ms: seq<Type>, names: set<string>)
    requires forall t :: t in flat || t in ms ==> Occurs(t) <= names
    ensures forall t :: t in Flatten(flat, ms) ==> Occurs(t) <= names
    decreases ms
  {
    if ms != [] {
      var inner := if ms[0].Union? then ms[0].members else [ms[0]];
      forall t | t in inner ensures Occurs(t) <= names {
        assert ms[0] in ms && Occurs(ms[0]) <= names;
        if ms[0].Union? { OccursInMember(inner, t); }
      }
      AddedOccur(flat, inner, names);
      FlatOccur(AddNew(flat, inner), ms[1..], names);
    }
  }

  lemma UnionOccurs(ms: seq<Type>)
    ensures Occurs(UnionOf(ms)) <= OccursAll(ms)
  {
    var kept := WithoutNever(ms);
    forall t | t in kept ensures Occurs(t) <= OccursAll(ms) {
      KeptOccur(ms, t);
      OccursInMember(ms, t);
    }
    FlatOccur([], kept, OccursAll(ms));
    OccursInAll(kept, ms);
    OccursInAll(Flatten([], kept), ms);
    var u := UnionOf(ms);
    hide WithoutNever, Flatten;
    assert u == ERROR || u == NEVER || u in kept || u == Union(kept) || u == Union([])
        || u in Flatten([], kept) || u == Union(Flatten([], kept));
  }

  lemma {:induction false} SlotsOccur(members: seq<Type>)
    ensures OccursParams(Slots(members)) == OccursAll(members)
  {
    if members != [] {
      ParamsOccur(Slots(members), members);
    }
  }

  lemma {:induction false} ParamsOccur(ps: seq<Param>, ts: seq<Type>)
    requires |ps| == |ts| && forall i :: 0 <= i < |ps| ==> ps[i].ty == ts[i]
    ensures OccursParams(ps) == OccursAll(ts)
  {
    if ps != [] { ParamsOccur(ps[1..], ts[1..]); }
  }

  lemma {:induction false} ParamsOccurJoin(a: seq<Param>, b: seq<Param>)
    ensures OccursParams(a + b) == OccursParams(a) + OccursParams(b)
  {
    if a == [] {
      assert a + b == b;
    } else {
      assert (a + b)[1..] == a[1..] + b;
      ParamsOccurJoin(a[1..], b);
    }
  }

  /** No substituted name is left, wherever in the type it stood. */
  lemma {:induction false} SubstituteRemoves(t: Type, ev: Evaluate, sigma: Subst)
    requires Tame(ev)
    ensures Leaves(Occurs(Substitute(t, ev, sigma)), Occurs(t), sigma)
    decreases t
  {
    hide Leaves, Tame, UnionOf;
    match t
    case Named(n, _) => NamedLeaves(n, t, sigma);
    case Generic(_, args, _) => RemovesAll(args, ev, sigma);
    case Array(inner) => SubstituteRemoves(inner, ev, sigma);
    case Union(ms) =>
      var r := SubstituteAll(ms, ev, sigma);
      RemovesAll(ms, ev, sigma);
      UnionOccurs(r);
      LeavesFewer(Occurs(UnionOf(r)), OccursAll(r), OccursAll(ms), sigma);
    case Tuple(ms) => RemovesAll(ms, ev, sigma);
    case Fn(ps, ret, _, _) =>
      RemovesParams(ps, ev, sigma);
      SubstituteRemoves(ret, ev, sigma);
      LeavesBoth(OccursParams(SubstituteParams(ps, ev, sigma)), Occurs(Substitute(ret, ev, sigma)),
                 OccursParams(ps), Occurs(ret), sigma);
    case Object(fields) => RemovesMembers(fields, ev, sigma);
    case Conditional(c, b, x, y) =>
      SubstituteRemoves(c, ev, sigma);
      SubstituteRemoves(b, ev, sigma);
      SubstituteRemoves(x, ev, sigma);
      SubstituteRemoves(y, ev, sigma);
      ConditionalLeaves(t, ev, sigma);
    case _ => NothingLeft(t, sigma);
  }

  lemma NothingLeft(t: Type, sigma: Subst)
    requires t.Prim? || t.Other?
    ensures Leaves(Occurs(t), Occurs(t), sigma)
  {
  }

  lemma NamedLeaves(n: string, t: Type, sigma: Subst)
    requires t.Named? && t.name == n
    ensures Leaves(Occurs(if n in sigma then sigma[n] else t), {n}, sigma)
  {
  }

  lemma ConditionalLeaves(t: Type, ev: Evaluate, sigma: Subst)
    requires t.Conditional? && Tame(ev)
    requires Leaves(Occurs(Substitute(t.check, ev, sigma)), Occurs(t.check), sigma)
    requires Leaves(Occurs(Substitute(t.bound, ev, sigma)), Occurs(t.bound), sigma)
    requires Leaves(Occurs(Substitute(t.onTrue, ev, sigma)), Occurs(t.onTrue), sigma)
    requires Leaves(Occurs(Substitute(t.onFalse, ev, sigma)), Occurs(t.onFalse), sigma)
    ensures Leaves(Occurs(Substitute(t, ev, sigma)), Occurs(t), sigma)
  {
    hide *;
    var c, b := Substitute(t.check, ev, sigma), Substitute(t.bound, ev, sigma);
    var x, y := Substitute(t.onTrue, ev, sigma), Substitute(t.onFalse, ev, sigma);
    ConditionalOccurs(t, ev, sigma);
    LeavesBoth(Occurs(c), Occurs(b), Occurs(t.check), Occurs(t.bound), sigma);
    LeavesBoth(Occurs(c) + Occurs(b), Occurs(x), Occurs(t.check) + Occurs(t.bound), Occurs(t.onTrue), sigma);
    LeavesBoth(Occurs(c) + Occurs(b) + Occurs(x), Occurs(y), Occurs(t.check) + Occurs(t.bound) + Occurs(t.onTrue),
               Occurs(t.onFalse), sigma);
    LeavesFewer(Occurs(Substitute(t, ev, sigma)), Occurs(c) + Occurs(b) + Occurs(x) + Occurs(y), Occurs(t), sigma);
  }

  lemma ConditionalOccurs(t: Type, ev: Evaluate, sigma: Subst)
    requires t.Conditional? && Tame(ev)
    ensures Occurs(t) == Occurs(t.check) + Occurs(t.bound) + Occurs(t.onTrue) + Occurs(t.onFalse)
    ensures Occurs(Substitute(t, ev, sigma))
         <= Occurs(Substitute(t.check, ev, sigma)) + Occurs(Substitute(t.bound, ev, sigma))
          + Occurs(Substitute(t.onTrue, ev, sigma)) + Occurs(Substitute(t.onFalse, ev, sigma))
  {
    hide *;
    var c, b := Substitute(t.check, ev, sigma), Substitute(t.bound, ev, sigma);
    var x, y := Substitute(t.onTrue, ev, sigma), Substitute(t.onFalse, ev, sigma);
    OccursOfConditional(t.check, t.bound, t.onTrue, t.onFalse);
    OccursOfConditional(c, b, x, y);
    EvaluatedOccurs(ev, c, b, x, y);
    SubstituteOfConditional(t, ev, sigma);
  }

  lemma OccursOfConditional(c: Type, b: Type, x: Type, y: Type)
    ensures Occurs(Conditional(c, b, x, y)) == Occurs(c) + Occurs(b) + Occurs(x) + Occurs(y)
  {
  }

  lemma EvaluatedOccurs(ev: Evaluate, c: Type, b: Type, x: Type, y: Type)
    requires Tame(ev)
    ensures Occurs(ev(c, b, x, y)) <= Occurs(c) + Occurs(b) + Occurs(x) + Occurs(y)
  {
    hide Occurs;
  }

  lemma SubstituteOfConditional(t: Type, ev: Evaluate, sigma: Subst)
    requires t.Conditional?
    ensures var c, b := Substitute(t.check, ev, sigma), Substitute(t.bound, ev, sigma);
            var x, y := Substitute(t.onTrue, ev, sigma), Substitute(t.onFalse, ev, sigma);
            Substitute(t, ev, sigma) == if c != t.check then ev(c, b, x, y) else Conditional(c, b, x, y)
  {
  }

  lemma {:induction false} RemovesAll(ts: seq<Type>, ev: Evaluate, sigma: Subst)
    requires Tame(ev)
    ensures Leaves(OccursAll(SubstituteAll(ts, ev, sigma)), OccursAll(ts), sigma)
    decreases ts
  {
    hide Tame;
    if ts != [] {
      hide Leaves;
      SubstituteRemoves(ts[0], ev, sigma);
      RemovesAll(ts[1..], ev, sigma);
      var r := SubstituteAll(ts, ev, sigma);
      assert r[0] == Substitute(ts[0], ev, sigma) && r[1..] == SubstituteAll(ts[1..], ev, sigma);
      LeavesBoth(Occurs(r[0]), OccursAll(r[1..]), Occurs(ts[0]), OccursAll(ts[1..]), sigma);
    }
  }

  lemma {:induction false} RemovesParams(ps: seq<Param>, ev: Evaluate, sigma: Subst)
    requires Tame(ev)
    ensures Leaves(OccursParams(SubstituteParams(ps, ev, sigma)), OccursParams(ps), sigma)
    decreases ps
  {
    hide Tame;
    if ps != [] {
      hide Leaves;
      assert ps[0].ty < ps[0];
      SubstituteRemoves(ps[0].ty, ev, sigma);
      RemovesParams(ps[1..], ev, sigma);
      OneParamLeaves(ps[0], ev, sigma);
      var head, tail := SubstituteParam(ps[0], ev, sigma), SubstituteParams(ps[1..], ev, sigma);
      ParamsOccurJoin(head, tail);
      LeavesBoth(OccursParams(head), OccursParams(tail), Occurs(ps[0].ty), OccursParams(ps[1..]), sigma);
    }
  }

  lemma OneParamLeaves(p: Param, ev: Evaluate, sigma: Subst)
    requires Leaves(Occurs(Substitute(p.ty, ev, sigma)), Occurs(p.ty), sigma)
    ensures Leaves(OccursParams(SubstituteParam(p, ev, sigma)), Occurs(p.ty), sigma)
  {
    if Expands(p, sigma) {
      var k := PackName(p.ty).value;
      SlotsOccur(sigma[k].members);
      assert Occurs(sigma[k]) == OccursAll(sigma[k].members);
    } else {
      var q := p.(ty := Substitute(p.ty, ev, sigma));
      assert [q][1..] == [];
    }
  }

  lemma {:induction false} RemovesEach(ps: seq<Param>, ev: Evaluate, sigma: Subst)
    requires Tame(ev)
    ensures Leaves(OccursParams(SubstituteEach(ps, ev, sigma)), OccursParams(ps), sigma)
    decreases ps
  {
    hide Tame;
    if ps != [] {
      hide Leaves;
      assert ps[0].ty < ps[0];
      SubstituteRemoves(ps[0].ty, ev, sigma);
      RemovesEach(ps[1..], ev, sigma);
      var r := SubstituteEach(ps, ev, sigma);
      assert r[0].ty == Substitute(ps[0].ty, ev, sigma) && r[1..] == SubstituteEach(ps[1..], ev, sigma);
      LeavesBoth(Occurs(r[0].ty), OccursParams(r[1..]), Occurs(ps[0].ty), OccursParams(ps[1..]), sigma);
    }
  }

  lemma {:induction false} RemovesMember(m: Member, ev: Evaluate, sigma: Subst)
    requires Tame(ev)
    ensures Leaves(OccursMember(SubstituteMember(m, ev, sigma)), OccursMember(m), sigma)
    decreases m
  {
    hide Tame, Leaves;
    match m
    case Property(_, ty, _, _) => SubstituteRemoves(ty, ev, sigma);
    case Method(_, ps, ret, _, _, _) =>
      RemovesEach(ps, ev, sigma);
      SubstituteRemoves(ret, ev, sigma);
      LeavesBoth(OccursParams(SubstituteEach(ps, ev, sigma)), Occurs(Substitute(ret, ev, sigma)),
                 OccursParams(ps), Occurs(ret), sigma);
    case Index(_, key, value) =>
      SubstituteRemoves(key, ev, sigma);
      SubstituteRemoves(value, ev, sigma);
      LeavesBoth(Occurs(Substitute(key, ev, sigma)), Occurs(Substitute(value, ev, sigma)),
                 Occurs(key), Occurs(value), sigma);
    case Callable(ps, ret, _) =>
      RemovesEach(ps, ev, sigma);
      SubstituteRemoves(ret, ev, sigma);
      LeavesBoth(OccursParams(SubstituteEach(ps, ev, sigma)), Occurs(Substitute(ret, ev, sigma)),
                 OccursParams(ps), Occurs(ret), sigma);
  }

  lemma {:induction false} RemovesMembers(ms: seq<Member>, ev: Evaluate, sigma: Subst)
    requires Tame(ev)
    ensures Leaves(OccursMembers(SubstituteMembers(ms, ev, sigma)), OccursMembers(ms), sigma)
    decreases ms
  {
    hide Tame;
    if ms != [] {
      hide Leaves;
      RemovesMember(ms[0], ev, sigma);
      RemovesMembers(ms[1..], ev, sigma);
      var r := SubstituteMembers(ms, ev, sigma);
      assert r[0] == SubstituteMember(ms[0], ev, sigma) && r[1..] == SubstituteMembers(ms[1..], ev, sigma);
      LeavesBoth(OccursMember(r[0]), OccursMembers(r[1..]), OccursMember(ms[0]), OccursMembers(ms[1..]), sigma);
    }
  }
}
