/**
  * Generic-argument inference (checker_type_inferences.rs): matching a
  * parameter's declared type against an argument's type to find what the type
  * parameters stand for.  The substitution it inverts is `TypeTerms.Substitute`.
  */
module TypeInference {
  import opened Wrappers
  import opened TypeTerms

  predicate IsParam(e: Type, params: set<string>) {
    e.Named? && e.name in params
  }

  /** A second, different binding of a parameter widens the first to a union. */
  function Bind(out: Subst, n: string, a: Type): Subst {
    if n !in out then out[n := a]
    else if out[n] == a then out
    else out[n := UnionOf([out[n], a])]
  }

  function Present(ms: seq<Type>): (r: seq<Type>)
    ensures forall m :: m in r ==> m in ms && m != NULL
  {
    if ms == [] then [] else (if ms[0] == NULL then [] else [ms[0]]) + Present(ms[1..])
  }

  /** The type parameter that the last, rest, parameter packs, if it packs one. */
  function Pack(ps: seq<Param>, params: set<string>): (r: Option<string>)
    ensures r.Some? ==> ps != []
  {
    if ps != [] && ps[|ps| - 1].isRest && PackName(ps[|ps| - 1].ty).Some?
       && PackName(ps[|ps| - 1].ty).value in params
    then PackName(ps[|ps| - 1].ty) else None
  }

  function Paired(ps: seq<Param>, params: set<string>): (r: seq<Param>)
    ensures r <= ps
  {
    if Pack(ps, params).Some? then ps[..|ps| - 1] else ps
  }

  function Types(ps: seq<Param>): seq<Type> {
    seq(|ps|, i requires 0 <= i < |ps| => ps[i].ty)
  }

  /** The argument slots that face the rest parameter. */
  function Surplus(ps: seq<Param>, actual: seq<Param>): seq<Type>
    requires ps != []
  {
    if |ps| - 1 <= |actual| then Types(actual[|ps| - 1..]) else []
  }

  function BindPack(ps: seq<Param>, actual: seq<Param>, params: set<string>, out: Subst): Subst {
    var pack := Pack(ps, params);
    if pack.Some? then out[pack.value := Tuple(Surplus(ps, actual))] else out
  }

  // --- what a call adds to the bindings ------------------------------------------

  /**
    * A union argument is matched member by member, unless a bare parameter takes
    * it whole.  A union parameter therefore never meets a union argument, and only
    * its first alternative other than null is ever matched.
    */
  function Collect(e: Type, a: Type, params: set<string>, out: Subst): Subst
    decreases e, a
  {
    if !IsParam(e, params) && a.Union? then CollectMembers(e, a.members, params, out)
    else match e
      case Named(n, _) => if n in params then Bind(out, n, a) else out
      case Generic(_, es, _) => if a.Generic? then CollectEach(es, a.args, params, out) else out
      case Array(inner) => if a.Array? then Collect(inner, a.inner, params, out) else out
      case Fn(ps, ret, _, _) =>
        if a.Fn? then
          var packed := BindPack(ps, a.params, params, out);
          var n := |Paired(ps, params)|;
          Collect(ret, a.ret, params, CollectParams(ps, n, a.params, params, packed))
        else out
      case Union(ms) => if a == NULL then out else CollectFirst(ms, a, params, out)
      case _ => out
  }

  function CollectMembers(e: Type, ms: seq<Type>, params: set<string>, out: Subst): Subst
    decreases e, ms
  {
    if ms == [] then out else CollectMembers(e, ms[1..], params, Collect(e, ms[0], params, out))
  }

  function CollectEach(es: seq<Type>, ms: seq<Type>, params: set<string>, out: Subst): Subst
    decreases es, ms
  {
    if es == [] || ms == [] then out
    else CollectEach(es[1..], ms[1..], params, Collect(es[0], ms[0], params, out))
  }

  /** Matches the first `n` parameters on their own and adds what is not yet bound. */
  function CollectParams(ps: seq<Param>, n: nat, actual: seq<Param>, params: set<string>, out: Subst): Subst
    requires n <= |ps|
    decreases ps, actual
  {
    if n == 0 || actual == [] then out
    else
      assert ps[0].ty < ps[0];
      var own := Collect(ps[0].ty, actual[0].ty, params, map[]);
      CollectParams(ps[1..], n - 1, actual[1..], params, own + out)
  }

  function CollectFirst(ms: seq<Type>, a: Type, params: set<string>, out: Subst): Subst
    decreases ms, a
  {
    if ms == [] then out
    else if ms[0] == NULL then CollectFirst(ms[1..], a, params, out)
    else Collect(ms[0], a, params, out)
  }

  // --- where inference can see a parameter ------------------------------------------

  /** The parameters in the positions that matching reaches. */
  function Seen(e: Type, params: set<string>): set<string>
    decreases e
  {
    match e
    case Named(n, _) => if n in params then {n} else {}
    case Generic(_, es, _) => SeenAll(es, params)
    case Array(inner) => Seen(inner, params)
    case Fn(ps, ret, _, _) =>
      SeenPack(ps, params) + SeenParams(ps, |Paired(ps, params)|, params) + Seen(ret, params)
    case Union(ms) => SeenFirst(ms, params)
    case _ => {}
  }

  function SeenPack(ps: seq<Param>, params: set<string>): set<string> {
    if Pack(ps, params).Some? then {Pack(ps, params).value} else {}
  }

  function SeenAll(es: seq<Type>, params: set<string>): set<string>
    decreases es
  {
    if es == [] then {} else Seen(es[0], params) + SeenAll(es[1..], params)
  }

  function SeenParams(ps: seq<Param>, n: nat, params: set<string>): set<string>
    requires n <= |ps|
    decreases ps
  {
    if n == 0 then {} else assert ps[0].ty < ps[0]; Seen(ps[0].ty, params) + SeenParams(ps[1..], n - 1, params)
  }

  function SeenFirst(ms: seq<Type>, params: set<string>): set<string>
    decreases ms
  {
    if ms == [] then {}
    else if ms[0] == NULL then SeenFirst(ms[1..], params)
    else Seen(ms[0], params)
  }

  /** `f | null` in either order, with `f` itself neither a union nor null. */
  predicate Nullable(ms: seq<Type>) {
    && |ms| == 2
    && (ms[0] == NULL || ms[1] == NULL)
    && Payload(ms) != NULL && !Payload(ms).Union?
  }

  function Payload(ms: seq<Type>): Type
    requires |ms| == 2
  {
    if ms[0] == NULL then ms[1] else ms[0]
  }

  predicate StandsAlone(t: Type) {
    !t.Union? && t != NULL && t != NEVER && t != ERROR
  }

  /**
    * The shapes that substitution keeps apart: a rest parameter comes last and, if
    * it packs a parameter, that parameter stands for a tuple; a union either holds
    * no parameter or is `f | null` where `f` does not itself become a union, null,
    * never or error.
    */
  predicate Matchable(e: Type, ev: Evaluate, sigma: Subst)
    decreases e
  {
    match e
    case Generic(_, es, _) => MatchableAll(es, ev, sigma)
    case Array(inner) => Matchable(inner, ev, sigma)
    case Fn(ps, ret, _, _) =>
      && (forall i :: 0 <= i < |ps| - 1 ==> !ps[i].isRest)
      && (Pack(ps, sigma.Keys).Some? ==> sigma[Pack(ps, sigma.Keys).value].Tuple?)
      && MatchableParams(ps, |Paired(ps, sigma.Keys)|, ev, sigma)
      && Matchable(ret, ev, sigma)
    case Union(ms) =>
      || OccursAll(ms) !! sigma.Keys
      || (Nullable(ms) && Matchable(ms[0], ev, sigma) && Matchable(ms[1], ev, sigma)
          && StandsAlone(Substitute(Payload(ms), ev, sigma)))
    case _ => true
  }

  predicate MatchableAll(es: seq<Type>, ev: Evaluate, sigma: Subst)
    decreases es
  {
    es != [] ==> Matchable(es[0], ev, sigma) && MatchableAll(es[1..], ev, sigma)
  }

  predicate MatchableParams(ps: seq<Param>, n: nat, ev: Evaluate, sigma: Subst)
    requires n <= |ps|
    decreases ps
  {
    n > 0 ==> assert ps[0].ty < ps[0]; Matchable(ps[0].ty, ev, sigma) && MatchableParams(ps[1..], n - 1, ev, sigma)
  }

  function Restrict(sigma: Subst, names: set<string>): (r: Subst)
    ensures r.Keys == sigma.Keys * names
    ensures forall n :: n in r ==> r[n] == sigma[n]
  {
    map n | n in sigma.Keys && n in names :: sigma[n]
  }

  ghost predicate Within(out: Subst, sigma: Subst) {
    forall n :: n in out ==> n in sigma && out[n] == sigma[n]
  }

  // --- a type without parameters binds nothing ----------------------------------------

  lemma {:induction false} NothingToInfer(e: Type, a: Type, params: set<string>, out: Subst)
    requires Occurs(e) !! params
    ensures Collect(e, a, params, out) == out
    decreases e, a
  {
    if !IsParam(e, params) && a.Union? {
      NothingInMembers(e, a.members, params, out);
    } else {
      match e
      case Generic(_, es, _) =>
        if a.Generic? { NothingInEach(es, a.args, params, out); }
      case Array(inner) =>
        if a.Array? { NothingToInfer(inner, a.inner, params, out); }
      case Fn(ps, ret, _, _) =>
        if a.Fn? {
          NoPack(ps, params);
          NothingInParams(ps, |ps|, a.params, params, out);
          NothingToInfer(ret, a.ret, params, out);
        }
      case Union(ms) => NothingInFirst(ms, a, params, out);
      case _ =>
    }
  }

  lemma {:induction false} NothingInMembers(e: Type, ms: seq<Type>, params: set<string>, out: Subst)
    requires Occurs(e) !! params
    ensures CollectMembers(e, ms, params, out) == out
    decreases e, ms
  {
    if ms != [] {
      NothingToInfer(e, ms[0], params, out);
      NothingInMembers(e, ms[1..], params, out);
    }
  }

  lemma {:induction false} NothingInEach(es: seq<Type>, ms: seq<Type>, params: set<string>, out: Subst)
    requires OccursAll(es) !! params
    ensures CollectEach(es, ms, params, out) == out
    decreases es, ms
  {
    if es != [] && ms != [] {
      NothingToInfer(es[0], ms[0], params, out);
      NothingInEach(es[1..], ms[1..], params, out);
    }
  }

  lemma {:induction false} NothingInParams(ps: seq<Param>, n: nat, actual: seq<Param>, params: set<string>, out: Subst)
    requires n <= |ps| && OccursParams(ps) !! params
    ensures CollectParams(ps, n, actual, params, out) == out
    decreases ps, actual
  {
    if n > 0 && actual != [] {
      assert ps[0].ty < ps[0];
      NothingToInfer(ps[0].ty, actual[0].ty, params, map[]);
      assert map[] + out == out;
      NothingInParams(ps[1..], n - 1, actual[1..], params, out);
    }
  }

  lemma {:induction false} NothingInFirst(ms: seq<Type>, a: Type, params: set<string>, out: Subst)
    requires OccursAll(ms) !! params
    ensures CollectFirst(ms, a, params, out) == out
    decreases ms, a
  {
    if ms != [] {
      if ms[0] == NULL { NothingInFirst(ms[1..], a, params, out); }
      else { NothingToInfer(ms[0], a, params, out); }
    }
  }

  lemma {:induction false} LastOccurs(ps: seq<Param>)
    requires ps != []
    ensures Occurs(ps[|ps| - 1].ty) <= OccursParams(ps)
  {
    if |ps| > 1 { LastOccurs(ps[1..]); }
  }

  lemma NoPack(ps: seq<Param>, params: set<string>)
    requires OccursParams(ps) !! params
    ensures Pack(ps, params) == None
  {
    if ps != [] {
      LastOccurs(ps);
      PackOccurs(ps[|ps| - 1].ty);
    }
  }

  // --- inference undoes substitution -------------------------------------------------

  /**
    * Matching a type against its own instance binds exactly the parameters that
    * matching can see, each to what the substitution put there.
    */
  lemma {:induction false} InferenceUndoesSubstitution(e: Type, ev: Evaluate, sigma: Subst, out: Subst)
    requires Matchable(e, ev, sigma) && Within(out, sigma)
    ensures Collect(e, Substitute(e, ev, sigma), sigma.Keys, out) == out + Restrict(sigma, Seen(e, sigma.Keys))
    decreases e
  {
    match e
    case Named(n, _) =>
    case Generic(_, es, _) => UndoesEach(es, ev, sigma, out);
    case Array(inner) => InferenceUndoesSubstitution(inner, ev, sigma, out);
    case Fn(ps, ret, _, _) => UndoesFn(e, ev, sigma, out);
    case Union(ms) => UndoesUnion(ms, ev, sigma, out);
    case Conditional(_, _, _, _) => ConditionalBindsNothing(e, Substitute(e, ev, sigma), sigma.Keys, out);
    case _ =>
  }

  /** Whatever a conditional type comes to, even a union, matching against it binds nothing. */
  lemma {:induction false} ConditionalBindsNothing(e: Type, a: Type, params: set<string>, out: Subst)
    requires e.Conditional?
    ensures Collect(e, a, params, out) == out
    decreases a
  {
    if a.Union? { ConditionalMembers(e, a.members, params, out); }
  }

  lemma {:induction false} ConditionalMembers(e: Type, ms: seq<Type>, params: set<string>, out: Subst)
    requires e.Conditional?
    ensures CollectMembers(e, ms, params, out) == out
    decreases ms
  {
    if ms != [] {
      ConditionalBindsNothing(e, ms[0], params, out);
      ConditionalMembers(e, ms[1..], params, out);
    }
  }

  lemma JoinRestrictions(sigma: Subst, out: Subst, a: set<string>, b: set<string>)
    ensures out + Restrict(sigma, a) + Restrict(sigma, b) == out + Restrict(sigma, a + b)
    ensures Within(out, sigma) ==> Within(out + Restrict(sigma, a), sigma)
    ensures Within(out, sigma) ==> Restrict(sigma, a) + out == out + Restrict(sigma, a)
  {
  }

  lemma {:induction false} UndoesEach(es: seq<Type>, ev: Evaluate, sigma: Subst, out: Subst)
    requires MatchableAll(es, ev, sigma) && Within(out, sigma)
    ensures CollectEach(es, SubstituteAll(es, ev, sigma), sigma.Keys, out)
         == out + Restrict(sigma, SeenAll(es, sigma.Keys))
    decreases es
  {
    if es == [] {
    } else {
      var s := SubstituteAll(es, ev, sigma);
      assert s[0] == Substitute(es[0], ev, sigma) && s[1..] == SubstituteAll(es[1..], ev, sigma);
      InferenceUndoesSubstitution(es[0], ev, sigma, out);
      JoinRestrictions(sigma, out, Seen(es[0], sigma.Keys), SeenAll(es[1..], sigma.Keys));
      UndoesEach(es[1..], ev, sigma, out + Restrict(sigma, Seen(es[0], sigma.Keys)));
    }
  }

  lemma {:induction false} UndoesParams(ps: seq<Param>, n: nat, actual: seq<Param>, ev: Evaluate,
                                        sigma: Subst, out: Subst)
    requires n <= |ps| && n <= |actual|
    requires MatchableParams(ps, n, ev, sigma) && Within(out, sigma)
    requires forall i :: 0 <= i < n ==> actual[i].ty == Substitute(ps[i].ty, ev, sigma)
    ensures CollectParams(ps, n, actual, sigma.Keys, out)
         == out + Restrict(sigma, SeenParams(ps, n, sigma.Keys))
    decreases ps
  {
    if n == 0 {
    } else {
      assert ps[0].ty < ps[0];
      InferenceUndoesSubstitution(ps[0].ty, ev, sigma, map[]);
      var seen := Seen(ps[0].ty, sigma.Keys);
      assert map[] + Restrict(sigma, seen) == Restrict(sigma, seen);
      JoinRestrictions(sigma, out, seen, SeenParams(ps[1..], n - 1, sigma.Keys));
      UndoesParams(ps[1..], n - 1, actual[1..], ev, sigma, out + Restrict(sigma, seen));
    }
  }

  lemma {:induction false} SubstitutedParamAt(ps: seq<Param>, n: nat, ev: Evaluate, sigma: Subst)
    requires n <= |ps|
    requires forall i :: 0 <= i < n ==> !Expands(ps[i], sigma)
    ensures var sp := SubstituteParams(ps, ev, sigma);
            && n <= |sp| && sp[n..] == SubstituteParams(ps[n..], ev, sigma)
            && forall i :: 0 <= i < n ==> sp[i].ty == Substitute(ps[i].ty, ev, sigma)
    decreases ps
  {
    if n > 0 {
      SubstitutedParamAt(ps[1..], n - 1, ev, sigma);
      var sp, rest := SubstituteParams(ps, ev, sigma), SubstituteParams(ps[1..], ev, sigma);
      assert sp == SubstituteParam(ps[0], ev, sigma) + rest;
      assert |SubstituteParam(ps[0], ev, sigma)| == 1;
      assert ps[1..][n - 1..] == ps[n..];
      assert sp[n..] == rest[n - 1..];
      forall i | 0 <= i < n ensures sp[i].ty == Substitute(ps[i].ty, ev, sigma) {
        if i > 0 { assert sp[i] == rest[i - 1] && ps[i] == ps[1..][i - 1]; }
      }
    }
  }

  lemma LastParamExpands(last: Param, ev: Evaluate, sigma: Subst)
    requires Expands(last, sigma)
    ensures SubstituteParams([last], ev, sigma) == Slots(sigma[PackName(last.ty).value].members)
  {
    assert [last][1..] == [];
  }

  lemma SurplusOfSlots(ps: seq<Param>, actual: seq<Param>, slots: seq<Type>)
    requires ps != [] && |ps| - 1 <= |actual| && actual[|ps| - 1..] == Slots(slots)
    ensures Surplus(ps, actual) == slots
  {
    assert Types(Slots(slots)) == slots;
  }

  lemma BindPackIs(ps: seq<Param>, actual: seq<Param>, sigma: Subst, out: Subst)
    requires Within(out, sigma)
    requires var pack := Pack(ps, sigma.Keys);
             pack.Some? ==> sigma[pack.value] == Tuple(Surplus(ps, actual))
    ensures BindPack(ps, actual, sigma.Keys, out) == out + Restrict(sigma, SeenPack(ps, sigma.Keys))
  {
    hide Surplus;
    var pack := Pack(ps, sigma.Keys);
    if pack.Some? {
      assert out[pack.value := sigma[pack.value]] == out + Restrict(sigma, {pack.value});
    }
  }

  /** A packing rest parameter expands to the tuple's slots, which `BindPack` packs again. */
  lemma PackUndoesSpread(ps: seq<Param>, ev: Evaluate, sigma: Subst, out: Subst)
    requires Within(out, sigma)
    requires forall i :: 0 <= i < |ps| - 1 ==> !ps[i].isRest
    requires Pack(ps, sigma.Keys).Some? ==> sigma[Pack(ps, sigma.Keys).value].Tuple?
    ensures var actual := SubstituteParams(ps, ev, sigma);
            var n := |Paired(ps, sigma.Keys)|;
            && n <= |actual|
            && (forall i :: 0 <= i < n ==> actual[i].ty == Substitute(ps[i].ty, ev, sigma))
            && BindPack(ps, actual, sigma.Keys, out) == out + Restrict(sigma, SeenPack(ps, sigma.Keys))
  {
    hide Substitute, SubstituteParams, Slots, Surplus, Types, BindPack, Restrict, SeenPack;
    var actual := SubstituteParams(ps, ev, sigma);
    var pack := Pack(ps, sigma.Keys);
    var n := |Paired(ps, sigma.Keys)|;
    SubstitutedParamAt(ps, n, ev, sigma);
    if pack.Some? {
      var last := ps[n];
      var slots := sigma[pack.value].members;
      assert ps[n..] == [last];
      LastParamExpands(last, ev, sigma);
      SurplusOfSlots(ps, actual, slots);
    }
    BindPackIs(ps, actual, sigma, out);
  }

  lemma {:induction false} UndoesFn(e: Type, ev: Evaluate, sigma: Subst, out: Subst)
    requires e.Fn? && Matchable(e, ev, sigma) && Within(out, sigma)
    ensures Collect(e, Substitute(e, ev, sigma), sigma.Keys, out) == out + Restrict(sigma, Seen(e, sigma.Keys))
    decreases e, 0
  {
    var keys := sigma.Keys;
    var ps, ret := e.params, e.ret;
    var actual := SubstituteParams(ps, ev, sigma);
    var n := |Paired(ps, keys)|;
    var inPack, inParams, inRet := SeenPack(ps, keys), SeenParams(ps, n, keys), Seen(ret, keys);
    PackUndoesSpread(ps, ev, sigma, out);
    JoinRestrictions(sigma, out, inPack, inParams);
    var packed := out + Restrict(sigma, inPack);
    UndoesParams(ps, n, actual, ev, sigma, packed);
    JoinRestrictions(sigma, out, inPack + inParams, inRet);
    InferenceUndoesSubstitution(ret, ev, sigma, packed + Restrict(sigma, inParams));
    assert Seen(e, keys) == inPack + inParams + inRet;
  }

  lemma {:induction false} SeenOccurs(e: Type, params: set<string>)
    ensures Seen(e, params) <= Occurs(e) * params
    decreases e
  {
    match e
    case Generic(_, es, _) => SeenAllOccurs(es, params);
    case Array(inner) => SeenOccurs(inner, params);
    case Fn(ps, ret, _, _) =>
      if Pack(ps, params).Some? {
        LastOccurs(ps);
        PackOccurs(ps[|ps| - 1].ty);
      }
      SeenParamsOccur(ps, |Paired(ps, params)|, params);
      SeenOccurs(ret, params);
    case Union(ms) => SeenFirstOccurs(ms, params);
    case _ =>
  }

  lemma {:induction false} SeenAllOccurs(es: seq<Type>, params: set<string>)
    ensures SeenAll(es, params) <= OccursAll(es) * params
    decreases es
  {
    if es != [] {
      SeenOccurs(es[0], params);
      SeenAllOccurs(es[1..], params);
    }
  }

  lemma {:induction false} SeenParamsOccur(ps: seq<Param>, n: nat, params: set<string>)
    requires n <= |ps|
    ensures SeenParams(ps, n, params) <= OccursParams(ps) * params
    decreases ps
  {
    if n > 0 {
      assert ps[0].ty < ps[0];
      SeenOccurs(ps[0].ty, params);
      SeenParamsOccur(ps[1..], n - 1, params);
    }
  }

  lemma {:induction false} SeenFirstOccurs(ms: seq<Type>, params: set<string>)
    ensures SeenFirst(ms, params) <= OccursAll(ms) * params
    decreases ms
  {
    if ms != [] {
      if ms[0] == NULL { SeenFirstOccurs(ms[1..], params); }
      else { SeenOccurs(ms[0], params); }
    }
  }

  /** Substituting in `f | null` leaves the two alternatives side by side. */
  lemma NullableInstance(ms: seq<Type>, ev: Evaluate, sigma: Subst)
    requires Nullable(ms) && StandsAlone(Substitute(Payload(ms), ev, sigma))
    ensures var f := Substitute(Payload(ms), ev, sigma);
            Substitute(Union(ms), ev, sigma) == Union(if ms[0] == NULL then [NULL, f] else [f, NULL])
  {
    var f := Substitute(Payload(ms), ev, sigma);
    var both := if ms[0] == NULL then [NULL, f] else [f, NULL];
    assert ms == [ms[0], ms[1]];
    assert Substitute(NULL, ev, sigma) == NULL;
    assert SubstituteAll(ms, ev, sigma) == both by {
      assert SubstituteAll(ms[1..], ev, sigma)
          == [Substitute(ms[1], ev, sigma)] + SubstituteAll(ms[1..][1..], ev, sigma);
    }
    assert WithoutNever(both) == both by {
      assert WithoutNever(both[1..]) == [both[1]] + WithoutNever(both[1..][1..]);
    }
  }

  lemma {:induction false} UndoesUnion(ms: seq<Type>, ev: Evaluate, sigma: Subst, out: Subst)
    requires Matchable(Union(ms), ev, sigma) && Within(out, sigma)
    ensures Collect(Union(ms), Substitute(Union(ms), ev, sigma), sigma.Keys, out)
         == out + Restrict(sigma, SeenFirst(ms, sigma.Keys))
    decreases Union(ms), 0
  {
    var e, keys := Union(ms), sigma.Keys;
    if OccursAll(ms) !! keys {
      SeenFirstOccurs(ms, keys);
      NothingToInfer(e, Substitute(e, ev, sigma), keys, out);
    } else {
      var f := Payload(ms);
      var g := Substitute(f, ev, sigma);
      assert f in ms;
      NullableInstance(ms, ev, sigma);
      InferenceUndoesSubstitution(f, ev, sigma, out);
      var found := Collect(f, g, keys, out);
      FirstIsPayload(ms, g, keys, out);
      assert CollectMembers(e, if ms[0] == NULL then [NULL, g] else [g, NULL], keys, out) == found by {
        NullAddsNothing(e, g, keys, out);
      }
    }
  }

  lemma FirstIsPayload(ms: seq<Type>, a: Type, params: set<string>, out: Subst)
    requires Nullable(ms)
    ensures CollectFirst(ms, a, params, out) == Collect(Payload(ms), a, params, out)
    ensures SeenFirst(ms, params) == Seen(Payload(ms), params)
  {
    if ms[0] == NULL { assert ms[1..][0] == Payload(ms); }
  }

  lemma NullAddsNothing(e: Type, g: Type, params: set<string>, out: Subst)
    requires e.Union?
    ensures CollectMembers(e, [NULL, g], params, out) == Collect(e, g, params, out)
    ensures CollectMembers(e, [g, NULL], params, out) == Collect(e, g, params, out)
  {
    NullIgnored(e, params, out);
    var found := Collect(e, g, params, out);
    NullIgnored(e, params, found);
    MembersOfTwo(e, NULL, g, params, out);
    MembersOfTwo(e, g, NULL, params, out);
  }

  lemma NullIgnored(e: Type, params: set<string>, out: Subst)
    requires e.Union?
    ensures Collect(e, NULL, params, out) == out
  {
  }

  lemma MembersOfTwo(e: Type, x: Type, y: Type, params: set<string>, out: Subst)
    ensures CollectMembers(e, [x, y], params, out) == Collect(e, y, params, Collect(e, x, params, out))
  {
    hide Collect;
    var o := Collect(e, x, params, out);
    assert [x, y][1..] == [y];
    assert CollectMembers(e, [y], params, o) == CollectMembers(e, [y][1..], params, Collect(e, y, params, o));
  }

  // --- what a second argument does ------------------------------------------------------

  /** `t` offers all that `u` does; once there is an error, it stays. */
  predicate Covers(t: Type, u: Type) {
    if u == ERROR then t == ERROR else t == ERROR || Alternatives(u) <= Alternatives(t)
  }

  /** A bound parameter keeps what it offers and offers the argument besides. */
  lemma SecondBindingWidens(out: Subst, n: string, a: Type)
    ensures var now := Bind(out, n, a);
            && now.Keys == out.Keys + {n}
            && (forall m :: m in out && m != n ==> now[m] == out[m])
            && (n !in out ==> now[n] == a)
            && (n in out && out[n] == a ==> now[n] == a)
            && (n in out && out[n] != a && (out[n] == ERROR || a == ERROR) ==> now[n] == ERROR)
            && (n in out && out[n] != a && out[n] != ERROR && a != ERROR ==>
                  Alternatives(now[n]) == Alternatives(out[n]) + Alternatives(a))
  {
    if n in out {
      var both := [out[n], a];
      UnionOffersAll(both);
      BothOffered(out[n], a);
      hide UnionOf, Alternatives, AllAlternatives;
    }
  }

  lemma BothOffered(a: Type, b: Type)
    ensures AllAlternatives([a, b]) == Alternatives(a) + Alternatives(b)
  {
    assert [a, b][1..] == [b] && [b][1..] == [];
    assert AllAlternatives([b]) == Alternatives(b) + AllAlternatives([b][1..]);
  }

  /**
    * A bare parameter that meets several arguments in turn stands for all of them: for the
    * error type if one of them is, and otherwise for a type with the alternatives of each.
    */
  lemma {:induction false} ParameterOffersAll(n: string, origin: Option<string>, args: seq<Type>, params: set<string>)
    requires n in params && args != []
    ensures var found := CollectMembers(Named(n, origin), args, params, map[]);
            && found.Keys == {n}
            && (ERROR in args ==> found[n] == ERROR)
            && (ERROR !in args ==> found[n] != ERROR ==> Alternatives(found[n]) == AllAlternatives(args))
            && (|args| == 1 ==> found[n] == args[0])
  {
    var e := Named(n, origin);
    var first := map[n := args[0]];
    assert Collect(e, args[0], params, map[]) == first;
    FurtherArguments(n, origin, args[1..], params, first);
  }

  lemma {:induction false} FurtherArguments(n: string, origin: Option<string>, args: seq<Type>, params: set<string>,
                                            out: Subst)
    requires n in params && out.Keys == {n}
    ensures var found := CollectMembers(Named(n, origin), args, params, out);
            && found.Keys == {n}
            && (ERROR in args || out[n] == ERROR ==> found[n] == ERROR)
            && (ERROR !in args && out[n] != ERROR && found[n] != ERROR ==>
                  Alternatives(found[n]) == Alternatives(out[n]) + AllAlternatives(args))
            && (args == [] ==> found == out)
    decreases args
  {
    var e := Named(n, origin);
    if args != [] {
      var next := Bind(out, n, args[0]);
      SecondBindingWidens(out, n, args[0]);
      assert Collect(e, args[0], params, out) == next;
      hide Bind;
      FurtherArguments(n, origin, args[1..], params, next);
    }
  }

  function ArraysOf(ts: seq<Type>): seq<Type> {
    if ts == [] then [] else [Array(ts[0])] + ArraysOf(ts[1..])
  }

  /** A union argument is taken apart: each of its alternatives counts as an argument of its own. */
  lemma {:induction false} EachAlternativeCounts(n: string, origin: Option<string>, ts: seq<Type>, params: set<string>,
                                                 out: Subst)
    requires n in params
    ensures CollectMembers(Array(Named(n, origin)), ArraysOf(ts), params, out)
         == CollectMembers(Named(n, origin), ts, params, out)
    ensures Collect(Array(Named(n, origin)), Union(ArraysOf(ts)), params, out)
         == CollectMembers(Named(n, origin), ts, params, out)
    decreases ts
  {
    var e := Array(Named(n, origin));
    if ts != [] {
      var next := Bind(out, n, ts[0]);
      assert ArraysOf(ts)[0] == Array(ts[0]) && ArraysOf(ts)[1..] == ArraysOf(ts[1..]);
      assert Collect(e, Array(ts[0]), params, out) == next && Collect(e.inner, ts[0], params, out) == next;
      hide Bind;
      EachAlternativeCounts(n, origin, ts[1..], params, next);
    }
  }

  /** In the positions that add to a binding, no function type packs a rest parameter. */
  predicate PacksNothing(e: Type, params: set<string>)
    decreases e
  {
    match e
    case Generic(_, es, _) => PackNothing(es, params)
    case Array(inner) => PacksNothing(inner, params)
    case Fn(ps, ret, _, _) => Pack(ps, params) == None && PacksNothing(ret, params)
    case Union(ms) => PackNothing(ms, params)
    case _ => true
  }

  predicate PackNothing(es: seq<Type>, params: set<string>)
    decreases es
  {
    es != [] ==> PacksNothing(es[0], params) && PackNothing(es[1..], params)
  }

  ghost predicate Keeps(now: Subst, before: Subst) {
    forall n :: n in before ==> n in now && Covers(now[n], before[n])
  }

  lemma KeepsOn(c: Subst, b: Subst, a: Subst)
    requires Keeps(c, b) && Keeps(b, a)
    ensures Keeps(c, a)
  {
    hide Alternatives;
  }

  lemma KeepsItself(a: Subst)
    ensures Keeps(a, a)
  {
  }

  lemma BindKeeps(out: Subst, n: string, a: Type)
    ensures Keeps(Bind(out, n, a), out)
  {
    SecondBindingWidens(out, n, a);
    hide Bind, Alternatives;
  }

  /** Matching never takes an alternative away from a parameter that is bound, save where a rest parameter is packed. */
  lemma {:induction false} NothingIsLost(e: Type, a: Type, params: set<string>, out: Subst)
    requires PacksNothing(e, params)
    ensures Keeps(Collect(e, a, params, out), out)
    decreases e, a
  {
    hide Keeps, Bind;
    KeepsItself(out);
    if !IsParam(e, params) && a.Union? {
      NothingIsLostInMembers(e, a.members, params, out);
    } else {
      match e
      case Named(n, _) => BindKeeps(out, n, a);
      case Generic(_, es, _) =>
        if a.Generic? { NothingIsLostInEach(es, a.args, params, out); }
      case Array(inner) =>
        if a.Array? { NothingIsLost(inner, a.inner, params, out); }
      case Fn(ps, ret, _, _) =>
        if a.Fn? {
          var n := |Paired(ps, params)|;
          var after := CollectParams(ps, n, a.params, params, out);
          NothingIsLostInParams(ps, n, a.params, params, out);
          NothingIsLost(ret, a.ret, params, after);
          KeepsOn(Collect(ret, a.ret, params, after), after, out);
        }
      case Union(ms) => NothingIsLostInFirst(ms, a, params, out);
      case _ =>
    }
  }

  lemma {:induction false} NothingIsLostInMembers(e: Type, ms: seq<Type>, params: set<string>, out: Subst)
    requires PacksNothing(e, params)
    ensures Keeps(CollectMembers(e, ms, params, out), out)
    decreases e, ms
  {
    hide Keeps;
    KeepsItself(out);
    if ms != [] {
      var next := Collect(e, ms[0], params, out);
      NothingIsLost(e, ms[0], params, out);
      NothingIsLostInMembers(e, ms[1..], params, next);
      KeepsOn(CollectMembers(e, ms[1..], params, next), next, out);
    }
  }

  lemma {:induction false} NothingIsLostInEach(es: seq<Type>, ms: seq<Type>, params: set<string>, out: Subst)
    requires PackNothing(es, params)
    ensures Keeps(CollectEach(es, ms, params, out), out)
    decreases es, ms
  {
    hide Keeps;
    KeepsItself(out);
    if es != [] && ms != [] {
      var next := Collect(es[0], ms[0], params, out);
      NothingIsLost(es[0], ms[0], params, out);
      NothingIsLostInEach(es[1..], ms[1..], params, next);
      KeepsOn(CollectEach(es[1..], ms[1..], params, next), next, out);
    }
  }

  /** What parameters of functions bind is only added where nothing stood. */
  lemma {:induction false} NothingIsLostInParams(ps: seq<Param>, n: nat, actual: seq<Param>, params: set<string>,
                                                 out: Subst)
    requires n <= |ps|
    ensures Keeps(CollectParams(ps, n, actual, params, out), out)
    decreases ps
  {
    KeepsItself(out);
    if n > 0 && actual != [] {
      var next := Collect(ps[0].ty, actual[0].ty, params, map[]) + out;
      NothingIsLostInParams(ps[1..], n - 1, actual[1..], params, next);
      assert Keeps(next, out);
      hide Keeps;
      KeepsOn(CollectParams(ps[1..], n - 1, actual[1..], params, next), next, out);
    }
  }

  lemma {:induction false} NothingIsLostInFirst(ms: seq<Type>, a: Type, params: set<string>, out: Subst)
    requires PackNothing(ms, params)
    ensures Keeps(CollectFirst(ms, a, params, out), out)
    decreases ms, a
  {
    hide Keeps;
    KeepsItself(out);
    if ms != [] {
      if ms[0] == NULL { NothingIsLostInFirst(ms[1..], a, params, out); }
      else { NothingIsLost(ms[0], a, params, out); }
    }
  }

  // --- where everything is seen --------------------------------------------------------

  /** Parameters only under arrays, generic arguments and function types that pack none. */
  predicate Plain(e: Type, params: set<string>)
    decreases e
  {
    match e
    case Generic(_, es, _) => PlainAll(es, params)
    case Array(inner) => Plain(inner, params)
    case Fn(ps, ret, _, _) =>
      && (forall i :: 0 <= i < |ps| - 1 ==> !ps[i].isRest)
      && Pack(ps, params) == None && PlainParams(ps, params) && Plain(ret, params)
    case Union(ms) => OccursAll(ms) !! params
    case Tuple(ms) => OccursAll(ms) !! params
    case Object(fields) => OccursMembers(fields) !! params
    case Conditional(_, _, _, _) => Occurs(e) !! params
    case _ => true
  }

  predicate PlainAll(es: seq<Type>, params: set<string>)
    decreases es
  {
    es != [] ==> Plain(es[0], params) && PlainAll(es[1..], params)
  }

  predicate PlainParams(ps: seq<Param>, params: set<string>)
    decreases ps
  {
    ps != [] ==> assert ps[0].ty < ps[0]; Plain(ps[0].ty, params) && PlainParams(ps[1..], params)
  }

  lemma {:induction false} PlainIsSeen(e: Type, ev: Evaluate, sigma: Subst)
    requires Plain(e, sigma.Keys)
    ensures Matchable(e, ev, sigma) && Occurs(e) * sigma.Keys == Seen(e, sigma.Keys)
    decreases e
  {
    match e
    case Generic(_, es, _) => PlainAllSeen(es, ev, sigma);
    case Array(inner) => PlainIsSeen(inner, ev, sigma);
    case Fn(ps, ret, _, _) =>
      PlainParamsSeen(ps, ev, sigma);
      PlainIsSeen(ret, ev, sigma);
    case Union(ms) => SeenFirstOccurs(ms, sigma.Keys);
    case _ =>
  }

  lemma {:induction false} PlainAllSeen(es: seq<Type>, ev: Evaluate, sigma: Subst)
    requires PlainAll(es, sigma.Keys)
    ensures MatchableAll(es, ev, sigma) && OccursAll(es) * sigma.Keys == SeenAll(es, sigma.Keys)
    decreases es
  {
    if es != [] {
      PlainIsSeen(es[0], ev, sigma);
      PlainAllSeen(es[1..], ev, sigma);
    }
  }

  lemma {:induction false} PlainParamsSeen(ps: seq<Param>, ev: Evaluate, sigma: Subst)
    requires PlainParams(ps, sigma.Keys)
    ensures MatchableParams(ps, |ps|, ev, sigma)
    ensures OccursParams(ps) * sigma.Keys == SeenParams(ps, |ps|, sigma.Keys)
    decreases ps
  {
    if ps != [] {
      assert ps[0].ty < ps[0];
      PlainIsSeen(ps[0].ty, ev, sigma);
      PlainParamsSeen(ps[1..], ev, sigma);
    }
  }

  /**
    * From no bindings, matching a type against its instance finds the substitution
    * on the parameters seen, and so on all that occur exactly when all are seen; the
    * bindings found then instantiate the type to the argument's type again.
    */
  lemma InferenceRecoversSubstitution(e: Type, ev: Evaluate, sigma: Subst)
    requires Matchable(e, ev, sigma)
    ensures var found := Collect(e, Substitute(e, ev, sigma), sigma.Keys, map[]);
            var all := Occurs(e) * sigma.Keys <= Seen(e, sigma.Keys);
            && found == Restrict(sigma, Seen(e, sigma.Keys))
            && (found == Restrict(sigma, Occurs(e)) <==> all)
            && (all ==> Substitute(e, ev, found) == Substitute(e, ev, sigma))
  {
    hide Substitute, Collect, Seen, Matchable, Occurs;
    var seen := Seen(e, sigma.Keys);
    InferenceUndoesSubstitution(e, ev, sigma, map[]);
    SeenOccurs(e, sigma.Keys);
    var found := Restrict(sigma, seen);
    assert map[] + found == found;
    if Occurs(e) * sigma.Keys <= seen {
      assert found == Restrict(sigma, Occurs(e));
      SubstituteDependsOnOccurring(e, ev, found, sigma);
    } else {
      var n :| n in Occurs(e) * sigma.Keys && n !in seen;
      assert n in Restrict(sigma, Occurs(e)) && n !in found;
    }
  }

  lemma PlainInferenceIsExact(e: Type, ev: Evaluate, sigma: Subst)
    requires Plain(e, sigma.Keys)
    ensures var found := Collect(e, Substitute(e, ev, sigma), sigma.Keys, map[]);
            found == Restrict(sigma, Occurs(e)) && Substitute(e, ev, found) == Substitute(e, ev, sigma)
  {
    PlainIsSeen(e, ev, sigma);
    InferenceRecoversSubstitution(e, ev, sigma);
  }

  /** A parameter inside a tuple is substituted but never inferred. */
  lemma TupleHidesParameter(t: Type, ev: Evaluate)
    ensures var sigma := map["T" := t];
            var e := Tuple([Named("T", None)]);
            && Substitute(e, ev, sigma) == Tuple([t])
            && Collect(e, Substitute(e, ev, sigma), sigma.Keys, map[]) == map[]
  {
    var sigma := map["T" := t];
    var one := [Named("T", None)];
    assert SubstituteAll(one, ev, sigma) == [Substitute(one[0], ev, sigma)] + SubstituteAll(one[1..], ev, sigma);
  }

  /** Of a union parameter's alternatives, those after the first never bind anything. */
  lemma {:induction false} LaterAlternativesUnmatched(first: Type, rest: seq<Type>, other: seq<Type>, a: Type,
                                                      params: set<string>, out: Subst)
    requires first != NULL
    ensures Collect(Union([first] + rest), a, params, out) == Collect(Union([first] + other), a, params, out)
    decreases a
  {
    var e, f := Union([first] + rest), Union([first] + other);
    if a.Union? {
      LaterUnmatchedMembers(first, rest, other, a.members, params, out);
    } else {
      assert CollectFirst([first] + rest, a, params, out) == CollectFirst([first] + other, a, params, out);
    }
  }

  lemma {:induction false} LaterUnmatchedMembers(first: Type, rest: seq<Type>, other: seq<Type>, ms: seq<Type>,
                                                 params: set<string>, out: Subst)
    requires first != NULL
    ensures CollectMembers(Union([first] + rest), ms, params, out)
         == CollectMembers(Union([first] + other), ms, params, out)
    decreases ms
  {
    if ms != [] {
      LaterAlternativesUnmatched(first, rest, other, ms[0], params, out);
      var next := Collect(Union([first] + rest), ms[0], params, out);
      LaterUnmatchedMembers(first, rest, other, ms[1..], params, next);
    }
  }

  // --- the table of bindings, filled in place -----------------------------------------------

  lemma MembersStep(e: Type, ms: seq<Type>, i: nat, params: set<string>, out: Subst)
    requires i < |ms|
    ensures CollectMembers(e, ms[i..], params, out)
         == CollectMembers(e, ms[i + 1..], params, Collect(e, ms[i], params, out))
  {
    hide Collect;
    assert ms[i..][1..] == ms[i + 1..];
  }

  lemma EachStep(es: seq<Type>, ms: seq<Type>, i: nat, params: set<string>, out: Subst)
    requires i < |es| && i < |ms|
    ensures CollectEach(es[i..], ms[i..], params, out)
         == CollectEach(es[i + 1..], ms[i + 1..], params, Collect(es[i], ms[i], params, out))
  {
    hide Collect;
    assert es[i..][1..] == es[i + 1..] && ms[i..][1..] == ms[i + 1..];
  }

  lemma ParamsStep(ps: seq<Param>, n: nat, i: nat, actual: seq<Param>, params: set<string>, out: Subst)
    requires i < n <= |ps| && i < |actual|
    ensures CollectParams(ps[i..], n - i, actual[i..], params, out)
         == CollectParams(ps[i + 1..], n - i - 1, actual[i + 1..], params,
                          Collect(ps[i].ty, actual[i].ty, params, map[]) + out)
  {
    hide Collect;
    assert ps[i..][1..] == ps[i + 1..] && actual[i..][1..] == actual[i + 1..];
  }

  /** Pairing the non-null alternatives with a lone argument is matching the first of them. */
  lemma {:induction false} PairingIsFirst(ms: seq<Type>, a: Type, params: set<string>, out: Subst)
    requires a != NULL
    ensures CollectEach(Present(ms), [a], params, out) == CollectFirst(ms, a, params, out)
    decreases ms
  {
    hide Collect;
    if ms != [] {
      if ms[0] == NULL {
        PairingIsFirst(ms[1..], a, params, out);
        assert Present(ms) == Present(ms[1..]);
      } else {
        assert [a][1..] == [];
      }
    }
  }

  lemma MemberSmaller(ms: seq<Type>, m: Type)
    requires m in ms
    ensures m < Union(ms)
  {
    var k :| 0 <= k < |ms| && ms[k] == m;
    assert Union(ms).members[k] == m;
  }

  class Inferences {
    var out: Subst

    constructor ()
      ensures out == map[]
    {
      out := map[];
    }

    /** Adds what is not bound yet, in whatever order the names come. */
    method AddMissing(found: Subst)
      modifies this
      ensures out == found + old(out)
    {
      var names := found.Keys;
      while names != {}
        invariant names <= found.Keys
        invariant out == (map n | n in found && n !in names :: found[n]) + old(out)
        decreases names
      {
        var name :| name in names;
        if name !in out { out := out[name := found[name]]; }
        names := names - {name};
      }
    }

    method CollectTypeInferences(e: Type, a: Type, params: set<string>)
      modifies this
      ensures out == Collect(e, a, params, old(out))
      decreases e, a, 1
    {
      if !IsParam(e, params) && a.Union? {
        for i := 0 to |a.members|
          invariant CollectMembers(e, a.members[i..], params, out)
                 == CollectMembers(e, a.members, params, old(out))
        {
          MembersStep(e, a.members, i, params, out);
          CollectTypeInferences(e, a.members[i], params);
        }
        return;
      }
      match e
      case Named(n, _) =>
        if n in params {
          if n !in out { out := out[n := a]; }
          if out[n] != a { out := out[n := UnionOf([out[n], a])]; }
        }
      case Generic(_, es, _) =>
        if a.Generic? { CollectPairs(e, a, es, a.args, params); }
      case Array(inner) =>
        if a.Array? { CollectTypeInferences(inner, a.inner, params); }
      case Fn(_, _, _, _) =>
        if a.Fn? { CollectFunction(e, a, params); }
      case Union(ms) =>
        var eIds := Present(ms);
        var aIds := if a == NULL then [] else [a];
        if a != NULL { PairingIsFirst(ms, a, params, out); }
        forall m | m in eIds ensures m < e { MemberSmaller(ms, m); }
        CollectPairs(e, a, eIds, aIds, params);
      case _ =>
    }

    method CollectPairs(ghost e: Type, ghost a: Type, es: seq<Type>, ms: seq<Type>, params: set<string>)
      requires forall m :: m in es ==> m < e
      modifies this
      ensures out == CollectEach(es, ms, params, old(out))
      decreases e, a, 0
    {
      var n := if |es| < |ms| then |es| else |ms|;
      for i := 0 to n
        invariant CollectEach(es[i..], ms[i..], params, out) == CollectEach(es, ms, params, old(out))
      {
        EachStep(es, ms, i, params, out);
        assert es[i] in es;
        CollectTypeInferences(es[i], ms[i], params);
      }
    }

    method CollectFunction(e: Type, a: Type, params: set<string>)
      requires e.Fn? && a.Fn?
      modifies this
      ensures out == Collect(e, a, params, old(out))
      decreases e, a, 0
    {
      var ps, actual := e.params, a.params;
      var pack := Pack(ps, params);
      var paired := |ps|;
      if pack.Some? {
        paired := |ps| - 1;
        out := out[pack.value := Tuple(Surplus(ps, actual))];
      }
      ghost var packed := out;
      var n := if paired < |actual| then paired else |actual|;
      for i := 0 to n
        invariant CollectParams(ps[i..], paired - i, actual[i..], params, out)
               == CollectParams(ps, paired, actual, params, packed)
      {
        ParamsStep(ps, paired, i, actual, params, out);
        var contravariant := new Inferences();
        assert ps[i].ty < ps[i];
        contravariant.CollectTypeInferences(ps[i].ty, actual[i].ty, params);
        AddMissing(contravariant.out);
      }
      CollectTypeInferences(e.ret, a.ret, params);
    }
  }
}
