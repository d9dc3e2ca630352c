/**
  * When `resolve` succeeds: exactly when the tensor exists and the search met every pending
  * input after its consumer.
  */
module ArenaResolution {
  import opened Wrappers
  import opened TensorOps
  import opened TensorArena

  predicate IsPending<E>(a: Arena<E>, h: Handle) {
    Live(a, h) && SlotAt(a, h).data.None? && SlotAt(a, h).node.Some?
  }

  function Inputs<E>(a: Arena<E>, h: Handle): seq<Handle>
    requires IsPending(a, h)
  {
    SlotAt(a, h).node.value.inputs
  }

  /** Reading the order backwards meets every pending input of a node before the node. */
  ghost predicate InputsLater<E>(a: Arena<E>, order: seq<Handle>) {
    forall i, p :: 0 <= i < |order| && IsPending(a, order[i]) && p in Inputs(a, order[i]) && IsPending(a, p) ==>
      p in order[i + 1..]
  }

  ghost predicate AllDefined<E>(ar: Arith<E>, a: Arena<E>, order: seq<Handle>) {
    forall i :: 0 <= i < |order| ==> Eval(ar, a, order[i]).Ok?
  }

  /** An order the search can produce: distinct pending nodes whose inputs are all live. */
  ghost predicate GoodOrder<E>(a: Arena<E>, order: seq<Handle>) {
    && (forall i :: 0 <= i < |order| ==> IsPending(a, order[i]))
    && (forall i, j :: 0 <= i < j < |order| ==> order[i] != order[j])
  }

  // --- running an order -----------------------------------------------------

  /** `b` is `a` after the nodes of the order from position `n` on have run. */
  ghost predicate Ran<E(!new)>(ar: Arith<E>, a: Arena<E>, order: seq<Handle>, n: nat, b: Arena<E>)
    requires n <= |order|
  {
    && Valid(b) && Advanced(ar, a, b)
    && (forall h: Handle :: Live(a, h) && h !in order[n..] ==> SlotAt(b, h) == SlotAt(a, h))
    && (forall h :: h in order[n..] ==> Live(a, h) && SlotAt(b, h).data.Some?)
  }

  lemma RanOne<E(!new)>(ar: Arith<E>, a: Arena<E>, order: seq<Handle>, n: nat, b: Arena<E>)
    requires 0 < n <= |order| && Ran(ar, a, order, n, b) && GoodOrder(a, order)
    requires RunOne(ar, b, order[n - 1]).Ok?
    ensures Ran(ar, a, order, n - 1, RunOne(ar, b, order[n - 1]).value)
  {
    var cur := order[n - 1];
    var c := RunOne(ar, b, cur).value;
    RunOneAdvances(ar, b, cur);
    AdvancedTransitive(ar, a, b, c);
    assert forall h: Handle :: Live(a, h) ==> Live(b, h);
    assert Valid(c) && Advanced(ar, a, c);
    RanMembers(order, n);
    hide RunOne, Lookup, Valid, Advanced, Eval;
    forall h | h in order[n - 1..] ensures Live(a, h) && SlotAt(c, h).data.Some? {
      if h != cur {
        assert SlotAt(c, h) == SlotAt(b, h);
      }
    }
  }

  lemma RanMembers(order: seq<Handle>, n: nat)
    requires 0 < n <= |order|
    ensures forall h :: h in order[n - 1..] <==> h == order[n - 1] || h in order[n..]
  {
    assert order[n - 1..] == [order[n - 1]] + order[n..];
  }

  /** Whether one input has data once the later part of the order has run. */
  lemma InputReady<E(!new)>(ar: Arith<E>, a: Arena<E>, order: seq<Handle>, n: nat, b: Arena<E>, p: Handle)
    requires n <= |order| && Valid(a) && Ran(ar, a, order, n, b)
    ensures CachedData(b, p).Ok? <==> Live(a, p) && (IsPending(a, p) ==> p in order[n..])
  {
    assert Lookup(a, p) == Lookup(b, p);
    if Live(a, p) {
      LiveGen(a, p);
      assert SlotOk(a, SlotAt(a, p));
    }
  }

  lemma {:induction false} InputsReady<E(!new)>(ar: Arith<E>, a: Arena<E>, order: seq<Handle>, n: nat, b: Arena<E>,
                                                hs: seq<Handle>)
    requires n <= |order| && Valid(a) && Ran(ar, a, order, n, b)
    ensures CachedAll(b, hs).Ok? <==> forall p :: p in hs ==> Live(a, p) && (IsPending(a, p) ==> p in order[n..])
  {
    if hs != [] {
      InputReady(ar, a, order, n, b, hs[0]);
      InputsReady(ar, a, order, n, b, hs[1..]);
      assert forall p :: p in hs <==> p == hs[0] || p in hs[1..];
      hide Ran, IsPending, CachedData, Live;
    }
  }

  /** One node runs exactly when its pending inputs have run and its tensor exists. */
  lemma NodeRuns<E(!new)>(ar: Arith<E>, a: Arena<E>, order: seq<Handle>, n: nat, b: Arena<E>)
    requires 0 < n <= |order| && Valid(a) && Ran(ar, a, order, n, b) && GoodOrder(a, order)
    ensures
      var cur := order[n - 1];
      RunOne(ar, b, cur).Ok? <==>
        && Eval(ar, a, cur).Ok?
        && forall p :: p in Inputs(a, cur) && IsPending(a, p) ==> p in order[n..]
  {
    var cur := order[n - 1];
    assert cur !in order[n..];
    assert SlotAt(b, cur) == SlotAt(a, cur) && Live(b, cur);
    AdvancedMeaning(ar, a, b, cur);
    ComputedIsMeaning(ar, b, cur);
    InputsReady(ar, a, order, n, b, Inputs(a, cur));
    DefinedInputsLive(ar, b, cur);
    LiveGen(b, cur);
    CachedIsMeaning(ar, b, Inputs(a, cur), Gen(cur));
    assert forall p: Handle :: Live(b, p) == Live(a, p) by {
      assert forall p: Handle :: Lookup(a, p) == Lookup(b, p);
    }
    hide Ran, Advanced, Lookup, CachedAll, Valid, GoodOrder, EvalAll, Apply;
  }

  /** A tensor that exists has live inputs. */
  lemma DefinedInputsLive<E(!new)>(ar: Arith<E>, a: Arena<E>, h: Handle)
    requires IsPending(a, h)
    ensures Eval(ar, a, h).Ok? ==> forall p :: p in Inputs(a, h) ==> Live(a, p) && Eval(ar, a, p).Ok? && Gen(p) < Gen(h)
  {
    DefinedAll(ar, a, Inputs(a, h), Gen(h));
  }

  lemma DefinedIsLive<E(!new)>(ar: Arith<E>, a: Arena<E>, h: Handle)
    requires Eval(ar, a, h).Ok?
    ensures Live(a, h)
  {
  }

  lemma {:induction false} DefinedAll<E(!new)>(ar: Arith<E>, a: Arena<E>, hs: seq<Handle>, bound: nat)
    ensures EvalAll(ar, a, hs, bound).Ok? ==> forall p :: p in hs ==> Live(a, p) && Eval(ar, a, p).Ok? && Gen(p) < bound
  {
    if hs != [] && EvalAll(ar, a, hs, bound).Ok? {
      assert Gen(hs[0]) < bound && Eval(ar, a, hs[0]).Ok? && EvalAll(ar, a, hs[1..], bound).Ok?;
      DefinedAll(ar, a, hs[1..], bound);
      DefinedIsLive(ar, a, hs[0]);
      hide Eval, EvalAll, Lookup;
      assert forall p :: p in hs ==> p == hs[0] || p in hs[1..];
    }
  }

  lemma {:induction false} RunAllSucceeds<E(!new)>(ar: Arith<E>, a: Arena<E>, order: seq<Handle>, n: nat, b: Arena<E>)
    requires n <= |order| && Valid(a) && Ran(ar, a, order, n, b) && GoodOrder(a, order)
    ensures RunAll(ar, b, order[..n]).1.None? <==>
      && (forall i :: 0 <= i < n ==> Eval(ar, a, order[i]).Ok?)
      && (forall i, p :: 0 <= i < n && p in Inputs(a, order[i]) && IsPending(a, p) ==> p in order[i + 1..])
    ensures RunAll(ar, b, order[..n]).1.None? ==> Ran(ar, a, order, 0, RunAll(ar, b, order[..n]).0)
    decreases n
  {
    if n > 0 {
      var cur := order[n - 1];
      assert order[..n][n - 1] == cur && order[..n][..n - 1] == order[..n - 1];
      NodeRuns(ar, a, order, n, b);
      if RunOne(ar, b, cur).Ok? {
        RanOne(ar, a, order, n, b);
        RunAllSucceeds(ar, a, order, n - 1, RunOne(ar, b, cur).value);
      }
      hide Ran, RunOne, Eval, IsPending;
    }
  }

  lemma RanNothing<E(!new)>(ar: Arith<E>, a: Arena<E>, order: seq<Handle>)
    requires Valid(a)
    ensures Ran(ar, a, order, |order|, a)
  {
  }

  // --- the search -----------------------------------------------------------

  ghost predicate Searching<E>(a: Arena<E>, root: Handle, s: Search) {
    && GoodOrder(a, s.order)
    && (forall x :: x in s.order ==> x in s.seen)
    && (forall x :: x in s.seen ==> Live(a, x) && (IsPending(a, x) ==> x in s.order))
    && (forall i, p :: 0 <= i < |s.order| && p in Inputs(a, s.order[i]) ==> p in s.seen || p in s.stack)
    && (root in s.seen || root in s.stack)
  }

  lemma SearchStep<E>(a: Arena<E>, root: Handle, s: Search)
    requires Valid(a) && Searching(a, root, s) && s.stack != [] && VisitOne(a, s).Ok?
    ensures Searching(a, root, VisitOne(a, s).value)
  {
    var n := |s.stack| - 1;
    var cur, rest := s.stack[n], s.stack[..n];
    assert forall x :: x in s.stack <==> x == cur || x in rest by {
      assert s.stack == rest + [cur];
    }
    hide Lookup, Valid;
  }

  lemma {:induction false} SearchEnds<E>(a: Arena<E>, root: Handle, s: Search)
    requires Valid(a) && Searching(a, root, s) && Visit(a, s).Ok?
    ensures Searching(a, root, Visit(a, s).value) && Visit(a, s).value.stack == []
    decreases LiveHandles(a) - s.seen, |s.stack|
  {
    if s.stack != [] {
      SearchStep(a, root, s);
      VisitShrinks(a, s);
      SearchEnds(a, root, VisitOne(a, s).value);
    }
  }

  /** What the search returns: every pending node it needs once, the root among them. */
  lemma OrderIsGood<E>(a: Arena<E>, h: Handle)
    requires Valid(a) && Order(a, h).Ok?
    ensures GoodOrder(a, Order(a, h).value)
    ensures Live(a, h) && (IsPending(a, h) ==> h in Order(a, h).value)
  {
    SearchEnds(a, h, Search([h], {}, []));
  }

  /** While the tensors of the handles to visit exist, the search cannot fail, and meets only tensors that exist. */
  lemma {:induction false} SearchSucceeds<E(!new)>(ar: Arith<E>, a: Arena<E>, s: Search)
    requires Valid(a) && forall x :: x in s.stack ==> Eval(ar, a, x).Ok?
    requires AllDefined(ar, a, s.order)
    ensures Visit(a, s).Ok? && AllDefined(ar, a, Visit(a, s).value.order)
    decreases LiveHandles(a) - s.seen, |s.stack|
  {
    if s.stack != [] {
      var n := |s.stack| - 1;
      var cur, rest := s.stack[n], s.stack[..n];
      assert cur in s.stack && forall x :: x in rest ==> x in s.stack;
      assert VisitOne(a, s).Ok?;
      if IsPending(a, cur) {
        DefinedInputsLive(ar, a, cur);
      }
      VisitShrinks(a, s);
      var s' := VisitOne(a, s).value;
      assert forall x :: x in s'.stack ==> Eval(ar, a, x).Ok?;
      assert AllDefined(ar, a, s'.order);
      hide VisitOne, Eval, Valid;
      SearchSucceeds(ar, a, s');
    }
  }

  /**
   * `resolve` succeeds exactly when the tensor exists and the order in which the search met the pending nodes puts
   * every pending input behind its consumers. The order can be computed before the call.
   */
  lemma ResolveSucceeds<E(!new)>(ar: Arith<E>, a: Arena<E>, h: Handle)
    requires Valid(a)
    ensures Eval(ar, a, h).Ok? ==> Order(a, h).Ok?
    ensures Resolve(ar, a, h).1.Ok? <==> Eval(ar, a, h).Ok? && InputsLater(a, Order(a, h).value)
  {
    ResolveIsSound(ar, a, h);
    if Eval(ar, a, h).Ok? {
      SearchSucceeds(ar, a, Search([h], {}, []));
    }
    if Order(a, h).Ok? {
      var order := Order(a, h).value;
      OrderIsGood(a, h);
      RanNothing(ar, a, order);
      RunAllSucceeds(ar, a, order, |order|, a);
      assert order[..|order|] == order;
      var (b, failure) := RunAll(ar, a, order);
      if failure.None? {
        assert order[0..] == order;
        InputReady(ar, a, order, 0, b, h);
      }
      hide Ran, Eval, IsPending, RunAll, Valid, Visit;
    }
  }

  // --- tree-shaped pending graphs -------------------------------------------

  /** No pending node is an input of two of the nodes. */
  ghost predicate SingleConsumer<E>(a: Arena<E>, order: seq<Handle>) {
    forall i, j, p :: 0 <= i < |order| && 0 <= j < |order| ==>
      ConsumerAt(a, order, i, p) && ConsumerAt(a, order, j, p) ==> i == j
  }

  /** Position `i` of the order holds a pending node that has the pending node `p` as an input. */
  predicate ConsumerAt<E>(a: Arena<E>, order: seq<Handle>, i: nat, p: Handle)
    requires i < |order|
  {
    IsPending(a, order[i]) && IsPending(a, p) && p in Inputs(a, order[i])
  }

  /** `x` was put on the stack by one of the first `n` nodes, unless it is the root. */
  ghost predicate PushedBefore<E>(a: Arena<E>, root: Handle, order: seq<Handle>, n: nat, x: Handle)
    requires n <= |order|
  {
    x == root || exists m :: 0 <= m < n && IsPending(a, order[m]) && x in Inputs(a, order[m])
  }

  /** The search of a tree: every pending input met so far stands behind its consumer or is still to be visited. */
  ghost predicate TreeSearch<E>(a: Arena<E>, root: Handle, s: Search) {
    && Searching(a, root, s)
    && (forall x :: x in s.stack || x in s.order ==> Gen(x) <= Gen(root))
    && (forall x :: x in s.stack ==> PushedBefore(a, root, s.order, |s.order|, x))
    && (forall k :: 0 <= k < |s.order| ==> PushedBefore(a, root, s.order, k, s.order[k]))
    && LaterOrStacked(a, s.order, s.stack)
  }

  lemma InputsAreOlder<E>(a: Arena<E>, h: Handle, p: Handle)
    requires Valid(a) && IsPending(a, h) && p in Inputs(a, h)
    ensures Gen(p) < Gen(h)
  {
    LiveGen(a, h);
    assert SlotOk(a, SlotAt(a, h));
  }

  /** A node already met that is an input of an earlier node of a tree stands behind that node. */
  lemma MetBehindConsumer<E>(a: Arena<E>, root: Handle, s: Search, i: nat, p: Handle)
    requires Valid(a) && TreeSearch(a, root, s) && SingleConsumer(a, s.order)
    requires i < |s.order| && p in Inputs(a, s.order[i]) && IsPending(a, p) && p in s.seen
    ensures p in s.order[i + 1..]
  {
    InputsAreOlder(a, s.order[i], p);
    assert s.order[i] in s.order && p in s.order;
    var k :| 0 <= k < |s.order| && s.order[k] == p;
    assert PushedBefore(a, root, s.order, k, p);
    var m :| 0 <= m < k && IsPending(a, s.order[m]) && p in Inputs(a, s.order[m]);
    assert ConsumerAt(a, s.order, m, p) && ConsumerAt(a, s.order, i, p);
    assert s.order[i + 1..][k - (i + 1)] == p;
  }

  lemma TreeStep<E>(a: Arena<E>, root: Handle, s: Search)
    requires Valid(a) && TreeSearch(a, root, s) && s.stack != [] && VisitOne(a, s).Ok?
    requires SingleConsumer(a, s.order)
    ensures TreeSearch(a, root, VisitOne(a, s).value)
  {
    SearchStep(a, root, s);
    var n := |s.stack| - 1;
    var cur, rest := s.stack[n], s.stack[..n];
    var s' := VisitOne(a, s).value;
    assert cur in s.stack && forall x :: x in s.stack <==> x == cur || x in rest by {
      assert s.stack == rest + [cur];
    }
    if cur !in s.seen && IsPending(a, cur) {
      TreePush(a, root, s, cur, rest);
    } else {
      assert s'.order == s.order && s'.stack == rest;
      forall i, p | 0 <= i < |s.order| && p in Inputs(a, s.order[i]) && IsPending(a, p)
        ensures p in rest || p in s.order[i + 1..]
      {
        if p == cur {
          MetBehindConsumer(a, root, s, i, p);
        } else {
          assert p in s.stack || p in s.order[i + 1..];
        }
      }
      hide VisitOne, Searching, PushedBefore, SingleConsumer, IsPending;
    }
  }

  lemma TreePush<E>(a: Arena<E>, root: Handle, s: Search, cur: Handle, rest: seq<Handle>)
    requires Valid(a) && TreeSearch(a, root, s) && IsPending(a, cur)
    requires forall x :: x in s.stack <==> x == cur || x in rest
    requires Searching(a, root, Search(rest + Inputs(a, cur), s.seen + {cur}, s.order + [cur]))
    ensures TreeSearch(a, root, Search(rest + Inputs(a, cur), s.seen + {cur}, s.order + [cur]))
  {
    TreePushLater(a, s, cur, rest);
    TreePushStack(a, root, s, cur, rest);
    TreePushOrder(a, root, s, cur);
    hide Searching, LaterOrStacked, PushedBefore, IsPending, GoodOrder, Gen;
  }

  lemma TreePushStack<E>(a: Arena<E>, root: Handle, s: Search, cur: Handle, rest: seq<Handle>)
    requires Valid(a) && TreeSearch(a, root, s) && IsPending(a, cur) && cur in s.stack
    requires forall x :: x in rest ==> x in s.stack
    ensures forall x :: x in rest + Inputs(a, cur) ==>
              Gen(x) <= Gen(root) && PushedBefore(a, root, s.order + [cur], |s.order| + 1, x)
  {
    var order := s.order + [cur];
    assert Gen(cur) <= Gen(root);
    assert forall x :: x in rest ==> Gen(x) <= Gen(root) && PushedBefore(a, root, s.order, |s.order|, x);
    hide TreeSearch, PushedBefore, IsPending, Valid, Gen;
    forall x | x in rest + Inputs(a, cur) ensures Gen(x) <= Gen(root) && PushedBefore(a, root, order, |order|, x) {
      if x in rest {
        PushedLater(a, root, s.order, order, |s.order|, |order|, x);
      } else {
        InputsAreOlder(a, cur, x);
        PushedNow(a, root, order, cur, x);
      }
    }
  }

  lemma TreePushOrder<E>(a: Arena<E>, root: Handle, s: Search, cur: Handle)
    requires TreeSearch(a, root, s) && cur in s.stack
    ensures
      var order := s.order + [cur];
      && (forall x :: x in order ==> Gen(x) <= Gen(root))
      && (forall k :: 0 <= k < |order| ==> PushedBefore(a, root, order, k, order[k]))
  {
    var order := s.order + [cur];
    assert Gen(cur) <= Gen(root) && forall x :: x in s.order ==> Gen(x) <= Gen(root);
    assert PushedBefore(a, root, s.order, |s.order|, cur);
    assert forall k :: 0 <= k < |s.order| ==> PushedBefore(a, root, s.order, k, s.order[k]);
    hide TreeSearch, PushedBefore, Gen;
    forall k | 0 <= k < |order| ensures PushedBefore(a, root, order, k, order[k]) {
      PushedLater(a, root, s.order, order, k, k, order[k]);
    }
  }

  /** Every pending input of the order is still on the stack or stands behind its consumer. */
  ghost predicate LaterOrStacked<E>(a: Arena<E>, order: seq<Handle>, stack: seq<Handle>)
    requires GoodOrder(a, order)
  {
    forall i, p :: 0 <= i < |order| && p in Inputs(a, order[i]) && IsPending(a, p) ==> p in stack || p in order[i + 1..]
  }

  lemma TreePushLater<E>(a: Arena<E>, s: Search, cur: Handle, rest: seq<Handle>)
    requires GoodOrder(a, s.order) && GoodOrder(a, s.order + [cur]) && IsPending(a, cur)
    requires LaterOrStacked(a, s.order, s.stack)
    requires forall x :: x in s.stack <==> x == cur || x in rest
    ensures LaterOrStacked(a, s.order + [cur], rest + Inputs(a, cur))
  {
    var order, stack := s.order + [cur], rest + Inputs(a, cur);
    forall i, p | 0 <= i < |order| && p in Inputs(a, order[i]) && IsPending(a, p)
      ensures p in stack || p in order[i + 1..]
    {
      if i < |s.order| {
        assert order[i] == s.order[i] && order[i + 1..] == s.order[i + 1..] + [cur];
        assert p in s.stack || p in s.order[i + 1..];
      }
    }
  }

  lemma PushedNow<E>(a: Arena<E>, root: Handle, order: seq<Handle>, cur: Handle, x: Handle)
    requires order != [] && order[|order| - 1] == cur && IsPending(a, cur) && x in Inputs(a, cur)
    ensures PushedBefore(a, root, order, |order|, x)
  {
    assert 0 <= |order| - 1 < |order|;
  }

  lemma PushedLater<E>(a: Arena<E>, root: Handle, order: seq<Handle>, longer: seq<Handle>, n: nat, n': nat, x: Handle)
    requires order <= longer && n <= |order| && n <= n' <= |longer| && PushedBefore(a, root, order, n, x)
    ensures PushedBefore(a, root, longer, n', x)
  {
    if x != root {
      var m :| 0 <= m < n && IsPending(a, order[m]) && x in Inputs(a, order[m]);
      assert longer[m] == order[m];
    }
  }

  lemma {:induction false} OrderGrows<E>(a: Arena<E>, s: Search)
    requires Valid(a) && Visit(a, s).Ok?
    ensures s.order <= Visit(a, s).value.order
    decreases LiveHandles(a) - s.seen, |s.stack|
  {
    if s.stack != [] {
      VisitShrinks(a, s);
      OrderGrows(a, VisitOne(a, s).value);
    }
  }

  lemma {:induction false} TreeSearchEnds<E>(a: Arena<E>, root: Handle, s: Search)
    requires Valid(a) && TreeSearch(a, root, s) && Visit(a, s).Ok?
    requires SingleConsumer(a, Visit(a, s).value.order)
    ensures InputsLater(a, Visit(a, s).value.order)
    decreases LiveHandles(a) - s.seen, |s.stack|
  {
    hide VisitOne, TreeSearch, SingleConsumer, InputsLater, Valid;
    if s.stack != [] {
      OrderGrows(a, s);
      SingleConsumerOfPrefix(a, s.order, Visit(a, s).value.order);
      TreeStep(a, root, s);
      VisitShrinks(a, s);
      TreeSearchEnds(a, root, VisitOne(a, s).value);
    } else {
      TreeSearchDone(a, root, s);
    }
  }

  lemma TreeSearchDone<E>(a: Arena<E>, root: Handle, s: Search)
    requires TreeSearch(a, root, s) && s.stack == []
    ensures InputsLater(a, s.order)
  {
    assert LaterOrStacked(a, s.order, s.stack);
    hide TreeSearch, IsPending, Searching;
  }

  lemma SingleConsumerOfPrefix<E>(a: Arena<E>, order: seq<Handle>, longer: seq<Handle>)
    requires order <= longer && SingleConsumer(a, longer)
    ensures SingleConsumer(a, order)
  {
    forall i, j, p | 0 <= i < |order| && 0 <= j < |order| && ConsumerAt(a, order, i, p) && ConsumerAt(a, order, j, p)
      ensures i == j
    {
      assert ConsumerAt(a, longer, i, p) && ConsumerAt(a, longer, j, p);
    }
  }

  /** A tensor that exists and whose pending nodes form a tree can be resolved. */
  lemma TreesResolve<E(!new)>(ar: Arith<E>, a: Arena<E>, h: Handle)
    requires Valid(a) && Eval(ar, a, h).Ok?
    requires Order(a, h).Ok? ==> SingleConsumer(a, Order(a, h).value)
    ensures Resolve(ar, a, h).1 == Eval(ar, a, h)
  {
    var s := Search([h], {}, []);
    SearchSucceeds(ar, a, s);
    assert TreeSearch(a, h, s);
    hide Eval, Visit, VisitOne, Valid;
    TreeSearchEnds(a, h, s);
    ResolveSucceeds(ar, a, h);
    ResolveIsSound(ar, a, h);
  }
}
