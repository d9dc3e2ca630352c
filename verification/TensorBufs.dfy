/** The arena object: its methods do what the functions on arenas say. */
module TensorBufs {
  import opened Wrappers
  import opened TensorOps
  import opened TensorArena
  import opened ArenaResolution
  import opened ArenaHistory

  /** Holds of every arena with fewer than 2^32 slots, however long its history. */
  ghost predicate Sane<E>(a: Arena<E>) {
    && |a.slots| < TWO32 && 0 < a.nextGen < TWO32
    && forall j :: 0 <= j < |a.free| ==> a.free[j] < |a.slots|
  }

  class Bufs<!E(!new)> {
    const ar: Arith<E>
    var slots: seq<Option<Slot<E>>>
    var free: seq<nat>
    var nextGen: nat

    ghost function State(): Arena<E>
      reads this
    {
      Arena(slots, free, nextGen)
    }

    constructor (ar: Arith<E>)
      ensures this.ar == ar && State() == Empty()
    {
      this.ar := ar;
      slots, free, nextGen := [], [], 1;
    }

    method Get(h: Handle) returns (r: Result<nat, Error>)
      ensures r == Lookup(State(), h)
      ensures h <= 0 ==> r == Err(BadHandle)
      ensures h > 0 && (h % TWO32 >= |slots| || slots[h % TWO32] == None) ==> r == Err(Destroyed)
      ensures h > 0 && h % TWO32 < |slots| && slots[h % TWO32].Some? ==>
                r == if slots[h % TWO32].value.epoch == h / TWO32 then Ok(h % TWO32) else Err(Stale)
    {
      if h <= 0 {
        return Err(BadHandle);
      }
      var idx, epoch := h % TWO32, h / TWO32;
      if idx >= |slots| || slots[idx].None? {
        return Err(Destroyed);
      }
      if slots[idx].value.epoch != epoch {
        return Err(Stale);
      }
      return Ok(idx);
    }

    method Insert(slot: Slot<E>) returns (h: Handle)
      requires Sane(State()) && slot.epoch == nextGen
      modifies this
      ensures State() == Place(old(State()), slot).0
      ensures h == Pack(Place(old(State()), slot).1, old(nextGen))
    {
      nextGen := NextGen(nextGen);
      if free != [] {
        var idx := free[|free| - 1];
        free := free[..|free| - 1];
        slots := slots[idx := Some(slot)];
        h := Pack(idx, slot.epoch);
      } else {
        var idx := |slots|;
        slots := slots + [Some(slot)];
        h := Pack(idx, slot.epoch);
      }
    }

    method Create(len: nat) returns (h: Handle)
      requires Sane(State())
      modifies this
      ensures State() == Place(old(State()), Fresh(old(State()), Zeros(ar, len))).0
      ensures h == Pack(Place(old(State()), Fresh(old(State()), Zeros(ar, len))).1, old(nextGen))
    {
      h := Insert(Slot(nextGen, len, [len], Some(Zeros(ar, len)), None));
    }

    method Upload(vals: seq<E>) returns (h: Handle)
      requires Sane(State())
      modifies this
      ensures State() == Place(old(State()), Fresh(old(State()), vals)).0
      ensures h == Pack(Place(old(State()), Fresh(old(State()), vals)).1, old(nextGen))
    {
      h := Insert(Slot(nextGen, |vals|, [|vals|], Some(vals), None));
    }

    method Lazy(op: Op<E>, inputs: seq<Handle>, len: nat, dims: seq<nat>) returns (r: Result<Handle, Error>)
      requires Sane(State())
      modifies this
      ensures match FirstDead(old(State()), inputs)
              case Some(e) => r == Err(e) && State() == old(State())
              case None =>
                var (b, idx) := Place(old(State()), Pending(old(State()), op, inputs, len, dims));
                State() == b && r == Ok(Pack(idx, old(nextGen)))
    {
      var rest := inputs;
      while rest != []
        invariant State() == old(State())
        invariant FirstDead(State(), rest) == FirstDead(State(), inputs)
        decreases |rest|
      {
        var got := Get(rest[0]);
        if got.Err? {
          return Err(got.error);
        }
        rest := rest[1..];
      }
      var h := Insert(Slot(nextGen, len, dims, None, Some(Node(op, inputs, len))));
      return Ok(h);
    }

    method Destroy(h: Handle) returns (r: Result<(), Error>)
      modifies this
      ensures Live(old(State()), h) ==> r == Ok(()) && State() == TensorArena.Destroy(old(State()), h)
      ensures !Live(old(State()), h) ==> r == Err(Lookup(old(State()), h).error) && State() == old(State())
    {
      var got := Get(h);
      if got.Err? {
        return Err(got.error);
      }
      slots := slots[got.value := None];
      free := free + [got.value];
      return Ok(());
    }

    method Reshape(h: Handle, dims: seq<nat>) returns (r: Result<(), Error>)
      modifies this
      ensures State() == Reshaped(old(State()), h, dims)
      ensures r.Ok? <==> Live(old(State()), h) && Volume(dims) == SlotAt(old(State()), h).len
    {
      var got := Get(h);
      if got.Err? {
        return Err(got.error);
      }
      var slot := slots[got.value].value;
      if Volume(dims) != slot.len {
        return Err(BadReshape);
      }
      slots := slots[got.value := Some(slot.(dims := dims))];
      return Ok(());
    }

    method ResolveCached(h: Handle) returns (r: Result<seq<E>, Error>)
      ensures r == CachedData(State(), h)
    {
      var got := Get(h);
      if got.Err? {
        return Err(got.error);
      }
      var slot := slots[got.value].value;
      if slot.data.Some? {
        return Ok(slot.data.value);
      }
      return Err(Unresolved);
    }

    /** The depth-first search of `resolve`. */
    method Discover(h: Handle) returns (r: Result<seq<Handle>, Error>)
      requires Valid(State())
      ensures r == TensorArena.Order(State(), h)
    {
      var stack: seq<Handle>, order: seq<Handle>, seen: set<Handle> := [h], [], {};
      ghost var a := State();
      while stack != []
        invariant Visit(a, Search([h], {}, [])) == Visit(a, Search(stack, seen, order))
        decreases LiveHandles(a) - seen, |stack|
      {
        ghost var s := Search(stack, seen, order);
        ghost var next := VisitOne(a, s);
        if next.Ok? {
          VisitShrinks(a, s);
        }
        var cur := stack[|stack| - 1];
        stack := stack[..|stack| - 1];
        if cur in seen {
          continue;
        }
        var got := Get(cur);
        if got.Err? {
          return Err(got.error);
        }
        var slot := slots[got.value].value;
        seen := seen + {cur};
        if slot.data.Some? {
          continue;
        }
        if slot.node.None? {
          return Err(Corrupt);
        }
        order := order + [cur];
        stack := stack + slot.node.value.inputs;
      }
      return Ok(order);
    }

    /** The data of all inputs of a node, or the first error. */
    method GatherInputs(inputs: seq<Handle>) returns (r: Result<seq<seq<E>>, Error>)
      ensures r == CachedAll(State(), inputs)
    {
      if inputs == [] {
        return Ok([]);
      }
      var head := ResolveCached(inputs[0]);
      if head.Err? {
        return Err(head.error);
      }
      var tail := GatherInputs(inputs[1..]);
      if tail.Err? {
        return Err(tail.error);
      }
      return Ok([head.value] + tail.value);
    }

    method RunNode(cur: Handle) returns (failure: Option<Error>)
      modifies this
      ensures match RunOne(ar, old(State()), cur)
              case Ok(b) => failure == None && State() == b
              case Err(e) => failure == Some(e) && State() == old(State())
    {
      var got := Get(cur);
      if got.Err? {
        return Some(got.error);
      }
      var slot := slots[got.value].value;
      if slot.data.Some? {
        return None;
      }
      if slot.node.None? {
        return Some(Corrupt);
      }
      var node := slot.node.value;
      var ins := GatherInputs(node.inputs);
      if ins.Err? {
        return Some(ins.error);
      }
      var data := RunOp(ar, node.op, ins.value, node.len);
      if data.Err? {
        return Some(OpFailed(data.error));
      }
      slots := slots[got.value := Some(slot.(data := Some(data.value), node := None))];
      return None;
    }

    /** Evaluates a tensor and everything it waits for, in place. */
    method Resolve(h: Handle) returns (r: Result<seq<E>, Error>)
      requires Valid(State())
      modifies this
      ensures (State(), r) == TensorArena.Resolve(ar, old(State()), h)
      ensures r.Ok? ==> r == Eval(ar, old(State()), h)
      ensures forall k: Handle :: Eval(ar, State(), k) == Eval(ar, old(State()), k)
    {
      ResolveIsSound(ar, State(), h);
      var found := Discover(h);
      if found.Err? {
        return Err(found.error);
      }
      var order := found.value;
      while order != []
        invariant RunAll(ar, old(State()), found.value) == RunAll(ar, State(), order)
        decreases |order|
      {
        var cur := order[|order| - 1];
        order := order[..|order| - 1];
        var failure := RunNode(cur);
        if failure.Some? {
          return Err(failure.value);
        }
      }
      r := ResolveCached(h);
    }
  }

  // --- where it does not succeed --------------------------------------------

  const INTS: Arith<int> := Arith(0, (x, y) => x + y, (x, y) => x * y)

  function LeafSlot(): Slot<int> {
    Slot(1, 1, [1], Some([5]), None)
  }

  function ScaleSlot(epoch: nat, of: Handle): Slot<int> {
    Slot(epoch, 1, [1], None, Some(Node(Scale(2), [of], 1)))
  }

  /** x = [5], p = 2x, c = 2p and c + p: the pending tensor p has two consumers. */
  function Diamond(): Arena<int> {
    Arena([Some(LeafSlot()), Some(ScaleSlot(2, 0x1_0000_0000)), Some(ScaleSlot(3, 0x2_0000_0001)),
           Some(Slot(4, 1, [1], None, Some(Node(Add, [0x3_0000_0002, 0x2_0000_0001], 1))))], [], 5)
  }

  const X: Handle := 0x1_0000_0000
  const P: Handle := 0x2_0000_0001
  const C: Handle := 0x3_0000_0002
  const SUM: Handle := 0x4_0000_0003

  lemma DiamondSlots()
    ensures var a := Diamond();
      && Lookup(a, X) == Ok(0) && Lookup(a, P) == Ok(1) && Lookup(a, C) == Ok(2) && Lookup(a, SUM) == Ok(3)
      && SlotAt(a, X) == LeafSlot() && SlotAt(a, P) == ScaleSlot(2, X) && SlotAt(a, C) == ScaleSlot(3, P)
      && SlotAt(a, SUM) == Slot(4, 1, [1], None, Some(Node(Add, [C, P], 1)))
      && Gen(X) == 1 && Gen(P) == 2 && Gen(C) == 3 && Gen(SUM) == 4
  {
  }

  lemma VisitPending(a: Arena<int>, rest: seq<Handle>, cur: Handle, seen: set<Handle>, order: seq<Handle>)
    requires cur !in seen && IsPending(a, cur)
    ensures VisitOne(a, Search(rest + [cur], seen, order))
         == Ok(Search(rest + Inputs(a, cur), seen + {cur}, order + [cur]))
  {
    assert (rest + [cur])[..|rest|] == rest;
  }

  lemma VisitOther(a: Arena<int>, rest: seq<Handle>, cur: Handle, seen: set<Handle>, order: seq<Handle>)
    requires cur in seen || (Live(a, cur) && SlotAt(a, cur).data.Some?)
    ensures VisitOne(a, Search(rest + [cur], seen, order)) == Ok(Search(rest, seen + {cur}, order))
  {
    assert (rest + [cur])[..|rest|] == rest;
    if cur in seen {
      assert seen + {cur} == seen;
    }
  }

  lemma FirstVisit(a: Arena<int>)
    requires a == Diamond() && Valid(a)
    ensures Visit(a, Search([SUM], {}, [])) == Visit(a, Search([C, P], {SUM}, [SUM]))
  {
    DiamondSlots();
    VisitPending(a, [], SUM, {}, []);
    hide *;
    assert [] + [SUM] == [SUM] && [] + [C, P] == [C, P] && {} + {SUM} == {SUM};
    VisitVia(a, Search([SUM], {}, []), Search([C, P], {SUM}, [SUM]));
  }

  lemma SecondVisit(a: Arena<int>)
    requires a == Diamond() && Valid(a)
    ensures Visit(a, Search([C, P], {SUM}, [SUM])) == Visit(a, Search([C, X], {SUM, P}, [SUM, P]))
  {
    DiamondSlots();
    VisitPending(a, [C], P, {SUM}, [SUM]);
    hide *;
    assert [C] + [P] == [C, P] && [C] + [X] == [C, X] && {SUM} + {P} == {SUM, P} && [SUM] + [P] == [SUM, P];
    VisitVia(a, Search([C, P], {SUM}, [SUM]), Search([C, X], {SUM, P}, [SUM, P]));
  }

  lemma ThirdVisit(a: Arena<int>)
    requires a == Diamond() && Valid(a)
    ensures Visit(a, Search([C, X], {SUM, P}, [SUM, P])) == Visit(a, Search([C], {SUM, P, X}, [SUM, P]))
  {
    DiamondSlots();
    VisitOther(a, [C], X, {SUM, P}, [SUM, P]);
    hide *;
    assert [C] + [X] == [C, X] && {SUM, P} + {X} == {SUM, P, X};
    VisitVia(a, Search([C, X], {SUM, P}, [SUM, P]), Search([C], {SUM, P, X}, [SUM, P]));
  }

  lemma FourthVisit(a: Arena<int>)
    requires a == Diamond() && Valid(a)
    ensures Visit(a, Search([C], {SUM, P, X}, [SUM, P])) == Visit(a, Search([P], {SUM, P, X, C}, [SUM, P, C]))
  {
    DiamondSlots();
    VisitPending(a, [], C, {SUM, P, X}, [SUM, P]);
    hide *;
    assert [] + [C] == [C] && [] + [P] == [P] && {SUM, P, X} + {C} == {SUM, P, X, C};
    assert [SUM, P] + [C] == [SUM, P, C];
    VisitVia(a, Search([C], {SUM, P, X}, [SUM, P]), Search([P], {SUM, P, X, C}, [SUM, P, C]));
  }

  lemma FifthVisit(a: Arena<int>)
    requires a == Diamond() && Valid(a)
    ensures Visit(a, Search([P], {SUM, P, X, C}, [SUM, P, C])) == Visit(a, Search([], {SUM, P, X, C}, [SUM, P, C]))
  {
    DiamondSlots();
    VisitOther(a, [], P, {SUM, P, X, C}, [SUM, P, C]);
    hide *;
    assert [] + [P] == [P] && {SUM, P, X, C} + {P} == {SUM, P, X, C};
    VisitVia(a, Search([P], {SUM, P, X, C}, [SUM, P, C]), Search([], {SUM, P, X, C}, [SUM, P, C]));
  }

  lemma DiamondIsValid()
    ensures Valid(Diamond())
  {
  }

  lemma DiamondOrder()
    ensures Valid(Diamond()) && Order(Diamond(), SUM) == Ok([SUM, P, C])
  {
    var a := Diamond();
    DiamondIsValid();
    hide *;
    FirstVisit(a);
    SecondVisit(a);
    ThirdVisit(a);
    FourthVisit(a);
    FifthVisit(a);
    VisitDone(a, SUM, {SUM, P, X, C}, [SUM, P, C]);
  }

  lemma VisitVia(a: Arena<int>, s: Search, s': Search)
    requires Valid(a) && s.stack != [] && VisitOne(a, s) == Ok(s')
    ensures Visit(a, s) == Visit(a, s')
  {
  }

  lemma VisitDone(a: Arena<int>, h: Handle, seen: set<Handle>, order: seq<Handle>)
    requires Valid(a) && Visit(a, Search([h], {}, [])) == Visit(a, Search([], seen, order))
    ensures Order(a, h) == Ok(order)
  {
  }

  /** The calls that lead there from the empty arena. */
  function DiamondCalls(): seq<Call<int>> {
    [Upload([5]), Lazy(Scale(2), [X], 1, [1]), Lazy(Scale(2), [P], 1, [1]), Lazy(Add, [C, P], 1, [1])]
  }

  /** One more creation, when nothing has been released and the inputs are live. */
  lemma CreatedNext(a: Arena<int>, call: Call<int>, slot: Slot<int>)
    requires Valid(a) && a.free == [] && a.nextGen < TWO31
    requires || (call.Upload? && slot == Fresh(a, call.vals))
             || (call.Lazy? && FirstDead(a, call.inputs).None?
                 && slot == Pending(a, call.op, call.inputs, call.len, call.dims))
    ensures After(INTS, a, call) == Arena(a.slots + [Some(slot)], [], a.nextGen + 1)
    ensures Valid(After(INTS, a, call))
  {
    CallRespects(INTS, a, call, 0);
  }

  lemma BothLive(a: Arena<int>, h: Handle, k: Handle)
    requires Lookup(a, h).Ok? && Lookup(a, k).Ok?
    ensures FirstDead(a, [h, k]).None?
  {
    assert [h, k][1..] == [k] && [k][1..] == [];
    assert FirstDead(a, [k]).None?;
  }

  function AfterOne(): Arena<int> {
    Arena([Some(LeafSlot())], [], 2)
  }

  function AfterTwo(): Arena<int> {
    Arena([Some(LeafSlot()), Some(ScaleSlot(2, X))], [], 3)
  }

  function AfterThree(): Arena<int> {
    Arena([Some(LeafSlot()), Some(ScaleSlot(2, X)), Some(ScaleSlot(3, P))], [], 4)
  }

  lemma FirstCalls()
    ensures Valid(Empty<int>()) && After(INTS, Empty(), Upload([5])) == AfterOne()
    ensures Valid(AfterOne()) && After(INTS, AfterOne(), Lazy(Scale(2), [X], 1, [1])) == AfterTwo()
    ensures Valid(AfterTwo())
  {
    EmptyIsValid<int>();
    CreatedNext(Empty<int>(), Upload([5]), LeafSlot());
    assert [X][1..] == [];
    CreatedNext(AfterOne(), Lazy(Scale(2), [X], 1, [1]), ScaleSlot(2, X));
  }

  lemma ThirdCall()
    requires Valid(AfterTwo())
    ensures Valid(AfterThree()) && After(INTS, AfterTwo(), Lazy(Scale(2), [P], 1, [1])) == AfterThree()
  {
    assert [P][1..] == [];
    CreatedNext(AfterTwo(), Lazy(Scale(2), [P], 1, [1]), ScaleSlot(3, P));
  }

  lemma FourthCall()
    requires Valid(AfterThree())
    ensures Valid(Diamond()) && After(INTS, AfterThree(), Lazy(Add, [C, P], 1, [1])) == Diamond()
  {
    assert Lookup(AfterThree(), C) == Ok(2) && Lookup(AfterThree(), P) == Ok(1);
    BothLive(AfterThree(), C, P);
    CreatedNext(AfterThree(), Lazy(Add, [C, P], 1, [1]), Slot(4, 1, [1], None, Some(Node(Add, [C, P], 1))));
  }

  lemma NextCall(a: Arena<int>, calls: seq<Call<int>>)
    requires calls != [] && Valid(a) && a.nextGen + Creations(calls) <= TWO31
    ensures Valid(After(INTS, a, calls[0])) && After(INTS, a, calls[0]).nextGen + Creations(calls[1..]) <= TWO31
    ensures AfterAll(INTS, a, calls) == AfterAll(INTS, After(INTS, a, calls[0]), calls[1..])
  {
    CallRespects(INTS, a, calls[0], 0);
  }

  lemma FourCreations()
    ensures Creations(DiamondCalls()) == 4
  {
    var calls := DiamondCalls();
    assert Creations(calls[3..]) == 1;
    assert calls[2..][1..] == calls[3..] && calls[1..][1..] == calls[2..];
  }

  lemma DiamondIsReached()
    ensures Valid(Empty<int>()) && Creations(DiamondCalls()) == 4
    ensures AfterAll(INTS, Empty(), DiamondCalls()) == Diamond()
  {
    var calls := DiamondCalls();
    FirstCalls();
    ThirdCall();
    FourthCall();
    FourCreations();
    assert calls[1..][1..] == calls[2..] && calls[2..][1..] == calls[3..] && calls[3..][1..] == [];
    assert Empty<int>().nextGen == 1;
    hide After, AfterAll, Creations, Valid, Diamond, AfterOne, AfterTwo, AfterThree, Empty;
    NextCall(Empty(), calls);
    NextCall(AfterOne(), calls[1..]);
    NextCall(AfterTwo(), calls[2..]);
    NextCall(AfterThree(), calls[3..]);
    NoMoreCalls(Diamond());
  }

  lemma NoMoreCalls(a: Arena<int>)
    requires Valid(a) && a.nextGen <= TWO31
    ensures Creations<int>([]) == 0 && AfterAll(INTS, a, []) == a
  {
  }

  /**
    * A tensor that exists can fail to resolve: here, after four calls on an empty arena, the
    * search meets the shared input before one of its consumers.
    */
  lemma DiamondDoesNotResolve()
    ensures Valid(Empty<int>()) && Creations(DiamondCalls()) == 4
    ensures Diamond() == AfterAll(INTS, Empty(), DiamondCalls())
    ensures Valid(Diamond()) && Eval(INTS, Diamond(), SUM) == Ok([30]) && Resolve(INTS, Diamond(), SUM).1.Err?
  {
    DiamondIsReached();
    DiamondFails();
    hide *;
  }

  lemma DiamondFails()
    ensures Valid(Diamond()) && Eval(INTS, Diamond(), SUM) == Ok([30]) && Resolve(INTS, Diamond(), SUM).1.Err?
  {
    hide *;
    DiamondOrder();
    DiamondValue();
    ResolveSucceeds(INTS, Diamond(), SUM);
    SharedInputIsEarlier();
  }

  lemma SharedInputIsEarlier()
    ensures !InputsLater(Diamond(), [SUM, P, C])
  {
    var a, order := Diamond(), [SUM, P, C];
    DiamondSlots();
    hide Lookup, Diamond;
    assert IsPending(a, order[2]) && P in Inputs(a, order[2]) && IsPending(a, P);
    assert P !in order[3..];
  }

  lemma DoubleOne(v: int)
    ensures Apply(INTS, Scale(2), [[v]], 1) == Ok([v * 2])
  {
    var r := Apply(INTS, Scale(2), [[v]], 1).value;
    assert |r| == 1 && r[0] == INTS.mul(v, 2) == v * 2;
    assert r == [v * 2];
  }

  lemma AddOne(v: int, w: int)
    ensures Apply(INTS, Add, [[v], [w]], 1) == Ok([v + w])
  {
    var r := Apply(INTS, Add, [[v], [w]], 1).value;
    assert |r| == 1 && r[0] == INTS.add(v, w) == v + w;
    assert r == [v + w];
  }

  lemma DiamondValue()
    ensures Eval(INTS, Diamond(), SUM) == Ok([30])
  {
    var a := Diamond();
    DiamondSlots();
    DoubleOne(5);
    DoubleOne(10);
    AddOne(20, 10);
    hide Diamond, Lookup, Gen, Apply;
    assert [X][1..] == [] && [P][1..] == [] && [C, P][1..] == [P];
    var none: seq<seq<int>> := [];
    assert [[5]] + none == [[5]] && [[10]] + none == [[10]] && [[20]] + [[10]] == [[20], [10]];
    assert Eval(INTS, a, X) == Ok([5]);
    assert EvalAll(INTS, a, [X], 2) == Ok([[5]]);
    assert Eval(INTS, a, P) == Ok([10]);
    assert EvalAll(INTS, a, [P], 3) == Ok([[10]]);
    assert Eval(INTS, a, C) == Ok([20]);
    assert EvalAll(INTS, a, [P], 4) == Ok([[10]]);
    assert EvalAll(INTS, a, [C, P], 4) == Ok([[20], [10]]);
  }
}
