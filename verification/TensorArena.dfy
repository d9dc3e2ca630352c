/** The generational arena of tensor buffers, and what its handles mean over any history. */
module TensorArena {
  import opened Wrappers
  import opened TensorOps

  const TWO31 := 0x8000_0000
  const TWO32 := 0x1_0000_0000
  const TWO63 := 0x8000_0000_0000_0000
  const TWO64 := 0x1_0000_0000_0000_0000

  /** A signed 64-bit word. */
  type Handle = h: int | -0x8000_0000_0000_0000 <= h < 0x8000_0000_0000_0000 witness 0

  datatype Node<E> = Node(op: Op<E>, inputs: seq<Handle>, len: nat)

  datatype Slot<E> = Slot(epoch: nat, len: nat, dims: seq<nat>, data: Option<seq<E>>, node: Option<Node<E>>)

  datatype Error = BadHandle | Destroyed | Stale | Corrupt | Unresolved | BadReshape | OpFailed(error: OpError)

  datatype Arena<E> = Arena(slots: seq<Option<Slot<E>>>, free: seq<nat>, nextGen: nat)

  function Empty<E>(): Arena<E> {
    Arena([], [], 1)
  }

  // --- handles --------------------------------------------------------------

  /** `((epoch as i64) << 32) | (idx as i64)` on 32-bit words; the result is a signed 64-bit word. */
  function Pack(idx: nat, epoch: nat): Handle
    requires idx < TWO32 && epoch < TWO32
  {
    var raw := epoch * TWO32 + idx;
    if raw < TWO63 then raw else raw - TWO64
  }

  function Unpack(h: Handle): Option<(nat, nat)> {
    if h <= 0 then None else Some((h % TWO32, h / TWO32))
  }

  /** The generation in a handle; zero for handles that are not positive. */
  function Gen(h: Handle): nat {
    if h <= 0 then 0 else h / TWO32
  }

  lemma PackUnpack(idx: nat, epoch: nat)
    requires idx < TWO32 && 0 < epoch < TWO31
    ensures Pack(idx, epoch) > 0 && Unpack(Pack(idx, epoch)) == Some((idx, epoch)) && Gen(Pack(idx, epoch)) == epoch
  {
  }

  lemma UnpackPack(h: Handle)
    requires h > 0
    ensures h / TWO32 < TWO31 && Pack(h % TWO32, h / TWO32) == h
  {
  }

  /** From generation 2^31 on the sign bit is taken and a handle is refused the moment it is made. */
  lemma LateHandlesAreNegative(idx: nat, epoch: nat)
    requires idx < TWO32 && 0 < epoch < TWO32
    ensures Unpack(Pack(idx, epoch)).Some? <==> epoch < TWO31
  {
  }

  /** `Bufs::get`: the slot index of a live handle. */
  function Lookup<E>(a: Arena<E>, h: Handle): Result<nat, Error> {
    match Unpack(h)
    case None => Err(BadHandle)
    case Some((idx, epoch)) =>
      if idx >= |a.slots| || a.slots[idx].None? then Err(Destroyed)
      else if a.slots[idx].value.epoch != epoch then Err(Stale)
      else Ok(idx)
  }

  predicate Live<E>(a: Arena<E>, h: Handle) {
    Lookup(a, h).Ok?
  }

  function SlotAt<E>(a: Arena<E>, h: Handle): Slot<E>
    requires Live(a, h)
  {
    a.slots[Lookup(a, h).value].value
  }

  // --- the operations -------------------------------------------------------

  /** `wrapping_add(1).max(1)` on a 32-bit word. */
  function NextGen(g: nat): nat {
    var w := (g + 1) % TWO32;
    if w < 1 then 1 else w
  }

  /** Puts a slot into a free index, or into a new one. */
  function Place<E>(a: Arena<E>, slot: Slot<E>): (r: (Arena<E>, nat))
    requires forall j :: 0 <= j < |a.free| ==> a.free[j] < |a.slots|
  {
    if a.free == [] then (Arena(a.slots + [Some(slot)], [], NextGen(a.nextGen)), |a.slots|)
    else
      var idx := a.free[|a.free| - 1];
      (Arena(a.slots[idx := Some(slot)], a.free[..|a.free| - 1], NextGen(a.nextGen)), idx)
  }

  function Fresh<E>(a: Arena<E>, vals: seq<E>): Slot<E> {
    Slot(a.nextGen, |vals|, [|vals|], Some(vals), None)
  }

  function Pending<E>(a: Arena<E>, op: Op<E>, inputs: seq<Handle>, len: nat, dims: seq<nat>): Slot<E> {
    Slot(a.nextGen, len, dims, None, Some(Node(op, inputs, len)))
  }

  /** The first error that looking up the handles one after the other gives. */
  function FirstDead<E>(a: Arena<E>, hs: seq<Handle>): Option<Error> {
    if hs == [] then None
    else if Lookup(a, hs[0]).Err? then Some(Lookup(a, hs[0]).error)
    else FirstDead(a, hs[1..])
  }

  function Destroy<E>(a: Arena<E>, h: Handle): Arena<E>
    requires Live(a, h)
  {
    var idx := Lookup(a, h).value;
    a.(slots := a.slots[idx := None], free := a.free + [idx])
  }

  function Put<E>(a: Arena<E>, h: Handle, slot: Slot<E>): Arena<E>
    requires Live(a, h)
  {
    a.(slots := a.slots[Lookup(a, h).value := Some(slot)])
  }

  function Volume(dims: seq<nat>): nat {
    if dims == [] then 1 else Times(dims[0], Volume(dims[1..]))
  }

  /** The number of entries of a tensor: its dimensions multiplied. */
  lemma {:induction false} VolumeOfJoin(a: seq<nat>, b: seq<nat>)
    ensures Volume(a + b) == Volume(a) * Volume(b)
  {
    if a == [] {
      assert a + b == b;
    } else {
      assert (a + b)[1..] == a[1..] + b;
      VolumeOfJoin(a[1..], b);
      Regroup(a[0], Volume(a[1..]), Volume(b));
    }
  }

  lemma VolumeOfOne(d: nat)
    ensures Volume([d]) == d && Volume([]) == 1
  {
    assert [d][1..] == [];
  }

  lemma Regroup(x: int, y: int, z: int)
    ensures x * (y * z) == (x * y) * z
  {
  }

  function Times(a: nat, b: nat): nat {
    NonNegative(a, b);
    a * b
  }

  // --- the invariant --------------------------------------------------------

  predicate NoRepeats(s: seq<nat>) {
    forall i, j :: 0 <= i < j < |s| ==> s[i] != s[j]
  }

  /** Slots carry generations below the next one, and what is pending waits for older slots only. */
  ghost predicate SlotOk<E>(a: Arena<E>, slot: Slot<E>) {
    && 0 < slot.epoch < a.nextGen
    && (slot.data.None? ==> slot.node.Some?)
    && (slot.node.Some? ==>
          forall j :: 0 <= j < |slot.node.value.inputs| ==> Gen(slot.node.value.inputs[j]) < slot.epoch)
  }

  ghost predicate Valid<E>(a: Arena<E>) {
    && |a.slots| < a.nextGen <= TWO31
    && (forall i :: 0 <= i < |a.slots| && a.slots[i].Some? ==> SlotOk(a, a.slots[i].value))
    && NoRepeats(a.free)
    && (forall j :: 0 <= j < |a.free| ==> a.free[j] < |a.slots|)
    && (forall i: nat :: i in a.free <==> i < |a.slots| && a.slots[i].None?)
  }

  lemma LiveGen<E>(a: Arena<E>, h: Handle)
    requires Valid(a) && Live(a, h)
    ensures h > 0 && Gen(h) == SlotAt(a, h).epoch < a.nextGen && Lookup(a, h).value < TWO31
    ensures h == Pack(Lookup(a, h).value, Gen(h))
  {
    UnpackPack(h);
  }

  /** No two live handles share a slot. */
  lemma LiveHandlesAreDistinct<E>(a: Arena<E>, h: Handle, k: Handle)
    requires Valid(a) && Live(a, h) && Live(a, k) && Lookup(a, h) == Lookup(a, k)
    ensures h == k
  {
    LiveGen(a, h);
    LiveGen(a, k);
  }

  /** The outcome of placing a slot: its handle is new and live, and nothing else has moved. */
  lemma PlaceKeeps<E>(a: Arena<E>, slot: Slot<E>)
    requires Valid(a) && a.nextGen < TWO31
    requires slot.epoch == a.nextGen && (slot.data.None? ==> slot.node.Some?)
    requires slot.node.Some? ==>
               forall j :: 0 <= j < |slot.node.value.inputs| ==> Gen(slot.node.value.inputs[j]) < slot.epoch
    ensures
      var (b, idx) := Place(a, slot);
      idx < TWO31 &&
      var h := Pack(idx, slot.epoch);
      && Valid(b) && b.nextGen == a.nextGen + 1
      && !Live(a, h) && Live(b, h) && SlotAt(b, h) == slot && Gen(h) == a.nextGen
      && (forall k: Handle :: k != h ==> Live(b, k) == Live(a, k))
      && (forall k: Handle :: k != h && Live(a, k) ==> Lookup(b, k) == Lookup(a, k) && SlotAt(b, k) == SlotAt(a, k))
  {
    var (b, idx) := Place(a, slot);
    var h := Pack(idx, slot.epoch);
    if a.free != [] {
      assert a.free[|a.free| - 1] in a.free;
      FreeAfterPop(a.free);
    }
    assert Valid(b);
    PackUnpack(idx, slot.epoch);
    forall k: Handle | k != h && k > 0 ensures Lookup(b, k).Ok? == Lookup(a, k).Ok? {
      UnpackPack(k);
    }
  }

  lemma FreeAfterPop(free: seq<nat>)
    requires free != [] && NoRepeats(free)
    ensures
      var rest := free[..|free| - 1];
      && NoRepeats(rest) && forall i :: i in rest <==> i in free && i != free[|free| - 1]
  {
    var rest := free[..|free| - 1];
    assert free == rest + [free[|free| - 1]];
  }

  // --- the meaning of a handle ----------------------------------------------

  /** The tensor a live handle stands for: its data, or its expression evaluated from the leaves up. */
  function Eval<E>(ar: Arith<E>, a: Arena<E>, h: Handle): Result<seq<E>, Error>
    decreases Gen(h), 1, 0
  {
    if !Live(a, h) then Err(Lookup(a, h).error)
    else
      var slot := SlotAt(a, h);
      if slot.data.Some? then Ok(slot.data.value)
      else if slot.node.None? then Err(Corrupt)
      else
        var node := slot.node.value;
        match EvalAll(ar, a, node.inputs, Gen(h))
        case Err(e) => Err(e)
        case Ok(ins) => Checked(Apply(ar, node.op, ins, node.len))
  }

  function Checked<E>(r: Result<seq<E>, OpError>): Result<seq<E>, Error> {
    match r
    case Ok(v) => Ok(v)
    case Err(e) => Err(OpFailed(e))
  }

  /** The inputs of a node of generation `bound`, which are older than the node. */
  function EvalAll<E>(ar: Arith<E>, a: Arena<E>, hs: seq<Handle>, bound: nat): Result<seq<seq<E>>, Error>
    decreases bound, 0, |hs|
  {
    if hs == [] then Ok([])
    else if Gen(hs[0]) >= bound then Err(Corrupt)
    else
      match Eval(ar, a, hs[0])
      case Err(e) => Err(e)
      case Ok(v) =>
        match EvalAll(ar, a, hs[1..], bound)
        case Err(e) => Err(e)
        case Ok(vs) => Ok([v] + vs)
  }

  // --- resolving ------------------------------------------------------------

  function LiveHandles<E>(a: Arena<E>): set<Handle>
    requires Valid(a)
  {
    set i | 0 <= i < |a.slots| && a.slots[i].Some? :: Pack(i, a.slots[i].value.epoch)
  }

  lemma LiveIsListed<E>(a: Arena<E>, h: Handle)
    requires Valid(a) && Live(a, h)
    ensures h in LiveHandles(a)
  {
    LiveGen(a, h);
  }

  /** The search state of `resolve`: handles to visit (last first), handles seen, pending nodes in visiting order. */
  datatype Search = Search(stack: seq<Handle>, seen: set<Handle>, order: seq<Handle>)

  /** Visits one handle. */
  function VisitOne<E>(a: Arena<E>, s: Search): Result<Search, Error>
    requires s.stack != []
  {
    var cur := s.stack[|s.stack| - 1];
    var rest := s.stack[..|s.stack| - 1];
    if cur in s.seen then Ok(s.(stack := rest))
    else if !Live(a, cur) then Err(Lookup(a, cur).error)
    else
      var slot := SlotAt(a, cur);
      if slot.data.Some? then Ok(Search(rest, s.seen + {cur}, s.order))
      else if slot.node.None? then Err(Corrupt)
      else Ok(Search(rest + slot.node.value.inputs, s.seen + {cur}, s.order + [cur]))
  }

  lemma VisitShrinks<E>(a: Arena<E>, s: Search)
    requires Valid(a) && s.stack != [] && VisitOne(a, s).Ok?
    ensures
      var s' := VisitOne(a, s).value;
      LiveHandles(a) - s'.seen < LiveHandles(a) - s.seen
      || (LiveHandles(a) - s'.seen == LiveHandles(a) - s.seen && |s'.stack| < |s.stack|)
  {
    var cur := s.stack[|s.stack| - 1];
    if cur !in s.seen {
      LiveIsListed(a, cur);
      assert cur in LiveHandles(a) - s.seen;
    }
  }

  /** The depth-first search, to its end. */
  function Visit<E>(a: Arena<E>, s: Search): Result<Search, Error>
    requires Valid(a)
    decreases LiveHandles(a) - s.seen, |s.stack|
  {
    if s.stack == [] then Ok(s)
    else if VisitOne(a, s).Err? then VisitOne(a, s)
    else
      VisitShrinks(a, s);
      Visit(a, VisitOne(a, s).value)
  }

  /** The pending nodes that resolving a handle needs, in the order in which the search meets them. */
  function Order<E>(a: Arena<E>, h: Handle): Result<seq<Handle>, Error>
    requires Valid(a)
  {
    match Visit(a, Search([h], {}, []))
    case Err(e) => Err(e)
    case Ok(s) => Ok(s.order)
  }

  function CachedData<E>(a: Arena<E>, h: Handle): Result<seq<E>, Error> {
    if !Live(a, h) then Err(Lookup(a, h).error)
    else if SlotAt(a, h).data.Some? then Ok(SlotAt(a, h).data.value)
    else Err(Unresolved)
  }

  function CachedAll<E>(a: Arena<E>, hs: seq<Handle>): Result<seq<seq<E>>, Error> {
    if hs == [] then Ok([])
    else
      match CachedData(a, hs[0])
      case Err(e) => Err(e)
      case Ok(v) =>
        match CachedAll(a, hs[1..])
        case Err(e) => Err(e)
        case Ok(vs) => Ok([v] + vs)
  }

  /** What running one pending node stores, from the data of its inputs. */
  function Computed<E>(ar: Arith<E>, a: Arena<E>, cur: Handle): Result<seq<E>, Error>
    requires Live(a, cur)
  {
    var slot := SlotAt(a, cur);
    if slot.node.None? then Err(Corrupt)
    else
      match CachedAll(a, slot.node.value.inputs)
      case Err(e) => Err(e)
      case Ok(ins) => Checked(Apply(ar, slot.node.value.op, ins, slot.node.value.len))
  }

  function Cached<E>(a: Arena<E>, cur: Handle, data: seq<E>): Arena<E>
    requires Live(a, cur)
  {
    Put(a, cur, SlotAt(a, cur).(data := Some(data), node := None))
  }

  /** Runs one node of the order. */
  function RunOne<E>(ar: Arith<E>, a: Arena<E>, cur: Handle): Result<Arena<E>, Error> {
    if !Live(a, cur) then Err(Lookup(a, cur).error)
    else if SlotAt(a, cur).data.Some? then Ok(a)
    else
      match Computed(ar, a, cur)
      case Err(e) => Err(e)
      case Ok(data) => Ok(Cached(a, cur, data))
  }

  /** Runs the nodes of the order from the last one met to the first, until one fails. */
  function RunAll<E>(ar: Arith<E>, a: Arena<E>, order: seq<Handle>): (Arena<E>, Option<Error>)
    decreases |order|
  {
    if order == [] then (a, None)
    else
      var n := |order| - 1;
      match RunOne(ar, a, order[n])
      case Err(e) => (a, Some(e))
      case Ok(b) => RunAll(ar, b, order[..n])
  }

  /** `Bufs::resolve` on the CPU path: the arena left behind, and the data or an error. */
  function Resolve<E>(ar: Arith<E>, a: Arena<E>, h: Handle): (Arena<E>, Result<seq<E>, Error>)
    requires Valid(a)
  {
    match Order(a, h)
    case Err(e) => (a, Err(e))
    case Ok(order) =>
      var (b, failure) := RunAll(ar, a, order);
      if failure.Some? then (b, Err(failure.value)) else (b, CachedData(b, h))
  }

  // --- caching keeps every meaning ------------------------------------------

  /** `b` is `a` with some pending slots replaced by the tensors they stand for. */
  ghost predicate Advanced<E(!new)>(ar: Arith<E>, a: Arena<E>, b: Arena<E>) {
    && |b.slots| == |a.slots| && b.free == a.free && b.nextGen == a.nextGen
    && (forall h: Handle :: Lookup(a, h) == Lookup(b, h))
    && (forall h: Handle :: Live(a, h) ==>
          && Live(b, h)
          && SlotAt(b, h).epoch == SlotAt(a, h).epoch
          && SlotAt(b, h).len == SlotAt(a, h).len
          && SlotAt(b, h).dims == SlotAt(a, h).dims
          && (SlotAt(b, h) == SlotAt(a, h)
              || (SlotAt(a, h).data.None? && SlotAt(b, h).node.None? && SlotAt(b, h).data.Some?
                  && Eval(ar, a, h) == Ok(SlotAt(b, h).data.value))))
  }

  lemma {:induction false} AdvancedMeaning<E(!new)>(ar: Arith<E>, a: Arena<E>, b: Arena<E>, h: Handle)
    requires Advanced(ar, a, b)
    ensures Eval(ar, a, h) == Eval(ar, b, h)
    decreases Gen(h), 1, 0
  {
    assert Lookup(a, h) == Lookup(b, h);
    if Live(a, h) && SlotAt(b, h) == SlotAt(a, h) && SlotAt(a, h).data.None? && SlotAt(a, h).node.Some? {
      AdvancedMeaningAll(ar, a, b, SlotAt(a, h).node.value.inputs, Gen(h));
    }
  }

  lemma {:induction false} AdvancedMeaningAll<E(!new)>(ar: Arith<E>, a: Arena<E>, b: Arena<E>, hs: seq<Handle>,
                                                       bound: nat)
    requires Advanced(ar, a, b)
    ensures EvalAll(ar, a, hs, bound) == EvalAll(ar, b, hs, bound)
    decreases bound, 0, |hs|
  {
    if hs != [] && Gen(hs[0]) < bound {
      AdvancedMeaning(ar, a, b, hs[0]);
      AdvancedMeaningAll(ar, a, b, hs[1..], bound);
    }
  }

  lemma {:induction false} CachedIsMeaning<E(!new)>(ar: Arith<E>, a: Arena<E>, hs: seq<Handle>, bound: nat)
    requires forall j :: 0 <= j < |hs| ==> Gen(hs[j]) < bound
    ensures CachedAll(a, hs).Ok? ==> EvalAll(ar, a, hs, bound) == CachedAll(a, hs)
  {
    if hs != [] {
      assert Gen(hs[0]) < bound;
      CachedIsMeaning(ar, a, hs[1..], bound);
      if CachedData(a, hs[0]).Ok? {
        assert Eval(ar, a, hs[0]) == CachedData(a, hs[0]);
      }
    }
  }

  /** A node computes what its handle stands for. */
  lemma ComputedIsMeaning<E(!new)>(ar: Arith<E>, a: Arena<E>, cur: Handle)
    requires Valid(a) && Live(a, cur) && SlotAt(a, cur).data.None?
    ensures Computed(ar, a, cur).Ok? ==> Eval(ar, a, cur) == Computed(ar, a, cur)
  {
    LiveGen(a, cur);
    var node := SlotAt(a, cur).node;
    CachedIsMeaning(ar, a, node.value.inputs, Gen(cur));
  }

  lemma PutKeeps<E>(a: Arena<E>, cur: Handle, slot: Slot<E>)
    requires Valid(a) && Live(a, cur) && slot.epoch == SlotAt(a, cur).epoch
    requires SlotOk(a, slot)
    ensures
      var b := Put(a, cur, slot);
      && Valid(b)
      && (forall h: Handle :: Lookup(b, h) == Lookup(a, h))
      && (forall h: Handle :: Live(a, h) ==> SlotAt(b, h) == if h == cur then slot else SlotAt(a, h))
  {
    var b := Put(a, cur, slot);
    forall h: Handle | Live(a, h) && h != cur ensures Lookup(a, h) != Lookup(a, cur) {
      if Lookup(a, h) == Lookup(a, cur) {
        LiveHandlesAreDistinct(a, h, cur);
      }
    }
  }

  lemma RunOneAdvances<E(!new)>(ar: Arith<E>, a: Arena<E>, cur: Handle)
    requires Valid(a) && RunOne(ar, a, cur).Ok?
    ensures Valid(RunOne(ar, a, cur).value) && Advanced(ar, a, RunOne(ar, a, cur).value)
    ensures forall h: Handle :: h != cur && Live(a, h) ==> SlotAt(RunOne(ar, a, cur).value, h) == SlotAt(a, h)
    ensures Live(a, cur) && SlotAt(RunOne(ar, a, cur).value, cur).data.Some?
  {
    var slot := SlotAt(a, cur);
    if slot.data.None? {
      ComputedIsMeaning(ar, a, cur);
      LiveGen(a, cur);
      var data := Computed(ar, a, cur).value;
      var slot' := slot.(data := Some(data), node := None);
      assert SlotOk(a, slot');
      hide Computed, Valid, Lookup, Eval;
      PutKeeps(a, cur, slot');
    }
  }

  lemma AdvancedTransitive<E(!new)>(ar: Arith<E>, a: Arena<E>, b: Arena<E>, c: Arena<E>)
    requires Advanced(ar, a, b) && Advanced(ar, b, c)
    ensures Advanced(ar, a, c)
  {
    forall h: Handle | Live(a, h)
      ensures
        && Live(c, h)
        && SlotAt(c, h).epoch == SlotAt(a, h).epoch && SlotAt(c, h).len == SlotAt(a, h).len
        && SlotAt(c, h).dims == SlotAt(a, h).dims
        && (SlotAt(c, h) == SlotAt(a, h)
            || (SlotAt(a, h).data.None? && SlotAt(c, h).node.None? && SlotAt(c, h).data.Some?
                && Eval(ar, a, h) == Ok(SlotAt(c, h).data.value)))
    {
      assert Lookup(a, h) == Lookup(b, h) == Lookup(c, h);
      assert Live(b, h);
      AdvancedMeaning(ar, a, b, h);
      hide Lookup, Eval;
    }
    hide Lookup, Eval;
    assert forall h: Handle :: Lookup(a, h) == Lookup(b, h) == Lookup(c, h);
  }

  lemma {:induction false} RunAllAdvances<E(!new)>(ar: Arith<E>, a: Arena<E>, order: seq<Handle>)
    requires Valid(a)
    ensures var b := RunAll(ar, a, order).0; Valid(b) && Advanced(ar, a, b)
    decreases |order|
  {
    if order != [] {
      var n := |order| - 1;
      match RunOne(ar, a, order[n])
      case Err(_) =>
      case Ok(b) =>
        RunOneAdvances(ar, a, order[n]);
        RunAllAdvances(ar, b, order[..n]);
        hide *;
        AdvancedTransitive(ar, a, b, RunAll(ar, b, order[..n]).0);
    }
  }

  /**
   * Resolving changes no meaning: afterwards every handle, live or not, stands for what it stood for, whether the
   * call succeeded or failed midway; and data returned is the meaning of the handle before the call.
   */
  lemma ResolveIsSound<E(!new)>(ar: Arith<E>, a: Arena<E>, h: Handle)
    requires Valid(a)
    ensures
      var (b, r) := Resolve(ar, a, h);
      && Valid(b) && Advanced(ar, a, b)
      && (r.Ok? ==> Eval(ar, a, h) == r)
      && (forall k: Handle :: Eval(ar, b, k) == Eval(ar, a, k))
  {
    var (b, r) := Resolve(ar, a, h);
    if Order(a, h).Ok? {
      RunAllAdvances(ar, a, Order(a, h).value);
      if CachedData(b, h).Ok? {
        assert Eval(ar, b, h) == CachedData(b, h);
      }
    }
    hide Order, RunAll, Valid;
    forall k: Handle ensures Eval(ar, b, k) == Eval(ar, a, k) {
      AdvancedMeaning(ar, a, b, k);
    }
  }
}
