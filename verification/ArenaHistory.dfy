/** The arena as an object, and its handles over whole histories of calls. */
module ArenaHistory {
  import opened Wrappers
  import opened TensorOps
  import opened TensorArena

  // --- histories ------------------------------------------------------------

  /** One call of the arena's interface. */
  datatype Call<E> =
    | Create(len: nat)
    | Upload(vals: seq<E>)
    | Lazy(op: Op<E>, inputs: seq<Handle>, len: nat, dims: seq<nat>)
    | Release(h: Handle)
    | Reshape(h: Handle, dims: seq<nat>)
    | Demand(h: Handle)

  function Zeros<E>(ar: Arith<E>, len: nat): seq<E> {
    seq(len, _ => ar.zero)
  }

  function Reshaped<E>(a: Arena<E>, h: Handle, dims: seq<nat>): Arena<E> {
    if Live(a, h) && Volume(dims) == SlotAt(a, h).len then Put(a, h, SlotAt(a, h).(dims := dims)) else a
  }

  /** The arena that a call leaves behind, whatever it returns. */
  function After<E>(ar: Arith<E>, a: Arena<E>, call: Call<E>): Arena<E>
    requires Valid(a)
  {
    match call
    case Create(len) => Place(a, Fresh(a, Zeros(ar, len))).0
    case Upload(vals) => Place(a, Fresh(a, vals)).0
    case Lazy(op, inputs, len, dims) =>
      if FirstDead(a, inputs).Some? then a else Place(a, Pending(a, op, inputs, len, dims)).0
    case Release(h) => if Live(a, h) then Destroy(a, h) else a
    case Reshape(h, dims) => Reshaped(a, h, dims)
    case Demand(h) => Resolve(ar, a, h).0
  }

  predicate Creates<E>(call: Call<E>) {
    call.Create? || call.Upload? || call.Lazy?
  }

  function Creations<E>(calls: seq<Call<E>>): nat {
    if calls == [] then 0 else (if Creates(calls[0]) then 1 else 0) + Creations(calls[1..])
  }

  /** A handle that some call before this point may have returned. */
  predicate Issued<E>(a: Arena<E>, h: Handle) {
    0 < Gen(h) < a.nextGen
  }

  /** What a call does to a handle issued before it. */
  ghost predicate Respects<E>(a: Arena<E>, b: Arena<E>, call: Call<E>, h: Handle) {
    && (Live(b, h) <==> Live(a, h) && call != Release(h))
    && (Live(b, h) ==> && Lookup(b, h) == Lookup(a, h)
                       && SlotAt(b, h).epoch == SlotAt(a, h).epoch && SlotAt(b, h).len == SlotAt(a, h).len)
  }

  lemma {:induction false} DestroyKeeps<E>(a: Arena<E>, h: Handle)
    requires Valid(a) && Live(a, h)
    ensures
      var b := Destroy(a, h);
      && Valid(b) && !Live(b, h) && b.nextGen == a.nextGen
      && forall k: Handle :: k != h ==>
           Live(b, k) == Live(a, k) && (Live(a, k) ==> Lookup(b, k) == Lookup(a, k) && SlotAt(b, k) == SlotAt(a, k))
  {
    var b := Destroy(a, h);
    var idx := Lookup(a, h).value;
    assert idx !in a.free;
    forall k: Handle | k != h && Live(a, k) ensures Lookup(a, k).value != idx {
      if Lookup(a, k).value == idx {
        LiveHandlesAreDistinct(a, h, k);
      }
    }
    assert forall i: nat :: i in b.free <==> i in a.free || i == idx;
  }

  lemma {:induction false} FirstDeadNone<E>(a: Arena<E>, hs: seq<Handle>)
    requires Valid(a)
    ensures FirstDead(a, hs).None? <==> forall h :: h in hs ==> Live(a, h)
    ensures FirstDead(a, hs).None? ==> forall j :: 0 <= j < |hs| ==> Gen(hs[j]) < a.nextGen
  {
    if hs != [] {
      FirstDeadNone(a, hs[1..]);
      assert forall h :: h in hs <==> h == hs[0] || h in hs[1..];
      if Live(a, hs[0]) {
        LiveGen(a, hs[0]);
      }
    }
  }

  /** The error of a call with dead inputs is that of the first. */
  lemma {:induction false} FirstDeadIsFirst<E>(a: Arena<E>, hs: seq<Handle>)
    requires FirstDead(a, hs).Some?
    ensures exists k :: 0 <= k < |hs| && !Live(a, hs[k]) && FirstDead(a, hs) == Some(Lookup(a, hs[k]).error)
                        && forall j :: 0 <= j < k ==> Live(a, hs[j])
  {
    if Live(a, hs[0]) {
      FirstDeadIsFirst(a, hs[1..]);
      var k :| 0 <= k < |hs[1..]| && !Live(a, hs[1..][k]) && FirstDead(a, hs[1..]) == Some(Lookup(a, hs[1..][k]).error)
               && forall j :: 0 <= j < k ==> Live(a, hs[1..][j]);
      assert hs[k + 1] == hs[1..][k];
      assert forall j :: 0 < j <= k ==> hs[j] == hs[1..][j - 1];
    }
  }

  lemma PlaceRespects<E>(a: Arena<E>, slot: Slot<E>, call: Call<E>, h: Handle)
    requires Valid(a) && a.nextGen < TWO31
    requires slot.epoch == a.nextGen && (slot.data.None? ==> slot.node.Some?)
    requires slot.node.Some? ==>
               forall j :: 0 <= j < |slot.node.value.inputs| ==> Gen(slot.node.value.inputs[j]) < slot.epoch
    requires Creates(call)
    ensures Valid(Place(a, slot).0) && Place(a, slot).0.nextGen == a.nextGen + 1
    ensures Issued(a, h) ==> Respects(a, Place(a, slot).0, call, h)
  {
    PlaceKeeps(a, slot);
    hide Lookup, Place, Valid;
  }

  /** Every call keeps the invariant, and kills or moves no handle but the one it releases. */
  lemma CallRespects<E(!new)>(ar: Arith<E>, a: Arena<E>, call: Call<E>, h: Handle)
    requires Valid(a) && (Creates(call) ==> a.nextGen < TWO31)
    ensures
      var b := After(ar, a, call);
      && Valid(b) && a.nextGen <= b.nextGen <= a.nextGen + (if Creates(call) then 1 else 0)
      && (Issued(a, h) ==> Respects(a, b, call, h))
  {
    match call
    case Create(len) => PlaceRespects(a, Fresh(a, Zeros(ar, len)), call, h);
    case Upload(vals) => PlaceRespects(a, Fresh(a, vals), call, h);
    case Lazy(op, inputs, len, dims) =>
      FirstDeadNone(a, inputs);
      if FirstDead(a, inputs).None? {
        PlaceRespects(a, Pending(a, op, inputs, len, dims), call, h);
      }
    case Release(k) =>
      if Live(a, k) {
        DestroyKeeps(a, k);
      }
    case Reshape(k, dims) =>
      if Live(a, k) && Volume(dims) == SlotAt(a, k).len {
        var slot := SlotAt(a, k).(dims := dims);
        assert SlotOk(a, slot);
        PutKeeps(a, k, slot);
      }
    case Demand(k) =>
      ResolveIsSound(ar, a, k);
  }

  /** The arena after a series of calls. */
  function AfterAll<E(!new)>(ar: Arith<E>, a: Arena<E>, calls: seq<Call<E>>): (b: Arena<E>)
    requires Valid(a) && a.nextGen + Creations(calls) <= TWO31
    decreases |calls|
  {
    if calls == [] then a
    else
      CallRespects(ar, a, calls[0], 0);
      AfterAll(ar, After(ar, a, calls[0]), calls[1..])
  }

  /**
   * Over any history of fewer than 2^31 creations: the invariant holds, and a handle issued at some point is live
   * later on exactly if it was live then and no call has released it since. While it lives it reaches the slot it
   * always reached, with its generation and length; once dead it stays dead, whoever reuses its slot.
   */
  lemma {:induction false} HandlesOverHistory<E(!new)>(ar: Arith<E>, a: Arena<E>, calls: seq<Call<E>>, h: Handle)
    requires Valid(a) && a.nextGen + Creations(calls) <= TWO31
    ensures
      var b := AfterAll(ar, a, calls);
      && Valid(b)
      && (Issued(a, h) ==>
            && (Live(b, h) <==> Live(a, h) && Release(h) !in calls)
            && (Live(b, h) ==> Lookup(b, h) == Lookup(a, h) && SlotAt(b, h).epoch == SlotAt(a, h).epoch
                               && SlotAt(b, h).len == SlotAt(a, h).len))
    decreases |calls|
  {
    if calls != [] {
      CallRespects(ar, a, calls[0], h);
      var b := After(ar, a, calls[0]);
      HandlesOverHistory(ar, b, calls[1..], h);
      assert Release(h) in calls <==> calls[0] == Release(h) || Release(h) in calls[1..];
      hide After, Valid, Lookup;
    }
  }

  /** The history of an arena starts valid. */
  lemma EmptyIsValid<E>()
    ensures Valid(Empty<E>())
  {
  }

  /** A fresh handle is one no history has issued before, and it reaches the data it was made of. */
  lemma UploadedIsReadBack<E(!new)>(ar: Arith<E>, a: Arena<E>, vals: seq<E>)
    requires Valid(a) && a.nextGen < TWO31
    ensures
      var (b, idx) := Place(a, Fresh(a, vals));
      idx < TWO31 &&
      var h := Pack(idx, a.nextGen);
      && !Issued(a, h) && Live(b, h) && Eval(ar, b, h) == Ok(vals)
      && forall k: Handle :: Issued(a, k) ==> Agrees(Eval(ar, b, k), Eval(ar, a, k))
  {
    PlaceKeeps(a, Fresh(a, vals));
    var (b, idx) := Place(a, Fresh(a, vals));
    forall k: Handle | Issued(a, k) ensures Agrees(Eval(ar, b, k), Eval(ar, a, k)) {
      OldMeaning(ar, a, b, Pack(idx, a.nextGen), k);
    }
  }

  /** What the creations put under the handle they return. */
  lemma CreationsMake<E(!new)>(ar: Arith<E>, a: Arena<E>, call: Call<E>)
    requires Valid(a) && a.nextGen < TWO31 && Creates(call)
    requires call.Lazy? ==> forall h :: h in call.inputs ==> Live(a, h)
    ensures
      var b := After(ar, a, call);
      var idx := if a.free == [] then |a.slots| else a.free[|a.free| - 1];
      idx < TWO31 &&
      var h := Pack(idx, a.nextGen);
      && Live(b, h) && Lookup(b, h) == Ok(idx)
      && match call
         case Create(len) => SlotAt(b, h) == Slot(a.nextGen, len, [len], Some(seq(len, _ => ar.zero)), None)
         case Upload(vals) => SlotAt(b, h) == Slot(a.nextGen, |vals|, [|vals|], Some(vals), None)
         case Lazy(op, inputs, len, dims) =>
           SlotAt(b, h) == Slot(a.nextGen, len, dims, None, Some(Node(op, inputs, len)))
  {
    if call.Lazy? { FirstDeadNone(a, call.inputs); }
    var slot := match call
                case Create(len) => Fresh(a, Zeros(ar, len))
                case Upload(vals) => Fresh(a, vals)
                case Lazy(op, inputs, len, dims) => Pending(a, op, inputs, len, dims);
    PlaceKeeps(a, slot);
    assert Place(a, slot).1 == if a.free == [] then |a.slots| else a.free[|a.free| - 1];
  }

  /** A slot freed is the next to be used again, under another handle. */
  lemma FreedIsReused<E(!new)>(ar: Arith<E>, a: Arena<E>, h: Handle, vals: seq<E>)
    requires Valid(a) && Live(a, h) && a.nextGen < TWO31
    ensures
      var b := After(ar, After(ar, a, Release(h)), Upload(vals));
      var k := Pack(Lookup(a, h).value, a.nextGen);
      !Live(b, h) && Live(b, k) && SlotAt(b, k).data == Some(vals) && |b.slots| == |a.slots|
  {
    DestroyKeeps(a, h);
    var freed := Destroy(a, h);
    CreationsMake(ar, freed, Upload(vals));
    PlaceKeeps(freed, Fresh(freed, vals));
    LiveGen(a, h);
  }

  /** The same outcome, up to which error is reported: reusing a slot turns one error into another. */
  predicate Agrees<T(==)>(r: Result<T, Error>, q: Result<T, Error>) {
    r == q || (r.Err? && q.Err?)
  }

  /** Adding a slot changes no older meaning. */
  lemma {:induction false} OldMeaning<E(!new)>(ar: Arith<E>, a: Arena<E>, b: Arena<E>, h: Handle, k: Handle)
    requires Gen(k) < Gen(h)
    requires forall x: Handle :: x != h ==> Live(b, x) == Live(a, x) && (Live(a, x) ==> SlotAt(b, x) == SlotAt(a, x))
    ensures Agrees(Eval(ar, b, k), Eval(ar, a, k))
    decreases Gen(k), 1, 0
  {
    if Live(a, k) && SlotAt(a, k).data.None? && SlotAt(a, k).node.Some? {
      OldMeaningAll(ar, a, b, h, SlotAt(a, k).node.value.inputs, Gen(k));
    }
  }

  lemma {:induction false} OldMeaningAll<E(!new)>(ar: Arith<E>, a: Arena<E>, b: Arena<E>, h: Handle, hs: seq<Handle>,
                                                  bound: nat)
    requires bound <= Gen(h)
    requires forall x: Handle :: x != h ==> Live(b, x) == Live(a, x) && (Live(a, x) ==> SlotAt(b, x) == SlotAt(a, x))
    ensures Agrees(EvalAll(ar, b, hs, bound), EvalAll(ar, a, hs, bound))
    decreases bound, 0, |hs|
  {
    if hs != [] && Gen(hs[0]) < bound {
      OldMeaning(ar, a, b, h, hs[0]);
      OldMeaningAll(ar, a, b, h, hs[1..], bound);
    }
  }
}
