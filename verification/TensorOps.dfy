/** The tensor operations and their evaluation on the CPU. */
module TensorOps {
  import opened Wrappers

  /** Element arithmetic. Its rounding is not modelled: only the order in which it is applied is. */
  datatype Arith<!E> = Arith(zero: E, add: (E, E) -> E, mul: (E, E) -> E)

  datatype Op<E> = Add | Mul | Scale(factor: E) | MatMul(m: nat, k: nat, n: nat)

  /** `MissingInput` stands for the panic when an operation indexes an input it was not given. */
  datatype OpError = LengthMismatch | ScaleShape | MatMulShape | MissingInput

  function Get<E>(ar: Arith<E>, x: seq<E>, i: int): E {
    if 0 <= i < |x| then x[i] else ar.zero
  }

  /** The first `p` terms of row `i` times column `j`, summed from the left. */
  function Dot<E>(ar: Arith<E>, x: seq<E>, y: seq<E>, i: nat, j: nat, k: nat, n: nat, p: nat): E {
    if p == 0 then ar.zero
    else ar.add(Dot(ar, x, y, i, j, k, n, p - 1), ar.mul(Get(ar, x, i * k + (p - 1)), Get(ar, y, (p - 1) * n + j)))
  }

  /** Row-major: entry `t` is at row `t / n`, column `t % n`. */
  function Product<E>(ar: Arith<E>, x: seq<E>, y: seq<E>, m: nat, k: nat, n: nat): seq<E> {
    seq(m * n, t => if n == 0 || t < 0 then ar.zero else Dot(ar, x, y, t / n, t % n, k, n, k))
  }

  function Zip<E>(x: seq<E>, y: seq<E>, f: (E, E) -> E): seq<E>
    requires |x| == |y|
  {
    seq(|x|, i requires 0 <= i < |x| => f(x[i], y[i]))
  }

  /** What an operation computes from the data of its inputs. */
  function Apply<E>(ar: Arith<E>, op: Op<E>, ins: seq<seq<E>>, len: nat): Result<seq<E>, OpError> {
    match op
    case Add => Elementwise(ins, len, ar.add)
    case Mul => Elementwise(ins, len, ar.mul)
    case Scale(factor) =>
      if |ins| != 1 || |ins[0]| != len then Err(ScaleShape)
      else Ok(seq(len, i requires 0 <= i < len => ar.mul(ins[0][i], factor)))
    case MatMul(m, k, n) =>
      if |ins| < 2 then Err(MissingInput)
      else if |ins[0]| != m * k || |ins[1]| != k * n || len != m * n then Err(MatMulShape)
      else Ok(Product(ar, ins[0], ins[1], m, k, n))
  }

  function Elementwise<E>(ins: seq<seq<E>>, len: nat, f: (E, E) -> E): Result<seq<E>, OpError> {
    if |ins| < 2 then Err(MissingInput)
    else if |ins[0]| != |ins[1]| || |ins[0]| != len then Err(LengthMismatch)
    else Ok(Zip(ins[0], ins[1], f))
  }

  lemma {:induction false} RowStart(a: nat, b: nat, k: nat)
    requires a < b
    ensures a * k + k <= b * k
  {
    var d := b - a - 1;
    assert b * k == (a + 1 + d) * k == a * k + k + d * k;
    NonNegative(d, k);
  }

  lemma NonNegative(a: nat, b: nat)
    ensures a * b >= 0
  {
  }

  lemma RowOf(i: nat, j: nat, n: nat)
    requires j < n
    ensures (i * n + j) / n == i && (i * n + j) % n == j
  {
    var t := i * n + j;
    var q, r := t / n, t % n;
    NonNegative(i, n);
    assert q * n + r == t && 0 <= r < n;
    if q < i {
      RowStart(q, i, n);
    } else if q > i {
      RowStart(i, q, n);
    }
  }

  /** The position of row `i`, column `j` in a matrix with rows of `n` entries. */
  function Index(i: nat, j: nat, n: nat): (t: nat) {
    NonNegative(i, n);
    i * n + j
  }

  lemma NextIndex(i: nat, j: nat, n: nat)
    ensures Index(i, j + 1, n) == Index(i, j, n) + 1
    ensures Index(i, n, n) == Index(i + 1, 0, n)
    ensures Index(0, 0, n) == 0
  {
    assert (i + 1) * n == i * n + n;
  }

  lemma IndexInRange(i: nat, j: nat, m: nat, n: nat)
    requires i < m && j < n
    ensures Index(i, j, n) < m * n
  {
    RowStart(i, m, n);
  }

  /** The entries of a matrix product, addressed by row and column. */
  lemma ProductEntry<E>(ar: Arith<E>, x: seq<E>, y: seq<E>, m: nat, k: nat, n: nat, i: nat, j: nat)
    requires i < m && j < n
    ensures |Product(ar, x, y, m, k, n)| == m * n && Index(i, j, n) < m * n
    ensures Product(ar, x, y, m, k, n)[Index(i, j, n)] == Dot(ar, x, y, i, j, k, n, k)
  {
    RowStart(i, m, n);
    RowOf(i, j, n);
    hide Dot;
  }

  /** The first `count` entries are in place. */
  ghost predicate Filled<E>(goal: seq<E>, out: seq<E>, count: nat) {
    |out| == |goal| && count <= |goal| && forall t :: 0 <= t < count ==> out[t] == goal[t]
  }

  method MultiplyMatrices<E>(ar: Arith<E>, x: seq<E>, y: seq<E>, m: nat, k: nat, n: nat) returns (r: seq<E>)
    requires |x| == m * k && |y| == k * n
    ensures r == Product(ar, x, y, m, k, n)
  {
    ghost var goal := Product(ar, x, y, m, k, n);
    NonNegative(m, n);
    var out := new E[m * n](_ => ar.zero);
    NextIndex(0, 0, n);
    assert out[..] == out[..] && |goal| == m * n;
    hide Index, Product, Dot;
    var i := 0;
    while i < m
      invariant 0 <= i <= m
      invariant Filled(goal, out[..], Index(i, 0, n))
    {
      var j := 0;
      while j < n
        invariant 0 <= j <= n
        invariant Filled(goal, out[..], Index(i, j, n))
      {
        var acc := DotProduct(ar, x, y, i, j, m, k, n);
        ProductEntry(ar, x, y, m, k, n, i, j);
        IndexInRange(i, j, m, n);
        NextIndex(i, j, n);
        out[Index(i, j, n)] := acc;
        j := j + 1;
      }
      NextIndex(i, j, n);
      i := i + 1;
    }
    r := out[..];
    WholeIndex(m, n);
  }

  lemma WholeIndex(m: nat, n: nat)
    ensures Index(m, 0, n) == m * n
  {
  }

  /** The innermost loop: one entry of the product. */
  method DotProduct<E>(ar: Arith<E>, x: seq<E>, y: seq<E>, i: nat, j: nat, m: nat, k: nat, n: nat) returns (acc: E)
    requires |x| == m * k && |y| == k * n && i < m && j < n
    ensures acc == Dot(ar, x, y, i, j, k, n, k)
  {
    acc := ar.zero;
    var p := 0;
    while p < k
      invariant 0 <= p <= k
      invariant acc == Dot(ar, x, y, i, j, k, n, p)
    {
      IndexInRange(i, p, m, k);
      IndexInRange(p, j, k, n);
      DotStep(ar, x, y, i, j, k, n, p);
      acc := ar.add(acc, ar.mul(x[Index(i, p, k)], y[Index(p, j, n)]));
      p := p + 1;
    }
  }

  lemma DotStep<E>(ar: Arith<E>, x: seq<E>, y: seq<E>, i: nat, j: nat, k: nat, n: nat, p: nat)
    ensures Dot(ar, x, y, i, j, k, n, p + 1) ==
      ar.add(Dot(ar, x, y, i, j, k, n, p), ar.mul(Get(ar, x, Index(i, p, k)), Get(ar, y, Index(p, j, n))))
  {
  }

  /** Evaluates one operation on the CPU. */
  method RunOp<E>(ar: Arith<E>, op: Op<E>, ins: seq<seq<E>>, len: nat) returns (r: Result<seq<E>, OpError>)
    ensures r == Apply(ar, op, ins, len)
  {
    match op
    case Add =>
      if |ins| < 2 { return Err(MissingInput); }
      if |ins[0]| != |ins[1]| || |ins[0]| != len { return Err(LengthMismatch); }
      return Ok(Zip(ins[0], ins[1], ar.add));
    case Mul =>
      if |ins| < 2 { return Err(MissingInput); }
      if |ins[0]| != |ins[1]| || |ins[0]| != len { return Err(LengthMismatch); }
      return Ok(Zip(ins[0], ins[1], ar.mul));
    case Scale(factor) =>
      if |ins| != 1 || |ins[0]| != len { return Err(ScaleShape); }
      return Ok(seq(len, i requires 0 <= i < len => ar.mul(ins[0][i], factor)));
    case MatMul(m, k, n) =>
      if |ins| < 2 { return Err(MissingInput); }
      if |ins[0]| != m * k || |ins[1]| != k * n || len != m * n { return Err(MatMulShape); }
      var out := MultiplyMatrices(ar, ins[0], ins[1], m, k, n);
      return Ok(out);
  }

  // --- the operations, entry by entry ---------------------------------------------

  /** Added up from the left, starting from zero. */
  function SumLeft<E>(ar: Arith<E>, terms: seq<E>): E {
    if terms == [] then ar.zero else ar.add(SumLeft(ar, terms[..|terms| - 1]), terms[|terms| - 1])
  }

  /** The products of a row of `x` with a column of `y`, entry by entry. */
  function Terms<E>(ar: Arith<E>, x: seq<E>, y: seq<E>, i: nat, j: nat, m: nat, k: nat, n: nat): (ts: seq<E>)
    requires |x| == m * k && |y| == k * n && i < m && j < n
    ensures |ts| == k
  {
    seq(k, p requires 0 <= p < k =>
      IndexInRange(i, p, m, k); IndexInRange(p, j, k, n);
      ar.mul(x[Index(i, p, k)], y[Index(p, j, n)]))
  }

  lemma {:induction false} DotIsSum<E>(ar: Arith<E>, x: seq<E>, y: seq<E>, i: nat, j: nat,
        m: nat, k: nat, n: nat, p: nat)
    requires |x| == m * k && |y| == k * n && i < m && j < n && p <= k
    ensures Dot(ar, x, y, i, j, k, n, p) == SumLeft(ar, Terms(ar, x, y, i, j, m, k, n)[..p])
  {
    var terms := Terms(ar, x, y, i, j, m, k, n);
    if p > 0 {
      DotIsSum(ar, x, y, i, j, m, k, n, p - 1);
      DotStep(ar, x, y, i, j, k, n, p - 1);
      IndexInRange(i, p - 1, m, k);
      IndexInRange(p - 1, j, k, n);
      assert terms[..p][..p - 1] == terms[..p - 1];
    }
  }

  /** The shapes an operation accepts. */
  predicate Fits<E>(op: Op<E>, ins: seq<seq<E>>, len: nat) {
    match op
    case Add => |ins| >= 2 && |ins[0]| == len && |ins[1]| == len
    case Mul => |ins| >= 2 && |ins[0]| == len && |ins[1]| == len
    case Scale(_) => |ins| == 1 && |ins[0]| == len
    case MatMul(m, k, n) => |ins| >= 2 && |ins[0]| == m * k && |ins[1]| == k * n && len == m * n
  }

  /** An operation succeeds on exactly the shapes it accepts; what it gives is said entry by entry. */
  lemma ApplyEntries<E>(ar: Arith<E>, op: Op<E>, ins: seq<seq<E>>, len: nat)
    ensures var r := Apply(ar, op, ins, len);
            && (r.Ok? <==> Fits(op, ins, len))
            && (r.Ok? ==> |r.value| == len && match op
                case Add => forall t :: 0 <= t < len ==> r.value[t] == ar.add(ins[0][t], ins[1][t])
                case Mul => forall t :: 0 <= t < len ==> r.value[t] == ar.mul(ins[0][t], ins[1][t])
                case Scale(factor) => forall t :: 0 <= t < len ==> r.value[t] == ar.mul(ins[0][t], factor)
                case MatMul(m, k, n) =>
                  forall i: nat, j: nat :: i < m && j < n ==>
                    Index(i, j, n) < len &&
                    r.value[Index(i, j, n)] == SumLeft(ar, Terms(ar, ins[0], ins[1], i, j, m, k, n)))
  {
    if op.MatMul? && Fits(op, ins, len) {
      var x, y := ins[0], ins[1];
      forall i: nat, j: nat | i < op.m && j < op.n
        ensures Index(i, j, op.n) < len
        ensures Product(ar, x, y, op.m, op.k, op.n)[Index(i, j, op.n)]
             == SumLeft(ar, Terms(ar, x, y, i, j, op.m, op.k, op.n))
      {
        ProductEntry(ar, x, y, op.m, op.k, op.n, i, j);
        DotIsSum(ar, x, y, i, j, op.m, op.k, op.n, op.k);
        var terms := Terms(ar, x, y, i, j, op.m, op.k, op.n);
        assert terms[..op.k] == terms;
      }
      hide Product, Terms, SumLeft, Index;
    }
  }
}
