/** Import graphs: walks, cycles, topological orders and in-degrees. */
module ImportGraph {

  type Graph = map<string, seq<string>>

  /** A sequence of modules each of which imports the one behind it. */
  ghost predicate Walk(g: Graph, w: seq<string>) {
    && w != []
    && (forall i :: 0 <= i < |w| ==> w[i] in g)
    && (forall i :: 0 <= i < |w| - 1 ==> w[i + 1] in g[w[i]])
  }

  ghost predicate ClosedWalk(g: Graph, w: seq<string>) {
    Walk(g, w) && |w| > 1 && w[0] == w[|w| - 1]
  }

  ghost predicate Acyclic(g: Graph) {
    forall w :: !ClosedWalk(g, w)
  }

  predicate Distinct(s: seq<string>) {
    forall i, j :: 0 <= i < j < |s| ==> s[i] != s[j]
  }

  function Elements(s: seq<string>): set<string> {
    set x | x in s
  }

  /** Every importer stands before what it imports. */
  ghost predicate ImportersFirst(g: Graph, order: seq<string>) {
    forall i, u :: 0 <= i < |order| && u in g && order[i] in g[u] ==> u in order[..i]
  }

  // --- counting -------------------------------------------------------------

  lemma {:induction false} DistinctSize(s: seq<string>)
    requires Distinct(s)
    ensures |Elements(s)| == |s|
  {
    if s == [] {
      assert Elements(s) == {};
    } else {
      var n := |s| - 1;
      DistinctSize(s[..n]);
      assert Elements(s) == Elements(s[..n]) + {s[n]};
      assert s[n] !in Elements(s[..n]);
    }
  }

  lemma {:induction false} SubsetSize(a: set<string>, b: set<string>)
    requires a <= b
    ensures |a| <= |b|
    ensures |a| == |b| ==> a == b
  {
    if a != {} {
      var x :| x in a;
      SubsetSize(a - {x}, b - {x});
    }
  }

  /** More entries than values: one of them repeats. */
  lemma Pigeonhole(s: seq<string>, values: set<string>)
    requires Elements(s) <= values && |s| > |values|
    ensures exists i, j :: 0 <= i < j < |s| && s[i] == s[j]
  {
    if Distinct(s) {
      DistinctSize(s);
      SubsetSize(Elements(s), values);
    }
  }

  // --- in-degrees -----------------------------------------------------------

  /** The imports of the modules in `from`, as often as they occur. */
  ghost function Incoming(g: Graph, from: set<string>): multiset<string>
    requires from <= g.Keys
  {
    if from == {} then multiset{}
    else
      var u :| u in from;
      multiset(g[u]) + Incoming(g, from - {u})
  }

  lemma {:induction false} IncomingSplit(g: Graph, from: set<string>, u: string)
    requires from <= g.Keys && u in from
    ensures Incoming(g, from) == multiset(g[u]) + Incoming(g, from - {u})
  {
    var p :| p in from && Incoming(g, from) == multiset(g[p]) + Incoming(g, from - {p});
    if p != u {
      IncomingSplit(g, from - {p}, u);
      IncomingSplit(g, from - {u}, p);
      assert from - {p} - {u} == from - {u} - {p};
    }
  }

  lemma {:induction false} IncomingHas(g: Graph, from: set<string>, v: string)
    requires from <= g.Keys
    ensures v in Incoming(g, from) <==> ImportedWithin(g, from, v)
  {
    if from != {} {
      var p :| p in from && Incoming(g, from) == multiset(g[p]) + Incoming(g, from - {p});
      IncomingHas(g, from - {p}, v);
      if v in g[p] {
        assert v in multiset(g[p]);
      }
      if u :| u in from && v in g[u] {
        assert u == p || u in from - {p};
      }
    }
  }

  // --- cycles ---------------------------------------------------------------

  lemma {:induction false} PositionsRise(g: Graph, order: seq<string>, w: seq<string>, i: nat)
    requires Distinct(order) && ImportersFirst(g, order)
    requires Walk(g, w) && i < |order| && order[i] == w[|w| - 1]
    ensures |w| > 1 ==> w[0] in order[..i]
    decreases |w|
  {
    if |w| > 1 {
      var n := |w| - 1;
      var prev := w[n - 1];
      assert order[i] in g[prev];
      assert prev in order[..i];
      var j :| 0 <= j < i && order[j] == prev;
      var shorter := w[..n];
      WalkSlice(g, w, 0, n);
      assert w[0..n] == shorter;
      PositionsRise(g, order, shorter, j);
      if |shorter| > 1 {
        assert order[..j] <= order[..i];
      }
    }
  }

  /** A graph with a topological order has no cycle. */
  lemma OrderedIsAcyclic(g: Graph, order: seq<string>)
    requires Distinct(order) && g.Keys == Elements(order) && ImportersFirst(g, order)
    ensures Acyclic(g)
  {
    forall w | Walk(g, w) && |w| > 1 ensures w[0] != w[|w| - 1] {
      assert w[|w| - 1] in Elements(order);
      var i :| 0 <= i < |order| && order[i] == w[|w| - 1];
      PositionsRise(g, order, w, i);
    }
  }

  lemma WalkPrepend(g: Graph, u: string, w: seq<string>)
    requires Walk(g, w) && u in g && w[0] in g[u]
    ensures Walk(g, [u] + w)
  {
    var z := [u] + w;
    forall i | 0 <= i < |z| - 1 ensures z[i] in g && z[i + 1] in g[z[i]] {
      if i > 0 {
        assert z[i] == w[i - 1] && z[i + 1] == w[i - 1 + 1];
      }
    }
    assert z[|z| - 1] == w[|w| - 1];
  }

  lemma WalkSlice(g: Graph, w: seq<string>, i: nat, j: nat)
    requires Walk(g, w) && i < j <= |w|
    ensures Walk(g, w[i..j])
  {
    var z := w[i..j];
    forall k | 0 <= k < |z| - 1 ensures z[k + 1] in g[z[k]] {
      assert z[k] == w[i + k] && z[k + 1] == w[i + k + 1];
    }
  }

  ghost predicate ImportedWithin(g: Graph, from: set<string>, v: string)
    requires from <= g.Keys
  {
    exists u :: u in from && v in g[u]
  }

  /** Walking back from importer to importer for as long as one likes. */
  lemma {:induction false} WalkBack(g: Graph, stuck: set<string>, v: string, n: nat) returns (w: seq<string>)
    requires v in stuck && stuck <= g.Keys
    requires forall x :: x in stuck ==> ImportedWithin(g, stuck, x)
    ensures |w| == n + 1 && Walk(g, w) && w[n] == v && forall i :: 0 <= i < |w| ==> w[i] in stuck
  {
    if n == 0 {
      w := [v];
    } else {
      var rest := WalkBack(g, stuck, v, n - 1);
      assert ImportedWithin(g, stuck, rest[0]);
      var u :| u in stuck && rest[0] in g[u];
      w := [u] + rest;
      WalkPrepend(g, u, rest);
    }
  }

  /** Modules that all have an importer among themselves contain a cycle. */
  lemma StuckHasCycle(g: Graph, stuck: set<string>)
    requires stuck != {} && stuck <= g.Keys
    requires forall v :: v in stuck ==> ImportedWithin(g, stuck, v)
    ensures !Acyclic(g)
  {
    var v :| v in stuck;
    StuckIsBehind(g, stuck, v);
  }

  // --- what a topological sort leaves over ------------------------------------

  /** The module lies on a closed walk or is imported, perhaps through others, from one. */
  ghost predicate Behind(g: Graph, v: string) {
    exists c, w :: LeadsTo(g, c, w, v)
  }

  ghost predicate LeadsTo(g: Graph, c: seq<string>, w: seq<string>, v: string) {
    ClosedWalk(g, c) && Walk(g, w) && w[0] == c[0] && w[|w| - 1] == v
  }

  ghost function Leftover(g: Graph): (r: set<string>)
    ensures r <= g.Keys
  {
    set v | v in g.Keys && Behind(g, v)
  }

  lemma StuckIsBehind(g: Graph, stuck: set<string>, v: string)
    requires v in stuck && stuck <= g.Keys
    requires forall x :: x in stuck ==> ImportedWithin(g, stuck, x)
    ensures Behind(g, v) && !Acyclic(g)
  {
    var w := WalkBack(g, stuck, v, |stuck|);
    Pigeonhole(w, stuck);
    var i, j :| 0 <= i < j < |w| && w[i] == w[j];
    WalkSlice(g, w, i, j + 1);
    WalkSlice(g, w, i, |w|);
    assert ClosedWalk(g, w[i..j + 1]);
    assert LeadsTo(g, w[i..j + 1], w[i..|w|], v);
  }

  /** No module with a place in the order lies on or behind a closed walk. */
  lemma OrderedIsNotBehind(g: Graph, order: seq<string>, i: nat)
    requires Distinct(order) && ImportersFirst(g, order) && i < |order|
    ensures !Behind(g, order[i])
  {
    if Behind(g, order[i]) {
      var c, w :| LeadsTo(g, c, w, order[i]);
      PositionsRise(g, order, w, i);
      var k :| 0 <= k <= i && order[k] == c[0];
      PositionsRise(g, order, c, k);
    }
  }

  /** Left over are exactly the modules on or behind a closed walk. */
  lemma StuckIsLeftover(g: Graph, order: seq<string>)
    requires Distinct(order) && Elements(order) <= g.Keys && ImportersFirst(g, order)
    requires forall v :: v in g.Keys - Elements(order) ==> ImportedWithin(g, g.Keys - Elements(order), v)
    ensures g.Keys - Elements(order) == Leftover(g)
  {
    hide Behind, ImportersFirst;
    var stuck := g.Keys - Elements(order);
    forall v | v in stuck ensures v in Leftover(g) {
      StuckIsBehind(g, stuck, v);
    }
    forall v | v in Leftover(g) ensures v in stuck {
      if v in Elements(order) {
        var i :| 0 <= i < |order| && order[i] == v;
        OrderedIsNotBehind(g, order, i);
      }
    }
  }
}
