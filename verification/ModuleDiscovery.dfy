/** Discovery of the module graph: import closure, topological order, cycle report and compile order. */
module ModuleDiscovery {
  import opened Wrappers
  import opened ImportGraph
  import opened LexOrder

  /** What resolving one import specifier gives: a module, nothing to load, or an error. */
  datatype Import = Module(path: string) | Ignored | Unresolved(reason: string)

  /** What is found at a module path. */
  datatype Source =
    | Provided                         // a built-in module: no source, no imports
    | Unreadable(reason: string)
    | Unparsable(reason: string)
    | Parsed(imports: seq<Import>)

  datatype Failure =
    | UnresolvedImport(importer: string, reason: string)
    | CannotRead(path: string, reason: string)
    | CannotParse(path: string, reason: string)
    | CircularPath(cycle: seq<string>)
    | CircularAmong(modules: seq<string>)

  /** The failure of a module that does not load. */
  predicate Blames(e: Failure, culprit: string) {
    match e
    case UnresolvedImport(importer, _) => importer == culprit
    case CannotRead(path, _) => path == culprit
    case CannotParse(path, _) => path == culprit
    case _ => false
  }

  predicate Resolves(imports: seq<Import>) {
    forall i :: 0 <= i < |imports| ==> !imports[i].Unresolved?
  }

  function DepsOf(imports: seq<Import>): (deps: seq<string>)
    ensures forall v :: v in deps <==> Module(v) in imports
  {
    if imports == [] then []
    else
      assert forall x :: x in imports <==> x == imports[0] || x in imports[1..];
      (if imports[0].Module? then [imports[0].path] else []) + DepsOf(imports[1..])
  }

  function ModulesBefore(imports: seq<Import>, i: nat): nat
    requires i <= |imports|
  {
    if i == 0 then 0 else ModulesBefore(imports, i - 1) + if imports[i - 1].Module? then 1 else 0
  }

  /** `deps` holds the paths of the modules among the imports, in their order, as often as they are imported. */
  predicate Lists(deps: seq<string>, imports: seq<Import>) {
    && |deps| == ModulesBefore(imports, |imports|)
    && forall i :: 0 <= i < |imports| && imports[i].Module? ==>
         ModulesBefore(imports, i) < |deps| && deps[ModulesBefore(imports, i)] == imports[i].path
  }

  lemma {:induction false} DepsAreListed(imports: seq<Import>)
    ensures Lists(DepsOf(imports), imports)
  {
    if imports != [] {
      hide *;
      var n := |imports| - 1;
      DepsAreListed(imports[..n]);
      DepsOfLast(imports[..n], imports[n]);
      OneMoreListed(imports[..n], imports[n], DepsOf(imports[..n]));
      assert imports == imports[..n] + [imports[n]];
    }
  }

  lemma OneMoreListed(imports: seq<Import>, last: Import, deps: seq<string>)
    requires Lists(deps, imports)
    ensures Lists(deps + if last.Module? then [last.path] else [], imports + [last])
  {
    var more := imports + [last];
    forall i: nat | i <= |imports| ensures ModulesBefore(more, i) == ModulesBefore(imports, i) {
      SameModulesBefore(more, imports, i);
    }
  }

  lemma {:induction false} DepsOfLast(imports: seq<Import>, last: Import)
    ensures DepsOf(imports + [last]) == DepsOf(imports) + if last.Module? then [last.path] else []
  {
    if imports == [] {
      assert [last][1..] == [] && imports + [last] == [last];
    } else {
      assert (imports + [last])[1..] == imports[1..] + [last];
      DepsOfLast(imports[1..], last);
    }
  }

  lemma {:induction false} SameModulesBefore(a: seq<Import>, b: seq<Import>, i: nat)
    requires i <= |b| && b <= a
    ensures ModulesBefore(a, i) == ModulesBefore(b, i)
  {
    if i > 0 { SameModulesBefore(a, b, i - 1); }
  }

  /** The entry module with its imports, and everything the file system and the provider hold. */
  datatype Project = Project(entry: string, imports: seq<Import>, files: map<string, Source>) {
    function At(path: string): Source {
      if path == entry then Parsed(imports)
      else if path in files then files[path]
      else Unreadable("not found")
    }

    predicate Imports(path: string, v: string) {
      At(path).Parsed? && Module(v) in At(path).imports
    }

    function Edges(path: string): (es: seq<string>)
      ensures forall v :: v in es <==> Imports(path, v)
    {
      match At(path)
      case Parsed(imports) => DepsOf(imports)
      case _ => []
    }

    /** The module can be loaded and all its imports resolve. */
    predicate Loads(path: string) {
      match At(path)
      case Provided => true
      case Parsed(imports) => Resolves(imports)
      case _ => false
    }

    ghost predicate Links(w: seq<string>) {
      w != [] && forall i :: 0 <= i < |w| - 1 ==> Imports(w[i], w[i + 1])
    }

    ghost predicate Chain(w: seq<string>, path: string) {
      Links(w) && w[0] == entry && w[|w| - 1] == path
    }

    ghost predicate Reachable(path: string) {
      exists w :: Chain(w, path)
    }

    ghost predicate AllLoad() {
      forall path :: Reachable(path) ==> Loads(path)
    }

    /** No reachable module imports itself, directly or through others. */
    ghost predicate CycleFree() {
      forall w :: Links(w) && |w| > 1 && Reachable(w[0]) ==> w[0] != w[|w| - 1]
    }
  }

  /** The graph holds exactly the reachable modules with their imports. */
  ghost predicate Represents(g: Graph, p: Project) {
    && (forall x :: x in g <==> p.Reachable(x))
    && (forall x :: x in g ==> g[x] == p.Edges(x))
    && (forall x :: x in g && p.At(x).Parsed? ==> Lists(g[x], p.At(x).imports))
  }

  // --- the import closure ---------------------------------------------------

  lemma EntryIsReachable(p: Project)
    ensures p.Reachable(p.entry)
  {
    assert p.Chain([p.entry], p.entry);
  }

  lemma ChainExtend(p: Project, w: seq<string>, u: string, v: string)
    requires p.Chain(w, u) && p.Imports(u, v)
    ensures p.Chain(w + [v], v)
  {
    var z := w + [v];
    forall i | 0 <= i < |z| - 1 ensures p.Imports(z[i], z[i + 1]) {
      if i < |w| - 1 {
        assert z[i] == w[i] && z[i + 1] == w[i + 1];
      }
    }
  }

  lemma ReachableStep(p: Project, u: string, v: string)
    requires p.Reachable(u) && p.Imports(u, v)
    ensures p.Reachable(v)
  {
    var w :| p.Chain(w, u);
    ChainExtend(p, w, u, v);
  }

  lemma {:induction false} ChainStaysInside(p: Project, closed: set<string>, w: seq<string>)
    requires p.Links(w) && w[0] in closed
    requires forall x, d :: x in closed && p.Imports(x, d) ==> d in closed
    ensures forall i :: 0 <= i < |w| ==> w[i] in closed
    decreases |w|
  {
    if |w| > 1 {
      var z := w[1..];
      forall i | 0 <= i < |z| - 1 ensures p.Imports(z[i], z[i + 1]) {
        assert z[i] == w[i + 1] && z[i + 1] == w[i + 2];
      }
      assert p.Imports(w[0], w[0 + 1]);
      ChainStaysInside(p, closed, z);
      forall i | 0 <= i < |w| ensures w[i] in closed {
        if i > 0 {
          assert w[i] == z[i - 1];
        }
      }
    }
  }

  lemma ClosureIsComplete(p: Project, closed: set<string>)
    requires p.entry in closed
    requires forall x, d :: x in closed && p.Imports(x, d) ==> d in closed
    ensures forall x :: p.Reachable(x) ==> x in closed
  {
    forall x | p.Reachable(x) ensures x in closed {
      var w :| p.Chain(w, x);
      ChainStaysInside(p, closed, w);
    }
  }

  method ResolveImports(imports: seq<Import>) returns (r: Result<seq<string>, string>)
    ensures r.Ok? <==> Resolves(imports)
    ensures r.Ok? ==> r.value == DepsOf(imports) && Lists(r.value, imports)
  {
    var deps := [];
    var rest := imports;
    while rest != []
      invariant deps + DepsOf(rest) == DepsOf(imports)
      invariant Resolves(imports) <==> Resolves(rest)
      decreases |rest|
    {
      assert Resolves(rest) <==> !rest[0].Unresolved? && Resolves(rest[1..]) by {
        assert forall i :: 1 <= i < |rest| ==> rest[i] == rest[1..][i - 1];
        assert forall i :: 0 <= i < |rest| - 1 ==> rest[1..][i] == rest[i + 1];
      }
      match rest[0]
      case Unresolved(reason) => return Err(reason);
      case Ignored =>
        assert DepsOf(rest) == DepsOf(rest[1..]);
        rest := rest[1..];
      case Module(path) =>
        assert deps + ([path] + DepsOf(rest[1..])) == (deps + [path]) + DepsOf(rest[1..]);
        deps := deps + [path];
        rest := rest[1..];
    }
    DepsAreListed(imports);
    return Ok(deps);
  }

  /** The worklist's state: what has been loaded, and that nothing imported has been forgotten. */
  ghost predicate Exploring(p: Project, graph: Graph, queue: seq<string>) {
    && p.entry in graph && graph.Keys <= p.files.Keys + {p.entry}
    && (forall x :: x in graph ==> p.Reachable(x) && p.Loads(x) && graph[x] == p.Edges(x))
    && (forall x :: x in queue ==> p.Reachable(x))
    && (forall x, d :: x in graph && p.Imports(x, d) ==> d in graph || d in queue)
  }

  lemma Visited(p: Project, graph: Graph, queue: seq<string>, path: string, more: seq<string>)
    requires Exploring(p, graph, [path] + queue)
    requires path !in graph && p.Loads(path)
    requires forall d :: p.Imports(path, d) ==> d in more || d in graph || d == path
    requires forall d :: d in more ==> p.Imports(path, d)
    ensures Exploring(p, graph[path := p.Edges(path)], queue + more)
  {
    var q := [path] + queue;
    assert path in q;
    forall d | d in more ensures p.Reachable(d) {
      ReachableStep(p, path, d);
    }
    assert forall d :: d in queue ==> d in q;
  }

  lemma Begun(p: Project)
    requires Resolves(p.imports)
    ensures Exploring(p, map[p.entry := DepsOf(p.imports)], DepsOf(p.imports))
  {
    EntryIsReachable(p);
    forall d | p.Imports(p.entry, d) ensures p.Reachable(d) {
      ReachableStep(p, p.entry, d);
    }
  }

  lemma Skipped(p: Project, graph: Graph, path: string, queue: seq<string>)
    requires Exploring(p, graph, [path] + queue)
    ensures p.Reachable(path)
    ensures path in graph ==> Exploring(p, graph, queue)
    ensures path !in graph && p.Loads(path) ==> path in p.files && p.entry in graph
  {
    hide *;
    if path in graph { KnownIsSkipped(p, graph, path, queue); }
    NextIsReachable(p, graph, path, queue);
    if p.Loads(path) { LoadedIsThere(p, path); }
  }

  lemma NextIsReachable(p: Project, graph: Graph, path: string, queue: seq<string>)
    requires Exploring(p, graph, [path] + queue)
    ensures p.Reachable(path) && p.entry in graph
  {
    assert path in [path] + queue;
    hide Project.Reachable, Project.Edges, Project.Imports, Resolves;
  }

  lemma KnownIsSkipped(p: Project, graph: Graph, path: string, queue: seq<string>)
    requires Exploring(p, graph, [path] + queue) && path in graph
    ensures Exploring(p, graph, queue)
  {
    assert forall d :: d in [path] + queue <==> d == path || d in queue;
    hide Project.Reachable, Project.Edges, Project.Imports, Resolves, Project.Loads;
  }

  lemma LoadedIsThere(p: Project, path: string)
    requires p.Loads(path)
    ensures path == p.entry || path in p.files
  {
  }

  lemma Finished(p: Project, graph: Graph)
    requires Exploring(p, graph, [])
    ensures Represents(graph, p) && p.AllLoad()
  {
    ClosureIsComplete(p, graph.Keys);
    forall x | x in graph && p.At(x).Parsed? ensures Lists(graph[x], p.At(x).imports) {
      DepsAreListed(p.At(x).imports);
    }
  }

  method Explore(p: Project) returns (r: Result<Graph, Failure>, ghost culprit: string)
    ensures r.Ok? ==> Represents(r.value, p) && p.AllLoad()
    ensures r.Err? ==> p.Reachable(culprit) && !p.Loads(culprit)
    ensures r.Err? ==> Blames(r.error, culprit)
  {
    EntryIsReachable(p);
    culprit := p.entry;
    var entryDeps := ResolveImports(p.imports);
    if entryDeps.Err? {
      return Err(UnresolvedImport(p.entry, entryDeps.error)), p.entry;
    }
    var graph := map[p.entry := entryDeps.value];
    var queue := entryDeps.value;
    Begun(p);
    hide Exploring, Represents, Resolves, DepsOf;
    while queue != []
      invariant Exploring(p, graph, queue)
      decreases p.files.Keys + {p.entry} - graph.Keys, |queue|
    {
      var path := queue[0];
      assert queue == [path] + queue[1..];
      queue := queue[1..];
      Skipped(p, graph, path, queue);
      if path in graph {
        continue;
      }
      culprit := path;
      match p.At(path)
      case Provided =>
        Visited(p, graph, queue, path, []);
        assert queue + [] == queue;
        graph := graph[path := []];
      case Unreadable(reason) =>
        return Err(CannotRead(path, reason)), path;
      case Unparsable(reason) =>
        return Err(CannotParse(path, reason)), path;
      case Parsed(imports) =>
        var deps := ResolveImports(imports);
        if deps.Err? {
          return Err(UnresolvedImport(path, deps.error)), path;
        }
        var more := Fresh(deps.value, graph.Keys + {path});
        Visited(p, graph, queue, path, more);
        queue := queue + more;
        graph := graph[path := deps.value];
    }
    Finished(p, graph);
    return Ok(graph), p.entry;
  }

  /** The imports not yet enqueued, in their order. */
  function Fresh(deps: seq<string>, enqueued: set<string>): (r: seq<string>)
    ensures forall d :: d in r <==> d in deps && d !in enqueued
  {
    if deps == [] then []
    else (if deps[0] in enqueued then [] else [deps[0]]) + Fresh(deps[1..], enqueued)
  }

  lemma CyclesAgree(g: Graph, p: Project)
    requires Represents(g, p)
    ensures Acyclic(g) <==> p.CycleFree()
  {
    if p.CycleFree() {
      forall w | Walk(g, w) && |w| > 1 ensures w[0] != w[|w| - 1] {
        assert p.Links(w);
      }
    }
    if Acyclic(g) {
      forall w | p.Links(w) && |w| > 1 && p.Reachable(w[0]) ensures w[0] != w[|w| - 1] {
        forall x, d | x in g.Keys && p.Imports(x, d) ensures d in g.Keys {
          ReachableStep(p, x, d);
        }
        ChainStaysInside(p, g.Keys, w);
        assert Walk(g, w);
        assert !ClosedWalk(g, w);
      }
    }
  }

  // --- in-degrees and the topological order ---------------------------------

  function Degree(degrees: map<string, nat>, v: string): nat {
    if v in degrees then degrees[v] else 0
  }

  /** `degrees` counts the imports of `from`, and `extra` besides. */
  ghost predicate Counted(g: Graph, degrees: map<string, nat>, from: set<string>, extra: multiset<string>)
    requires from <= g.Keys
  {
    forall v :: v in g ==> Degree(degrees, v) == Incoming(g, from)[v] + extra[v]
  }

  method CountImports(g: Graph, before: map<string, nat>, deps: seq<string>) returns (degrees: map<string, nat>)
    requires before.Keys <= g.Keys
    ensures before.Keys <= degrees.Keys <= g.Keys
    ensures forall v :: v in g ==> Degree(degrees, v) == Degree(before, v) + multiset(deps)[v]
  {
    degrees := before;
    var j := 0;
    while j < |deps|
      invariant 0 <= j <= |deps|
      invariant before.Keys <= degrees.Keys <= g.Keys
      invariant forall v :: v in g ==> Degree(degrees, v) == Degree(before, v) + multiset(deps[..j])[v]
    {
      var dep := deps[j];
      assert deps[..j + 1] == deps[..j] + [dep];
      if dep in g {
        degrees := degrees[dep := Degree(degrees, dep) + 1];
      }
      j := j + 1;
    }
    assert deps[..j] == deps;
  }

  /** How often each module of the graph is imported. */
  method InDegrees(g: Graph) returns (degrees: map<string, nat>)
    ensures degrees.Keys == g.Keys
    ensures Counted(g, degrees, g.Keys, multiset{})
  {
    degrees := map[];
    var remaining := g.Keys;
    ghost var done: set<string> := {};
    while remaining != {}
      invariant remaining + done == g.Keys && remaining !! done
      invariant done <= degrees.Keys <= g.Keys
      invariant Counted(g, degrees, done, multiset{})
    {
      var node :| node in remaining;
      if node !in degrees {
        degrees := degrees[node := 0];
      }
      degrees := CountImports(g, degrees, g[node]);
      IncomingSplit(g, done + {node}, node);
      assert done + {node} - {node} == done;
      done := done + {node};
      remaining := remaining - {node};
    }
    assert done == g.Keys;
  }

  /** Nothing occurs twice. */
  ghost predicate Once(s: seq<string>) {
    forall x :: multiset(s)[x] <= 1
  }

  lemma {:induction false} OnceIsDistinct(s: seq<string>)
    requires Once(s)
    ensures Distinct(s)
  {
    forall i, j | 0 <= i < j < |s| ensures s[i] != s[j] {
      assert s == s[..i] + [s[i]] + s[i + 1..j] + [s[j]] + s[j + 1..];
      assert multiset(s)[s[i]] >= 1 + multiset{s[j]}[s[i]];
    }
  }

  /** A set as a sorted sequence without repeats. */
  method SortedElements(s: set<string>) returns (r: seq<string>)
    ensures Once(r) && Elements(r) == s
    ensures SortedBy(r, Codes)
  {
    var all := [];
    var remaining := s;
    while remaining != {}
      invariant Once(all) && remaining !! Elements(all) && remaining + Elements(all) == s
    {
      var x :| x in remaining;
      assert x !in multiset(all);
      assert Elements(all + [x]) == Elements(all) + {x};
      all := all + [x];
      remaining := remaining - {x};
    }
    SortByKeeps(all, Codes);
    SortBySorts(all, Codes);
    r := SortStrings(all);
    SameElements(r, all);
  }

  lemma SameElements(a: seq<string>, b: seq<string>)
    requires multiset(a) == multiset(b)
    ensures Elements(a) == Elements(b)
  {
    assert forall x :: x in a <==> x in multiset(a);
    assert forall x :: x in b <==> x in multiset(b);
  }

  /** Kahn's invariant: degrees count the importers not yet taken, and the queue holds what has none left. */
  ghost predicate Sorting(g: Graph, sorted: seq<string>, queue: seq<string>, degrees: map<string, nat>) {
    && Once(sorted + queue)
    && Elements(sorted) <= g.Keys && Elements(queue) <= g.Keys
    && degrees.Keys == g.Keys
    && Counted(g, degrees, g.Keys - Elements(sorted), multiset{})
    && (forall v :: v in g ==> (degrees[v] == 0 <==> v in sorted || v in queue))
    && ImportersFirst(g, sorted)
  }

  /** Takes one importer's imports off the counts and reports what has no importer left. */
  method Release(g: Graph, before: map<string, nat>, deps: seq<string>)
    returns (degrees: map<string, nat>, ready: seq<string>)
    requires before.Keys == g.Keys
    requires forall v :: v in g ==> before[v] >= multiset(deps)[v]
    ensures degrees.Keys == g.Keys
    ensures forall v :: v in g ==> before[v] == degrees[v] + multiset(deps)[v]
    ensures Once(ready)
    ensures forall v :: v in ready <==> v in g && before[v] > 0 && degrees[v] == 0
  {
    degrees, ready := before, [];
    var j := 0;
    while j < |deps|
      invariant 0 <= j <= |deps|
      invariant degrees.Keys == g.Keys
      invariant forall v :: v in g ==> before[v] == degrees[v] + multiset(deps[..j])[v]
      invariant Once(ready)
      invariant forall v :: v in ready <==> v in g && before[v] > 0 && degrees[v] == 0
    {
      var dep := deps[j];
      assert deps[..j + 1] == deps[..j] + [dep];
      assert deps == deps[..j + 1] + deps[j + 1..];
      if dep in degrees {
        var left := if degrees[dep] > 0 then degrees[dep] - 1 else 0;
        assert dep !in multiset(ready);
        degrees := degrees[dep := left];
        if left == 0 {
          ready := ready + [dep];
        }
      }
      j := j + 1;
    }
    assert deps[..j] == deps;
  }

  /** The last of the taken modules that imports `v` is the `t`-th; none does if `t` is zero. */
  ghost predicate ReadyAt(g: Graph, taken: seq<string>, v: string, t: nat) {
    && t <= |taken|
    && (t > 0 ==> taken[t - 1] in g && v in g[taken[t - 1]])
    && forall k :: t <= k < |taken| && taken[k] in g ==> v !in g[taken[k]]
  }

  /** What was ready first comes first, and of modules ready at once the lesser name. */
  ghost predicate FirstReadyFirst(g: Graph, sorted: seq<string>) {
    forall i, j, s, t :: 0 <= i < j < |sorted| ==>
      ReadyAt(g, sorted, sorted[i], s) && ReadyAt(g, sorted, sorted[j], t) ==>
      s < t || (s == t && AtMost(Codes(sorted[i]), Codes(sorted[j])))
  }

  /** The modules taken and those queued, with the times at which they became ready. */
  ghost predicate Timed(g: Graph, taken: seq<string>, queue: seq<string>, times: seq<nat>) {
    var all := taken + queue;
    && |times| == |all|
    && (forall i :: 0 <= i < |all| ==> ReadyAt(g, taken, all[i], times[i]))
    && forall i, j :: 0 <= i < j < |all| ==> InTurn(all[i], times[i], all[j], times[j])
  }

  /** All of `more` became ready at time `t`. */
  function Times(times: seq<nat>, more: seq<string>, t: nat): seq<nat> {
    times + seq(|more|, _ => t)
  }

  ghost predicate InTurn(u: string, s: nat, v: string, t: nat) {
    s < t || (s == t && AtMost(Codes(u), Codes(v)))
  }

  lemma TimesAreUnique(g: Graph, taken: seq<string>, v: string, s: nat, t: nat)
    requires ReadyAt(g, taken, v, s) && ReadyAt(g, taken, v, t)
    ensures s == t
  {
  }

  lemma StartTiming(g: Graph, queue: seq<string>)
    requires SortedBy(queue, Codes)
    ensures Timed(g, [], queue, Times([], queue, 0))
  {
    hide Codes, AtMost;
    var times: seq<nat> := Times([], queue, 0);
    assert [] + queue == queue;
    forall i, j | 0 <= i < j < |queue| ensures InTurn(queue[i], times[i], queue[j], times[j]) {}
    hide InTurn, SortedBy;
  }

  lemma FinishTiming(g: Graph, sorted: seq<string>, times: seq<nat>)
    requires Timed(g, sorted, [], times)
    ensures FirstReadyFirst(g, sorted)
  {
    assert sorted + [] == sorted;
    hide Codes, AtMost;
    forall i, j, s, t |
      0 <= i < j < |sorted| && ReadyAt(g, sorted, sorted[i], s) && ReadyAt(g, sorted, sorted[j], t)
      ensures s < t || (s == t && AtMost(Codes(sorted[i]), Codes(sorted[j])))
    {
      TimesAreUnique(g, sorted, sorted[i], s, times[i]);
      TimesAreUnique(g, sorted, sorted[j], t, times[j]);
      assert InTurn(sorted[i], times[i], sorted[j], times[j]);
    }
  }

  /** Taking a module readies those behind it now, behind all that were queued. */
  lemma TakenInTurn(g: Graph, taken: seq<string>, queue: seq<string>, more: seq<string>, times: seq<nat>)
    requires queue != [] && queue[0] in g && Timed(g, taken, queue, times)
    requires forall v :: v in more ==> v in g[queue[0]]
    requires forall v :: v in taken + queue ==> v !in g[queue[0]]
    requires SortedBy(more, Codes)
    ensures Timed(g, taken + [queue[0]], queue[1..] + more, Times(times, more, |taken| + 1))
  {
    var node := queue[0];
    var all, later := taken + queue, Times(times, more, |taken| + 1);
    assert (taken + [node]) + (queue[1..] + more) == all + more by { assert [node] + queue[1..] == queue; }
    hide Codes, AtMost;
    forall i | 0 <= i < |all + more| ensures ReadyAt(g, taken + [node], (all + more)[i], later[i]) {
      if i < |all| {
        assert ReadyAt(g, taken, all[i], times[i]) && all[i] in all;
      } else {
        assert (all + more)[i] == more[i - |all|] && more[i - |all|] in more;
      }
    }
    forall i, j | 0 <= i < j < |all + more|
      ensures InTurn((all + more)[i], later[i], (all + more)[j], later[j])
    {
      if j < |all| {
        assert InTurn(all[i], times[i], all[j], times[j]);
      } else if i < |all| {
        assert ReadyAt(g, taken, all[i], times[i]);
      }
    }
  }

  method TopologicalSort(g: Graph) returns (sorted: seq<string>)
    ensures Once(sorted) && Elements(sorted) <= g.Keys && ImportersFirst(g, sorted)
    ensures FirstReadyFirst(g, sorted)
    ensures forall v :: v in g.Keys - Elements(sorted) ==> ImportedWithin(g, g.Keys - Elements(sorted), v)
    ensures g.Keys - Elements(sorted) == Leftover(g)
  {
    var degrees := InDegrees(g);
    var queue := SortedElements(set v | v in degrees && degrees[v] == 0);
    sorted := [];
    StartSorting(g, queue, degrees);
    StartTiming(g, queue);
    ghost var times: seq<nat> := Times([], queue, 0);
    hide *;
    while queue != []
      invariant Sorting(g, sorted, queue, degrees) && Timed(g, sorted, queue, times)
      decreases g.Keys - Elements(sorted)
    {
      var node := queue[0];
      ReleaseIsSafe(g, sorted, queue, degrees);
      var left, ready := Release(g, degrees, g[node]);
      var more := SortStrings(ready);
      Taken(g, sorted, queue, degrees, left, ready, times);
      times := Times(times, more, |sorted| + 1);
      FewerLeft(g, sorted, node);
      degrees := left;
      queue := queue[1..] + more;
      sorted := sorted + [node];
    }
    FinishSorting(g, sorted, degrees);
    FinishTiming(g, sorted, times);
    OnceIsDistinct(sorted);
    StuckIsLeftover(g, sorted);
  }

  lemma Taken(g: Graph, sorted: seq<string>, queue: seq<string>, before: map<string, nat>,
              after: map<string, nat>, ready: seq<string>, times: seq<nat>)
    requires Sorting(g, sorted, queue, before) && Timed(g, sorted, queue, times) && queue != [] && queue[0] in g
    requires after.Keys == g.Keys
    requires forall v :: v in g ==> before[v] == after[v] + multiset(g[queue[0]])[v]
    requires Once(ready) && forall v :: v in ready <==> v in g && before[v] > 0 && after[v] == 0
    ensures var more := SortStrings(ready);
            && Sorting(g, sorted + [queue[0]], queue[1..] + more, after)
            && Timed(g, sorted + [queue[0]], queue[1..] + more, Times(times, more, |sorted| + 1))
  {
    hide *;
    var more := SortStrings(ready);
    SortByKeeps(ready, Codes);
    SortBySorts(ready, Codes);
    SortStringsIsSortBy(ready);
    NewlyImported(g, sorted, queue, before, after, ready, more);
    TakenOne(g, sorted, queue, before, after, ready, more);
    TakenInTurn(g, sorted, queue, more, times);
  }

  /** What becomes ready is imported by the module taken; nothing that was ready before is. */
  lemma NewlyImported(g: Graph, sorted: seq<string>, queue: seq<string>, before: map<string, nat>,
                      after: map<string, nat>, ready: seq<string>, more: seq<string>)
    requires Sorting(g, sorted, queue, before) && queue != [] && queue[0] in g
    requires after.Keys == g.Keys
    requires forall v :: v in g ==> before[v] == after[v] + multiset(g[queue[0]])[v]
    requires multiset(more) == multiset(ready)
    requires forall v :: v in ready <==> v in g && before[v] > 0 && after[v] == 0
    ensures forall v :: v in more ==> v in g[queue[0]]
    ensures forall v :: v in sorted + queue ==> v !in g[queue[0]]
  {
    var deps := g[queue[0]];
    hide Counted, ImportersFirst, Once;
    forall v | v in more ensures v in deps {
      assert v in multiset(ready);
      assert multiset(deps)[v] > 0;
    }
    forall v | v in sorted + queue ensures v !in deps {
      assert v in Elements(sorted) || v in Elements(queue);
      assert before[v] == 0;
      assert v !in multiset(deps);
    }
  }

  lemma SortStringsIsSortBy(xs: seq<string>)
    ensures SortStrings(xs) == SortBy(xs, Codes)
  {
  }

  lemma FewerLeft(g: Graph, sorted: seq<string>, node: string)
    requires node in g && node !in sorted
    ensures g.Keys - Elements(sorted + [node]) < g.Keys - Elements(sorted)
  {
    assert Elements(sorted + [node]) == Elements(sorted) + {node};
    assert node in g.Keys - Elements(sorted);
  }

  lemma FinishSorting(g: Graph, sorted: seq<string>, degrees: map<string, nat>)
    requires Sorting(g, sorted, [], degrees)
    ensures Once(sorted) && Elements(sorted) <= g.Keys && ImportersFirst(g, sorted)
    ensures forall v :: v in g.Keys - Elements(sorted) ==> ImportedWithin(g, g.Keys - Elements(sorted), v)
  {
    var left := g.Keys - Elements(sorted);
    forall v | v in left ensures ImportedWithin(g, left, v) {
      assert degrees[v] != 0;
      IncomingHas(g, left, v);
    }
    assert sorted + [] == sorted;
  }

  lemma StartSorting(g: Graph, queue: seq<string>, degrees: map<string, nat>)
    requires degrees.Keys == g.Keys && Counted(g, degrees, g.Keys, multiset{})
    requires Once(queue) && Elements(queue) == set v | v in degrees && degrees[v] == 0
    ensures Sorting(g, [], queue, degrees)
  {
    assert [] + queue == queue;
    assert g.Keys - Elements([]) == g.Keys;
    assert forall v :: v in queue <==> v in Elements(queue);
  }

  lemma ReleaseIsSafe(g: Graph, sorted: seq<string>, queue: seq<string>, degrees: map<string, nat>)
    requires Sorting(g, sorted, queue, degrees) && queue != []
    ensures queue[0] in g && queue[0] !in sorted && degrees.Keys == g.Keys
    ensures forall v :: v in g ==> degrees[v] >= multiset(g[queue[0]])[v]
  {
    var node := queue[0];
    var from := g.Keys - Elements(sorted);
    assert node in Elements(queue);
    assert multiset(sorted + queue)[node] == multiset(sorted)[node] + multiset(queue)[node];
    assert node in multiset(queue);
    assert node in sorted <==> node in multiset(sorted);
    assert node in from;
    IncomingSplit(g, from, node);
    forall v | v in g ensures degrees[v] >= multiset(g[node])[v] {
      assert Degree(degrees, v) == Incoming(g, from)[v] + multiset{}[v];
      assert Incoming(g, from)[v] == multiset(g[node])[v] + Incoming(g, from - {node})[v];
    }
  }

  /** Taking a module whose importers have all been taken keeps Kahn's invariant. */
  lemma TakenOne(g: Graph, sorted: seq<string>, queue: seq<string>, before: map<string, nat>,
                 after: map<string, nat>, ready: seq<string>, more: seq<string>)
    requires Sorting(g, sorted, queue, before) && queue != [] && queue[0] in g
    requires after.Keys == g.Keys
    requires forall v :: v in g ==> before[v] == after[v] + multiset(g[queue[0]])[v]
    requires Once(ready) && multiset(more) == multiset(ready)
    requires forall v :: v in ready <==> v in g && before[v] > 0 && after[v] == 0
    ensures Sorting(g, sorted + [queue[0]], queue[1..] + more, after)
  {
    var node := queue[0];
    var sorted', queue' := sorted + [node], queue[1..] + more;
    ReleaseIsSafe(g, sorted, queue, before);
    SameElements(more, ready);
    MembersAfterTaking(sorted, queue, ready, more);
    CountsAfterTaking(g, sorted, queue, before, after);
    assert forall v :: v in more ==> v in before && before[v] > 0 by {
      assert forall v :: v in more <==> v in Elements(more);
      assert forall v :: v in ready <==> v in Elements(ready);
    }
    OnceAfterTaking(sorted, queue, more, before, g);
    ImportersAllTaken(g, sorted, node, g.Keys - Elements(sorted));
    hide Counted, ImportersFirst, Once;
    assert forall v :: v in queue' ==> v in g by {
      assert forall v :: v in queue ==> v in Elements(queue);
    }
    assert forall v :: v in sorted' ==> v in g by {
      assert forall v :: v in sorted ==> v in Elements(sorted);
    }
  }

  lemma CountsAfterTaking(g: Graph, sorted: seq<string>, queue: seq<string>, before: map<string, nat>,
                          after: map<string, nat>)
    requires Sorting(g, sorted, queue, before) && queue != [] && queue[0] in g && queue[0] !in sorted
    requires after.Keys == g.Keys
    requires forall v :: v in g ==> before[v] == after[v] + multiset(g[queue[0]])[v]
    ensures Counted(g, after, g.Keys - Elements(sorted + [queue[0]]), multiset{})
    ensures Incoming(g, g.Keys - Elements(sorted))[queue[0]] == 0
  {
    var node := queue[0];
    var from := g.Keys - Elements(sorted);
    assert Elements(sorted + [node]) == Elements(sorted) + {node};
    assert from - {node} == g.Keys - Elements(sorted + [node]);
    IncomingSplit(g, from, node);
    forall v | v in g ensures Degree(after, v) == Incoming(g, from - {node})[v] + multiset{}[v] {
      assert Degree(before, v) == Incoming(g, from)[v] + multiset{}[v];
    }
    assert Degree(before, node) == Incoming(g, from)[node] + multiset{}[node];
  }

  lemma MembersAfterTaking(sorted: seq<string>, queue: seq<string>, ready: seq<string>, more: seq<string>)
    requires queue != [] && Elements(more) == Elements(ready)
    ensures forall v :: (v in sorted + [queue[0]] || v in queue[1..] + more) <==>
                        (v in sorted || v in queue || v in ready)
    ensures forall v :: v in queue[1..] + more ==> v in queue || v in ready
  {
    assert queue == [queue[0]] + queue[1..];
    assert forall v :: v in more <==> v in Elements(more);
    assert forall v :: v in ready <==> v in Elements(ready);
  }

  lemma OnceAfterTaking(sorted: seq<string>, queue: seq<string>, more: seq<string>, before: map<string, nat>, g: Graph)
    requires queue != [] && Once(sorted + queue) && Once(more)
    requires forall v :: v in more ==> v in before && before[v] > 0
    requires forall v :: v in before ==> (before[v] == 0 <==> v in sorted || v in queue)
    ensures Once((sorted + [queue[0]]) + (queue[1..] + more))
  {
    assert (sorted + [queue[0]]) + (queue[1..] + more) == (sorted + ([queue[0]] + queue[1..])) + more;
    assert [queue[0]] + queue[1..] == queue;
    forall v ensures multiset(sorted + queue)[v] + multiset(more)[v] <= 1 {
      if v in more {
        assert v !in multiset(sorted) && v !in multiset(queue);
      }
    }
  }

  lemma ImportersAllTaken(g: Graph, sorted: seq<string>, node: string, from: set<string>)
    requires from == g.Keys - Elements(sorted) && node in from
    requires Incoming(g, from)[node] == 0
    requires ImportersFirst(g, sorted)
    ensures ImportersFirst(g, sorted + [node])
  {
    var order := sorted + [node];
    IncomingHas(g, from, node);
    forall i, u | 0 <= i < |order| && u in g && order[i] in g[u] ensures u in order[..i] {
      if i < |sorted| {
        assert order[..i] == sorted[..i];
      } else {
        assert order[..i] == sorted;
        assert u !in from;
      }
    }
  }

  // --- the cycle report -----------------------------------------------------

  function FirstStuck(deps: seq<string>, stuck: set<string>): (r: Option<string>)
    ensures r.Some? ==> r.value in deps && r.value in stuck
    ensures r.None? ==> forall d :: d in deps ==> d !in stuck
    ensures r.Some? ==>
      exists k :: 0 <= k < |deps| && deps[k] == r.value && forall j :: 0 <= j < k ==> deps[j] !in stuck
  {
    if deps == [] then None
    else if deps[0] in stuck then Some(deps[0])
    else FirstStuck(deps[1..], stuck)
  }

  /** The module reached from `start` by following the first unsorted import `n` times, if there is one. */
  ghost function Trail(g: Graph, stuck: set<string>, start: string, n: nat): (r: Option<string>)
    requires start in stuck && stuck <= g.Keys
    ensures r.Some? ==> r.value in stuck
  {
    if n == 0 then Some(start)
    else
      match Trail(g, stuck, start, n - 1)
      case None => None
      case Some(x) => FirstStuck(g[x], stuck)
  }

  /** The trail stops at a module none of whose imports is unsorted. */
  ghost predicate TrailEnds(g: Graph, stuck: set<string>, start: string)
    requires start in stuck && stuck <= g.Keys
  {
    exists n: nat :: Trail(g, stuck, start, n).None?
  }

  lemma {:induction false} TrailRepeats(g: Graph, stuck: set<string>, start: string, a: nat, b: nat, k: nat)
    requires start in stuck && stuck <= g.Keys
    requires Trail(g, stuck, start, a) == Trail(g, stuck, start, b)
    ensures Trail(g, stuck, start, a + k) == Trail(g, stuck, start, b + k)
  {
    if k > 0 {
      TrailRepeats(g, stuck, start, a, b, k - 1);
      assert a + k - 1 == a + (k - 1) && b + k - 1 == b + (k - 1);
    }
  }

  /** A trail that meets itself never ends. */
  lemma {:induction false} TrailOfCycle(g: Graph, stuck: set<string>, start: string, a: nat, b: nat, n: nat)
    requires start in stuck && stuck <= g.Keys && a < b
    requires forall k: nat :: k <= b ==> Trail(g, stuck, start, k).Some?
    requires Trail(g, stuck, start, a) == Trail(g, stuck, start, b)
    ensures Trail(g, stuck, start, n).Some?
  {
    if n > b {
      TrailRepeats(g, stuck, start, a, b, n - b);
      TrailOfCycle(g, stuck, start, a, b, a + (n - b));
    }
  }

  /** The trail as walked so far. */
  ghost predicate Traced(g: Graph, stuck: set<string>, start: string, visited: seq<string>)
    requires start in stuck && stuck <= g.Keys
  {
    forall i :: 0 <= i < |visited| ==> Trail(g, stuck, start, i) == Some(visited[i])
  }

  /** The path is the trail from its `n`-th module on. */
  ghost predicate OnTrail(g: Graph, stuck: set<string>, start: string, path: seq<string>, n: nat)
    requires start in stuck && stuck <= g.Keys
  {
    forall k: nat :: k < |path| ==> Trail(g, stuck, start, n + k) == Some(path[k])
  }

  function IndexOf(s: seq<string>, x: string): (i: nat)
    ensures i <= |s|
    ensures i < |s| ==> s[i] == x
    ensures i == |s| ==> x !in s
  {
    if s == [] || s[0] == x then 0 else 1 + IndexOf(s[1..], x)
  }

  lemma TracedIsWalk(g: Graph, stuck: set<string>, start: string, visited: seq<string>)
    requires start in stuck && stuck <= g.Keys
    requires Traced(g, stuck, start, visited) && visited != []
    ensures Walk(g, visited) && Elements(visited) <= stuck
  {
    forall i | 0 <= i < |visited| ensures visited[i] in stuck && (i > 0 ==> visited[i] in g[visited[i - 1]]) {
      assert Trail(g, stuck, start, i) == Some(visited[i]);
      if i > 0 {
        assert Trail(g, stuck, start, i - 1) == Some(visited[i - 1]);
      }
    }
    forall i | 0 <= i < |visited| - 1 ensures visited[i + 1] in g[visited[i]] {
      assert visited[i + 1] in g[visited[i + 1 - 1]];
    }
  }

  /** The trail has met itself at position `pos`: the part from there on is a cycle. */
  lemma CycleFound(g: Graph, stuck: set<string>, start: string, visited: seq<string>, pos: nat)
    requires start in stuck && stuck <= g.Keys
    requires Traced(g, stuck, start, visited) && Distinct(visited) && pos < |visited|
    requires Trail(g, stuck, start, |visited|) == Some(visited[pos])
    ensures
      var path := visited[pos..] + [visited[pos]];
      && ClosedWalk(g, path) && Distinct(path[..|path| - 1]) && Elements(path) <= stuck
      && OnTrail(g, stuck, start, path, pos)
    ensures !TrailEnds(g, stuck, start)
  {
    var full, path := visited + [visited[pos]], visited[pos..] + [visited[pos]];
    assert path == full[pos..] && path[..|path| - 1] == visited[pos..];
    TracedFurther(g, stuck, start, visited, visited[pos]);
    hide *;
    TrailGoesRound(g, stuck, start, full, pos);
    LoopOnTrail(g, stuck, start, full, pos);
    LoopIsDistinct(visited, pos);
  }

  lemma TracedFurther(g: Graph, stuck: set<string>, start: string, visited: seq<string>, next: string)
    requires start in stuck && stuck <= g.Keys
    requires Traced(g, stuck, start, visited) && Trail(g, stuck, start, |visited|) == Some(next)
    ensures Traced(g, stuck, start, visited + [next])
  {
    hide Trail;
    var full := visited + [next];
    forall i | 0 <= i < |full| ensures Trail(g, stuck, start, i) == Some(full[i]) {
      if i < |visited| {
        assert Trail(g, stuck, start, i) == Some(visited[i]);
      } else {
        assert i == |visited| && full[i] == next;
      }
    }
    hide Traced;
    TracedIs(g, stuck, start, full);
  }

  lemma TracedIs(g: Graph, stuck: set<string>, start: string, full: seq<string>)
    requires start in stuck && stuck <= g.Keys
    requires forall i :: 0 <= i < |full| ==> Trail(g, stuck, start, i) == Some(full[i])
    ensures Traced(g, stuck, start, full)
  {
    hide Trail;
  }

  lemma LoopOnTrail(g: Graph, stuck: set<string>, start: string, full: seq<string>, pos: nat)
    requires start in stuck && stuck <= g.Keys && pos < |full| - 1
    requires Traced(g, stuck, start, full) && full[pos] == full[|full| - 1]
    ensures ClosedWalk(g, full[pos..]) && Elements(full[pos..]) <= stuck && OnTrail(g, stuck, start, full[pos..], pos)
  {
    var path := full[pos..];
    TracedIsWalk(g, stuck, start, full);
    assert path == full[pos..|full|];
    WalkSlice(g, full, pos, |full|);
    hide Trail;
    forall k: nat | k < |path| ensures Trail(g, stuck, start, pos + k) == Some(path[k]) {
      assert path[k] == full[pos + k];
    }
  }

  lemma LoopIsDistinct(visited: seq<string>, pos: nat)
    requires Distinct(visited) && pos < |visited|
    ensures Distinct(visited[pos..])
  {
  }

  /** Having met itself the trail goes on for ever. */
  lemma TrailGoesRound(g: Graph, stuck: set<string>, start: string, full: seq<string>, pos: nat)
    requires start in stuck && stuck <= g.Keys && pos < |full| - 1
    requires Traced(g, stuck, start, full) && full[pos] == full[|full| - 1]
    ensures !TrailEnds(g, stuck, start)
  {
    forall n: nat ensures Trail(g, stuck, start, n).Some? {
      TrailOfCycle(g, stuck, start, pos, |full| - 1, n);
    }
    hide Trail;
  }

  lemma TraceBegins(g: Graph, stuck: set<string>, start: string)
    requires start in stuck && stuck <= g.Keys
    ensures Traced(g, stuck, start, [start])
  {
  }

  /** Follows first unsorted imports until the trail meets itself or ends. */
  method TraceCycle(g: Graph, stuck: set<string>, start: string) returns (path: seq<string>, ghost steps: nat)
    requires start in stuck && stuck <= g.Keys
    ensures steps <= |stuck| + 1
    ensures path == [] <==> TrailEnds(g, stuck, start)
    ensures path != [] ==> ClosedWalk(g, path) && Distinct(path[..|path| - 1]) && Elements(path) <= stuck
    ensures path != [] ==> exists n: nat :: OnTrail(g, stuck, start, path, n)
  {
    path := [];
    steps := 0;
    var stack, visited := [start], [];
    hide Trail, Traced, TrailEnds, OnTrail, ClosedWalk, Elements, FirstStuck;
    TraceBegins(g, stuck, start);
    while stack != []
      invariant |stack| == |visited| + 1 && stack[..|visited|] == visited
      invariant Traced(g, stuck, start, stack) && Distinct(visited) && |visited| <= |stuck|
      invariant steps == |visited| && path == []
      decreases |stuck| - |visited|
    {
      steps := steps + 1;
      var cur := stack[|stack| - 1];
      var pos := IndexOf(visited, cur);
      TraceSoFar(g, stuck, start, stack);
      assert visited == stack[..|stack| - 1];
      if pos < |visited| {
        path := visited[pos..] + [cur];
        CycleFound(g, stuck, start, visited, pos);
        break;
      }
      DistinctMore(visited, cur);
      visited := visited + [cur];
      assert visited == stack;
      VisitedFits(g, stuck, start, visited);
      var next := FirstStuck(g[cur], stuck);
      if next.None? {
        break;
      }
      stack := stack + [next.value];
    }
  }

  lemma DistinctMore(s: seq<string>, x: string)
    requires Distinct(s) && x !in s
    ensures Distinct(s + [x])
  {
  }

  lemma TraceSoFar(g: Graph, stuck: set<string>, start: string, stack: seq<string>)
    requires start in stuck && stuck <= g.Keys && stack != []
    requires Traced(g, stuck, start, stack)
    ensures
      var n := |stack| - 1;
      && Traced(g, stuck, start, stack[..n])
      && Trail(g, stuck, start, n) == Some(stack[n])
      && stack[n] in g
      && match FirstStuck(g[stack[n]], stuck)
         case None => TrailEnds(g, stuck, start)
         case Some(x) => Traced(g, stuck, start, stack + [x])
  {
    var n := |stack| - 1;
    assert Trail(g, stuck, start, n) == Some(stack[n]);
    assert Trail(g, stuck, start, n + 1) == FirstStuck(g[stack[n]], stuck);
  }

  lemma VisitedFits(g: Graph, stuck: set<string>, start: string, visited: seq<string>)
    requires start in stuck && stuck <= g.Keys
    requires Traced(g, stuck, start, visited) && Distinct(visited) && visited != []
    ensures |visited| <= |stuck| && visited[|visited| - 1] in g
  {
    TracedIsWalk(g, stuck, start, visited);
    DistinctSize(visited);
    SubsetSize(Elements(visited), stuck);
  }

  lemma TrailEndsAtOnce(g: Graph, stuck: set<string>, start: string)
    requires start in stuck && stuck <= g.Keys && g[start] == []
    ensures TrailEnds(g, stuck, start)
  {
    assert Trail(g, stuck, start, 0) == Some(start);
    assert Trail(g, stuck, start, 1) == None;
  }

  // --- discovery ------------------------------------------------------------

  datatype Discovered = Discovered(entry: string, graph: Graph, sorted: seq<string>)

  predicate Circular(e: Failure) {
    e.CircularPath? || e.CircularAmong?
  }

  ghost predicate Least(x: string, s: set<string>) {
    x in s && forall y :: y in s ==> AtMost(Codes(x), Codes(y))
  }

  /**
   * How a cyclic graph is reported: by the trail of first imports within what is left over, from the least module
   * of it. Where the trail closes, that loop is the path; where it ends, all that is left over is listed in order.
   */
  ghost predicate Reports(g: Graph, e: Failure, start: string) {
    && Least(start, Leftover(g))
    && match e
       case CircularPath(c) =>
         && !TrailEnds(g, Leftover(g), start)
         && ClosedWalk(g, c) && Distinct(c[..|c| - 1]) && Elements(c) <= Leftover(g)
         && exists n: nat :: OnTrail(g, Leftover(g), start, c, n)
       case CircularAmong(modules) =>
         && TrailEnds(g, Leftover(g), start)
         && Once(modules) && SortedBy(modules, Codes) && Elements(modules) == Leftover(g)
       case _ => false
  }

  /**
   * Discovery succeeds exactly when every reachable module loads and none imports itself; what it then returns is
   * the whole graph with every importer before its imports. Otherwise it names a module that does not load, or
   * reports the cycle.
   */
  method Discover(p: Project) returns (r: Result<Discovered, Failure>)
    ensures r.Ok? <==> p.AllLoad() && p.CycleFree()
    ensures r.Ok? ==>
      && r.value.entry == p.entry
      && Represents(r.value.graph, p)
      && Distinct(r.value.sorted)
      && Elements(r.value.sorted) == r.value.graph.Keys
      && ImportersFirst(r.value.graph, r.value.sorted)
      && FirstReadyFirst(r.value.graph, r.value.sorted)
    ensures r.Ok? ==> forall x, v :: p.Reachable(x) && p.Imports(x, v) ==> v in r.value.graph
    ensures r.Err? ==> (Circular(r.error) <==> p.AllLoad())
    ensures r.Err? && !Circular(r.error) ==> exists x :: p.Reachable(x) && !p.Loads(x) && Blames(r.error, x)
    ensures r.Err? && Circular(r.error) ==> exists g, start :: Represents(g, p) && Reports(g, r.error, start)
    ensures r.Err? && r.error.CircularPath? ==>
      var c := r.error.cycle;
      && p.Links(c) && |c| > 1 && c[0] == c[|c| - 1] && Distinct(c[..|c| - 1])
      && forall x :: x in c ==> p.Reachable(x)
  {
    var explored, culprit := Explore(p);
    if explored.Err? {
      return Err(explored.error);
    }
    var graph := explored.value;
    CyclesAgree(graph, p);
    hide *;
    var sorted := TopologicalSort(graph);
    OnceIsDistinct(sorted);
    AllSorted(sorted, graph);
    if |sorted| != |graph.Keys| {
      var failure := ReportCycle(p, graph, graph.Keys - Elements(sorted));
      return Err(failure);
    }
    OrderedIsAcyclic(graph, sorted);
    forall x, v | p.Reachable(x) && p.Imports(x, v) ensures v in graph { ReachableKept(graph, p, x, v); }
    return Ok(Discovered(p.entry, graph, sorted));
  }

  lemma AllSorted(sorted: seq<string>, g: Graph)
    requires Distinct(sorted) && Elements(sorted) <= g.Keys
    ensures |sorted| == |g.Keys| <==> Elements(sorted) == g.Keys
    ensures |sorted| != |g.Keys| ==> g.Keys - Elements(sorted) != {}
  {
    DistinctSize(sorted);
    SubsetSize(Elements(sorted), g.Keys);
    if Elements(sorted) != g.Keys {
      var x :| x in g.Keys && x !in Elements(sorted);
      assert x in g.Keys - Elements(sorted);
    }
  }

  /** The error for a graph some of whose modules could not be sorted. */
  method ReportCycle(p: Project, graph: Graph, stuck: set<string>) returns (failure: Failure)
    requires Represents(graph, p) && stuck == Leftover(graph) && stuck != {}
    requires forall v :: v in stuck ==> ImportedWithin(graph, stuck, v)
    ensures !Acyclic(graph) && Circular(failure)
    ensures exists start :: Reports(graph, failure, start)
    ensures failure.CircularPath? ==>
      var c := failure.cycle;
      && p.Links(c) && |c| > 1 && c[0] == c[|c| - 1] && Distinct(c[..|c| - 1])
      && forall x :: x in c ==> p.Reachable(x)
  {
    hide Reports, Leftover, Trail, TrailEnds, OnTrail, ClosedWalk, Represents, Elements, Once;
    hide SortedBy, Least, ImportedWithin;
    var modules := SortedElements(stuck);
    StuckHasCycle(graph, stuck);
    FirstIsLeast(modules, stuck);
    var start := modules[0];
    var path, steps := TraceCycle(graph, stuck, start);
    if path == [] {
      ReportsAmong(graph, modules, start);
      return CircularAmong(modules);
    }
    CycleIsReachable(graph, p, path, stuck);
    ReportsPath(graph, path, start);
    return CircularPath(path);
  }

  lemma ReachableKept(g: Graph, p: Project, x: string, v: string)
    requires Represents(g, p) && p.Reachable(x) && p.Imports(x, v)
    ensures v in g
  {
    ReachableStep(p, x, v);
  }

  lemma ReportsAmong(g: Graph, modules: seq<string>, start: string)
    requires Least(start, Leftover(g)) && TrailEnds(g, Leftover(g), start)
    requires Once(modules) && SortedBy(modules, Codes) && Elements(modules) == Leftover(g)
    ensures Reports(g, CircularAmong(modules), start)
  {
  }

  lemma ReportsPath(g: Graph, c: seq<string>, start: string)
    requires Least(start, Leftover(g)) && !TrailEnds(g, Leftover(g), start)
    requires ClosedWalk(g, c) && Distinct(c[..|c| - 1]) && Elements(c) <= Leftover(g)
    requires exists n: nat :: OnTrail(g, Leftover(g), start, c, n)
    ensures Reports(g, CircularPath(c), start)
  {
  }

  lemma FirstIsLeast(modules: seq<string>, stuck: set<string>)
    requires Elements(modules) == stuck && stuck != {} && SortedBy(modules, Codes)
    ensures modules != [] && modules[0] in stuck && Least(modules[0], stuck)
  {
    var x := First(modules, stuck);
    forall y | y in stuck ensures AtMost(Codes(x), Codes(y)) {
      assert y in Elements(modules);
      var k :| 0 <= k < |modules| && modules[k] == y;
      if k == 0 { BelowIsIrreflexive(Codes(x)); }
    }
  }

  function First(modules: seq<string>, stuck: set<string>): (x: string)
    requires Elements(modules) == stuck && stuck != {}
    ensures x in stuck && modules != [] && modules[0] == x
  {
    assert modules != [];
    assert modules[0] in Elements(modules);
    modules[0]
  }

  lemma CycleIsReachable(g: Graph, p: Project, path: seq<string>, stuck: set<string>)
    requires Represents(g, p) && ClosedWalk(g, path) && Elements(path) <= stuck <= g.Keys
    ensures p.Links(path) && |path| > 1 && path[0] == path[|path| - 1]
    ensures forall x :: x in path ==> p.Reachable(x)
  {
    assert forall x :: x in path ==> x in Elements(path);
  }

  // --- a cycle reported without a path ----------------------------------------

  /** The entry `b` imports `c`, which imports `b` and `a`. */
  const TANGLED := Project("b", [Module("c")], map["c" := Parsed([Module("b"), Module("a")]), "a" := Parsed([])])

  const ABC := {"a", "b", "c"}

  lemma TangledEdges()
    ensures TANGLED.Edges("a") == [] && TANGLED.Edges("b") == ["c"] && TANGLED.Edges("c") == ["b", "a"]
    ensures TANGLED.Loads("a") && TANGLED.Loads("b") && TANGLED.Loads("c")
  {
    assert [Module("c")][1..] == [];
    var two := [Module("b"), Module("a")];
    assert two[1..] == [Module("a")] && two[1..][1..] == [];
    assert DepsOf(two[1..]) == ["a"] + DepsOf(two[1..][1..]);
  }

  lemma TangledIsReached()
    ensures TANGLED.AllLoad() && forall x :: TANGLED.Reachable(x) <==> x in ABC
  {
    hide Project.Edges, Project.Loads, Project.Reachable;
    TangledEdges();
    EntryIsReachable(TANGLED);
    ReachableStep(TANGLED, "b", "c");
    ReachableStep(TANGLED, "c", "a");
    ClosureIsComplete(TANGLED, ABC);
  }

  lemma TangledLeftover(g: Graph)
    requires g == map["a" := [], "b" := ["c"], "c" := ["b", "a"]]
    ensures Leftover(g) == ABC
  {
    assert ClosedWalk(g, ["b", "c", "b"]) && Walk(g, ["b", "c", "a"]) && Walk(g, ["b", "c"]) && Walk(g, ["b"]);
    assert LeadsTo(g, ["b", "c", "b"], ["b"], "b");
    assert LeadsTo(g, ["b", "c", "b"], ["b", "c"], "c");
    assert LeadsTo(g, ["b", "c", "b"], ["b", "c", "a"], "a");
  }

  lemma TangledGraph(g: Graph)
    requires Represents(g, TANGLED)
    ensures Leftover(g) == ABC && TrailEnds(g, ABC, "a")
  {
    hide Project.Reachable, Project.Edges;
    TangledEdges();
    TangledIsReached();
    assert g.Keys == ABC;
    assert g == map["a" := [], "b" := ["c"], "c" := ["b", "a"]];
    hide Leftover, TrailEnds;
    TangledLeftover(g);
    TrailEndsAtOnce(g, ABC, "a");
  }

  lemma AIsBeforeTheRest()
    ensures Below(Codes("a"), Codes("b")) && Below(Codes("b"), Codes("c")) && Below(Codes("a"), Codes("c"))
  {
    assert Codes("a") == [97] && Codes("b") == [98] && Codes("c") == [99];
  }

  lemma AIsLeast(x: string)
    requires Least(x, ABC)
    ensures x == "a"
  {
    hide Below, Codes;
    AIsBeforeTheRest();
    assert "a" in ABC;
  }

  lemma InOrder(s: seq<string>)
    requires Once(s) && SortedBy(s, Codes) && Elements(s) == ABC
    ensures s == ["a", "b", "c"]
  {
    hide Below, Codes;
    AIsBeforeTheRest();
    OnceIsDistinct(s);
    DistinctSize(s);
    assert |ABC| == 3;
    forall i | 0 <= i < 3 ensures s[i] in ABC { assert s[i] in Elements(s); }
    assert AtMost(Codes(s[0]), Codes(s[1])) && AtMost(Codes(s[1]), Codes(s[2])) && AtMost(Codes(s[0]), Codes(s[2]));
  }

  /** The cycle of `b` and `c` is reported without a path: the trail starts at `a`, which imports nothing. */
  lemma TrailMayEnd(g: Graph, e: Failure, start: string)
    requires Represents(g, TANGLED) && Reports(g, e, start)
    ensures e == CircularAmong(["a", "b", "c"])
  {
    TangledGraph(g);
    hide Leftover, TrailEnds, Least, Represents;
    AIsLeast(start);
    if e.CircularAmong? { InOrder(e.modules); }
  }

  method DiscoverTangled() returns (r: Result<Discovered, Failure>)
    ensures r == Err(CircularAmong(["a", "b", "c"]))
  {
    hide Project.Reachable, Project.Edges, Project.Loads, Project.CycleFree, Represents, Reports;
    r := Discover(TANGLED);
    TangledIsReached();
    TangledHasCycle();
    ghost var g, start :| Represents(g, TANGLED) && Reports(g, r.error, start);
    TrailMayEnd(g, r.error, start);
  }

  lemma TangledHasCycle()
    ensures !TANGLED.CycleFree()
  {
    TangledEdges();
    TangledIsReached();
    assert TANGLED.Links(["b", "c", "b"]);
  }

  // --- the compile order ----------------------------------------------------

  /** The modules in the order in which they are compiled; the entry is compiled elsewhere, built-ins not at all. */
  method CompileOrder(p: Project, found: Discovered) returns (compiled: seq<string>)
    requires Represents(found.graph, p) && found.entry == p.entry && p.AllLoad() && p.CycleFree()
    requires Distinct(found.sorted) && Elements(found.sorted) == found.graph.Keys
    requires ImportersFirst(found.graph, found.sorted)
    ensures Distinct(compiled)
    ensures forall x :: x in compiled <==> p.Reachable(x) && x != p.entry && p.At(x).Parsed?
    ensures DepsFirst(p, compiled)
  {
    compiled := [];
    var i := |found.sorted|;
    while i > 0
      invariant 0 <= i <= |found.sorted|
      invariant Compiled(p, found, i, compiled)
    {
      i := i - 1;
      var path := found.sorted[i];
      CompiledOne(p, found, i, compiled);
      if path == found.entry || !p.At(path).Parsed? {
        continue;
      }
      compiled := compiled + [path];
    }
    assert forall x :: x in found.sorted <==> x in Elements(found.sorted);
  }

  ghost predicate Compiled(p: Project, found: Discovered, from: nat, compiled: seq<string>)
    requires from <= |found.sorted|
  {
    && Distinct(compiled)
    && (forall x :: x in compiled <==> x in found.sorted[from..] && x != p.entry && p.At(x).Parsed?)
    && DepsFirst(p, compiled)
  }

  /** Everything a module imports stands behind it in the topological order. */
  lemma ImportsStandBehind(p: Project, found: Discovered, i: nat, d: string)
    requires Represents(found.graph, p) && found.entry == p.entry
    requires Distinct(found.sorted) && Elements(found.sorted) == found.graph.Keys
    requires ImportersFirst(found.graph, found.sorted)
    requires i < |found.sorted| && p.Imports(found.sorted[i], d)
    ensures d in found.sorted[i + 1..]
  {
    var u := found.sorted[i];
    assert u in Elements(found.sorted);
    ReachableStep(p, u, d);
    assert d in Elements(found.sorted);
    var k :| 0 <= k < |found.sorted| && found.sorted[k] == d;
    assert u in found.sorted[..k];
    assert i < k;
    assert found.sorted[i + 1..][k - (i + 1)] == d;
  }

  lemma ImportingTheEntryIsACycle(p: Project, u: string)
    requires p.Reachable(u) && p.Imports(u, p.entry)
    ensures !p.CycleFree()
  {
    var w :| p.Chain(w, u);
    ChainExtend(p, w, u, p.entry);
    var z := w + [p.entry];
    EntryIsReachable(p);
    assert p.Links(z) && z[0] == z[|z| - 1];
  }

  lemma CompiledOne(p: Project, found: Discovered, i: nat, compiled: seq<string>)
    requires Represents(found.graph, p) && found.entry == p.entry && p.AllLoad() && p.CycleFree()
    requires Distinct(found.sorted) && Elements(found.sorted) == found.graph.Keys
    requires ImportersFirst(found.graph, found.sorted)
    requires i < |found.sorted| && Compiled(p, found, i + 1, compiled)
    ensures
      var path := found.sorted[i];
      var skip := path == p.entry || !p.At(path).Parsed?;
      Compiled(p, found, i, if skip then compiled else compiled + [path])
  {
    var path := found.sorted[i];
    NotYetCompiled(p, found, i, compiled);
    if path != p.entry && p.At(path).Parsed? {
      forall d | p.Imports(path, d) ensures p.At(d).Provided? || d in compiled {
        ImportIsCompiled(p, found, i, compiled, d);
      }
      hide ImportersFirst, Represents, Elements, Project.Imports, Project.At, Project.CycleFree, Project.AllLoad;
      CompiledMore(p, compiled, path);
      assert forall x :: x in compiled + [path] <==> x in compiled || x == path;
    }
    hide ImportersFirst, Represents, Elements, Project.Imports, Project.At, Project.CycleFree, Project.AllLoad;
  }

  lemma NotYetCompiled(p: Project, found: Discovered, i: nat, compiled: seq<string>)
    requires i < |found.sorted| && Distinct(found.sorted) && Compiled(p, found, i + 1, compiled)
    ensures found.sorted[i] !in compiled
    ensures forall x :: x in found.sorted[i..] <==> x == found.sorted[i] || x in found.sorted[i + 1..]
  {
    var path, tail := found.sorted[i], found.sorted[i + 1..];
    assert found.sorted[i..] == [path] + tail;
    assert path !in tail;
    hide DepsFirst, Project.At;
  }

  ghost predicate DepsFirst(p: Project, compiled: seq<string>) {
    forall i, d :: 0 <= i < |compiled| && p.Imports(compiled[i], d) ==> p.At(d).Provided? || d in compiled[..i]
  }

  lemma CompiledMore(p: Project, compiled: seq<string>, path: string)
    requires DepsFirst(p, compiled) && Distinct(compiled) && path !in compiled
    requires forall d :: p.Imports(path, d) ==> p.At(d).Provided? || d in compiled
    ensures DepsFirst(p, compiled + [path]) && Distinct(compiled + [path])
  {
    var next := compiled + [path];
    forall k, d | 0 <= k < |next| && p.Imports(next[k], d) ensures p.At(d).Provided? || d in next[..k] {
      assert next[..k] == compiled[..k];
    }
    assert next[..|compiled|] == compiled;
  }

  lemma ImportIsCompiled(p: Project, found: Discovered, i: nat, compiled: seq<string>, d: string)
    requires Represents(found.graph, p) && found.entry == p.entry && p.AllLoad() && p.CycleFree()
    requires Distinct(found.sorted) && Elements(found.sorted) == found.graph.Keys
    requires ImportersFirst(found.graph, found.sorted)
    requires i < |found.sorted| && Compiled(p, found, i + 1, compiled)
    requires p.Imports(found.sorted[i], d)
    ensures p.At(d).Provided? || d in compiled
  {
    var path := found.sorted[i];
    assert path in Elements(found.sorted);
    ImportsStandBehind(p, found, i, d);
    ReachableStep(p, path, d);
    assert p.Loads(d);
    if d == p.entry {
      ImportingTheEntryIsACycle(p, path);
    }
  }
}
