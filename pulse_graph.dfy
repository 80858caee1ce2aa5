/** The dependency graph of scripts/pulse.js: the Nx project graph, joined
    with each project's package.json, drawn as a Mermaid flowchart of the
    dependencies between `@diplodoc/` packages. */
module PulseGraph {
  import opened Wrappers
  import opened Strings
  import opened Grouping
  import opened Manifests
  import PulseTables

  /** The package scope the graph is about. */
  const Scope := "@diplodoc/"

  /** Short ids the graph leaves out: every package depends on them. */
  const Hidden: set<string> := {"lint", "tsconfig"}

  /** Packages whose short id ends so are examples, also left out. */
  const ExampleSuffix := "-example"

  // The project graph

  /** A node of the Nx graph: its `data.root`, `None` when it has none. */
  datatype Node = Node(root: Option<string>)

  /** A dependency between two nodes, by node id. */
  datatype Dep = Dep(source: string, target: string)

  /** `dependencies`: either an array of edges or edge lists by node id. */
  datatype Dependencies = DepArray(deps: seq<Dep>) | DepsByNode(lists: seq<(string, seq<Dep>)>)

  /** The graph object; `nodes` in the order of `Object.entries`. */
  datatype Graph = Graph(nodes: seq<(string, Node)>, dependencies: Dependencies)

  /** The node ids of a JavaScript object are distinct. */
  predicate UniqueIds(nodes: seq<(string, Node)>) {
    forall i, j :: 0 <= i < j < |nodes| ==> nodes[i].0 != nodes[j].0
  }

  /** `Array.isArray(dependencies) ? dependencies : Object.values(dependencies).flat()` */
  function DepList(deps: Dependencies): seq<Dep> {
    match deps
    case DepArray(xs) => xs
    case DepsByNode(lists) => Flatten(lists)
  }

  /** `shortId(name)` */
  function ShortId(name: string): string {
    if StartsWith(name, Scope) then name[|Scope|..] else name
  }

  /** `shortId` removes exactly one leading scope and leaves other names alone. */
  lemma ShortIdScope(name: string)
    ensures ShortId(Scope + name) == name
    ensures !StartsWith(name, Scope) ==> ShortId(name) == name
    ensures StartsWith(name, Scope) ==> Scope + ShortId(name) == name && |ShortId(name)| == |name| - |Scope|
  {
    assert (Scope + name)[..|Scope|] == Scope;
    assert (Scope + name)[|Scope|..] == name;
    if StartsWith(name, Scope) {
      assert name == name[..|Scope|] + name[|Scope|..];
    }
  }

  // Nodes to packages

  /** `node?.data?.root` when it is truthy. */
  function RootOf(node: Node): Option<string> {
    if node.root.Some? && node.root.value != "" then node.root else None
  }

  /** The package name the loop records for a node with root `root`: the
      manifest's truthy `name`; with no readable manifest, the node id
      itself when it is in the scope. `manifests` holds the package.json
      files that can be read and parsed, by root. */
  function NodePkg(id: string, root: string, manifests: map<string, Manifest>): Option<string> {
    if root in manifests then
      var name := manifests[root].name;
      if name.Some? && name.value != "" then name else None
    else if StartsWith(id, Scope) then Some(id)
    else None
  }

  /** `nodeIdToPkg` after the loop over `nodes`. */
  function PkgIndex(nodes: seq<(string, Node)>, manifests: map<string, Manifest>): map<string, string>
    decreases |nodes|
  {
    if nodes == [] then map[]
    else
      var m := PkgIndex(nodes[..|nodes| - 1], manifests);
      var (id, node) := nodes[|nodes| - 1];
      match RootOf(node)
      case None => m
      case Some(root) =>
        match NodePkg(id, root, manifests)
        case Some(p) => m[id := p]
        case None => m
  }

  /** `nodeIdToRoot` after the loop over `nodes`. */
  function RootIndex(nodes: seq<(string, Node)>): map<string, string>
    decreases |nodes|
  {
    if nodes == [] then map[]
    else
      var m := RootIndex(nodes[..|nodes| - 1]);
      var (id, node) := nodes[|nodes| - 1];
      match RootOf(node)
      case None => m
      case Some(root) => m[id := root]
  }

  /** The first loop of `renderDepsGraph`. */
  method IndexNodes(nodes: seq<(string, Node)>, manifests: map<string, Manifest>)
    returns (pkgs: map<string, string>, roots: map<string, string>)
    ensures pkgs == PkgIndex(nodes, manifests)
    ensures roots == RootIndex(nodes)
  {
    pkgs, roots := map[], map[];
    for i := 0 to |nodes|
      invariant pkgs == PkgIndex(nodes[..i], manifests)
      invariant roots == RootIndex(nodes[..i])
    {
      assert nodes[..i + 1][..i] == nodes[..i];
      var (id, node) := nodes[i];
      var root := node.root;
      if root.None? || root.value == "" {
        continue;
      }
      roots := roots[id := root.value];
      if root.value in manifests {
        var name := manifests[root.value].name;
        if name.Some? && name.value != "" {
          pkgs := pkgs[id := name.value];
        }
      } else if StartsWith(id, Scope) {
        pkgs := pkgs[id := id];
      }
    }
    assert nodes[..|nodes|] == nodes;
  }

  /** With distinct node ids, each node's entries in the two indexes are
      what that node alone records: its truthy root, and the package name
      of its manifest or, when the manifest cannot be read, its own id
      inside the scope. */
  lemma {:induction false} IndexOf(nodes: seq<(string, Node)>, manifests: map<string, Manifest>, i: nat)
    requires UniqueIds(nodes) && i < |nodes|
    ensures nodes[i].0 in RootIndex(nodes) <==> RootOf(nodes[i].1).Some?
    ensures nodes[i].0 in RootIndex(nodes) ==> RootIndex(nodes)[nodes[i].0] == RootOf(nodes[i].1).value
    ensures nodes[i].0 in PkgIndex(nodes, manifests) <==>
      RootOf(nodes[i].1).Some? && NodePkg(nodes[i].0, RootOf(nodes[i].1).value, manifests).Some?
    ensures nodes[i].0 in PkgIndex(nodes, manifests) ==>
      PkgIndex(nodes, manifests)[nodes[i].0] == NodePkg(nodes[i].0, RootOf(nodes[i].1).value, manifests).value
    decreases |nodes|
  {
    var init := nodes[..|nodes| - 1];
    if i < |init| {
      assert init[i] == nodes[i];
      assert nodes[|nodes| - 1].0 != nodes[i].0;
      IndexOf(init, manifests, i);
    } else {
      IndexAbsent(init, manifests, nodes[i].0);
    }
  }

  /** An id no node has is in neither index. */
  lemma {:induction false} IndexAbsent(nodes: seq<(string, Node)>, manifests: map<string, Manifest>, id: string)
    requires forall j :: 0 <= j < |nodes| ==> nodes[j].0 != id
    ensures id !in RootIndex(nodes) && id !in PkgIndex(nodes, manifests)
    decreases |nodes|
  {
    if nodes != [] {
      var init := nodes[..|nodes| - 1];
      assert forall j :: 0 <= j < |init| ==> init[j] == nodes[j];
      IndexAbsent(init, manifests, id);
    }
  }

  /** Every recorded package name is non-empty, and every recorded root. */
  lemma {:induction false} IndexNonEmpty(nodes: seq<(string, Node)>, manifests: map<string, Manifest>)
    ensures forall id :: id in PkgIndex(nodes, manifests) ==> PkgIndex(nodes, manifests)[id] != ""
    ensures forall id :: id in RootIndex(nodes) ==> RootIndex(nodes)[id] != ""
    decreases |nodes|
  {
    if nodes != [] {
      IndexNonEmpty(nodes[..|nodes| - 1], manifests);
      var (id, node) := nodes[|nodes| - 1];
      if StartsWith(id, Scope) {
        assert id[0] == '@';
      }
    }
  }

  // Edges

  /** `getDepsByType(id).devDeps`: the names in `devDependencies` of the
      node's manifest; none when the node has no root or its manifest
      cannot be read. */
  function DevDeps(roots: map<string, string>, manifests: map<string, Manifest>, id: string): set<string> {
    if id in roots && roots[id] in manifests then DependencyMap(manifests[roots[id]], Development).Keys else {}
  }

  /** `diplodoc`: the recorded package names inside the scope. */
  function Diplodoc(pkgs: map<string, string>): set<string> {
    set id | id in pkgs && StartsWith(pkgs[id], Scope) :: pkgs[id]
  }

  /** A drawn edge, between short ids. */
  datatype Edge = Edge(from: string, to: string, isDev: bool)

  /** The edge the loop draws for `dep`, if any. */
  function EdgeOf(dep: Dep, pkgs: map<string, string>, roots: map<string, string>, manifests: map<string, Manifest>): Option<Edge> {
    if dep.source !in pkgs || dep.target !in pkgs then None
    else
      var source, target := pkgs[dep.source], pkgs[dep.target];
      var diplodoc := Diplodoc(pkgs);
      if source !in diplodoc || target !in diplodoc then None
      else
        var from, to := ShortId(source), ShortId(target);
        if from in Hidden || to in Hidden then None
        else if EndsWith(from, ExampleSuffix) || EndsWith(to, ExampleSuffix) then None
        else Some(Edge(from, to, target in DevDeps(roots, manifests, dep.source)))
  }

  /** The edges drawn for `deps`, in order. */
  function KeptEdges(deps: seq<Dep>, pkgs: map<string, string>, roots: map<string, string>, manifests: map<string, Manifest>): seq<Edge>
    decreases |deps|
  {
    if deps == [] then []
    else
      KeptEdges(deps[..|deps| - 1], pkgs, roots, manifests)
      + match EdgeOf(deps[|deps| - 1], pkgs, roots, manifests) case Some(e) => [e] case None => []
  }

  /** An edge is drawn exactly when both ends are recorded packages inside
      the scope, neither short id is hidden and neither ends in `-example`;
      it is a dev edge exactly when the target's name is among the source
      manifest's `devDependencies`. */
  lemma EdgeKept(dep: Dep, pkgs: map<string, string>, roots: map<string, string>, manifests: map<string, Manifest>)
    ensures EdgeOf(dep, pkgs, roots, manifests).Some? <==>
      && dep.source in pkgs && dep.target in pkgs
      && StartsWith(pkgs[dep.source], Scope) && StartsWith(pkgs[dep.target], Scope)
      && ShortId(pkgs[dep.source]) != "lint" && ShortId(pkgs[dep.source]) != "tsconfig"
      && ShortId(pkgs[dep.target]) != "lint" && ShortId(pkgs[dep.target]) != "tsconfig"
      && !EndsWith(ShortId(pkgs[dep.source]), "-example") && !EndsWith(ShortId(pkgs[dep.target]), "-example")
    ensures EdgeOf(dep, pkgs, roots, manifests).Some? ==>
      && EdgeOf(dep, pkgs, roots, manifests).value.from == ShortId(pkgs[dep.source])
      && EdgeOf(dep, pkgs, roots, manifests).value.to == ShortId(pkgs[dep.target])
      && (EdgeOf(dep, pkgs, roots, manifests).value.isDev <==>
          dep.source in roots && roots[dep.source] in manifests
          && pkgs[dep.target] in DependencyMap(manifests[roots[dep.source]], Development))
  {
    if dep.source in pkgs && dep.target in pkgs {
      DiplodocMembers(pkgs, dep.source);
      DiplodocMembers(pkgs, dep.target);
    }
  }

  /** A recorded name is in `diplodoc` exactly when it is inside the scope. */
  lemma DiplodocMembers(pkgs: map<string, string>, id: string)
    requires id in pkgs
    ensures pkgs[id] in Diplodoc(pkgs) <==> StartsWith(pkgs[id], Scope)
  {
    if pkgs[id] in Diplodoc(pkgs) {
      var other :| other in pkgs && StartsWith(pkgs[other], Scope) && pkgs[other] == pkgs[id];
    }
  }

  /** Every drawn edge comes from some dependency that `EdgeOf` keeps. */
  lemma {:induction false} KeptEdgesFrom(deps: seq<Dep>, pkgs: map<string, string>, roots: map<string, string>, manifests: map<string, Manifest>, e: Edge)
    requires e in KeptEdges(deps, pkgs, roots, manifests)
    ensures exists i :: 0 <= i < |deps| && EdgeOf(deps[i], pkgs, roots, manifests) == Some(e)
    decreases |deps|
  {
    var init := deps[..|deps| - 1];
    if e in KeptEdges(init, pkgs, roots, manifests) {
      KeptEdgesFrom(init, pkgs, roots, manifests, e);
      var i :| 0 <= i < |init| && EdgeOf(init[i], pkgs, roots, manifests) == Some(e);
      assert init[i] == deps[i];
    } else {
      assert EdgeOf(deps[|deps| - 1], pkgs, roots, manifests) == Some(e);
    }
  }

  // Degrees

  /** The number of times `x` occurs in `xs`. */
  function Count(xs: seq<string>, x: string): nat
    decreases |xs|
  {
    if xs == [] then 0 else Count(xs[..|xs| - 1], x) + (if xs[|xs| - 1] == x then 1 else 0)
  }

  /** `counts[x] = (counts[x] || 0) + 1` */
  function Bump(counts: map<string, nat>, x: string): map<string, nat> {
    counts[x := (if x in counts then counts[x] else 0) + 1]
  }

  /** The counts after bumping each `x` of `xs` in turn. */
  function Tally(xs: seq<string>): map<string, nat>
    decreases |xs|
  {
    if xs == [] then map[] else Bump(Tally(xs[..|xs| - 1]), xs[|xs| - 1])
  }

  /** A tally counts the occurrences of exactly the values listed. */
  lemma {:induction false} TallyCounts(xs: seq<string>)
    ensures forall x :: x in Tally(xs) <==> x in xs
    ensures forall x :: x in Tally(xs) ==> Tally(xs)[x] == Count(xs, x)
    decreases |xs|
  {
    if xs != [] {
      var init := xs[..|xs| - 1];
      TallyCounts(init);
      assert xs == init + [xs[|xs| - 1]];
      forall x | x !in init
        ensures Count(init, x) == 0
      {
        CountAbsent(init, x);
      }
    }
  }

  lemma {:induction false} CountAbsent(xs: seq<string>, x: string)
    requires x !in xs
    ensures Count(xs, x) == 0
    decreases |xs|
  {
    if xs != [] {
      assert forall y :: y in xs[..|xs| - 1] ==> y in xs;
      CountAbsent(xs[..|xs| - 1], x);
    }
  }

  /** The distinct values of `xs` in order of first occurrence, the order in
      which a JavaScript `Set` lists what was added to it. */
  function Uniq(xs: seq<string>): seq<string>
    decreases |xs|
  {
    if xs == [] then []
    else
      var u := Uniq(xs[..|xs| - 1]);
      if xs[|xs| - 1] in u then u else u + [xs[|xs| - 1]]
  }

  /** `Uniq` keeps every value once. */
  lemma {:induction false} UniqMembers(xs: seq<string>)
    ensures forall x :: x in Uniq(xs) <==> x in xs
    ensures Distinct(Uniq(xs))
    decreases |xs|
  {
    if xs != [] {
      var init := xs[..|xs| - 1];
      UniqMembers(init);
      assert xs == init + [xs[|xs| - 1]];
    }
  }

  /** The sum of the counts of the values `ks` in `xs`. */
  function SumCounts(ks: seq<string>, xs: seq<string>): nat
    decreases |ks|
  {
    if ks == [] then 0 else SumCounts(ks[..|ks| - 1], xs) + Count(xs, ks[|ks| - 1])
  }

  lemma {:induction false} SumCountsSnoc(ks: seq<string>, xs: seq<string>, x: string)
    requires Distinct(ks)
    ensures SumCounts(ks, xs + [x]) == SumCounts(ks, xs) + (if x in ks then 1 else 0)
    decreases |ks|
  {
    if ks != [] {
      var init := ks[..|ks| - 1];
      assert (xs + [x])[..|xs|] == xs;
      assert Distinct(init);
      SumCountsSnoc(init, xs, x);
      assert ks == init + [ks[|ks| - 1]];
      if x == ks[|ks| - 1] {
        assert x !in init;
      }
    }
  }

  /** The counts of the distinct values of `xs` add up to `|xs|`. */
  lemma {:induction false} CountsSum(xs: seq<string>)
    ensures SumCounts(Uniq(xs), xs) == |xs|
    decreases |xs|
  {
    if xs != [] {
      var init, x := xs[..|xs| - 1], xs[|xs| - 1];
      assert xs == init + [x];
      CountsSum(init);
      UniqMembers(init);
      SumCountsSnoc(Uniq(init), init, x);
      if x !in Uniq(init) {
        CountAbsent(init, x);
        assert (Uniq(init) + [x])[..|Uniq(init)|] == Uniq(init);
      }
    }
  }

  /** The sum of `m`'s values over the keys `ks`. */
  function SumOver(m: map<string, nat>, ks: seq<string>): nat
    decreases |ks|
  {
    if ks == [] then 0 else SumOver(m, ks[..|ks| - 1]) + (if ks[|ks| - 1] in m then m[ks[|ks| - 1]] else 0)
  }

  lemma {:induction false} SumOverTally(xs: seq<string>, ks: seq<string>)
    requires forall k :: k in ks ==> k in xs
    requires forall k :: k in Tally(xs) <==> k in xs
    requires forall k :: k in Tally(xs) ==> Tally(xs)[k] == Count(xs, k)
    ensures forall k :: k in ks ==> k in Tally(xs)
    ensures SumOver(Tally(xs), ks) == SumCounts(ks, xs)
    decreases |ks|
  {
    if ks != [] {
      assert forall k :: k in ks[..|ks| - 1] ==> k in ks;
      SumOverTally(xs, ks[..|ks| - 1]);
    }
  }

  /** A tally's keys are the distinct values, and its counts add up to the
      number of values: the out-degrees, and the in-degrees, sum to the
      number of edges. */
  lemma TallySum(xs: seq<string>)
    ensures forall k :: k in Tally(xs) <==> k in Uniq(xs)
    ensures SumOver(Tally(xs), Uniq(xs)) == |xs|
  {
    TallyCounts(xs);
    UniqMembers(xs);
    SumOverTally(xs, Uniq(xs));
    CountsSum(xs);
  }

  function Froms(edges: seq<Edge>): (r: seq<string>)
    ensures |r| == |edges| && forall i :: 0 <= i < |edges| ==> r[i] == edges[i].from
  {
    seq(|edges|, i requires 0 <= i < |edges| => edges[i].from)
  }

  function Tos(edges: seq<Edge>): (r: seq<string>)
    ensures |r| == |edges| && forall i :: 0 <= i < |edges| ==> r[i] == edges[i].to
  {
    seq(|edges|, i requires 0 <= i < |edges| => edges[i].to)
  }

  /** The body of the edge loop for one dependency: the edge it draws, if
      any, and the cache of dev dependencies by source node, filled on a
      source's first drawn edge. */
  method EdgeFor(dep: Dep, pkgs: map<string, string>, diplodoc: set<string>, roots: map<string, string>,
                 manifests: map<string, Manifest>, cache: map<string, set<string>>)
    returns (edge: Option<Edge>, cache': map<string, set<string>>)
    requires diplodoc == Diplodoc(pkgs)
    requires forall id :: id in cache ==> cache[id] == DevDeps(roots, manifests, id)
    ensures edge == EdgeOf(dep, pkgs, roots, manifests)
    ensures forall id :: id in cache' ==> cache'[id] == DevDeps(roots, manifests, id)
  {
    cache' := cache;
    if dep.source !in pkgs || dep.target !in pkgs {
      return None, cache';
    }
    var source, target := pkgs[dep.source], pkgs[dep.target];
    if source !in diplodoc || target !in diplodoc {
      return None, cache';
    }
    var from, to := ShortId(source), ShortId(target);
    if from in Hidden || to in Hidden {
      return None, cache';
    }
    if EndsWith(from, ExampleSuffix) || EndsWith(to, ExampleSuffix) {
      return None, cache';
    }
    if dep.source !in cache' {
      cache' := cache'[dep.source := DevDeps(roots, manifests, dep.source)];
    }
    var isDev := target in cache'[dep.source];
    edge := Some(Edge(from, to, isDev));
  }

  /** The edge loop of `renderDepsGraph`, with its degree counters. */
  method CollectEdges(deps: seq<Dep>, pkgs: map<string, string>, roots: map<string, string>, manifests: map<string, Manifest>)
    returns (edges: seq<Edge>, outDegree: map<string, nat>, inDegree: map<string, nat>)
    ensures edges == KeptEdges(deps, pkgs, roots, manifests)
    ensures outDegree == Tally(Froms(edges)) && inDegree == Tally(Tos(edges))
  {
    var diplodoc := Diplodoc(pkgs);
    edges, outDegree, inDegree := [], map[], map[];
    var cache: map<string, set<string>> := map[];
    for i := 0 to |deps|
      invariant edges == KeptEdges(deps[..i], pkgs, roots, manifests)
      invariant outDegree == Tally(Froms(edges)) && inDegree == Tally(Tos(edges))
      invariant forall id :: id in cache ==> cache[id] == DevDeps(roots, manifests, id)
    {
      KeptStep(deps, i, pkgs, roots, manifests);
      var edge;
      edge, cache := EdgeFor(deps[i], pkgs, diplodoc, roots, manifests, cache);
      if edge.Some? {
        var e := edge.value;
        TallyStep(edges, e);
        edges := edges + [e];
        outDegree := Bump(outDegree, e.from);
        inDegree := Bump(inDegree, e.to);
      }
    }
    assert deps[..|deps|] == deps;
  }

  lemma TallyStep(edges: seq<Edge>, e: Edge)
    ensures Tally(Froms(edges + [e])) == Bump(Tally(Froms(edges)), e.from)
    ensures Tally(Tos(edges + [e])) == Bump(Tally(Tos(edges)), e.to)
  {
    assert Froms(edges + [e]) == Froms(edges) + [e.from];
    assert Tos(edges + [e]) == Tos(edges) + [e.to];
    assert (Froms(edges) + [e.from])[..|edges|] == Froms(edges);
    assert (Tos(edges) + [e.to])[..|edges|] == Tos(edges);
  }

  lemma KeptStep(deps: seq<Dep>, i: nat, pkgs: map<string, string>, roots: map<string, string>, manifests: map<string, Manifest>)
    requires i < |deps|
    ensures KeptEdges(deps[..i + 1], pkgs, roots, manifests) ==
      KeptEdges(deps[..i], pkgs, roots, manifests)
      + match EdgeOf(deps[i], pkgs, roots, manifests) case Some(e) => [e] case None => []
  {
    assert deps[..i + 1][..i] == deps[..i];
  }

  lemma FromsTosMembers(edges: seq<Edge>)
    ensures forall k :: k in Froms(edges) <==> exists e :: e in edges && e.from == k
    ensures forall k :: k in Tos(edges) <==> exists e :: e in edges && e.to == k
  {
    forall k | k in Froms(edges)
      ensures exists e :: e in edges && e.from == k
    {
      var i :| 0 <= i < |edges| && Froms(edges)[i] == k;
      assert edges[i] in edges;
    }
    forall k | k in Tos(edges)
      ensures exists e :: e in edges && e.to == k
    {
      var i :| 0 <= i < |edges| && Tos(edges)[i] == k;
      assert edges[i] in edges;
    }
    forall e | e in edges
      ensures e.from in Froms(edges) && e.to in Tos(edges)
    {
      var i :| 0 <= i < |edges| && edges[i] == e;
      assert Froms(edges)[i] == e.from && Tos(edges)[i] == e.to;
    }
  }

  /** The out-degrees and the in-degrees each sum to the number of edges,
      over the sources and the targets that occur; a node has an
      out-degree exactly when it is some edge's source, and an in-degree
      exactly when it is some edge's target. */
  lemma DegreeSums(edges: seq<Edge>)
    ensures SumOver(Tally(Froms(edges)), Uniq(Froms(edges))) == |edges|
    ensures SumOver(Tally(Tos(edges)), Uniq(Tos(edges))) == |edges|
    ensures forall k :: k in Tally(Froms(edges)) <==> exists e :: e in edges && e.from == k
    ensures forall k :: k in Tally(Tos(edges)) <==> exists e :: e in edges && e.to == k
  {
    TallySum(Froms(edges));
    TallySum(Tos(edges));
    TallyCounts(Froms(edges));
    TallyCounts(Tos(edges));
    FromsTosMembers(edges);
  }

  // Visible nodes

  /** The ends of the edges, each edge's source before its target. */
  function Ends(edges: seq<Edge>): seq<string>
    decreases |edges|
  {
    if edges == [] then [] else Ends(edges[..|edges| - 1]) + [edges[|edges| - 1].from, edges[|edges| - 1].to]
  }

  /** The `visible` loop: a set that lists its members in the order they
      were added. */
  method VisibleNodes(edges: seq<Edge>) returns (visible: seq<string>)
    ensures visible == Uniq(Ends(edges))
  {
    visible := [];
    for i := 0 to |edges|
      invariant visible == Uniq(Ends(edges[..i]))
    {
      var e := edges[i];
      var before := Ends(edges[..i]);
      assert edges[..i + 1][..i] == edges[..i];
      assert Ends(edges[..i + 1]) == before + [e.from] + [e.to];
      assert (before + [e.from] + [e.to])[..|before| + 1] == before + [e.from];
      assert (before + [e.from])[..|before|] == before;
      if e.from !in visible {
        visible := visible + [e.from];
      }
      if e.to !in visible {
        visible := visible + [e.to];
      }
    }
    assert edges[..|edges|] == edges;
  }

  lemma {:induction false} EndsMembers(edges: seq<Edge>)
    ensures forall s :: s in Ends(edges) <==> exists e :: e in edges && (s == e.from || s == e.to)
    decreases |edges|
  {
    if edges != [] {
      var init := edges[..|edges| - 1];
      EndsMembers(init);
      assert forall e :: e in edges <==> e in init || e == edges[|edges| - 1] by {
        assert edges == init + [edges[|edges| - 1]];
      }
    }
  }

  /** `sortedNodes`: the ends of the edges, each once, in increasing order. */
  function SortedNodes(edges: seq<Edge>): seq<string> {
    Sort(Uniq(Ends(edges)))
  }

  /** Sorting keeps the members. */
  lemma SortMembers(xs: seq<string>)
    ensures forall s :: s in Sort(xs) <==> s in xs
  {
    forall s
      ensures s in Sort(xs) <==> s in xs
    {
      assert s in Sort(xs) <==> s in multiset(Sort(xs));
      assert s in xs <==> s in multiset(xs);
    }
  }

  /** The node list is strictly increasing, so free of duplicates, and holds
      exactly the ends of the drawn edges. */
  lemma SortedNodesSpec(edges: seq<Edge>)
    ensures forall i, j :: 0 <= i < j < |SortedNodes(edges)| ==> Below(SortedNodes(edges)[i], SortedNodes(edges)[j])
    ensures forall s :: s in SortedNodes(edges) <==> exists e :: e in edges && (s == e.from || s == e.to)
  {
    var u := Uniq(Ends(edges));
    UniqMembers(Ends(edges));
    SortDistinct(u);
    SortMembers(u);
    EndsMembers(edges);
  }

  // Mermaid text

  predicate IsIdentStart(c: char) {
    ('a' <= c <= 'z') || ('A' <= c <= 'Z') || c == '_'
  }

  predicate IsIdentChar(c: char) {
    IsIdentStart(c) || ('0' <= c <= '9') || c == '-'
  }

  /** `/^[a-zA-Z_][a-zA-Z0-9_-]*$/` */
  predicate IsIdent(s: string) {
    |s| >= 1 && IsIdentStart(s[0]) && forall i :: 1 <= i < |s| ==> IsIdentChar(s[i])
  }

  /** `mermaidId(s)` */
  function MermaidId(s: string): string {
    if IsIdent(s) then s else "\"" + s + "\""
  }

  /** An identifier stays as it is; anything else is quoted, and the quoted
      form is not an identifier, so the two kinds never collide. */
  lemma MermaidIdQuotes(s: string)
    ensures IsIdent(s) ==> MermaidId(s) == s
    ensures !IsIdent(s) ==>
      var r := MermaidId(s);
      |r| == |s| + 2 && r[0] == '"' && r[|r| - 1] == '"' && r[1..|r| - 1] == s && !IsIdent(r)
  {
    if !IsIdent(s) {
      var r := MermaidId(s);
      assert r[1..|r| - 1] == s;
      assert !IsIdentStart(r[0]);
    }
  }

  /** Different short ids get different Mermaid ids. */
  lemma MermaidIdInjective(a: string, b: string)
    requires MermaidId(a) == MermaidId(b)
    ensures a == b
  {
    MermaidIdQuotes(a);
    MermaidIdQuotes(b);
  }

  /** `nodeLabel(sid)` */
  function NodeLabel(sid: string): string {
    MermaidId(sid) + "[\"" + sid + "\"]"
  }

  const DevArrow := "-.->"
  const ProdArrow := "-->"

  /** `edgeLine(e)` */
  function EdgeLine(e: Edge): string {
    if e.isDev then e.from + " " + DevArrow + " " + e.to else e.from + " " + ProdArrow + " " + e.to
  }

  /** The edge with both ends written as `mermaidId` writes them in node lines. */
  function MermaidEdge(e: Edge): Edge {
    Edge(MermaidId(e.from), MermaidId(e.to), e.isDev)
  }

  /** `edgeLine` writes the short ids as they are, while `nodeLabel` quotes
      one that is not an identifier: an edge line names the nodes of its
      node lines exactly when both its ends are identifiers. */
  lemma EdgeLineNamesNodes(e: Edge)
    ensures EdgeLine(e) == EdgeLine(MermaidEdge(e)) <==> IsIdent(e.from) && IsIdent(e.to)
  {
    MermaidIdQuotes(e.from);
    MermaidIdQuotes(e.to);
    var arrow := if e.isDev then DevArrow else ProdArrow;
    assert |EdgeLine(e)| == |e.from| + |e.to| + |arrow| + 2;
    assert |EdgeLine(MermaidEdge(e))| == |MermaidId(e.from)| + |MermaidId(e.to)| + |arrow| + 2;
  }

  /** An edge line reads back, split at its spaces, as the source, the
      arrow, dotted exactly for a dev edge, and the target. */
  lemma EdgeLineSplit(e: Edge)
    requires ' ' !in e.from && ' ' !in e.to
    ensures Split(EdgeLine(e), ' ') == [e.from, if e.isDev then DevArrow else ProdArrow, e.to]
    ensures (Split(EdgeLine(e), ' ')[1] == DevArrow) <==> e.isDev
  {
    var arrow := if e.isDev then DevArrow else ProdArrow;
    assert ' ' !in arrow;
    assert EdgeLine(e) == e.from + [' '] + (arrow + [' '] + e.to);
    SplitAfterPiece(e.from, ' ', arrow + [' '] + e.to);
    SplitAfterPiece(arrow, ' ', e.to);
    SplitNoSeparator(e.to, ' ');
  }

  // Click lines

  /** The repository of a row; a missing one is falsy, like `undefined`. */
  function RepoOf(row: PulseTables.Row): string {
    if "repo" in row then row["repo"] else ""
  }

  /** All rows of the sections, section after section. */
  function AllRows(sections: seq<PulseTables.Section>): seq<PulseTables.Row>
    decreases |sections|
  {
    if sections == [] then [] else AllRows(sections[..|sections| - 1]) + sections[|sections| - 1].rows
  }

  /** `repoByShortId` after the loop over `rows`. */
  function RepoIndex(rows: seq<PulseTables.Row>): map<string, string>
    decreases |rows|
  {
    if rows == [] then map[]
    else
      var m := RepoIndex(rows[..|rows| - 1]);
      var row := rows[|rows| - 1];
      if PulseTables.Truthy(row, "npm") then m[ShortId(row["npm"]) := RepoOf(row)] else m
  }

  lemma RepoIndexStep(done: seq<PulseTables.Row>, rows: seq<PulseTables.Row>, j: nat)
    requires j < |rows|
    ensures RepoIndex(done + rows[..j + 1]) ==
      var m := RepoIndex(done + rows[..j]);
      if PulseTables.Truthy(rows[j], "npm") then m[ShortId(rows[j]["npm"]) := RepoOf(rows[j])] else m
  {
    assert (done + rows[..j + 1])[..|done| + j] == done + rows[..j];
  }

  lemma AllRowsStep(sections: seq<PulseTables.Section>, i: nat)
    requires i < |sections|
    ensures AllRows(sections[..i + 1]) == AllRows(sections[..i]) + sections[i].rows
  {
    assert sections[..i + 1][..i] == sections[..i];
  }

  /** The nested loop that fills `repoByShortId`. */
  method BuildRepoIndex(sections: seq<PulseTables.Section>) returns (index: map<string, string>)
    ensures index == RepoIndex(AllRows(sections))
  {
    index := map[];
    for i := 0 to |sections|
      invariant index == RepoIndex(AllRows(sections[..i]))
    {
      var rows := sections[i].rows;
      ghost var done := AllRows(sections[..i]);
      assert done + rows[..0] == done;
      for j := 0 to |rows|
        invariant index == RepoIndex(done + rows[..j])
      {
        RepoIndexStep(done, rows, j);
        var row := rows[j];
        if PulseTables.Truthy(row, "npm") {
          index := index[ShortId(row["npm"]) := RepoOf(row)];
        }
      }
      assert rows[..|rows|] == rows;
      AllRowsStep(sections, i);
    }
    assert sections[..|sections|] == sections;
  }

  /** A short id has an entry exactly when some row names a package with
      that short id. */
  lemma {:induction false} RepoIndexKeys(rows: seq<PulseTables.Row>, sid: string)
    ensures sid in RepoIndex(rows) <==>
      exists i :: 0 <= i < |rows| && PulseTables.Truthy(rows[i], "npm") && ShortId(rows[i]["npm"]) == sid
    decreases |rows|
  {
    if rows != [] {
      var init := rows[..|rows| - 1];
      RepoIndexKeys(init, sid);
      assert forall i :: 0 <= i < |init| ==> init[i] == rows[i];
    }
  }

  /** A click line, linking a node to its repository. */
  function ClickLine(sid: string, repo: string): string {
    "  click " + MermaidId(sid) + " href \"" + PulseTables.GitHub + PulseTables.Org + "/" + repo + "\""
  }

  /** `clickLines`: one per node whose short id has a truthy repository. */
  function ClickLines(nodes: seq<string>, index: map<string, string>): seq<string>
    decreases |nodes|
  {
    if nodes == [] then []
    else
      var sid := nodes[|nodes| - 1];
      ClickLines(nodes[..|nodes| - 1], index)
      + if sid in index && index[sid] != "" then [ClickLine(sid, index[sid])] else []
  }

  /** There is at most one click line per node, one for each node with a
      repository, and no other. */
  lemma {:induction false} ClickLinesFor(nodes: seq<string>, index: map<string, string>)
    ensures |ClickLines(nodes, index)| <= |nodes|
    ensures forall sid :: sid in nodes && sid in index && index[sid] != "" ==> ClickLine(sid, index[sid]) in ClickLines(nodes, index)
    ensures forall l :: l in ClickLines(nodes, index) ==>
      exists sid :: sid in nodes && sid in index && index[sid] != "" && l == ClickLine(sid, index[sid])
    decreases |nodes|
  {
    if nodes != [] {
      var init := nodes[..|nodes| - 1];
      ClickLinesFor(init, index);
      assert nodes == init + [nodes[|nodes| - 1]];
      forall l | l in ClickLines(init, index)
        ensures exists sid :: sid in nodes && sid in index && index[sid] != "" && l == ClickLine(sid, index[sid])
      {
        var sid :| sid in init && sid in index && index[sid] != "" && l == ClickLine(sid, index[sid]);
        assert sid in nodes;
      }
    }
  }

  // The diagram

  const InitLine := "%%{ init: { \"flowchart\": { \"curve\": \"stepAfter\", \"defaultRenderer\": \"elk\" } } }%%"
  const FlowchartLine := "flowchart LR"

  function NodeLines(nodes: seq<string>): (r: seq<string>)
    ensures |r| == |nodes|
  {
    seq(|nodes|, i requires 0 <= i < |nodes| => "  " + NodeLabel(nodes[i]))
  }

  function EdgeLines(edges: seq<Edge>): (r: seq<string>)
    ensures |r| == |edges|
  {
    seq(|edges|, i requires 0 <= i < |edges| => "  " + EdgeLine(edges[i]))
  }

  /** The `lines` of the diagram. */
  function DiagramLines(nodes: seq<string>, edges: seq<Edge>, clicks: seq<string>): seq<string> {
    [InitLine, FlowchartLine] + NodeLines(nodes) + EdgeLines(edges) + clicks
  }

  const GraphTitle := "## Dependency graph (@diplodoc packages)"
  const GraphNote := "Generated from Nx project graph (`nx graph --file`). **Orientation:** top to bottom (`flowchart TB`)."

  /** The returned text: a title, a note and the diagram in a fenced block. */
  function GraphSection(lines: seq<string>): string {
    Join([GraphTitle, "", GraphNote, "", "```mermaid", Join(lines, "\n"), "```", ""], "\n")
  }

  /** What `renderDepsGraph` returns for the graph (`None` when fetching
      it failed), the readable manifests and the status sections. */
  function DepsGraph(graph: Option<Graph>, manifests: map<string, Manifest>, sections: seq<PulseTables.Section>): string {
    match graph
    case None => ""
    case Some(g) =>
      var pkgs, roots := PkgIndex(g.nodes, manifests), RootIndex(g.nodes);
      var edges := KeptEdges(DepList(g.dependencies), pkgs, roots, manifests);
      if edges == [] then ""
      else
        var nodes := SortedNodes(edges);
        GraphSection(DiagramLines(nodes, edges, ClickLines(nodes, RepoIndex(AllRows(sections)))))
  }

  /** `renderDepsGraph()` */
  method RenderDepsGraph(graph: Option<Graph>, manifests: map<string, Manifest>, sections: seq<PulseTables.Section>)
    returns (out: string)
    ensures out == DepsGraph(graph, manifests, sections)
  {
    if graph.None? {
      return "";
    }
    var g := graph.value;
    var pkgs, roots := IndexNodes(g.nodes, manifests);
    var edges, outDegree, inDegree := CollectEdges(DepList(g.dependencies), pkgs, roots, manifests);
    if |edges| == 0 {
      return "";
    }
    var visible := VisibleNodes(edges);
    var nodes := Sort(visible);
    var index := BuildRepoIndex(sections);
    out := GraphSection(DiagramLines(nodes, edges, ClickLines(nodes, index)));
  }

  /** The graph section is empty exactly when fetching the graph failed or
      no edge survives the filters. */
  lemma DepsGraphEmpty(graph: Option<Graph>, manifests: map<string, Manifest>, sections: seq<PulseTables.Section>)
    ensures DepsGraph(graph, manifests, sections) == "" <==>
      graph.None? || KeptEdges(DepList(graph.value.dependencies), PkgIndex(graph.value.nodes, manifests), RootIndex(graph.value.nodes), manifests) == []
  {
    forall lines: seq<string>
      ensures GraphSection(lines) != ""
    {
      assert GraphTitle[0] == '#';
    }
  }
}
