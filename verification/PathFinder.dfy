/** Enumeration of all shortest certification paths from one node to another. */
module PathFinder {
  import opened Sequences
  import opened Sums
  import opened Wot
  import opened LinkPaths

  /** What is remembered about a node: its distance to the target, or one more than the bound, and
      the next nodes on its shortest paths. */
  datatype Entry = Entry(distance: nat, hops: seq<nat>)

  // ---- exploration ----

  /** The entry of x once every level up to m is known. */
  ghost predicate KnownUpTo(g: seq<Node>, to: nat, kMax: nat, m: nat, e: Entry, x: nat) {
    if 0 <= Dist(g, x, to) <= m then
      && e.distance == Dist(g, x, to)
      && NoDup(e.hops)
      && forall v: nat :: v in e.hops <==> StepsTo(g, to, x, v)
    else
      e == Entry(kMax + 1, [])
  }

  /** The entry of x while level m + 1 is being found, the border nodes in `done` being handled. */
  ghost predicate KnownPartly(g: seq<Node>, to: nat, kMax: nat, m: nat, done: set<nat>, e: Entry, x: nat) {
    if Dist(g, x, to) == m + 1 then
      && NoDup(e.hops)
      && (forall v: nat :: v in e.hops <==> v in done && StepsTo(g, to, x, v))
      && e.distance == if e.hops == [] then kMax + 1 else m + 1
    else
      KnownUpTo(g, to, kMax, m, e, x)
  }

  ghost predicate Level(g: seq<Node>, to: nat, m: nat, border: set<nat>) {
    forall x: nat :: x in border <==> Dist(g, x, to) == m
  }

  /** The entry after the link from x to `node` has been looked at. */
  function Improved(e: Entry, distance: nat, node: nat): Entry {
    if e.distance > distance then Entry(distance, [node])
    else if e.distance == distance then Entry(e.distance, e.hops + [node])
    else e
  }

  lemma ImprovedIsPartly(g: seq<Node>, to: nat, kMax: nat, m: nat, done: set<nat>, node: nat, e: Entry, x: nat)
    requires m + 1 <= kMax && Dist(g, node, to) == m && Certifies(g, x, node) && node !in done
    requires KnownPartly(g, to, kMax, m, done, e, x)
    ensures KnownPartly(g, to, kMax, m, done + {node}, Improved(e, m + 1, node), x)
    ensures e.distance >= m + 1 <==> Dist(g, x, to) == m + 1
    ensures Dist(g, x, to) == m + 1 ==> Improved(e, m + 1, node).hops != []
  {
    hide Walks, Dist;
    DistStep(g, x, node, to);
  }

  lemma UntouchedIsPartly(g: seq<Node>, to: nat, kMax: nat, m: nat, done: set<nat>, node: nat, e: Entry, x: nat)
    requires !Certifies(g, x, node)
    requires KnownPartly(g, to, kMax, m, done, e, x)
    ensures KnownPartly(g, to, kMax, m, done + {node}, e, x)
  {
  }

  lemma RoundEnds(g: seq<Node>, to: nat, kMax: nat, m: nat, border: set<nat>, e: Entry, x: nat)
    requires Level(g, to, m, border) && KnownPartly(g, to, kMax, m, border, e, x)
    ensures KnownUpTo(g, to, kMax, m + 1, e, x)
    ensures Dist(g, x, to) == m + 1 ==> e.hops != []
  {
    hide Walks, Dist;
    if Dist(g, x, to) == m + 1 {
      var v := NextHop(g, x, to);
      assert v in e.hops;
    }
  }

  lemma ExplorationStarts(g: seq<Node>, to: nat, kMax: nat, x: nat)
    requires to < |g|
    ensures KnownUpTo(g, to, kMax, 0, if x == to then Entry(0, []) else Entry(kMax + 1, []), x)
    ensures Level(g, to, 0, {to})
  {
    hide Walks, Dist;
    DistSelf(g, to, to);
    forall y: nat ensures y in {to} <==> Dist(g, y, to) == 0 {
      DistSelf(g, y, to);
    }
    DistSelf(g, x, to);
  }

  ghost predicate AllKnown(g: seq<Node>, to: nat, kMax: nat, m: nat, graph: seq<Entry>) {
    |graph| == |g| && forall x: nat :: x < |g| ==> KnownUpTo(g, to, kMax, m, graph[x], x)
  }

  /** In the middle of a round: the nodes whose entries changed are those with a hop already. */
  ghost predicate AllPartly(g: seq<Node>, to: nat, kMax: nat, m: nat, done: set<nat>, graph: seq<Entry>,
                            next: set<nat>)
  {
    && |graph| == |g|
    && (forall x: nat :: x < |g| ==> KnownPartly(g, to, kMax, m, done, graph[x], x))
    && (forall x: nat :: x in next <==> x < |g| && Dist(g, x, to) == m + 1 && graph[x].hops != [])
  }

  /** In the middle of one border node: the links listed so far are accounted for. */
  ghost predicate NodePartly(g: seq<Node>, to: nat, kMax: nat, m: nat, done: set<nat>, node: nat,
                             handled: seq<nat>, graph: seq<Entry>, next: set<nat>) {
    && |graph| == |g|
    && (forall x: nat :: x < |g| ==>
          KnownPartly(g, to, kMax, m, if x in handled then done + {node} else done, graph[x], x))
    && (forall x: nat :: x in next <==> x < |g| && Dist(g, x, to) == m + 1 && graph[x].hops != [])
  }

  lemma LinkHandled(g: seq<Node>, to: nat, kMax: nat, m: nat, done: set<nat>, node: nat, handled: seq<nat>,
                    graph: seq<Entry>, next: set<nat>, x: nat)
    requires NodePartly(g, to, kMax, m, done, node, handled, graph, next)
    requires m + 1 <= kMax && Dist(g, node, to) == m && Certifies(g, x, node) && node !in done && x !in handled
    ensures x < |g| == |graph|
    ensures NodePartly(g, to, kMax, m, done, node, handled + [x], graph[x := Improved(graph[x], m + 1, node)],
                       if graph[x].distance >= m + 1 then next + {x} else next)
  {
    hide Walks, Dist, KnownPartly, Improved;
    ImprovedIsPartly(g, to, kMax, m, done, node, graph[x], x);
  }

  lemma NodeHandled(g: seq<Node>, to: nat, kMax: nat, m: nat, done: set<nat>, node: nat, handled: seq<nat>,
                    graph: seq<Entry>, next: set<nat>)
    requires NodePartly(g, to, kMax, m, done, node, handled, graph, next)
    requires forall x: nat :: x in handled <==> Certifies(g, x, node)
    ensures AllPartly(g, to, kMax, m, done + {node}, graph, next)
  {
    hide Walks, Dist, KnownPartly;
    forall x: nat | x < |g| ensures KnownPartly(g, to, kMax, m, done + {node}, graph[x], x) {
      if x !in handled {
        UntouchedIsPartly(g, to, kMax, m, done, node, graph[x], x);
      }
    }
  }

  lemma RoundHandled(g: seq<Node>, to: nat, kMax: nat, m: nat, border: set<nat>, graph: seq<Entry>, next: set<nat>)
    requires Level(g, to, m, border) && AllPartly(g, to, kMax, m, border, graph, next)
    ensures AllKnown(g, to, kMax, m + 1, graph) && Level(g, to, m + 1, next)
  {
    hide Walks, Dist, KnownPartly, KnownUpTo;
    forall x: nat | x < |g|
      ensures KnownUpTo(g, to, kMax, m + 1, graph[x], x)
      ensures Dist(g, x, to) == m + 1 ==> graph[x].hops != []
    {
      RoundEnds(g, to, kMax, m, border, graph[x], x);
    }
    forall x: nat ensures x in next <==> Dist(g, x, to) == m + 1 {
      DistSpec(g, x, to);
    }
  }

  lemma RoundOpens(g: seq<Node>, to: nat, kMax: nat, m: nat, graph: seq<Entry>)
    requires AllKnown(g, to, kMax, m, graph)
    ensures AllPartly(g, to, kMax, m, {}, graph, {})
  {
  }

  method VisitBorderNode(wot: RustyWebOfTrust, graph: array<Entry>, distance: nat, node: nat, next0: set<nat>,
                         ghost to: nat, ghost kMax: nat, ghost done: set<nat>)
    returns (next: set<nat>)
    requires InRange(wot.nodes) && node < |wot.nodes|
    requires 0 < distance <= kMax && Dist(wot.nodes, node, to) == distance - 1 && node !in done
    requires AllPartly(wot.nodes, to, kMax, distance - 1, done, graph[..], next0)
    modifies graph
    ensures AllPartly(wot.nodes, to, kMax, distance - 1, done + {node}, graph[..], next)
  {
    hide Walks, Dist, KnownPartly;
    ghost var g := wot.nodes;
    var found := wot.GetLinksSource(node);
    var sources := found.value;
    forall x: nat ensures x in sources <==> Certifies(g, x, node) {
      assert x in sources <==> x in Elems(sources);
    }
    next := next0;
    for i := 0 to |sources|
      invariant wot.nodes == g
      invariant NodePartly(g, to, kMax, distance - 1, done, node, sources[..i], graph[..], next)
    {
      var source := sources[i];
      assert source in sources;
      ghost var before := graph[..];
      LinkHandled(g, to, kMax, distance - 1, done, node, sources[..i], before, next, source);
      if graph[source].distance > distance {
        graph[source] := Entry(distance, [node]);
        next := next + {source};
      } else if graph[source].distance == distance {
        graph[source] := Entry(distance, graph[source].hops + [node]);
        next := next + {source};
      }
      assert graph[..] == before[source := Improved(before[source], distance, node)];
      assert sources[..i + 1] == sources[..i] + [source];
    }
    assert sources[..|sources|] == sources;
    NodeHandled(g, to, kMax, distance - 1, done, node, sources, graph[..], next);
  }

  /** One round: find the nodes at `distance` from those one link closer, in any order. */
  method ExploreLevel(wot: RustyWebOfTrust, graph: array<Entry>, distance: nat, border: set<nat>,
                      ghost to: nat, ghost kMax: nat)
    returns (next: set<nat>)
    requires InRange(wot.nodes) && 0 < distance <= kMax
    requires Level(wot.nodes, to, distance - 1, border)
    requires AllKnown(wot.nodes, to, kMax, distance - 1, graph[..])
    modifies graph
    ensures Level(wot.nodes, to, distance, next)
    ensures AllKnown(wot.nodes, to, kMax, distance, graph[..])
  {
    hide Walks, Dist, KnownPartly, KnownUpTo, AllPartly, AllKnown;
    ghost var g := wot.nodes;
    next := {};
    var rest := border;
    RoundOpens(g, to, kMax, distance - 1, graph[..]);
    assert border - rest == {};
    while rest != {}
      invariant wot.nodes == g && rest <= border
      invariant AllPartly(g, to, kMax, distance - 1, border - rest, graph[..], next)
      decreases rest
    {
      var node :| node in rest;
      DistSpec(g, node, to);
      next := VisitBorderNode(wot, graph, distance, node, next, to, kMax, border - rest);
      assert (border - rest) + {node} == border - (rest - {node});
      rest := rest - {node};
    }
    assert border - rest == border;
    RoundHandled(g, to, kMax, distance - 1, border, graph[..], next);
  }

  method Explore(wot: RustyWebOfTrust, to: nat, kMax: nat) returns (graph: seq<Entry>)
    requires InRange(wot.nodes) && to < |wot.nodes| && kMax < U32_MAX
    ensures AllKnown(wot.nodes, to, kMax, kMax, graph)
  {
    hide Walks, Dist, KnownUpTo;
    ghost var g := wot.nodes;
    var table := new Entry[|wot.nodes|](_ => Entry(kMax + 1, []));
    table[to] := Entry(0, []);
    var border := {to};
    forall x: nat | x < |g| ensures KnownUpTo(g, to, kMax, 0, table[x], x) {
      ExplorationStarts(g, to, kMax, x);
    }
    ExplorationStarts(g, to, kMax, to);
    for distance := 1 to kMax + 1
      invariant wot.nodes == g
      invariant Level(g, to, distance - 1, border)
      invariant AllKnown(g, to, kMax, distance - 1, table[..])
    {
      border := ExploreLevel(wot, table, distance, border, to, kMax);
    }
    graph := table[..];
  }

  // ---- building the paths ----

  /** p starts at `from` and takes j links, each one closer to `to`. */
  ghost predicate Descent(g: seq<Node>, from: nat, to: nat, p: seq<nat>, j: nat) {
    && |p| == j + 1 && p[0] == from
    && forall i :: 0 <= i < j ==> StepsTo(g, to, p[i], p[i + 1])
  }

  lemma {:induction false} DescentDistance(g: seq<Node>, from: nat, to: nat, p: seq<nat>, j: nat, i: nat)
    requires Descent(g, from, to, p, j) && i <= j
    ensures Dist(g, p[i], to) == Dist(g, from, to) - i
  {
    hide Walks, Dist;
    if i > 0 {
      DescentDistance(g, from, to, p, j, i - 1);
      assert StepsTo(g, to, p[i - 1], p[i]);
    }
  }

  lemma DescentStep(g: seq<Node>, from: nat, to: nat, p: seq<nat>, j: nat, v: nat)
    ensures Descent(g, from, to, p + [v], j + 1) <==> Descent(g, from, to, p, j) && StepsTo(g, to, p[|p| - 1], v)
  {
    hide Walks, Dist;
    var q := p + [v];
    if Descent(g, from, to, q, j + 1) {
      assert |p| == j + 1;
      forall i | 0 <= i < j ensures StepsTo(g, to, p[i], p[i + 1]) {
        assert StepsTo(g, to, q[i], q[i + 1]);
      }
      assert StepsTo(g, to, q[j], q[j + 1]);
    }
    if |p| == j + 1 && Descent(g, from, to, p, j) && StepsTo(g, to, p[|p| - 1], v) {
      forall i | 0 <= i < j + 1 ensures StepsTo(g, to, q[i], q[i + 1]) {
        if i < j {
          assert StepsTo(g, to, p[i], p[i + 1]);
        }
      }
    }
  }

  /** Full descents are exactly the shortest paths. */
  lemma DescentsAreShortest(g: seq<Node>, from: nat, to: nat, p: seq<nat>)
    requires Dist(g, from, to) >= 0
    ensures p in ShortestPaths(g, from, to) <==> Descent(g, from, to, p, Dist(g, from, to))
  {
    hide Walks, Dist;
    var k: nat := Dist(g, from, to);
    DistSpec(g, from, to);
    if p in ShortestPaths(g, from, to) {
      WalkMember(g, p, from, to, k);
      forall i | 0 <= i < k ensures StepsTo(g, to, p[i], p[i + 1]) {
        DistAlong(g, p, from, to, i);
        DistAlong(g, p, from, to, i + 1);
        assert Certifies(g, p[i], p[i + 1]);
      }
    }
    if Descent(g, from, to, p, k) {
      DescentIsWalk(g, from, to, p, k);
      WalkMember(g, p, from, to, k);
    }
  }

  lemma DescentIsWalk(g: seq<Node>, from: nat, to: nat, p: seq<nat>, k: nat)
    requires Descent(g, from, to, p, k) && Dist(g, from, to) == k && from < |g|
    ensures IsWalk(g, p, from, to, k)
  {
    hide Walks, Dist;
    DescentDistance(g, from, to, p, k, k);
    DistSelf(g, p[k], to);
    forall i | 0 <= i < k ensures Certifies(g, p[i], p[i + 1]) {
      assert StepsTo(g, to, p[i], p[i + 1]);
    }
    forall i | 0 <= i <= k ensures p[i] < |g| {
      if i < k {
        assert Certifies(g, p[i], p[i + 1]);
      } else if k > 0 {
        assert Certifies(g, p[k - 1], p[k]);
      }
    }
  }

  /** The paths that one path becomes in a round. */
  function Continued(graph: seq<Entry>, to: nat, path: seq<nat>): seq<seq<nat>>
    requires path != [] && path[|path| - 1] < |graph|
  {
    var node := path[|path| - 1];
    if node == to then [path]
    else seq(|graph[node].hops|, i requires 0 <= i < |graph[node].hops| => path + [graph[node].hops[i]])
  }

  ghost predicate Extendable(graph: seq<Entry>, paths: seq<seq<nat>>) {
    forall i :: 0 <= i < |paths| ==> paths[i] != [] && paths[i][|paths[i]| - 1] < |graph|
  }

  ghost function ContinuedAll(graph: seq<Entry>, to: nat, paths: seq<seq<nat>>): seq<seq<nat>>
    requires Extendable(graph, paths)
  {
    if paths == [] then []
    else ContinuedAll(graph, to, paths[..|paths| - 1]) + Continued(graph, to, paths[|paths| - 1])
  }

  lemma ContinuedSnoc(graph: seq<Entry>, to: nat, paths: seq<seq<nat>>, i: nat)
    requires Extendable(graph, paths) && i < |paths|
    ensures Extendable(graph, paths[..i]) && Extendable(graph, paths[..i + 1])
    ensures ContinuedAll(graph, to, paths[..i + 1]) ==
            ContinuedAll(graph, to, paths[..i]) + Continued(graph, to, paths[i])
  {
    hide Continued;
    assert paths[..i + 1][..i] == paths[..i];
    assert paths[..i + 1][i] == paths[i];
  }

  method ContinuePath(graph: seq<Entry>, to: nat, path: seq<nat>, newPaths0: seq<seq<nat>>)
    returns (newPaths: seq<seq<nat>>)
    requires path != [] && path[|path| - 1] < |graph|
    ensures newPaths == newPaths0 + Continued(graph, to, path)
  {
    var node := path[|path| - 1];
    newPaths := newPaths0;
    if node == to {
      newPaths := newPaths + [path];
    } else {
      var hops := graph[node].hops;
      ghost var all := Continued(graph, to, path);
      for j := 0 to |hops|
        invariant newPaths == newPaths0 + all[..j]
      {
        newPaths := newPaths + [path + [hops[j]]];
        assert all[j] == path + [hops[j]];
        TakeSnoc(all, j);
        Associate(newPaths0, all[..j], [all[j]]);
      }
      assert all[..|hops|] == all;
    }
  }

  method ContinueRound(graph: seq<Entry>, to: nat, paths: seq<seq<nat>>) returns (newPaths: seq<seq<nat>>)
    requires Extendable(graph, paths)
    ensures newPaths == ContinuedAll(graph, to, paths)
  {
    newPaths := [];
    assert ContinuedAll(graph, to, paths[..0]) == [];
    hide ContinuedAll, Continued;
    for i := 0 to |paths|
      invariant newPaths == ContinuedAll(graph, to, paths[..i])
    {
      ContinuedSnoc(graph, to, paths, i);
      newPaths := ContinuePath(graph, to, paths[i], newPaths);
    }
    assert paths[..|paths|] == paths;
  }

  /** The listed paths are exactly the descents of j links, each once. */
  ghost predicate ListsDescents(g: seq<Node>, from: nat, to: nat, j: nat, paths: seq<seq<nat>>) {
    NoDup(paths) && forall p :: p in paths <==> Descent(g, from, to, p, j)
  }

  /** The last link of q is one of the hops remembered for its last but one node. */
  predicate LastHopKnown(graph: seq<Entry>, q: seq<nat>) {
    |q| > 1 && q[|q| - 2] < |graph| && q[|q| - 1] in graph[q[|q| - 2]].hops
  }

  lemma {:induction false} ContinuedMembers(graph: seq<Entry>, to: nat, paths: seq<seq<nat>>, q: seq<nat>)
    requires Extendable(graph, paths)
    requires forall i :: 0 <= i < |paths| ==> paths[i][|paths[i]| - 1] != to
    ensures q in ContinuedAll(graph, to, paths) <==> |q| > 1 && LastHopKnown(graph, q) && q[..|q| - 1] in paths
    decreases paths
  {
    hide Continued, LastHopKnown;
    if paths != [] {
      var last, rest := paths[|paths| - 1], paths[..|paths| - 1];
      ContinuedMembers(graph, to, rest, q);
      ContinuedMember(graph, to, last, q);
      assert paths == rest + [last];
    }
  }

  lemma ContinuedMember(graph: seq<Entry>, to: nat, path: seq<nat>, q: seq<nat>)
    requires path != [] && path[|path| - 1] < |graph| && path[|path| - 1] != to
    ensures q in Continued(graph, to, path) <==> |q| > 1 && LastHopKnown(graph, q) && q[..|q| - 1] == path
  {
    var hops := graph[path[|path| - 1]].hops;
    if |q| > 1 && q[..|q| - 1] == path && q[|q| - 1] in hops {
      var i :| 0 <= i < |hops| && hops[i] == q[|q| - 1];
      assert Continued(graph, to, path)[i] == q;
    }
  }

  lemma ContinuedNoDup(graph: seq<Entry>, to: nat, path: seq<nat>)
    requires path != [] && path[|path| - 1] < |graph| && NoDup(graph[path[|path| - 1]].hops)
    ensures NoDup(Continued(graph, to, path))
  {
    var hops, all := graph[path[|path| - 1]].hops, Continued(graph, to, path);
    if path[|path| - 1] != to {
      forall i, j | 0 <= i < j < |all| ensures all[i] != all[j] {
        assert all[i][|path|] == hops[i] && all[j][|path|] == hops[j];
      }
    }
  }

  lemma {:induction false} ContinuedAllNoDup(graph: seq<Entry>, to: nat, paths: seq<seq<nat>>)
    requires Extendable(graph, paths) && NoDup(paths)
    requires forall i :: 0 <= i < |paths| ==> paths[i][|paths[i]| - 1] != to
    requires forall i :: 0 <= i < |graph| ==> NoDup(graph[i].hops)
    ensures NoDup(ContinuedAll(graph, to, paths))
    decreases paths
  {
    hide Continued, LastHopKnown;
    if paths != [] {
      var last, rest := paths[|paths| - 1], paths[..|paths| - 1];
      ContinuedAllNoDup(graph, to, rest);
      ContinuedNoDup(graph, to, last);
      var a, b := ContinuedAll(graph, to, rest), Continued(graph, to, last);
      forall q | q in b ensures q !in a {
        ContinuedMember(graph, to, last, q);
        ContinuedMembers(graph, to, rest, q);
      }
      NoDupConcat(a, b);
    }
  }

  lemma FinishedIsKept(graph: seq<Entry>, to: nat, path: seq<nat>)
    requires path != [] && path[|path| - 1] < |graph| && path[|path| - 1] == to
    ensures Continued(graph, to, path) == [path]
  {
  }

  lemma {:induction false} FinishedAreKept(graph: seq<Entry>, to: nat, paths: seq<seq<nat>>)
    requires Extendable(graph, paths)
    requires forall i :: 0 <= i < |paths| ==> paths[i][|paths[i]| - 1] == to
    ensures ContinuedAll(graph, to, paths) == paths
    decreases paths
  {
    if paths != [] {
      hide Continued, ContinuedAll;
      var k := |paths| - 1;
      ContinuedSnoc(graph, to, paths, k);
      FinishedAreKept(graph, to, paths[..k]);
      FinishedIsKept(graph, to, paths[k]);
      assert paths[..k + 1] == paths;
      TakeSnoc(paths, k);
    }
  }

  lemma DescentEnds(g: seq<Node>, from: nat, to: nat, p: seq<nat>, j: nat)
    requires Descent(g, from, to, p, j) && from < |g| && 0 <= j <= Dist(g, from, to)
    ensures p[j] < |g| && (p[j] == to <==> j == Dist(g, from, to))
    ensures Dist(g, p[j], to) == Dist(g, from, to) - j
  {
    hide Walks, Dist;
    DescentDistance(g, from, to, p, j, j);
    DistSelf(g, p[j], to);
    DistSpec(g, p[j], to);
  }

  lemma ListedExtendable(g: seq<Node>, from: nat, to: nat, j: nat, paths: seq<seq<nat>>, graph: seq<Entry>)
    requires ListsDescents(g, from, to, j, paths) && from < |g| == |graph| && 0 <= j <= Dist(g, from, to)
    ensures Extendable(graph, paths)
    ensures forall i :: 0 <= i < |paths| ==> (paths[i][|paths[i]| - 1] == to <==> j == Dist(g, from, to))
  {
    hide Walks, Dist;
    forall i | 0 <= i < |paths|
      ensures paths[i] != [] && paths[i][|paths[i]| - 1] < |graph|
      ensures paths[i][|paths[i]| - 1] == to <==> j == Dist(g, from, to)
    {
      assert paths[i] in paths;
      DescentEnds(g, from, to, paths[i], j);
    }
  }

  /** A round lengthens every unfinished descent in every possible way. */
  lemma RoundLengthens(g: seq<Node>, from: nat, to: nat, kMax: nat, j: nat, paths: seq<seq<nat>>, graph: seq<Entry>)
    requires AllKnown(g, to, kMax, kMax, graph) && from < |g|
    requires ListsDescents(g, from, to, j, paths) && j < Dist(g, from, to) <= kMax
    ensures Extendable(graph, paths)
    ensures ListsDescents(g, from, to, j + 1, ContinuedAll(graph, to, paths))
  {
    hide Walks, Dist, ContinuedAll, Descent;
    ListedExtendable(g, from, to, j, paths, graph);
    forall x: nat | x < |g| ensures NoDup(graph[x].hops) {
      assert KnownUpTo(g, to, kMax, kMax, graph[x], x);
    }
    ContinuedAllNoDup(graph, to, paths);
    forall q ensures q in ContinuedAll(graph, to, paths) <==> Descent(g, from, to, q, j + 1) {
      ContinuedMembers(graph, to, paths, q);
      LongerDescent(g, from, to, kMax, j, graph, q);
    }
  }

  lemma LongerDescent(g: seq<Node>, from: nat, to: nat, kMax: nat, j: nat, graph: seq<Entry>, q: seq<nat>)
    requires AllKnown(g, to, kMax, kMax, graph) && from < |g| && j < Dist(g, from, to) <= kMax
    ensures Descent(g, from, to, q, j + 1) <==>
            LastHopKnown(graph, q) && Descent(g, from, to, q[..|q| - 1], j)
  {
    hide Walks, Dist;
    if |q| > 1 {
      var p, v := q[..|q| - 1], q[|q| - 1];
      assert q == p + [v];
      DescentStep(g, from, to, p, j, v);
      if Descent(g, from, to, p, j) {
        DescentEnds(g, from, to, p, j);
        assert p[j] == q[|q| - 2];
        assert KnownUpTo(g, to, kMax, kMax, graph[p[j]], p[j]);
      }
    }
  }

  /** What the rounds have produced after i of them. */
  ghost predicate Built(g: seq<Node>, from: nat, to: nat, kMax: nat, i: nat, paths: seq<seq<nat>>) {
    if 0 <= Dist(g, from, to) <= kMax then
      ListsDescents(g, from, to, if i <= Dist(g, from, to) then i else Dist(g, from, to), paths)
    else
      paths == if i == 0 then [[from]] else []
  }

  lemma BuiltStart(g: seq<Node>, from: nat, to: nat, kMax: nat)
    ensures Built(g, from, to, kMax, 0, [[from]])
  {
    hide Walks, Dist;
    forall p ensures p in [[from]] <==> Descent(g, from, to, p, 0) {
      if Descent(g, from, to, p, 0) {
        assert p == [from];
      }
    }
  }

  lemma BuiltStep(g: seq<Node>, from: nat, to: nat, kMax: nat, i: nat, paths: seq<seq<nat>>, graph: seq<Entry>)
    requires AllKnown(g, to, kMax, kMax, graph) && from < |g|
    requires Built(g, from, to, kMax, i, paths)
    ensures Extendable(graph, paths)
    ensures Built(g, from, to, kMax, i + 1, ContinuedAll(graph, to, paths))
  {
    hide Walks, Dist;
    if 0 <= Dist(g, from, to) <= kMax {
      if i < Dist(g, from, to) {
        RoundLengthens(g, from, to, kMax, i, paths, graph);
      } else {
        ListedExtendable(g, from, to, Dist(g, from, to), paths, graph);
        FinishedAreKept(graph, to, paths);
      }
    } else if i == 0 {
      UnreachedDies(g, from, to, kMax, graph);
    }
  }

  lemma UnreachedDies(g: seq<Node>, from: nat, to: nat, kMax: nat, graph: seq<Entry>)
    requires AllKnown(g, to, kMax, kMax, graph) && from < |g|
    requires !(0 <= Dist(g, from, to) <= kMax)
    ensures ContinuedAll(graph, to, [[from]]) == []
  {
    hide Walks, Dist;
    assert KnownUpTo(g, to, kMax, kMax, graph[from], from);
    DistSelf(g, from, to);
    assert [[from]][..0] == [];
    assert Continued(graph, to, [from]) == [];
  }

  // ---- the result ----

  /** Exactly the shortest paths of at most kMax links, each once. */
  ghost predicate ExactPaths(g: seq<Node>, from: nat, to: nat, kMax: nat, paths: seq<seq<nat>>) {
    NoDup(paths) && forall p :: p in paths <==> p in ShortestPaths(g, from, to) && |p| - 1 <= kMax
  }

  lemma BuiltIsExact(g: seq<Node>, from: nat, to: nat, kMax: nat, paths: seq<seq<nat>>)
    requires Built(g, from, to, kMax, kMax, paths) && (kMax > 0 || from == to) && from < |g|
    ensures ExactPaths(g, from, to, kMax, paths)
  {
    hide Walks, Dist, Descent;
    if from == to {
      DistSelf(g, from, to);
    }
    DistSpec(g, from, to);
    forall p ensures p in paths <==> p in ShortestPaths(g, from, to) && |p| - 1 <= kMax {
      if p in ShortestPaths(g, from, to) {
        ShortestPathNoDup(g, p, from, to);
      }
      if Dist(g, from, to) >= 0 {
        DescentsAreShortest(g, from, to, p);
      }
    }
  }

  method FindPaths(wot: RustyWebOfTrust, from: nat, to: nat, kMax: nat) returns (paths: seq<seq<nat>>)
    requires InRange(wot.nodes) && kMax < U32_MAX
    ensures from >= |wot.nodes| || to >= |wot.nodes| ==> paths == []
    ensures from < |wot.nodes| && to < |wot.nodes| && (kMax > 0 || from == to) ==>
              ExactPaths(wot.nodes, from, to, kMax, paths)
    ensures from < |wot.nodes| && to < |wot.nodes| && kMax == 0 ==> paths == [[from]]
  {
    hide Walks, Dist, AllKnown, Built, ContinuedAll;
    if from >= |wot.nodes| || to >= |wot.nodes| {
      return [];
    }
    ghost var g := wot.nodes;
    var graph := Explore(wot, to, kMax);
    paths := [[from]];
    BuiltStart(g, from, to, kMax);
    for i := 0 to kMax
      invariant Built(g, from, to, kMax, i, paths)
      invariant i == 0 ==> paths == [[from]]
    {
      BuiltStep(g, from, to, kMax, i, paths, graph);
      paths := ContinueRound(graph, to, paths);
    }
    if kMax > 0 || from == to {
      BuiltIsExact(g, from, to, kMax, paths);
    }
  }

  /** With a bound of 0 the answer is always the start alone: right if and only if it is the target. */
  lemma ZeroBoundExactIff(g: seq<Node>, from: nat, to: nat)
    requires from < |g| && to < |g|
    ensures ExactPaths(g, from, to, 0, [[from]]) <==> from == to
  {
    hide Walks, Dist;
    BuiltStart(g, from, to, 0);
    if from == to {
      BuiltIsExact(g, from, to, 0, [[from]]);
    } else if ExactPaths(g, from, to, 0, [[from]]) {
      assert [from] in [[from]];
      ShortestPathNoDup(g, [from], from, to);
    }
  }

  /** As many paths are found as Brandes' forward phase counts. */
  lemma PathsCounted(g: seq<Node>, from: nat, to: nat, kMax: nat, paths: seq<seq<nat>>)
    requires ExactPaths(g, from, to, kMax, paths)
    ensures |paths| == if Dist(g, from, to) <= kMax then Sigma(g, from, to) else 0
  {
    hide Walks, Dist;
    NoDupCardinality(paths);
    forall p | p in ShortestPaths(g, from, to) ensures |p| - 1 == Dist(g, from, to) {
      ShortestPathNoDup(g, p, from, to);
    }
    if Dist(g, from, to) <= kMax {
      assert Elems(paths) == ShortestPaths(g, from, to);
    } else {
      assert Elems(paths) == {};
    }
  }
}
