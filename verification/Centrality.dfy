/**
  Betweenness, stress and distance-stress centralities, by Ulrik Brandes' algorithm.  The float
  accumulators are real numbers here.
 */
module Centrality {
  import opened Sequences
  import opened Sums
  import opened Wot
  import opened LinkPaths
  import opened BreadthFirst
  import opened Dependency
  import opened PathCounts

  datatype Kind = BetweennessKind | StressKind

  const U64_MAX: nat := 0xFFFF_FFFF_FFFF_FFFF

  /** `c as u64`: truncation that saturates at both ends. */
  function AsU64(c: real): (r: nat)
    ensures 0.0 <= c <= 0xFFFF_FFFF_FFFF_FFFF as real ==> r as real <= c < r as real + 1.0
    ensures c < 0.0 ==> r == 0
    ensures c > 0xFFFF_FFFF_FFFF_FFFF as real ==> r == 0xFFFF_FFFF_FFFF_FFFF
  {
    if c <= 0.0 then 0
    else if c >= U64_MAX as real then U64_MAX
    else c.Floor
  }

  /** `step_max as isize` on a 64-bit machine: the upper half of the range turns negative. */
  function AsIsize(x: nat): (i: int)
    requires x <= USIZE_MAX
    ensures -0x8000_0000_0000_0000 <= i < 0x8000_0000_0000_0000
    ensures i == x || i == x - 0x1_0000_0000_0000_0000
  {
    if x <= 0x7FFF_FFFF_FFFF_FFFF then x else x - USIZE_MAX - 1
  }

  /** The ceiling of a counter of 64 bits. */
  function Capped(n: nat): (c: nat)
    ensures c <= n && c <= 0xFFFF_FFFF_FFFF_FFFF && (c == n || c == 0xFFFF_FFFF_FFFF_FFFF)
  {
    if n <= U64_MAX then n else U64_MAX
  }

  // ---- what the centralities mean ----

  /** The fraction of the shortest paths from t to s that pass through v. */
  ghost function PairShare(g: seq<Node>, s: nat, t: nat, v: nat): real {
    if Counts(g, Unlimited, s, t, v) && Sigma(g, t, s) > 0
    then |Between(g, t, s, v)| as real / Sigma(g, t, s) as real
    else 0.0
  }

  ghost function RootShare(g: seq<Node>, v: nat, s: nat): real {
    Sum(|g|, (t: nat) => PairShare(g, s, t, v))
  }

  /** The sum of these fractions over all ordered pairs of ends. */
  ghost function Betweenness(g: seq<Node>, v: nat): real {
    Sum(|g|, (s: nat) => RootShare(g, v, s))
  }

  // ---- what the accumulation computes ----

  /** What an end t counts for in a search rooted at s. */
  ghost function WeightOf(g: seq<Node>, s: nat, kind: Kind, t: nat): real {
    if !Enabled(g, t) then 0.0
    else if kind.StressKind? then 1.0
    else if Sigma(g, t, s) > 0 then 1.0 / Sigma(g, t, s) as real
    else 0.0
  }

  ghost function Weight(g: seq<Node>, s: nat, kind: Kind): nat -> real {
    (t: nat) => WeightOf(g, s, kind, t)
  }

  ghost function Share(g: seq<Node>, h: Horizon, kind: Kind, s: nat, v: nat): real {
    if v != s then Dep(g, s, h, Weight(g, s, kind), v) else 0.0
  }

  ghost function EnabledShare(g: seq<Node>, h: Horizon, kind: Kind, v: nat, s: nat): real {
    if Enabled(g, s) then Share(g, h, kind, s, v) else 0.0
  }

  ghost function Accumulated(g: seq<Node>, h: Horizon, kind: Kind, v: nat): real {
    Sum(|g|, (s: nat) => EnabledShare(g, h, kind, v, s))
  }

  ghost function SharesFrom(g: seq<Node>, h: Horizon, kind: Kind, v: nat, roots: seq<nat>): real {
    if roots == [] then 0.0
    else SharesFrom(g, h, kind, v, roots[..|roots| - 1]) + Share(g, h, kind, roots[|roots| - 1], v)
  }

  lemma SharesSnoc(g: seq<Node>, h: Horizon, kind: Kind, v: nat, roots: seq<nat>, s: nat)
    ensures SharesFrom(g, h, kind, v, roots + [s]) == SharesFrom(g, h, kind, v, roots) + Share(g, h, kind, s, v)
  {
  }

  lemma {:induction false} SharesFromEnabled(g: seq<Node>, h: Horizon, kind: Kind, v: nat, n: nat, keep: Node -> bool)
    requires n <= |g| && forall node :: keep(node) <==> node.enabled
    ensures SharesFrom(g, h, kind, v, Select(g, n, keep)) == Sum(n, (s: nat) => EnabledShare(g, h, kind, v, s))
  {
    hide Share;
    if n > 0 {
      SharesFromEnabled(g, h, kind, v, n - 1, keep);
      SharesSnoc(g, h, kind, v, Select(g, n - 1, keep), n - 1);
    }
  }

  // ---- the backward phase ----

  /** What v receives from w when w is popped. */
  function Received(kind: Kind, enabled: bool, sigmaV: real, sigmaW: real, deltaW: real): real
    requires sigmaW > 0.0
  {
    match kind
    case BetweennessKind =>
      if enabled then (sigmaV / sigmaW) * (1.0 + deltaW) else (sigmaV / sigmaW) * deltaW
    case StressKind =>
      if enabled then sigmaV * (1.0 + (deltaW / sigmaW)) else sigmaV * (deltaW / sigmaW)
  }

  lemma Quotient(x: real, y: real, a: real)
    requires y > 0.0
    ensures (x / y) * (y * a) == x * a
    ensures (y * a) / y == a
    ensures x / y == x * (1.0 / y)
  {
  }

  lemma ReceivedIs(kind: Kind, enabled: bool, x: real, y: real, a: real)
    requires y > 0.0
    ensures Received(kind, enabled, x, y, y * a) ==
            x * ((if !enabled then 0.0 else if kind.StressKind? then 1.0 else 1.0 / y) + a)
  {
  }

  lemma HopReceived(g: seq<Node>, s: nat, h: Horizon, kind: Kind, v: nat, w: nat)
    requires w < |g| && Beyond(g, s, h, v, w)
    ensures Sigma(g, w, s) > 0
    ensures Received(kind, g[w].enabled, Sigma(g, v, s) as real, Sigma(g, w, s) as real,
                     Dep(g, s, h, Weight(g, s, kind), w))
            == Sigma(g, v, s) as real * HopTerm(g, s, h, Weight(g, s, kind), v, w)
  {
    hide Walks, Ahead, Received, Sigma, Seen;
    SigmaPositive(g, w, s);
    var f := Weight(g, s, kind);
    var x, y, a := Sigma(g, v, s) as real, Sigma(g, w, s) as real, Ahead(g, s, h, f, w);
    assert f(w) == WeightOf(g, s, kind, w);
    ReceivedIs(kind, g[w].enabled, x, y, a);
    assert Dep(g, s, h, f, w) == y * a;
    assert HopTerm(g, s, h, f, v, w) == f(w) + a;
  }

  /** The stack lists the nodes seen, once each, by increasing distance. */
  ghost predicate Stacked(g: seq<Node>, s: nat, h: Horizon, stack: seq<nat>) {
    && NoDup(stack)
    && (forall x: nat :: x in stack <==> Seen(g, s, h, x))
    && (forall i, j :: 0 <= i < j < |stack| ==> Dist(g, stack[i], s) <= Dist(g, stack[j], s))
  }

  lemma ForwardStacks(g: seq<Node>, s: nat, h: Horizon, b: Search)
    requires ForwardDone(g, s, h, b)
    ensures Stacked(g, s, h, b.stack) && |b.sigma| == |g|
  {
  }

  /** By the time w is popped, everything beyond it has been. */
  lemma FartherArePopped(g: seq<Node>, s: nat, h: Horizon, stack: seq<nat>, k: nat, w: nat)
    requires k < |stack| && Stacked(g, s, h, stack)
    requires Beyond(g, s, h, stack[k], w)
    ensures w in stack[k + 1..]
  {
  }

  ghost predicate DeltaIs(g: seq<Node>, s: nat, h: Horizon, f: nat -> real, popped: set<nat>, delta: seq<real>) {
    |delta| == |g| && forall v: nat :: v < |g| ==> delta[v] == Partial(g, s, h, f, popped, v)
  }

  /** During the handling of w, the nodes listed so far have received their part. */
  ghost predicate DeltaDuring(g: seq<Node>, s: nat, h: Horizon, f: nat -> real, popped: set<nat>, w: nat,
                              done: seq<nat>, delta: seq<real>) {
    && |delta| == |g|
    && forall v: nat :: v < |g| ==>
         delta[v] == Partial(g, s, h, f, popped, v)
                     + (if v in done then Sigma(g, v, s) as real * HopTerm(g, s, h, f, v, w) else 0.0)
  }

  lemma DeltaAfter(g: seq<Node>, s: nat, h: Horizon, f: nat -> real, popped: set<nat>, w: nat, hops: seq<nat>,
                   delta: seq<real>)
    requires w < |g| && w !in popped && Seen(g, s, h, w)
    requires forall v :: v in hops <==> StepsTo(g, s, w, v)
    requires DeltaDuring(g, s, h, f, popped, w, hops, delta)
    ensures DeltaIs(g, s, h, f, popped + {w}, delta)
  {
    hide Walks, Partial, Ahead, Sigma;
    forall v: nat | v < |g| ensures delta[v] == Partial(g, s, h, f, popped + {w}, v) {
      PartialStep(g, s, h, f, popped, v, w);
    }
  }

  lemma PoppedComplete(g: seq<Node>, s: nat, h: Horizon, f: nat -> real, stack: seq<nat>, k: nat, popped: set<nat>)
    requires k < |stack| && Stacked(g, s, h, stack)
    requires popped == Elems(stack[k + 1..])
    ensures Seen(g, s, h, stack[k]) && stack[k] < |g|
    ensures Partial(g, s, h, f, popped, stack[k]) == Dep(g, s, h, f, stack[k])
    ensures stack[k] !in popped
    ensures popped + {stack[k]} == Elems(stack[k..])
  {
    hide Walks, Partial, Dep, Dist;
    assert stack[k] in stack;
    SeenInRange(g, s, h, stack[k]);
    forall w: nat | Beyond(g, s, h, stack[k], w) ensures w in popped {
      FartherArePopped(g, s, h, stack, k, w);
    }
    PartialComplete(g, s, h, f, popped, stack[k]);
    assert stack[k..] == [stack[k]] + stack[k + 1..];
  }

  /** Centralities once the popped nodes have got their share. */
  ghost predicate SharedOut(g: seq<Node>, h: Horizon, kind: Kind, s: nat, popped: set<nat>,
                            initial: seq<real>, now: seq<real>)
  {
    && |initial| == |g| == |now|
    && forall v: nat :: v < |g| ==>
         now[v] == initial[v] + (if v in popped then Share(g, h, kind, s, v) else 0.0)
  }

  lemma SharedOutStep(g: seq<Node>, h: Horizon, kind: Kind, s: nat, popped: set<nat>,
                      initial: seq<real>, now: seq<real>, w: nat, deltaW: real)
    requires SharedOut(g, h, kind, s, popped, initial, now) && w < |g| && w !in popped
    requires deltaW == Dep(g, s, h, Weight(g, s, kind), w)
    ensures SharedOut(g, h, kind, s, popped + {w}, initial, if w != s then now[w := now[w] + deltaW] else now)
  {
    hide Dep;
  }

  lemma AllShared(g: seq<Node>, h: Horizon, kind: Kind, s: nat, stack: seq<nat>, popped: set<nat>,
                  initial: seq<real>, now: seq<real>)
    requires SharedOut(g, h, kind, s, popped, initial, now)
    requires Stacked(g, s, h, stack) && popped == Elems(stack)
    ensures |now| == |initial| == |g|
    ensures forall v: nat :: v < |g| ==> now[v] == initial[v] + Share(g, h, kind, s, v)
  {
    hide Dep, Dist;
    forall v: nat | v < |g| && v !in popped ensures Dep(g, s, h, Weight(g, s, kind), v) == 0.0 {
      DepUnseen(g, s, h, Weight(g, s, kind), v);
    }
  }

  lemma NothingPopped(g: seq<Node>, s: nat, h: Horizon, kind: Kind, delta: seq<real>, initial: seq<real>)
    requires |delta| == |g| == |initial| && forall v: nat :: v < |g| ==> delta[v] == 0.0
    ensures DeltaIs(g, s, h, Weight(g, s, kind), {}, delta)
    ensures SharedOut(g, h, kind, s, {}, initial, initial)
    ensures Elems<nat>([]) == {}
  {
    hide Partial, Share;
    forall v: nat | v < |g| ensures delta[v] == Partial(g, s, h, Weight(g, s, kind), {}, v) {
      PartialNothing(g, s, h, Weight(g, s, kind), v);
    }
  }

  method BackwardPhase(wot: RustyWebOfTrust, enabledNodes: seq<nat>, s: nat, h: Horizon, kind: Kind,
                       stack0: seq<nat>, paths: map<nat, seq<nat>>, sigma: seq<real>, ghost d: seq<int>,
                       centralities: array<real>)
    requires s < |wot.nodes| && InRange(wot.nodes)
    requires forall x: nat :: x in enabledNodes <==> Enabled(wot.nodes, x)
    requires ForwardDone(wot.nodes, s, h, Search(stack0, [], d, sigma, paths))
    requires centralities.Length == |wot.nodes|
    modifies centralities
    ensures forall v: nat :: v < centralities.Length ==>
              centralities[v] == old(centralities[v]) + Share(wot.nodes, h, kind, s, v)
  {
    hide Walks, Partial, Dep, Dist, Share, Sigma, ForwardDone, Stacked, Seen;
    var size := |wot.nodes|;
    ghost var g := wot.nodes;
    ForwardStacks(g, s, h, Search(stack0, [], d, sigma, paths));
    ghost var f := Weight(g, s, kind);
    ghost var popped: set<nat> := {};
    ghost var initial := centralities[..];
    var delta := new real[size](_ => 0.0);
    var stack := stack0;
    NothingPopped(g, s, h, kind, delta[..], initial);
    assert stack0[|stack0|..] == [];
    hide DeltaIs, SharedOut, Weight, Elems;
    while stack != []
      invariant wot.nodes == g
      invariant |stack| <= |stack0| && stack == stack0[..|stack|] && popped == Elems(stack0[|stack|..])
      invariant DeltaIs(g, s, h, f, popped, delta[..])
      invariant SharedOut(g, h, kind, s, popped, initial, centralities[..])
      decreases |stack|
    {
      var w := stack[|stack| - 1];
      stack := stack[..|stack| - 1];
      assert w == stack0[|stack|];
      assert stack == stack0[..|stack|];
      PoppedComplete(g, s, h, f, stack0, |stack|, popped);
      ReverseStep(wot, enabledNodes, s, h, kind, stack0, paths, sigma, d, popped, w, delta);
      TakeShare(g, h, kind, s, popped, initial, w, delta[w], centralities);
      popped := popped + {w};
    }
    assert stack0[0..] == stack0;
    assert popped == Elems(stack0);
    AllShared(g, h, kind, s, stack0, popped, initial, centralities[..]);
  }

  /** What a popped node has received is its share of this pass. */
  method TakeShare(ghost g: seq<Node>, h: Horizon, kind: Kind, s: nat, ghost popped: set<nat>,
                   ghost initial: seq<real>, w: nat, received: real, centralities: array<real>)
    requires w < |g| && w !in popped && received == Dep(g, s, h, Weight(g, s, kind), w)
    requires SharedOut(g, h, kind, s, popped, initial, centralities[..])
    modifies centralities
    ensures SharedOut(g, h, kind, s, popped + {w}, initial, centralities[..])
  {
    assert centralities.Length == |g| by {
      assert |centralities[..]| == |g|;
    }
    hide *;
    ghost var now := centralities[..];
    SharedOutStep(g, h, kind, s, popped, initial, now, w, received);
    if w != s {
      centralities[w] := centralities[w] + received;
      assert centralities[..] == now[w := now[w] + received];
    }
  }

  lemma DuringStart(g: seq<Node>, s: nat, h: Horizon, f: nat -> real, popped: set<nat>, w: nat, delta: seq<real>)
    requires DeltaIs(g, s, h, f, popped, delta)
    ensures DeltaDuring(g, s, h, f, popped, w, [], delta)
  {
  }

  /** Hand down what w has received to the nodes before it. */
  method ReverseStep(wot: RustyWebOfTrust, enabledNodes: seq<nat>, s: nat, h: Horizon, kind: Kind,
                     ghost stack0: seq<nat>, paths: map<nat, seq<nat>>, sigma: seq<real>, ghost d: seq<int>,
                     ghost popped: set<nat>, w: nat, delta: array<real>)
    requires forall x: nat :: x in enabledNodes <==> Enabled(wot.nodes, x)
    requires ForwardDone(wot.nodes, s, h, Search(stack0, [], d, sigma, paths))
    requires w < |wot.nodes| && w !in popped && Seen(wot.nodes, s, h, w)
    requires DeltaIs(wot.nodes, s, h, Weight(wot.nodes, s, kind), popped, delta[..])
    requires Partial(wot.nodes, s, h, Weight(wot.nodes, s, kind), popped, w) ==
             Dep(wot.nodes, s, h, Weight(wot.nodes, s, kind), w)
    modifies delta
    ensures DeltaIs(wot.nodes, s, h, Weight(wot.nodes, s, kind), popped + {w}, delta[..])
    ensures delta[w] == old(delta[w]) == Dep(wot.nodes, s, h, Weight(wot.nodes, s, kind), w)
  {
    hide Walks, Partial, Dep, Dist, Sigma, HopTerm, DeltaDuring, Weight;
    ghost var g := wot.nodes;
    ghost var f := Weight(g, s, kind);
    DuringStart(g, s, h, f, popped, w, delta[..]);
    ListedHops(g, s, h, kind, stack0, paths, sigma, d, w);
    hide ForwardDone, Seen, StepsTo;
    if w in paths {
      var listed := paths[w];
      for i := 0 to |listed|
        invariant wot.nodes == g
        invariant DeltaDuring(g, s, h, f, popped, w, listed[..i], delta[..])
        invariant delta[w] == old(delta[w])
      {
        var v := listed[i];
        assert v in PathsOf(paths, w);
        ghost var before := delta[..];
        if w in enabledNodes {
          if kind.BetweennessKind? {
            delta[v] := delta[v] + (sigma[v] / sigma[w]) * (1.0 + delta[w]);
          } else {
            delta[v] := delta[v] + sigma[v] * (1.0 + (delta[w] / sigma[w]));
          }
        } else {
          if kind.BetweennessKind? {
            delta[v] := delta[v] + (sigma[v] / sigma[w]) * delta[w];
          } else {
            delta[v] := delta[v] + sigma[v] * (delta[w] / sigma[w]);
          }
        }
        assert delta[v] == before[v] + Received(kind, g[w].enabled, sigma[v], sigma[w], before[w]);
        DuringStep(g, s, h, f, popped, w, listed, i, before, delta[..]);
      }
      assert listed[..|listed|] == listed;
    }
    DeltaAfter(g, s, h, f, popped, w, PathsOf(paths, w), delta[..]);
  }

  /** What the forward phase listed under w, as the backward phase uses it. */
  lemma ListedHops(g: seq<Node>, s: nat, h: Horizon, kind: Kind, stack: seq<nat>, paths: map<nat, seq<nat>>,
                   sigma: seq<real>, d: seq<int>, w: nat)
    requires ForwardDone(g, s, h, Search(stack, [], d, sigma, paths)) && w < |g| && Seen(g, s, h, w)
    ensures |sigma| == |g| && sigma[w] > 0.0
    ensures NoDup(PathsOf(paths, w))
    ensures forall v :: v in PathsOf(paths, w) <==> StepsTo(g, s, w, v)
    ensures forall v :: v in PathsOf(paths, w) ==> v < |g| && v != w
    ensures forall v :: v in PathsOf(paths, w) ==>
              Received(kind, g[w].enabled, sigma[v], sigma[w], Dep(g, s, h, Weight(g, s, kind), w))
              == Sigma(g, v, s) as real * HopTerm(g, s, h, Weight(g, s, kind), v, w)
  {
    hide Walks, Dist, Sigma, HopTerm, Dep, Received, Weight;
    var b := Search(stack, [], d, sigma, paths);
    assert FinalAt(g, s, h, b, w);
    SeenReaches(g, s, h, w);
    SigmaPositive(g, w, s);
    forall v | v in PathsOf(paths, w)
      ensures v < |g| && v != w
      ensures Received(kind, g[w].enabled, sigma[v], sigma[w], Dep(g, s, h, Weight(g, s, kind), w))
              == Sigma(g, v, s) as real * HopTerm(g, s, h, Weight(g, s, kind), v, w)
    {
      SeenBelow(g, s, h, v, w);
      assert FinalAt(g, s, h, b, v);
      HopReceived(g, s, h, kind, v, w);
    }
  }

  lemma SeenInRange(g: seq<Node>, s: nat, h: Horizon, w: nat)
    requires Seen(g, s, h, w)
    ensures w < |g|
  {
  }

  lemma SeenBelow(g: seq<Node>, s: nat, h: Horizon, v: nat, w: nat)
    requires Seen(g, s, h, w) && StepsTo(g, s, w, v)
    ensures Seen(g, s, h, v) && v < |g| && v != w
  {
  }

  lemma DuringStep(g: seq<Node>, s: nat, h: Horizon, f: nat -> real, popped: set<nat>, w: nat,
                   listed: seq<nat>, i: nat, before: seq<real>, after: seq<real>)
    requires i < |listed| && NoDup(listed) && listed[i] < |g|
    requires DeltaDuring(g, s, h, f, popped, w, listed[..i], before)
    requires |after| == |before| == |g|
    requires forall v: nat :: v < |g| && v != listed[i] ==> after[v] == before[v]
    requires after[listed[i]] == before[listed[i]] + Sigma(g, listed[i], s) as real * HopTerm(g, s, h, f, listed[i], w)
    ensures DeltaDuring(g, s, h, f, popped, w, listed[..i + 1], after)
  {
    hide Walks, Partial, HopTerm, Sigma;
    assert listed[..i + 1] == listed[..i] + [listed[i]];
    assert listed[i] !in listed[..i];
  }

  lemma AllRootsAccumulated(g: seq<Node>, h: Horizon, kind: Kind, v: nat)
    ensures SharesFrom(g, h, kind, v, EnabledIds(g)) == Accumulated(g, h, kind, v)
  {
    SharesFromEnabled(g, h, kind, v, |g|, (node: Node) => node.enabled);
  }

  lemma OneMoreRoot(g: seq<Node>, h: Horizon, kind: Kind, v: nat, roots: seq<nat>, i: nat)
    requires i < |roots|
    ensures SharesFrom(g, h, kind, v, roots[..i + 1]) ==
            SharesFrom(g, h, kind, v, roots[..i]) + Share(g, h, kind, roots[i], v)
  {
    hide Share;
    assert roots[..i + 1][..i] == roots[..i];
  }

  /** The loop over the enabled roots. */
  method Accumulate(wot: RustyWebOfTrust, h: Horizon, kind: Kind) returns (totals: seq<real>)
    requires InRange(wot.nodes)
    ensures |totals| == |wot.nodes|
    ensures forall v: nat :: v < |totals| ==> totals[v] == Accumulated(wot.nodes, h, kind, v)
  {
    hide Walks, Dist, Share, Sigma, ForwardDone, Accumulated;
    var size := |wot.nodes|;
    ghost var g := wot.nodes;
    var centralities := new real[size](_ => 0.0);
    var enabledNodes := EnabledIds(wot.nodes);
    for i := 0 to |enabledNodes|
      invariant wot.nodes == g
      invariant forall v: nat :: v < size ==> centralities[v] == SharesFrom(g, h, kind, v, enabledNodes[..i])
    {
      var s := enabledNodes[i];
      assert s in enabledNodes;
      var stack, paths, sigma, d := ForwardPhase(wot, s, h);
      BackwardPhase(wot, enabledNodes, s, h, kind, stack, paths, sigma, d, centralities);
      forall v: nat | v < size ensures centralities[v] == SharesFrom(g, h, kind, v, enabledNodes[..i + 1]) {
        OneMoreRoot(g, h, kind, v, enabledNodes, i);
      }
    }
    assert enabledNodes[..|enabledNodes|] == enabledNodes;
    totals := centralities[..];
    forall v: nat | v < size ensures totals[v] == Accumulated(g, h, kind, v) {
      AllRootsAccumulated(g, h, kind, v);
    }
  }

  method BetweennessCentralities(wot: RustyWebOfTrust) returns (r: seq<nat>)
    requires InRange(wot.nodes)
    ensures |r| == |wot.nodes|
    ensures forall v: nat :: v < |r| ==> r[v] == AsU64(Betweenness(wot.nodes, v))
  {
    var totals := Accumulate(wot, Unlimited, BetweennessKind);
    r := seq(|totals|, i requires 0 <= i < |totals| => AsU64(totals[i]));
    forall v: nat | v < |r| ensures r[v] == AsU64(Betweenness(wot.nodes, v)) {
      AccumulatedIsBetweenness(wot.nodes, v);
    }
  }

  method StressCentralities(wot: RustyWebOfTrust) returns (r: seq<nat>)
    requires InRange(wot.nodes)
    ensures |r| == |wot.nodes|
    ensures forall v: nat :: v < |r| ==>
              r[v] == if Stress(wot.nodes, Unlimited, v) <= U64_MAX then Stress(wot.nodes, Unlimited, v) else U64_MAX
    ensures forall v: nat :: v < |r| ==> r[v] == Capped(|PathsThrough(wot.nodes, Unlimited, v)|)
  {
    var totals := Accumulate(wot, Unlimited, StressKind);
    r := seq(|totals|, i requires 0 <= i < |totals| => AsU64(totals[i]));
    forall v: nat | v < |r|
      ensures AsU64(totals[v]) ==
              if Stress(wot.nodes, Unlimited, v) <= U64_MAX then Stress(wot.nodes, Unlimited, v) else U64_MAX
      ensures Stress(wot.nodes, Unlimited, v) == |PathsThrough(wot.nodes, Unlimited, v)|
    {
      AccumulatedIsStress(wot.nodes, Unlimited, v);
      StressCountsPaths(wot.nodes, Unlimited, v);
    }
  }

  method DistanceStressCentralities(wot: RustyWebOfTrust, stepMax: nat) returns (r: seq<nat>)
    requires InRange(wot.nodes) && stepMax <= USIZE_MAX
    ensures |r| == |wot.nodes|
    ensures forall v: nat :: v < |r| ==> var paths := Stress(wot.nodes, Steps(AsIsize(stepMax)), v);
              r[v] == if paths <= U64_MAX then paths else U64_MAX
    ensures stepMax < 0x8000_0000_0000_0000 ==>
              forall v: nat :: v < |r| ==> r[v] == Capped(|PathsThrough(wot.nodes, Steps(stepMax), v)|)
    ensures stepMax >= 0x8000_0000_0000_0000 ==> forall v: nat :: v < |r| ==> r[v] == 0
  {
    hide Stress, Accumulated, PathsThrough;
    var h := Steps(AsIsize(stepMax));
    var totals := Accumulate(wot, h, StressKind);
    r := seq(|totals|, i requires 0 <= i < |totals| => AsU64(totals[i]));
    forall v: nat | v < |r|
      ensures AsU64(totals[v]) == if Stress(wot.nodes, h, v) <= U64_MAX then Stress(wot.nodes, h, v) else U64_MAX
      ensures Stress(wot.nodes, h, v) == |PathsThrough(wot.nodes, h, v)|
      ensures h.max < 0 ==> |PathsThrough(wot.nodes, h, v)| == 0
    {
      AccumulatedIsStress(wot.nodes, h, v);
      StressCountsPaths(wot.nodes, h, v);
      if h.max < 0 {
        NothingThrough(wot.nodes, h, v);
      }
    }
  }

  /** No path has a negative number of links. */
  lemma NothingThrough(g: seq<Node>, h: Horizon, v: nat)
    requires h.Steps? && h.max < 0
    ensures PathsThrough(g, h, v) == {}
  {
  }

  // ---- the accumulated totals count paths ----

  /** v's part in the traffic from t to s. */
  ghost function Traffic(g: seq<Node>, h: Horizon, kind: Kind, s: nat, t: nat, v: nat): real {
    if Counts(g, h, s, t, v) then |Between(g, t, s, v)| as real * WeightOf(g, s, kind, t) else 0.0
  }

  lemma TermIsTraffic(g: seq<Node>, h: Horizon, kind: Kind, s: nat, t: nat, v: nat)
    requires Enabled(g, s) && v != s
    ensures Sigma(g, v, s) as real * AheadTerm(g, s, h, Weight(g, s, kind), v, t) == Traffic(g, h, kind, s, t, v)
  {
    hide Walks, Sigma, Between, Seen;
    if t != v && Seen(g, s, h, t) {
      BetweenCount(g, s, t, v);
      Regroup(Sigma(g, v, s), Cont(g, s, t, v), WeightOf(g, s, kind, t));
      if t == s {
        NothingPastRoot(g, s, v);
      }
    }
  }

  lemma Regroup(a: nat, b: nat, c: real)
    ensures a as real * (b as real * c) == (b * a) as real * c
  {
  }

  lemma NothingPastRoot(g: seq<Node>, s: nat, v: nat)
    requires s < |g| && v != s
    ensures Cont(g, s, s, v) == 0
  {
    DistSelf(g, s, s);
    DistSpec(g, v, s);
  }

  lemma ShareIsTraffic(g: seq<Node>, h: Horizon, kind: Kind, s: nat, v: nat)
    requires Enabled(g, s)
    ensures Share(g, h, kind, s, v) == Sum(|g|, (t: nat) => Traffic(g, h, kind, s, t, v))
  {
    hide Walks, Sigma, AheadTerm, Traffic, Sum;
    var traffic := (t: nat) => Traffic(g, h, kind, s, t, v);
    var f := Weight(g, s, kind);
    if v == s {
      forall t: nat ensures traffic(t) == 0.0 {
        NoTrafficAtRoot(g, h, kind, s, t);
      }
      SumZero(|g|, traffic);
    } else {
      forall t: nat ensures traffic(t) == Sigma(g, v, s) as real * AheadTerm(g, s, h, f, v, t) {
        TermIsTraffic(g, h, kind, s, t, v);
      }
      SumScale(|g|, Sigma(g, v, s) as real, (t: nat) => AheadTerm(g, s, h, f, v, t), traffic);
    }
  }

  lemma NoTrafficAtRoot(g: seq<Node>, h: Horizon, kind: Kind, s: nat, t: nat)
    ensures Traffic(g, h, kind, s, t, s) == 0.0
  {
  }

  lemma AccumulatedIsBetweenness(g: seq<Node>, v: nat)
    ensures Accumulated(g, Unlimited, BetweennessKind, v) == Betweenness(g, v)
  {
    hide Walks, Sigma, Sum, EnabledShare, RootShare;
    forall s: nat ensures EnabledShare(g, Unlimited, BetweennessKind, v, s) == RootShare(g, v, s) {
      EnabledShareIsPairShares(g, v, s);
    }
    SumEq(|g|, (s: nat) => EnabledShare(g, Unlimited, BetweennessKind, v, s), (s: nat) => RootShare(g, v, s));
  }

  lemma TrafficIsPairShare(g: seq<Node>, s: nat, t: nat, v: nat)
    ensures Traffic(g, Unlimited, BetweennessKind, s, t, v) == PairShare(g, s, t, v)
  {
  }

  lemma SeenReaches(g: seq<Node>, s: nat, h: Horizon, t: nat)
    requires Seen(g, s, h, t)
    ensures Dist(g, t, s) >= 0
  {
  }

  lemma EnabledShareIsPairShares(g: seq<Node>, v: nat, s: nat)
    ensures EnabledShare(g, Unlimited, BetweennessKind, v, s) == RootShare(g, v, s)
  {
    hide Walks, Sigma, Sum, Share, Traffic, Between, Seen;
    if Enabled(g, s) {
      ShareIsTraffic(g, Unlimited, BetweennessKind, s, v);
      forall t: nat ensures Traffic(g, Unlimited, BetweennessKind, s, t, v) == PairShare(g, s, t, v) {
        TrafficIsPairShare(g, s, t, v);
      }
      SumEq(|g|, (t: nat) => Traffic(g, Unlimited, BetweennessKind, s, t, v), (t: nat) => PairShare(g, s, t, v));
    } else {
      SumZero(|g|, (t: nat) => PairShare(g, s, t, v));
    }
  }

  lemma EnabledShareIsCount(g: seq<Node>, h: Horizon, v: nat, s: nat)
    ensures EnabledShare(g, h, StressKind, v, s) == RootCount(g, h, v, s) as real
  {
    hide Walks, Sigma, Sum, SumNat, Share, Between, Seen;
    var counts := (t: nat) => PairCount(g, h, s, t, v);
    var reals := (t: nat) => PairCount(g, h, s, t, v) as real;
    SumOfNats(|g|, counts, reals);
    if Enabled(g, s) {
      ShareIsTraffic(g, h, StressKind, s, v);
      SumEq(|g|, (t: nat) => Traffic(g, h, StressKind, s, t, v), reals);
    } else {
      SumZero(|g|, reals);
    }
  }

  /** The stress totals are whole numbers, so the final cast loses nothing below its ceiling. */
  lemma AccumulatedIsStress(g: seq<Node>, h: Horizon, v: nat)
    ensures Accumulated(g, h, StressKind, v) == Stress(g, h, v) as real
    ensures AsU64(Stress(g, h, v) as real) == if Stress(g, h, v) <= U64_MAX then Stress(g, h, v) else U64_MAX
  {
    hide Walks, Sum, SumNat, RootCount, EnabledShare;
    var perRoot := (s: nat) => RootCount(g, h, v, s);
    forall s: nat ensures EnabledShare(g, h, StressKind, v, s) == perRoot(s) as real {
      EnabledShareIsCount(g, h, v, s);
    }
    SumOfNats(|g|, perRoot, (s: nat) => EnabledShare(g, h, StressKind, v, s));
  }
}
