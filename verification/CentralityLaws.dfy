/** Laws of the centralities: conservation of path traffic, and how the bounded variant relates to
    the unbounded one. */
module CentralityLaws {
  import opened Sequences
  import opened Sums
  import opened Wot
  import opened LinkPaths
  import opened BreadthFirst
  import opened Dependency
  import opened PathCounts
  import opened Centrality

  // ---- conservation ----

  /** The enabled nodes, other than s, that reach s. */
  ghost function Reaching(g: seq<Node>, s: nat): set<nat> {
    set t: nat | t < |g| && Enabled(g, t) && t != s && Dist(g, t, s) >= 0
  }

  lemma RootTerm(g: seq<Node>, s: nat, t: nat)
    requires s < |g| && t < |g|
    ensures AheadTerm(g, s, Unlimited, Weight(g, s, BetweennessKind), s, t) == Indicator(t in Reaching(g, s)) as real
  {
    hide Walks, Dist;
    DistSelf(g, s, s);
    SigmaPositive(g, t, s);
    if Dist(g, t, s) >= 0 {
      assert Cont(g, s, t, s) == Sigma(g, t, s);
      Quotient(1.0, Sigma(g, t, s) as real, 1.0);
    }
  }

  /** What the root itself has accumulated at the end of a betweenness pass: one for every enabled
      node that reaches it. */
  lemma DeltaAtRoot(g: seq<Node>, s: nat)
    requires s < |g|
    ensures Dep(g, s, Unlimited, Weight(g, s, BetweennessKind), s) == |Reaching(g, s)| as real
  {
    hide Walks, Dist, AheadTerm, Sigma;
    var f := Weight(g, s, BetweennessKind);
    var ones := (t: nat) => Indicator(t in Reaching(g, s));
    SigmaSelf(g, s);
    forall t: nat | t < |g| ensures AheadTerm(g, s, Unlimited, f, s, t) == ones(t) as real {
      RootTerm(g, s, t);
    }
    SumOfNats(|g|, ones, (t: nat) => AheadTerm(g, s, Unlimited, f, s, t));
    SumIndicator(|g|, Reaching(g, s));
    SumNatEq(|g|, ones, i => Indicator(i in Reaching(g, s)));
    assert Reaching(g, s) == set i: nat | i < |g| && i in Reaching(g, s);
  }

  ghost function PassingThrough(paths: set<seq<nat>>, t: nat, s: nat, v: nat): set<seq<nat>> {
    set p | p in paths && v in p && v != t && v != s
  }

  ghost function Inner(p: seq<nat>, t: nat, s: nat): set<nat> {
    Elems(p) - {t, s}
  }

  lemma OneMorePath(paths: set<seq<nat>>, p: seq<nat>, t: nat, s: nat, v: nat)
    requires p !in paths
    ensures |PassingThrough(paths + {p}, t, s, v)| ==
            |PassingThrough(paths, t, s, v)| + Indicator(v in Inner(p, t, s))
  {
    if v in Inner(p, t, s) {
      assert PassingThrough(paths + {p}, t, s, v) == PassingThrough(paths, t, s, v) + {p};
    } else {
      assert PassingThrough(paths + {p}, t, s, v) == PassingThrough(paths, t, s, v);
    }
  }

  /** A path of k + 2 distinct nodes has k nodes strictly inside. */
  lemma InnerCount(p: seq<nat>, t: nat, s: nat, n: nat)
    requires NoDup(p) && |p| >= 2 && p[0] == t && p[|p| - 1] == s
    requires forall i :: 0 <= i < |p| ==> p[i] < n
    ensures SumNat(n, (v: nat) => Indicator(v in Inner(p, t, s))) == |p| - 2
  {
    var inner := Inner(p, t, s);
    NoDupCardinality(p);
    assert Elems(p) == inner + {t, s};
    assert t != s;
    assert |{t, s}| == 2;
    SumIndicator(n, inner);
    SumNatEq(n, (v: nat) => Indicator(v in inner), i => Indicator(i in inner));
    assert inner == set i: nat | i < n && i in inner;
  }

  lemma LongEnough(g: seq<Node>, p: seq<nat>, t: nat, s: nat)
    requires p in ShortestPaths(g, t, s) && t != s
    ensures |p| >= 2
  {
    hide Walks, Dist;
    DistSelf(g, t, s);
    ShortestPathNoDup(g, p, t, s);
  }

  lemma NoVisits(n: nat, t: nat, s: nat)
    ensures SumNat(n, (v: nat) => |PassingThrough({}, t, s, v)|) == 0
  {
    hide SumNat;
    forall v: nat ensures |PassingThrough({}, t, s, v)| == 0 {
      assert PassingThrough({}, t, s, v) == {};
    }
    SumNatEq(n, (v: nat) => |PassingThrough({}, t, s, v)|, (w: nat) => 0);
    SumNatOfZeros(n);
  }

  lemma VisitsOfOneMore(paths: set<seq<nat>>, p: seq<nat>, t: nat, s: nat, n: nat)
    requires p !in paths
    ensures SumNat(n, (v: nat) => |PassingThrough(paths + {p}, t, s, v)|) ==
            SumNat(n, (v: nat) => |PassingThrough(paths, t, s, v)|) +
            SumNat(n, (v: nat) => Indicator(v in Inner(p, t, s)))
  {
    hide SumNat, PassingThrough, Inner;
    forall v: nat ensures |PassingThrough(paths + {p}, t, s, v)| ==
                          |PassingThrough(paths, t, s, v)| + Indicator(v in Inner(p, t, s)) {
      OneMorePath(paths, p, t, s, v);
    }
    SumNatPlus(n, (v: nat) => |PassingThrough(paths, t, s, v)|, (v: nat) => Indicator(v in Inner(p, t, s)),
               (v: nat) => |PassingThrough(paths + {p}, t, s, v)|);
  }

  ghost function Visits(paths: set<seq<nat>>, t: nat, s: nat, n: nat): nat {
    SumNat(n, (v: nat) => |PassingThrough(paths, t, s, v)|)
  }

  lemma VisitsStep(g: seq<Node>, paths: set<seq<nat>>, p: seq<nat>, t: nat, s: nat)
    requires t != s && p !in paths && p in ShortestPaths(g, t, s)
    ensures Visits(paths + {p}, t, s, |g|) == Visits(paths, t, s, |g|) + Dist(g, t, s) - 1
  {
    hide Walks, Dist, ShortestPaths, SumNat;
    ShortestPathNoDup(g, p, t, s);
    LongEnough(g, p, t, s);
    InnerCount(p, t, s, |g|);
    VisitsOfOneMore(paths, p, t, s, |g|);
  }

  /** Any set of shortest paths visits inner nodes as often as it has inner places. */
  lemma {:induction false} InnerVisits(g: seq<Node>, paths: set<seq<nat>>, t: nat, s: nat)
    requires t != s && paths <= ShortestPaths(g, t, s)
    ensures Visits(paths, t, s, |g|) == |paths| * (Dist(g, t, s) - 1)
    decreases |paths|
  {
    hide Walks, Dist, ShortestPaths;
    if paths == {} {
      NoVisits(|g|, t, s);
    } else {
      hide Visits;
      var p :| p in paths;
      var rest := paths - {p};
      InnerVisits(g, rest, t, s);
      VisitsStep(g, rest, p, t, s);
      assert paths == rest + {p};
      ProductStep(|rest|, Dist(g, t, s) - 1);
    }
  }

  lemma BetweenVisits(g: seq<Node>, t: nat, s: nat)
    requires t != s && Dist(g, t, s) >= 0
    ensures SumNat(|g|, (v: nat) => |Between(g, t, s, v)|) == Sigma(g, t, s) * (Dist(g, t, s) - 1)
  {
    hide Walks, Dist;
    var paths := ShortestPaths(g, t, s);
    InnerVisits(g, paths, t, s);
    forall v: nat ensures |PassingThrough(paths, t, s, v)| == |Between(g, t, s, v)| {
      assert PassingThrough(paths, t, s, v) == Between(g, t, s, v);
    }
    SumNatEq(|g|, (v: nat) => |PassingThrough(paths, t, s, v)|, (v: nat) => |Between(g, t, s, v)|);
  }

  /** The inner places on a shortest path from t. */
  ghost function InnerPlaces(g: seq<Node>, s: nat, t: nat): real {
    if t in Reaching(g, s) then (Dist(g, t, s) - 1) as real else 0.0
  }

  lemma TargetTraffic(g: seq<Node>, s: nat, t: nat)
    requires Enabled(g, s) && t < |g|
    ensures Sum(|g|, (v: nat) => Traffic(g, Unlimited, BetweennessKind, s, t, v)) == InnerPlaces(g, s, t)
  {
    hide Walks, Dist, Between, Sigma, Sum, SumNat;
    var traffic := (v: nat) => Traffic(g, Unlimited, BetweennessKind, s, t, v);
    if t in Reaching(g, s) {
      SigmaPositive(g, t, s);
      var counts := (v: nat) => |Between(g, t, s, v)|;
      var share := 1.0 / Sigma(g, t, s) as real;
      var reals := (v: nat) => |Between(g, t, s, v)| as real;
      forall v: nat ensures traffic(v) == share * reals(v) {
        NothingBetweenEnds(g, t, s, v);
      }
      SumScale(|g|, share, reals, traffic);
      SumOfNats(|g|, counts, reals);
      BetweenVisits(g, t, s);
      DistSelf(g, t, s);
      Cancel(Sigma(g, t, s), Dist(g, t, s) - 1);
    } else {
      SumZero(|g|, traffic);
    }
  }

  lemma NothingBetweenEnds(g: seq<Node>, t: nat, s: nat, v: nat)
    ensures v == t || v == s ==> |Between(g, t, s, v)| == 0
  {
  }

  lemma Cancel(a: nat, b: int)
    requires a > 0
    ensures (1.0 / a as real) * (a * b) as real == b as real
  {
  }

  /** Conservation: the dependencies of one betweenness pass, over all nodes but the root, add up to
      the inner places of the shortest paths of the enabled nodes that reach the root. */
  lemma TrafficConserved(g: seq<Node>, s: nat)
    requires Enabled(g, s)
    ensures Sum(|g|, (v: nat) => Share(g, Unlimited, BetweennessKind, s, v)) ==
            Sum(|g|, (t: nat) => InnerPlaces(g, s, t))
  {
    hide Walks, Dist, Share, Traffic, Sum, InnerPlaces;
    var n := |g|;
    var traffic := (t: nat, v: nat) => Traffic(g, Unlimited, BetweennessKind, s, t, v);
    SumSwap(n, n, traffic);
    forall t: nat | t < n ensures RowSum(traffic, n, t) == InnerPlaces(g, s, t) {
      TargetTraffic(g, s, t);
      SumEq(n, (v: nat) => traffic(t, v), (v: nat) => Traffic(g, Unlimited, BetweennessKind, s, t, v));
    }
    forall v: nat ensures ColumnSum(traffic, n, v) == Share(g, Unlimited, BetweennessKind, s, v) {
      ShareIsTraffic(g, Unlimited, BetweennessKind, s, v);
      SumEq(n, (t: nat) => traffic(t, v), (t: nat) => Traffic(g, Unlimited, BetweennessKind, s, t, v));
    }
    SumEq(n, (t: nat) => RowSum(traffic, n, t), (t: nat) => InnerPlaces(g, s, t));
    SumEq(n, (v: nat) => ColumnSum(traffic, n, v), (v: nat) => Share(g, Unlimited, BetweennessKind, s, v));
  }

  // ---- the bounded variant ----

  /** `Steps(m)` lets exactly the paths of at most m links through. */
  lemma HorizonIsLength(g: seq<Node>, s: nat, t: nat, m: int)
    requires t != s
    ensures Seen(g, s, Steps(m), t) <==> 0 < Dist(g, t, s) <= m
  {
  }

  lemma StressEq(g: seq<Node>, h: Horizon, h': Horizon, v: nat)
    requires forall s: nat, t: nat :: s != t ==> (Seen(g, s, h, t) <==> Seen(g, s, h', t))
    ensures Stress(g, h, v) == Stress(g, h', v)
  {
    hide Walks, Dist, Seen, SumNat, Between;
    forall s: nat ensures RootCount(g, h, v, s) == RootCount(g, h', v, s) {
      SumNatEq(|g|, (t: nat) => PairCount(g, h, s, t, v), (t: nat) => PairCount(g, h', s, t, v));
    }
    SumNatEq(|g|, (s: nat) => RootCount(g, h, v, s), (s: nat) => RootCount(g, h', v, s));
  }

  /** A bound no smaller than the graph bounds nothing. */
  lemma WideHorizonIsUnlimited(g: seq<Node>, m: nat, v: nat)
    requires m >= |g|
    ensures Stress(g, Steps(m), v) == Stress(g, Unlimited, v)
  {
    hide Walks, Dist, Stress;
    forall s: nat, t: nat | s != t ensures Seen(g, s, Steps(m), t) <==> Seen(g, s, Unlimited, t) {
      DistBound(g, t, s);
    }
    StressEq(g, Steps(m), Unlimited, v);
  }

  lemma NegativeHorizonIsBlind(g: seq<Node>, m: int, v: nat)
    requires m <= 0
    ensures Stress(g, Steps(m), v) == 0
  {
    hide Walks, Dist, SumNat, Between;
    forall s: nat ensures RootCount(g, Steps(m), v, s) == 0 {
      forall t: nat ensures PairCount(g, Steps(m), s, t, v) == 0 {
        if t != s {
          HorizonIsLength(g, s, t, m);
        }
      }
      SumNatEq(|g|, (t: nat) => PairCount(g, Steps(m), s, t, v), (w: nat) => 0);
      SumNatOfZeros(|g|);
    }
    SumNatEq(|g|, (s: nat) => RootCount(g, Steps(m), v, s), (w: nat) => 0);
    SumNatOfZeros(|g|);
  }

  /** From the size of the graph on, the bounded variant is the unbounded one, if and only if the
      bound survives the cast to a signed word (or there is nothing to count). */
  lemma BoundedEqualsUnboundedIff(g: seq<Node>, stepMax: nat)
    requires |g| <= stepMax <= USIZE_MAX
    ensures (forall v: nat :: v < |g| ==> Stress(g, Steps(AsIsize(stepMax)), v) == Stress(g, Unlimited, v)) <==>
            stepMax <= 0x7FFF_FFFF_FFFF_FFFF || forall v: nat :: v < |g| ==> Stress(g, Unlimited, v) == 0
  {
    hide Stress;
    var m := AsIsize(stepMax);
    forall v: nat
      ensures Stress(g, Steps(m), v) == if stepMax <= 0x7FFF_FFFF_FFFF_FFFF then Stress(g, Unlimited, v) else 0
    {
      if stepMax <= 0x7FFF_FFFF_FFFF_FFFF {
        WideHorizonIsUnlimited(g, m, v);
      } else {
        NegativeHorizonIsBlind(g, m, v);
      }
    }
  }

  /** Raising the bound never lowers a centrality. */
  lemma StressMonotone(g: seq<Node>, m: int, m': int, v: nat)
    requires m <= m'
    ensures Stress(g, Steps(m), v) <= Stress(g, Steps(m'), v)
  {
    hide Walks, Dist, SumNat, Between;
    forall s: nat ensures RootCount(g, Steps(m), v, s) <= RootCount(g, Steps(m'), v, s) {
      forall t: nat ensures PairCount(g, Steps(m), s, t, v) <= PairCount(g, Steps(m'), s, t, v) {
        if t != s {
          HorizonIsLength(g, s, t, m);
          HorizonIsLength(g, s, t, m');
        }
      }
      SumNatMonotone(|g|, (t: nat) => PairCount(g, Steps(m), s, t, v), (t: nat) => PairCount(g, Steps(m'), s, t, v));
    }
    SumNatMonotone(|g|, (s: nat) => RootCount(g, Steps(m), v, s), (s: nat) => RootCount(g, Steps(m'), v, s));
  }
}
