/** What the stress centralities count: shortest paths between enabled nodes, each once. */
module PathCounts {
  import opened Sequences
  import opened Sums
  import opened Wot
  import opened LinkPaths
  import opened BreadthFirst
  import opened Dependency

  ghost predicate Enabled(g: seq<Node>, x: nat) {
    x < |g| && g[x].enabled
  }

  /** Distinct enabled ends s and t, v off both, and t within the horizon of s. */
  ghost predicate Counts(g: seq<Node>, h: Horizon, s: nat, t: nat, v: nat) {
    Enabled(g, s) && Enabled(g, t) && s != t && v != s && v != t && Seen(g, s, h, t)
  }

  ghost function PairCount(g: seq<Node>, h: Horizon, s: nat, t: nat, v: nat): nat {
    if Counts(g, h, s, t, v) then |Between(g, t, s, v)| else 0
  }

  ghost function RootCount(g: seq<Node>, h: Horizon, v: nat, s: nat): nat {
    SumNat(|g|, (t: nat) => PairCount(g, h, s, t, v))
  }

  /** The number of shortest paths, between enabled ends and within the horizon, through v. */
  ghost function Stress(g: seq<Node>, h: Horizon, v: nat): nat {
    SumNat(|g|, (s: nat) => RootCount(g, h, v, s))
  }

  // ---- a sum of counts is the size of one set of paths ----

  /** Some walk from t to s has fewer than `length` nodes. */
  ghost predicate Undercut(g: seq<Node>, t: nat, s: nat, length: nat) {
    exists q, k: nat :: IsWalk(g, q, t, s, k) && |q| < length
  }

  /** p is a shortest path between two different enabled nodes, and v lies strictly inside it. */
  ghost predicate ShortestThrough(g: seq<Node>, p: seq<nat>, v: nat) {
    && |p| > 0 && Enabled(g, p[0]) && Enabled(g, p[|p| - 1]) && p[0] != p[|p| - 1]
    && IsWalk(g, p, p[0], p[|p| - 1], |p| - 1)
    && !Undercut(g, p[0], p[|p| - 1], |p|)
    && v in p && v != p[0] && v != p[|p| - 1]
  }

  /** Paths the search discovers in full: with `Steps(m)`, those of at most m links. */
  ghost predicate ShortEnough(h: Horizon, p: seq<nat>) {
    h.Unlimited? || |p| - 1 <= h.max
  }

  ghost function PathsThrough(g: seq<Node>, h: Horizon, v: nat): (all: set<seq<nat>>)
    ensures forall p :: p in all <==> ShortestThrough(g, p, v) && (h.Unlimited? || |p| - 1 <= h.max)
  {
    var all := Through(g, h, v, |g|);
    assert forall p :: p in all <==> ShortestThrough(g, p, v) && ShortEnough(h, p) by {
      forall p ensures p in all <==> ShortestThrough(g, p, v) && ShortEnough(h, p) {
        ThroughAre(g, h, v, |g|, p);
      }
    }
    all
  }

  ghost function PairPaths(g: seq<Node>, h: Horizon, s: nat, t: nat, v: nat): set<seq<nat>> {
    if Counts(g, h, s, t, v) then Between(g, t, s, v) else {}
  }

  ghost function RootPaths(g: seq<Node>, h: Horizon, s: nat, v: nat, n: nat): set<seq<nat>> {
    if n == 0 then {} else RootPaths(g, h, s, v, n - 1) + PairPaths(g, h, s, n - 1, v)
  }

  ghost function Through(g: seq<Node>, h: Horizon, v: nat, n: nat): set<seq<nat>> {
    if n == 0 then {} else Through(g, h, v, n - 1) + RootPaths(g, h, n - 1, v, |g|)
  }

  lemma PairPathsAre(g: seq<Node>, h: Horizon, s: nat, t: nat, v: nat, p: seq<nat>)
    ensures p in PairPaths(g, h, s, t, v) <==>
            ShortestThrough(g, p, v) && ShortEnough(h, p) && p[0] == t && p[|p| - 1] == s
  {
    hide Walks, Dist;
    ShortestPathsAre(g, p, t, s);
    if p in ShortestPaths(g, t, s) {
      ShortestPathNoDup(g, p, t, s);
    }
  }

  lemma {:induction false} RootPathsAre(g: seq<Node>, h: Horizon, s: nat, v: nat, n: nat, p: seq<nat>)
    ensures p in RootPaths(g, h, s, v, n) <==>
            ShortestThrough(g, p, v) && ShortEnough(h, p) && p[0] < n && p[|p| - 1] == s
    decreases n
  {
    hide ShortestThrough, PairPaths;
    assert ShortestThrough(g, p, v) ==> |p| > 0 by {
      NonEmpty(g, p, v);
    }
    if n > 0 {
      RootPathsAre(g, h, s, v, n - 1, p);
      PairPathsAre(g, h, s, n - 1, v, p);
    }
  }

  lemma NonEmpty(g: seq<Node>, p: seq<nat>, v: nat)
    ensures ShortestThrough(g, p, v) ==> |p| > 0 && p[0] < |g| && p[|p| - 1] < |g|
  {
  }

  lemma {:induction false} ThroughAre(g: seq<Node>, h: Horizon, v: nat, n: nat, p: seq<nat>)
    requires n <= |g|
    ensures p in Through(g, h, v, n) <==> ShortestThrough(g, p, v) && ShortEnough(h, p) && p[|p| - 1] < n
    decreases n
  {
    hide ShortestThrough, RootPaths;
    NonEmpty(g, p, v);
    if n > 0 {
      ThroughAre(g, h, v, n - 1, p);
      RootPathsAre(g, h, n - 1, v, |g|, p);
    }
  }

  lemma PairPathsCount(g: seq<Node>, h: Horizon, s: nat, t: nat, v: nat)
    ensures |PairPaths(g, h, s, t, v)| == PairCount(g, h, s, t, v)
  {
    hide Counts, Between;
  }

  /** A path has one start ... */
  lemma PairsApart(g: seq<Node>, h: Horizon, s: nat, v: nat, n: nat)
    ensures |RootPaths(g, h, s, v, n + 1)| == |RootPaths(g, h, s, v, n)| + |PairPaths(g, h, s, n, v)|
  {
    hide ShortestThrough, PairPaths;
    var before, more := RootPaths(g, h, s, v, n), PairPaths(g, h, s, n, v);
    forall p | p in before ensures p !in more {
      RootPathsAre(g, h, s, v, n, p);
      PairPathsAre(g, h, s, n, v, p);
    }
    DisjointUnionCardinality(before, more, RootPaths(g, h, s, v, n + 1));
  }

  /** ... and one end. */
  lemma RootsApart(g: seq<Node>, h: Horizon, v: nat, n: nat)
    requires n < |g|
    ensures |Through(g, h, v, n + 1)| == |Through(g, h, v, n)| + |RootPaths(g, h, n, v, |g|)|
  {
    hide ShortestThrough, RootPaths;
    var before, more := Through(g, h, v, n), RootPaths(g, h, n, v, |g|);
    forall p | p in before ensures p !in more {
      ThroughAre(g, h, v, n, p);
      RootPathsAre(g, h, n, v, |g|, p);
    }
    DisjointUnionCardinality(before, more, Through(g, h, v, n + 1));
  }

  lemma NoPaths(g: seq<Node>, h: Horizon, s: nat, v: nat)
    ensures |RootPaths(g, h, s, v, 0)| == 0 && |Through(g, h, v, 0)| == 0
  {
  }

  ghost function PairCounts(g: seq<Node>, h: Horizon, s: nat, v: nat, n: nat): nat {
    if n == 0 then 0 else PairCounts(g, h, s, v, n - 1) + PairCount(g, h, s, n - 1, v)
  }

  ghost function RootCounts(g: seq<Node>, h: Horizon, v: nat, n: nat): nat {
    if n == 0 then 0 else RootCounts(g, h, v, n - 1) + RootCount(g, h, v, n - 1)
  }

  lemma {:induction false} RootPathsCount(g: seq<Node>, h: Horizon, s: nat, v: nat, n: nat)
    ensures |RootPaths(g, h, s, v, n)| == PairCounts(g, h, s, v, n)
    decreases n
  {
    hide RootPaths, PairPaths, PairCount;
    if n == 0 {
      NoPaths(g, h, s, v);
    } else {
      RootPathsCount(g, h, s, v, n - 1);
      PairsApart(g, h, s, v, n - 1);
      PairPathsCount(g, h, s, n - 1, v);
    }
  }

  lemma {:induction false} PairCountsAre(g: seq<Node>, h: Horizon, s: nat, v: nat, n: nat)
    ensures PairCounts(g, h, s, v, n) == SumNat(n, (t: nat) => PairCount(g, h, s, t, v))
    decreases n
  {
    if n > 0 {
      PairCountsAre(g, h, s, v, n - 1);
    }
  }

  lemma {:induction false} ThroughCount(g: seq<Node>, h: Horizon, v: nat, n: nat)
    requires n <= |g|
    ensures |Through(g, h, v, n)| == RootCounts(g, h, v, n)
    decreases n
  {
    hide RootPaths, Through, RootCount;
    if n == 0 {
      NoPaths(g, h, 0, v);
    } else {
      ThroughCount(g, h, v, n - 1);
      RootsApart(g, h, v, n - 1);
      RootCounted(g, h, n - 1, v);
    }
  }

  lemma RootCounted(g: seq<Node>, h: Horizon, s: nat, v: nat)
    ensures |RootPaths(g, h, s, v, |g|)| == RootCount(g, h, v, s)
  {
    hide RootPaths, PairCounts, SumNat;
    RootPathsCount(g, h, s, v, |g|);
    PairCountsAre(g, h, s, v, |g|);
  }

  lemma {:induction false} RootCountsAre(g: seq<Node>, h: Horizon, v: nat, n: nat)
    ensures RootCounts(g, h, v, n) == SumNat(n, (s: nat) => RootCount(g, h, v, s))
    decreases n
  {
    if n > 0 {
      RootCountsAre(g, h, v, n - 1);
    }
  }

  /** The stress of v is the number of shortest paths, short enough and between different enabled
      nodes, that have v strictly inside. */
  lemma StressCountsPaths(g: seq<Node>, h: Horizon, v: nat)
    ensures Stress(g, h, v) == |PathsThrough(g, h, v)|
  {
    hide ShortestThrough, RootPaths, SumNat, RootCounts;
    ThroughCount(g, h, v, |g|);
    RootCountsAre(g, h, v, |g|);
  }
}
