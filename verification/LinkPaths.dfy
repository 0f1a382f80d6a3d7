/**
  Walks along certification links, distances, and shortest paths.  A walk is the sequence of its
  nodes: each one certifies the next.
 */
module LinkPaths {
  import opened Sequences
  import opened Sums
  import opened Wot

  ghost predicate Certifies(g: seq<Node>, u: nat, v: nat) {
    u < |g| && v < |g| && u in g[v].linksSource
  }

  /** p is a walk of k links from u to v. */
  ghost predicate IsWalk(g: seq<Node>, p: seq<nat>, u: nat, v: nat, k: nat) {
    && |p| == k + 1
    && p[0] == u && p[k] == v
    && (forall i :: 0 <= i <= k ==> p[i] < |g|)
    && (forall i :: 0 <= i < k ==> Certifies(g, p[i], p[i + 1]))
  }

  /** All walks of k links from u to v. */
  ghost function Walks(g: seq<Node>, u: nat, v: nat, k: nat): set<seq<nat>>
    decreases k
  {
    if k == 0 then
      if u == v && u < |g| then {[u]} else {}
    else
      set w: nat, p | w < |g| && Certifies(g, u, w) && p in Walks(g, w, v, k - 1) :: [u] + p
  }

  /** A walk with a link is that link followed by a shorter walk. */
  lemma WalkTail(g: seq<Node>, p: seq<nat>, q: seq<nat>, u: nat, w: nat, v: nat, k: nat)
    requires k > 0 && p == [u] + q && |q| > 0 && q[0] == w
    ensures IsWalk(g, p, u, v, k) <==> Certifies(g, u, w) && IsWalk(g, q, w, v, k - 1)
  {
    assert forall i :: 0 <= i < |q| ==> q[i] == p[i + 1];
    if IsWalk(g, p, u, v, k) {
      assert Certifies(g, p[0], p[1]);
      forall i | 0 <= i < k - 1 ensures Certifies(g, q[i], q[i + 1]) {
        assert Certifies(g, p[i + 1], p[i + 2]);
      }
    }
  }

  lemma {:induction false} WalkMember(g: seq<Node>, p: seq<nat>, u: nat, v: nat, k: nat)
    ensures p in Walks(g, u, v, k) <==> IsWalk(g, p, u, v, k)
    decreases k
  {
    if k == 0 {
      if IsWalk(g, p, u, v, k) {
        assert p == [u];
      }
    } else {
      if p in Walks(g, u, v, k) {
        var w: nat, q :| w < |g| && Certifies(g, u, w) && q in Walks(g, w, v, k - 1) && p == [u] + q;
        WalkMember(g, q, w, v, k - 1);
        WalkTail(g, p, q, u, w, v, k);
      }
      if IsWalk(g, p, u, v, k) {
        assert p == [u] + p[1..];
        WalkTail(g, p, p[1..], u, p[1], v, k);
        WalkMember(g, p[1..], p[1], v, k - 1);
      }
    }
  }

  // ---- counting walks by their first and by their last link ----

  /** The tails of the walks of k links from u to v whose second node is w. */
  ghost function WalksVia(g: seq<Node>, u: nat, w: nat, v: nat, k: nat): set<seq<nat>> {
    if k > 0 && Certifies(g, u, w) then Walks(g, w, v, k - 1) else {}
  }

  /** Walks by their second node. */
  lemma FirstLinkRecurrence(g: seq<Node>, u: nat, v: nat, k: nat)
    requires k > 0
    ensures |Walks(g, u, v, k)| == SumNat(|g|, (w: nat) => |WalksVia(g, u, w, v, k)|)
  {
    var tails := (w: nat) => WalksVia(g, u, w, v, k);
    forall w: nat, p | p in tails(w) ensures |p| > 0 && p[0] == w {
      WalkMember(g, p, w, v, k - 1);
    }
    PrependedCount(u, tails, |g|);
    forall x ensures x in Walks(g, u, v, k) <==> x in Prepended(u, tails, |g|) {
      if x in Walks(g, u, v, k) {
        var w: nat, p :| w < |g| && Certifies(g, u, w) && p in Walks(g, w, v, k - 1) && x == [u] + p;
        assert p in tails(w);
      }
    }
    assert Walks(g, u, v, k) == Prepended(u, tails, |g|);
    SumNatEq(|g|, (w: nat) => |tails(w)|, (w: nat) => |WalksVia(g, u, w, v, k)|);
  }

  /** The walks of k links from u to v, without their last node, whose last but one node is w. */
  ghost function WalksBefore(g: seq<Node>, u: nat, w: nat, v: nat, k: nat): set<seq<nat>> {
    if k > 0 && Certifies(g, w, v) then Walks(g, u, w, k - 1) else {}
  }

  lemma LastLinkOfWalk(g: seq<Node>, x: seq<nat>, u: nat, v: nat, k: nat)
    requires k > 0
    ensures x in Walks(g, u, v, k) <==>
            |x| == k + 1 && x[k] == v && x[k - 1] < |g| && x[..k] in WalksBefore(g, u, x[k - 1], v, k)
  {
    WalkMember(g, x, u, v, k);
    if |x| == k + 1 {
      WalkMember(g, x[..k], u, x[k - 1], k - 1);
      if IsWalk(g, x, u, v, k) {
        assert Certifies(g, x[k - 1], x[k]);
      }
    }
  }

  lemma LastOfAppended(x: seq<nat>, v: nat, k: nat, heads: nat -> set<seq<nat>>, n: nat)
    requires k > 0 && forall w: nat, p :: p in heads(w) ==> |p| == k && p[k - 1] == w
    ensures x in Appended(heads, v, n) <==>
            |x| == k + 1 && x[k] == v && x[k - 1] < n && x[..k] in heads(x[k - 1])
  {
    if x in Appended(heads, v, n) {
      var w: nat, p :| w < n && p in heads(w) && x == p + [v];
      assert x[..k] == p && x[k - 1] == w;
    }
    if |x| == k + 1 && x[k] == v && x[k - 1] < n && x[..k] in heads(x[k - 1]) {
      assert x == x[..k] + [v];
    }
  }

  lemma WalksAreAppended(g: seq<Node>, u: nat, v: nat, k: nat, heads: nat -> set<seq<nat>>)
    requires k > 0 && forall w: nat :: heads(w) == WalksBefore(g, u, w, v, k)
    requires forall w: nat, p :: p in heads(w) ==> |p| == k && p[k - 1] == w
    ensures Walks(g, u, v, k) == Appended(heads, v, |g|)
  {
    hide Walks, Appended, WalksBefore;
    forall x ensures x in Walks(g, u, v, k) <==> x in Appended(heads, v, |g|) {
      LastLinkOfWalk(g, x, u, v, k);
      LastOfAppended(x, v, k, heads, |g|);
    }
  }

  /** Walks by their last but one node. */
  lemma LastLinkRecurrence(g: seq<Node>, u: nat, v: nat, k: nat)
    requires k > 0
    ensures |Walks(g, u, v, k)| == SumNat(|g|, (w: nat) => |WalksBefore(g, u, w, v, k)|)
  {
    hide Walks, SumNat, Appended;
    var heads := (w: nat) => WalksBefore(g, u, w, v, k);
    forall w: nat, p | p in heads(w) ensures |p| == k && p[k - 1] == w {
      WalkMember(g, p, u, w, k - 1);
    }
    WalksAreAppended(g, u, v, k, heads);
    AppendedCount(heads, v, |g|);
    SumNatEq(|g|, (w: nat) => |heads(w)|, (w: nat) => |WalksBefore(g, u, w, v, k)|);
  }

  // ---- distance ----

  ghost predicate Reaches(g: seq<Node>, u: nat, v: nat) {
    exists k: nat :: Walks(g, u, v, k) != {}
  }

  ghost function Shortest(g: seq<Node>, u: nat, v: nat, k: nat): (d: nat)
    requires Walks(g, u, v, k) != {}
    ensures d <= k && Walks(g, u, v, d) != {}
    ensures forall j: nat :: Walks(g, u, v, j) != {} ==> d <= j
    decreases k
  {
    if exists j: nat :: j < k && Walks(g, u, v, j) != {} then
      var j: nat :| j < k && Walks(g, u, v, j) != {};
      Shortest(g, u, v, j)
    else k
  }

  /** The least number of links on a walk from u to v, or -1. */
  ghost function Dist(g: seq<Node>, u: nat, v: nat): int {
    if Reaches(g, u, v) then
      var k: nat :| Walks(g, u, v, k) != {};
      Shortest(g, u, v, k)
    else -1
  }

  lemma DistSpec(g: seq<Node>, u: nat, v: nat)
    ensures Dist(g, u, v) >= -1
    ensures Dist(g, u, v) >= 0 ==> Walks(g, u, v, Dist(g, u, v)) != {} && u < |g| && v < |g|
    ensures forall k: nat :: Walks(g, u, v, k) != {} ==> 0 <= Dist(g, u, v) <= k
  {
    if Dist(g, u, v) >= 0 {
      var k: nat :| Walks(g, u, v, k) != {};
      var d: nat := Dist(g, u, v);
      assert Walks(g, u, v, d) != {};
      var p :| p in Walks(g, u, v, d);
      WalkMember(g, p, u, v, d);
      assert p[0] < |g| && p[d] < |g|;
    }
  }

  lemma DistOfWalk(g: seq<Node>, p: seq<nat>, u: nat, v: nat, k: nat)
    requires IsWalk(g, p, u, v, k)
    ensures 0 <= Dist(g, u, v) <= k
  {
    WalkMember(g, p, u, v, k);
    DistSpec(g, u, v);
  }

  lemma DistSelf(g: seq<Node>, u: nat, v: nat)
    ensures u < |g| ==> Dist(g, u, u) == 0
    ensures Dist(g, u, v) == 0 ==> u == v
  {
    if u < |g| {
      assert Walks(g, u, u, 0) == {[u]};
    }
    DistSpec(g, u, u);
    DistSpec(g, u, v);
  }

  /** One more link lengthens the distance by at most one. */
  lemma DistStep(g: seq<Node>, w: nat, v: nat, s: nat)
    requires Certifies(g, w, v) && Dist(g, v, s) >= 0
    ensures 0 <= Dist(g, w, s) <= Dist(g, v, s) + 1
  {
    var k: nat := Dist(g, v, s);
    DistSpec(g, v, s);
    var p :| p in Walks(g, v, s, k);
    assert [w] + p in Walks(g, w, s, k + 1);
    DistSpec(g, w, s);
  }

  /** A node at distance k > 0 certifies some node at distance k - 1. */
  lemma NextHop(g: seq<Node>, w: nat, s: nat) returns (v: nat)
    requires Dist(g, w, s) > 0
    ensures Certifies(g, w, v) && Dist(g, v, s) == Dist(g, w, s) - 1
  {
    var k: nat := Dist(g, w, s);
    DistSpec(g, w, s);
    var p :| p in Walks(g, w, s, k);
    var x: nat, q :| x < |g| && Certifies(g, w, x) && q in Walks(g, x, s, k - 1) && p == [w] + q;
    v := x;
    DistSpec(g, v, s);
    DistStep(g, w, v, s);
  }

  // ---- shortest paths ----

  /** All shortest paths from t to s; none when t does not reach s. */
  ghost function ShortestPaths(g: seq<Node>, t: nat, s: nat): set<seq<nat>> {
    if Dist(g, t, s) < 0 then {} else Walks(g, t, s, Dist(g, t, s))
  }

  /** The usual reading: a walk that no other walk between its ends undercuts. */
  lemma ShortestPathsAre(g: seq<Node>, p: seq<nat>, t: nat, s: nat)
    ensures p in ShortestPaths(g, t, s) <==>
            |p| > 0 && IsWalk(g, p, t, s, |p| - 1) &&
            forall q, k: nat :: IsWalk(g, q, t, s, k) ==> |p| <= |q|
  {
    DistSpec(g, t, s);
    if p in ShortestPaths(g, t, s) {
      var d: nat := Dist(g, t, s);
      WalkMember(g, p, t, s, d);
      forall q, k: nat | IsWalk(g, q, t, s, k) ensures |p| <= |q| {
        DistOfWalk(g, q, t, s, k);
      }
    }
    if |p| > 0 && IsWalk(g, p, t, s, |p| - 1) && forall q, k: nat :: IsWalk(g, q, t, s, k) ==> |p| <= |q| {
      DistOfWalk(g, p, t, s, |p| - 1);
      var d: nat := Dist(g, t, s);
      var q :| q in Walks(g, t, s, d);
      WalkMember(g, q, t, s, d);
      assert |p| - 1 == d;
      WalkMember(g, p, t, s, d);
    }
  }

  /** How many shortest paths lead from t to s. */
  ghost function Sigma(g: seq<Node>, t: nat, s: nat): nat {
    |ShortestPaths(g, t, s)|
  }

  lemma SigmaPositive(g: seq<Node>, t: nat, s: nat)
    ensures Sigma(g, t, s) > 0 <==> Dist(g, t, s) >= 0
  {
  }

  lemma SigmaSelf(g: seq<Node>, s: nat)
    requires s < |g|
    ensures Sigma(g, s, s) == 1
  {
    DistSelf(g, s, s);
    assert Walks(g, s, s, 0) == {[s]};
  }

  /** w is one link farther from s than v, which it certifies. */
  ghost predicate StepsTo(g: seq<Node>, s: nat, w: nat, v: nat) {
    Certifies(g, w, v) && Dist(g, v, s) >= 0 && Dist(g, w, s) == Dist(g, v, s) + 1
  }

  ghost function StepSigma(g: seq<Node>, s: nat, w: nat, v: nat): nat {
    if StepsTo(g, s, w, v) then Sigma(g, v, s) else 0
  }

  lemma StepSigmaCount(g: seq<Node>, w: nat, v: nat, s: nat)
    requires Dist(g, w, s) > 0
    ensures |WalksVia(g, w, v, s, Dist(g, w, s))| == StepSigma(g, s, w, v)
  {
    var k: nat := Dist(g, w, s);
    DistSpec(g, v, s);
    if Certifies(g, w, v) && Walks(g, v, s, k - 1) != {} {
      DistStep(g, w, v, s);
    }
  }

  lemma SigmaCountsWalks(g: seq<Node>, t: nat, s: nat)
    requires Dist(g, t, s) >= 0
    ensures Sigma(g, t, s) == |Walks(g, t, s, Dist(g, t, s))|
  {
    hide Walks, Dist;
  }

  /** Shortest paths from w continue through exactly the nodes w steps to. */
  lemma SigmaRecurrence(g: seq<Node>, w: nat, s: nat)
    requires Dist(g, w, s) > 0
    ensures Sigma(g, w, s) == SumNat(|g|, (v: nat) => StepSigma(g, s, w, v))
  {
    hide Walks, Dist, Sigma, SumNat, WalksVia, StepSigma;
    var k: nat := Dist(g, w, s);
    var count := (v: nat) => |WalksVia(g, w, v, s, k)|;
    SigmaCountsWalks(g, w, s);
    FirstLinkRecurrence(g, w, s, k);
    forall v: nat ensures count(v) == StepSigma(g, s, w, v) {
      StepSigmaCount(g, w, v, s);
    }
    SumNatEq(|g|, count, (v: nat) => StepSigma(g, s, w, v));
  }

  // ---- walks compose ----

  lemma WalkSplit(g: seq<Node>, p: seq<nat>, u: nat, v: nat, k: nat, i: nat)
    requires IsWalk(g, p, u, v, k) && i <= k
    ensures IsWalk(g, p[..i + 1], u, p[i], i) && IsWalk(g, p[i..], p[i], v, k - i)
  {
  }

  lemma WalkJoin(g: seq<Node>, p: seq<nat>, q: seq<nat>, u: nat, x: nat, v: nat, a: nat, b: nat)
    requires IsWalk(g, p, u, x, a) && IsWalk(g, q, x, v, b)
    ensures IsWalk(g, p[..a] + q, u, v, a + b)
    ensures (p[..a] + q)[a] == x
  {
  }

  /** A walk by way of x is no shorter than the distance to x and the distance from x. */
  lemma DetourBound(g: seq<Node>, a: seq<nat>, t: nat, x: nat, s: nat, i: nat)
    requires IsWalk(g, a, t, x, i) && Dist(g, x, s) >= 0
    ensures 0 <= Dist(g, t, s) <= i + Dist(g, x, s)
  {
    hide Walks, Dist;
    var d: nat := Dist(g, x, s);
    DistSpec(g, x, s);
    var q :| q in Walks(g, x, s, d);
    WalkMember(g, q, x, s, d);
    WalkJoin(g, a, q, t, x, s, i, d);
    DistOfWalk(g, a[..i] + q, t, s, i + d);
  }

  /** Along a shortest path the distance to its end counts down by one. */
  lemma DistAlong(g: seq<Node>, p: seq<nat>, t: nat, s: nat, i: nat)
    requires p in ShortestPaths(g, t, s) && i < |p|
    ensures |p| == Dist(g, t, s) + 1
    ensures Dist(g, p[i], s) == Dist(g, t, s) - i
    ensures p[..i + 1] in Walks(g, t, p[i], i)
  {
    hide Walks, Dist;
    var k: nat := Dist(g, t, s);
    WalkMember(g, p, t, s, k);
    WalkSplit(g, p, t, s, k, i);
    WalkMember(g, p[..i + 1], t, p[i], i);
    DistOfWalk(g, p[i..], p[i], s, k - i);
    DetourBound(g, p[..i + 1], t, p[i], s, i);
  }

  lemma ShortestPathNoDup(g: seq<Node>, p: seq<nat>, t: nat, s: nat)
    requires p in ShortestPaths(g, t, s)
    ensures NoDup(p) && |p| == Dist(g, t, s) + 1 && p[0] == t && p[|p| - 1] == s
    ensures forall i :: 0 <= i < |p| ==> p[i] < |g|
  {
    var k: nat := Dist(g, t, s);
    WalkMember(g, p, t, s, k);
    forall i, j | 0 <= i < j < |p| ensures p[i] != p[j] {
      DistAlong(g, p, t, s, i);
      DistAlong(g, p, t, s, j);
    }
  }

  /** Distances are smaller than the number of nodes. */
  lemma DistBound(g: seq<Node>, t: nat, s: nat)
    ensures Dist(g, t, s) < |g| || (Dist(g, t, s) == -1 && |g| == 0)
  {
    DistSpec(g, t, s);
    if Dist(g, t, s) >= 0 {
      var p :| p in ShortestPaths(g, t, s);
      ShortestPathNoDup(g, p, t, s);
      NoDupLength(p, |g|);
    }
  }
}
