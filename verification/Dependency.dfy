/**
  How much of the shortest-path traffic towards one node passes through another: the quantity the
  backward phase of Brandes' algorithm accumulates, and its meaning as a count of paths.
 */
module Dependency {
  import opened Sums
  import opened Wot
  import opened LinkPaths
  import opened BreadthFirst

  // ---- shortest paths through a node ----

  /** The shortest paths from t to s that have v strictly inside. */
  ghost function Between(g: seq<Node>, t: nat, s: nat, v: nat): set<seq<nat>> {
    set p | p in ShortestPaths(g, t, s) && v in p && v != t && v != s
  }

  /** The walks by which a shortest path from t to s can come to v. */
  ghost function Onward(g: seq<Node>, s: nat, t: nat, v: nat): set<seq<nat>> {
    if 0 <= Dist(g, v, s) <= Dist(g, t, s) then Walks(g, t, v, Dist(g, t, s) - Dist(g, v, s)) else {}
  }

  ghost function Cont(g: seq<Node>, s: nat, t: nat, v: nat): nat {
    |Onward(g, s, t, v)|
  }

  /** The walks of k links to v, without v itself. */
  ghost function Heads(g: seq<Node>, t: nat, v: nat, k: nat): set<seq<nat>> {
    set p | p in Walks(g, t, v, k) && |p| == k + 1 :: p[..k]
  }

  lemma HeadMember(g: seq<Node>, p: seq<nat>, t: nat, v: nat, k: nat)
    ensures p in Heads(g, t, v, k) <==> p + [v] in Walks(g, t, v, k)
    ensures p in Heads(g, t, v, k) ==> |p| == k
  {
    if p in Heads(g, t, v, k) {
      var x :| x in Walks(g, t, v, k) && |x| == k + 1 && p == x[..k];
      WalkMember(g, x, t, v, k);
      assert x == p + [v];
    }
    if p + [v] in Walks(g, t, v, k) {
      WalkMember(g, p + [v], t, v, k);
      assert (p + [v])[..k] == p;
    }
  }

  lemma HeadsCount(g: seq<Node>, t: nat, v: nat, k: nat)
    ensures |Heads(g, t, v, k)| == |Walks(g, t, v, k)|
  {
    var walks, heads := Walks(g, t, v, k), Heads(g, t, v, k);
    var extended := set p | p in heads :: p + [v];
    forall x ensures x in walks <==> x in extended {
      if x in walks {
        WalkMember(g, x, t, v, k);
        assert x == x[..k] + [v];
        assert x[..k] in heads;
      }
      if x in extended {
        var p :| p in heads && x == p + [v];
        HeadMember(g, p, t, v, k);
      }
    }
    assert walks == extended;
    AppendCardinality(heads, [v]);
  }

  /** x passes v after i links. */
  lemma SplitAt(g: seq<Node>, s: nat, t: nat, v: nat, x: seq<nat>, i: nat)
    requires x in ShortestPaths(g, t, s) && i < |x| && x[i] == v
    ensures Dist(g, v, s) == Dist(g, t, s) - i >= 0
    ensures x[..i] in Heads(g, t, v, i) && x[i..] in ShortestPaths(g, v, s)
  {
    hide Walks, Dist;
    var d: nat := Dist(g, t, s);
    DistAlong(g, x, t, s, i);
    assert x[..i + 1] == x[..i] + [v];
    HeadMember(g, x[..i], t, v, i);
    WalkMember(g, x, t, s, d);
    WalkSplit(g, x, t, s, d, i);
    WalkMember(g, x[i..], v, s, d - i);
  }

  lemma SplitBetween(g: seq<Node>, s: nat, t: nat, v: nat, x: seq<nat>)
    requires x in Between(g, t, s, v)
    ensures 0 <= Dist(g, v, s) <= Dist(g, t, s)
    ensures x in Concatenations(Heads(g, t, v, Dist(g, t, s) - Dist(g, v, s)), ShortestPaths(g, v, s))
  {
    var i :| 0 <= i < |x| && x[i] == v;
    SplitAt(g, s, t, v, x, i);
    assert x == x[..i] + x[i..];
  }

  lemma JoinAt(g: seq<Node>, s: nat, t: nat, v: nat, p: seq<nat>, q: seq<nat>, a: nat, b: nat)
    requires IsWalk(g, p + [v], t, v, a) && IsWalk(g, q, v, s, b)
    ensures IsWalk(g, p + q, t, s, a + b) && v in p + q
  {
    WalkJoin(g, p + [v], q, t, v, s, a, b);
    assert (p + [v])[..a] == p;
    assert (p + q)[a] == v;
  }

  lemma JoinBetween(g: seq<Node>, s: nat, t: nat, v: nat, p: seq<nat>, q: seq<nat>)
    requires v != t && v != s && 0 <= Dist(g, v, s) <= Dist(g, t, s)
    requires p in Heads(g, t, v, Dist(g, t, s) - Dist(g, v, s)) && q in ShortestPaths(g, v, s)
    ensures p + q in Between(g, t, s, v)
  {
    hide Walks, Dist;
    var a: nat, b: nat := Dist(g, t, s) - Dist(g, v, s), Dist(g, v, s);
    HeadMember(g, p, t, v, a);
    WalkMember(g, p + [v], t, v, a);
    WalkMember(g, q, v, s, b);
    JoinAt(g, s, t, v, p, q, a, b);
    WalkMember(g, p + q, t, s, a + b);
  }

  lemma BetweenProduct(g: seq<Node>, s: nat, t: nat, v: nat)
    requires v != t && v != s && 0 <= Dist(g, v, s) <= Dist(g, t, s)
    ensures Between(g, t, s, v) ==
            Concatenations(Heads(g, t, v, Dist(g, t, s) - Dist(g, v, s)), ShortestPaths(g, v, s))
  {
    var heads, tails := Heads(g, t, v, Dist(g, t, s) - Dist(g, v, s)), ShortestPaths(g, v, s);
    forall x | x in Between(g, t, s, v) ensures x in Concatenations(heads, tails) {
      SplitBetween(g, s, t, v, x);
    }
    forall p, q | p in heads && q in tails ensures p + q in Between(g, t, s, v) {
      JoinBetween(g, s, t, v, p, q);
    }
  }

  /** As many shortest paths pass through v as there are ways to v times ways from v. */
  lemma BetweenCount(g: seq<Node>, s: nat, t: nat, v: nat)
    requires v != t && v != s
    ensures |Between(g, t, s, v)| == Cont(g, s, t, v) * Sigma(g, v, s)
  {
    hide Walks, Dist, Concatenations, Heads;
    if 0 <= Dist(g, v, s) <= Dist(g, t, s) {
      var k: nat := Dist(g, t, s) - Dist(g, v, s);
      var heads, tails := Heads(g, t, v, k), ShortestPaths(g, v, s);
      BetweenProduct(g, s, t, v);
      forall p | p in heads ensures |p| == k {
        HeadMember(g, p, t, v, k);
      }
      ProductCardinality(heads, tails, k);
      HeadsCount(g, t, v, k);
    } else {
      forall x ensures x !in Between(g, t, s, v) {
        if x in Between(g, t, s, v) {
          SplitBetween(g, s, t, v, x);
        }
      }
      assert Between(g, t, s, v) == {};
    }
  }

  // ---- continuations, one link at a time ----

  lemma ContSelf(g: seq<Node>, s: nat, v: nat)
    requires Dist(g, v, s) >= 0
    ensures Cont(g, s, v, v) == 1
  {
  }

  /** From a node that is not farther there is no way on to v. */
  lemma ContNone(g: seq<Node>, s: nat, t: nat, v: nat)
    requires t != v && Dist(g, t, s) <= Dist(g, v, s)
    ensures Cont(g, s, t, v) == 0
  {
  }

  ghost function StepCont(g: seq<Node>, s: nat, t: nat, v: nat, w: nat): nat {
    if StepsTo(g, s, w, v) then Cont(g, s, t, w) else 0
  }

  /** A walk from t to w followed by a shortest one from w bounds the distance of t. */
  lemma DistThrough(g: seq<Node>, s: nat, t: nat, w: nat, k: nat)
    requires Walks(g, t, w, k) != {} && Dist(g, w, s) >= 0
    ensures 0 <= Dist(g, t, s) <= k + Dist(g, w, s)
  {
    hide Walks, Dist;
    var p :| p in Walks(g, t, w, k);
    WalkMember(g, p, t, w, k);
    DetourBound(g, p, t, w, s, k);
  }

  lemma StepContCount(g: seq<Node>, s: nat, t: nat, v: nat, w: nat)
    requires 0 <= Dist(g, v, s) < Dist(g, t, s)
    ensures |WalksBefore(g, t, w, v, Dist(g, t, s) - Dist(g, v, s))| == StepCont(g, s, t, v, w)
  {
    hide Walks, Dist;
    var k: nat := Dist(g, t, s) - Dist(g, v, s);
    if Certifies(g, w, v) {
      DistStep(g, w, v, s);
      if Walks(g, t, w, k - 1) != {} {
        DistThrough(g, s, t, w, k - 1);
      }
    }
  }

  lemma ContRecurrenceBeyond(g: seq<Node>, s: nat, t: nat, v: nat)
    requires 0 <= Dist(g, v, s) < Dist(g, t, s)
    ensures Cont(g, s, t, v) == SumNat(|g|, (w: nat) => StepCont(g, s, t, v, w))
  {
    hide Walks, Dist, SumNat, StepCont, WalksBefore;
    var k: nat := Dist(g, t, s) - Dist(g, v, s);
    var count := (w: nat) => |WalksBefore(g, t, w, v, k)|;
    LastLinkRecurrence(g, t, v, k);
    assert |Walks(g, t, v, k)| == SumNat(|g|, count) by {
      SumNatEq(|g|, count, (w: nat) => |WalksBefore(g, t, w, v, k)|);
    }
    forall w: nat ensures count(w) == StepCont(g, s, t, v, w) {
      StepContCount(g, s, t, v, w);
    }
    SumNatEq(|g|, count, (w: nat) => StepCont(g, s, t, v, w));
  }

  lemma ContRecurrence(g: seq<Node>, s: nat, t: nat, v: nat)
    requires t != v && Dist(g, v, s) >= 0
    ensures Cont(g, s, t, v) == SumNat(|g|, (w: nat) => StepCont(g, s, t, v, w))
  {
    hide Walks, Dist, SumNat;
    if Dist(g, t, s) <= Dist(g, v, s) {
      ContNone(g, s, t, v);
      forall w: nat ensures StepCont(g, s, t, v, w) == 0 {
      }
      SumNatEq(|g|, (w: nat) => StepCont(g, s, t, v, w), (w: nat) => 0);
      SumNatOfZeros(|g|);
    } else {
      ContRecurrenceBeyond(g, s, t, v);
    }
  }

  // ---- the accumulated quantity ----

  /** What target t, of weight f(t), adds ahead of v. */
  ghost function AheadTerm(g: seq<Node>, s: nat, h: Horizon, f: nat -> real, v: nat, t: nat): real {
    if t != v && Seen(g, s, h, t) then Cont(g, s, t, v) as real * f(t) else 0.0
  }

  /** The weights of all targets beyond v, each as often as v can be continued to it. */
  ghost function Ahead(g: seq<Node>, s: nat, h: Horizon, f: nat -> real, v: nat): real {
    Sum(|g|, (t: nat) => AheadTerm(g, s, h, f, v, t))
  }

  ghost function Dep(g: seq<Node>, s: nat, h: Horizon, f: nat -> real, v: nat): real {
    Sigma(g, v, s) as real * Ahead(g, s, h, f, v)
  }

  /** w is one link beyond v and within the horizon: what the search lists under w includes v. */
  ghost predicate Beyond(g: seq<Node>, s: nat, h: Horizon, v: nat, w: nat) {
    Seen(g, s, h, w) && StepsTo(g, s, w, v)
  }

  ghost function HopTerm(g: seq<Node>, s: nat, h: Horizon, f: nat -> real, v: nat, w: nat): real {
    if Beyond(g, s, h, v, w) then f(w) + Ahead(g, s, h, f, w) else 0.0
  }

  /** Target t as seen from v through w. */
  ghost function ViaTerm(g: seq<Node>, s: nat, h: Horizon, f: nat -> real, v: nat, t: nat, w: nat): real {
    if Seen(g, s, h, t) && Beyond(g, s, h, v, w) then Cont(g, s, t, w) as real * f(t) else 0.0
  }

  lemma InsideDownwards(h: Horizon, a: int, b: int)
    requires Inside(h, b) && 0 <= a <= b
    ensures Inside(h, a)
  {
  }

  lemma ViaTermIs(g: seq<Node>, s: nat, h: Horizon, f: nat -> real, v: nat, t: nat, w: nat)
    requires Seen(g, s, h, t)
    ensures ViaTerm(g, s, h, f, v, t, w) == f(t) * StepCont(g, s, t, v, w) as real
  {
    hide Walks, Dist;
    if StepsTo(g, s, w, v) && Dist(g, w, s) <= Dist(g, t, s) {
      InsideDownwards(h, Dist(g, w, s), Dist(g, t, s));
    }
  }

  lemma ViaTermSumBeyond(g: seq<Node>, s: nat, h: Horizon, f: nat -> real, v: nat, t: nat)
    requires Dist(g, v, s) >= 0 && Seen(g, s, h, t) && t != v
    ensures Sum(|g|, (w: nat) => ViaTerm(g, s, h, f, v, t, w)) == f(t) * Cont(g, s, t, v) as real
  {
    hide *;
    var row := (w: nat) => ViaTerm(g, s, h, f, v, t, w);
    var reals := (w: nat) => StepCont(g, s, t, v, w) as real;
    forall w: nat ensures row(w) == f(t) * reals(w) {
      ViaTermIs(g, s, h, f, v, t, w);
    }
    SumScale(|g|, f(t), reals, row);
    assert Sum(|g|, reals) == Cont(g, s, t, v) as real by {
      ContRecurrence(g, s, t, v);
      SumOfNats(|g|, (w: nat) => StepCont(g, s, t, v, w), reals);
    }
  }

  lemma ViaTermSum(g: seq<Node>, s: nat, h: Horizon, f: nat -> real, v: nat, t: nat)
    requires Dist(g, v, s) >= 0
    ensures Sum(|g|, (w: nat) => ViaTerm(g, s, h, f, v, t, w)) == AheadTerm(g, s, h, f, v, t)
  {
    hide Walks, Dist, Sum, Cont;
    if Seen(g, s, h, t) && t != v {
      ViaTermSumBeyond(g, s, h, f, v, t);
    } else {
      forall w: nat ensures ViaTerm(g, s, h, f, v, t, w) == 0.0 {
        if t == v && StepsTo(g, s, w, v) {
          ContNone(g, s, v, w);
        }
      }
      SumZero(|g|, (w: nat) => ViaTerm(g, s, h, f, v, t, w));
    }
  }

  lemma ViaTermColumn(g: seq<Node>, s: nat, h: Horizon, f: nat -> real, v: nat, w: nat)
    requires w < |g|
    ensures Sum(|g|, (t: nat) => ViaTerm(g, s, h, f, v, t, w)) == HopTerm(g, s, h, f, v, w)
  {
    hide Walks, Dist, Sum;
    var column := (t: nat) => ViaTerm(g, s, h, f, v, t, w);
    if Beyond(g, s, h, v, w) {
      var ahead := (t: nat) => AheadTerm(g, s, h, f, w, t);
      ContSelf(g, s, w);
      SumUpdate(|g|, w, ahead, column);
    } else {
      SumZero(|g|, column);
    }
  }

  /** Brandes' recurrence: what is ahead of v is, over the nodes w one link beyond it, the weight of
      w and what is ahead of w. */
  lemma AheadRecurrence(g: seq<Node>, s: nat, h: Horizon, f: nat -> real, v: nat)
    requires Dist(g, v, s) >= 0
    ensures Ahead(g, s, h, f, v) == Sum(|g|, (w: nat) => HopTerm(g, s, h, f, v, w))
  {
    hide Walks, Dist, Sum, Cont, HopTerm, AheadTerm;
    var n := |g|;
    var via := (t: nat, w: nat) => ViaTerm(g, s, h, f, v, t, w);
    forall t: nat ensures RowSum(via, n, t) == AheadTerm(g, s, h, f, v, t) {
      ViaTermSum(g, s, h, f, v, t);
      SumEq(n, (w: nat) => via(t, w), (w: nat) => ViaTerm(g, s, h, f, v, t, w));
    }
    forall w: nat | w < n ensures ColumnSum(via, n, w) == HopTerm(g, s, h, f, v, w) {
      ViaTermColumn(g, s, h, f, v, w);
      SumEq(n, (t: nat) => via(t, w), (t: nat) => ViaTerm(g, s, h, f, v, t, w));
    }
    SumSwap(n, n, via);
    SumEq(n, (t: nat) => RowSum(via, n, t), (t: nat) => AheadTerm(g, s, h, f, v, t));
    SumEq(n, (w: nat) => ColumnSum(via, n, w), (w: nat) => HopTerm(g, s, h, f, v, w));
  }

  lemma AheadTermUnseen(g: seq<Node>, s: nat, h: Horizon, f: nat -> real, v: nat, t: nat)
    requires Dist(g, v, s) >= 0 && !Seen(g, s, h, v)
    ensures AheadTerm(g, s, h, f, v, t) == 0.0
  {
    hide Walks, Dist, Sigma;
    if Seen(g, s, h, t) && Dist(g, v, s) <= Dist(g, t, s) {
      InsideDownwards(h, Dist(g, v, s), Dist(g, t, s));
    } else if Seen(g, s, h, t) {
      assert Onward(g, s, t, v) == {};
      assert Cont(g, s, t, v) == 0;
    }
  }

  /** Beyond the horizon nothing depends on v. */
  lemma DepUnseen(g: seq<Node>, s: nat, h: Horizon, f: nat -> real, v: nat)
    requires !Seen(g, s, h, v)
    ensures Dep(g, s, h, f, v) == 0.0
  {
    hide Walks, Sum, Sigma, AheadTerm;
    SigmaPositive(g, v, s);
    if Dist(g, v, s) >= 0 {
      forall t: nat ensures AheadTerm(g, s, h, f, v, t) == 0.0 {
        AheadTermUnseen(g, s, h, f, v, t);
      }
      SumZero(|g|, (t: nat) => AheadTerm(g, s, h, f, v, t));
    }
  }

  // ---- accumulating from the farthest nodes inwards ----

  /** What v has received once the nodes in `popped` have been handled. */
  ghost function PartialTerm(g: seq<Node>, s: nat, h: Horizon, f: nat -> real, popped: set<nat>, v: nat, w: nat): real {
    if w in popped then HopTerm(g, s, h, f, v, w) else 0.0
  }

  ghost function PartialSum(g: seq<Node>, s: nat, h: Horizon, f: nat -> real, popped: set<nat>, v: nat): real {
    Sum(|g|, (w: nat) => PartialTerm(g, s, h, f, popped, v, w))
  }

  ghost function Partial(g: seq<Node>, s: nat, h: Horizon, f: nat -> real, popped: set<nat>, v: nat): real {
    Sigma(g, v, s) as real * PartialSum(g, s, h, f, popped, v)
  }

  lemma PartialNothing(g: seq<Node>, s: nat, h: Horizon, f: nat -> real, v: nat)
    ensures Partial(g, s, h, f, {}, v) == 0.0
  {
    SumZero(|g|, (w: nat) => PartialTerm(g, s, h, f, {}, v, w));
  }

  lemma PartialSumStep(g: seq<Node>, s: nat, h: Horizon, f: nat -> real, popped: set<nat>, v: nat, w: nat)
    requires w < |g| && w !in popped
    ensures PartialSum(g, s, h, f, popped + {w}, v) == PartialSum(g, s, h, f, popped, v) + HopTerm(g, s, h, f, v, w)
  {
    hide Walks, Dist, Sum, HopTerm;
    SumUpdate(|g|, w, (x: nat) => PartialTerm(g, s, h, f, popped, v, x),
              (x: nat) => PartialTerm(g, s, h, f, popped + {w}, v, x));
  }

  lemma PartialStep(g: seq<Node>, s: nat, h: Horizon, f: nat -> real, popped: set<nat>, v: nat, w: nat)
    requires w < |g| && w !in popped
    ensures Partial(g, s, h, f, popped + {w}, v) ==
            Partial(g, s, h, f, popped, v) + Sigma(g, v, s) as real * HopTerm(g, s, h, f, v, w)
  {
    hide PartialSum, Sigma, HopTerm;
    PartialSumStep(g, s, h, f, popped, v, w);
    Distribute(Sigma(g, v, s) as real, PartialSum(g, s, h, f, popped, v), HopTerm(g, s, h, f, v, w));
  }

  lemma Distribute(a: real, b: real, c: real)
    ensures a * (b + c) == a * b + a * c
  {
  }

  /** A node is complete as soon as everything one link beyond it has been handled. */
  lemma PartialComplete(g: seq<Node>, s: nat, h: Horizon, f: nat -> real, popped: set<nat>, v: nat)
    requires Dist(g, v, s) >= 0
    requires forall w: nat :: Beyond(g, s, h, v, w) ==> w in popped
    ensures Partial(g, s, h, f, popped, v) == Dep(g, s, h, f, v)
  {
    hide Walks, Dist, Sum, Ahead, Sigma;
    AheadRecurrence(g, s, h, f, v);
    SumEq(|g|, (w: nat) => PartialTerm(g, s, h, f, popped, v, w), (w: nat) => HopTerm(g, s, h, f, v, w));
  }
}
