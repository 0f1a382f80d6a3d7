/** The distance rule: how many sentries reach a node within a bounded number of links. */
module Distance {
  import opened Sequences
  import opened Sums
  import opened Wrappers
  import opened Wot
  import opened LinkPaths

  datatype WotDistance = WotDistance(
    sentries: nat,
    success: nat,
    successAtBorder: nat,
    reached: nat,
    reachedAtBorder: nat,
    outdistanced: bool)

  // ---- what the fields mean ----

  /** The nodes at most k links away from the node. */
  ghost function Ball(g: seq<Node>, node: nat, k: nat): set<nat> {
    set x: nat | x < |g| && 0 <= Dist(g, x, node) <= k
  }

  /** The nodes exactly k links away. */
  ghost function Sphere(g: seq<Node>, node: nat, k: nat): set<nat> {
    set x: nat | x < |g| && Dist(g, x, node) == k
  }

  ghost function Sentries(g: seq<Node>, requirement: nat): set<nat> {
    set x: nat | x < |g| && IsSentryNode(g[x], requirement)
  }

  /** Sentries of a set of nodes, the node itself not counted. */
  ghost function OtherSentries(g: seq<Node>, node: nat, requirement: nat, area: set<nat>): set<nat> {
    area * Sentries(g, requirement) - {node}
  }

  predicate TooFew(success: nat, sentries: nat, xPercent: real) {
    (success as real) < xPercent * sentries as real
  }

  /** The counters, from the area and the border. */
  ghost function Tally(g: seq<Node>, node: nat, requirement: nat, area: set<nat>, border: set<nat>,
                       xPercent: real): WotDistance
  {
    var all, success := |Sentries(g, requirement) - {node}|, |OtherSentries(g, node, requirement, area)|;
    WotDistance(all, success, |border * Sentries(g, requirement)|, |area - {node}|, |border|,
                TooFew(success, all, xPercent))
  }

  ghost function DistanceOf(g: seq<Node>, node: nat, requirement: nat, stepMax: nat, xPercent: real): (r: WotDistance)
    requires node < |g|
  {
    Tally(g, node, requirement, Ball(g, node, stepMax), Sphere(g, node, stepMax), xPercent)
  }

  // ---- the expanding area ----

  /** The sources of the border's links that are not in the area yet. */
  function NextBorder(nodes: seq<Node>, border: set<nat>, area: set<nat>): set<nat>
    requires forall id :: id in border ==> id < |nodes|
  {
    set id, source | id in border && source in nodes[id].linksSource && source !in area :: source
  }

  lemma AreaGrows(g: seq<Node>, node: nat, k: nat, border: set<nat>, area: set<nat>)
    requires InRange(g) && node < |g|
    requires border == Sphere(g, node, k) && area == Ball(g, node, k)
    ensures NextBorder(g, border, area) == Sphere(g, node, k + 1)
    ensures area + NextBorder(g, border, area) == Ball(g, node, k + 1)
  {
    assert forall id :: id in border ==> id < |g|;
    hide NextBorder, Sphere, Ball;
    forall x: nat ensures x in NextBorder(g, border, area) <==> x in Sphere(g, node, k + 1) {
      NextIsFarther(g, node, k, x);
    }
    forall x: nat ensures x in area + NextBorder(g, border, area) <==> x in Ball(g, node, k + 1) {
      BallGrows(g, node, k, x);
    }
  }

  lemma NextIsFarther(g: seq<Node>, node: nat, k: nat, x: nat)
    requires InRange(g) && node < |g| && forall id :: id in Sphere(g, node, k) ==> id < |g|
    ensures x in NextBorder(g, Sphere(g, node, k), Ball(g, node, k)) <==> x in Sphere(g, node, k + 1)
  {
    hide Walks, Dist;
    var border, area := Sphere(g, node, k), Ball(g, node, k);
    if x in NextBorder(g, border, area) {
      var id :| id in border && x in g[id].linksSource && x !in area;
      assert Certifies(g, x, id);
      DistStep(g, x, id, node);
    }
    if x in Sphere(g, node, k + 1) {
      var id := NextHop(g, x, node);
      assert id in border && x in g[id].linksSource && x !in area;
    }
  }

  lemma BallGrows(g: seq<Node>, node: nat, k: nat, x: nat)
    ensures x in Ball(g, node, k + 1) <==> x in Ball(g, node, k) || x in Sphere(g, node, k + 1)
  {
  }

  lemma AreaStarts(g: seq<Node>, node: nat)
    requires node < |g|
    ensures Ball(g, node, 0) == {node} && Sphere(g, node, 0) == {node}
  {
    hide Walks, Dist;
    forall x: nat ensures x in Ball(g, node, 0) <==> x == node {
      DistSelf(g, x, node);
      DistSelf(g, node, node);
    }
    forall x: nat ensures x in Sphere(g, node, 0) <==> x == node {
      DistSelf(g, x, node);
      DistSelf(g, node, node);
    }
  }

  lemma NodeInBall(g: seq<Node>, node: nat, k: nat)
    requires node < |g|
    ensures node in Ball(g, node, k)
  {
    hide Walks, Dist;
    DistSelf(g, node, node);
  }

  lemma BallSize(g: seq<Node>, area: set<nat>)
    requires forall x :: x in area ==> x < |g|
    ensures |area| <= |g|
  {
    BoundedSetCardinality(area, |g|);
  }

  /** The loop: `stepMax` times, replace the border and extend the area with it. */
  method Expand(wot: RustyWebOfTrust, node: nat, stepMax: nat) returns (area: set<nat>, border: set<nat>)
    requires InRange(wot.nodes) && node < |wot.nodes|
    ensures area == Ball(wot.nodes, node, stepMax) && border == Sphere(wot.nodes, node, stepMax)
  {
    hide Walks, Dist, NextBorder;
    area := {node};
    border := {node};
    AreaStarts(wot.nodes, node);
    for k := 0 to stepMax
      invariant border == Sphere(wot.nodes, node, k) && area == Ball(wot.nodes, node, k)
    {
      AreaGrows(wot.nodes, node, k, border, area);
      border := NextBorder(wot.nodes, border, area);
      area := area + border;
    }
  }

  function Listed(nodes: set<nat>, ids: seq<nat>): set<nat> {
    set n | n in nodes && n in ids
  }

  method CountSentries(wot: RustyWebOfTrust, node: nat, sentryRequirement: nat, xPercent: real, area: set<nat>,
                       border: set<nat>)
    returns (r: WotDistance)
    requires node < |wot.nodes| && node in area
    ensures r == Tally(wot.nodes, node, sentryRequirement, area, border, xPercent)
  {
    var listed := SentryIds(wot.nodes, sentryRequirement);
    SentriesListed(wot.nodes, sentryRequirement, listed, area, border);
    WithoutNode(wot.nodes, node, sentryRequirement, area);
    hide Sentries, OtherSentries, SentryIds, Listed, TooFew;
    var success := |Listed(area, listed)|;
    var successAtBorder := |Listed(border, listed)|;
    var sentries := |listed|;
    if wot.IsSentry(node, sentryRequirement).value {
      sentries := sentries - 1;
      success := success - 1;
    }
    r := WotDistance(sentries, success, successAtBorder, |area| - 1, |border|,
                     TooFew(success, sentries, xPercent));
  }

  method ComputeDistance(wot: RustyWebOfTrust, node: nat, sentryRequirement: nat, stepMax: nat, xPercent: real)
    returns (r: Option<WotDistance>)
    requires InRange(wot.nodes) && |wot.nodes| <= U32_MAX
    ensures r == if node < |wot.nodes| then Some(DistanceOf(wot.nodes, node, sentryRequirement, stepMax, xPercent))
            else None
  {
    hide Walks, Dist, Sentries, OtherSentries;
    if node >= |wot.nodes| {
      return None;
    }
    var area, border := Expand(wot, node, stepMax);
    NodeInBall(wot.nodes, node, stepMax);
    var counted := CountSentries(wot, node, sentryRequirement, xPercent, area, border);
    r := Some(counted);
  }

  /** Every counter fits the 32 bits it is stored in. */
  lemma CountersFit(g: seq<Node>, node: nat, requirement: nat, stepMax: nat, xPercent: real)
    requires node < |g| <= U32_MAX
    ensures var r := DistanceOf(g, node, requirement, stepMax, xPercent);
      r.sentries <= U32_MAX && r.successAtBorder <= U32_MAX && r.reached < U32_MAX && r.reachedAtBorder <= U32_MAX
  {
    hide Walks, Dist;
    NodeInBall(g, node, stepMax);
    RemoveOne(Ball(g, node, stepMax), node);
    BallSize(g, Ball(g, node, stepMax));
    BallSize(g, Sphere(g, node, stepMax));
    BallSize(g, Sphere(g, node, stepMax) * Sentries(g, requirement));
    BallSize(g, Sentries(g, requirement) - {node});
  }

  /** Counting through the list of sentries is counting in their set. */
  lemma SentriesListed(g: seq<Node>, requirement: nat, listed: seq<nat>, area: set<nat>, border: set<nat>)
    requires listed == SentryIds(g, requirement)
    ensures |listed| == |Sentries(g, requirement)| <= |g|
    ensures Listed(area, listed) == area * Sentries(g, requirement)
    ensures Listed(border, listed) == border * Sentries(g, requirement)
  {
    NoDupCardinality(listed);
    assert Elems(listed) == Sentries(g, requirement);
    BallSize(g, Sentries(g, requirement));
  }

  /** Leaving the node itself out takes one off exactly when it is a sentry. */
  lemma WithoutNode(g: seq<Node>, node: nat, requirement: nat, area: set<nat>)
    requires node < |g| && node in area
    ensures var S, own := Sentries(g, requirement), if IsSentryNode(g[node], requirement) then 1 else 0;
      && |S| == |S - {node}| + own
      && |area * S| == |OtherSentries(g, node, requirement, area)| + own
      && |area| == |area - {node}| + 1
  {
  }

  lemma RemoveOne(s: set<nat>, x: nat)
    ensures |s| == |s - {x}| + if x in s then 1 else 0
  {
  }

  // ---- bounds between the counters ----

  /** The successes never exceed the sentries. */
  lemma SuccessBounded(g: seq<Node>, node: nat, requirement: nat, stepMax: nat, x: real)
    requires node < |g|
    ensures var r := DistanceOf(g, node, requirement, stepMax, x); r.success <= r.sentries
  {
    SubsetSize(OtherSentries(g, node, requirement, Ball(g, node, stepMax)), Sentries(g, requirement) - {node});
  }

  /** The successes at the border are among the successes, so that the connectivity computed from
      their difference cannot underflow, if and only if it is not a sentry measured with 0 steps. */
  lemma SuccessAtBorderIff(g: seq<Node>, node: nat, requirement: nat, stepMax: nat, x: real)
    requires node < |g|
    ensures var r := DistanceOf(g, node, requirement, stepMax, x);
      r.successAtBorder <= r.success <==> !(stepMax == 0 && IsSentryNode(g[node], requirement))
  {
    hide Walks, Dist;
    var S := Sentries(g, requirement);
    var inBall := OtherSentries(g, node, requirement, Ball(g, node, stepMax));
    if stepMax == 0 {
      AreaStarts(g, node);
      assert inBall == {};
      if IsSentryNode(g[node], requirement) {
        assert {node} * S == {node};
      } else {
        assert {node} * S == {};
      }
    } else {
      DistSelf(g, node, node);
      SubsetSize(Sphere(g, node, stepMax) * S, inBall);
    }
  }

  /** Likewise for all nodes reached. */
  lemma ReachedAtBorderIff(g: seq<Node>, node: nat, requirement: nat, stepMax: nat, x: real)
    requires node < |g|
    ensures var r := DistanceOf(g, node, requirement, stepMax, x);
      r.reachedAtBorder <= r.reached <==> stepMax > 0
  {
    hide Walks, Dist;
    if stepMax == 0 {
      AreaStarts(g, node);
      assert {node} - {node} == {};
    } else {
      DistSelf(g, node, node);
      SubsetSize(Sphere(g, node, stepMax), Ball(g, node, stepMax) - {node});
    }
  }

  // ---- more steps ----

  /** Allowing more steps never loses a node or a sentry, and never makes a node outdistanced. */
  lemma DistanceMonotone(g: seq<Node>, node: nat, requirement: nat, k: nat, k': nat, x: real)
    requires node < |g| && k <= k'
    ensures var r, r' := DistanceOf(g, node, requirement, k, x), DistanceOf(g, node, requirement, k', x);
      && r.reached <= r'.reached
      && r.success <= r'.success
      && r.sentries == r'.sentries
      && (r'.outdistanced ==> r.outdistanced)
  {
    hide Walks, Dist;
    SubsetSize(Ball(g, node, k) - {node}, Ball(g, node, k') - {node});
    SubsetSize(OtherSentries(g, node, requirement, Ball(g, node, k)),
               OtherSentries(g, node, requirement, Ball(g, node, k')));
  }

  /** From the size of the graph on, the ball is everything that reaches the node and nothing is
      left at the border: further steps change nothing. */
  lemma DistanceSaturates(g: seq<Node>, node: nat, requirement: nat, stepMax: nat, x: real)
    requires node < |g| && stepMax >= |g|
    ensures Ball(g, node, stepMax) == set y: nat | y < |g| && Reaches(g, y, node)
    ensures Sphere(g, node, stepMax) == {}
    ensures DistanceOf(g, node, requirement, stepMax, x) == DistanceOf(g, node, requirement, |g|, x)
  {
    hide Walks;
    forall y: nat ensures Dist(g, y, node) < |g| && (Dist(g, y, node) >= 0 <==> Reaches(g, y, node)) {
      DistBound(g, y, node);
      DistSpec(g, y, node);
    }
    assert Ball(g, node, stepMax) == Ball(g, node, |g|);
    assert Sphere(g, node, |g|) == {};
  }

  // ---- the counters in the words of the rule ----

  /** x certifies somebody who ... certifies the node, over at most k links. */
  ghost predicate Within(g: seq<Node>, x: nat, node: nat, k: nat) {
    exists p, j: nat :: IsWalk(g, p, x, node, j) && j <= k
  }

  lemma WithinIs(g: seq<Node>, x: nat, node: nat, k: nat)
    ensures Within(g, x, node, k) <==> 0 <= Dist(g, x, node) <= k
  {
    hide Walks, Dist;
    DistSpec(g, x, node);
    if Within(g, x, node, k) {
      var p, j: nat :| IsWalk(g, p, x, node, j) && j <= k;
      DistOfWalk(g, p, x, node, j);
    }
    if 0 <= Dist(g, x, node) <= k {
      var p :| p in Walks(g, x, node, Dist(g, x, node));
      WalkMember(g, p, x, node, Dist(g, x, node));
    }
  }

  /** Over k links, and no fewer. */
  ghost predicate JustWithin(g: seq<Node>, x: nat, node: nat, k: nat) {
    Within(g, x, node, k) && (k > 0 ==> !Within(g, x, node, k - 1))
  }

  ghost predicate SentryOf(g: seq<Node>, requirement: nat, x: nat) {
    x < |g| && g[x].enabled && g[x].issuedCount >= requirement && |g[x].linksSource| >= requirement
  }

  ghost function OthersOf(g: seq<Node>, node: nat, requirement: nat): set<nat> {
    set x: nat | x < |g| && x != node && SentryOf(g, requirement, x)
  }

  ghost function ReachingSentries(g: seq<Node>, node: nat, requirement: nat, k: nat): set<nat> {
    set x: nat | x < |g| && x != node && SentryOf(g, requirement, x) && Within(g, x, node, k)
  }

  ghost function BorderSentries(g: seq<Node>, node: nat, requirement: nat, k: nat): set<nat> {
    set x: nat | x < |g| && SentryOf(g, requirement, x) && JustWithin(g, x, node, k)
  }

  ghost function ReachingNodes(g: seq<Node>, node: nat, k: nat): set<nat> {
    set x: nat | x < |g| && x != node && Within(g, x, node, k)
  }

  ghost function BorderNodes(g: seq<Node>, node: nat, k: nat): set<nat> {
    set x: nat | x < |g| && JustWithin(g, x, node, k)
  }

  lemma JustWithinIs(g: seq<Node>, x: nat, node: nat, k: nat)
    ensures JustWithin(g, x, node, k) <==> Dist(g, x, node) == k
  {
    hide Walks, Dist, Within;
    DistSpec(g, x, node);
    WithinIs(g, x, node, k);
    if k > 0 {
      WithinIs(g, x, node, k - 1);
    }
  }

  lemma NodesMean(g: seq<Node>, node: nat, k: nat)
    ensures Ball(g, node, k) - {node} == ReachingNodes(g, node, k)
    ensures Sphere(g, node, k) == BorderNodes(g, node, k)
  {
    hide Walks, Dist, Within, JustWithin;
    forall x: nat ensures Within(g, x, node, k) <==> 0 <= Dist(g, x, node) <= k {
      WithinIs(g, x, node, k);
    }
    forall x: nat ensures JustWithin(g, x, node, k) <==> Dist(g, x, node) == k {
      JustWithinIs(g, x, node, k);
    }
  }

  lemma SentriesMean(g: seq<Node>, node: nat, requirement: nat, k: nat)
    ensures Sentries(g, requirement) - {node} == OthersOf(g, node, requirement)
    ensures OtherSentries(g, node, requirement, Ball(g, node, k)) == ReachingSentries(g, node, requirement, k)
    ensures Sphere(g, node, k) * Sentries(g, requirement) == BorderSentries(g, node, requirement, k)
  {
    hide Walks, Dist, Within, JustWithin, Ball, Sphere;
    NodesMean(g, node, k);
    var S := Sentries(g, requirement);
    forall x: nat ensures x in S <==> SentryOf(g, requirement, x) {
    }
    assert Ball(g, node, k) * S - {node} == (Ball(g, node, k) - {node}) * S;
    assert ReachingNodes(g, node, k) * S == ReachingSentries(g, node, requirement, k);
    assert BorderNodes(g, node, k) * S == BorderSentries(g, node, requirement, k);
  }

  lemma FieldsAre(g: seq<Node>, node: nat, requirement: nat, stepMax: nat, xPercent: real)
    requires node < |g|
    ensures var r := DistanceOf(g, node, requirement, stepMax, xPercent);
      && r.sentries == |OthersOf(g, node, requirement)|
      && r.success == |ReachingSentries(g, node, requirement, stepMax)|
      && r.successAtBorder == |BorderSentries(g, node, requirement, stepMax)|
      && r.reached == |ReachingNodes(g, node, stepMax)|
      && r.reachedAtBorder == |BorderNodes(g, node, stepMax)|
      && (r.outdistanced <==> TooFew(r.success, r.sentries, xPercent))
  {
    NodesMean(g, node, stepMax);
    SentriesMean(g, node, requirement, stepMax);
    hide Ball, Sphere, Sentries, OtherSentries, OthersOf, ReachingSentries, BorderSentries, ReachingNodes, BorderNodes,
      TooFew;
  }

  lemma TooFewIff(success: nat, sentries: nat, xPercent: real)
    ensures TooFew(success, sentries, xPercent) <==> success as real < xPercent * sentries as real
  {
  }

  /** What each counter counts, and when a node is outdistanced. */
  lemma CountersMean(g: seq<Node>, node: nat, requirement: nat, stepMax: nat, xPercent: real)
    requires node < |g|
    ensures var r := DistanceOf(g, node, requirement, stepMax, xPercent);
      && r.sentries == |OthersOf(g, node, requirement)|
      && r.success == |ReachingSentries(g, node, requirement, stepMax)|
      && r.successAtBorder == |BorderSentries(g, node, requirement, stepMax)|
      && r.reached == |ReachingNodes(g, node, stepMax)|
      && r.reachedAtBorder == |BorderNodes(g, node, stepMax)|
      && (r.outdistanced <==> r.success as real < xPercent * r.sentries as real)
  {
    hide *;
    FieldsAre(g, node, requirement, stepMax, xPercent);
    var r := DistanceOf(g, node, requirement, stepMax, xPercent);
    TooFewIff(r.success, r.sentries, xPercent);
  }

  /** Every other sentry is within reach. */
  ghost predicate AllReach(g: seq<Node>, node: nat, requirement: nat, k: nat) {
    forall x: nat :: x != node && SentryOf(g, requirement, x) ==> Within(g, x, node, k)
  }

  lemma AllReachMeans(g: seq<Node>, node: nat, requirement: nat, k: nat)
    ensures ReachingSentries(g, node, requirement, k) <= OthersOf(g, node, requirement)
    ensures ReachingSentries(g, node, requirement, k) == OthersOf(g, node, requirement) <==>
            AllReach(g, node, requirement, k)
  {
    hide Within;
    var near, others := ReachingSentries(g, node, requirement, k), OthersOf(g, node, requirement);
    if near == others {
      forall x: nat | x != node && SentryOf(g, requirement, x) ensures Within(g, x, node, k) {
        assert x in others;
      }
    } else {
      var x :| x in others && x !in near;
      assert !Within(g, x, node, k);
    }
  }

  /** All sentries are successes if and only if every sentry but the node itself is within reach. */
  lemma AllReachIff(g: seq<Node>, node: nat, requirement: nat, stepMax: nat, xPercent: real)
    requires node < |g|
    ensures var r := DistanceOf(g, node, requirement, stepMax, xPercent);
      r.success <= r.sentries && (r.success == r.sentries <==> AllReach(g, node, requirement, stepMax))
  {
    hide DistanceOf, AllReach, ReachingSentries, OthersOf;
    CountersMean(g, node, requirement, stepMax, xPercent);
    AllReachMeans(g, node, requirement, stepMax);
    SubsetSize(ReachingSentries(g, node, requirement, stepMax), OthersOf(g, node, requirement));
  }

  /** Hence a node within reach of all other sentries meets the rule, whatever share of them it asks for;
      and a rule that asks for all of them is met by no other node. */
  lemma MeetsTheRule(g: seq<Node>, node: nat, requirement: nat, stepMax: nat, xPercent: real)
    requires node < |g| && 0.0 <= xPercent <= 1.0
    ensures var met := !DistanceOf(g, node, requirement, stepMax, xPercent).outdistanced;
      && (AllReach(g, node, requirement, stepMax) ==> met)
      && (xPercent == 1.0 && met ==> AllReach(g, node, requirement, stepMax))
  {
    hide DistanceOf, AllReach, ReachingSentries, OthersOf;
    AllReachIff(g, node, requirement, stepMax, xPercent);
    CountersMean(g, node, requirement, stepMax, xPercent);
    AtMostAll(xPercent, DistanceOf(g, node, requirement, stepMax, xPercent).sentries);
  }

  lemma AtMostAll(share: real, all: nat)
    requires 0.0 <= share <= 1.0
    ensures share * all as real <= all as real
  {
  }
}
