/**
  The forward phase of Brandes' algorithm: a breadth-first search against the links, which counts
  shortest paths and remembers, for every node, the next nodes on them.
 */
module BreadthFirst {
  import opened Sequences
  import opened Sums
  import opened Wot
  import opened LinkPaths

  /** How far the search goes.  `Steps(m)` expands only nodes closer than m; m may be negative. */
  datatype Horizon = Unlimited | Steps(max: int)

  predicate Expands(h: Horizon, distance: int) {
    h.Unlimited? || distance < h.max
  }

  /** Distances the search can discover: 0, and everything one link beyond an expanded node. */
  ghost predicate Inside(h: Horizon, distance: int) {
    distance == 0 || (distance > 0 && Expands(h, distance - 1))
  }

  ghost predicate Seen(g: seq<Node>, s: nat, h: Horizon, x: nat) {
    Dist(g, x, s) >= 0 && Inside(h, Dist(g, x, s))
  }

  /** The search records v as a next hop of w. */
  ghost predicate Records(g: seq<Node>, s: nat, h: Horizon, w: nat, v: nat) {
    StepsTo(g, s, w, v) && Expands(h, Dist(g, v, s))
  }

  /** The members of a list that w steps to, in the order of the list. */
  ghost function NextHops(g: seq<Node>, s: nat, h: Horizon, order: seq<nat>, w: nat): seq<nat> {
    if order == [] then []
    else
      var v, rest := order[|order| - 1], NextHops(g, s, h, order[..|order| - 1], w);
      if Records(g, s, h, w, v) then rest + [v] else rest
  }

  ghost function SigmaOver(g: seq<Node>, s: nat, nodes: seq<nat>): real {
    if nodes == [] then 0.0
    else SigmaOver(g, s, nodes[..|nodes| - 1]) + Sigma(g, nodes[|nodes| - 1], s) as real
  }

  function PathsOf(paths: map<nat, seq<nat>>, w: nat): seq<nat> {
    if w in paths then paths[w] else []
  }

  lemma NextHopsSnoc(g: seq<Node>, s: nat, h: Horizon, order: seq<nat>, v: nat, w: nat)
    ensures NextHops(g, s, h, order + [v], w) ==
            NextHops(g, s, h, order, w) + (if Records(g, s, h, w, v) then [v] else [])
  {
  }

  lemma SigmaOverSnoc(g: seq<Node>, s: nat, nodes: seq<nat>, v: nat)
    ensures SigmaOver(g, s, nodes + [v]) == SigmaOver(g, s, nodes) + Sigma(g, v, s) as real
  {
  }

  lemma {:induction false} NextHopsAre(g: seq<Node>, s: nat, h: Horizon, order: seq<nat>, w: nat)
    requires NoDup(order)
    ensures NoDup(NextHops(g, s, h, order, w))
    ensures forall v :: v in NextHops(g, s, h, order, w) <==> v in order && Records(g, s, h, w, v)
    decreases order
  {
    if order != [] {
      NextHopsAre(g, s, h, order[..|order| - 1], w);
      assert order == order[..|order| - 1] + [order[|order| - 1]];
    }
  }

  ghost function ListedSigma(g: seq<Node>, s: nat, h: Horizon, order: seq<nat>, w: nat, v: nat): real {
    if v in order && Records(g, s, h, w, v) then Sigma(g, v, s) as real else 0.0
  }

  ghost function ListedTotal(g: seq<Node>, s: nat, h: Horizon, order: seq<nat>, w: nat): real {
    Sum(|g|, (v: nat) => ListedSigma(g, s, h, order, w, v))
  }

  lemma ListedTotalStep(g: seq<Node>, s: nat, h: Horizon, rest: seq<nat>, last: nat, w: nat)
    requires last < |g| && last !in rest
    ensures ListedTotal(g, s, h, rest + [last], w) ==
            ListedTotal(g, s, h, rest, w) + (if Records(g, s, h, w, last) then Sigma(g, last, s) as real else 0.0)
  {
    SumUpdate(|g|, last, (v: nat) => ListedSigma(g, s, h, rest, w, v),
              (v: nat) => ListedSigma(g, s, h, rest + [last], w, v));
  }

  lemma NextHopsSigmaStep(g: seq<Node>, s: nat, h: Horizon, rest: seq<nat>, last: nat, w: nat)
    ensures SigmaOver(g, s, NextHops(g, s, h, rest + [last], w)) ==
            SigmaOver(g, s, NextHops(g, s, h, rest, w)) +
            (if Records(g, s, h, w, last) then Sigma(g, last, s) as real else 0.0)
  {
  }

  /** Adding up the counters of the listed next hops is a sum over all nodes. */
  lemma {:induction false} SigmaOverNextHops(g: seq<Node>, s: nat, h: Horizon, order: seq<nat>, w: nat)
    requires NoDup(order) && forall i :: 0 <= i < |order| ==> order[i] < |g|
    ensures SigmaOver(g, s, NextHops(g, s, h, order, w)) == ListedTotal(g, s, h, order, w)
    decreases order
  {
    if order == [] {
      SumZero(|g|, (v: nat) => ListedSigma(g, s, h, order, w, v));
    } else {
      var rest, last := order[..|order| - 1], order[|order| - 1];
      assert order == rest + [last];
      assert last !in rest;
      SigmaOverNextHops(g, s, h, rest, w);
      NextHopsSigmaStep(g, s, h, rest, last, w);
      ListedTotalStep(g, s, h, rest, last, w);
    }
  }

  /** Once every next hop of w is listed, their counters add up to the number of shortest paths. */
  lemma SigmaComplete(g: seq<Node>, s: nat, h: Horizon, order: seq<nat>, w: nat)
    requires NoDup(order) && forall i :: 0 <= i < |order| ==> order[i] < |g|
    requires Dist(g, w, s) > 0
    requires forall v: nat :: StepsTo(g, s, w, v) ==> v in order && Expands(h, Dist(g, v, s))
    ensures SigmaOver(g, s, NextHops(g, s, h, order, w)) == Sigma(g, w, s) as real
  {
    SigmaOverNextHops(g, s, h, order, w);
    SigmaRecurrence(g, w, s);
    var count := (v: nat) => StepSigma(g, s, w, v);
    SumOfNats(|g|, count, (v: nat) => ListedSigma(g, s, h, order, w, v));
  }

  // ---- the state of the search ----

  datatype Search = Search(stack: seq<nat>, queue: seq<nat>, d: seq<int>, sigma: seq<real>, paths: map<nat, seq<nat>>)
  {
    ghost function Order(): seq<nat> { stack + queue }
  }

  /** The discovered nodes are listed once, by increasing distance, with their true distance. */
  ghost predicate Discovered(g: seq<Node>, s: nat, h: Horizon, b: Search) {
    && |b.d| == |g|
    && NoDup(b.Order())
    && (forall i :: 0 <= i < |b.Order()| ==> b.Order()[i] < |g|)
    && (forall i, j :: 0 <= i < j < |b.Order()| ==> Dist(g, b.Order()[i], s) <= Dist(g, b.Order()[j], s))
    && (forall x: nat :: x < |g| ==> KnownAt(g, s, h, b, x))
  }

  ghost predicate KnownAt(g: seq<Node>, s: nat, h: Horizon, b: Search, x: nat)
    requires x < |b.d|
  {
    if x in b.Order() then b.d[x] == Dist(g, x, s) >= 0 && Inside(h, b.d[x]) else b.d[x] == -1
  }

  /** The queue spans two levels, and what is stacked has been expanded. */
  ghost predicate Frontier(g: seq<Node>, s: nat, h: Horizon, b: Search)
    requires |b.d| == |g|
  {
    && s in b.Order()
    && (forall x :: x in b.queue ==> Dist(g, x, s) <= Dist(g, b.queue[0], s) + 1)
    && (forall v, w: nat :: v in b.stack && Certifies(g, w, v) && Expands(h, Dist(g, v, s)) ==> b.d[w] >= 0)
  }

  ghost function Base(s: nat, w: nat): real {
    if w == s then 1.0 else 0.0
  }

  /** Counters and next hops account for the stacked nodes. */
  ghost predicate Counted(g: seq<Node>, s: nat, h: Horizon, b: Search) {
    && |b.sigma| == |g|
    && (forall w: nat :: w < |g| ==> CountedAt(g, s, h, b, w))
    && (forall w :: w in b.paths ==> w < |g| && b.paths[w] != [])
  }

  ghost predicate CountedAt(g: seq<Node>, s: nat, h: Horizon, b: Search, w: nat)
    requires w < |b.sigma|
  {
    && b.sigma[w] == Base(s, w) + SigmaOver(g, s, NextHops(g, s, h, b.stack, w))
    && PathsOf(b.paths, w) == NextHops(g, s, h, b.stack, w)
  }

  ghost predicate Invariant(g: seq<Node>, s: nat, h: Horizon, b: Search) {
    s < |g| && InRange(g) && Discovered(g, s, h, b) && Frontier(g, s, h, b) && Counted(g, s, h, b)
  }

  lemma InitialSearch(g: seq<Node>, s: nat, h: Horizon, b: Search)
    requires s < |g| && InRange(g)
    requires b.stack == [] && b.queue == [s] && b.paths == map[]
    requires |b.d| == |g| && forall x: nat :: x < |g| ==> b.d[x] == if x == s then 0 else -1
    requires |b.sigma| == |g| && forall x: nat :: x < |g| ==> b.sigma[x] == Base(s, x)
    ensures Invariant(g, s, h, b)
  {
    hide Walks, Dist;
    DistSelf(g, s, s);
    assert b.Order() == [s];
  }

  /** The search goes on: its invariant holds and the queue has a head. */
  ghost predicate Pending(g: seq<Node>, s: nat, h: Horizon, b: Search) {
    && Invariant(g, s, h, b)
    && b.queue != [] && b.queue[0] < |g|
    && b.d[b.queue[0]] == Dist(g, b.queue[0], s) && Inside(h, Dist(g, b.queue[0], s)) && Dist(g, b.queue[0], s) >= 0
  }

  lemma QueueGivesPending(g: seq<Node>, s: nat, h: Horizon, b: Search)
    requires Invariant(g, s, h, b) && b.queue != []
    ensures Pending(g, s, h, b)
    ensures forall w :: w in b.paths ==> w < |g| && b.paths[w] != []
    ensures |b.stack| < |g| && NoDup(b.stack) && forall i :: 0 <= i < |b.stack| ==> b.stack[i] < |g|
  {
    assert b.Order()[|b.stack|] == b.queue[0];
    assert KnownAt(g, s, h, b, b.queue[0]);
    StackNoDup(b);
    NoDupLength(b.Order(), |g|);
    forall i | 0 <= i < |b.stack| ensures b.stack[i] < |g| {
      assert b.Order()[i] == b.stack[i];
    }
  }

  lemma StackNoDup(b: Search)
    requires NoDup(b.Order())
    ensures NoDup(b.stack)
  {
    forall i, j | 0 <= i < j < |b.stack| ensures b.stack[i] != b.stack[j] {
      assert b.Order()[i] == b.stack[i] && b.Order()[j] == b.stack[j];
    }
  }

  lemma QueueNotCloser(g: seq<Node>, s: nat, h: Horizon, b: Search, x: nat)
    requires Pending(g, s, h, b) && x in b.queue
    ensures Dist(g, b.queue[0], s) <= Dist(g, x, s)
  {
    var i :| 0 <= i < |b.queue| && b.queue[i] == x;
    assert b.Order()[|b.stack|] == b.queue[0] && b.Order()[|b.stack| + i] == x;
  }

  lemma StackNotFarther(g: seq<Node>, s: nat, h: Horizon, b: Search, x: nat)
    requires Pending(g, s, h, b) && x in b.stack
    ensures Dist(g, x, s) <= Dist(g, b.queue[0], s)
  {
    var i :| 0 <= i < |b.stack| && b.stack[i] == x;
    assert b.Order()[i] == x && b.Order()[|b.stack|] == b.queue[0];
  }

  /** Everything closer than the head of the queue is already stacked. */
  lemma {:induction false} CloserAreStacked(g: seq<Node>, s: nat, h: Horizon, b: Search, x: nat)
    requires Pending(g, s, h, b)
    requires 0 <= Dist(g, x, s) < Dist(g, b.queue[0], s)
    ensures x in b.stack
    decreases Dist(g, x, s)
  {
    DistSpec(g, x, s);
    assert KnownAt(g, s, h, b, x);
    if Dist(g, x, s) == 0 {
      DistSelf(g, x, s);
    } else {
      var u := NextHop(g, x, s);
      CloserAreStacked(g, s, h, b, u);
      assert Expands(h, Dist(g, u, s));
    }
    assert x in b.Order();
    if x in b.queue {
      QueueNotCloser(g, s, h, b, x);
    }
  }

  lemma NothingListed(nodes: seq<nat>)
    ensures nodes == [] || nodes[0] in nodes
  {
  }

  /** The counter of the head of the queue is final. */
  lemma HeadCounted(g: seq<Node>, s: nat, h: Horizon, b: Search)
    requires Pending(g, s, h, b)
    ensures b.sigma[b.queue[0]] == Sigma(g, b.queue[0], s) as real
  {
    var v := b.queue[0];
    QueueGivesPending(g, s, h, b);
    DistSelf(g, v, s);
    assert CountedAt(g, s, h, b, v);
    if v == s {
      SigmaSelf(g, s);
      NextHopsAre(g, s, h, b.stack, v);
      NothingListed(NextHops(g, s, h, b.stack, v));
    } else {
      forall u: nat | StepsTo(g, s, v, u) ensures u in b.stack && Expands(h, Dist(g, u, s)) {
        CloserAreStacked(g, s, h, b, u);
      }
      SigmaComplete(g, s, h, b.stack, v);
    }
  }

  /** A node no farther than v that certifies v has been discovered. */
  lemma FoundEarlier(g: seq<Node>, s: nat, h: Horizon, b: Search, w: nat)
    requires Pending(g, s, h, b)
    requires Certifies(g, w, b.queue[0]) && 0 <= Dist(g, w, s) <= Dist(g, b.queue[0], s)
    ensures b.d[w] >= 0
  {
    assert KnownAt(g, s, h, b, w);
    if Dist(g, w, s) == 0 {
      DistSelf(g, w, s);
    } else {
      var u := NextHop(g, w, s);
      CloserAreStacked(g, s, h, b, u);
      assert Expands(h, Dist(g, u, s));
    }
  }

  /** A node discovered from v lies one link farther than v. */
  lemma NewlyFound(g: seq<Node>, s: nat, h: Horizon, b: Search, w: nat)
    requires Pending(g, s, h, b)
    requires Certifies(g, w, b.queue[0]) && b.d[w] < 0
    ensures Dist(g, w, s) == Dist(g, b.queue[0], s) + 1
  {
    DistStep(g, w, b.queue[0], s);
    if Dist(g, w, s) <= Dist(g, b.queue[0], s) {
      FoundEarlier(g, s, h, b, w);
    }
  }

  // ---- expanding one node ----

  /** The links' sources that are seen for the first time, in the order they are enumerated. */
  function FirstSeen(d: seq<int>, sources: seq<nat>): seq<nat>
    requires forall i :: 0 <= i < |sources| ==> sources[i] < |d|
  {
    if sources == [] then []
    else
      var last, rest := sources[|sources| - 1], FirstSeen(d, sources[..|sources| - 1]);
      if d[last] < 0 then rest + [last] else rest
  }

  lemma {:induction false} FirstSeenAre(d: seq<int>, sources: seq<nat>)
    requires NoDup(sources) && forall i :: 0 <= i < |sources| ==> sources[i] < |d|
    ensures NoDup(FirstSeen(d, sources))
    ensures forall x :: x in FirstSeen(d, sources) <==> x in sources && d[x] < 0
    decreases sources
  {
    if sources != [] {
      FirstSeenAre(d, sources[..|sources| - 1]);
      assert sources == sources[..|sources| - 1] + [sources[|sources| - 1]];
    }
  }

  /** The state after the links of v to the given sources have been looked at. */
  ghost predicate Visited(v: nat, sources: seq<nat>, before: Search, after: Search)
    requires forall i :: 0 <= i < |sources| ==> sources[i] < |before.d|
    requires v < |before.d| == |before.sigma|
  {
    && after.stack == before.stack
    && after.queue == before.queue + FirstSeen(before.d, sources)
    && |after.d| == |before.d| && |after.sigma| == |before.sigma|
    && (forall w: nat :: w < |before.d| ==> VisitedAt(v, sources, before, after, w))
    && (forall w :: w in after.paths ==> w < |before.d| && after.paths[w] != [])
  }

  ghost predicate VisitedAt(v: nat, sources: seq<nat>, before: Search, after: Search, w: nat)
    requires v < |before.d| == |before.sigma| == |after.d| == |after.sigma| && w < |before.d|
  {
    && after.d[w] == (if w in sources && before.d[w] < 0 then before.d[v] + 1 else before.d[w])
    && if w in sources && after.d[w] == before.d[v] + 1
       then after.sigma[w] == before.sigma[w] + before.sigma[v]
         && PathsOf(after.paths, w) == PathsOf(before.paths, w) + [v]
       else after.sigma[w] == before.sigma[w] && PathsOf(after.paths, w) == PathsOf(before.paths, w)
  }

  lemma OrderAfter(b: Search, stacked: Search, after: Search, added: seq<nat>)
    requires b.queue != []
    requires stacked == b.(stack := b.stack + [b.queue[0]], queue := b.queue[1..])
    requires after.stack == stacked.stack && after.queue == stacked.queue + added
    ensures after.Order() == b.Order() + added
  {
  }

  /** Visiting all links into v, from the head of the queue. */
  ghost predicate Expansion(g: seq<Node>, s: nat, h: Horizon, b: Search, sources: seq<nat>, after: Search) {
    && Pending(g, s, h, b)
    && Expands(h, b.d[b.queue[0]])
    && NoDup(sources)
    && (forall x :: x in sources <==> Certifies(g, x, b.queue[0]))
    && (forall i :: 0 <= i < |sources| ==> sources[i] < |g|)
    && Visited(b.queue[0], sources, b.(stack := b.stack + [b.queue[0]], queue := b.queue[1..]), after)
  }

  lemma AddedNodes(g: seq<Node>, s: nat, h: Horizon, b: Search, sources: seq<nat>, after: Search)
    requires Expansion(g, s, h, b, sources, after)
    ensures var added := FirstSeen(b.d, sources);
      && after.Order() == b.Order() + added
      && after.stack == b.stack + [b.queue[0]] && after.queue == b.queue[1..] + added
      && NoDup(added)
      && (forall x :: x in added <==> x in sources && b.d[x] < 0)
      && (forall x :: x in added ==> x < |g| && x !in b.Order() && Dist(g, x, s) == Dist(g, b.queue[0], s) + 1)
  {
    OrderAfter(b, b.(stack := b.stack + [b.queue[0]], queue := b.queue[1..]), after, FirstSeen(b.d, sources));
    FirstSeenAre(b.d, sources);
    forall x | x in sources && b.d[x] < 0
      ensures x < |g| && x !in b.Order() && Dist(g, x, s) == Dist(g, b.queue[0], s) + 1
    {
      assert KnownAt(g, s, h, b, x);
      NewlyFound(g, s, h, b, x);
    }
  }

  lemma OrderNotFarther(g: seq<Node>, s: nat, h: Horizon, b: Search, x: nat)
    requires Pending(g, s, h, b) && x in b.Order()
    ensures Dist(g, x, s) <= Dist(g, b.queue[0], s) + 1
  {
    if x in b.stack {
      StackNotFarther(g, s, h, b, x);
    }
  }

  lemma ExpandKeepsOrder(g: seq<Node>, s: nat, h: Horizon, b: Search, sources: seq<nat>, after: Search)
    requires Expansion(g, s, h, b, sources, after)
    ensures NoDup(after.Order())
    ensures forall i :: 0 <= i < |after.Order()| ==> after.Order()[i] < |g|
    ensures forall i, j :: 0 <= i < j < |after.Order()| ==> Dist(g, after.Order()[i], s) <= Dist(g, after.Order()[j], s)
  {
    hide Walks, Dist;
    AddedNodes(g, s, h, b, sources, after);
    var a, added := b.Order(), FirstSeen(b.d, sources);
    var o := a + added;
    NoDupConcat(a, added);
    forall j | |a| <= j < |o| ensures o[j] in added {
      assert o[j] == added[j - |a|];
    }
    forall i, j | 0 <= i < j < |o| ensures Dist(g, o[i], s) <= Dist(g, o[j], s) {
      if j >= |a| {
        if i < |a| {
          assert o[i] == a[i] && a[i] in a;
          OrderNotFarther(g, s, h, b, o[i]);
        }
      } else {
        assert o[i] == a[i] && o[j] == a[j];
      }
    }
  }

  lemma ExpandKeepsDiscovered(g: seq<Node>, s: nat, h: Horizon, b: Search, sources: seq<nat>, after: Search)
    requires Expansion(g, s, h, b, sources, after)
    ensures Discovered(g, s, h, after)
  {
    ExpandKeepsOrder(g, s, h, b, sources, after);
    AddedNodes(g, s, h, b, sources, after);
    forall x: nat | x < |g| ensures KnownAt(g, s, h, after, x) {
      assert KnownAt(g, s, h, b, x);
      assert VisitedAt(b.queue[0], sources, b.(stack := b.stack + [b.queue[0]], queue := b.queue[1..]), after, x);
    }
  }

  lemma ExpandKeepsFrontier(g: seq<Node>, s: nat, h: Horizon, b: Search, sources: seq<nat>, after: Search)
    requires Expansion(g, s, h, b, sources, after)
    ensures |after.d| == |g| && Frontier(g, s, h, after)
  {
    hide Walks, Dist;
    AddedNodes(g, s, h, b, sources, after);
    forall x | x in after.queue
      ensures Dist(g, b.queue[0], s) <= Dist(g, x, s) <= Dist(g, b.queue[0], s) + 1
    {
      if x in b.queue {
        QueueNotCloser(g, s, h, b, x);
      }
    }
    if after.queue != [] {
      assert after.queue[0] in after.queue;
    }
    forall u, w: nat | u in after.stack && Certifies(g, w, u) && Expands(h, Dist(g, u, s)) ensures after.d[w] >= 0 {
      assert VisitedAt(b.queue[0], sources, b.(stack := b.stack + [b.queue[0]], queue := b.queue[1..]), after, w);
      assert KnownAt(g, s, h, b, w);
    }
  }

  lemma CountedAtStep(g: seq<Node>, s: nat, h: Horizon, b: Search, sources: seq<nat>, after: Search, w: nat)
    requires Expansion(g, s, h, b, sources, after) && w < |g|
    requires after.stack == b.stack + [b.queue[0]] && KnownAt(g, s, h, after, w)
    requires b.sigma[b.queue[0]] == Sigma(g, b.queue[0], s) as real
    ensures CountedAt(g, s, h, after, w)
  {
    var v := b.queue[0];
    assert CountedAt(g, s, h, b, w);
    assert KnownAt(g, s, h, b, w);
    assert VisitedAt(v, sources, b.(stack := b.stack + [v], queue := b.queue[1..]), after, w);
    NextHopsSnoc(g, s, h, b.stack, v, w);
    SigmaOverSnoc(g, s, NextHops(g, s, h, b.stack, w), v);
    if w in sources {
      assert after.d[w] == Dist(g, w, s);
    }
  }

  lemma ExpandKeepsCounted(g: seq<Node>, s: nat, h: Horizon, b: Search, sources: seq<nat>, after: Search)
    requires Expansion(g, s, h, b, sources, after)
    requires Discovered(g, s, h, after)
    ensures Counted(g, s, h, after)
  {
    HeadCounted(g, s, h, b);
    forall w: nat | w < |g| ensures CountedAt(g, s, h, after, w) {
      CountedAtStep(g, s, h, b, sources, after, w);
    }
  }

  lemma ExpandKeeps(g: seq<Node>, s: nat, h: Horizon, b: Search, sources: seq<nat>, after: Search)
    requires Expansion(g, s, h, b, sources, after)
    ensures Invariant(g, s, h, after)
  {
    ExpandKeepsDiscovered(g, s, h, b, sources, after);
    ExpandKeepsFrontier(g, s, h, b, sources, after);
    ExpandKeepsCounted(g, s, h, b, sources, after);
  }

  lemma StackingKeepsFrontier(g: seq<Node>, s: nat, h: Horizon, b: Search, after: Search)
    requires Pending(g, s, h, b)
    requires after == b.(stack := b.stack + [b.queue[0]], queue := b.queue[1..])
    requires !Expands(h, b.d[b.queue[0]])
    ensures Frontier(g, s, h, after)
  {
    hide Walks, Dist;
    OrderAfter(b, after, after, []);
    forall x | x in after.queue
      ensures Dist(g, b.queue[0], s) <= Dist(g, x, s) <= Dist(g, b.queue[0], s) + 1
    {
      QueueNotCloser(g, s, h, b, x);
    }
    if after.queue != [] {
      assert after.queue[0] in after.queue;
    }
  }

  /** A node at the horizon is stacked and not expanded. */
  lemma StackingKeeps(g: seq<Node>, s: nat, h: Horizon, b: Search, after: Search)
    requires Pending(g, s, h, b)
    requires after == b.(stack := b.stack + [b.queue[0]], queue := b.queue[1..])
    requires !Expands(h, b.d[b.queue[0]])
    ensures Invariant(g, s, h, after)
  {
    StackingKeepsFrontier(g, s, h, b, after);
    OrderAfter(b, after, after, []);
    assert after.Order() == b.Order();
    forall x: nat | x < |g| ensures KnownAt(g, s, h, after, x) {
      assert KnownAt(g, s, h, b, x);
    }
    forall w: nat | w < |g| ensures CountedAt(g, s, h, after, w) {
      assert CountedAt(g, s, h, b, w);
      NextHopsSnoc(g, s, h, b.stack, b.queue[0], w);
    }
  }

  // ---- the end of the search ----

  lemma {:induction false} AllSeenAreStacked(g: seq<Node>, s: nat, h: Horizon, b: Search, x: nat)
    requires Invariant(g, s, h, b) && b.queue == [] && Seen(g, s, h, x)
    ensures x in b.stack
    decreases Dist(g, x, s)
  {
    DistSpec(g, x, s);
    assert b.Order() == b.stack;
    assert KnownAt(g, s, h, b, x);
    if Dist(g, x, s) == 0 {
      DistSelf(g, x, s);
    } else {
      var u := NextHop(g, x, s);
      AllSeenAreStacked(g, s, h, b, u);
      assert b.d[x] >= 0;
    }
  }

  lemma StackedIffSeen(g: seq<Node>, s: nat, h: Horizon, b: Search, x: nat)
    requires Invariant(g, s, h, b) && b.queue == []
    ensures x in b.stack <==> Seen(g, s, h, x)
  {
    assert b.Order() == b.stack;
    if x in b.stack {
      assert KnownAt(g, s, h, b, x);
    }
    if Seen(g, s, h, x) {
      AllSeenAreStacked(g, s, h, b, x);
    }
  }

  /** What the tables finally hold about w. */
  ghost predicate FinalAt(g: seq<Node>, s: nat, h: Horizon, b: Search, w: nat)
    requires w < |b.d| == |b.sigma|
  {
    if Seen(g, s, h, w) then
      && b.d[w] == Dist(g, w, s)
      && b.sigma[w] == Sigma(g, w, s) as real
      && NoDup(PathsOf(b.paths, w))
      && (forall v :: v in PathsOf(b.paths, w) <==> StepsTo(g, s, w, v))
    else
      b.d[w] == -1 && b.sigma[w] == 0.0 && PathsOf(b.paths, w) == []
  }

  /** What the forward phase computes. */
  ghost predicate ForwardDone(g: seq<Node>, s: nat, h: Horizon, b: Search) {
    && |b.d| == |g| == |b.sigma|
    && NoDup(b.stack)
    && (forall x: nat :: x in b.stack <==> Seen(g, s, h, x))
    && (forall i, j :: 0 <= i < j < |b.stack| ==> Dist(g, b.stack[i], s) <= Dist(g, b.stack[j], s))
    && (forall w: nat :: w < |g| ==> FinalAt(g, s, h, b, w))
    && (forall w :: w in b.paths ==> w < |g| && b.paths[w] != [])
  }

  lemma SigmaFinal(g: seq<Node>, s: nat, h: Horizon, b: Search, w: nat)
    requires Invariant(g, s, h, b) && b.queue == [] && Seen(g, s, h, w) && w < |g|
    ensures b.sigma[w] == Sigma(g, w, s) as real
  {
    assert b.Order() == b.stack;
    assert CountedAt(g, s, h, b, w);
    NextHopsAre(g, s, h, b.stack, w);
    DistSelf(g, w, s);
    if w == s {
      DistSelf(g, s, s);
      SigmaSelf(g, s);
      NothingListed(NextHops(g, s, h, b.stack, w));
    } else {
      forall v: nat | StepsTo(g, s, w, v) ensures v in b.stack && Expands(h, Dist(g, v, s)) {
        StackedIffSeen(g, s, h, b, v);
      }
      SigmaComplete(g, s, h, b.stack, w);
    }
  }

  lemma FinalTables(g: seq<Node>, s: nat, h: Horizon, b: Search, w: nat)
    requires Invariant(g, s, h, b) && b.queue == [] && w < |g|
    ensures FinalAt(g, s, h, b, w)
  {
    hide Walks, Dist;
    assert b.Order() == b.stack;
    assert CountedAt(g, s, h, b, w) && KnownAt(g, s, h, b, w);
    StackedIffSeen(g, s, h, b, w);
    NextHopsAre(g, s, h, b.stack, w);
    if Seen(g, s, h, w) {
      SigmaFinal(g, s, h, b, w);
      forall v: nat ensures v in PathsOf(b.paths, w) <==> StepsTo(g, s, w, v) {
        StackedIffSeen(g, s, h, b, v);
      }
    } else {
      DistSelf(g, s, s);
      NothingListed(NextHops(g, s, h, b.stack, w));
    }
  }

  lemma SearchCompletes(g: seq<Node>, s: nat, h: Horizon, b: Search)
    requires Invariant(g, s, h, b) && b.queue == []
    ensures ForwardDone(g, s, h, b)
  {
    assert b.Order() == b.stack;
    forall x: nat ensures x in b.stack <==> Seen(g, s, h, x) {
      StackedIffSeen(g, s, h, b, x);
    }
    forall w: nat | w < |g| ensures FinalAt(g, s, h, b, w) {
      FinalTables(g, s, h, b, w);
    }
  }

  // ---- the algorithm ----

  method ForwardPhase(wot: RustyWebOfTrust, s: nat, h: Horizon)
    returns (stack: seq<nat>, paths: map<nat, seq<nat>>, sigmas: seq<real>, distances: seq<int>)
    requires s < |wot.nodes| && InRange(wot.nodes)
    ensures ForwardDone(wot.nodes, s, h, Search(stack, [], distances, sigmas, paths))
  {
    hide Walks, Dist, NextHops, Invariant, ForwardDone;
    var size := |wot.nodes|;
    ghost var g := wot.nodes;
    stack := [];
    paths := map[];
    var sigma := new real[size](_ => 0.0);
    var d := new int[size](_ => -1);
    var q := [s];
    sigma[s] := 1.0;
    d[s] := 0;
    InitialSearch(g, s, h, Search(stack, q, d[..], sigma[..], paths));
    while q != []
      invariant wot.nodes == g
      invariant Invariant(g, s, h, Search(stack, q, d[..], sigma[..], paths))
      decreases size - |stack|
    {
      ghost var before := Search(stack, q, d[..], sigma[..], paths);
      QueueGivesPending(g, s, h, before);
      var v := q[0];
      q := q[1..];
      stack := stack + [v];
      if Expands(h, d[v]) {
        var found := wot.GetLinksSource(v);
        var sources := found.value;
        forall x: nat ensures x in sources <==> Certifies(g, x, v) {
          assert x in sources <==> x in Elems(sources);
          assert x in sources <==> x in g[v].linksSource;
        }
        forall i | 0 <= i < |sources| ensures sources[i] < |g| {
          assert sources[i] in sources;
        }
        q, paths := VisitSources(v, sources, q, d, sigma, paths, Search(stack, q, d[..], sigma[..], paths));
        ExpandKeeps(g, s, h, before, sources, Search(stack, q, d[..], sigma[..], paths));
      } else {
        StackingKeeps(g, s, h, before, Search(stack, q, d[..], sigma[..], paths));
      }
    }
    SearchCompletes(g, s, h, Search(stack, q, d[..], sigma[..], paths));
    sigmas := sigma[..];
    distances := d[..];
  }

  /** The tables after one more link, into v from w, has been looked at. */
  ghost function OneMore(v: nat, w: nat, now: Search): Search
    requires v < |now.d| == |now.sigma| && w < |now.d|
  {
    var queue := if now.d[w] < 0 then now.queue + [w] else now.queue;
    var d := if now.d[w] < 0 then now.d[w := now.d[v] + 1] else now.d;
    if d[w] == d[v] + 1 then
      Search(now.stack, queue, d, now.sigma[w := now.sigma[w] + now.sigma[v]],
             now.paths[w := PathsOf(now.paths, w) + [v]])
    else
      Search(now.stack, queue, d, now.sigma, now.paths)
  }

  lemma VisitedAtMore(v: nat, seen: seq<nat>, w: nat, before: Search, now: Search, x: nat)
    requires v < |before.d| == |before.sigma| == |now.d| == |now.sigma|
    requires before.d[v] >= 0 && w < |before.d| && w !in seen && x < |before.d|
    requires VisitedAt(v, seen, before, now, v) && VisitedAt(v, seen, before, now, w) &&
             VisitedAt(v, seen, before, now, x)
    ensures VisitedAt(v, seen + [w], before, OneMore(v, w, now), x)
  {
  }

  lemma FirstSeenSnoc(d: seq<int>, seen: seq<nat>, w: nat)
    requires w < |d| && forall i :: 0 <= i < |seen| ==> seen[i] < |d|
    ensures forall i :: 0 <= i < |seen + [w]| ==> (seen + [w])[i] < |d|
    ensures FirstSeen(d, seen + [w]) == FirstSeen(d, seen) + (if d[w] < 0 then [w] else [])
  {
    assert (seen + [w])[..|seen|] == seen;
  }

  lemma OneMoreTables(v: nat, seen: seq<nat>, w: nat, before: Search, now: Search)
    requires forall i :: 0 <= i < |seen| ==> seen[i] < |before.d|
    requires v < |before.d| == |before.sigma| && before.d[v] >= 0 && w < |before.d| && w !in seen
    requires Visited(v, seen, before, now)
    ensures forall x: nat :: x < |before.d| ==> VisitedAt(v, seen + [w], before, OneMore(v, w, now), x)
    ensures now.d[w] == before.d[w]
  {
    assert VisitedAt(v, seen, before, now, v) && VisitedAt(v, seen, before, now, w);
    forall x: nat | x < |before.d| ensures VisitedAt(v, seen + [w], before, OneMore(v, w, now), x) {
      assert VisitedAt(v, seen, before, now, x);
      VisitedAtMore(v, seen, w, before, now, x);
    }
  }

  lemma OneMoreQueue(v: nat, seen: seq<nat>, w: nat, before: Search, now: Search)
    requires forall i :: 0 <= i < |seen| ==> seen[i] < |before.d|
    requires v < |now.d| == |now.sigma| == |before.d| && w < |before.d|
    requires now.queue == before.queue + FirstSeen(before.d, seen) && now.d[w] == before.d[w]
    ensures forall i :: 0 <= i < |seen + [w]| ==> (seen + [w])[i] < |before.d|
    ensures OneMore(v, w, now).queue == before.queue + FirstSeen(before.d, seen + [w])
  {
    hide FirstSeen, PathsOf;
    FirstSeenSnoc(before.d, seen, w);
    Associate(before.queue, FirstSeen(before.d, seen), [w]);
    AppendNothing(FirstSeen(before.d, seen));
  }

  lemma OneMoreHops(v: nat, w: nat, now: Search)
    requires v < |now.d| == |now.sigma| && w < |now.d|
    requires forall x :: x in now.paths ==> x < |now.d| && now.paths[x] != []
    ensures forall x :: x in OneMore(v, w, now).paths ==> x < |now.d| && OneMore(v, w, now).paths[x] != []
  {
  }

  /** Looking at one more link. */
  lemma VisitOne(v: nat, seen: seq<nat>, w: nat, before: Search, now: Search)
    requires forall i :: 0 <= i < |seen| ==> seen[i] < |before.d|
    requires v < |before.d| == |before.sigma| && before.d[v] >= 0 && w < |before.d| && w !in seen
    requires Visited(v, seen, before, now)
    ensures forall i :: 0 <= i < |seen + [w]| ==> (seen + [w])[i] < |before.d|
    ensures Visited(v, seen + [w], before, OneMore(v, w, now))
  {
    OneMoreTables(v, seen, w, before, now);
    OneMoreQueue(v, seen, w, before, now);
    OneMoreHops(v, w, now);
  }

  /** The inner loop: look at the links of v one by one, updating the tables in place. */
  method VisitSources(v: nat, sources: seq<nat>, queue: seq<nat>, d: array<int>, sigma: array<real>,
                      paths0: map<nat, seq<nat>>, ghost before: Search)
    returns (q: seq<nat>, paths: map<nat, seq<nat>>)
    requires d != (sigma as object)
    requires before.queue == queue && before.d == d[..] && before.sigma == sigma[..] && before.paths == paths0
    requires v < d.Length == sigma.Length && d[v] >= 0
    requires NoDup(sources) && forall i :: 0 <= i < |sources| ==> sources[i] < d.Length
    requires forall w :: w in paths0 ==> w < d.Length && paths0[w] != []
    modifies d, sigma
    ensures Visited(v, sources, before, Search(before.stack, q, d[..], sigma[..], paths))
  {
    q := queue;
    paths := paths0;
    for i := 0 to |sources|
      invariant Visited(v, sources[..i], before, Search(before.stack, q, d[..], sigma[..], paths))
    {
      ghost var now := Search(before.stack, q, d[..], sigma[..], paths);
      var w := sources[i];
      if d[w] < 0 {
        q := q + [w];
        d[w] := d[v] + 1;
      }
      if d[w] == d[v] + 1 {
        sigma[w] := sigma[w] + sigma[v];
        paths := paths[w := PathsOf(paths, w) + [v]];
      }
      VisitOne(v, sources[..i], w, before, now);
      assert Search(before.stack, q, d[..], sigma[..], paths) == OneMore(v, w, now);
      assert sources[..i + 1] == sources[..i] + [w];
    }
    assert sources[..|sources|] == sources;
  }
}
