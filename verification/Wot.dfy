/**
  The Web of Trust: nodes that certify each other.  A link `source -> target` is stored on the
  target's side, in its `linksSource` set.
 */
module Wot {
  import opened Sequences
  import opened Sums
  import opened Wrappers

  datatype Node = Node(enabled: bool, linksSource: set<nat>, issuedCount: nat)

  /** A snapshot of the graph object. */
  datatype Web = Web(nodes: seq<Node>, maxLinks: nat)

  datatype NewLinkResult =
    | Ok(received: nat)
    | AllCertificationsUsed(received: nat)
    | UnknownSource
    | UnknownTarget
    | SelfLinkingForbidden

  datatype RemLinkResult =
    | Removed(received: nat)
    | UnknownCert(received: nat)
    | UnknownRemSource
    | UnknownRemTarget

  datatype HasLinkResult = Link(exists_: bool) | UnknownLinkSource | UnknownLinkTarget

  const U32_MAX: nat := 0xFFFF_FFFF
  const USIZE_MAX: nat := 0xFFFF_FFFF_FFFF_FFFF
  const FRESH_NODE := Node(true, {}, 0)

  /** `count - 1` on a 64-bit `usize`: a release build wraps (a debug build panics). */
  function Decrement(count: nat): nat {
    if count == 0 then USIZE_MAX else count - 1
  }

  // ---- what each operation does, on snapshots ----

  function AddLinkResult(w: Web, source: nat, target: nat): NewLinkResult {
    if source == target then SelfLinkingForbidden
    else if source >= |w.nodes| then UnknownSource
    else if target >= |w.nodes| then UnknownTarget
    else if w.nodes[source].issuedCount >= w.maxLinks then
      AllCertificationsUsed(|w.nodes[target].linksSource|)
    else Ok(|w.nodes[target].linksSource + {source}|)
  }

  function AfterAddLink(w: Web, source: nat, target: nat): Web {
    if AddLinkResult(w, source, target).Ok? then
      var issued := w.nodes[source := w.nodes[source].(issuedCount := w.nodes[source].issuedCount + 1)];
      w.(nodes := issued[target := issued[target].(linksSource := issued[target].linksSource + {source})])
    else w
  }

  function RemoveLinkResult(w: Web, source: nat, target: nat): RemLinkResult {
    if source >= |w.nodes| then UnknownRemSource
    else if target >= |w.nodes| then UnknownRemTarget
    else if source !in w.nodes[target].linksSource then UnknownCert(|w.nodes[target].linksSource|)
    else Removed(|w.nodes[target].linksSource - {source}|)
  }

  function AfterRemLink(w: Web, source: nat, target: nat): Web {
    if RemoveLinkResult(w, source, target).Removed? then
      var issued := w.nodes[source := w.nodes[source].(issuedCount := Decrement(w.nodes[source].issuedCount))];
      w.(nodes := issued[target := issued[target].(linksSource := issued[target].linksSource - {source})])
    else w
  }

  function AfterSetEnabled(w: Web, id: nat, enabled: bool): Web {
    if id < |w.nodes| then w.(nodes := w.nodes[id := w.nodes[id].(enabled := enabled)]) else w
  }

  function AfterRemNode(w: Web): Web {
    if |w.nodes| > 0 then w.(nodes := w.nodes[..|w.nodes| - 1]) else w
  }

  // ---- the getters ----

  function LinkBetween(w: Web, source: nat, target: nat): HasLinkResult {
    if source >= |w.nodes| then UnknownLinkSource
    else if target >= |w.nodes| then UnknownLinkTarget
    else Link(source in w.nodes[target].linksSource)
  }

  predicate IsSentryNode(node: Node, requirement: nat) {
    node.enabled && node.issuedCount >= requirement && |node.linksSource| >= requirement
  }

  /** Ids below n of the nodes that pass a test, in increasing order. */
  function Select(nodes: seq<Node>, n: nat, keep: Node -> bool): (ids: seq<nat>)
    requires n <= |nodes|
    ensures NoDup(ids)
    ensures forall i: nat :: i in ids <==> i < n && keep(nodes[i])
  {
    if n == 0 then []
    else if keep(nodes[n - 1]) then Select(nodes, n - 1, keep) + [n - 1]
    else Select(nodes, n - 1, keep)
  }

  function EnabledIds(nodes: seq<Node>): seq<nat> {
    Select(nodes, |nodes|, (node: Node) => node.enabled)
  }

  function SentryIds(nodes: seq<Node>, requirement: nat): seq<nat> {
    Select(nodes, |nodes|, (node: Node) => IsSentryNode(node, requirement))
  }

  function NonSentryIds(nodes: seq<Node>, requirement: nat): seq<nat> {
    Select(nodes, |nodes|, (node: Node) =>
      node.enabled && (node.issuedCount < requirement || |node.linksSource| < requirement))
  }

  /** Sentries and non sentries split the enabled nodes. */
  lemma SentriesPartitionEnabled(nodes: seq<Node>, requirement: nat)
    ensures Elems(SentryIds(nodes, requirement)) + Elems(NonSentryIds(nodes, requirement)) == Elems(EnabledIds(nodes))
    ensures Elems(SentryIds(nodes, requirement)) !! Elems(NonSentryIds(nodes, requirement))
    ensures |SentryIds(nodes, requirement)| + |NonSentryIds(nodes, requirement)| == |EnabledIds(nodes)|
  {
    NoDupCardinality(SentryIds(nodes, requirement));
    NoDupCardinality(NonSentryIds(nodes, requirement));
    NoDupCardinality(EnabledIds(nodes));
  }

  // ---- the graph object ----

  class RustyWebOfTrust {
    var nodes: seq<Node>
    var maxLinks: nat

    constructor (maxLinks: nat)
      ensures Value() == Web([], maxLinks)
    {
      this.nodes := [];
      this.maxLinks := maxLinks;
    }

    ghost function Value(): Web
      reads this
    {
      Web(nodes, maxLinks)
    }

    method SetMaxLink(maxLinks: nat)
      modifies this
      ensures Value() == old(Value()).(maxLinks := maxLinks)
    {
      this.maxLinks := maxLinks;
    }

    method AddNode() returns (id: nat)
      modifies this
      ensures Value() == old(Value()).(nodes := old(nodes) + [FRESH_NODE])
      ensures id == |nodes| - 1
    {
      nodes := nodes + [FRESH_NODE];
      id := |nodes| - 1;
    }

    method RemNode() returns (top: Option<nat>)
      modifies this
      ensures Value() == AfterRemNode(old(Value()))
      ensures top == if nodes == [] then None else Some(|nodes| - 1)
    {
      if |nodes| > 0 {
        nodes := nodes[..|nodes| - 1];
      }
      top := if nodes != [] then Some(|nodes| - 1) else None;
    }

    method SetEnabled(id: nat, enabled: bool) returns (state: Option<bool>)
      modifies this
      ensures Value() == AfterSetEnabled(old(Value()), id, enabled)
      ensures state == if id < |nodes| then Some(enabled) else None
    {
      if id < |nodes| {
        nodes := nodes[id := nodes[id].(enabled := enabled)];
        state := Some(enabled);
      } else {
        state := None;
      }
    }

    method AddLink(source: nat, target: nat) returns (result: NewLinkResult)
      modifies this
      ensures Value() == AfterAddLink(old(Value()), source, target)
      ensures result == AddLinkResult(old(Value()), source, target)
    {
      if source == target {
        result := SelfLinkingForbidden;
      } else if source >= |nodes| {
        result := UnknownSource;
      } else if target >= |nodes| {
        result := UnknownTarget;
      } else if nodes[source].issuedCount >= maxLinks {
        result := AllCertificationsUsed(|nodes[target].linksSource|);
      } else {
        nodes := nodes[source := nodes[source].(issuedCount := nodes[source].issuedCount + 1)];
        nodes := nodes[target := nodes[target].(linksSource := nodes[target].linksSource + {source})];
        result := Ok(|nodes[target].linksSource|);
      }
    }

    method RemLink(source: nat, target: nat) returns (result: RemLinkResult)
      modifies this
      ensures Value() == AfterRemLink(old(Value()), source, target)
      ensures result == RemoveLinkResult(old(Value()), source, target)
    {
      if source >= |nodes| {
        result := UnknownRemSource;
      } else if target >= |nodes| {
        result := UnknownRemTarget;
      } else if source !in nodes[target].linksSource {
        result := UnknownCert(|nodes[target].linksSource|);
      } else {
        nodes := nodes[source := nodes[source].(issuedCount := Decrement(nodes[source].issuedCount))];
        nodes := nodes[target := nodes[target].(linksSource := nodes[target].linksSource - {source})];
        result := Removed(|nodes[target].linksSource|);
      }
    }

    method HasLink(source: nat, target: nat) returns (result: HasLinkResult)
      ensures result == LinkBetween(Value(), source, target)
      ensures result.UnknownLinkSource? <==> source >= |nodes|
      ensures result.UnknownLinkTarget? <==> source < |nodes| <= target
      ensures result.Link? ==> (result.exists_ <==> source in nodes[target].linksSource)
    {
      if source >= |nodes| {
        result := UnknownLinkSource;
      } else if target >= |nodes| {
        result := UnknownLinkTarget;
      } else {
        result := Link(source in nodes[target].linksSource);
      }
    }

    function IsSentry(node: nat, requirement: nat): Option<bool>
      reads this
    {
      if node >= |nodes| then None else Some(IsSentryNode(nodes[node], requirement))
    }

    /** The sources of a node's links, in whatever order the hash set enumerates them. */
    method GetLinksSource(target: nat) returns (sources: Option<seq<nat>>)
      ensures sources.Some? <==> target < |nodes|
      ensures sources.Some? ==> NoDup(sources.value) && Elems(sources.value) == nodes[target].linksSource
    {
      if target >= |nodes| {
        return None;
      }
      var listed := Enumerate(nodes[target].linksSource);
      sources := Some(listed);
    }
  }

  /** An arbitrary enumeration of a set. */
  method Enumerate(s: set<nat>) returns (listed: seq<nat>)
    ensures NoDup(listed) && Elems(listed) == s
  {
    var rest := s;
    listed := [];
    while rest != {}
      invariant NoDup(listed)
      invariant rest <= s && Elems(listed) == s - rest
      decreases rest
    {
      var x :| x in rest;
      assert x !in Elems(listed);
      assert Elems(listed + [x]) == Elems(listed) + {x};
      listed := listed + [x];
      rest := rest - {x};
    }
  }

  // ---- invariants over every run ----

  ghost function Targets(nodes: seq<Node>, source: nat): set<nat> {
    set t: nat | t < |nodes| && source in nodes[t].linksSource
  }

  ghost predicate InRange(nodes: seq<Node>) {
    forall t, s :: 0 <= t < |nodes| && s in nodes[t].linksSource ==> s < |nodes|
  }

  ghost predicate NoSelfLink(nodes: seq<Node>) {
    forall t: nat :: t < |nodes| ==> t !in nodes[t].linksSource
  }

  /** Adding and removing a link changes what is answered about that link and about no other. */
  lemma LinksTracked(w: Web, source: nat, target: nat, x: nat, y: nat)
    ensures AddLinkResult(w, source, target).Ok? ==>
              LinkBetween(AfterAddLink(w, source, target), x, y) ==
              if x == source && y == target then Link(true) else LinkBetween(w, x, y)
    ensures RemoveLinkResult(w, source, target).Removed? ==>
              LinkBetween(AfterRemLink(w, source, target), x, y) ==
              if x == source && y == target then Link(false) else LinkBetween(w, x, y)
    ensures !AddLinkResult(w, source, target).Ok? ==> AfterAddLink(w, source, target) == w
    ensures !RemoveLinkResult(w, source, target).Removed? ==> AfterRemLink(w, source, target) == w
  {
  }

  /** When a link is accepted or refused, and why; the number in the answer is how many certifications the
      target has afterwards. */
  lemma AddLinkAnswers(w: Web, source: nat, target: nat)
    ensures var r, n := AddLinkResult(w, source, target), |w.nodes|;
      && (r.SelfLinkingForbidden? <==> source == target)
      && (r.UnknownSource? <==> source != target && source >= n)
      && (r.UnknownTarget? <==> source < n <= target)
      && (r.Ok? || r.AllCertificationsUsed? <==> source != target && source < n && target < n)
      && (r.Ok? ==> w.nodes[source].issuedCount < w.maxLinks)
      && (r.AllCertificationsUsed? ==> w.nodes[source].issuedCount >= w.maxLinks)
      && (r.Ok? || r.AllCertificationsUsed? ==>
            r.received == |AfterAddLink(w, source, target).nodes[target].linksSource|)
  {
  }

  lemma RemLinkAnswers(w: Web, source: nat, target: nat)
    ensures var r, n := RemoveLinkResult(w, source, target), |w.nodes|;
      && (r.UnknownRemSource? <==> source >= n)
      && (r.UnknownRemTarget? <==> source < n <= target)
      && (r.Removed? <==> source < n && target < n && source in w.nodes[target].linksSource)
      && (r.Removed? || r.UnknownCert? ==>
            r.received == |AfterRemLink(w, source, target).nodes[target].linksSource|)
  {
  }

  /** Enabling or disabling a node moves it into or out of the enabled ones, and moves no other node and
      no link. */
  lemma SetEnabledMoves(w: Web, id: nat, enabled: bool)
    ensures var before, after := w.nodes, AfterSetEnabled(w, id, enabled).nodes;
      && |after| == |before|
      && Elems(EnabledIds(after)) ==
         (if id >= |before| then Elems(EnabledIds(before))
          else if enabled then Elems(EnabledIds(before)) + {id}
          else Elems(EnabledIds(before)) - {id})
      && forall x: nat :: x < |before| ==>
           after[x].linksSource == before[x].linksSource && after[x].issuedCount == before[x].issuedCount
  {
  }

  /** The issued counter of every node covers its out-degree. */
  ghost predicate CountersCover(nodes: seq<Node>) {
    forall s: nat :: s < |nodes| ==> nodes[s].issuedCount >= |Targets(nodes, s)|
  }

  ghost predicate CountersExact(nodes: seq<Node>) {
    forall s: nat :: s < |nodes| ==> nodes[s].issuedCount == |Targets(nodes, s)|
  }

  /** With exact counters, a sentry is an enabled node that certifies, and is certified by, at least as many
      nodes as required. */
  lemma SentryIff(nodes: seq<Node>, requirement: nat, x: nat)
    requires CountersExact(nodes)
    ensures x in SentryIds(nodes, requirement) <==>
            x < |nodes| && nodes[x].enabled &&
            |Targets(nodes, x)| >= requirement && |nodes[x].linksSource| >= requirement
  {
  }

  ghost predicate WellFormed(nodes: seq<Node>) {
    InRange(nodes) && NoSelfLink(nodes)
  }

  datatype Op =
    | AddNode
    | RemNode
    | SetEnabled(id: nat, enabled: bool)
    | SetMaxLink(maxLinks: nat)
    | AddLink(source: nat, target: nat)
    | RemLink(source: nat, target: nat)

  function Apply(w: Web, op: Op): Web {
    match op
    case AddNode => w.(nodes := w.nodes + [FRESH_NODE])
    case RemNode => AfterRemNode(w)
    case SetEnabled(id, enabled) => AfterSetEnabled(w, id, enabled)
    case SetMaxLink(m) => w.(maxLinks := m)
    case AddLink(s, t) => AfterAddLink(w, s, t)
    case RemLink(s, t) => AfterRemLink(w, s, t)
  }

  function Run(w: Web, ops: seq<Op>): Web
    decreases ops
  {
    if ops == [] then w else Run(Apply(w, ops[0]), ops[1..])
  }

  /** The node about to be dropped certifies nobody who stays. */
  ghost predicate LastIssuesNothing(nodes: seq<Node>) {
    forall t: nat :: t < |nodes| - 1 ==> |nodes| - 1 !in nodes[t].linksSource
  }

  ghost predicate Tidy(w: Web, op: Op) {
    op.RemNode? ==> LastIssuesNothing(w.nodes)
  }

  /** Also: no certification is repeated, and a dropped node has been certified by nobody. */
  ghost predicate Strict(w: Web, op: Op) {
    && Tidy(w, op)
    && (op.RemNode? && |w.nodes| > 0 ==> w.nodes[|w.nodes| - 1].linksSource == {})
    && (op.AddLink? && AddLinkResult(w, op.source, op.target).Ok? ==> op.source !in w.nodes[op.target].linksSource)
  }

  ghost predicate TidyRun(w: Web, ops: seq<Op>)
    decreases ops
  {
    ops != [] ==> Tidy(w, ops[0]) && TidyRun(Apply(w, ops[0]), ops[1..])
  }

  ghost predicate StrictRun(w: Web, ops: seq<Op>)
    decreases ops
  {
    ops != [] ==> Strict(w, ops[0]) && StrictRun(Apply(w, ops[0]), ops[1..])
  }

  lemma TargetsAfterAddLink(w: Web, source: nat, target: nat, x: nat)
    requires AddLinkResult(w, source, target).Ok?
    ensures Targets(AfterAddLink(w, source, target).nodes, x) ==
            Targets(w.nodes, x) + (if x == source then {target} else {})
  {
  }

  lemma TargetsAfterRemLink(w: Web, source: nat, target: nat, x: nat)
    requires RemoveLinkResult(w, source, target).Removed?
    ensures Targets(AfterRemLink(w, source, target).nodes, x) ==
            Targets(w.nodes, x) - (if x == source then {target} else {})
  {
  }

  lemma StepKeepsWellFormed(w: Web, op: Op)
    requires WellFormed(w.nodes) && Tidy(w, op)
    ensures WellFormed(Apply(w, op).nodes)
  {
  }

  /** By how much the counter of x exceeds its out-degree. */
  ghost function Slack(nodes: seq<Node>, x: nat): int
    requires x < |nodes|
  {
    nodes[x].issuedCount - |Targets(nodes, x)|
  }

  lemma SlackAfterAddLink(w: Web, source: nat, target: nat, x: nat)
    requires AddLinkResult(w, source, target).Ok? && x < |w.nodes|
    ensures Slack(AfterAddLink(w, source, target).nodes, x) ==
            Slack(w.nodes, x) + if x == source && source in w.nodes[target].linksSource then 1 else 0
  {
    TargetsAfterAddLink(w, source, target, x);
    if x == source && source in w.nodes[target].linksSource {
      assert Targets(w.nodes, x) + {target} == Targets(w.nodes, x);
    }
  }

  lemma SlackAfterRemLink(w: Web, source: nat, target: nat, x: nat)
    requires RemoveLinkResult(w, source, target).Removed? && x < |w.nodes| && Slack(w.nodes, source) >= 0
    ensures Slack(AfterRemLink(w, source, target).nodes, x) == Slack(w.nodes, x)
  {
    TargetsAfterRemLink(w, source, target, x);
    assert target in Targets(w.nodes, source);
  }

  lemma SlackAfterRemNode(w: Web, x: nat)
    requires x < |w.nodes| - 1
    ensures Slack(AfterRemNode(w).nodes, x) ==
            Slack(w.nodes, x) + if x in w.nodes[|w.nodes| - 1].linksSource then 1 else 0
  {
    assert Targets(AfterRemNode(w).nodes, x) == Targets(w.nodes, x) - {|w.nodes| - 1};
  }

  lemma SlackAfterAddNode(w: Web, x: nat)
    requires InRange(w.nodes) && x <= |w.nodes|
    ensures Slack(w.nodes + [FRESH_NODE], x) == if x < |w.nodes| then Slack(w.nodes, x) else 0
  {
    if x < |w.nodes| {
      assert Targets(w.nodes + [FRESH_NODE], x) == Targets(w.nodes, x);
    } else {
      assert Targets(w.nodes + [FRESH_NODE], x) == {};
    }
  }

  lemma SlackAfterSetEnabled(w: Web, id: nat, enabled: bool, x: nat)
    requires x < |w.nodes|
    ensures Slack(AfterSetEnabled(w, id, enabled).nodes, x) == Slack(w.nodes, x)
  {
    assert Targets(AfterSetEnabled(w, id, enabled).nodes, x) == Targets(w.nodes, x);
  }

  /** No tidy operation lets a counter fall behind, and a strict one moves it in step. */
  lemma SlackAfter(w: Web, op: Op, x: nat)
    requires InRange(w.nodes) && Tidy(w, op) && CountersCover(w.nodes) && x < |Apply(w, op).nodes|
    ensures Slack(Apply(w, op).nodes, x) >= 0
    ensures Strict(w, op) && x < |w.nodes| ==> Slack(Apply(w, op).nodes, x) == Slack(w.nodes, x)
    ensures x >= |w.nodes| ==> Slack(Apply(w, op).nodes, x) == 0
  {
    hide Targets, AfterAddLink, AfterRemLink, AfterSetEnabled;
    match op
    case AddNode => SlackAfterAddNode(w, x);
    case RemNode =>
      if |w.nodes| > 0 {
        SlackAfterRemNode(w, x);
      }
    case SetEnabled(id, enabled) =>
      SetEnabledSize(w, id, enabled);
      SlackAfterSetEnabled(w, id, enabled, x);
    case SetMaxLink(_) =>
    case AddLink(s, t) =>
      AddLinkSize(w, s, t);
      if AddLinkResult(w, s, t).Ok? {
        SlackAfterAddLink(w, s, t, x);
      }
    case RemLink(s, t) =>
      RemLinkSize(w, s, t);
      if RemoveLinkResult(w, s, t).Removed? {
        assert Slack(w.nodes, s) >= 0;
        SlackAfterRemLink(w, s, t, x);
      }
  }

  lemma SetEnabledSize(w: Web, id: nat, enabled: bool)
    ensures |AfterSetEnabled(w, id, enabled).nodes| == |w.nodes|
  {
  }

  lemma AddLinkSize(w: Web, s: nat, t: nat)
    ensures |AfterAddLink(w, s, t).nodes| == |w.nodes|
    ensures !AddLinkResult(w, s, t).Ok? ==> AfterAddLink(w, s, t) == w
  {
  }

  lemma RemLinkSize(w: Web, s: nat, t: nat)
    ensures |AfterRemLink(w, s, t).nodes| == |w.nodes|
    ensures !RemoveLinkResult(w, s, t).Removed? ==> AfterRemLink(w, s, t) == w
  {
  }

  lemma StepKeepsCounters(w: Web, op: Op)
    requires InRange(w.nodes) && Tidy(w, op) && CountersCover(w.nodes)
    ensures CountersCover(Apply(w, op).nodes)
    ensures Strict(w, op) && CountersExact(w.nodes) ==> CountersExact(Apply(w, op).nodes)
  {
    hide Apply, Targets;
    var after := Apply(w, op).nodes;
    forall x: nat | x < |after|
      ensures after[x].issuedCount >= |Targets(after, x)|
      ensures Strict(w, op) && CountersExact(w.nodes) ==> after[x].issuedCount == |Targets(after, x)|
    {
      SlackAfter(w, op, x);
      if x < |w.nodes| {
        assert Slack(w.nodes, x) == w.nodes[x].issuedCount - |Targets(w.nodes, x)|;
      }
      assert Slack(after, x) == after[x].issuedCount - |Targets(after, x)|;
    }
  }

  /** Whatever a tidy history did, links stay inside the graph, nobody certifies itself, and the
      issued counters cover the out-degrees. */
  lemma {:induction false} RunKeepsInvariant(w: Web, ops: seq<Op>)
    requires WellFormed(w.nodes) && CountersCover(w.nodes) && TidyRun(w, ops)
    ensures WellFormed(Run(w, ops).nodes) && CountersCover(Run(w, ops).nodes)
    decreases ops
  {
    if ops != [] {
      StepKeepsWellFormed(w, ops[0]);
      StepKeepsCounters(w, ops[0]);
      RunKeepsInvariant(Apply(w, ops[0]), ops[1..]);
    }
  }

  /** Hence removing a link never drives the source's counter below zero. */
  lemma NoUnderflow(ops: seq<Op>, maxLinks: nat, source: nat, target: nat)
    requires TidyRun(Web([], maxLinks), ops)
    ensures var w := Run(Web([], maxLinks), ops);
      RemoveLinkResult(w, source, target).Removed? ==> w.nodes[source].issuedCount > 0
  {
    RunKeepsInvariant(Web([], maxLinks), ops);
    var w := Run(Web([], maxLinks), ops);
    if RemoveLinkResult(w, source, target).Removed? {
      assert target in Targets(w.nodes, source);
    }
  }

  /** Removing the link takes a counter that is already zero down. */
  predicate Wraps(w: Web, op: Op) {
    op.RemLink? && RemoveLinkResult(w, op.source, op.target).Removed? && w.nodes[op.source].issuedCount == 0
  }

  ghost predicate EverWraps(w: Web, ops: seq<Op>)
    decreases ops
  {
    ops != [] && (Wraps(w, ops[0]) || EverWraps(Apply(w, ops[0]), ops[1..]))
  }

  ghost predicate OnlyRemovals(ops: seq<Op>) {
    forall i :: 0 <= i < |ops| ==> ops[i].RemLink?
  }

  lemma RemovalKeepsCover(w: Web, source: nat, target: nat)
    requires CountersCover(w.nodes)
    ensures !Wraps(w, RemLink(source, target)) && CountersCover(AfterRemLink(w, source, target).nodes)
  {
    hide Targets, AfterRemLink;
    RemLinkSize(w, source, target);
    if RemoveLinkResult(w, source, target).Removed? {
      TargetsOf(w.nodes, source, target);
      var after := AfterRemLink(w, source, target).nodes;
      forall x: nat | x < |after| ensures after[x].issuedCount >= |Targets(after, x)| {
        assert Slack(w.nodes, source) >= 0 && Slack(w.nodes, x) >= 0;
        SlackAfterRemLink(w, source, target, x);
        assert Slack(after, x) >= 0;
      }
    }
  }

  lemma TargetsOf(nodes: seq<Node>, source: nat, target: nat)
    requires target < |nodes| && source in nodes[target].linksSource
    ensures target in Targets(nodes, source) && |Targets(nodes, source)| > 0
  {
    assert target in Targets(nodes, source);
  }

  lemma {:induction false} CoverNeverWraps(w: Web, ops: seq<Op>)
    requires CountersCover(w.nodes) && OnlyRemovals(ops)
    ensures !EverWraps(w, ops)
    decreases ops
  {
    hide CountersCover, Wraps, AfterRemLink;
    if ops != [] {
      RemovalKeepsCover(w, ops[0].source, ops[0].target);
      CoverNeverWraps(Apply(w, ops[0]), ops[1..]);
    }
  }

  /** A counter below the out-degree is used up before the links are. */
  lemma {:induction false} ShortCounterWraps(w: Web, s: nat) returns (ops: seq<Op>)
    requires s < |w.nodes| && w.nodes[s].issuedCount < |Targets(w.nodes, s)|
    ensures OnlyRemovals(ops) && EverWraps(w, ops)
    decreases w.nodes[s].issuedCount
  {
    var t :| t in Targets(w.nodes, s);
    var op := RemLink(s, t);
    if w.nodes[s].issuedCount == 0 {
      ops := [op];
    } else {
      TargetsAfterRemLink(w, s, t, s);
      assert Apply(w, op).nodes[s].issuedCount == w.nodes[s].issuedCount - 1;
      var rest := ShortCounterWraps(Apply(w, op), s);
      ops := [op] + rest;
      assert ops[1..] == rest;
    }
  }

  /** Counters cover the out-degrees if and only if no removals whatever can make one wrap. */
  lemma NeverWrapsIff(w: Web)
    ensures CountersCover(w.nodes) <==> forall ops :: OnlyRemovals(ops) ==> !EverWraps(w, ops)
  {
    if CountersCover(w.nodes) {
      forall ops | OnlyRemovals(ops) ensures !EverWraps(w, ops) {
        CoverNeverWraps(w, ops);
      }
    } else {
      var s: nat :| s < |w.nodes| && w.nodes[s].issuedCount < |Targets(w.nodes, s)|;
      var ops := ShortCounterWraps(w, s);
    }
  }

  /** A history without repeated certifications keeps the counters equal to the out-degrees. */
  lemma {:induction false} StrictRunKeepsExactCounters(w: Web, ops: seq<Op>)
    requires WellFormed(w.nodes) && CountersExact(w.nodes) && StrictRun(w, ops)
    ensures WellFormed(Run(w, ops).nodes) && CountersExact(Run(w, ops).nodes)
    decreases ops
  {
    if ops != [] {
      StepKeepsWellFormed(w, ops[0]);
      StepKeepsCounters(w, ops[0]);
      StrictRunKeepsExactCounters(Apply(w, ops[0]), ops[1..]);
    }
  }

  /** Conservation: what the nodes issued is what the nodes received. */
  lemma IssuedEqualsReceived(nodes: seq<Node>)
    requires InRange(nodes) && CountersExact(nodes)
    ensures SumNat(|nodes|, (s: nat) => if s < |nodes| then nodes[s].issuedCount else 0) ==
            SumNat(|nodes|, (t: nat) => if t < |nodes| then |nodes[t].linksSource| else 0)
  {
    var n := |nodes|;
    var issued := (s: nat) => if s < |nodes| then nodes[s].issuedCount else 0;
    var received := (t: nat) => if t < |nodes| then |nodes[t].linksSource| else 0;
    var linked := (s: nat, t: nat) => if t < n && s in nodes[t].linksSource then 1.0 else 0.0;
    forall s: nat | s < n ensures RowSum(linked, n, s) == issued(s) as real {
      SumIndicator(n, Targets(nodes, s));
      SumOfNats(n, i => Indicator(i in Targets(nodes, s)), (j: nat) => linked(s, j));
      assert Targets(nodes, s) == set i: nat | i < n && i in Targets(nodes, s);
    }
    forall t: nat | t < n ensures ColumnSum(linked, n, t) == received(t) as real {
      SumIndicator(n, nodes[t].linksSource);
      SumOfNats(n, i => Indicator(i in nodes[t].linksSource), (i: nat) => linked(i, t));
      assert nodes[t].linksSource == set i: nat | i < n && i in nodes[t].linksSource;
    }
    SumSwap(n, n, linked);
    SumOfNats(n, issued, (s: nat) => RowSum(linked, n, s));
    SumOfNats(n, received, (t: nat) => ColumnSum(linked, n, t));
  }

  // ---- exactly when an operation steps outside the invariants ----

  /** Dropping the last node keeps links in range if and only if that node certifies nobody left. */
  lemma RemNodeInRangeIff(w: Web)
    requires InRange(w.nodes) && |w.nodes| > 0
    ensures InRange(AfterRemNode(w).nodes) <==> LastIssuesNothing(w.nodes)
  {
  }

  /** An accepted certification keeps the counters exact if and only if the link was absent. */
  lemma AddLinkExactIff(w: Web, source: nat, target: nat)
    requires CountersExact(w.nodes) && AddLinkResult(w, source, target).Ok?
    ensures CountersExact(AfterAddLink(w, source, target).nodes) <==> source !in w.nodes[target].linksSource
  {
    var after := AfterAddLink(w, source, target).nodes;
    if source in w.nodes[target].linksSource {
      TargetsAfterAddLink(w, source, target, source);
      assert Targets(w.nodes, source) + {target} == Targets(w.nodes, source);
      assert after[source].issuedCount != |Targets(after, source)|;
    } else {
      forall x: nat | x < |after| ensures after[x].issuedCount == |Targets(after, x)| {
        TargetsAfterAddLink(w, source, target, x);
      }
    }
  }

  /** At every moment of a history, links stay inside the graph and nobody certifies itself. */
  ghost predicate AlwaysWellFormed(w: Web, ops: seq<Op>)
    decreases ops
  {
    WellFormed(w.nodes) && (ops != [] ==> AlwaysWellFormed(Apply(w, ops[0]), ops[1..]))
  }

  /** At every moment of a history, the counters are moreover equal to the out-degrees. */
  ghost predicate AlwaysExact(w: Web, ops: seq<Op>)
    decreases ops
  {
    WellFormed(w.nodes) && CountersExact(w.nodes) && (ops != [] ==> AlwaysExact(Apply(w, ops[0]), ops[1..]))
  }

  lemma TidyStepIff(w: Web, op: Op)
    requires WellFormed(w.nodes)
    ensures WellFormed(Apply(w, op).nodes) <==> Tidy(w, op)
  {
    if op.RemNode? && |w.nodes| > 0 {
      RemNodeInRangeIff(w);
    }
    if Tidy(w, op) {
      StepKeepsWellFormed(w, op);
    }
  }

  /** A history keeps the graph well formed if and only if it never drops a node that certifies. */
  lemma {:induction false} WellFormedHistoryIff(w: Web, ops: seq<Op>)
    requires WellFormed(w.nodes)
    ensures AlwaysWellFormed(w, ops) <==> TidyRun(w, ops)
    decreases ops
  {
    hide WellFormed, Apply, Tidy;
    if ops != [] {
      TidyStepIff(w, ops[0]);
      if WellFormed(Apply(w, ops[0]).nodes) {
        WellFormedHistoryIff(Apply(w, ops[0]), ops[1..]);
      }
    }
  }

  /** Dropping a node that somebody certified leaves that somebody's counter too high. */
  lemma RemNodeInexact(w: Web, x: nat)
    requires WellFormed(w.nodes) && CountersExact(w.nodes) && |w.nodes| > 0 && x in w.nodes[|w.nodes| - 1].linksSource
    ensures !CountersExact(AfterRemNode(w).nodes)
  {
    SlackAfterRemNode(w, x);
    assert AfterRemNode(w).nodes[x].issuedCount != |Targets(AfterRemNode(w).nodes, x)|;
  }

  lemma StrictStepIff(w: Web, op: Op)
    requires WellFormed(w.nodes) && CountersExact(w.nodes)
    ensures WellFormed(Apply(w, op).nodes) && CountersExact(Apply(w, op).nodes) <==> Strict(w, op)
  {
    assert InRange(w.nodes) && CountersCover(w.nodes);
    hide CountersExact, CountersCover, WellFormed;
    TidyStepIff(w, op);
    if Strict(w, op) {
      StepKeepsCounters(w, op);
    } else if op.RemNode? && |w.nodes| > 0 && w.nodes[|w.nodes| - 1].linksSource != {} {
      var x :| x in w.nodes[|w.nodes| - 1].linksSource;
      RemNodeInexact(w, x);
    } else if op.AddLink? && AddLinkResult(w, op.source, op.target).Ok? {
      AddLinkExactIff(w, op.source, op.target);
    }
  }

  /** A history keeps the counters exact if and only if it repeats no certification that is already
      there, and drops no node that certifies or is certified. */
  lemma {:induction false} ExactHistoryIff(w: Web, ops: seq<Op>)
    requires WellFormed(w.nodes) && CountersExact(w.nodes)
    ensures AlwaysExact(w, ops) <==> StrictRun(w, ops)
    decreases ops
  {
    hide WellFormed, CountersExact, Apply, Strict;
    if ops != [] {
      StrictStepIff(w, ops[0]);
      if WellFormed(Apply(w, ops[0]).nodes) && CountersExact(Apply(w, ops[0]).nodes) {
        ExactHistoryIff(Apply(w, ops[0]), ops[1..]);
      }
    }
  }

  /** The counter of a dropped and recreated node wraps when one of its old links is removed. */
  lemma UntidyHistoryUnderflows()
    ensures var w := Run(Web([], 1), [AddNode, AddNode, AddLink(1, 0), RemNode, AddNode, RemLink(1, 0)]);
      |w.nodes| == 2 && w.nodes[1].issuedCount == 0xFFFF_FFFF_FFFF_FFFF
  {
  }

  /** Removing a link that was just newly added restores the whole graph. */
  lemma RemLinkUndoesAddLink(w: Web, source: nat, target: nat)
    requires AddLinkResult(w, source, target).Ok? && source !in w.nodes[target].linksSource
    ensures AfterRemLink(AfterAddLink(w, source, target), source, target) == w
  {
    var added := AfterAddLink(w, source, target);
    var back := AfterRemLink(added, source, target);
    assert added.nodes[target].linksSource - {source} == w.nodes[target].linksSource;
    assert back.nodes == w.nodes;
  }
}
