/** Reading back what was written: exactly when the reader recovers the graph. */
module WotFileRoundTrip {
  import opened Sequences
  import opened Sums
  import opened Wot
  import opened WotFile
  import opened WotFileWeight

  /** The reader recovers the blockstamp, the enabled states and the links. */
  ghost predicate Faithful(outcome: Outcome, g: seq<Node>, data: seq<byte>) {
    && outcome.Read?
    && outcome.data == data
    && |outcome.web.nodes| == |g|
    && forall t: nat :: t < |g| ==> SameNode(outcome.web.nodes[t], g[t])
  }

  predicate SameNode(a: Node, b: Node) {
    a.enabled == b.enabled && a.linksSource == b.linksSource
  }

  /** At most 255 links into, and at most `maxLinks` links out of, every node. */
  ghost predicate Fits(g: seq<Node>, maxLinks: nat) {
    forall t: nat :: t < |g| ==> |g[t].linksSource| <= 255 && |Targets(g, t)| <= maxLinks
  }

  ghost predicate NoLinks(g: seq<Node>) {
    forall t: nat :: t < |g| ==> g[t].linksSource == {}
  }

  /** The writer's padding and the reader's agree, or what they disagree about is all zero. */
  ghost predicate PaddingAgrees(g: seq<Node>) {
    || |g| == 0
    || 1 <= |g| % 8 <= 6
    || (NoLinks(g) && (|g| % 8 == 7 ==> forall t: nat :: |g| - 7 <= t < |g| ==> !g[t].enabled))
  }

  // ---- states ----

  lemma ReadFullGroup(states: seq<byte>, count: nat, group: seq<bool>)
    requires states != [] && count >= 8 && |group| == 8 && states[0] == PackByte(group)
    ensures ReadStates(states, count) == group + ReadStates(states[1..], count - 8)
  {
    EightHold(8);
    PackByteIs(group);
    UnpackPack(group, 128);
  }

  /** What is read after the full groups. */
  ghost function ReadTail(flags: seq<bool>, states: seq<byte>): seq<bool>
    requires |states| == ExpectedStates(|flags|)
  {
    if |flags| % 8 == 0 then [] else Unpack(states[|flags| / 8], 128, |flags| % 8)
  }

  lemma ReadLastGroup(flags: seq<bool>, states: seq<byte>)
    requires |states| == ExpectedStates(|flags|)
    ensures ReadStates(states[|flags| / 8..], |flags| % 8) == ReadTail(flags, states)
  {
  }

  lemma {:induction false} ReadGroupsFrom(flags: seq<bool>, states: seq<byte>, q: nat, k: nat)
    requires |states| == ExpectedStates(|flags|) && q == |flags| / 8 && k <= q
    requires forall j :: 0 <= j < q ==> states[j] == PackByte(Group(flags, j))
    ensures ReadStates(states[k..], |flags| - 8 * k) == flags[8 * k..8 * q] + ReadTail(flags, states)
    decreases q - k
  {
    hide ReadStates, ReadTail, PackByte;
    if k < q {
      var group := flags[8 * k..8 * k + 8];
      assert Group(flags, k) == group;
      ReadGroupsFrom(flags, states, q, k + 1);
      assert states[k..][1..] == states[k + 1..];
      ReadFullGroup(states[k..], |flags| - 8 * k, group);
      assert flags[8 * k..8 * q] == group + flags[8 * (k + 1)..8 * q];
      Associate(group, flags[8 * (k + 1)..8 * q], ReadTail(flags, states));
    } else {
      ReadLastGroup(flags, states);
      assert flags[8 * k..8 * q] == [];
      assert [] + ReadTail(flags, states) == ReadTail(flags, states);
    }
  }

  lemma ReadGroups(flags: seq<bool>, states: seq<byte>)
    requires |states| == ExpectedStates(|flags|)
    requires forall j :: 0 <= j < |flags| / 8 ==> states[j] == PackByte(Group(flags, j))
    ensures ReadStates(states, |flags|) == flags[..8 * (|flags| / 8)] + ReadTail(flags, states)
  {
    hide ReadStates, ReadTail, PackByte;
    ReadGroupsFrom(flags, states, |flags| / 8, 0);
    assert states[0..] == states;
  }

  /** With 1 to 6 states beyond the last full group, writer and reader agree. */
  lemma StatesRoundTrip(flags: seq<bool>)
    requires 1 <= |flags| % 8 <= 6
    ensures |WrittenStates(flags)| == ExpectedStates(|flags|)
    ensures ReadStates(WrittenStates(flags), |flags|) == flags
  {
    var n := |flags|;
    var last := Group(flags, n / 8);
    ReadGroups(flags, WrittenStates(flags));
    EightHold(n % 8);
    PackByteIs(last);
    UnpackPack(last, 128);
    assert last == flags[8 * (n / 8)..];
    assert flags == flags[..8 * (n / 8)] + last;
  }

  /** With full groups only, one zero byte is left over for the links. */
  lemma StatesWithZeroByte(flags: seq<bool>)
    requires |flags| % 8 == 0
    ensures WrittenStates(flags) == GroupBytes(flags, |flags| / 8) + [0]
    ensures |GroupBytes(flags, |flags| / 8)| == ExpectedStates(|flags|)
    ensures ReadStates(GroupBytes(flags, |flags| / 8), |flags|) == flags
  {
    var n := |flags|;
    ReadGroups(flags, GroupBytes(flags, n / 8));
    assert Group(flags, n / 8) == [];
    PackByteIs([]);
    PackNothing(128);
    assert flags[..8 * (n / 8)] == flags;
  }

  /** With 7 states beyond the last full group they are not written at all, and the reader takes
      the next byte of the file for them. */
  lemma StatesWithoutLast(flags: seq<bool>, next: byte)
    requires |flags| % 8 == 7
    ensures |WrittenStates(flags)| + 1 == ExpectedStates(|flags|)
    ensures ReadStates(WrittenStates(flags) + [next], |flags|) == flags[..|flags| - 7] + Unpack(next, 128, 7)
  {
    ReadGroups(flags, WrittenStates(flags) + [next]);
  }

  lemma UnpackZero(m: nat, factor: nat)
    requires Holds(factor, m)
    ensures forall i :: 0 <= i < m ==> !Unpack(0, factor, m)[i]
  {
  }

  // ---- links ----

  function AddAll(w: Web, sources: seq<nat>, target: nat): Web {
    if sources == [] then w
    else AfterAddLink(AddAll(w, sources[..|sources| - 1], target), sources[|sources| - 1], target)
  }

  /** The links of orders[0], orders[1], ... go to nodes `first`, `first + 1`, ... */
  function AddLinks(w: Web, orders: seq<seq<nat>>, first: nat): Web {
    if orders == [] then w
    else AddAll(AddLinks(w, orders[..|orders| - 1], first), orders[|orders| - 1], first + |orders| - 1)
  }

  lemma {:induction false} ConsumeConcat(c: Cursor, a: seq<byte>, b: seq<byte>)
    requires Consistent(c)
    ensures ConsumeAll(c, a + b) == ConsumeAll(ConsumeAll(c, a), b)
    decreases b
  {
    if b == [] {
      assert a + b == a;
    } else {
      var front := b[..|b| - 1];
      ConsumeConcat(c, a, front);
      assert (a + b)[..|a + b| - 1] == a + front;
    }
  }

  lemma ConsumeOne(c: Cursor, b: byte)
    requires Consistent(c)
    ensures ConsumeAll(c, [b]) == Consume(c, b)
  {
  }

  /** Three bytes of an id add one link. */
  lemma ConsumeSource(c: Cursor, source: nat)
    requires Consistent(c) && c.remaining > 0 && c.count % 3 == 0 && source < 0x100_0000
    ensures ConsumeAll(c, Be24(source)) ==
            Cursor(AfterAddLink(c.web, source, c.target - 1), c.target, c.remaining - 1, [], c.count + 3)
  {
    hide AfterAddLink, Be24, Low;
    var s := Be24(source);
    Be24RoundTrip(source);
    assert s == ([s[0]] + [s[1]]) + [s[2]];
    ConsumeConcat(c, [s[0]] + [s[1]], [s[2]]);
    ConsumeConcat(c, [s[0]], [s[1]]);
    ConsumeOne(c, s[0]);
    ConsumeOne(Consume(c, s[0]), s[1]);
    ConsumeOne(Consume(Consume(c, s[0]), s[1]), s[2]);
    assert (c.buffer + [s[0]] + [s[1]]) + [s[2]] == s;
  }

  ghost predicate Small(sources: seq<nat>) {
    forall i :: 0 <= i < |sources| ==> sources[i] < 0x100_0000
  }

  lemma {:induction false} ConsumeSources(c: Cursor, sources: seq<nat>)
    requires Consistent(c) && c.count % 3 == 0 && |sources| <= c.remaining && Small(sources)
    ensures ConsumeAll(c, SourceBytes(sources)) ==
            if sources == [] then c
            else Cursor(AddAll(c.web, sources, c.target - 1), c.target, c.remaining - |sources|, [],
                        c.count + 3 * |sources|)
    decreases sources
  {
    hide AfterAddLink, Be24, Consume;
    if sources != [] {
      var front, last := sources[..|sources| - 1], sources[|sources| - 1];
      ConsumeSources(c, front);
      ConsumeConcat(c, SourceBytes(front), Be24(last));
      ConsumeSource(ConsumeAll(c, SourceBytes(front)), last);
    }
  }

  lemma ConsumeNode(c: Cursor, order: seq<nat>)
    requires Consistent(c) && c.remaining == 0 && |order| <= 255 && Small(order)
    ensures ConsumeAll(c, NodeBytes(order)) == Cursor(AddAll(c.web, order, c.target), c.target + 1, 0, [], 3 * |order|)
  {
    hide AddAll, ConsumeAll, SourceBytes, AfterAddLink, FromBe24, Small, Low;
    var count := Low(|order|);
    LowOf(0, |order|, |order|);
    ConsumeConcat(c, [count], SourceBytes(order));
    ConsumeOne(c, count);
    ConsumeSources(Consume(c, count), order);
    AddNone(c.web, c.target);
  }

  lemma AddNone(w: Web, target: nat)
    ensures AddAll(w, [], target) == w
  {
  }

  ghost predicate AllSmall(orders: seq<seq<nat>>) {
    forall t :: 0 <= t < |orders| ==> Small(orders[t]) && |orders[t]| <= 255
  }

  /** Node after node, the reader adds the links of the lists it was given. */
  lemma {:induction false} ConsumeLinks(c: Cursor, orders: seq<seq<nat>>)
    requires Consistent(c) && c.remaining == 0 && AllSmall(orders)
    ensures var end := ConsumeAll(c, LinkBytes(orders));
      && end.web == AddLinks(c.web, orders, c.target)
      && end.target == c.target + |orders|
      && end.remaining == 0
    decreases orders
  {
    hide AddAll, NodeBytes, Consume;
    if orders != [] {
      var front, last := orders[..|orders| - 1], orders[|orders| - 1];
      ConsumeLinks(c, front);
      ConsumeConcat(c, LinkBytes(front), NodeBytes(last));
      ConsumeNode(ConsumeAll(c, LinkBytes(front)), last);
    }
  }

  // ---- what the added links amount to ----

  /** The graph while node t's list is being read: done before t, `prefix` at t, nothing after. */
  ghost predicate Loading(g: seq<Node>, w: Web, t: nat, prefix: seq<nat>) {
    && |w.nodes| == |g|
    && CountersExact(w.nodes)
    && forall u: nat :: u < |g| ==> LoadedNode(g, w, t, prefix, u)
  }

  ghost predicate LoadedNode(g: seq<Node>, w: Web, t: nat, prefix: seq<nat>, u: nat)
    requires u < |g| == |w.nodes|
  {
    && w.nodes[u].enabled == g[u].enabled
    && w.nodes[u].linksSource == if u < t then g[u].linksSource else if u == t then Elems(prefix) else {}
  }

  /** The next link is accepted: its source has not used up its certifications. */
  lemma NextAccepted(g: seq<Node>, w: Web, t: nat, prefix: seq<nat>, source: nat)
    requires WellFormed(g) && t < |g| && source in g[t].linksSource && source !in prefix
    requires Loading(g, w, t, prefix) && Elems(prefix) <= g[t].linksSource
    requires |Targets(g, source)| <= w.maxLinks
    ensures AddLinkResult(w, source, t).Ok? && source !in w.nodes[t].linksSource
  {
    forall u: nat | u in Targets(w.nodes, source) ensures u in Targets(g, source) {
      assert LoadedNode(g, w, t, prefix, u);
    }
    assert LoadedNode(g, w, t, prefix, t);
    assert t in Targets(g, source) && t !in Targets(w.nodes, source);
    StrictSubset(Targets(w.nodes, source), Targets(g, source), t);
  }

  lemma StrictSubset(a: set<nat>, b: set<nat>, x: nat)
    requires a <= b && x in b && x !in a
    ensures |a| < |b|
  {
    SubsetSize(a, b - {x});
    assert b == (b - {x}) + {x};
  }

  lemma LoadNext(g: seq<Node>, w: Web, t: nat, prefix: seq<nat>, source: nat)
    requires WellFormed(g) && t < |g| && source in g[t].linksSource && source !in prefix
    requires Loading(g, w, t, prefix) && Elems(prefix) <= g[t].linksSource
    requires |Targets(g, source)| <= w.maxLinks
    ensures Loading(g, AfterAddLink(w, source, t), t, prefix + [source])
    ensures AfterAddLink(w, source, t).maxLinks == w.maxLinks
  {
    NextAccepted(g, w, t, prefix, source);
    var after := AfterAddLink(w, source, t);
    forall x: nat | x < |g| ensures after.nodes[x].issuedCount == |Targets(after.nodes, x)| {
      SlackAfterAddLink(w, source, t, x);
    }
    forall u: nat | u < |g| ensures LoadedNode(g, after, t, prefix + [source], u) {
      assert LoadedNode(g, w, t, prefix, u);
      assert Elems(prefix + [source]) == Elems(prefix) + {source};
    }
  }

  lemma {:induction false} LoadNode(g: seq<Node>, w: Web, t: nat, sources: seq<nat>)
    requires WellFormed(g) && t < |g| && NoDup(sources) && Elems(sources) <= g[t].linksSource
    requires Loading(g, w, t, [])
    requires forall s: nat :: s < |g| ==> |Targets(g, s)| <= w.maxLinks
    ensures Loading(g, AddAll(w, sources, t), t, sources)
    ensures AddAll(w, sources, t).maxLinks == w.maxLinks
    decreases sources
  {
    hide Loading, Targets, AfterAddLink;
    if sources != [] {
      var front, last := sources[..|sources| - 1], sources[|sources| - 1];
      assert sources == front + [last];
      assert Elems(front) <= Elems(sources);
      assert last in Elems(sources);
      LoadNode(g, w, t, front);
      LoadNext(g, AddAll(w, front, t), t, front, last);
    }
  }

  lemma NextNode(g: seq<Node>, w: Web, t: nat, order: seq<nat>)
    requires t < |g| && Loading(g, w, t, order) && Elems(order) == g[t].linksSource
    ensures Loading(g, w, t + 1, [])
  {
    var next := t + 1;
    forall u: nat | u < |g| ensures LoadedNode(g, w, next, [], u) {
      assert LoadedNode(g, w, t, order, u);
    }
  }

  lemma {:induction false} LoadAll(g: seq<Node>, w: Web, orders: seq<seq<nat>>, n: nat)
    requires WellFormed(g) && Orders(g, orders) && n <= |g|
    requires Loading(g, w, 0, [])
    requires forall s: nat :: s < |g| ==> |Targets(g, s)| <= w.maxLinks
    ensures Loading(g, AddLinks(w, orders[..n], 0), n, [])
    ensures AddLinks(w, orders[..n], 0).maxLinks == w.maxLinks
  {
    hide Loading, Targets, AddAll;
    if n > 0 {
      LoadAll(g, w, orders, n - 1);
      assert orders[..n][..n - 1] == orders[..n - 1];
      assert OrderOf(g[n - 1], orders[n - 1]);
      LoadNode(g, AddLinks(w, orders[..n - 1], 0), n - 1, orders[n - 1]);
      NextNode(g, AddLinks(w, orders[..n], 0), n - 1, orders[n - 1]);
    }
  }

  lemma StartLoading(g: seq<Node>, maxLinks: nat)
    ensures Loading(g, Web(FreshNodes(Flags(g)), maxLinks), 0, [])
  {
  }

  // ---- the file as a whole ----

  lemma HeaderParses(g: seq<Node>, orders: seq<seq<nat>>, data: seq<byte>)
    requires |data| < 0x1_0000_0000 && |g| < 0x1_0000_0000
    ensures var bytes, body := Encoding(g, orders, data), WrittenStates(Flags(g)) + LinkBytes(orders);
      && |bytes| == 8 + |data| + |body|
      && FromBe32(bytes[..4]) == |data|
      && bytes[4..4 + |data|] == data
      && FromBe32(bytes[4 + |data|..8 + |data|]) == |g|
      && bytes[8 + |data|..] == body
  {
    hide Be32, FromBe32, WrittenStates, LinkBytes;
    Be32RoundTrip(|data|);
    Be32RoundTrip(|g|);
    var bytes := Encoding(g, orders, data);
    var a, b, body := Be32(|data|), Be32(|g|), WrittenStates(Flags(g)) + LinkBytes(orders);
    assert bytes == ((a + data) + b) + body;
    assert bytes[..4] == a;
    assert bytes[4..4 + |data|] == data;
    assert bytes[4 + |data|..8 + |data|] == b;
    assert bytes[8 + |data|..] == body;
  }

  /** The reader's result on a written file, in terms of the states it takes and the rest. */
  lemma DecodeEncoded(g: seq<Node>, orders: seq<seq<nat>>, data: seq<byte>, maxLinks: nat, states: seq<byte>,
                      links: seq<byte>)
    requires |data| < 0x1_0000_0000 && |g| < 0x1_0000_0000
    requires WrittenStates(Flags(g)) + LinkBytes(orders) == states + links && |states| == ExpectedStates(|g|)
    ensures var start := Cursor(Web(FreshNodes(ReadStates(states, |g|)), maxLinks), 0, 0, [], 0);
      var end := ConsumeAll(start, links);
      Decoded(Encoding(g, orders, data), maxLinks) == if end.count % 3 != 0 then Crash else Read(end.web, data)
  {
    hide Encoding, WrittenStates, LinkBytes, ConsumeAll, ReadStates, FromBe32, FreshNodes;
    HeaderParses(g, orders, data);
    var body := states + links;
    assert body[..|states|] == states && body[|states|..] == links;
  }

  lemma SmallOrders(g: seq<Node>, orders: seq<seq<nat>>)
    requires InRange(g) && Orders(g, orders) && |g| < 0x1_0000_0000 && AllWritable(g)
    requires forall t: nat :: t < |g| ==> |g[t].linksSource| <= 255
    ensures AllSmall(orders)
  {
    forall t | 0 <= t < |orders| ensures Small(orders[t]) && |orders[t]| <= 255 {
      assert OrderOf(g[t], orders[t]);
      NoDupCardinality(orders[t]);
      forall i | 0 <= i < |orders[t]| ensures orders[t][i] < 0x100_0000 {
        assert orders[t][i] in Elems(orders[t]);
        assert orders[t][i] in g[t].linksSource && Writable(orders[t][i]);
      }
    }
  }

  /** The links section, read from the right place, rebuilds the graph. */
  lemma LinksRoundTrip(g: seq<Node>, orders: seq<seq<nat>>, maxLinks: nat)
    requires WellFormed(g) && Orders(g, orders) && |g| < 0x1_0000_0000 && AllWritable(g) && Fits(g, maxLinks)
    ensures var end := ConsumeAll(Cursor(Web(FreshNodes(Flags(g)), maxLinks), 0, 0, [], 0), LinkBytes(orders));
      Loading(g, end.web, |g|, []) && end.count % 3 == 0
  {
    hide Loading, ConsumeAll, LinkBytes, AddLinks, Targets, FreshNodes, Flags;
    SmallOrders(g, orders);
    StartLoading(g, maxLinks);
    LoadAll(g, Web(FreshNodes(Flags(g)), maxLinks), orders, |g|);
    assert orders[..|g|] == orders;
    ConsumeLinks(Cursor(Web(FreshNodes(Flags(g)), maxLinks), 0, 0, [], 0), orders);
  }

  lemma LoadedIsFaithful(g: seq<Node>, w: Web, data: seq<byte>)
    requires Loading(g, w, |g|, [])
    ensures Faithful(Read(w, data), g, data)
    ensures CountersExact(w.nodes)
  {
    forall t: nat | t < |g| ensures SameNode(w.nodes[t], g[t]) {
      assert LoadedNode(g, w, |g|, [], t);
    }
  }

  /** Round trip: for every order in which the sources are written, what is read back has the same
      blockstamp, states and links, and issued counters equal to the out-degrees. */
  lemma RoundTrip(g: seq<Node>, orders: seq<seq<nat>>, data: seq<byte>, maxLinks: nat)
    requires WellFormed(g) && Orders(g, orders) && |data| < 0x1_0000_0000 && |g| < 0x1_0000_0000 && AllWritable(g)
    requires Fits(g, maxLinks) && (|g| == 0 || 1 <= |g| % 8 <= 6)
    ensures Faithful(Decoded(Encoding(g, orders, data), maxLinks), g, data)
    ensures CountersExact(Decoded(Encoding(g, orders, data), maxLinks).web.nodes)
  {
    hide Decoded, Encoding, Loading, ConsumeAll, LinkBytes, WrittenStates, ReadStates, CountersExact, Faithful;
    if |g| == 0 {
      EmptyRoundTrip(g, orders, data, maxLinks);
    } else {
      StatesRoundTrip(Flags(g));
      DecodeEncoded(g, orders, data, maxLinks, WrittenStates(Flags(g)), LinkBytes(orders));
      LinksRoundTrip(g, orders, maxLinks);
      var end := ConsumeAll(Cursor(Web(FreshNodes(Flags(g)), maxLinks), 0, 0, [], 0), LinkBytes(orders));
      LoadedIsFaithful(g, end.web, data);
    }
  }

  /** The empty graph: one byte too many is written, and read as a node without links. */
  lemma EmptyRoundTrip(g: seq<Node>, orders: seq<seq<nat>>, data: seq<byte>, maxLinks: nat)
    requires |g| == 0 == |orders| && |data| < 0x1_0000_0000
    ensures Decoded(Encoding(g, orders, data), maxLinks) == Read(Web([], maxLinks), data)
    ensures Faithful(Decoded(Encoding(g, orders, data), maxLinks), g, data)
    ensures CountersExact(Decoded(Encoding(g, orders, data), maxLinks).web.nodes)
  {
    hide Decoded, Encoding;
    assert Flags(g) == [] && orders == [];
    StatesWithZeroByte([]);
    assert GroupBytes([], 0) == [];
    assert WrittenStates([]) + LinkBytes([]) == [] + [0];
    DecodeEncoded(g, orders, data, maxLinks, [], [0]);
    var start := Cursor(Web([], maxLinks), 0, 0, [], 0);
    assert FreshNodes(ReadStates([], 0)) == [];
    ConsumeOne(start, 0);
  }

  // ---- what no file can hold ----

  /** What stays true of the graph while any bytes at all are read. */
  ghost predicate Bounded(c: Cursor) {
    && InRange(c.web.nodes) && CountersCover(c.web.nodes)
    && forall u: nat :: u < |c.web.nodes| ==> BoundedNode(c, u)
  }

  ghost predicate BoundedNode(c: Cursor, u: nat)
    requires u < |c.web.nodes|
  {
    && c.web.nodes[u].issuedCount <= c.web.maxLinks
    && (u >= c.target ==> c.web.nodes[u].linksSource == {})
    && |c.web.nodes[u].linksSource| + (if u + 1 == c.target then c.remaining else 0) <= 255
  }

  lemma AddKeepsNodeBound(c: Cursor, source: nat, u: nat)
    requires Consistent(c) && c.remaining > 0 && u < |c.web.nodes| && BoundedNode(c, u)
    ensures var c' := Cursor(AfterAddLink(c.web, source, c.target - 1), c.target, c.remaining - 1, [], c.count + 1);
      u < |c'.web.nodes| && BoundedNode(c', u)
  {
  }

  lemma AddKeepsBounds(c: Cursor, source: nat)
    requires Consistent(c) && Bounded(c) && c.remaining > 0
    ensures Bounded(Cursor(AfterAddLink(c.web, source, c.target - 1), c.target, c.remaining - 1, [], c.count + 1))
  {
    hide CountersCover, BoundedNode;
    var w, t := c.web, c.target - 1;
    var c' := Cursor(AfterAddLink(w, source, t), c.target, c.remaining - 1, [], c.count + 1);
    StepKeepsCounters(w, AddLink(source, t));
    AddLinkSize(w, source, t);
    forall u: nat | u < |c'.web.nodes| ensures BoundedNode(c', u) {
      AddKeepsNodeBound(c, source, u);
    }
  }

  lemma ConsumeKeepsBounds(c: Cursor, b: byte)
    requires Consistent(c) && Bounded(c)
    ensures Bounded(Consume(c, b))
  {
    hide CountersCover, InRange;
    var c' := Consume(c, b);
    if c.remaining > 0 && c.count % 3 == 2 {
      AddKeepsBounds(c, FromBe24(c.buffer + [b]));
    } else {
      forall u: nat | u < |c'.web.nodes| ensures BoundedNode(c', u) {
        assert BoundedNode(c, u);
      }
    }
  }

  lemma {:induction false} ConsumeAllKeepsBounds(c: Cursor, bytes: seq<byte>)
    requires Consistent(c) && Bounded(c)
    ensures Bounded(ConsumeAll(c, bytes))
    decreases bytes
  {
    hide Bounded, Consume;
    if bytes != [] {
      ConsumeAllKeepsBounds(c, bytes[..|bytes| - 1]);
      ConsumeKeepsBounds(ConsumeAll(c, bytes[..|bytes| - 1]), bytes[|bytes| - 1]);
    }
  }

  lemma FreshBounded(flags: seq<bool>, maxLinks: nat)
    ensures Bounded(Cursor(Web(FreshNodes(flags), maxLinks), 0, 0, [], 0))
  {
  }

  lemma ConsumeKeepsMax(c: Cursor, b: byte)
    requires Consistent(c)
    ensures Consume(c, b).web.maxLinks == c.web.maxLinks
  {
  }

  lemma {:induction false} ConsumeAllKeepsMax(c: Cursor, bytes: seq<byte>)
    requires Consistent(c)
    ensures ConsumeAll(c, bytes).web.maxLinks == c.web.maxLinks
    decreases bytes
  {
    hide Consume;
    if bytes != [] {
      ConsumeAllKeepsMax(c, bytes[..|bytes| - 1]);
      ConsumeKeepsMax(ConsumeAll(c, bytes[..|bytes| - 1]), bytes[|bytes| - 1]);
    }
  }

  /** Whatever the bytes: a graph read from a file has in-degrees of at most 255, and out-degrees of
      at most `maxLinks`. */
  lemma DecodedFits(bytes: seq<byte>, maxLinks: nat)
    requires Decoded(bytes, maxLinks).Read?
    ensures Fits(Decoded(bytes, maxLinks).web.nodes, maxLinks)
  {
    hide FromBe32, ReadStates, FreshNodes, ConsumeAll, Targets;
    var size := FromBe32(bytes[..4]);
    var count := FromBe32(bytes[4 + size..8 + size]);
    var body := bytes[8 + size..];
    var flags := ReadStates(body[..ExpectedStates(count)], count);
    var start := Cursor(Web(FreshNodes(flags), maxLinks), 0, 0, [], 0);
    FreshBounded(flags, maxLinks);
    ConsumeAllKeepsBounds(start, body[ExpectedStates(count)..]);
    ConsumeAllKeepsMax(start, body[ExpectedStates(count)..]);
    var end := ConsumeAll(start, body[ExpectedStates(count)..]);
    forall t: nat | t < |end.web.nodes|
      ensures |end.web.nodes[t].linksSource| <= 255 && |Targets(end.web.nodes, t)| <= maxLinks {
      assert BoundedNode(end, t);
    }
  }

  /** So a faithful reading needs the graph itself to fit. */
  lemma FaithfulFits(outcome: Outcome, g: seq<Node>, data: seq<byte>, maxLinks: nat)
    requires Faithful(outcome, g, data) && Fits(outcome.web.nodes, maxLinks)
    ensures Fits(g, maxLinks)
  {
    var nodes := outcome.web.nodes;
    forall t: nat | t < |g| ensures |g[t].linksSource| <= 255 && |Targets(g, t)| <= maxLinks {
      assert SameNode(nodes[t], g[t]);
      forall u: nat ensures u in Targets(nodes, t) <==> u in Targets(g, t) {
        if u < |g| {
          assert SameNode(nodes[u], g[u]);
        }
      }
      assert Targets(nodes, t) == Targets(g, t);
    }
  }

  // ---- shifted links ----

  /** Node u has received at most what list u - first holds. */
  ghost predicate AtMost(w: Web, orders: seq<seq<nat>>, first: nat, u: nat)
    requires u < |w.nodes|
  {
    forall x: nat :: x in w.nodes[u].linksSource ==> first <= u < first + |orders| && x in orders[u - first]
  }

  lemma {:induction false} AddAllAtMost(w: Web, sources: seq<nat>, target: nat, u: nat)
    requires u < |w.nodes|
    ensures |AddAll(w, sources, target).nodes| == |w.nodes|
    ensures AddAll(w, sources, target).nodes[u].enabled == w.nodes[u].enabled
    ensures forall x: nat :: x in AddAll(w, sources, target).nodes[u].linksSource ==>
              x in w.nodes[u].linksSource || (u == target && x in sources)
    decreases sources
  {
    if sources != [] {
      AddAllAtMost(w, sources[..|sources| - 1], target, u);
      assert forall x :: x in sources[..|sources| - 1] ==> x in sources;
      assert sources[|sources| - 1] in sources;
    }
  }

  lemma {:induction false} AddLinksAtMost(w: Web, orders: seq<seq<nat>>, first: nat, u: nat)
    requires u < |w.nodes| && w.nodes[u].linksSource == {}
    ensures |AddLinks(w, orders, first).nodes| == |w.nodes|
    ensures AddLinks(w, orders, first).nodes[u].enabled == w.nodes[u].enabled
    ensures AtMost(AddLinks(w, orders, first), orders, first, u)
    decreases orders
  {
    hide AddAll;
    if orders != [] {
      var front, k := orders[..|orders| - 1], |orders| - 1;
      AddLinksAtMost(w, front, first, u);
      AddAllAtMost(AddLinks(w, front, first), orders[k], first + k, u);
    }
  }

  lemma {:induction false} AddNoLinks(w: Web, orders: seq<seq<nat>>, first: nat)
    requires forall t :: 0 <= t < |orders| ==> orders[t] == []
    ensures AddLinks(w, orders, first) == w
    decreases orders
  {
    if orders != [] {
      AddNoLinks(w, orders[..|orders| - 1], first);
    }
  }

  ghost predicate FromBefore(g: seq<Node>, u: nat)
    requires u < |g|
  {
    g[u].linksSource <= if u > 0 then g[u - 1].linksSource else {}
  }

  ghost predicate FromAfter(g: seq<Node>, u: nat)
    requires u < |g|
  {
    g[u].linksSource <= if u < |g| - 1 then g[u + 1].linksSource else {}
  }

  /** If every node has at most the sources of its predecessor, and node 0 none, there are no links. */
  lemma {:induction false} ShiftUpEmpties(g: seq<Node>, t: nat)
    requires t < |g| && forall u: nat :: u < |g| ==> FromBefore(g, u)
    ensures g[t].linksSource == {}
  {
    assert FromBefore(g, t);
    if t > 0 {
      ShiftUpEmpties(g, t - 1);
    }
  }

  lemma {:induction false} ShiftDownEmpties(g: seq<Node>, t: nat)
    requires t < |g| && forall u: nat :: u < |g| ==> FromAfter(g, u)
    ensures g[t].linksSource == {}
    decreases |g| - t
  {
    assert FromAfter(g, t);
    if t < |g| - 1 {
      ShiftDownEmpties(g, t + 1);
    }
  }

  lemma ElemsAre(s: seq<nat>)
    ensures forall x :: x in s <==> x in Elems(s)
  {
  }

  lemma NoLinksNoOrders(g: seq<Node>, orders: seq<seq<nat>>)
    requires Orders(g, orders) && NoLinks(g)
    ensures forall t :: 0 <= t < |orders| ==> orders[t] == []
  {
    forall t | 0 <= t < |orders| ensures orders[t] == [] {
      assert OrderOf(g[t], orders[t]);
      NoDupCardinality(orders[t]);
    }
  }

  // ---- a multiple of eight: every list goes one node too far ----

  lemma DecodeShifted(g: seq<Node>, orders: seq<seq<nat>>, data: seq<byte>, maxLinks: nat)
    requires Orders(g, orders) && |data| < 0x1_0000_0000 && |g| < 0x1_0000_0000 && |g| % 8 == 0
    requires AllSmall(orders)
    ensures var w := AddLinks(Web(FreshNodes(Flags(g)), maxLinks), orders, 1);
      var outcome := Decoded(Encoding(g, orders, data), maxLinks);
      outcome.Read? ==> outcome == Read(w, data)
    ensures NoLinks(g) ==>
            Decoded(Encoding(g, orders, data), maxLinks) == Read(Web(FreshNodes(Flags(g)), maxLinks), data)
  {
    hide Decoded, Encoding, LinkBytes, ReadStates, WrittenStates, Flags, FreshNodes, GroupBytes, AddLinks, ConsumeAll,
         Consume;
    FlagsSize(g);
    var flags, groups := Flags(g), GroupBytes(Flags(g), |g| / 8);
    StatesWithZeroByte(flags);
    Associate(groups, [0 as byte], LinkBytes(orders));
    DecodeEncoded(g, orders, data, maxLinks, groups, [0] + LinkBytes(orders));
    var start := Cursor(Web(FreshNodes(flags), maxLinks), 0, 0, [], 0);
    ConsumeConcat(start, [0], LinkBytes(orders));
    ConsumeOne(start, 0);
    ConsumeZero(start);
    ConsumeLinks(start.(target := 1), orders);
    if NoLinks(g) {
      NoLinksNoOrders(g, orders);
      AddNoLinks(Web(FreshNodes(flags), maxLinks), orders, 1);
      EmptyListsEnd(start.(target := 1), orders);
    }
  }

  lemma FlagsSize(g: seq<Node>)
    ensures |Flags(g)| == |g|
  {
  }

  lemma ConsumeZero(c: Cursor)
    requires Consistent(c) && c.remaining == 0
    ensures Consume(c, 0) == c.(target := c.target + 1, remaining := 0, count := 0)
  {
  }

  lemma {:induction false} EmptyListsEnd(c: Cursor, orders: seq<seq<nat>>)
    requires Consistent(c) && c.remaining == 0 && c.count == 0
    requires forall t :: 0 <= t < |orders| ==> orders[t] == []
    ensures ConsumeAll(c, LinkBytes(orders)) == c.(target := c.target + |orders|)
    decreases orders
  {
    if orders != [] {
      var front := orders[..|orders| - 1];
      EmptyListsEnd(c, front);
      ConsumeConcat(c, LinkBytes(front), NodeBytes([]));
      assert NodeBytes([]) == [0];
      ConsumeOne(ConsumeAll(c, LinkBytes(front)), 0);
    }
  }

  lemma FreshIsFaithful(g: seq<Node>, maxLinks: nat, data: seq<byte>)
    requires NoLinks(g)
    ensures Faithful(Read(Web(FreshNodes(Flags(g)), maxLinks), data), g, data)
  {
  }

  /** With a positive multiple of eight nodes, the reading is faithful only without links. */
  lemma MultipleOfEight(g: seq<Node>, orders: seq<seq<nat>>, data: seq<byte>, maxLinks: nat)
    requires WellFormed(g) && Orders(g, orders) && |data| < 0x1_0000_0000 && |g| < 0x1_0000_0000 && AllWritable(g)
    requires |g| > 0 && |g| % 8 == 0 && Fits(g, maxLinks)
    ensures Faithful(Decoded(Encoding(g, orders, data), maxLinks), g, data) <==> NoLinks(g)
  {
    hide Decoded, Encoding, AddLinks, Flags, FreshNodes;
    SmallOrders(g, orders);
    DecodeShifted(g, orders, data, maxLinks);
    var outcome := Decoded(Encoding(g, orders, data), maxLinks);
    if NoLinks(g) {
      FreshIsFaithful(g, maxLinks, data);
    }
    if Faithful(outcome, g, data) {
      FreshSize(g);
      ShiftedUp(g, orders, Web(FreshNodes(Flags(g)), maxLinks), outcome.web);
    }
  }

  lemma ShiftedUp(g: seq<Node>, orders: seq<seq<nat>>, start: Web, end: Web)
    requires Orders(g, orders) && |g| > 0
    requires |start.nodes| == |g| && forall u :: 0 <= u < |g| ==> start.nodes[u].linksSource == {}
    requires end == AddLinks(start, orders, 1)
    requires |end.nodes| == |g| && forall t: nat :: t < |g| ==> SameNode(end.nodes[t], g[t])
    ensures NoLinks(g)
  {
    hide AddLinks;
    forall u: nat | u < |g| ensures FromBefore(g, u) {
      AddLinksAtMost(start, orders, 1, u);
      assert SameNode(end.nodes[u], g[u]);
      if u > 0 {
        assert OrderOf(g[u - 1], orders[u - 1]);
        ElemsAre(orders[u - 1]);
      }
    }
    forall t: nat | t < |g| ensures g[t].linksSource == {} {
      ShiftUpEmpties(g, t);
    }
  }

  lemma FreshSize(g: seq<Node>)
    ensures |FreshNodes(Flags(g))| == |g|
    ensures forall u :: 0 <= u < |g| ==> FreshNodes(Flags(g))[u] == Node(g[u].enabled, {}, 0)
  {
  }

  // ---- seven modulo eight: a count is read as seven states ----

  ghost function Rest(orders: seq<seq<nat>>): seq<byte>
    requires orders != []
  {
    SourceBytes(orders[0]) + LinkBytes(orders[1..])
  }

  lemma {:induction false} LinkBytesCons(orders: seq<seq<nat>>)
    requires orders != []
    ensures LinkBytes(orders) == NodeBytes(orders[0]) + LinkBytes(orders[1..])
    decreases orders
  {
    hide NodeBytes;
    if |orders| == 1 {
      assert orders[..0] == [] && orders[1..] == [];
      assert LinkBytes(orders[..0]) == [];
      assert NodeBytes(orders[0]) + [] == NodeBytes(orders[0]) == [] + NodeBytes(orders[0]);
    } else {
      var front, tail := orders[..|orders| - 1], orders[1..];
      LinkBytesCons(front);
      assert front[1..] == tail[..|tail| - 1];
      Associate(NodeBytes(orders[0]), LinkBytes(front[1..]), NodeBytes(orders[|orders| - 1]));
    }
  }

  lemma DecodeMisread(g: seq<Node>, orders: seq<seq<nat>>, data: seq<byte>, maxLinks: nat)
    requires Orders(g, orders) && |data| < 0x1_0000_0000 && |g| < 0x1_0000_0000 && |g| % 8 == 7
    ensures var flags := Flags(g)[..|g| - 7] + Unpack(Low(|orders[0]|), 128, 7);
      var end := ConsumeAll(Cursor(Web(FreshNodes(flags), maxLinks), 0, 0, [], 0), Rest(orders));
      Decoded(Encoding(g, orders, data), maxLinks) == if end.count % 3 != 0 then Crash else Read(end.web, data)
  {
    hide Decoded, Encoding, LinkBytes, SourceBytes, ReadStates, WrittenStates, Flags, FreshNodes, ConsumeAll, Unpack;
    var written, next := WrittenStates(Flags(g)), Low(|orders[0]|);
    FlagsSize(g);
    StatesWithoutLast(Flags(g), next);
    LinkBytesCons(orders);
    Associate([next], SourceBytes(orders[0]), LinkBytes(orders[1..]));
    Associate(written, [next], Rest(orders));
    DecodeEncoded(g, orders, data, maxLinks, written + [next], Rest(orders));
  }

  /** Without its first count the links section is too light for the whole graph, unless that count
      is zero. */
  lemma FirstListEmpty(g: seq<Node>, orders: seq<seq<nat>>, start: Cursor)
    requires Orders(g, orders) && AllSmall(orders) && |g| > 0
    requires Consistent(start) && start.remaining == 0 && start.buffer == []
    requires forall t :: 0 <= t < |start.web.nodes| ==> start.web.nodes[t].linksSource == {}
    requires var end := ConsumeAll(start, Rest(orders)).web.nodes;
      |end| == |g| && forall t: nat :: t < |g| ==> end[t].linksSource == g[t].linksSource
    ensures orders[0] == []
  {
    hide Weight, ConsumeAll, LinkBytes, SourceBytes, Consume;
    var end := ConsumeAll(start, Rest(orders));
    NoLinksNoWeight(start.web.nodes);
    BytesAddThemselves(start, Rest(orders));
    SameLinksSameWeight(end.web.nodes, g);
    assert orders[..|g|] == orders;
    LinkBytesWeigh(g, orders, |g|);
    LinkBytesCons(orders);
    assert NodeBytes(orders[0]) + LinkBytes(orders[1..]) == [Low(|orders[0]|)] + Rest(orders);
    ByteSumConcat([Low(|orders[0]|)], Rest(orders));
    ByteSumSnoc([], Low(|orders[0]|));
    assert [] + [Low(|orders[0]|)] == [Low(|orders[0]|)];
  }

  lemma NoLinksRest(start: Cursor, orders: seq<seq<nat>>)
    requires Consistent(start) && start.remaining == 0 && start.count == 0
    requires orders != [] && forall t :: 0 <= t < |orders| ==> orders[t] == []
    ensures ConsumeAll(start, Rest(orders)) == start.(target := start.target + |orders| - 1)
  {
    EmptyListsEnd(start, orders[1..]);
    assert SourceBytes([]) == [];
    assert Rest(orders) == LinkBytes(orders[1..]);
  }

  lemma MisreadFlags(g: seq<Node>, u: nat)
    requires |g| % 8 == 7 && u < |g|
    ensures var flags := Flags(g)[..|g| - 7] + Unpack(0, 128, 7);
      |flags| == |g| && flags[u] == (u < |g| - 7 && g[u].enabled)
  {
    EightHold(7);
    UnpackZero(7, 128);
  }

  /** 7 modulo 8, no links, last seven nodes disabled: everything read is zero. */
  lemma SevenFaithful(g: seq<Node>, orders: seq<seq<nat>>, data: seq<byte>, maxLinks: nat)
    requires Orders(g, orders) && |data| < 0x1_0000_0000 && |g| < 0x1_0000_0000
    requires |g| % 8 == 7 && NoLinks(g) && forall t: nat :: |g| - 7 <= t < |g| ==> !g[t].enabled
    ensures Faithful(Decoded(Encoding(g, orders, data), maxLinks), g, data)
  {
    hide Decoded, Encoding, ConsumeAll, Unpack, Rest;
    NoLinksNoOrders(g, orders);
    DecodeMisread(g, orders, data, maxLinks);
    var flags := Flags(g)[..|g| - 7] + Unpack(0, 128, 7);
    var start := Cursor(Web(FreshNodes(flags), maxLinks), 0, 0, [], 0);
    NoLinksRest(start, orders);
    forall t: nat | t < |g| ensures SameNode(start.web.nodes[t], g[t]) {
      MisreadFlags(g, t);
    }
  }

  /** Otherwise the first list is empty, the seven states are read as disabled, and every list goes
      to the node before. */
  lemma SevenNeedsNothing(g: seq<Node>, orders: seq<seq<nat>>, data: seq<byte>, maxLinks: nat)
    requires WellFormed(g) && Orders(g, orders) && |data| < 0x1_0000_0000 && |g| < 0x1_0000_0000 && AllWritable(g)
    requires |g| % 8 == 7 && Fits(g, maxLinks)
    requires Faithful(Decoded(Encoding(g, orders, data), maxLinks), g, data)
    ensures NoLinks(g) && forall t: nat :: |g| - 7 <= t < |g| ==> !g[t].enabled
  {
    hide Decoded, Encoding, ConsumeAll, Unpack, AddLinks, LinkBytes;
    SmallOrders(g, orders);
    DecodeMisread(g, orders, data, maxLinks);
    var outcome := Decoded(Encoding(g, orders, data), maxLinks);
    var flags := Flags(g)[..|g| - 7] + Unpack(Low(|orders[0]|), 128, 7);
    var start := Cursor(Web(FreshNodes(flags), maxLinks), 0, 0, [], 0);
    forall t: nat | t < |g| ensures outcome.web.nodes[t].linksSource == g[t].linksSource {
      assert SameNode(outcome.web.nodes[t], g[t]);
    }
    FirstListEmpty(g, orders, start);
    var shifted := orders[1..];
    assert Rest(orders) == LinkBytes(shifted) by {
      assert SourceBytes([]) == [];
    }
    ConsumeLinks(start, shifted);
    assert outcome.web == AddLinks(start.web, shifted, 0);
    SevenShifted(g, orders, start.web, outcome.web);
    forall t: nat | |g| - 7 <= t < |g| ensures !g[t].enabled {
      AddLinksAtMost(start.web, shifted, 0, t);
      assert SameNode(outcome.web.nodes[t], g[t]);
      MisreadFlags(g, t);
    }
  }

  lemma SevenShifted(g: seq<Node>, orders: seq<seq<nat>>, start: Web, end: Web)
    requires Orders(g, orders) && |g| > 0
    requires |start.nodes| == |g| && forall u :: 0 <= u < |g| ==> start.nodes[u].linksSource == {}
    requires end == AddLinks(start, orders[1..], 0)
    requires |end.nodes| == |g| && forall t: nat :: t < |g| ==> SameNode(end.nodes[t], g[t])
    ensures NoLinks(g)
  {
    hide AddLinks;
    forall u: nat | u < |g| ensures FromAfter(g, u) {
      AddLinksAtMost(start, orders[1..], 0, u);
      assert SameNode(end.nodes[u], g[u]);
      if u < |g| - 1 {
        assert OrderOf(g[u + 1], orders[u + 1]);
        assert orders[1..][u] == orders[u + 1];
        ElemsAre(orders[u + 1]);
      }
    }
    forall t: nat | t < |g| ensures g[t].linksSource == {} {
      ShiftDownEmpties(g, t);
    }
  }

  // ---- the characterization ----

  /** A written graph is read back if and only if it fits the format and the paddings agree. */
  lemma RoundTripIff(g: seq<Node>, orders: seq<seq<nat>>, data: seq<byte>, maxLinks: nat)
    requires WellFormed(g) && Orders(g, orders) && |data| < 0x1_0000_0000 && |g| < 0x1_0000_0000 && AllWritable(g)
    ensures Faithful(Decoded(Encoding(g, orders, data), maxLinks), g, data) <==> Fits(g, maxLinks) && PaddingAgrees(g)
  {
    var outcome := Decoded(Encoding(g, orders, data), maxLinks);
    assert Faithful(outcome, g, data) ==> outcome.Read?;
    hide Decoded, Encoding, Fits, Faithful, NoLinks;
    if Faithful(outcome, g, data) {
      DecodedFits(Encoding(g, orders, data), maxLinks);
      FaithfulFits(outcome, g, data, maxLinks);
    }
    if Fits(g, maxLinks) {
      if |g| == 0 || 1 <= |g| % 8 <= 6 {
        RoundTrip(g, orders, data, maxLinks);
      } else if |g| % 8 == 0 {
        MultipleOfEight(g, orders, data, maxLinks);
      } else {
        if Faithful(outcome, g, data) {
          SevenNeedsNothing(g, orders, data, maxLinks);
        }
        if PaddingAgrees(g) {
          SevenFaithful(g, orders, data, maxLinks);
        }
      }
    }
  }
}
