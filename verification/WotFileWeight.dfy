/**
  Bytes cannot turn into links: every link the reader adds is paid for by its count and by the bytes of
  its id.  What a graph weighs is exactly what its links section adds up to.
 */
module WotFileWeight {
  import opened Sequences
  import opened Sums
  import opened Wot
  import opened WotFile

  const IDS: nat := 0x100_0000

  function ByteSum(bytes: seq<byte>): nat {
    if bytes == [] then 0 else ByteSum(bytes[..|bytes| - 1]) + bytes[|bytes| - 1]
  }

  lemma ByteSumSnoc(bytes: seq<byte>, b: byte)
    ensures ByteSum(bytes + [b]) == ByteSum(bytes) + b
  {
  }

  lemma {:induction false} ByteSumConcat(a: seq<byte>, b: seq<byte>)
    ensures ByteSum(a + b) == ByteSum(a) + ByteSum(b)
    decreases b
  {
    if b == [] {
      assert a + b == a;
    } else {
      var front, last := b[..|b| - 1], b[|b| - 1];
      ByteSumConcat(a, front);
      ByteSumSnoc(a + front, last);
      assert a + b == (a + front) + [last];
    }
  }

  /** A link is worth one, for the count, and the bytes of its id. */
  function IdWeight(source: nat): nat {
    1 + ByteSum(Be24(source))
  }

  ghost function MemberWeight(sources: set<nat>, source: nat): nat {
    if source in sources then IdWeight(source) else 0
  }

  ghost function SetWeight(sources: set<nat>): nat {
    SumNat(IDS, (source: nat) => MemberWeight(sources, source))
  }

  ghost function NodeWeight(nodes: seq<Node>, t: nat): nat {
    if t < |nodes| then SetWeight(nodes[t].linksSource) else 0
  }

  ghost function Weight(nodes: seq<Node>, n: nat): nat {
    SumNat(n, (t: nat) => NodeWeight(nodes, t))
  }

  lemma OneMoreMember(sources: set<nat>, source: nat)
    requires source < IDS && source !in sources
    ensures SetWeight(sources + {source}) == SetWeight(sources) + IdWeight(source)
  {
    hide SumNat, IdWeight;
    var before := (s: nat) => MemberWeight(sources, s);
    var after := (s: nat) => MemberWeight(sources + {source}, s);
    SumNatUpdate(IDS, source, before, after);
  }

  lemma EmptyWeight()
    ensures SetWeight({}) == 0
  {
    hide SumNat;
    SumNatZero(IDS, (s: nat) => MemberWeight({}, s));
  }

  // ---- the reader ----

  lemma AtMostOneMore(sources: set<nat>, source: nat)
    requires source < IDS
    ensures SetWeight(sources + {source}) <= SetWeight(sources) + IdWeight(source)
  {
    if source in sources {
      assert sources + {source} == sources;
    } else {
      OneMoreMember(sources, source);
    }
  }

  lemma LinkWeight(w: Web, source: nat, target: nat)
    requires source < IDS
    ensures var after := AfterAddLink(w, source, target).nodes;
      |after| == |w.nodes| && Weight(after, |w.nodes|) <= Weight(w.nodes, |w.nodes|) + IdWeight(source)
  {
    hide SumNat, IdWeight, SetWeight;
    if AddLinkResult(w, source, target).Ok? {
      var after := AfterAddLink(w, source, target).nodes;
      AtMostOneMore(w.nodes[target].linksSource, source);
      SumNatUpdate(|w.nodes|, target, (t: nat) => NodeWeight(w.nodes, t), (t: nat) => NodeWeight(after, t));
    }
  }

  /** What the reader has in hand: links, links announced, and bytes of the next id. */
  ghost function InHand(c: Cursor): nat {
    Weight(c.web.nodes, |c.web.nodes|) + c.remaining + ByteSum(c.buffer)
  }

  lemma IdOfBytes(s: seq<byte>)
    requires |s| == 3
    ensures FromBe24(s) < IDS && Be24(FromBe24(s)) == s
  {
    var n := FromBe24(s);
    assert n == s[0] as nat * 0x1_0000 + s[1] as nat * 0x100 + s[2] as nat;
    assert n / 0x100 == s[0] as nat * 0x100 + s[1] as nat;
    assert n / 0x1_0000 == s[0] as nat;
  }

  lemma ByteAddsItself(c: Cursor, b: byte)
    requires Consistent(c)
    ensures InHand(Consume(c, b)) <= InHand(c) + b
  {
    hide Weight, AfterAddLink, Be24, FromBe24;
    if c.remaining > 0 {
      ByteSumSnoc(c.buffer, b);
      if c.count % 3 == 2 {
        IdOfBytes(c.buffer + [b]);
        LinkWeight(c.web, FromBe24(c.buffer + [b]), c.target - 1);
      }
    }
  }

  /** No bytes make the reader hold more than their sum. */
  lemma {:induction false} BytesAddThemselves(c: Cursor, bytes: seq<byte>)
    requires Consistent(c)
    ensures InHand(ConsumeAll(c, bytes)) <= InHand(c) + ByteSum(bytes)
    decreases bytes
  {
    hide InHand, Consume;
    if bytes != [] {
      BytesAddThemselves(c, bytes[..|bytes| - 1]);
      ByteAddsItself(ConsumeAll(c, bytes[..|bytes| - 1]), bytes[|bytes| - 1]);
    }
  }

  // ---- the writer ----

  lemma {:induction false} SourcesWeigh(order: seq<nat>)
    requires NoDup(order) && forall i :: 0 <= i < |order| ==> order[i] < IDS
    ensures ByteSum(SourceBytes(order)) + |order| == SetWeight(Elems(order))
    decreases order
  {
    hide SetWeight, Be24;
    if order == [] {
      assert Elems(order) == {};
      EmptyWeight();
    } else {
      var front, last := order[..|order| - 1], order[|order| - 1];
      SourcesWeigh(front);
      ByteSumConcat(SourceBytes(front), Be24(last));
      ElemsSnoc(order);
      OneMoreMember(Elems(front), last);
    }
  }

  lemma ElemsSnoc(order: seq<nat>)
    requires NoDup(order) && order != []
    ensures var front, last := order[..|order| - 1], order[|order| - 1];
      Elems(order) == Elems(front) + {last} && last !in Elems(front)
  {
  }

  lemma NodeBytesWeigh(order: seq<nat>)
    requires NoDup(order) && |order| <= 255 && forall i :: 0 <= i < |order| ==> order[i] < IDS
    ensures ByteSum(NodeBytes(order)) == SetWeight(Elems(order))
  {
    hide SetWeight, SourceBytes;
    SourcesWeigh(order);
    ByteSumConcat([Low(|order|)], SourceBytes(order));
    ByteSumSnoc([], Low(|order|));
    assert [] + [Low(|order|)] == [Low(|order|)];
  }

  /** The bytes of the links section add up to the weight of the graph. */
  lemma {:induction false} LinkBytesWeigh(nodes: seq<Node>, orders: seq<seq<nat>>, n: nat)
    requires Orders(nodes, orders) && n <= |nodes|
    requires forall t :: 0 <= t < |orders| ==>
             |orders[t]| <= 255 && forall i :: 0 <= i < |orders[t]| ==> orders[t][i] < IDS
    ensures ByteSum(LinkBytes(orders[..n])) == Weight(nodes, n)
  {
    hide SetWeight, NodeBytes, SumNat;
    if n == 0 {
      SumNatZero(0, (t: nat) => NodeWeight(nodes, t));
    } else {
      LinkBytesWeigh(nodes, orders, n - 1);
      assert orders[..n][..n - 1] == orders[..n - 1];
      assert OrderOf(nodes[n - 1], orders[n - 1]);
      ByteSumConcat(LinkBytes(orders[..n - 1]), NodeBytes(orders[n - 1]));
      NodeBytesWeigh(orders[n - 1]);
      SumNatLast(n, (t: nat) => NodeWeight(nodes, t));
    }
  }

  lemma SumNatLast(n: nat, f: nat -> nat)
    requires n > 0
    ensures SumNat(n, f) == SumNat(n - 1, f) + f(n - 1)
  {
  }

  // ---- graphs that agree ----

  lemma SameLinksSameWeight(a: seq<Node>, b: seq<Node>)
    requires |a| == |b| && forall t :: 0 <= t < |a| ==> a[t].linksSource == b[t].linksSource
    ensures Weight(a, |a|) == Weight(b, |a|)
  {
    hide SumNat, SetWeight;
    SumNatEq(|a|, (t: nat) => NodeWeight(a, t), (t: nat) => NodeWeight(b, t));
  }

  lemma NoLinksNoWeight(a: seq<Node>)
    requires forall t :: 0 <= t < |a| ==> a[t].linksSource == {}
    ensures Weight(a, |a|) == 0
  {
    hide SumNat, SetWeight;
    EmptyWeight();
    SumNatZero(|a|, (t: nat) => NodeWeight(a, t));
  }
}
