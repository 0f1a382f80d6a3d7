/**
  The binary format of the Web of Trust: a length-prefixed blockstamp, the number of nodes, their
  enabled states packed by eight, then for every node how many sources it has and their ids.
 */
module WotFile {
  import opened Sequences
  import opened Sums
  import opened Wot

  type byte = b: nat | b < 256

  // ---- big-endian integers ----

  function Low(n: nat): byte {
    n % 256
  }

  function Shifted(n: nat, unit: nat): nat
    requires unit > 0
  {
    n / unit
  }

  function Be32(n: nat): seq<byte> {
    [Low(Shifted(n, 0x100_0000)), Low(Shifted(n, 0x1_0000)), Low(Shifted(n, 0x100)), Low(n)]
  }

  function FromBe32(s: seq<byte>): nat
    requires |s| == 4
  {
    s[0] as nat * 0x100_0000 + s[1] as nat * 0x1_0000 + s[2] as nat * 0x100 + s[3] as nat
  }

  function Be24(n: nat): seq<byte> {
    [Low(Shifted(n, 0x1_0000)), Low(Shifted(n, 0x100)), Low(n)]
  }

  function FromBe24(s: seq<byte>): nat
    requires |s| == 3
  {
    s[0] as nat * 0x1_0000 + s[1] as nat * 0x100 + s[2] as nat
  }

  lemma Be32RoundTrip(n: nat)
    requires n < 0x1_0000_0000
    ensures |Be32(n)| == 4 && FromBe32(Be32(n)) == n
  {
    var h, r := n / 0x100_0000, n % 0x100_0000;
    Split(h, r, n);
    assert h % 256 == h;
  }

  /** The three low bytes of h * 2^24 + r are those of r. */
  lemma Split(h: nat, r: nat, n: nat)
    requires r < 0x100_0000 && n == h * 0x100_0000 + r
    ensures Low(n / 0x1_0000) as nat * 0x1_0000 + Low(n / 0x100) as nat * 0x100 + Low(n) as nat == r
  {
    var m, l, b := r / 0x1_0000, r % 0x1_0000 / 0x100, r % 0x100;
    assert r == m * 0x1_0000 + l * 0x100 + b;
    LowOf(h * 0x1_0000 + m * 0x100 + l, b, n);
    LowOf(h * 0x100 + m, l, h * 0x1_0000 + m * 0x100 + l);
    LowOf(h, m, h * 0x100 + m);
    assert n / 0x1_0000 == h * 0x100 + m;
  }

  lemma LowOf(high: nat, low: nat, n: nat)
    requires low < 0x100 && n == high * 0x100 + low
    ensures Low(n) == low && n / 0x100 == high
  {
  }

  lemma Be24RoundTrip(n: nat)
    requires n < 0x100_0000
    ensures |Be24(n)| == 3 && FromBe24(Be24(n)) == n
  {
  }

  // ---- enabled states ----

  /** The weight of the j-th state of a byte. */
  function Factor(j: nat): nat {
    if j == 0 then 128 else Factor(j - 1) / 2
  }

  /** The sum a byte holds for its first states, starting with the given factor. */
  function Pack(flags: seq<bool>, factor: nat): nat {
    if flags == [] then 0
    else (if flags[0] then factor else 0) + Pack(flags[1..], factor / 2)
  }

  /** Greedy reading of m states. */
  function Unpack(packed: nat, factor: nat, m: nat): (flags: seq<bool>)
    ensures |flags| == m
  {
    if m == 0 then []
    else if packed >= factor then [true] + Unpack(packed - factor, factor / 2, m - 1)
    else [false] + Unpack(packed, factor / 2, m - 1)
  }

  /** What a factor must be for m more states to fit below it. */
  predicate Holds(factor: nat, m: nat) {
    m == 0 || (factor > 0 && (m > 1 ==> factor % 2 == 0) && Holds(factor / 2, m - 1))
  }

  lemma {:induction false} PackBound(flags: seq<bool>, factor: nat)
    requires Holds(factor, |flags|)
    ensures flags != [] ==> Pack(flags, factor) < 2 * factor
  {
    if |flags| > 1 {
      PackBound(flags[1..], factor / 2);
    } else if |flags| == 1 {
      assert Pack(flags[1..], factor / 2) == 0;
    }
  }

  lemma {:induction false} UnpackPack(flags: seq<bool>, factor: nat)
    requires Holds(factor, |flags|)
    ensures Unpack(Pack(flags, factor), factor, |flags|) == flags
  {
    if flags != [] {
      UnpackPack(flags[1..], factor / 2);
      PackBound(flags[1..], factor / 2);
      assert flags == [flags[0]] + flags[1..];
    }
  }

  lemma EightHold(m: nat)
    requires m <= 8
    ensures Holds(128, m)
  {
    assert Holds(1, if m >= 8 then m - 7 else 0);
    assert Holds(2, if m >= 7 then m - 6 else 0);
    assert Holds(4, if m >= 6 then m - 5 else 0);
    assert Holds(8, if m >= 5 then m - 4 else 0);
    assert Holds(16, if m >= 4 then m - 3 else 0);
    assert Holds(32, if m >= 3 then m - 2 else 0);
    assert Holds(64, if m >= 2 then m - 1 else 0);
  }

  function PackByte(flags: seq<bool>): byte
    requires |flags| <= 8
  {
    EightHold(|flags|);
    PackBound(flags, 128);
    Pack(flags, 128)
  }

  /** The k-th group of eight states; the last group may be shorter. */
  function Group(flags: seq<bool>, k: nat): seq<bool>
    requires 8 * k <= |flags|
  {
    if 8 * k + 8 <= |flags| then flags[8 * k..8 * k + 8] else flags[8 * k..]
  }

  function GroupBytes(flags: seq<bool>, n: nat): seq<byte>
    requires 8 * n <= |flags|
  {
    seq(n, k requires 0 <= k < n => PackByte(Group(flags, k)))
  }

  /** The states as written: one byte per full group of eight, and one for the rest unless the
      number of nodes is 7 modulo 8. */
  function WrittenStates(flags: seq<bool>): seq<byte> {
    GroupBytes(flags, |flags| / 8) +
    if |flags| % 8 != 7 then [PackByte(Group(flags, |flags| / 8))] else []
  }

  /** How many bytes of states the reader expects. */
  function ExpectedStates(count: nat): nat {
    if count % 8 == 0 then count / 8 else count / 8 + 1
  }

  function ReadStates(states: seq<byte>, count: nat): (flags: seq<bool>)
    ensures |flags| <= count
    ensures |flags| == if 8 * |states| < count then 8 * |states| else count
  {
    if states == [] || count == 0 then []
    else
      var m := if count < 8 then count else 8;
      Unpack(states[0], 128, m) + ReadStates(states[1..], count - m)
  }

  function Flags(nodes: seq<Node>): seq<bool> {
    seq(|nodes|, i requires 0 <= i < |nodes| => nodes[i].enabled)
  }

  function FreshNodes(flags: seq<bool>): seq<Node> {
    seq(|flags|, i requires 0 <= i < |flags| => Node(flags[i], {}, 0))
  }

  // ---- links ----

  function SourceBytes(sources: seq<nat>): seq<byte> {
    if sources == [] then [] else SourceBytes(sources[..|sources| - 1]) + Be24(sources[|sources| - 1])
  }

  function NodeBytes(sources: seq<nat>): seq<byte> {
    [Low(|sources|)] + SourceBytes(sources)
  }

  function LinkBytes(orders: seq<seq<nat>>): seq<byte> {
    if orders == [] then [] else LinkBytes(orders[..|orders| - 1]) + NodeBytes(orders[|orders| - 1])
  }

  /** An order in which to write each node's sources. */
  ghost predicate Orders(nodes: seq<Node>, orders: seq<seq<nat>>) {
    |orders| == |nodes| && forall t: nat :: t < |nodes| ==> OrderOf(nodes[t], orders[t])
  }

  ghost predicate OrderOf(node: Node, order: seq<nat>) {
    NoDup(order) && Elems(order) == node.linksSource
  }

  /** The whole file. */
  function Encoding(nodes: seq<Node>, orders: seq<seq<nat>>, data: seq<byte>): seq<byte> {
    Be32(|data|) + data + Be32(|nodes|) + WrittenStates(Flags(nodes)) + LinkBytes(orders)
  }

  /** Where the reader is in the links: the node whose sources it reads is `target - 1`. */
  datatype Cursor = Cursor(web: Web, target: nat, remaining: nat, buffer: seq<byte>, count: nat)

  predicate Consistent(c: Cursor) {
    && |c.buffer| == c.count % 3
    && (c.remaining == 0 ==> c.count % 3 == 0)
    && (c.remaining > 0 ==> c.target > 0)
    && c.remaining < 256
  }

  function Consume(c: Cursor, b: byte): (c': Cursor)
    requires Consistent(c)
    ensures Consistent(c')
  {
    if c.remaining == 0 then
      c.(target := c.target + 1, remaining := b, count := 0)
    else if c.count % 3 == 2 then
      var source := FromBe24(c.buffer + [b]);
      Cursor(AfterAddLink(c.web, source, c.target - 1), c.target, c.remaining - 1, [], c.count + 1)
    else
      c.(buffer := c.buffer + [b], count := c.count + 1)
  }

  function ConsumeAll(c: Cursor, bytes: seq<byte>): (c': Cursor)
    requires Consistent(c)
    ensures Consistent(c')
  {
    if bytes == [] then c else Consume(ConsumeAll(c, bytes[..|bytes| - 1]), bytes[|bytes| - 1])
  }

  /** What reading a file yields: a graph and the blockstamp, or a crash of the program. */
  datatype Outcome = Read(web: Web, data: seq<byte>) | Crash

  /** `split_off` crashes when it is asked for more than there is. */
  function Decoded(bytes: seq<byte>, maxLinks: nat): Outcome {
    if |bytes| < 4 then Crash
    else
      var size := FromBe32(bytes[..4]);
      if |bytes| < 4 + size + 4 then Crash
      else
        var data, count := bytes[4..4 + size], FromBe32(bytes[4 + size..8 + size]);
        var body := bytes[8 + size..];
        if |body| < ExpectedStates(count) then Crash
        else
          var flags := ReadStates(body[..ExpectedStates(count)], count);
          var start := Cursor(Web(FreshNodes(flags), maxLinks), 0, 0, [], 0);
          var end := ConsumeAll(start, body[ExpectedStates(count)..]);
          if end.count % 3 != 0 then Crash else Read(end.web, data)
  }

  // ---- the writer ----

  /** The writer's variables after n states. */
  ghost predicate WritingAt(flags: seq<bool>, n: nat, states: seq<byte>, enableStates: nat, factor: nat)
    requires n <= |flags|
  {
    && states == GroupBytes(flags, n / 8)
    && factor == Factor(n % 8)
    && enableStates == Pack(flags[8 * (n / 8)..n], 128)
    && (n % 8 != 0 ==> enableStates < 256)
  }

  lemma OneMoreState(flags: seq<bool>, q: nat, r: nat)
    requires r < 8 && 8 * q + r < |flags|
    ensures var n := 8 * q + r;
      && Pack(flags[8 * q..n + 1], 128) == Pack(flags[8 * q..n], 128) + (if flags[n] then Factor(r) else 0)
      && Pack(flags[8 * q..n + 1], 128) < 256
  {
    var n := 8 * q + r;
    assert flags[8 * q..n + 1] == flags[8 * q..n] + [flags[n]];
    PackSnoc(flags[8 * q..n], flags[n], 128);
    FactorOf(r);
    EightHold(r + 1);
    PackBound(flags[8 * q..n + 1], 128);
  }

  lemma GroupCloses(flags: seq<bool>, q: nat)
    requires 8 * q + 8 <= |flags|
    ensures GroupBytes(flags, q + 1) == GroupBytes(flags, q) + [PackByte(flags[8 * q..8 * q + 8])]
  {
  }

  lemma WritingStep(flags: seq<bool>, n: nat, states: seq<byte>, enableStates: nat, factor: nat, sum: nat)
    requires n < |flags| && WritingAt(flags, n, states, enableStates, factor)
    requires sum == enableStates + if flags[n] then factor else 0
    ensures sum < 256
    ensures n % 8 == 7 ==> WritingAt(flags, n + 1, states + [sum], 0, 128)
    ensures n % 8 != 7 ==> WritingAt(flags, n + 1, states, sum, factor / 2)
  {
    hide Pack, GroupBytes, PackByte;
    var q, r := n / 8, n % 8;
    OneMoreState(flags, q, r);
    if r == 7 {
      assert (n + 1) / 8 == q + 1 && (n + 1) % 8 == 0;
      GroupCloses(flags, q);
      PackByteIs(flags[8 * q..8 * q + 8]);
      assert flags[8 * (q + 1)..n + 1] == [];
      PackNothing(128);
    } else {
      assert (n + 1) / 8 == q && (n + 1) % 8 == r + 1;
    }
  }

  lemma PackNothing(factor: nat)
    ensures Pack([], factor) == 0
  {
  }

  lemma PackByteIs(flags: seq<bool>)
    requires |flags| <= 8
    ensures PackByte(flags) == Pack(flags, 128)
  {
  }

  lemma WritingEnds(flags: seq<bool>, states: seq<byte>, enableStates: nat, factor: nat)
    requires WritingAt(flags, |flags|, states, enableStates, factor)
    ensures enableStates < 256
    ensures WrittenStates(flags) == states + if |flags| % 8 != 7 then [enableStates] else []
  {
    hide Pack, GroupBytes;
    var last := flags[8 * (|flags| / 8)..];
    assert Group(flags, |flags| / 8) == last;
    assert flags[8 * (|flags| / 8)..|flags|] == last;
    PackNothing(128);
    PackByteIs(last);
  }

  method WriteStates(wot: RustyWebOfTrust) returns (states: seq<byte>)
    ensures states == WrittenStates(Flags(wot.nodes))
  {
    var count := |wot.nodes|;
    ghost var flags := Flags(wot.nodes);
    states := [];
    var enableStates: nat := 0;
    var factor: nat := 128;
    assert |flags| == count && forall n :: 0 <= n < count ==> flags[n] == wot.nodes[n].enabled;
    WritingStarts(flags);
    hide *;
    for n := 0 to count
      invariant WritingAt(flags, n, states, enableStates, factor)
    {
      ghost var before := enableStates;
      if wot.nodes[n].enabled {
        enableStates := enableStates + factor;
      }
      WritingStep(flags, n, states, before, factor, enableStates);
      if n % 8 == 7 {
        factor := 128;
        states := states + [enableStates];
        enableStates := 0;
      } else {
        factor := factor / 2;
      }
    }
    WritingEnds(flags, states, enableStates, factor);
    if count % 8 != 7 {
      states := states + [enableStates];
    } else {
      assert states + [] == states;
    }
  }

  lemma WritingStarts(flags: seq<bool>)
    ensures WritingAt(flags, 0, [], 0, 128)
  {
  }

  /** The j-th factor is what halving 128 j times leaves. */
  function Halved(factor: nat, j: nat): nat {
    if j == 0 then factor else Halved(factor / 2, j - 1)
  }

  lemma {:induction false} HalvedOnce(factor: nat, j: nat)
    ensures Halved(factor, j) / 2 == Halved(factor, j + 1)
    decreases j
  {
    if j > 0 {
      HalvedOnce(factor / 2, j - 1);
    }
  }

  lemma {:induction false} FactorOf(j: nat)
    ensures Factor(j) == Halved(128, j)
  {
    if j > 0 {
      FactorOf(j - 1);
      HalvedOnce(128, j - 1);
    }
  }

  lemma {:induction false} PackSnoc(flags: seq<bool>, flag: bool, factor: nat)
    ensures Pack(flags + [flag], factor) == Pack(flags, factor) + if flag then Halved(factor, |flags|) else 0
  {
    if flags == [] {
      assert [flag][1..] == [];
    } else {
      assert (flags + [flag])[1..] == flags[1..] + [flag];
      PackSnoc(flags[1..], flag, factor / 2);
    }
  }

  /** The id fits the 24 bits it is written in, once cast to 32. */
  predicate Writable(source: nat) {
    source % 0x1_0000_0000 < 0x100_0000
  }

  ghost predicate AllWritable(nodes: seq<Node>) {
    forall t, source :: 0 <= t < |nodes| && source in nodes[t].linksSource ==> Writable(source)
  }

  method WriteNode(buffer: seq<byte>, sources: seq<nat>) returns (ok: bool, bytes: seq<byte>)
    ensures ok <==> forall source :: source in sources ==> Writable(source)
    ensures ok ==> bytes == buffer + NodeBytes(sources)
  {
    bytes := buffer + [Low(|sources|)];
    for i := 0 to |sources|
      invariant forall j :: 0 <= j < i ==> Writable(sources[j])
      invariant bytes == buffer + ([Low(|sources|)] + SourceBytes(sources[..i]))
    {
      if !Writable(sources[i]) {
        return false, bytes;
      }
      assert sources[..i + 1][..i] == sources[..i];
      bytes := bytes + Be24(sources[i]);
    }
    assert sources[..|sources|] == sources;
    ok := true;
  }

  /** `ok` is false where an id too large crashes the writer. */
  method WriteLinks(wot: RustyWebOfTrust) returns (ok: bool, bytes: seq<byte>, ghost orders: seq<seq<nat>>)
    ensures ok <==> AllWritable(wot.nodes)
    ensures ok ==> Orders(wot.nodes, orders) && bytes == LinkBytes(orders)
  {
    bytes := [];
    orders := [];
    for n := 0 to |wot.nodes|
      invariant |orders| == n
      invariant forall t: nat :: t < n ==> OrderOf(wot.nodes[t], orders[t])
      invariant AllWritable(wot.nodes[..n])
      invariant bytes == LinkBytes(orders)
    {
      var found := wot.GetLinksSource(n);
      var sources := found.value;
      ok, bytes := WriteNode(bytes, sources);
      assert forall source :: source in sources <==> source in Elems(sources);
      if !ok {
        return;
      }
      assert (orders + [sources])[..|orders|] == orders;
      orders := orders + [sources];
    }
    ok := true;
  }

  /** The writer, up to the bytes handed to the file system. */
  method ToFile(wot: RustyWebOfTrust, data: seq<byte>)
    returns (ok: bool, buffer: seq<byte>, ghost orders: seq<seq<nat>>)
    requires |wot.nodes| < 0x1_0000_0000
    ensures ok <==> AllWritable(wot.nodes)
    ensures ok ==> Orders(wot.nodes, orders) && buffer == Encoding(wot.nodes, orders, data)
  {
    buffer := Be32(|data|);
    buffer := buffer + data;
    buffer := buffer + Be32(|wot.nodes|);
    var states := WriteStates(wot);
    buffer := buffer + states;
    var links;
    ok, links, orders := WriteLinks(wot);
    if ok {
      buffer := buffer + links;
    }
  }

  // ---- the reader ----

  /** The reader's graph after i bytes of states. */
  ghost predicate LoadingAt(states: seq<byte>, count: nat, i: nat, remaining: nat, flags: seq<bool>)
    requires i <= |states|
  {
    remaining == count - |flags| && ReadStates(states, count) == flags + ReadStates(states[i..], remaining)
  }

  lemma LoadingStep(states: seq<byte>, count: nat, i: nat, remaining: nat, flags: seq<bool>, more: seq<bool>)
    requires i < |states| && LoadingAt(states, count, i, remaining, flags)
    requires more == Unpack(states[i], 128, if remaining < 8 then remaining else 8)
    ensures LoadingAt(states, count, i + 1, remaining - |more|, flags + more)
  {
    hide Unpack;
    var rest := states[i..];
    assert rest[0] == states[i] && rest[1..] == states[i + 1..];
    if remaining > 0 {
      assert ReadStates(rest, remaining) == more + ReadStates(rest[1..], remaining - |more|);
      Associate(flags, more, ReadStates(rest[1..], remaining - |more|));
    } else {
      assert flags + more == flags;
    }
  }

  method LoadStates(states: seq<byte>, count: nat, maxLinks: nat) returns (wot: RustyWebOfTrust)
    ensures fresh(wot)
    ensures wot.Value() == Web(FreshNodes(ReadStates(states, count)), maxLinks)
  {
    wot := new RustyWebOfTrust(maxLinks);
    var remaining: nat := count;
    ghost var flags: seq<bool> := [];
    assert states[0..] == states;
    for i := 0 to |states|
      invariant fresh(wot) && wot.maxLinks == maxLinks
      invariant LoadingAt(states, count, i, remaining, flags)
      invariant wot.nodes == FreshNodes(flags)
    {
      ghost var more;
      LoadingStep(states, count, i, remaining, flags, Unpack(states[i], 128, if remaining < 8 then remaining else 8));
      remaining, more := LoadByte(wot, states[i], count, remaining, flags);
      flags := flags + more;
    }
    assert states[|states|..] == [];
    assert flags == flags + [];
  }

  /** The reader's variables after i places of a byte. */
  ghost predicate UnpackingAt(packed: nat, m: nat, left: nat, factor: nat, done: seq<bool>) {
    |done| <= m && Unpack(packed, 128, m) == done + Unpack(left, factor, m - |done|)
  }

  lemma UnpackingStep(packed: nat, m: nat, left: nat, factor: nat, done: seq<bool>)
    requires UnpackingAt(packed, m, left, factor, done) && |done| < m
    ensures if left >= factor then UnpackingAt(packed, m, left - factor, factor / 2, done + [true])
            else UnpackingAt(packed, m, left, factor / 2, done + [false])
  {
    var flag, rest := left >= factor, if left >= factor then left - factor else left;
    assert Unpack(left, factor, m - |done|) == [flag] + Unpack(rest, factor / 2, m - |done| - 1);
    Associate(done, [flag], Unpack(rest, factor / 2, m - |done| - 1));
  }

  lemma FreshSnoc(flags: seq<bool>, flag: bool)
    ensures FreshNodes(flags + [flag]) == FreshNodes(flags) + [Node(flag, {}, 0)]
  {
  }

  /** Up to eight nodes from one byte, while there are nodes left to read. */
  method LoadByte(wot: RustyWebOfTrust, packed: byte, count: nat, remaining0: nat, ghost before: seq<bool>)
    returns (remaining: nat, ghost more: seq<bool>)
    requires remaining0 <= count && |before| == count - remaining0
    requires wot.nodes == FreshNodes(before)
    modifies wot
    ensures wot.maxLinks == old(wot.maxLinks)
    ensures more == Unpack(packed, 128, if remaining0 < 8 then remaining0 else 8)
    ensures remaining == remaining0 - |more|
    ensures wot.nodes == FreshNodes(before + more)
  {
    hide Unpack;
    remaining := remaining0;
    var left: nat := packed;
    var factor: nat := 128;
    ghost var m := if remaining0 < 8 then remaining0 else 8;
    more := [];
    assert before + more == before;
    assert more + Unpack(left, factor, m) == Unpack(left, factor, m);
    for i := 0 to 8
      invariant wot.maxLinks == old(wot.maxLinks)
      invariant |more| == (if i < m then i else m) && remaining == remaining0 - |more|
      invariant wot.nodes == FreshNodes(before + more)
      invariant |more| < m ==> UnpackingAt(packed, m, left, factor, more)
      invariant |more| == m ==> more == Unpack(packed, 128, m)
    {
      if remaining > 0 {
        if |more| < m {
          UnpackingStep(packed, m, left, factor, more);
        }
        FreshSnoc(before + more, true);
        FreshSnoc(before + more, false);
        Associate(before, more, [left >= factor]);
        var id := wot.AddNode();
        if left >= factor {
          left := left - factor;
          more := more + [true];
        } else {
          var state := wot.SetEnabled(count - remaining, false);
          more := more + [false];
        }
        remaining := remaining - 1;
        if |more| == m {
          FullyUnpacked(packed, m, left, factor / 2, more);
        }
      }
      factor := factor / 2;
    }
  }

  lemma FullyUnpacked(packed: nat, m: nat, left: nat, factor: nat, done: seq<bool>)
    requires UnpackingAt(packed, m, left, factor, done) && |done| == m
    ensures done == Unpack(packed, 128, m)
  {
  }

  method LoadLinks(wot: RustyWebOfTrust, bytes: seq<byte>) returns (complete: bool)
    modifies wot
    ensures var end := ConsumeAll(Cursor(old(wot.Value()), 0, 0, [], 0), bytes);
      wot.Value() == end.web && (complete <==> end.count % 3 == 0)
  {
    var buffer: seq<byte> := [];
    var countBytes := 0;
    var remaining: nat := 0;
    var target := 0;
    ghost var start := Cursor(wot.Value(), 0, 0, [], 0);
    for i := 0 to |bytes|
      invariant ConsumeAll(start, bytes[..i]) == Cursor(wot.Value(), target, remaining, buffer, countBytes)
    {
      assert bytes[..i + 1][..i] == bytes[..i];
      var b := bytes[i];
      if remaining == 0 {
        target := target + 1;
        remaining := b;
        countBytes := 0;
      } else {
        buffer := buffer + [b];
        if countBytes % 3 == 2 {
          var source := FromBe24(buffer);
          var added := wot.AddLink(source, target - 1);
          remaining := remaining - 1;
          buffer := [];
        }
        countBytes := countBytes + 1;
      }
    }
    assert bytes[..|bytes|] == bytes;
    complete := countBytes % 3 == 0;
  }

  /** The reader, from the bytes of the file; `ok` is false where the program crashes. */
  method FromFile(bytes: seq<byte>, maxLinks: nat) returns (ok: bool, wot: RustyWebOfTrust, data: seq<byte>)
    ensures fresh(wot)
    ensures ok <==> Decoded(bytes, maxLinks).Read?
    ensures ok ==> Decoded(bytes, maxLinks) == Read(wot.Value(), data)
  {
    wot := new RustyWebOfTrust(maxLinks);
    data := [];
    if |bytes| < 4 {
      return false, wot, [];
    }
    var rest := bytes[4..];
    var size := FromBe32(bytes[..4]);
    if |rest| < size {
      return false, wot, [];
    }
    data := rest[..size];
    rest := rest[size..];
    if |rest| < 4 {
      return false, wot, [];
    }
    var count := FromBe32(rest[..4]);
    assert rest[..4] == bytes[4 + size..8 + size];
    rest := rest[4..];
    assert rest == bytes[8 + size..];
    var statesSize := ExpectedStates(count);
    if |rest| < statesSize {
      return false, wot, [];
    }
    // The comparison of the bytes accounted for with the file size cannot fail.
    assert |rest[statesSize..]| + statesSize + 4 + size + 4 == |bytes|;
    wot := LoadStates(rest[..statesSize], count, maxLinks);
    ok := LoadLinks(wot, rest[statesSize..]);
  }
}
