/**
  What the reader makes of any bytes whatever: header, states bit by bit, links record by record, and
  exactly when it crashes.
 */
module WotFileReader {
  import opened Sequences
  import opened Sums
  import opened Wot
  import opened WotFile
  import opened WotFileRoundTrip

  // ---- numbers ----

  /** Big-endian: the first byte weighs most. */
  lemma BigEndian(a: byte, b: byte, c: byte, d: byte)
    ensures FromBe32([a, b, c, d]) == a as nat * 16777216 + b as nat * 65536 + c as nat * 256 + d as nat
    ensures Be32(FromBe32([a, b, c, d])) == [a, b, c, d]
  {
    var top, upper := a as nat * 256 + b as nat, a as nat * 65536 + b as nat * 256 + c as nat;
    LowOf(upper, d, FromBe32([a, b, c, d]));
    LowOf(top, c, upper);
    LowOf(a, b, top);
    assert FromBe32([a, b, c, d]) / 0x1_0000 == top;
    assert FromBe32([a, b, c, d]) / 0x100_0000 == a;
  }

  lemma BigEndianId(b: byte, c: byte, d: byte)
    ensures FromBe24([b, c, d]) == b as nat * 65536 + c as nat * 256 + d as nat
    ensures Be24(FromBe24([b, c, d])) == [b, c, d]
  {
    LowOf(b as nat * 256 + c as nat, d, FromBe24([b, c, d]));
    LowOf(b, c, b as nat * 256 + c as nat);
    assert FromBe24([b, c, d]) / 0x1_0000 == b;
  }

  // ---- states ----

  function Value(flag: bool, weight: nat): nat {
    if flag then weight else 0
  }

  /** The binary digits of a byte, the heaviest first. */
  predicate BitsOf(packed: byte, bits: seq<bool>) {
    && |bits| == 8
    && packed == Value(bits[0], 128) + Value(bits[1], 64) + Value(bits[2], 32) + Value(bits[3], 16) +
                 Value(bits[4], 8) + Value(bits[5], 4) + Value(bits[6], 2) + Value(bits[7], 1)
  }

  lemma {:induction false} UnpackPrefix(packed: nat, factor: nat, m: nat, n: nat)
    requires m <= n
    ensures Unpack(packed, factor, m) == Unpack(packed, factor, n)[..m]
    decreases m
  {
    if m > 0 {
      var rest := if packed >= factor then packed - factor else packed;
      UnpackPrefix(rest, factor / 2, m - 1, n - 1);
    }
  }

  /** Packing inverts greedy reading, when there are as many states as the factor has places. */
  lemma {:induction false} PackUnpack(packed: nat, factor: nat, m: nat)
    requires 0 < m <= 8 && Factor(8 - m) == factor && packed < 2 * factor
    ensures Pack(Unpack(packed, factor, m), factor) == packed
    decreases m
  {
    var rest := if packed >= factor then packed - factor else packed;
    LastFactor();
    if m > 1 {
      Halves(8 - m);
      PackUnpack(rest, factor / 2, m - 1);
    } else {
      assert Unpack(rest, factor / 2, 0) == [] && Pack([], factor / 2) == 0;
    }
    assert Unpack(packed, factor, m)[1..] == Unpack(rest, factor / 2, m - 1);
  }

  /** From 128 down, the factors halve evenly until 1. */
  lemma Halves(j: nat)
    requires j < 7
    ensures Factor(j) == 2 * Factor(j + 1)
  {
    LastFactor();
  }

  lemma LastFactor()
    ensures Factor(0) == 128 && Factor(1) == 64 && Factor(2) == 32 && Factor(3) == 16
    ensures Factor(4) == 8 && Factor(5) == 4 && Factor(6) == 2 && Factor(7) == 1
  {
    assert Factor(2) == 32;
    assert Factor(4) == 8;
    assert Factor(6) == 2;
  }

  lemma PackCons(flags: seq<bool>, factor: nat)
    requires flags != []
    ensures Pack(flags, factor) == Value(flags[0], factor) + Pack(flags[1..], factor / 2)
  {
  }

  lemma PackIsValue(bits: seq<bool>)
    requires |bits| == 8
    ensures Pack(bits, 128) ==
            Value(bits[0], 128) + Value(bits[1], 64) + Value(bits[2], 32) + Value(bits[3], 16) +
            Value(bits[4], 8) + Value(bits[5], 4) + Value(bits[6], 2) + Value(bits[7], 1)
  {
    hide Pack, Value;
    PackCons(bits, 128);
    PackCons(bits[1..], 64);
    PackCons(bits[1..][1..], 32);
    PackCons(bits[1..][1..][1..], 16);
    var low := bits[4..];
    assert bits[1..][1..][1..][1..] == low;
    PackCons(low, 8);
    PackCons(low[1..], 4);
    PackCons(low[1..][1..], 2);
    PackCons(low[1..][1..][1..], 1);
    assert low[1..][1..][1..][1..] == [];
    PackNothing(0);
  }

  /** Greedy reading of eight states finds the binary digits. */
  lemma UnpackBits(packed: byte)
    ensures BitsOf(packed, Unpack(packed, 128, 8))
  {
    hide Unpack, Pack, Value;
    LastFactor();
    PackUnpack(packed, 128, 8);
    PackIsValue(Unpack(packed, 128, 8));
  }

  /** The i-th state is a digit of byte i / 8. */
  lemma {:induction false} StateAt(states: seq<byte>, count: nat, i: nat)
    requires i < count && i < 8 * |states|
    ensures ReadStates(states, count)[i] == Unpack(states[i / 8], 128, 8)[i % 8]
    decreases states
  {
    hide Unpack;
    var m := if count < 8 then count else 8;
    if i < 8 {
      UnpackPrefix(states[0], 128, m, 8);
    } else {
      StateAt(states[1..], count - 8, i - 8);
      assert (i - 8) / 8 == i / 8 - 1 && (i - 8) % 8 == i % 8;
    }
  }

  // ---- links ----

  /** Three bytes each. */
  function Ids(bytes: seq<byte>): seq<nat> {
    seq(|bytes| / 3, i requires 0 <= i < |bytes| / 3 =>
      bytes[3 * i] as nat * 65536 + bytes[3 * i + 1] as nat * 256 + bytes[3 * i + 2] as nat)
  }

  /** How many ids of a record are there in full: as many as its first byte says, unless the bytes end. */
  function Complete(bytes: seq<byte>): (n: nat)
    requires bytes != []
    ensures n <= bytes[0] && 1 + 3 * n <= |bytes|
  {
    if 3 * bytes[0] as nat <= |bytes| - 1 then bytes[0] else (|bytes| - 1) / 3
  }

  /** Record by record: the node after the last one is certified by the nodes of the record. */
  function ReadLinks(w: Web, target: nat, bytes: seq<byte>): Web
    decreases |bytes|
  {
    if bytes == [] then w
    else
      var n := Complete(bytes);
      var more := AddAll(w, Ids(bytes[1..1 + 3 * n]), target);
      if n == bytes[0] then ReadLinks(more, target + 1, bytes[1 + 3 * n..]) else more
  }

  /** The bytes end inside an id. */
  predicate CutShort(bytes: seq<byte>)
    decreases |bytes|
  {
    bytes != [] &&
    if Complete(bytes) == bytes[0] then CutShort(bytes[1 + 3 * Complete(bytes)..]) else (|bytes| - 1) % 3 != 0
  }

  lemma IdsSnoc(bytes: seq<byte>, a: byte, b: byte, c: byte)
    requires |bytes| % 3 == 0
    ensures Ids(bytes + [a, b, c]) == Ids(bytes) + [FromBe24([a, b, c])]
  {
    BigEndianId(a, b, c);
    var all := bytes + [a, b, c];
    assert |all| / 3 == |bytes| / 3 + 1;
    assert forall i :: 0 <= i < |bytes| ==> all[i] == bytes[i];
  }

  /** Reading ids inverts writing them. */
  lemma {:induction false} SourceBytesOfIds(bytes: seq<byte>)
    requires |bytes| % 3 == 0
    ensures SourceBytes(Ids(bytes)) == bytes && Small(Ids(bytes)) && |Ids(bytes)| == |bytes| / 3
    decreases |bytes|
  {
    if bytes != [] {
      hide Ids, Be24, FromBe24;
      var n := |bytes| - 3;
      var front, a, b, c := bytes[..n], bytes[n], bytes[n + 1], bytes[n + 2];
      assert bytes == front + [a, b, c];
      SourceBytesOfIds(front);
      IdsSnoc(front, a, b, c);
      BigEndianId(a, b, c);
      IdBounded(a, b, c);
    }
  }

  lemma IdBounded(a: byte, b: byte, c: byte)
    ensures FromBe24([a, b, c]) < 0x100_0000
  {
  }

  /** Fewer bytes than an id has change nothing but how many were read. */
  lemma Leftover(c: Cursor, bytes: seq<byte>)
    requires Consistent(c) && c.remaining > 0 && c.count % 3 == 0 && |bytes| < 3
    ensures ConsumeAll(c, bytes).web == c.web && ConsumeAll(c, bytes).count == c.count + |bytes|
  {
    if |bytes| == 1 {
      assert bytes == [bytes[0]];
      ConsumeOne(c, bytes[0]);
    } else if |bytes| == 2 {
      assert bytes == [bytes[0]] + [bytes[1]];
      ConsumeConcat(c, [bytes[0]], [bytes[1]]);
      ConsumeOne(c, bytes[0]);
      ConsumeOne(Consume(c, bytes[0]), bytes[1]);
    }
  }

  /** The ids of a record that are there in full. */
  lemma RecordStarts(c: Cursor, bytes: seq<byte>)
    requires Consistent(c) && c.remaining == 0 && bytes != []
    ensures Complete(bytes) <= bytes[0]
    ensures var n := Complete(bytes); var end := ConsumeAll(c, bytes[..1 + 3 * n]);
      end == Cursor(AddAll(c.web, Ids(bytes[1..1 + 3 * n]), c.target), c.target + 1, bytes[0] - n, [], 3 * n)
  {
    hide ConsumeAll, Ids, AddAll, SourceBytes;
    var n := Complete(bytes);
    var ids := bytes[1..1 + 3 * n];
    assert bytes[..1 + 3 * n] == [bytes[0]] + ids;
    ConsumeConcat(c, [bytes[0]], ids);
    ConsumeOne(c, bytes[0]);
    SourceBytesOfIds(ids);
    ConsumeSources(Consume(c, bytes[0]), Ids(ids));
    AddNone(c.web, c.target);
  }

  /** The rest of the bytes is read from where the record leaves the machine. */
  lemma Continues(c: Cursor, bytes: seq<byte>) returns (next: Cursor)
    requires Consistent(c) && c.remaining == 0 && bytes != []
    ensures Complete(bytes) <= bytes[0]
    ensures Consistent(next) && next.count % 3 == 0 && next.remaining == bytes[0] - Complete(bytes)
    ensures next.target == c.target + 1
    ensures next.web == AddAll(c.web, Ids(bytes[1..1 + 3 * Complete(bytes)]), c.target)
    ensures ConsumeAll(c, bytes) == ConsumeAll(next, bytes[1 + 3 * Complete(bytes)..])
  {
    hide Consume, Ids, AddAll;
    var n := Complete(bytes);
    var record, rest := bytes[..1 + 3 * n], bytes[1 + 3 * n..];
    assert bytes == record + rest;
    RecordStarts(c, bytes);
    ConsumeConcat(c, record, rest);
    next := ConsumeAll(c, record);
  }

  lemma OneRecord(w: Web, target: nat, bytes: seq<byte>)
    requires bytes != []
    ensures var n := Complete(bytes); var more := AddAll(w, Ids(bytes[1..1 + 3 * n]), target);
      if n == bytes[0] then
        && ReadLinks(w, target, bytes) == ReadLinks(more, target + 1, bytes[1 + 3 * n..])
        && (CutShort(bytes) <==> CutShort(bytes[1 + 3 * n..]))
      else
        && ReadLinks(w, target, bytes) == more
        && (CutShort(bytes) <==> |bytes| - (1 + 3 * n) != 0) && |bytes| - (1 + 3 * n) < 3
  {
    hide Ids, AddAll;
  }

  /** The machine that takes byte by byte reads record by record, and stops inside an id exactly if the
      bytes do. */
  lemma {:induction false} LinksRead(c: Cursor, bytes: seq<byte>)
    requires Consistent(c) && c.remaining == 0
    ensures var end := ConsumeAll(c, bytes);
      end.web == ReadLinks(c.web, c.target, bytes) && (end.count % 3 != 0 <==> CutShort(bytes))
    decreases |bytes|
  {
    if bytes == [] {
    } else {
      hide ConsumeAll, Ids, AddAll, Complete, ReadLinks, CutShort, Consistent;
      var rest := bytes[1 + 3 * Complete(bytes)..];
      var next := Continues(c, bytes);
      OneRecord(c.web, c.target, bytes);
      if Complete(bytes) == bytes[0] {
        LinksRead(next, rest);
      } else {
        Leftover(next, rest);
      }
    }
  }

  // ---- the file ----

  function Number(bytes: seq<byte>, i: nat): nat
    requires i + 4 <= |bytes|
  {
    bytes[i] as nat * 16777216 + bytes[i + 1] as nat * 65536 + bytes[i + 2] as nat * 256 + bytes[i + 3] as nat
  }

  lemma NumberIs(bytes: seq<byte>, i: nat)
    requires i + 4 <= |bytes|
    ensures FromBe32(bytes[i..i + 4]) == Number(bytes, i)
  {
    var s := bytes[i..i + 4];
    assert s == [bytes[i], bytes[i + 1], bytes[i + 2], bytes[i + 3]];
    BigEndian(s[0], s[1], s[2], s[3]);
  }

  /** Where the parts of a file are: the length of the blockstamp, the blockstamp, the number of nodes, one
      byte of states for eight nodes or fewer, and links. */
  predicate HasParts(bytes: seq<byte>, size: nat, count: nat, links: nat) {
    && 4 <= |bytes| && size == Number(bytes, 0)
    && 8 + size <= |bytes| && count == Number(bytes, 4 + size)
    && links == 8 + size + (count + 7) / 8
    && links <= |bytes|
  }

  /** Every part is there, and the links do not end inside an id. */
  ghost predicate Readable(bytes: seq<byte>) {
    exists size: nat, count: nat, links: nat :: HasParts(bytes, size, count, links) && !CutShort(bytes[links..])
  }

  /** The parts that reading any bytes finds. */
  lemma DecodedParts(bytes: seq<byte>, maxLinks: nat, size: nat, count: nat, links: nat)
    requires HasParts(bytes, size, count, links)
    ensures var flags := ReadStates(bytes[8 + size..links], count);
      Decoded(bytes, maxLinks) ==
      if CutShort(bytes[links..]) then Crash
      else Read(ReadLinks(Web(FreshNodes(flags), maxLinks), 0, bytes[links..]), bytes[4..4 + size])
  {
    hide ConsumeAll, ReadLinks, CutShort, ReadStates, Number, FromBe32;
    NumberIs(bytes, 0);
    NumberIs(bytes, 4 + size);
    assert bytes[..4] == bytes[0..4];
    assert ExpectedStates(count) == (count + 7) / 8;
    var body, n := bytes[8 + size..], ExpectedStates(count);
    assert body[..n] == bytes[8 + size..links] && body[n..] == bytes[links..];
    LinksRead(Cursor(Web(FreshNodes(ReadStates(body[..n], count)), maxLinks), 0, 0, [], 0), body[n..]);
  }

  /** The reader crashes on exactly those bytes in which a part is missing or the last id is cut short. */
  lemma ReadableIff(bytes: seq<byte>, maxLinks: nat)
    ensures Decoded(bytes, maxLinks).Read? <==> Readable(bytes)
  {
    hide ConsumeAll, ReadLinks, CutShort, ReadStates, Number, FromBe32;
    if size: nat, count: nat, links: nat :| HasParts(bytes, size, count, links) && !CutShort(bytes[links..]) {
      DecodedParts(bytes, maxLinks, size, count, links);
    }
    if Decoded(bytes, maxLinks).Read? {
      var size := FromBe32(bytes[..4]);
      assert bytes[..4] == bytes[0..4];
      NumberIs(bytes, 0);
      NumberIs(bytes, 4 + size);
      var count := FromBe32(bytes[4 + size..8 + size]);
      var links := 8 + size + ExpectedStates(count);
      assert HasParts(bytes, size, count, links);
      DecodedParts(bytes, maxLinks, size, count, links);
    }
  }

  /** What is read: the blockstamp, one node per state with its bit, and the links of the records. */
  lemma FileMeans(bytes: seq<byte>, maxLinks: nat, size: nat, count: nat, links: nat)
    requires HasParts(bytes, size, count, links) && !CutShort(bytes[links..])
    ensures var r := Decoded(bytes, maxLinks);
      && r.Read? && r.data == bytes[4..4 + size]
      && exists start: Web ::
           r.web == ReadLinks(start, 0, bytes[links..]) && StartsAs(start, bytes, size, count, maxLinks)
  {
    hide ReadLinks, CutShort, ReadStates, Number, Decoded;
    DecodedParts(bytes, maxLinks, size, count, links);
    var flags := ReadStates(bytes[8 + size..links], count);
    StatesAre(bytes, maxLinks, size, count, links);
    assert StartsAs(Web(FreshNodes(flags), maxLinks), bytes, size, count, maxLinks);
  }

  /** The graph before the links are read: no links, and every state a digit of its byte. */
  ghost predicate StartsAs(w: Web, bytes: seq<byte>, size: nat, count: nat, maxLinks: nat) {
    && w.maxLinks == maxLinks && |w.nodes| == count && 8 + size + (count + 7) / 8 <= |bytes|
    && forall i: nat :: i < count ==> StateOf(w.nodes[i], bytes[8 + size + i / 8], i % 8)
  }

  ghost predicate StateOf(node: Node, packed: byte, j: nat)
    requires j < 8
  {
    exists bits :: BitsOf(packed, bits) && node == Node(bits[j], {}, 0)
  }

  lemma StatesAre(bytes: seq<byte>, maxLinks: nat, size: nat, count: nat, links: nat)
    requires HasParts(bytes, size, count, links)
    ensures StartsAs(Web(FreshNodes(ReadStates(bytes[8 + size..links], count)), maxLinks), bytes, size, count, maxLinks)
  {
    hide Number, Unpack, ReadStates, BitsOf;
    var states := bytes[8 + size..links];
    var nodes := FreshNodes(ReadStates(states, count));
    forall i: nat | i < count ensures StateOf(nodes[i], bytes[8 + size + i / 8], i % 8) {
      StateAt(states, count, i);
      assert states[i / 8] == bytes[8 + size + i / 8];
      UnpackBits(states[i / 8]);
    }
  }

  // ---- what can be written ----

  /** An id can be written if and only if its three bytes give it back, once it is cut to 32 bits. */
  lemma WritableIff(source: nat)
    ensures Writable(source) <==> FromBe24(Be24(source)) == source % 0x1_0000_0000
  {
    hide Low, Be24, FromBe24;
    Split(source / 0x100_0000, source % 0x100_0000, source);
    LowThree(source);
    CutTo24(source);
  }

  lemma CutTo24(n: nat)
    ensures n % 0x1_0000_0000 < 0x100_0000 <==> n % 0x100_0000 == n % 0x1_0000_0000
  {
  }

  lemma LowThree(n: nat)
    ensures FromBe24(Be24(n)) == Low(n / 0x1_0000) as nat * 0x1_0000 + Low(n / 0x100) as nat * 0x100 + Low(n) as nat
  {
  }

  // ---- the size of a file ----

  ghost function InDegree(g: seq<Node>, t: nat): nat {
    if t < |g| then |g[t].linksSource| else 0
  }

  lemma {:induction false} SourceBytesSize(sources: seq<nat>)
    ensures |SourceBytes(sources)| == 3 * |sources|
    decreases sources
  {
    if sources != [] {
      SourceBytesSize(sources[..|sources| - 1]);
    }
  }

  lemma {:induction false} LinkBytesSize(g: seq<Node>, orders: seq<seq<nat>>, n: nat)
    requires Orders(g, orders) && n <= |g|
    ensures |LinkBytes(orders[..n])| == n + 3 * SumNat(n, (t: nat) => InDegree(g, t))
    decreases n
  {
    if n > 0 {
      hide SourceBytes;
      LinkBytesSize(g, orders, n - 1);
      assert orders[..n][..n - 1] == orders[..n - 1];
      SourceBytesSize(orders[n - 1]);
      assert OrderOf(g[n - 1], orders[n - 1]);
      NoDupCardinality(orders[n - 1]);
    }
  }

  /** The file holds nothing else: two numbers, the blockstamp, the states, one byte for every node and three
      for every link. */
  lemma FileSize(g: seq<Node>, orders: seq<seq<nat>>, data: seq<byte>)
    requires Orders(g, orders)
    ensures |Encoding(g, orders, data)| ==
            8 + |data| + |g| / 8 + (if |g| % 8 != 7 then 1 else 0) +
            |g| + 3 * SumNat(|g|, (t: nat) => InDegree(g, t))
  {
    hide LinkBytes, SumNat;
    LinkBytesSize(g, orders, |g|);
    assert orders[..|g|] == orders;
  }
}
