/**
  The cache of network heads: for every node, the best head received from it so far.  All heads are of
  version 2, the only one the source supports.
 */
module Heads {
  import opened Wrappers

  datatype NodeFullId = NodeFullId(uuid: nat, pubkey: string)

  /** `content` stands for all that does not matter here: hash, software, signatures, uid. */
  datatype Head = Head(issuer: NodeFullId, number: nat, step: nat, content: nat)

  function VersionOf(head: Head): nat {
    2
  }

  type Cache = map<NodeFullId, Head>

  /** A later block, or the same block over fewer steps. */
  predicate Better(head: Head, known: Head) {
    || head.number > known.number
    || (head.number == known.number && VersionOf(head) >= VersionOf(known) && head.step < known.step)
  }

  predicate Improves(cache: Cache, head: Head) {
    head.issuer !in cache || Better(head, cache[head.issuer])
  }

  function Applied(cache: Cache, head: Head): Cache {
    if Improves(cache, head) then cache[head.issuer := head] else cache
  }

  function CacheAfter(cache: Cache, heads: seq<Head>): Cache {
    if heads == [] then cache else Applied(CacheAfter(cache, heads[..|heads| - 1]), heads[|heads| - 1])
  }

  /** The heads that made a difference, in order. */
  function Improvements(cache: Cache, heads: seq<Head>): seq<Head> {
    if heads == [] then []
    else
      var front, last := heads[..|heads| - 1], heads[|heads| - 1];
      Improvements(cache, front) + if Improves(CacheAfter(cache, front), last) then [last] else []
  }

  /** Of what arrives, only heads that can be parsed, that are correctly signed and that are not of
      this node itself are looked at. */
  function Admitted(received: seq<Option<Head>>, mine: Option<Head>, verify: Head -> bool): seq<Head> {
    if received == [] then []
    else
      var before, last := Admitted(received[..|received| - 1], mine, verify), received[|received| - 1];
      if last.Some? && verify(last.value) && (mine.None? || last.value.issuer != mine.value.issuer) then
        before + [last.value]
      else before
  }

  class HeadsCache {
    var heads: Cache
    var myHead: Option<Head>

    constructor (myHead: Option<Head>)
      ensures heads == map[] && this.myHead == myHead
    {
      heads, this.myHead := map[], myHead;
    }

    /** A head is applied if and only if that changes the cache. */
    method Apply(head: Head) returns (applied: bool)
      modifies this`heads
      ensures heads == Applied(old(heads), head)
      ensures applied <==> heads != old(heads)
      ensures applied <==> Improves(old(heads), head)
    {
      if head.issuer in heads {
        var known := heads[head.issuer];
        if head.number > known.number ||
           (head.number == known.number && VersionOf(head) >= VersionOf(known) && head.step < known.step) {
          heads := heads[head.issuer := head];
          applied := true;
          assert heads[head.issuer] != known;
        } else {
          applied := false;
        }
      } else {
        heads := heads[head.issuer := head];
        applied := true;
        assert head.issuer in heads;
      }
    }

    method Receive(received: seq<Option<Head>>, verify: Head -> bool) returns (applied: seq<Head>)
      modifies this`heads
      ensures heads == CacheAfter(old(heads), Admitted(received, myHead, verify))
      ensures applied == Improvements(old(heads), Admitted(received, myHead, verify))
    {
      applied := [];
      for i := 0 to |received|
        invariant heads == CacheAfter(old(heads), Admitted(received[..i], myHead, verify))
        invariant applied == Improvements(old(heads), Admitted(received[..i], myHead, verify))
      {
        AdmittedSnoc(received, i, myHead, verify);
        match received[i]
        case Some(head) =>
          if verify(head) && (myHead.None? || head.issuer != myHead.value.issuer) {
            CacheSnoc(old(heads), Admitted(received[..i], myHead, verify), head);
            var done := Apply(head);
            if done {
              applied := applied + [head];
            }
          }
        case None =>
      }
      assert received[..|received|] == received;
    }
  }

  lemma AdmittedSnoc(received: seq<Option<Head>>, i: nat, mine: Option<Head>, verify: Head -> bool)
    requires i < |received|
    ensures var before, r := Admitted(received[..i], mine, verify), received[i];
      Admitted(received[..i + 1], mine, verify) ==
      if r.Some? && verify(r.value) && (mine.None? || r.value.issuer != mine.value.issuer) then
        before + [r.value]
      else before
  {
    assert received[..i + 1][..i] == received[..i];
  }

  lemma CacheSnoc(cache: Cache, heads: seq<Head>, head: Head)
    ensures CacheAfter(cache, heads + [head]) == Applied(CacheAfter(cache, heads), head)
    ensures Improvements(cache, heads + [head]) ==
            Improvements(cache, heads) + if Improves(CacheAfter(cache, heads), head) then [head] else []
  {
  }

  // ---- the entries ----

  /** h is the first head of its node that no other head of that node is better than. */
  ghost predicate FirstBest(heads: seq<Head>, i: int, h: Head) {
    && 0 <= i < |heads| && heads[i] == h
    && (forall j :: 0 <= j < |heads| && heads[j].issuer == h.issuer ==> !Better(heads[j], h))
    && (forall j :: 0 <= j < i && heads[j].issuer == h.issuer ==> Better(h, heads[j]))
  }

  ghost predicate Heard(heads: seq<Head>, id: NodeFullId) {
    exists i :: 0 <= i < |heads| && heads[i].issuer == id
  }

  /** Better is a strict order in which what is not better than the best is not better than a better one. */
  lemma BetterOrder(a: Head, b: Head, c: Head)
    ensures Better(a, b) && Better(b, c) ==> Better(a, c)
    ensures Better(a, c) ==> Better(a, b) || Better(b, c)
    ensures !(Better(a, b) && Better(b, a))
    ensures !Better(a, b) && !Better(b, a) <==> a.number == b.number && a.step == b.step
  {
  }

  ghost predicate EntryFor(heads: seq<Head>, cache: Cache, id: NodeFullId) {
    if Heard(heads, id) then id in cache && cache[id].issuer == id && exists i :: FirstBest(heads, i, cache[id])
    else id !in cache
  }

  lemma HeardSnoc(heads: seq<Head>, head: Head, id: NodeFullId)
    ensures Heard(heads + [head], id) <==> Heard(heads, id) || head.issuer == id
  {
    var all := heads + [head];
    assert all[|heads|] == head;
    if Heard(heads, id) {
      var i :| 0 <= i < |heads| && heads[i].issuer == id;
      assert all[i] == heads[i];
    }
  }

  lemma BestSnoc(heads: seq<Head>, head: Head, i: int, h: Head)
    requires FirstBest(heads, i, h)
    ensures head.issuer != h.issuer || !Better(head, h) ==> FirstBest(heads + [head], i, h)
    ensures head.issuer == h.issuer && Better(head, h) ==> FirstBest(heads + [head], |heads|, head)
  {
  }

  lemma FirstSnoc(heads: seq<Head>, head: Head)
    requires !Heard(heads, head.issuer)
    ensures FirstBest(heads + [head], |heads|, head)
  {
  }

  lemma EntryStep(heads: seq<Head>, cache: Cache, head: Head, id: NodeFullId)
    requires EntryFor(heads, cache, id)
    ensures EntryFor(heads + [head], Applied(cache, head), id)
  {
    hide FirstBest, Better, Heard;
    HeardSnoc(heads, head, id);
    if Heard(heads, id) {
      var i :| FirstBest(heads, i, cache[id]);
      BestSnoc(heads, head, i, cache[id]);
    } else if head.issuer == id {
      FirstSnoc(heads, head);
    }
  }

  /** After any sequence of heads, the cache holds, for each node heard of, the first of its heads that
      no other of its heads is better than, and nothing else. */
  lemma {:induction false} EntryIsFirstBest(heads: seq<Head>, id: NodeFullId)
    ensures EntryFor(heads, CacheAfter(map[], heads), id)
    decreases heads
  {
    if heads == [] {
    } else {
      hide EntryFor, Applied;
      var front, last := heads[..|heads| - 1], heads[|heads| - 1];
      EntryIsFirstBest(front, id);
      EntryStep(front, CacheAfter(map[], front), last, id);
      assert heads == front + [last];
    }
  }

  /** In numbers: the largest block number received for the node, and the smallest step received with it. */
  lemma MaxNumberMinStep(heads: seq<Head>, id: NodeFullId)
    requires Heard(heads, id)
    ensures var cache := CacheAfter(map[], heads);
      && id in cache && cache[id] in heads && cache[id].issuer == id
      && forall i :: 0 <= i < |heads| && heads[i].issuer == id ==>
           heads[i].number <= cache[id].number &&
           (heads[i].number == cache[id].number ==> cache[id].step <= heads[i].step)
  {
    hide Heard, CacheAfter;
    EntryIsFirstBest(heads, id);
    var i :| FirstBest(heads, i, CacheAfter(map[], heads)[id]);
  }

  // ---- the order of arrival ----

  ghost predicate SameHeads(a: seq<Head>, b: seq<Head>) {
    forall h :: h in a <==> h in b
  }

  /** Reordering and repeating heads changes neither who is in the cache nor their number and step. */
  lemma OrderIndependent(a: seq<Head>, b: seq<Head>, id: NodeFullId)
    requires SameHeads(a, b)
    ensures var ca, cb := CacheAfter(map[], a), CacheAfter(map[], b);
      && (id in ca <==> id in cb)
      && (id in ca ==> ca[id].number == cb[id].number && ca[id].step == cb[id].step)
  {
    hide CacheAfter, FirstBest;
    EntryIsFirstBest(a, id);
    EntryIsFirstBest(b, id);
    HeardInBoth(a, b, id);
    if Heard(a, id) {
      var g, h := CacheAfter(map[], a)[id], CacheAfter(map[], b)[id];
      var i :| FirstBest(a, i, g);
      var j :| FirstBest(b, j, h);
      NotBetterThanBest(a, i, g, b, j, h);
      NotBetterThanBest(b, j, h, a, i, g);
      BetterOrder(g, h, g);
    }
  }

  lemma HeardInBoth(a: seq<Head>, b: seq<Head>, id: NodeFullId)
    requires SameHeads(a, b)
    ensures Heard(a, id) <==> Heard(b, id)
  {
    if Heard(a, id) {
      var i :| 0 <= i < |a| && a[i].issuer == id;
      assert a[i] in b;
    }
    if Heard(b, id) {
      var i :| 0 <= i < |b| && b[i].issuer == id;
      assert b[i] in a;
    }
  }

  lemma NotBetterThanBest(a: seq<Head>, i: int, g: Head, b: seq<Head>, j: int, h: Head)
    requires SameHeads(a, b) && FirstBest(a, i, g) && FirstBest(b, j, h) && g.issuer == h.issuer
    ensures !Better(h, g)
  {
    assert b[j] in a;
  }

  ghost predicate IsBest(heads: seq<Head>, h: Head) {
    h in heads && forall i :: 0 <= i < |heads| && heads[i].issuer == h.issuer ==> !Better(heads[i], h)
  }

  /** No node has two best heads that differ in what does not count. */
  ghost predicate NoTies(heads: seq<Head>) {
    forall g, h :: IsBest(heads, g) && IsBest(heads, h) && g.issuer == h.issuer ==> g == h
  }

  lemma EntryIsBest(heads: seq<Head>, id: NodeFullId)
    ensures var cache := CacheAfter(map[], heads);
      (id in cache <==> Heard(heads, id)) && (id in cache ==> cache[id].issuer == id && IsBest(heads, cache[id]))
  {
    hide CacheAfter, FirstBest, Heard, IsBest;
    EntryIsFirstBest(heads, id);
    if Heard(heads, id) {
      var h := CacheAfter(map[], heads)[id];
      var i :| FirstBest(heads, i, h);
      FirstIsBest(heads, i, h);
    }
  }

  lemma FirstIsBest(heads: seq<Head>, i: int, h: Head)
    requires FirstBest(heads, i, h)
    ensures IsBest(heads, h)
  {
  }

  lemma BestInBoth(a: seq<Head>, b: seq<Head>, h: Head)
    requires SameHeads(a, b) && IsBest(a, h)
    ensures IsBest(b, h)
  {
    forall i | 0 <= i < |b| && b[i].issuer == h.issuer ensures !Better(b[i], h) {
      assert b[i] in a;
    }
  }

  lemma SameCache(a: seq<Head>, b: seq<Head>)
    requires SameHeads(a, b) && NoTies(a)
    ensures CacheAfter(map[], a) == CacheAfter(map[], b)
  {
    hide CacheAfter, IsBest, Heard;
    var ca, cb := CacheAfter(map[], a), CacheAfter(map[], b);
    forall id ensures id in ca <==> id in cb {
      EntryIsBest(a, id);
      EntryIsBest(b, id);
      HeardInBoth(a, b, id);
    }
    forall id | id in ca ensures ca[id] == cb[id] {
      EntryIsBest(a, id);
      EntryIsBest(b, id);
      BestInBoth(b, a, cb[id]);
    }
  }

  /** A best head that comes first is kept. */
  lemma FirstBestKept(heads: seq<Head>, h: Head)
    requires IsBest(heads, h)
    ensures SameHeads(heads, [h] + heads)
    ensures h.issuer in CacheAfter(map[], [h] + heads) && CacheAfter(map[], [h] + heads)[h.issuer] == h
  {
    hide CacheAfter, FirstBest, IsBest;
    var all := [h] + heads;
    StillSame(heads, h);
    EntryIsFirstBest(all, h.issuer);
    assert all[0].issuer == h.issuer;
    var kept := CacheAfter(map[], all)[h.issuer];
    var i :| FirstBest(all, i, kept);
    HeadFirst(heads, h, i, kept);
  }

  lemma StillSame(heads: seq<Head>, h: Head)
    requires IsBest(heads, h)
    ensures SameHeads(heads, [h] + heads)
  {
  }

  lemma HeadFirst(heads: seq<Head>, h: Head, i: int, kept: Head)
    requires IsBest(heads, h) && FirstBest([h] + heads, i, kept) && kept.issuer == h.issuer
    ensures kept == h
  {
    var all := [h] + heads;
    assert all[0] == h;
    forall k | 0 < k < |all| && all[k].issuer == h.issuer ensures !Better(all[k], h) {
      assert all[k] == heads[k - 1];
    }
  }

  /** The whole cache, not just numbers and steps, is the same for every order of arrival if and only
      if no two best heads of a node differ. */
  lemma WholeCacheIndependentIff(heads: seq<Head>)
    ensures NoTies(heads) <==>
            forall other :: SameHeads(heads, other) ==> CacheAfter(map[], heads) == CacheAfter(map[], other)
  {
    hide CacheAfter, IsBest;
    if NoTies(heads) {
      forall other | SameHeads(heads, other) ensures CacheAfter(map[], heads) == CacheAfter(map[], other) {
        SameCache(heads, other);
      }
    } else {
      var g, h :| IsBest(heads, g) && IsBest(heads, h) && g.issuer == h.issuer && g != h;
      FirstBestKept(heads, g);
      FirstBestKept(heads, h);
    }
  }

  // ---- what is passed on ----

  /** Whoever applies only the heads that made a difference ends with the same cache. */
  lemma {:induction false} ImprovementsSuffice(cache: Cache, heads: seq<Head>)
    ensures CacheAfter(cache, Improvements(cache, heads)) == CacheAfter(cache, heads)
    ensures Improvements(cache, Improvements(cache, heads)) == Improvements(cache, heads)
    decreases heads
  {
    hide Improves;
    if heads != [] {
      var front, last := heads[..|heads| - 1], heads[|heads| - 1];
      ImprovementsSuffice(cache, front);
      CacheSnoc(cache, Improvements(cache, front), last);
      assert Improvements(cache, front) + [] == Improvements(cache, front);
    }
  }

  /** A head received when others had been: of a later block than the known head, or of the same block
      over fewer steps. */
  ghost predicate Newer(head: Head, known: Head) {
    head.number > known.number || (head.number == known.number && head.step < known.step)
  }

  /** Newer than the entry the cache had for its node, and than every head of its node since. */
  ghost predicate NewerThanAll(cache: Cache, since: seq<Head>, head: Head) {
    && (head.issuer in cache ==> Newer(head, cache[head.issuer]))
    && forall i :: 0 <= i < |since| && since[i].issuer == head.issuer ==> Newer(head, since[i])
  }

  lemma {:induction false} ImprovesIff(cache: Cache, since: seq<Head>, head: Head)
    ensures Improves(CacheAfter(cache, since), head) <==> NewerThanAll(cache, since, head)
    decreases since
  {
    if since == [] {
    } else {
      hide CacheAfter;
      var front, last := since[..|since| - 1], since[|since| - 1];
      assert since == front + [last];
      ImprovesIff(cache, front, head);
      ImprovesIff(cache, front, last);
      CacheSnoc(cache, front, last);
      if last.issuer == head.issuer {
        var before := CacheAfter(cache, front);
        if last.issuer in before {
          BetterOrder(head, last, before[last.issuer]);
        }
        NewerSnoc(cache, front, last, head);
      }
    }
  }

  lemma NewerSnoc(cache: Cache, front: seq<Head>, last: Head, head: Head)
    requires last.issuer == head.issuer
    ensures NewerThanAll(cache, front + [last], head) <==> NewerThanAll(cache, front, head) && Newer(head, last)
  {
    var all := front + [last];
    assert all[|front|] == last && forall i :: 0 <= i < |front| ==> all[i] == front[i];
  }

  /** A head is passed on if and only if it is newer than all that was known of its node when it came. */
  lemma PassedOnIff(cache: Cache, since: seq<Head>, head: Head)
    ensures Improvements(cache, []) == []
    ensures Improvements(cache, since + [head]) ==
            Improvements(cache, since) + if NewerThanAll(cache, since, head) then [head] else []
  {
    hide CacheAfter, NewerThanAll, Improves;
    CacheSnoc(cache, since, head);
    ImprovesIff(cache, since, head);
  }

  // ---- what is looked at ----

  /** Of what is received, what can be parsed, is correctly signed and not of this node is looked at, in
      order, and nothing else is. */
  lemma {:induction false} AdmittedConcat(a: seq<Option<Head>>, b: seq<Option<Head>>, mine: Option<Head>,
                                          verify: Head -> bool)
    ensures Admitted(a + b, mine, verify) == Admitted(a, mine, verify) + Admitted(b, mine, verify)
    decreases b
  {
    if b == [] {
      assert a + b == a;
    } else {
      var front, last := b[..|b| - 1], b[|b| - 1];
      AdmittedConcat(a, front, mine, verify);
      assert (a + b)[..|a + b| - 1] == a + front;
    }
  }

  lemma AdmittedOne(received: Option<Head>, mine: Option<Head>, verify: Head -> bool)
    ensures Admitted([], mine, verify) == []
    ensures Admitted([received], mine, verify) ==
      match received
      case None => []
      case Some(head) => if !verify(head) || (mine.Some? && mine.value.issuer == head.issuer) then [] else [head]
  {
    assert [received][..0] == [];
  }

  lemma {:induction false} AdmittedIssuers(received: seq<Option<Head>>, mine: Head, verify: Head -> bool)
    ensures forall i :: 0 <= i < |Admitted(received, Some(mine), verify)| ==>
              Admitted(received, Some(mine), verify)[i].issuer != mine.issuer
    decreases received
  {
    if received != [] {
      AdmittedIssuers(received[..|received| - 1], mine, verify);
    }
  }

  lemma {:induction false} OthersUntouched(cache: Cache, heads: seq<Head>, id: NodeFullId)
    requires forall i :: 0 <= i < |heads| ==> heads[i].issuer != id
    ensures id in CacheAfter(cache, heads) <==> id in cache
    ensures id in cache ==> CacheAfter(cache, heads)[id] == cache[id]
    decreases heads
  {
    if heads != [] {
      OthersUntouched(cache, heads[..|heads| - 1], id);
    }
  }

  /** Whatever is received, the entry of this node itself stays as it is. */
  lemma {:induction false} OwnEntryUntouched(cache: Cache, received: seq<Option<Head>>, mine: Head,
                                             verify: Head -> bool)
    ensures var after := CacheAfter(cache, Admitted(received, Some(mine), verify));
      && (mine.issuer in after <==> mine.issuer in cache)
      && (mine.issuer in cache ==> after[mine.issuer] == cache[mine.issuer])
  {
    hide Admitted, CacheAfter;
    AdmittedIssuers(received, mine, verify);
    OthersUntouched(cache, Admitted(received, Some(mine), verify), mine.issuer);
  }

  /** No entry ever gets worse or disappears. */
  lemma {:induction false} EntriesOnlyImprove(cache: Cache, heads: seq<Head>, id: NodeFullId)
    requires id in cache
    ensures id in CacheAfter(cache, heads)
    ensures CacheAfter(cache, heads)[id] == cache[id] || Better(CacheAfter(cache, heads)[id], cache[id])
    decreases heads
  {
    if heads != [] {
      var front := heads[..|heads| - 1];
      EntriesOnlyImprove(cache, front, id);
      BetterOrder(heads[|heads| - 1], CacheAfter(cache, front)[id], cache[id]);
    }
  }
}
