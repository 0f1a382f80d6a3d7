/**
  What a module receives from the broadcasting thread, whenever it registers.
 */
module RouterDelivery {
  import opened Sequences
  import opened Wrappers
  import opened Router

  datatype Timed = Timed(input: Input, now: nat)

  // ---- runs of the broadcasting thread ----

  function ThreadAfter(steps: seq<Timed>): Broadcast {
    if steps == [] then IDLE
    else BroadcastStep(ThreadAfter(steps[..|steps| - 1]), steps[|steps| - 1].input, steps[|steps| - 1].now)
  }

  function BoxesAfter(steps: seq<Timed>): Boxes {
    if steps == [] then map[]
    else BoxesStep(ThreadAfter(steps[..|steps| - 1]), BoxesAfter(steps[..|steps| - 1]),
                   steps[|steps| - 1].input, steps[|steps| - 1].now)
  }

  /** The messages handed to the thread, in order. */
  function Log(steps: seq<Timed>): seq<DursMsg> {
    if steps == [] then []
    else
      var before := Log(steps[..|steps| - 1]);
      if steps[|steps| - 1].input.Message? then before + [steps[|steps| - 1].input.msg] else before
  }

  /** Time does not run backwards. */
  ghost predicate Chronological(steps: seq<Timed>) {
    forall i, j :: 0 <= i < j < |steps| ==> steps[i].now <= steps[j].now
  }

  /** An event or a request handled after the registration delay. */
  predicate IsLate(t: Timed) {
    t.input.Message? && (t.input.msg.Event? || t.input.msg.Request?) && t.now >= MAX_REGISTRATION_DELAY
  }

  predicate AnyLate(steps: seq<Timed>) {
    exists i :: 0 <= i < |steps| && IsLate(steps[i])
  }

  // ---- the messages of one subscription ----

  /** msg is addressed to the receiver and is not an event of the module itself. */
  predicate IsWanted(msg: DursMsg, to: Receiver, name: Name) {
    ReceiverOf(msg) == Some(to) && !(msg.Event? && msg.eventFrom == name)
  }

  function Wanted(msgs: seq<DursMsg>, to: Receiver, name: Name): seq<DursMsg> {
    if msgs == [] then []
    else
      var before, last := Wanted(msgs[..|msgs| - 1], to, name), msgs[|msgs| - 1];
      if IsWanted(last, to, name) then before + [last] else before
  }

  function Addressed(msgs: seq<DursMsg>, to: Receiver): seq<DursMsg> {
    if msgs == [] then []
    else
      var before, last := Addressed(msgs[..|msgs| - 1], to), msgs[|msgs| - 1];
      if ReceiverOf(last) == Some(to) then before + [last] else before
  }

  lemma WantedSnoc(msgs: seq<DursMsg>, msg: DursMsg, to: Receiver, name: Name)
    ensures Wanted(msgs + [msg], to, name) == Wanted(msgs, to, name) + if IsWanted(msg, to, name) then [msg] else []
  {
  }

  lemma {:induction false} WantedConcat(a: seq<DursMsg>, b: seq<DursMsg>, to: Receiver, name: Name)
    ensures Wanted(a + b, to, name) == Wanted(a, to, name) + Wanted(b, to, name)
    decreases b
  {
    if b == [] {
      assert a + b == a;
    } else {
      var front, last := b[..|b| - 1], b[|b| - 1];
      WantedConcat(a, front, to, name);
      WantedSnoc(a + front, last, to, name);
      assert a + b == (a + front) + [last];
    }
  }

  lemma {:induction false} WantedOfAddressed(msgs: seq<DursMsg>, to: Receiver, name: Name)
    ensures Wanted(Addressed(msgs, to), to, name) == Wanted(msgs, to, name)
    decreases msgs
  {
    if msgs != [] {
      var front, last := msgs[..|msgs| - 1], msgs[|msgs| - 1];
      WantedOfAddressed(front, to, name);
      WantedSnoc(Addressed(front, to), last, to, name);
    }
  }

  lemma AddressedSnoc(msgs: seq<DursMsg>, msg: DursMsg, to: Receiver)
    ensures Addressed(msgs + [msg], to) == Addressed(msgs, to) + if ReceiverOf(msg) == Some(to) then [msg] else []
  {
  }

  lemma {:induction false} AddressedConcat(a: seq<DursMsg>, b: seq<DursMsg>, to: Receiver)
    ensures Addressed(a + b, to) == Addressed(a, to) + Addressed(b, to)
    decreases b
  {
    if b == [] {
      assert a + b == a;
    } else {
      var front, last := b[..|b| - 1], b[|b| - 1];
      AddressedConcat(a, front, to);
      AddressedSnoc(a + front, last, to);
      assert a + b == (a + front) + [last];
    }
  }

  lemma {:induction false} NothingAddressed(msgs: seq<DursMsg>, to: Receiver)
    requires forall i :: 0 <= i < |msgs| ==> ReceiverOf(msgs[i]) != Some(to)
    ensures Addressed(msgs, to) == []
    decreases msgs
  {
    if msgs != [] {
      NothingAddressed(msgs[..|msgs| - 1], to);
    }
  }

  lemma {:induction false} AllAddressed(msgs: seq<DursMsg>, to: Receiver)
    requires forall i :: 0 <= i < |msgs| ==> ReceiverOf(msgs[i]) == Some(to)
    ensures Addressed(msgs, to) == msgs
    decreases msgs
  {
    if msgs != [] {
      AllAddressed(msgs[..|msgs| - 1], to);
    }
  }

  lemma {:induction false} WantedTwice(msgs: seq<DursMsg>, to: Receiver, name: Name)
    ensures Wanted(Wanted(msgs, to, name), to, name) == Wanted(msgs, to, name)
    decreases msgs
  {
    if msgs != [] {
      var front, last := msgs[..|msgs| - 1], msgs[|msgs| - 1];
      WantedTwice(front, to, name);
      WantedSnoc(Wanted(front, to, name), last, to, name);
    }
  }

  // ---- sending to several receivers, seen from one channel ----

  /** Only `name` can be reached on channel c. */
  ghost predicate OnlyOn(senders: map<Name, Channel>, name: Name, c: Channel) {
    forall n :: n in senders ==> (senders[n] == c <==> n == name)
  }

  function Times(names: seq<Name>, name: Name): nat {
    multiset(names)[name]
  }

  lemma TimesSnoc(names: seq<Name>, last: Name, name: Name)
    ensures Times(names + [last], name) == Times(names, name) + if last == name then 1 else 0
  {
  }

  lemma TimesCons(first: Name, names: seq<Name>, name: Name)
    ensures Times([first] + names, name) == Times(names, name) + if first == name then 1 else 0
  {
  }

  ghost function Copy(msg: DursMsg, names: seq<Name>, name: Name, senders: map<Name, Channel>): seq<DursMsg> {
    if name in senders && Times(names, name) == 1 then [msg] else []
  }

  lemma CopySnoc(msg: DursMsg, front: seq<Name>, last: Name, name: Name, senders: map<Name, Channel>)
    requires Times(front + [last], name) <= 1
    ensures Times(front, name) <= 1
    ensures Copy(msg, front + [last], name, senders) ==
            Copy(msg, front, name, senders) + if last == name && name in senders then [msg] else []
  {
    TimesSnoc(front, last, name);
  }

  lemma CopyCons(msg: DursMsg, first: Name, rest: seq<Name>, name: Name, senders: map<Name, Channel>)
    requires Times([first] + rest, name) <= 1
    ensures Times(rest, name) <= 1
    ensures Copy(msg, [first] + rest, name, senders) ==
            Copy(msg, rest, name, senders) + if first == name && name in senders then [msg] else []
  {
    TimesCons(first, rest, name);
  }

  lemma SendOneOn(boxes: Boxes, msg: DursMsg, n: Name, senders: map<Name, Channel>, name: Name, c: Channel)
    requires OnlyOn(senders, name, c)
    ensures Get(SendOne(boxes, msg, n, senders), c) ==
            Get(boxes, c) + if n == name && name in senders then [msg] else []
  {
  }

  lemma {:induction false} SendEachOn(boxes: Boxes, msg: DursMsg, names: seq<Name>, senders: map<Name, Channel>,
                                      name: Name, c: Channel)
    requires OnlyOn(senders, name, c) && Times(names, name) <= 1
    ensures Get(SendEach(boxes, msg, names, senders), c) == Get(boxes, c) + Copy(msg, names, name, senders)
    decreases names
  {
    if names == [] {
    } else {
      hide OnlyOn, SendOne, Times, Copy, Get;
      var front, last := names[..|names| - 1], names[|names| - 1];
      assert names == front + [last];
      CopySnoc(msg, front, last, name, senders);
      SendEachOn(boxes, msg, front, senders, name, c);
      SendOneOn(SendEach(boxes, msg, front, senders), msg, last, senders, name, c);
      Associate(Get(boxes, c), Copy(msg, front, name, senders), if last == name && name in senders then [msg] else []);
    }
  }

  /** A module listed once gets one copy, a module not listed none. */
  lemma SendToSeveralOn(boxes: Boxes, msg: DursMsg, names: seq<Name>, senders: map<Name, Channel>, name: Name,
                        c: Channel)
    requires OnlyOn(senders, name, c) && Times(names, name) <= 1
    ensures Get(SendToSeveral(boxes, msg, names, senders), c) == Get(boxes, c) + Copy(msg, names, name, senders)
  {
    if names == [] {
    } else {
      hide OnlyOn, SendEach, SendOne, Times, Copy, Get;
      var first, rest := names[0], names[1..];
      assert names == [first] + rest;
      CopyCons(msg, first, rest, name, senders);
      SendEachOn(boxes, msg, rest, senders, name, c);
      SendOneOn(SendEach(boxes, msg, rest, senders), msg, first, senders, name, c);
      Associate(Get(boxes, c), Copy(msg, rest, name, senders), if first == name && name in senders then [msg] else []);
    }
  }

  lemma {:induction false} SendEachOnlyAdds(boxes: Boxes, msg: DursMsg, names: seq<Name>, senders: map<Name, Channel>,
                                            c: Channel, to: Receiver)
    requires ReceiverOf(msg) != Some(to)
    ensures Addressed(Get(SendEach(boxes, msg, names, senders), c), to) == Addressed(Get(boxes, c), to)
    decreases names
  {
    if names != [] {
      var front := names[..|names| - 1];
      SendEachOnlyAdds(boxes, msg, front, senders, c, to);
      SendOneOnlyAdds(SendEach(boxes, msg, front, senders), msg, names[|names| - 1], senders, c, to);
    }
  }

  lemma SendOneOnlyAdds(boxes: Boxes, msg: DursMsg, n: Name, senders: map<Name, Channel>, c: Channel, to: Receiver)
    requires ReceiverOf(msg) != Some(to)
    ensures Addressed(Get(SendOne(boxes, msg, n, senders), c), to) == Addressed(Get(boxes, c), to)
  {
    AddressedSnoc(Get(boxes, c), msg, to);
  }

  /** Sending something else does not disturb a subscription. */
  lemma SendToSeveralOnlyAdds(boxes: Boxes, msg: DursMsg, names: seq<Name>, senders: map<Name, Channel>, c: Channel,
                              to: Receiver)
    requires ReceiverOf(msg) != Some(to)
    ensures Addressed(Get(SendToSeveral(boxes, msg, names, senders), c), to) == Addressed(Get(boxes, c), to)
  {
    if names != [] {
      SendEachOnlyAdds(boxes, msg, names[1..], senders, c, to);
      SendOneOnlyAdds(SendEach(boxes, msg, names[1..], senders), msg, names[0], senders, c, to);
    }
  }

  lemma {:induction false} OthersTimes(names: seq<Name>, sender: Name, name: Name)
    ensures Times(Others(names, sender), name) == if name == sender then 0 else Times(names, name)
    decreases names
  {
    if names != [] {
      var front, last := names[..|names| - 1], names[|names| - 1];
      assert names == front + [last];
      OthersTimes(front, sender, name);
      TimesSnoc(front, last, name);
      TimesSnoc(Others(front, sender), last, name);
    }
  }

  // ---- subscriptions ----

  /** The list of those who subscribed to a receiver. */
  function Subscribers(b: Broadcast, to: Receiver): seq<Name> {
    match to
    case OfEvent(e) => Get(b.subscriptions, e)
    case OfRole(r) => Get(b.roles, r)
    case OfOne(_) => []
  }

  predicate Asks(reg: Registration, to: Receiver) {
    match to
    case OfEvent(e) => e in reg.events
    case OfRole(r) => r in reg.roles
    case OfOne(_) => false
  }

  lemma PrefixGrows<T(!new)>(s: seq<T>, n: nat, x: T)
    requires 0 < n <= |s|
    ensures x in s[..n] <==> x in s[..n - 1] || x == s[n - 1]
    ensures NoDup(s) ==> !(x in s[..n - 1] && x == s[n - 1])
  {
  }

  lemma {:induction false} AddEventsTimes(b: Broadcast, reg: Registration, n: nat, e: EventType, name: Name)
    requires n <= |reg.events| && (name == reg.name ==> NoDup(reg.events))
    ensures Times(Get(AddEvents(b, reg, n).subscriptions, e), name) ==
            Times(Get(b.subscriptions, e), name) + if name == reg.name && e in reg.events[..n] then 1 else 0
  {
    hide Times, NoDup;
    if n > 0 {
      AddEventsTimes(b, reg, n - 1, e, name);
      TimesSnoc(Get(AddEvents(b, reg, n - 1).subscriptions, e), reg.name, name);
      PrefixGrows(reg.events, n, e);
    }
  }

  lemma {:induction false} AddRolesTimes(b: Broadcast, reg: Registration, n: nat, r: Role, name: Name)
    requires n <= |reg.roles| && (name == reg.name ==> NoDup(reg.roles))
    ensures Times(Get(AddRoles(b, reg, n).roles, r), name) ==
            Times(Get(b.roles, r), name) + if name == reg.name && r in reg.roles[..n] then 1 else 0
  {
    hide Times, NoDup;
    if n > 0 {
      AddRolesTimes(b, reg, n - 1, r, name);
      TimesSnoc(Get(AddRoles(b, reg, n - 1).roles, r), reg.name, name);
      PrefixGrows(reg.roles, n, r);
    }
  }

  lemma SubscribedTimes(b: Broadcast, reg: Registration, to: Receiver, name: Name)
    requires name == reg.name ==> NoDup(reg.events) && NoDup(reg.roles)
    ensures Times(Subscribers(Subscribed(b, reg), to), name) ==
            Times(Subscribers(b, to), name) + if name == reg.name && Asks(reg, to) then 1 else 0
  {
    var counted := b.(registered := b.registered + 1);
    var evented := AddEvents(counted, reg, |reg.events|);
    PoolUntouched(counted, reg, |reg.events|);
    SendersUntouched(evented, reg, |reg.roles|);
    match to
    case OfEvent(e) =>
      AddEventsTimes(counted, reg, |reg.events|, e, name);
      assert reg.events[..|reg.events|] == reg.events;
    case OfRole(r) =>
      AddRolesTimes(evented, reg, |reg.roles|, r, name);
      assert reg.roles[..|reg.roles|] == reg.roles;
    case OfOne(_) =>
  }

  // ---- replaying the pool ----

  /** Pooled messages are filed under what they are addressed to. */
  ghost predicate Filed(pool: map<Receiver, seq<DursMsg>>) {
    forall to, i :: to in pool && 0 <= i < |pool[to]| ==> ReceiverOf(pool[to][i]) == Some(to)
  }

  lemma DeliverAllOn(boxes: Boxes, c: Channel, msgs: seq<DursMsg>, d: Channel)
    ensures Get(DeliverAll(boxes, c, msgs), d) == Get(boxes, d) + if c == d then msgs else []
  {
  }

  lemma ReplayOne(pool: map<Receiver, seq<DursMsg>>, boxes: Boxes, c: Channel, from: Receiver, to: Receiver)
    requires Filed(pool)
    ensures Addressed(Get(DeliverAll(boxes, c, Get(pool, from)), c), to) ==
            Addressed(Get(boxes, c), to) + if from == to then Get(pool, to) else []
  {
    DeliverAllOn(boxes, c, Get(pool, from), c);
    AddressedConcat(Get(boxes, c), Get(pool, from), to);
    if from != to {
      NothingAddressed(Get(pool, from), to);
    } else {
      AllAddressed(Get(pool, to), to);
    }
  }

  lemma AtMostOnce(start: seq<DursMsg>, more: seq<DursMsg>, before: bool, now: bool)
    requires !(before && now)
    ensures (start + if before then more else []) + (if now then more else []) ==
            start + if before || now then more else []
  {
  }

  lemma {:induction false} ReplayEventsOn(pool: map<Receiver, seq<DursMsg>>, boxes: Boxes, reg: Registration, n: nat,
                                          to: Receiver)
    requires n <= |reg.events| && Filed(pool) && NoDup(reg.events)
    ensures Addressed(Get(ReplayEvents(pool, boxes, reg, n), reg.channel), to) ==
            Addressed(Get(boxes, reg.channel), to) +
            if to.OfEvent? && to.event in reg.events[..n] then Get(pool, to) else []
  {
    hide Addressed, NoDup, Filed, DeliverAll, Get;
    if n > 0 {
      var e := reg.events[n - 1];
      ReplayEventsOn(pool, boxes, reg, n - 1, to);
      ReplayOne(pool, ReplayEvents(pool, boxes, reg, n - 1), reg.channel, OfEvent(e), to);
      if to.OfEvent? {
        PrefixGrows(reg.events, n, to.event);
        AtMostOnce(Addressed(Get(boxes, reg.channel), to), Get(pool, to), to.event in reg.events[..n - 1],
                   to.event == e);
      }
    }
  }

  lemma {:induction false} ReplayRolesOn(pool: map<Receiver, seq<DursMsg>>, boxes: Boxes, reg: Registration, n: nat,
                                         to: Receiver)
    requires n <= |reg.roles| && Filed(pool) && NoDup(reg.roles)
    ensures Addressed(Get(ReplayRoles(pool, boxes, reg, n), reg.channel), to) ==
            Addressed(Get(boxes, reg.channel), to) +
            if to.OfRole? && to.role in reg.roles[..n] then Get(pool, to) else []
  {
    hide Addressed, NoDup, Filed, DeliverAll, Get;
    if n > 0 {
      var r := reg.roles[n - 1];
      ReplayRolesOn(pool, boxes, reg, n - 1, to);
      ReplayOne(pool, ReplayRoles(pool, boxes, reg, n - 1), reg.channel, OfRole(r), to);
      if to.OfRole? {
        PrefixGrows(reg.roles, n, to.role);
        AtMostOnce(Addressed(Get(boxes, reg.channel), to), Get(pool, to), to.role in reg.roles[..n - 1], to.role == r);
      }
    }
  }

  /** A newly registered module is handed everything that is pooled for each of its subscriptions, once:
      its own events among it. */
  lemma ReplayedOn(b: Broadcast, boxes: Boxes, reg: Registration, to: Receiver)
    requires Filed(b.pool) && NoDup(reg.events) && NoDup(reg.roles) && !to.OfOne?
    ensures Addressed(Get(Replayed(b, boxes, reg), reg.channel), to) ==
            Addressed(Get(boxes, reg.channel), to) + if Asks(reg, to) then Get(b.pool, to) else []
  {
    hide Addressed, NoDup, Filed, Get, ReplayEvents, ReplayRoles;
    ReplayEventsOn(b.pool, boxes, reg, |reg.events|, to);
    ReplayRolesOn(b.pool, ReplayEvents(b.pool, boxes, reg, |reg.events|), reg, |reg.roles|, to);
    assert reg.events[..|reg.events|] == reg.events;
    assert reg.roles[..|reg.roles|] == reg.roles;
  }

  lemma {:induction false} ReplayElsewhere(pool: map<Receiver, seq<DursMsg>>, boxes: Boxes, reg: Registration, n: nat,
                                           c: Channel)
    requires c != reg.channel && n <= |reg.events|
    ensures Get(ReplayEvents(pool, boxes, reg, n), c) == Get(boxes, c)
  {
    if n > 0 {
      ReplayElsewhere(pool, boxes, reg, n - 1, c);
    }
  }

  lemma {:induction false} ReplayRolesElsewhere(pool: map<Receiver, seq<DursMsg>>, boxes: Boxes, reg: Registration,
                                                n: nat, c: Channel)
    requires c != reg.channel && n <= |reg.roles|
    ensures Get(ReplayRoles(pool, boxes, reg, n), c) == Get(boxes, c)
  {
    if n > 0 {
      ReplayRolesElsewhere(pool, boxes, reg, n - 1, c);
    }
  }

  lemma ReplayedElsewhere(b: Broadcast, boxes: Boxes, reg: Registration, c: Channel)
    requires c != reg.channel
    ensures Get(Replayed(b, boxes, reg), c) == Get(boxes, c)
  {
    ReplayElsewhere(b.pool, boxes, reg, |reg.events|, c);
    ReplayRolesElsewhere(b.pool, ReplayEvents(b.pool, boxes, reg, |reg.events|), reg, |reg.roles|, c);
  }

  // ---- the pool over a run ----

  /** The pool holds everything handled so far, until the first late message empties it for good. */
  ghost predicate PoolIs(b: Broadcast, steps: seq<Timed>) {
    if AnyLate(steps) then b.pool == map[]
    else Filed(b.pool) && forall to: Receiver :: !to.OfOne? ==> Get(b.pool, to) == Addressed(Log(steps), to)
  }

  lemma LateSnoc(steps: seq<Timed>, t: Timed)
    ensures AnyLate(steps + [t]) <==> AnyLate(steps) || IsLate(t)
  {
    var all := steps + [t];
    if AnyLate(steps) {
      var i :| 0 <= i < |steps| && IsLate(steps[i]);
      assert IsLate(all[i]);
    }
    if IsLate(t) {
      assert IsLate(all[|steps|]);
    }
    if AnyLate(all) {
      var i :| 0 <= i < |all| && IsLate(all[i]);
      if i < |steps| {
        assert IsLate(steps[i]);
      }
    }
  }

  lemma LogSnoc(steps: seq<Timed>, t: Timed)
    ensures Log(steps + [t]) == Log(steps) + if t.input.Message? then [t.input.msg] else []
    ensures ThreadAfter(steps + [t]) == BroadcastStep(ThreadAfter(steps), t.input, t.now)
    ensures BoxesAfter(steps + [t]) == BoxesStep(ThreadAfter(steps), BoxesAfter(steps), t.input, t.now)
  {
    assert (steps + [t])[..|steps|] == steps;
  }

  lemma PoolStep(b: Broadcast, steps: seq<Timed>, t: Timed)
    requires b.running && PoolIs(b, steps)
    requires forall i :: 0 <= i < |steps| ==> steps[i].now <= t.now
    ensures PoolIs(BroadcastStep(b, t.input, t.now), steps + [t])
  {
    hide AfterRegister, Overdue, PoolIs, AfterMessage;
    var h := Handled(b, t.input, t.now);
    if t.input.Message? {
      MessagePool(b, steps, t);
    } else {
      if t.input.Register? {
        RegisterKeepsPool(b, t.input.reg);
      }
      SamePool(b, h, steps, t);
    }
    SamePoolSameRun(h, BroadcastStep(b, t.input, t.now), steps + [t]);
  }

  lemma SamePoolSameRun(b: Broadcast, b': Broadcast, steps: seq<Timed>)
    requires PoolIs(b, steps) && b'.pool == b.pool
    ensures PoolIs(b', steps)
  {
  }

  lemma SamePool(b: Broadcast, b': Broadcast, steps: seq<Timed>, t: Timed)
    requires PoolIs(b, steps) && b'.pool == b.pool && !t.input.Message?
    ensures PoolIs(b', steps + [t])
  {
  }

  lemma RegisterKeepsPool(b: Broadcast, reg: Registration)
    ensures AfterRegister(b, reg).pool == b.pool
  {
    hide Subscribed, Admissible;
    SubscribedKeeps(b, reg);
  }

  lemma MessagePool(b: Broadcast, steps: seq<Timed>, t: Timed)
    requires PoolIs(b, steps) && t.input.Message?
    requires forall i :: 0 <= i < |steps| ==> steps[i].now <= t.now
    ensures PoolIs(AfterMessage(b, t.input.msg, t.now), steps + [t])
  {
    hide Addressed, Log, Filed, AnyLate, AfterMessage;
    LateSnoc(steps, t);
    if AnyLate(steps) {
      LateThen(steps, t.now);
      PoolEmptied(b, t.input.msg, t.now);
    } else if IsLate(t) {
      PoolEmptied(b, t.input.msg, t.now);
    } else {
      MessageFiled(b, t.input.msg, t.now);
      LogSnoc(steps, t);
      forall to: Receiver | !to.OfOne?
        ensures Get(AfterMessage(b, t.input.msg, t.now).pool, to) == Addressed(Log(steps + [t]), to)
      {
        AddressedSnoc(Log(steps), t.input.msg, to);
        MessagePooled(b, t.input.msg, t.now, to);
      }
    }
  }

  lemma LateThen(steps: seq<Timed>, now: nat)
    requires AnyLate(steps) && forall i :: 0 <= i < |steps| ==> steps[i].now <= now
    ensures now >= MAX_REGISTRATION_DELAY
  {
  }

  lemma PoolEmptied(b: Broadcast, msg: DursMsg, now: nat)
    requires (b.pool == map[] || msg.Event? || msg.Request?) && now >= MAX_REGISTRATION_DELAY
    ensures AfterMessage(b, msg, now).pool == map[]
  {
  }

  lemma MessageFiled(b: Broadcast, msg: DursMsg, now: nat)
    requires Filed(b.pool)
    ensures Filed(AfterMessage(b, msg, now).pool)
  {
  }

  lemma MessagePooled(b: Broadcast, msg: DursMsg, now: nat, to: Receiver)
    requires !to.OfOne? && ((msg.Event? || msg.Request?) ==> now < MAX_REGISTRATION_DELAY)
    ensures Get(AfterMessage(b, msg, now).pool, to) ==
            Get(b.pool, to) + if ReceiverOf(msg) == Some(to) then [msg] else []
  {
  }

  lemma {:induction false} PoolOverRun(steps: seq<Timed>)
    requires Chronological(steps) && ThreadAfter(steps).running
    ensures PoolIs(ThreadAfter(steps), steps)
    decreases steps
  {
    if steps == [] {
    } else {
      hide PoolIs, BroadcastStep;
      var front, last := steps[..|steps| - 1], steps[|steps| - 1];
      StoppedStays(ThreadAfter(front), last.input, last.now);
      PoolOverRun(front);
      PoolStep(ThreadAfter(front), front, last);
      assert steps == front + [last];
    }
  }

  lemma StoppedStays(b: Broadcast, input: Input, now: nat)
    ensures BroadcastStep(b, input, now).running ==> b.running
  {
  }

  // ---- before a module registers ----

  /** No registration uses the module's name or its channel. */
  ghost predicate NotYet(steps: seq<Timed>, reg: Registration) {
    forall i :: 0 <= i < |steps| && steps[i].input.Register? ==>
      steps[i].input.reg.name != reg.name && steps[i].input.reg.channel != reg.channel
  }

  ghost predicate Unknown(b: Broadcast, boxes: Boxes, reg: Registration) {
    && reg.name !in b.senders
    && OnlyOn(b.senders, reg.name, reg.channel)
    && (forall to :: Times(Subscribers(b, to), reg.name) == 0)
    && Get(boxes, reg.channel) == []
  }

  /** What a registration does to the tables. */
  lemma RegisterTables(b: Broadcast, reg: Registration)
    ensures var b' := AfterRegister(b, reg);
      && (b'.senders == b.senders || b'.senders == b.senders[reg.name := reg.channel])
      && (b'.running ==> b'.senders == b.senders[reg.name := reg.channel])
      && forall to :: Subscribers(b', to) == Subscribers(Subscribed(b, reg), to)
  {
    hide Subscribed, Admissible, Subscribers, Ended;
    SubscribedKeeps(b, reg);
    EndedTables(Declared(Subscribed(b, reg), reg), reg);
    SameSubscribers(Subscribed(b, reg), AfterRegister(b, reg));
  }

  lemma EndedTables(b: Broadcast, reg: Registration)
    ensures var b' := Ended(b, reg);
      && (b'.senders == b.senders || b'.senders == b.senders[reg.name := reg.channel])
      && (b'.running ==> b'.senders == b.senders[reg.name := reg.channel])
      && b'.subscriptions == b.subscriptions && b'.roles == b.roles
  {
  }

  lemma SameSubscribers(b: Broadcast, b': Broadcast)
    requires b'.subscriptions == b.subscriptions && b'.roles == b.roles
    ensures forall to :: Subscribers(b', to) == Subscribers(b, to)
  {
  }

  function EndpointsOf(b: Broadcast, reg: Registration): DursMsg {
    ModulesEndpoints(b.endpoints + reg.endpoints)
  }

  /** What a registration sends: the replay, and then perhaps the endpoints to the network modules. */
  lemma RegisterSends(b: Broadcast, boxes: Boxes, reg: Registration)
    ensures var s, sent := Subscribed(b, reg), Replayed(b, boxes, reg);
      || BoxesAfterRegister(b, boxes, reg) == sent
      || BoxesAfterRegister(b, boxes, reg) ==
           SendToSeveral(sent, EndpointsOf(b, reg), Subscribers(s, OfRole(INTER_NODES_NETWORK)), b.senders)
  {
    SubscribedKeeps(b, reg);
    hide Subscribed, Admissible, Replayed, SendToSeveral;
  }

  /** Registrations of others leave a module's channel alone, but for the list of endpoints. */
  lemma OtherRegisters(b: Broadcast, boxes: Boxes, other: Registration, reg: Registration)
    requires other.name != reg.name && other.channel != reg.channel
    requires OnlyOn(b.senders, reg.name, reg.channel)
    requires forall to :: Times(Subscribers(b, to), reg.name) <= 1
    ensures var b' := AfterRegister(b, other);
      && OnlyOn(b'.senders, reg.name, reg.channel)
      && (reg.name in b'.senders <==> reg.name in b.senders)
      && (forall to :: Times(Subscribers(b', to), reg.name) == Times(Subscribers(b, to), reg.name))
    ensures var box := Get(BoxesAfterRegister(b, boxes, other), reg.channel);
      && (reg.name !in b.senders ==> box == Get(boxes, reg.channel))
      && forall to :: Addressed(box, to) == Addressed(Get(boxes, reg.channel), to)
  {
    hide Addressed, Subscribed, Replayed, Subscribers, SendToSeveral, Times, AfterRegister, BoxesAfterRegister,
         EndpointsOf;
    var s := Subscribed(b, other);
    forall to ensures Times(Subscribers(s, to), reg.name) == Times(Subscribers(b, to), reg.name) {
      SubscribedTimes(b, other, to, reg.name);
    }
    RegisterTables(b, other);
    RegisterSends(b, boxes, other);
    ReplayedElsewhere(b, boxes, other, reg.channel);
    EndpointsElsewhere(b, Replayed(b, boxes, other), other, reg);
  }

  /** Sending the endpoints adds nothing to a subscription, and nothing at all for an unknown module. */
  lemma EndpointsElsewhere(b: Broadcast, boxes: Boxes, other: Registration, reg: Registration)
    requires OnlyOn(b.senders, reg.name, reg.channel)
    requires Times(Subscribers(Subscribed(b, other), OfRole(INTER_NODES_NETWORK)), reg.name) <= 1
    ensures var names := Subscribers(Subscribed(b, other), OfRole(INTER_NODES_NETWORK));
      var box := Get(SendToSeveral(boxes, EndpointsOf(b, other), names, b.senders), reg.channel);
      && (reg.name !in b.senders ==> box == Get(boxes, reg.channel))
      && forall to :: Addressed(box, to) == Addressed(Get(boxes, reg.channel), to)
  {
    hide Addressed, Subscribed, Subscribers, SendToSeveral, Times, OnlyOn;
    var names := Subscribers(Subscribed(b, other), OfRole(INTER_NODES_NETWORK));
    SendToSeveralOn(boxes, EndpointsOf(b, other), names, b.senders, reg.name, reg.channel);
    AppendNothing(Get(boxes, reg.channel));
    forall to
      ensures Addressed(Get(SendToSeveral(boxes, EndpointsOf(b, other), names, b.senders), reg.channel), to) ==
              Addressed(Get(boxes, reg.channel), to)
    {
      SendToSeveralOnlyAdds(boxes, EndpointsOf(b, other), names, b.senders, reg.channel, to);
    }
  }

  lemma MessageKeepsTables(b: Broadcast, msg: DursMsg, now: nat)
    ensures var b' := AfterMessage(b, msg, now);
      b'.senders == b.senders && forall to :: Subscribers(b', to) == Subscribers(b, to)
  {
  }

  lemma RecipientsTimes(b: Broadcast, msg: DursMsg, name: Name)
    requires msg.Event? || msg.Request?
    ensures Times(Recipients(b, msg), name) ==
            if msg.Event? && msg.eventFrom == name then 0 else Times(Subscribers(b, ReceiverOf(msg).value), name)
  {
    if msg.Event? {
      OthersTimes(Get(b.subscriptions, msg.eventType), msg.eventFrom, name);
    }
  }

  lemma StillUnknown(b: Broadcast, boxes: Boxes, reg: Registration, t: Timed)
    requires Unknown(b, boxes, reg)
    requires t.input.Register? ==> t.input.reg.name != reg.name && t.input.reg.channel != reg.channel
    ensures Unknown(BroadcastStep(b, t.input, t.now), BoxesStep(b, boxes, t.input, t.now), reg)
  {
    hide AfterRegister, BoxesAfterRegister, AfterMessage, BoxesAfterMessage, Overdue, Times, OnlyOn, Subscribers;
    if b.running {
      OverdueKeepsTables(b, t.input, t.now);
      match t.input {
        case ModulesCount(n) => CountKeepsTables(b, n);
        case Register(other) => OtherRegisters(b, boxes, other, reg);
        case Message(msg) =>
          MessageKeepsTables(b, msg, t.now);
          NoCopyYet(b, boxes, reg, msg);
      }
    }
  }

  lemma NoCopyYet(b: Broadcast, boxes: Boxes, reg: Registration, msg: DursMsg)
    requires Unknown(b, boxes, reg)
    ensures Get(BoxesAfterMessage(b, boxes, msg), reg.channel) == []
  {
    hide SendToSeveral, Recipients, Times, OnlyOn, Subscribers;
    if msg.Event? || msg.Request? {
      RecipientsTimes(b, msg, reg.name);
      SendToSeveralOn(boxes, msg, Recipients(b, msg), b.senders, reg.name, reg.channel);
    }
  }

  lemma {:induction false} UnknownBefore(steps: seq<Timed>, reg: Registration)
    requires NotYet(steps, reg)
    ensures Unknown(ThreadAfter(steps), BoxesAfter(steps), reg)
    decreases steps
  {
    if steps == [] {
    } else {
      hide Unknown, BroadcastStep, BoxesStep;
      var front, last := steps[..|steps| - 1], steps[|steps| - 1];
      UnknownBefore(front, reg);
      StillUnknown(ThreadAfter(front), BoxesAfter(front), reg, last);
    }
  }

  // ---- once it has registered ----

  /** The module is known and subscribed once to each thing it asked for; it was handed `past` when it
      registered, and has been served from `since` later on. */
  ghost predicate Serving(b: Broadcast, boxes: Boxes, reg: Registration, past: seq<DursMsg>, since: seq<DursMsg>) {
    && reg.name in b.senders && OnlyOn(b.senders, reg.name, reg.channel)
    && (forall to :: Times(Subscribers(b, to), reg.name) == if Asks(reg, to) then 1 else 0)
    && forall to: Receiver :: !to.OfOne? ==> ServedFor(boxes, reg, past, since, to)
  }

  /** What the module got of the past it got as it was; of what came since, only what others sent. */
  ghost function Due(reg: Registration, past: seq<DursMsg>, since: seq<DursMsg>, to: Receiver): seq<DursMsg> {
    if Asks(reg, to) then Addressed(past, to) + Wanted(since, to, reg.name) else []
  }

  ghost predicate ServedFor(boxes: Boxes, reg: Registration, past: seq<DursMsg>, since: seq<DursMsg>, to: Receiver) {
    Addressed(Get(boxes, reg.channel), to) == Due(reg, past, since, to)
  }

  lemma StartsServing(b: Broadcast, boxes: Boxes, reg: Registration, past: seq<DursMsg>)
    requires Unknown(b, boxes, reg) && NoDup(reg.events) && NoDup(reg.roles)
    requires Filed(b.pool) && forall to: Receiver :: !to.OfOne? ==> Get(b.pool, to) == Addressed(past, to)
    requires AfterRegister(b, reg).running
    ensures Serving(AfterRegister(b, reg), BoxesAfterRegister(b, boxes, reg), reg, past, [])
  {
    hide Subscribed, Replayed, Subscribers, Asks, SendToSeveral, Times, Filed, NoDup, Addressed, ServedFor,
         AfterRegister, BoxesAfterRegister;
    RegisterTables(b, reg);
    RegisterSends(b, boxes, reg);
    forall to ensures Times(Subscribers(AfterRegister(b, reg), to), reg.name) == if Asks(reg, to) then 1 else 0 {
      SubscribedTimes(b, reg, to, reg.name);
    }
    forall to: Receiver | !to.OfOne? ensures ServedFor(BoxesAfterRegister(b, boxes, reg), reg, past, [], to) {
      ReplayedOn(b, boxes, reg, to);
      SendToSeveralOnlyAdds(Replayed(b, boxes, reg), EndpointsOf(b, reg),
                            Subscribers(Subscribed(b, reg), OfRole(INTER_NODES_NETWORK)), b.senders, reg.channel, to);
      ServedAtFirst(BoxesAfterRegister(b, boxes, reg), reg, past, to);
    }
  }

  lemma ServedAtFirst(boxes: Boxes, reg: Registration, past: seq<DursMsg>, to: Receiver)
    requires Addressed(Get(boxes, reg.channel), to) ==
             Addressed([], to) + if Asks(reg, to) then Addressed(past, to) else []
    ensures ServedFor(boxes, reg, past, [], to)
  {
  }

  /** A broadcast message reaches the module exactly if it asked for it and did not send it. */
  lemma ServesMessage(b: Broadcast, boxes: Boxes, reg: Registration, past: seq<DursMsg>, since: seq<DursMsg>,
                      msg: DursMsg, to: Receiver)
    requires Serving(b, boxes, reg, past, since) && !to.OfOne?
    ensures ServedFor(BoxesAfterMessage(b, boxes, msg), reg, past, since + [msg], to)
  {
    hide Wanted, Addressed, SendToSeveral, Recipients, Subscribers, Times, OnlyOn, Asks;
    assert ServedFor(boxes, reg, past, since, to);
    WantedSnoc(since, msg, to, reg.name);
    var due, box := Addressed(past, to), Get(boxes, reg.channel);
    Associate(due, Wanted(since, to, reg.name), if IsWanted(msg, to, reg.name) then [msg] else []);
    AppendNothing(Wanted(since, to, reg.name));
    AppendNothing(Addressed(box, to));
    AppendNothing(box);
    if msg.Event? || msg.Request? {
      CopyIffAsked(b, boxes, reg, past, since, msg);
      AddressedSnoc(box, msg, to);
    }
  }

  /** The box grows by one copy exactly if the module asked for the message and did not send it. */
  lemma CopyIffAsked(b: Broadcast, boxes: Boxes, reg: Registration, past: seq<DursMsg>, since: seq<DursMsg>,
                     msg: DursMsg)
    requires Serving(b, boxes, reg, past, since) && (msg.Event? || msg.Request?)
    ensures var boxes' := BoxesAfterMessage(b, boxes, msg);
      Get(boxes', reg.channel) == Get(boxes, reg.channel) +
      if Asks(reg, ReceiverOf(msg).value) && !(msg.Event? && msg.eventFrom == reg.name) then [msg] else []
  {
    hide Wanted, SendToSeveral, Recipients, Subscribers, Times, OnlyOn, Asks, ServedFor;
    RecipientsTimes(b, msg, reg.name);
    SendToSeveralOn(boxes, msg, Recipients(b, msg), b.senders, reg.name, reg.channel);
  }

  lemma KeepsServing(b: Broadcast, boxes: Boxes, reg: Registration, past: seq<DursMsg>, since: seq<DursMsg>, t: Timed)
    requires Serving(b, boxes, reg, past, since) && b.running
    requires t.input.Register? ==> t.input.reg.name != reg.name && t.input.reg.channel != reg.channel
    ensures Serving(BroadcastStep(b, t.input, t.now), BoxesStep(b, boxes, t.input, t.now), reg, past,
                    since + if t.input.Message? then [t.input.msg] else [])
  {
    hide AfterRegister, BoxesAfterRegister, Overdue, SendToSeveral, Times, OnlyOn, Due, Addressed, BoxesAfterMessage,
      Subscribers, Asks, StoreInPool;
    var boxes' := BoxesStep(b, boxes, t.input, t.now);
    OverdueKeepsTables(b, t.input, t.now);
    AppendNothing(since);
    match t.input {
      case ModulesCount(_) => CountKeepsTables(b, t.input.count);
      case Register(other) =>
        OtherRegisters(b, boxes, other, reg);
        forall to: Receiver | !to.OfOne? ensures ServedFor(boxes', reg, past, since, to) {
          assert ServedFor(boxes, reg, past, since, to);
        }
      case Message(msg) =>
        MessageKeepsTables(b, msg, t.now);
        forall to: Receiver | !to.OfOne? ensures ServedFor(boxes', reg, past, since + [msg], to) {
          ServesMessage(b, boxes, reg, past, since, msg, to);
        }
    }
  }

  lemma OverdueKeepsTables(b: Broadcast, input: Input, now: nat)
    requires b.running
    ensures var b', h := BroadcastStep(b, input, now), Handled(b, input, now);
      b'.senders == h.senders && forall to :: Subscribers(b', to) == Subscribers(h, to)
  {
  }

  lemma CountKeepsTables(b: Broadcast, n: nat)
    ensures forall to :: Subscribers(b.(expected := Some(n)), to) == Subscribers(b, to)
  {
  }

  // ---- the theorem ----

  /** The module registers at step i, and nobody else ever uses its name or its channel. */
  ghost predicate RegistersOnceAt(steps: seq<Timed>, reg: Registration, i: nat) {
    && i < |steps| && steps[i].input == Register(reg)
    && NotYet(steps[..i], reg) && NotYet(steps[i + 1..], reg)
  }

  /** Moreover, it lists no event and no role twice. */
  ghost predicate RegistersAt(steps: seq<Timed>, reg: Registration, i: nat) {
    RegistersOnceAt(steps, reg, i) && NoDup(reg.events) && NoDup(reg.roles)
  }

  /** What is still there for a module that registers at step i: everything, or, once something late
      has been handled, nothing. */
  ghost function Past(steps: seq<Timed>, i: nat): seq<DursMsg>
    requires i <= |steps|
  {
    if AnyLate(steps[..i]) then [] else Log(steps[..i])
  }

  lemma ServingAtRegistration(steps: seq<Timed>, reg: Registration, i: nat)
    requires Chronological(steps) && RegistersAt(steps, reg, i) && ThreadAfter(steps[..i + 1]).running
    ensures Serving(ThreadAfter(steps[..i + 1]), BoxesAfter(steps[..i + 1]), reg, Past(steps, i), [])
  {
    hide Unknown, AfterRegister, BoxesAfterRegister, Serving, Addressed, Log, Overdue;
    var front := steps[..i];
    var b := ThreadAfter(front);
    assert steps[..i + 1] == front + [steps[i]];
    LogSnoc(front, steps[i]);
    StoppedStays(b, steps[i].input, steps[i].now);
    PoolOverRun(front);
    UnknownBefore(front, reg);
    forall to: Receiver | !to.OfOne? ensures Get(b.pool, to) == Addressed(Past(steps, i), to) {
      AddressedNothing(to);
    }
    StartsServing(b, BoxesAfter(front), reg, Past(steps, i));
  }

  lemma AddressedNothing(to: Receiver)
    ensures Addressed([], to) == []
  {
  }

  lemma {:induction false} ServingThroughout(steps: seq<Timed>, reg: Registration, i: nat, n: nat)
    requires Chronological(steps) && RegistersAt(steps, reg, i) && i < n <= |steps|
    requires ThreadAfter(steps[..n]).running
    ensures Serving(ThreadAfter(steps[..n]), BoxesAfter(steps[..n]), reg, Past(steps, i), Log(steps[i..n]))
    decreases n
  {
    hide Serving, BroadcastStep, BoxesStep, Log, Past, ThreadAfter, BoxesAfter, Chronological, NoDup;
    assert steps[..n] == steps[..n - 1] + [steps[n - 1]];
    LogSnoc(steps[..n - 1], steps[n - 1]);
    assert steps[i..n] == steps[i..n - 1] + [steps[n - 1]];
    LogSnoc(steps[i..n - 1], steps[n - 1]);
    if n == i + 1 {
      ServingAtRegistration(steps, reg, i);
      LogNothing();
      assert steps[i..i] == [];
    } else {
      StoppedStays(ThreadAfter(steps[..n - 1]), steps[n - 1].input, steps[n - 1].now);
      ServingThroughout(steps, reg, i, n - 1);
      OthersAfter(steps, reg, i, n - 1);
      KeepsServing(ThreadAfter(steps[..n - 1]), BoxesAfter(steps[..n - 1]), reg, Past(steps, i), Log(steps[i..n - 1]),
                   steps[n - 1]);
    }
  }

  lemma LogNothing()
    ensures Log([]) == []
  {
  }

  lemma OthersAfter(steps: seq<Timed>, reg: Registration, i: nat, j: nat)
    requires RegistersOnceAt(steps, reg, i) && i < j < |steps|
    ensures steps[j].input.Register? ==>
            steps[j].input.reg.name != reg.name && steps[j].input.reg.channel != reg.channel
  {
  }

  lemma {:induction false} LogConcat(a: seq<Timed>, b: seq<Timed>)
    ensures Log(a + b) == Log(a) + Log(b)
    decreases b
  {
    if b == [] {
      assert a + b == a;
      AppendNothing(Log(a));
    } else {
      hide Log;
      var front, last := b[..|b| - 1], b[|b| - 1];
      LogConcat(a, front);
      LogSnoc(front, last);
      LogConcatStep(a, front, last);
      assert b == front + [last];
    }
  }

  lemma LogConcatStep(a: seq<Timed>, front: seq<Timed>, last: Timed)
    requires Log(a + front) == Log(a) + Log(front)
    ensures Log(a + (front + [last])) == Log(a) + (Log(front) + if last.input.Message? then [last.input.msg] else [])
  {
    hide Log;
    assert a + (front + [last]) == (a + front) + [last];
    LogSnoc(a + front, last);
    Associate(Log(a), Log(front), if last.input.Message? then [last.input.msg] else []);
  }

  /** Exactly once and in order: of each of its subscriptions, a module has received everything that was
      handled before it registered, unless a late message was among it, and then everything handled since
      that it did not send itself. */
  lemma BroadcastDelivery(steps: seq<Timed>, reg: Registration, i: nat, to: Receiver)
    requires Chronological(steps) && RegistersAt(steps, reg, i) && ThreadAfter(steps).running && Asks(reg, to)
    ensures Addressed(Get(BoxesAfter(steps), reg.channel), to) ==
            (if AnyLate(steps[..i]) then [] else Addressed(Log(steps[..i]), to)) + Wanted(Log(steps[i..]), to, reg.name)
  {
    assert Addressed([], to) == [];
    hide Log, Wanted, AnyLate, ThreadAfter, BoxesAfter, Chronological, NotYet, NoDup, OnlyOn, Addressed;
    assert steps[..|steps|] == steps && steps[i..|steps|] == steps[i..];
    ServingThroughout(steps, reg, i, |steps|);
    assert ServedFor(BoxesAfter(steps), reg, Past(steps, i), Log(steps[i..]), to);
  }

  /** Of what others sent: the past, unless it is lost, and everything since. */
  lemma OthersDelivered(steps: seq<Timed>, reg: Registration, i: nat, to: Receiver)
    requires Chronological(steps) && RegistersAt(steps, reg, i) && ThreadAfter(steps).running && Asks(reg, to)
    ensures Wanted(Get(BoxesAfter(steps), reg.channel), to, reg.name) ==
            (if AnyLate(steps[..i]) then [] else Wanted(Log(steps[..i]), to, reg.name)) +
            Wanted(Log(steps[i..]), to, reg.name)
  {
    assert Wanted([], to, reg.name) == [];
    hide Log, Wanted, AnyLate, ThreadAfter, BoxesAfter, Chronological, NotYet, NoDup, Addressed, Asks;
    BroadcastDelivery(steps, reg, i, to);
    var box := Get(BoxesAfter(steps), reg.channel);
    var past := if AnyLate(steps[..i]) then [] else Addressed(Log(steps[..i]), to);
    WantedOfAddressed(box, to, reg.name);
    WantedConcat(past, Wanted(Log(steps[i..]), to, reg.name), to, reg.name);
    WantedTwice(Log(steps[i..]), to, reg.name);
    WantedOfAddressed(Log(steps[..i]), to, reg.name);
  }

  lemma Prefixed(a: seq<DursMsg>, b: seq<DursMsg>)
    ensures a + b == b <==> a == []
  {
    assert a + b == b ==> |a| == 0;
  }

  lemma LogSplit(steps: seq<Timed>, i: nat, to: Receiver, name: Name)
    requires i <= |steps|
    ensures Wanted(Log(steps), to, name) == Wanted(Log(steps[..i]), to, name) + Wanted(Log(steps[i..]), to, name)
    ensures Addressed(Log(steps), to) == Addressed(Log(steps[..i]), to) + Addressed(Log(steps[i..]), to)
  {
    hide Log, Wanted, Addressed;
    LogConcat(steps[..i], steps[i..]);
    assert steps == steps[..i] + steps[i..];
    WantedConcat(Log(steps[..i]), Log(steps[i..]), to, name);
    AddressedConcat(Log(steps[..i]), Log(steps[i..]), to);
  }

  /** A module misses nothing that others sent if and only if nothing late, or nothing of that kind, was
      handled before it registered. */
  lemma NothingMissedIff(steps: seq<Timed>, reg: Registration, i: nat, to: Receiver)
    requires Chronological(steps) && RegistersAt(steps, reg, i) && ThreadAfter(steps).running && Asks(reg, to)
    ensures Wanted(Get(BoxesAfter(steps), reg.channel), to, reg.name) == Wanted(Log(steps), to, reg.name) <==>
            !AnyLate(steps[..i]) || Wanted(Log(steps[..i]), to, reg.name) == []
  {
    hide Log, Wanted, AnyLate, ThreadAfter, BoxesAfter, Chronological, NotYet, NoDup, Asks;
    OthersDelivered(steps, reg, i, to);
    LogSplit(steps, i, to, reg.name);
    Prefixed(Wanted(Log(steps[..i]), to, reg.name), Wanted(Log(steps[i..]), to, reg.name));
  }

  // ---- a module's own events ----

  /** The events of a kind that the module itself sent. */
  function Own(msgs: seq<DursMsg>, to: Receiver, name: Name): seq<DursMsg> {
    if msgs == [] then []
    else
      var before, last := Own(msgs[..|msgs| - 1], to, name), msgs[|msgs| - 1];
      if ReceiverOf(last) == Some(to) && !IsWanted(last, to, name) then before + [last] else before
  }

  lemma OwnSnoc(msgs: seq<DursMsg>, msg: DursMsg, to: Receiver, name: Name)
    ensures Own(msgs + [msg], to, name) ==
            Own(msgs, to, name) + if ReceiverOf(msg) == Some(to) && !IsWanted(msg, to, name) then [msg] else []
  {
    assert (msgs + [msg])[..|msgs|] == msgs;
  }

  lemma {:induction false} OwnConcat(a: seq<DursMsg>, b: seq<DursMsg>, to: Receiver, name: Name)
    ensures Own(a + b, to, name) == Own(a, to, name) + Own(b, to, name)
    decreases b
  {
    if b == [] {
      assert a + b == a;
    } else {
      var front, last := b[..|b| - 1], b[|b| - 1];
      OwnConcat(a, front, to, name);
      OwnSnoc(a + front, last, to, name);
      assert a + b == (a + front) + [last];
    }
  }

  lemma {:induction false} OwnOfAddressed(msgs: seq<DursMsg>, to: Receiver, name: Name)
    ensures Own(Addressed(msgs, to), to, name) == Own(msgs, to, name)
    decreases msgs
  {
    if msgs != [] {
      var front, last := msgs[..|msgs| - 1], msgs[|msgs| - 1];
      OwnOfAddressed(front, to, name);
      OwnSnoc(Addressed(front, to), last, to, name);
    }
  }

  lemma {:induction false} OwnOfWanted(msgs: seq<DursMsg>, to: Receiver, name: Name)
    ensures Own(Wanted(msgs, to, name), to, name) == []
    decreases msgs
  {
    if msgs != [] {
      var front, last := msgs[..|msgs| - 1], msgs[|msgs| - 1];
      OwnOfWanted(front, to, name);
      OwnSnoc(Wanted(front, to, name), last, to, name);
    }
  }

  lemma {:induction false} NoOwnIff(msgs: seq<DursMsg>, to: Receiver, name: Name)
    ensures Addressed(msgs, to) == Wanted(msgs, to, name) <==> Own(msgs, to, name) == []
    ensures |Addressed(msgs, to)| == |Wanted(msgs, to, name)| + |Own(msgs, to, name)|
    decreases msgs
  {
    if msgs != [] {
      NoOwnIff(msgs[..|msgs| - 1], to, name);
    }
  }

  /** Replaying does not leave out the events of the module that registers, broadcasting does: the events
      of its own that a module receives are exactly those handled before it registered, unless these are
      lost. */
  lemma OwnEventsReplayed(steps: seq<Timed>, reg: Registration, i: nat, to: Receiver)
    requires Chronological(steps) && RegistersAt(steps, reg, i) && ThreadAfter(steps).running && Asks(reg, to)
    ensures Own(Get(BoxesAfter(steps), reg.channel), to, reg.name) ==
            if AnyLate(steps[..i]) then [] else Own(Log(steps[..i]), to, reg.name)
  {
    assert Own([], to, reg.name) == [];
    hide Log, Wanted, AnyLate, ThreadAfter, BoxesAfter, Chronological, NotYet, NoDup, Addressed, Asks, Own;
    BroadcastDelivery(steps, reg, i, to);
    var past := if AnyLate(steps[..i]) then [] else Addressed(Log(steps[..i]), to);
    OwnOfAddressed(Get(BoxesAfter(steps), reg.channel), to, reg.name);
    OwnConcat(past, Wanted(Log(steps[i..]), to, reg.name), to, reg.name);
    OwnOfWanted(Log(steps[i..]), to, reg.name);
    OwnOfAddressed(Log(steps[..i]), to, reg.name);
    AppendNothing(Own(past, to, reg.name));
  }

  /** A module receives no event of its own if and only if something late, or none of them, was handled
      before it registered. */
  lemma NoOwnEventIff(steps: seq<Timed>, reg: Registration, i: nat, to: Receiver)
    requires Chronological(steps) && RegistersAt(steps, reg, i) && ThreadAfter(steps).running && Asks(reg, to)
    ensures Own(Get(BoxesAfter(steps), reg.channel), to, reg.name) == [] <==>
            AnyLate(steps[..i]) || Own(Log(steps[..i]), to, reg.name) == []
  {
    hide Log, AnyLate, ThreadAfter, BoxesAfter, Chronological, NotYet, NoDup, Asks, Own;
    OwnEventsReplayed(steps, reg, i, to);
  }

  /** The moment of registration is invisible, so that the module has received what it would have received
      had it registered first, if and only if nothing was lost and no event of its own was replayed. */
  lemma RegistrationInvisibleIff(steps: seq<Timed>, reg: Registration, i: nat, to: Receiver)
    requires Chronological(steps) && RegistersAt(steps, reg, i) && ThreadAfter(steps).running && Asks(reg, to)
    ensures Addressed(Get(BoxesAfter(steps), reg.channel), to) == Wanted(Log(steps), to, reg.name) <==>
            if AnyLate(steps[..i]) then Wanted(Log(steps[..i]), to, reg.name) == []
            else Own(Log(steps[..i]), to, reg.name) == []
  {
    hide Log, Wanted, AnyLate, ThreadAfter, BoxesAfter, Chronological, NotYet, NoDup, Addressed, Asks, Own;
    BroadcastDelivery(steps, reg, i, to);
    LogSplit(steps, i, to, reg.name);
    var before, since := Log(steps[..i]), Wanted(Log(steps[i..]), to, reg.name);
    NoOwnIff(before, to, reg.name);
    Prefixed(Wanted(before, to, reg.name), since);
    SamePrefix(Addressed(before, to), Wanted(before, to, reg.name), since);
    AppendNothing(since);
  }

  lemma SamePrefix(a: seq<DursMsg>, b: seq<DursMsg>, c: seq<DursMsg>)
    ensures a + c == b + c <==> a == b
  {
    if a + c == b + c {
      assert |a| == |b|;
      assert a == (a + c)[..|a|] && b == (b + c)[..|b|];
    }
  }

  /** An example: a module that sends an event and then registers for its kind is handed that event ... */
  lemma OwnEventBefore(name: Name, c: Channel)
    ensures var event, reg := Event(name, 0, 7), Registration(name, c, [0], [], [], []);
      Get(BoxesAfter([Timed(Message(event), 0)] + [Timed(Register(reg), 1)]), c) == [event]
  {
    var event, reg := Event(name, 0, 7), Registration(name, c, [0], [], [], []);
    var send := Timed(Message(event), 0);
    var none: Boxes := map[];
    assert [] + [send] == [send] && ThreadAfter([]) == IDLE && BoxesAfter([]) == none;
    LogSnoc([], send);
    var b := ThreadAfter([send]);
    assert b == IDLE.(pool := map[OfEvent(0) := [] + [event]]) && BoxesAfter([send]) == none;
    hide ThreadAfter, BoxesAfter, SendToSeveral;
    LogSnoc([send], Timed(Register(reg), 1));
    SubscribedKeeps(b, reg);
    assert ReplayEvents(b.pool, none, reg, 1) == DeliverAll(ReplayEvents(b.pool, none, reg, 0), c, [] + [event]);
    assert Get(Replayed(b, none, reg), c) == [event];
  }

  /** ... and one that registers before it sends the event is not. */
  lemma OwnEventAfter(name: Name, c: Channel)
    ensures var event, reg := Event(name, 0, 7), Registration(name, c, [0], [], [], []);
      Get(BoxesAfter([Timed(Register(reg), 0)] + [Timed(Message(event), 1)]), c) == []
  {
    var event, reg := Event(name, 0, 7), Registration(name, c, [0], [], [], []);
    var join := Timed(Register(reg), 0);
    var none: Boxes := map[];
    assert [] + [join] == [join] && ThreadAfter([]) == IDLE && BoxesAfter([]) == none;
    LogSnoc([], join);
    var b := ThreadAfter([join]);
    assert b == BroadcastStep(IDLE, Register(reg), 0) && BoxesAfter([join]) == BoxesStep(IDLE, none, Register(reg), 0);
    hide ThreadAfter, BoxesAfter, SendToSeveral;
    LogSnoc([join], Timed(Message(event), 1));
    SubscribedKeeps(IDLE, reg);
    assert ReplayEvents(IDLE.pool, none, reg, 1) == DeliverAll(none, c, []);
    assert Get(BoxesAfter([join]), c) == [];
    OwnEventsFiltered(b, BoxesAfter([join]), event, name, c);
  }

  lemma OwnEventsFiltered(b: Broadcast, boxes: Boxes, event: DursMsg, name: Name, c: Channel)
    requires event.Event? && event.eventFrom == name && Get(boxes, c) == []
    requires OnlyOn(b.senders, name, c)
    ensures Get(BoxesAfterMessage(b, boxes, event), c) == []
  {
    OthersTimes(Get(b.subscriptions, event.eventType), name, name);
    SendToSeveralOn(boxes, event, Recipients(b, event), b.senders, name, c);
  }
}
