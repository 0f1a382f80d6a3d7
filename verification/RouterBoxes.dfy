/** The whole contents of a module's box, in order, as far as they come from the broadcasting thread. */
module RouterBoxes {
  import opened Sequences
  import opened Wrappers
  import opened Router
  import opened RouterDelivery
  import opened RouterLife

  // ---- what is handed over at registration ----

  function EventsOf(events: seq<EventType>, past: seq<DursMsg>): seq<DursMsg> {
    if events == [] then []
    else EventsOf(events[..|events| - 1], past) + Addressed(past, OfEvent(events[|events| - 1]))
  }

  function RequestsOf(roles: seq<Role>, past: seq<DursMsg>): seq<DursMsg> {
    if roles == [] then []
    else RequestsOf(roles[..|roles| - 1], past) + Addressed(past, OfRole(roles[|roles| - 1]))
  }

  /** Event by event and then role by role, what was handled for each. */
  function HandedOver(reg: Registration, past: seq<DursMsg>): seq<DursMsg> {
    EventsOf(reg.events, past) + RequestsOf(reg.roles, past)
  }

  ghost predicate PoolHolds(pool: map<Receiver, seq<DursMsg>>, past: seq<DursMsg>) {
    forall to: Receiver :: !to.OfOne? ==> Get(pool, to) == Addressed(past, to)
  }

  lemma {:induction false} EventsHandedOver(pool: map<Receiver, seq<DursMsg>>, past: seq<DursMsg>, boxes: Boxes,
                                            reg: Registration, n: nat)
    requires PoolHolds(pool, past) && n <= |reg.events|
    ensures Get(ReplayEvents(pool, boxes, reg, n), reg.channel) ==
            Get(boxes, reg.channel) + EventsOf(reg.events[..n], past)
    decreases n
  {
    hide Addressed, DeliverAll, Get;
    if n == 0 {
      AppendNothing(Get(boxes, reg.channel));
    } else {
      var e := reg.events[n - 1];
      EventsHandedOver(pool, past, boxes, reg, n - 1);
      assert reg.events[..n][..n - 1] == reg.events[..n - 1];
      assert Get(pool, OfEvent(e)) == Addressed(past, OfEvent(e));
      DeliverAllOn(ReplayEvents(pool, boxes, reg, n - 1), reg.channel, Get(pool, OfEvent(e)), reg.channel);
      Associate(Get(boxes, reg.channel), EventsOf(reg.events[..n - 1], past), Addressed(past, OfEvent(e)));
    }
  }

  lemma {:induction false} RequestsHandedOver(pool: map<Receiver, seq<DursMsg>>, past: seq<DursMsg>, boxes: Boxes,
                                              reg: Registration, n: nat)
    requires PoolHolds(pool, past) && n <= |reg.roles|
    ensures Get(ReplayRoles(pool, boxes, reg, n), reg.channel) ==
            Get(boxes, reg.channel) + RequestsOf(reg.roles[..n], past)
    decreases n
  {
    hide Addressed, DeliverAll, Get;
    if n == 0 {
      AppendNothing(Get(boxes, reg.channel));
    } else {
      var r := reg.roles[n - 1];
      RequestsHandedOver(pool, past, boxes, reg, n - 1);
      assert reg.roles[..n][..n - 1] == reg.roles[..n - 1];
      assert Get(pool, OfRole(r)) == Addressed(past, OfRole(r));
      DeliverAllOn(ReplayRoles(pool, boxes, reg, n - 1), reg.channel, Get(pool, OfRole(r)), reg.channel);
      Associate(Get(boxes, reg.channel), RequestsOf(reg.roles[..n - 1], past), Addressed(past, OfRole(r)));
    }
  }

  lemma ReplayedWhole(b: Broadcast, past: seq<DursMsg>, boxes: Boxes, reg: Registration)
    requires PoolHolds(b.pool, past)
    ensures Get(Replayed(b, boxes, reg), reg.channel) == Get(boxes, reg.channel) + HandedOver(reg, past)
  {
    hide PoolHolds, ReplayEvents, ReplayRoles, EventsOf, RequestsOf, Get;
    EventsHandedOver(b.pool, past, boxes, reg, |reg.events|);
    RequestsHandedOver(b.pool, past, ReplayEvents(b.pool, boxes, reg, |reg.events|), reg, |reg.roles|);
    assert reg.events[..|reg.events|] == reg.events && reg.roles[..|reg.roles|] == reg.roles;
    Associate(Get(boxes, reg.channel), EventsOf(reg.events, past), RequestsOf(reg.roles, past));
  }

  // ---- what follows ----

  /** With this registration, the number of modules that are expected is reached. */
  predicate Completes(steps: seq<Timed>, t: Timed) {
    t.input.Register? && LastCount(steps) == Some(Registrations(steps) + 1)
  }

  /** What a module that has registered gets out of one more input: a message it asked for and did not
      send, or all endpoints when the last module has registered and it is a network module. */
  function Gets(reg: Registration, steps: seq<Timed>, t: Timed): seq<DursMsg> {
    match t.input
    case ModulesCount(_) => []
    case Register(other) =>
      if Completes(steps, t) && INTER_NODES_NETWORK in reg.roles then
        [ModulesEndpoints(AllEndpoints(steps) + other.endpoints)]
      else []
    case Message(Event(from, eventType, content)) =>
      if eventType in reg.events && from != reg.name then [t.input.msg] else []
    case Message(Request(_, role, _, _)) => if role in reg.roles then [t.input.msg] else []
    case Message(_) => []
  }

  function GetsAll(reg: Registration, steps: seq<Timed>, i: nat): seq<DursMsg>
    requires i <= |steps|
  {
    if |steps| == i then []
    else GetsAll(reg, steps[..|steps| - 1], i) + Gets(reg, steps[..|steps| - 1], steps[|steps| - 1])
  }

  lemma OwnRegistration(b: Broadcast, boxes: Boxes, reg: Registration, past: seq<DursMsg>)
    requires Unknown(b, boxes, reg) && NoDup(reg.events) && NoDup(reg.roles) && PoolHolds(b.pool, past)
    ensures Get(BoxesAfterRegister(b, boxes, reg), reg.channel) == HandedOver(reg, past)
  {
    hide Subscribed, Replayed, Subscribers, SendToSeveral, Times, HandedOver, PoolHolds, OnlyOn, BoxesAfterRegister,
      EndpointsOf, Asks;
    RegisterSends(b, boxes, reg);
    ReplayedWhole(b, past, boxes, reg);
    SubscribedTimes(b, reg, OfRole(INTER_NODES_NETWORK), reg.name);
    var listed := Subscribers(Subscribed(b, reg), OfRole(INTER_NODES_NETWORK));
    OnceListed(reg);
    SendToSeveralOn(Replayed(b, boxes, reg), EndpointsOf(b, reg), listed, b.senders, reg.name, reg.channel);
    AppendNothing(HandedOver(reg, past));
  }

  lemma OnceListed(reg: Registration)
    ensures Asks(reg, OfRole(INTER_NODES_NETWORK)) <==> INTER_NODES_NETWORK in reg.roles
  {
  }

  /** Another module's registration: the list of endpoints, if it is the last one expected. */
  lemma OthersRegistration(b: Broadcast, boxes: Boxes, reg: Registration, other: Registration, steps: seq<Timed>,
                           now: nat)
    requires reg.name in b.senders && OnlyOn(b.senders, reg.name, reg.channel) && other.channel != reg.channel
    requires other.name != reg.name && Tracks(b, steps)
    requires Times(Subscribers(b, OfRole(INTER_NODES_NETWORK)), reg.name) ==
             if Asks(reg, OfRole(INTER_NODES_NETWORK)) then 1 else 0
    requires AfterRegister(b, other).running
    ensures Get(BoxesAfterRegister(b, boxes, other), reg.channel) ==
            Get(boxes, reg.channel) + Gets(reg, steps, Timed(Register(other), now))
  {
    hide Subscribed, Replayed, SendToSeveral, Times, OnlyOn, Admissible, Registrations, LastCount, NetworkRegistered,
      AllEndpoints, ReservedAs, Get;
    var s, sent := Declared(Subscribed(b, other), other), Replayed(b, boxes, other);
    SubscribedKeeps(b, other);
    SubscribedCounts(b, other);
    SubscribedTimes(b, other, OfRole(INTER_NODES_NETWORK), reg.name);
    ReplayedElsewhere(b, boxes, other, reg.channel);
    OnceListed(reg);
    AppendNothing(Get(boxes, reg.channel));
    assert Admissible(b.reserved, other) && AfterRegister(b, other) == Ended(s, other);
    if IsComplete(s) {
      assert INTER_NODES_NETWORK in s.roles;
      ListedFor(Subscribed(b, other), s);
      SendToSeveralOn(sent, ModulesEndpoints(s.endpoints), s.roles[INTER_NODES_NETWORK], s.senders, reg.name,
                      reg.channel);
    }
  }

  lemma ListedFor(s: Broadcast, s': Broadcast)
    requires s'.roles == s.roles && INTER_NODES_NETWORK in s.roles
    ensures Subscribers(s, OfRole(INTER_NODES_NETWORK)) == s'.roles[INTER_NODES_NETWORK]
  {
  }

  lemma MessageGets(b: Broadcast, boxes: Boxes, reg: Registration, past: seq<DursMsg>, since: seq<DursMsg>,
                    steps: seq<Timed>, msg: DursMsg, now: nat)
    requires Serving(b, boxes, reg, past, since)
    ensures Get(BoxesAfterMessage(b, boxes, msg), reg.channel) ==
            Get(boxes, reg.channel) + Gets(reg, steps, Timed(Message(msg), now))
  {
    hide Serving, SendToSeveral, Recipients, Get;
    AppendNothing(Get(boxes, reg.channel));
    if msg.Event? || msg.Request? {
      CopyIffAsked(b, boxes, reg, past, since, msg);
    }
  }

  lemma StepGets(b: Broadcast, boxes: Boxes, reg: Registration, past: seq<DursMsg>, since: seq<DursMsg>,
                 steps: seq<Timed>, t: Timed)
    requires Serving(b, boxes, reg, past, since) && Tracks(b, steps) && b.running
    requires BroadcastStep(b, t.input, t.now).running
    requires t.input.Register? ==> t.input.reg.name != reg.name && t.input.reg.channel != reg.channel
    ensures Get(BoxesStep(b, boxes, t.input, t.now), reg.channel) ==
            Get(boxes, reg.channel) + Gets(reg, steps, t)
  {
    hide Tracks, AfterRegister, BoxesAfterRegister, BoxesAfterMessage, Times, OnlyOn, Subscribers, Asks, ServedFor, Get,
      AfterMessage, Overdue;
    match t.input
    case ModulesCount(_) => AppendNothing(Get(boxes, reg.channel));
    case Register(other) => OthersRegistration(b, boxes, reg, other, steps, t.now);
    case Message(msg) => MessageGets(b, boxes, reg, past, since, steps, msg, t.now);
  }

  lemma BoxAtRegistration(steps: seq<Timed>, reg: Registration, i: nat)
    requires Chronological(steps) && RegistersAt(steps, reg, i) && ThreadAfter(steps[..i + 1]).running
    ensures Get(BoxesAfter(steps[..i + 1]), reg.channel) == HandedOver(reg, Past(steps, i))
  {
    hide Unknown, AfterRegister, BoxesAfterRegister, HandedOver, Addressed, Log, Overdue, Get;
    var front := steps[..i];
    var b := ThreadAfter(front);
    assert steps[..i + 1] == front + [steps[i]];
    LogSnoc(front, steps[i]);
    StoppedStays(b, steps[i].input, steps[i].now);
    PoolOverRun(front);
    UnknownBefore(front, reg);
    forall to: Receiver | !to.OfOne? ensures Get(b.pool, to) == Addressed(Past(steps, i), to) {
      AddressedNothing(to);
      NothingGot(to);
    }
    OwnRegistration(b, BoxesAfter(front), reg, Past(steps, i));
  }

  lemma NothingGot(to: Receiver)
    ensures Get<Receiver, DursMsg>(map[], to) == []
  {
  }

  lemma {:induction false} BoxThroughout(steps: seq<Timed>, reg: Registration, i: nat, n: nat)
    requires Chronological(steps) && RegistersAt(steps, reg, i) && i < n <= |steps|
    requires ThreadAfter(steps[..n]).running
    ensures Get(BoxesAfter(steps[..n]), reg.channel) ==
            HandedOver(reg, Past(steps, i)) + GetsAll(reg, steps[..n], i + 1)
    decreases n
  {
    hide Serving, BroadcastStep, BoxesStep, Past, ThreadAfter, BoxesAfter, Chronological, NoDup, HandedOver, Gets, Get,
      Tracks, Survives, NotYet;
    var front, last := steps[..n - 1], steps[n - 1];
    assert steps[..n] == front + [last] && steps[..n][..n - 1] == front;
    LogSnoc(front, last);
    if n == i + 1 {
      BoxAtRegistration(steps, reg, i);
      AppendNothing(HandedOver(reg, Past(steps, i)));
    } else {
      StoppedStays(ThreadAfter(front), last.input, last.now);
      BoxThroughout(steps, reg, i, n - 1);
      OthersAfter(steps, reg, i, n - 1);
      ServingThroughout(steps, reg, i, n - 1);
      RunningIff(front);
      StepGets(ThreadAfter(front), BoxesAfter(front), reg, Past(steps, i), Log(steps[i..n - 1]), front, last);
      Associate(HandedOver(reg, Past(steps, i)), GetsAll(reg, front, i + 1), Gets(reg, front, last));
    }
  }

  /** A module's box holds, and holds nothing but: for each of its subscriptions what was handled before
      it registered, unless it is lost; then, in the order in which they were handled, the messages it
      asked for and did not send; and between them, if it is a network module, the list of all endpoints
      when the last module has registered. */
  lemma WholeBox(steps: seq<Timed>, reg: Registration, i: nat)
    requires Chronological(steps) && RegistersAt(steps, reg, i) && ThreadAfter(steps).running
    ensures Get(BoxesAfter(steps), reg.channel) ==
            HandedOver(reg, if AnyLate(steps[..i]) then [] else Log(steps[..i])) + GetsAll(reg, steps, i + 1)
  {
    hide ThreadAfter, BoxesAfter, Chronological, NotYet, NoDup, HandedOver, GetsAll, Get, Log;
    assert steps[..|steps|] == steps;
    BoxThroughout(steps, reg, i, |steps|);
  }
}
