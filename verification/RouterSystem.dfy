/**
  The router as a whole: both threads running side by side, in any interleaving, on the same modules.
 */
module RouterSystem {
  import opened Sequences
  import opened Wrappers
  import opened Router
  import opened RouterDelivery
  import opened RouterResponses
  import opened RouterLife

  /** One thread takes its turn: the main thread an input, the other one whatever is next on its link. */
  datatype Turn = Arrival(t: Timed) | Relaying(now: nat)

  datatype System = System(relay: Relay, thread: Broadcast, link: seq<Input>, boxes: Boxes)

  function Turned(s: System, turn: Turn): System {
    match turn
    case Arrival(t) =>
      if !s.relay.running then s
      else System(RelayStep(s.relay, t.input, t.now), s.thread, s.link + Forwarded(t.input),
                  RelayBoxes(s.relay, s.boxes, t.input))
    case Relaying(now) =>
      if s.link == [] || !s.thread.running then s
      else System(s.relay, BroadcastStep(s.thread, s.link[0], now), s.link[1..],
                  BoxesStep(s.thread, s.boxes, s.link[0], now))
  }

  function SystemAfter(run: seq<Turn>): System {
    if run == [] then System(STARTED, IDLE, [], map[])
    else Turned(SystemAfter(run[..|run| - 1]), run[|run| - 1])
  }

  /** What the main thread has received. */
  function Arrived(run: seq<Turn>): seq<Timed> {
    if run == [] then []
    else
      var front, last := run[..|run| - 1], run[|run| - 1];
      if last.Arrival? && SystemAfter(front).relay.running then Arrived(front) + [last.t] else Arrived(front)
  }

  /** What the broadcasting thread has taken from its link. */
  function Taken(run: seq<Turn>): seq<Timed> {
    if run == [] then []
    else
      var front, last := run[..|run| - 1], run[|run| - 1];
      var s := SystemAfter(front);
      if last.Relaying? && s.link != [] && s.thread.running then Taken(front) + [Timed(s.link[0], last.now)]
      else Taken(front)
  }

  function Inputs(steps: seq<Timed>): seq<Input> {
    seq(|steps|, i requires 0 <= i < |steps| => steps[i].input)
  }

  function ForwardedAll(steps: seq<Timed>): seq<Input> {
    if steps == [] then [] else ForwardedAll(steps[..|steps| - 1]) + Forwarded(steps[|steps| - 1].input)
  }

  function Messages(inputs: seq<Input>): seq<DursMsg> {
    if inputs == [] then []
    else
      var before, last := Messages(inputs[..|inputs| - 1]), inputs[|inputs| - 1];
      if last.Message? then before + [last.msg] else before
  }

  // ---- a turn of one thread adds to a box, and only what that thread is for ----

  lemma {:induction false} SendEachAdds(boxes: Boxes, msg: DursMsg, names: seq<Name>, senders: map<Name, Channel>,
                                        c: Channel)
    ensures Get(SendEach(boxes, msg, names, senders), c) == Get(boxes, c) + Get(SendEach(map[], msg, names, senders), c)
    decreases names
  {
    if names != [] {
      var front, last := names[..|names| - 1], names[|names| - 1];
      SendEachAdds(boxes, msg, front, senders, c);
      SendOneAdds(SendEach(boxes, msg, front, senders), SendEach(map[], msg, front, senders), Get(boxes, c), msg, last,
                  senders, c);
    }
  }

  lemma SendOneAdds(boxes: Boxes, alone: Boxes, start: seq<DursMsg>, msg: DursMsg, n: Name,
                    senders: map<Name, Channel>, c: Channel)
    requires Get(boxes, c) == start + Get(alone, c)
    ensures Get(SendOne(boxes, msg, n, senders), c) == start + Get(SendOne(alone, msg, n, senders), c)
  {
  }

  lemma SendToSeveralAdds(boxes: Boxes, alone: Boxes, start: seq<DursMsg>, msg: DursMsg, names: seq<Name>,
                          senders: map<Name, Channel>, c: Channel)
    requires Get(boxes, c) == start + Get(alone, c)
    ensures Get(SendToSeveral(boxes, msg, names, senders), c) ==
            start + Get(SendToSeveral(alone, msg, names, senders), c)
  {
    hide SendEach, SendOne;
    if names != [] {
      SendEachAdds(boxes, msg, names[1..], senders, c);
      SendEachAdds(alone, msg, names[1..], senders, c);
      Associate(start, Get(alone, c), Get(SendEach(map[], msg, names[1..], senders), c));
      SendOneAdds(SendEach(boxes, msg, names[1..], senders), SendEach(alone, msg, names[1..], senders), start,
                  msg, names[0], senders, c);
    }
  }

  lemma DeliverAllAdds(boxes: Boxes, alone: Boxes, start: seq<DursMsg>, d: Channel, msgs: seq<DursMsg>, c: Channel)
    requires Get(boxes, c) == start + Get(alone, c)
    ensures Get(DeliverAll(boxes, d, msgs), c) == start + Get(DeliverAll(alone, d, msgs), c)
  {
  }

  lemma {:induction false} ReplayEventsAdds(pool: map<Receiver, seq<DursMsg>>, boxes: Boxes, alone: Boxes,
                                            start: seq<DursMsg>, reg: Registration, n: nat, c: Channel)
    requires n <= |reg.events| && Get(boxes, c) == start + Get(alone, c)
    ensures Get(ReplayEvents(pool, boxes, reg, n), c) == start + Get(ReplayEvents(pool, alone, reg, n), c)
  {
    hide Get, DeliverAll;
    if n > 0 {
      ReplayEventsAdds(pool, boxes, alone, start, reg, n - 1, c);
      DeliverAllAdds(ReplayEvents(pool, boxes, reg, n - 1), ReplayEvents(pool, alone, reg, n - 1), start, reg.channel,
                     Get(pool, OfEvent(reg.events[n - 1])), c);
    }
  }

  lemma {:induction false} ReplayRolesAdds(pool: map<Receiver, seq<DursMsg>>, boxes: Boxes, alone: Boxes,
                                           start: seq<DursMsg>, reg: Registration, n: nat, c: Channel)
    requires n <= |reg.roles| && Get(boxes, c) == start + Get(alone, c)
    ensures Get(ReplayRoles(pool, boxes, reg, n), c) == start + Get(ReplayRoles(pool, alone, reg, n), c)
  {
    hide Get, DeliverAll;
    if n > 0 {
      ReplayRolesAdds(pool, boxes, alone, start, reg, n - 1, c);
      DeliverAllAdds(ReplayRoles(pool, boxes, reg, n - 1), ReplayRoles(pool, alone, reg, n - 1), start, reg.channel,
                     Get(pool, OfRole(reg.roles[n - 1])), c);
    }
  }

  lemma NothingSent(c: Channel)
    ensures var none: Boxes := map[]; Get(none, c) == []
  {
  }

  /** What the broadcasting thread adds to a box does not depend on what is in it. */
  lemma BroadcastAdds(b: Broadcast, boxes: Boxes, input: Input, now: nat, c: Channel)
    ensures Get(BoxesStep(b, boxes, input, now), c) == Get(boxes, c) + Get(BoxesStep(b, map[], input, now), c)
  {
    hide SendToSeveral, ReplayEvents, ReplayRoles, Subscribed, Recipients, Admissible;
    AppendNothing(Get(boxes, c));
    NothingSent(c);
    if b.running && input.Register? {
      var reg := input.reg;
      ReplayEventsAdds(b.pool, boxes, map[], Get(boxes, c), reg, |reg.events|, c);
      ReplayRolesAdds(b.pool, ReplayEvents(b.pool, boxes, reg, |reg.events|),
                      ReplayEvents(b.pool, map[], reg, |reg.events|), Get(boxes, c), reg, |reg.roles|, c);
      var d := Declared(Subscribed(b, reg), reg);
      if INTER_NODES_NETWORK in d.roles {
        SendToSeveralAdds(Replayed(b, boxes, reg), Replayed(b, map[], reg), Get(boxes, c),
                          ModulesEndpoints(d.endpoints), d.roles[INTER_NODES_NETWORK], d.senders, c);
      }
    } else if b.running && input.Message? && (input.msg.Event? || input.msg.Request?) {
      SendToSeveralAdds(boxes, map[], Get(boxes, c), input.msg, Recipients(b, input.msg), b.senders, c);
    }
  }

  lemma StopsAdd(boxes: Boxes, senders: map<Name, Channel>, c: Channel)
    ensures Get(WithStops(boxes, senders), c) == Get(boxes, c) + Get(WithStops(map[], senders), c)
  {
  }

  /** What the main thread adds to a box does not depend on what is in it. */
  lemma RelayAdds(m: Relay, boxes: Boxes, input: Input, c: Channel)
    ensures Get(RelayBoxes(m, boxes, input), c) == Get(boxes, c) + Get(RelayBoxes(m, map[], input), c)
  {
    hide WithStops, DeliverAll, Deliver;
    AppendNothing(Get(boxes, c));
    NothingSent(c);
    match input
    case Register(reg) => DeliverAllAdds(boxes, map[], Get(boxes, c), reg.channel, Get(m.pool, reg.name), c);
    case Message(Stop) => StopsAdd(boxes, m.senders, c);
    case Message(Response(_, to, _, _)) => SendOneAdds(boxes, map[], Get(boxes, c), input.msg, to, m.senders, c);
    case _ =>
  }

  lemma {:induction false} ReplayEventsOnlyAdds(pool: map<Receiver, seq<DursMsg>>, boxes: Boxes, reg: Registration,
                                                n: nat, c: Channel, to: Receiver)
    requires n <= |reg.events| && Filed(pool) && to.OfOne?
    ensures Addressed(Get(ReplayEvents(pool, boxes, reg, n), c), to) == Addressed(Get(boxes, c), to)
  {
    hide Addressed, Filed, Get, DeliverAll;
    if n > 0 {
      ReplayEventsOnlyAdds(pool, boxes, reg, n - 1, c, to);
      ReplayOneOnlyAdds(pool, ReplayEvents(pool, boxes, reg, n - 1), reg.channel, OfEvent(reg.events[n - 1]), c, to);
    }
  }

  lemma {:induction false} ReplayRolesOnlyAdds(pool: map<Receiver, seq<DursMsg>>, boxes: Boxes, reg: Registration,
                                               n: nat, c: Channel, to: Receiver)
    requires n <= |reg.roles| && Filed(pool) && to.OfOne?
    ensures Addressed(Get(ReplayRoles(pool, boxes, reg, n), c), to) == Addressed(Get(boxes, c), to)
  {
    hide Addressed, Filed, Get, DeliverAll;
    if n > 0 {
      ReplayRolesOnlyAdds(pool, boxes, reg, n - 1, c, to);
      ReplayOneOnlyAdds(pool, ReplayRoles(pool, boxes, reg, n - 1), reg.channel, OfRole(reg.roles[n - 1]), c, to);
    }
  }

  lemma ReplayOneOnlyAdds(pool: map<Receiver, seq<DursMsg>>, boxes: Boxes, d: Channel, from: Receiver, c: Channel,
                          to: Receiver)
    requires Filed(pool) && from != to
    ensures Addressed(Get(DeliverAll(boxes, d, Get(pool, from)), c), to) == Addressed(Get(boxes, c), to)
  {
    hide Addressed;
    DeliverAllOn(boxes, d, Get(pool, from), c);
    if d == c {
      ReplayOne(pool, boxes, c, from, to);
      AppendNothing(Addressed(Get(boxes, c), to));
    } else {
      AppendNothing(Get(boxes, c));
    }
  }

  /** The broadcasting thread hands out no responses. */
  lemma BroadcastsNoResponse(b: Broadcast, boxes: Boxes, input: Input, now: nat, c: Channel, to: Receiver)
    requires Filed(b.pool) && to.OfOne?
    ensures Addressed(Get(BoxesStep(b, boxes, input, now), c), to) == Addressed(Get(boxes, c), to)
  {
    hide Addressed, SendToSeveral, ReplayEvents, ReplayRoles, Subscribed, Recipients, Filed, Get, BoxesAfterRegister,
      EndpointsOf, Subscribers;
    if b.running && input.Register? {
      var reg := input.reg;
      ReplayEventsOnlyAdds(b.pool, boxes, reg, |reg.events|, c, to);
      ReplayRolesOnlyAdds(b.pool, ReplayEvents(b.pool, boxes, reg, |reg.events|), reg, |reg.roles|, c, to);
      RegisterSends(b, boxes, reg);
      NotAddressed(b, reg, to);
      SendToSeveralOnlyAdds(Replayed(b, boxes, reg), EndpointsOf(b, reg),
                            Subscribers(Subscribed(b, reg), OfRole(INTER_NODES_NETWORK)), b.senders, c, to);
    } else if b.running && input.Message? && (input.msg.Event? || input.msg.Request?) {
      SendToSeveralOnlyAdds(boxes, input.msg, Recipients(b, input.msg), b.senders, c, to);
    }
  }

  lemma NotAddressed(b: Broadcast, reg: Registration, to: Receiver)
    ensures ReceiverOf(EndpointsOf(b, reg)) != Some(to)
  {
  }

  /** Everything the main thread holds back is a response. */
  ghost predicate OnlyResponses(pool: map<Name, seq<DursMsg>>) {
    forall n, i :: n in pool && 0 <= i < |pool[n]| ==> pool[n][i].Response?
  }

  /** The main thread hands out nothing but responses, and a stop at the end. */
  lemma RelaysNoBroadcast(m: Relay, boxes: Boxes, input: Input, c: Channel, to: Receiver)
    requires OnlyResponses(m.pool) && !to.OfOne?
    ensures Addressed(Get(RelayBoxes(m, boxes, input), c), to) == Addressed(Get(boxes, c), to)
  {
    hide Addressed, RelayBoxes;
    RelayAdds(m, boxes, input, c);
    AddressedConcat(Get(boxes, c), Get(RelayBoxes(m, map[], input), c), to);
    RelaysResponses(m, input, c, to);
    NothingAddressed(Get(RelayBoxes(m, map[], input), c), to);
    AppendNothing(Addressed(Get(boxes, c), to));
  }

  lemma RelaysResponses(m: Relay, input: Input, c: Channel, to: Receiver)
    requires OnlyResponses(m.pool) && !to.OfOne?
    ensures var sent := Get(RelayBoxes(m, map[], input), c);
      forall i :: 0 <= i < |sent| ==> ReceiverOf(sent[i]) != Some(to)
  {
    hide Sharing;
  }

  lemma {:induction false} FiledAlways(steps: seq<Timed>)
    ensures Filed(ThreadAfter(steps).pool)
    decreases steps
  {
    if steps == [] {
    } else {
      hide Filed, AfterRegister, AfterMessage, Overdue;
      var front, last := steps[..|steps| - 1], steps[|steps| - 1];
      FiledAlways(front);
      if last.input.Register? {
        RegisterKeepsPool(ThreadAfter(front), last.input.reg);
      } else if last.input.Message? {
        MessageFiled(ThreadAfter(front), last.input.msg, last.now);
      }
    }
  }

  lemma {:induction false} ResponsesAlways(steps: seq<Timed>)
    ensures OnlyResponses(RelayAfter(steps).pool)
    decreases steps
  {
    hide RelayStep;
    if steps != [] {
      ResponsesAlways(steps[..|steps| - 1]);
      HoldsResponses(RelayAfter(steps[..|steps| - 1]), steps[|steps| - 1].input, steps[|steps| - 1].now);
    }
  }

  lemma HoldsResponses(m: Relay, input: Input, now: nat)
    requires OnlyResponses(m.pool)
    ensures OnlyResponses(RelayStep(m, input, now).pool)
  {
  }

  // ---- the two threads do not disturb each other ----

  /** Seen through one subscription, the shared boxes are those of the thread that serves it. */
  ghost predicate Separate(s: System, arrived: seq<Timed>, taken: seq<Timed>, c: Channel, to: Receiver) {
    Addressed(Get(s.boxes, c), to) ==
    Addressed(Get(if to.OfOne? then RelayBoxesAfter(arrived) else BoxesAfter(taken), c), to)
  }

  ghost predicate Consistent(s: System, arrived: seq<Timed>, taken: seq<Timed>) {
    && s.relay == RelayAfter(arrived) && s.thread == ThreadAfter(taken)
    && Inputs(taken) + s.link == ForwardedAll(arrived)
  }

  lemma SameSuffix(box: seq<DursMsg>, other: seq<DursMsg>, more: seq<DursMsg>, to: Receiver)
    requires Addressed(box, to) == Addressed(other, to)
    ensures Addressed(box + more, to) == Addressed(other + more, to)
  {
    hide Addressed;
    AddressedConcat(box, more, to);
    AddressedConcat(other, more, to);
  }

  lemma ArrivalKeepsSeparate(s: System, arrived: seq<Timed>, taken: seq<Timed>, t: Timed, c: Channel, to: Receiver)
    requires Consistent(s, arrived, taken) && s.relay.running && Separate(s, arrived, taken, c, to)
    ensures Separate(Turned(s, Arrival(t)), arrived + [t], taken, c, to)
  {
    hide Addressed, RelayBoxes, RelayStep, OnlyResponses;
    RelaySnoc(arrived, t);
    if to.OfOne? {
      RelayAdds(s.relay, s.boxes, t.input, c);
      RelayAdds(s.relay, RelayBoxesAfter(arrived), t.input, c);
      SameSuffix(Get(s.boxes, c), Get(RelayBoxesAfter(arrived), c), Get(RelayBoxes(s.relay, map[], t.input), c), to);
    } else {
      ResponsesAlways(arrived);
      RelaysNoBroadcast(s.relay, s.boxes, t.input, c, to);
    }
  }

  lemma RelayingKeepsSeparate(s: System, arrived: seq<Timed>, taken: seq<Timed>, now: nat, c: Channel, to: Receiver)
    requires Consistent(s, arrived, taken) && s.link != [] && s.thread.running && Separate(s, arrived, taken, c, to)
    ensures Separate(Turned(s, Relaying(now)), arrived, taken + [Timed(s.link[0], now)], c, to)
  {
    hide Addressed, BoxesStep, BroadcastStep, Filed;
    LogSnoc(taken, Timed(s.link[0], now));
    if to.OfOne? {
      FiledAlways(taken);
      BroadcastsNoResponse(s.thread, s.boxes, s.link[0], now, c, to);
    } else {
      BroadcastAdds(s.thread, s.boxes, s.link[0], now, c);
      BroadcastAdds(s.thread, BoxesAfter(taken), s.link[0], now, c);
      SameSuffix(Get(s.boxes, c), Get(BoxesAfter(taken), c), Get(BoxesStep(s.thread, map[], s.link[0], now), c), to);
    }
  }

  lemma ArrivalConsistent(s: System, arrived: seq<Timed>, taken: seq<Timed>, t: Timed)
    requires Consistent(s, arrived, taken) && s.relay.running
    ensures Consistent(Turned(s, Arrival(t)), arrived + [t], taken)
  {
    hide RelayBoxes, RelayStep, Forwarded;
    RelaySnoc(arrived, t);
    assert (arrived + [t])[..|arrived|] == arrived;
    assert Inputs(taken) + (s.link + Forwarded(t.input)) == (Inputs(taken) + s.link) + Forwarded(t.input);
  }

  lemma InputsSnoc(steps: seq<Timed>, t: Timed)
    ensures Inputs(steps + [t]) == Inputs(steps) + [t.input]
  {
  }

  lemma TakeFirst<T>(before: seq<T>, link: seq<T>)
    requires link != []
    ensures (before + [link[0]]) + link[1..] == before + link
  {
  }

  lemma RelayingConsistent(s: System, arrived: seq<Timed>, taken: seq<Timed>, now: nat)
    requires Consistent(s, arrived, taken) && s.link != [] && s.thread.running
    ensures Consistent(Turned(s, Relaying(now)), arrived, taken + [Timed(s.link[0], now)])
  {
    hide BoxesStep, BroadcastStep, ForwardedAll, ThreadAfter, BoxesAfter, RelayAfter, Log, Inputs;
    LogSnoc(taken, Timed(s.link[0], now));
    InputsSnoc(taken, Timed(s.link[0], now));
    TakeFirst(Inputs(taken), s.link);
  }

  /** Whatever the interleaving, each thread is where it would be on its own, nothing put on the link
      is lost, repeated or reordered, and no thread disturbs what the other one delivers. */
  lemma {:induction false} ThreadsIndependent(run: seq<Turn>, c: Channel, to: Receiver)
    ensures Consistent(SystemAfter(run), Arrived(run), Taken(run))
    ensures Separate(SystemAfter(run), Arrived(run), Taken(run), c, to)
    decreases run
  {
    if run == [] {
    } else {
      hide Consistent, Separate;
      var front, last := run[..|run| - 1], run[|run| - 1];
      var s := SystemAfter(front);
      ThreadsIndependent(front, c, to);
      match last
      case Arrival(t) =>
        if s.relay.running {
          ArrivalConsistent(s, Arrived(front), Taken(front), t);
          ArrivalKeepsSeparate(s, Arrived(front), Taken(front), t, c, to);
        }
      case Relaying(now) =>
        if s.link != [] && s.thread.running {
          RelayingConsistent(s, Arrived(front), Taken(front), now);
          RelayingKeepsSeparate(s, Arrived(front), Taken(front), now, c, to);
        }
    }
  }

  // ---- what the link carries ----

  /** What concerns the broadcasting thread: counts, registrations, events, requests, and the stop. */
  predicate ForThread(input: Input) {
    match input
    case ModulesCount(_) => true
    case Register(_) => true
    case Message(msg) => msg.Event? || msg.Request? || msg.Stop?
  }

  function Relevant(steps: seq<Timed>): seq<Input> {
    if steps == [] then []
    else
      var before, last := Relevant(steps[..|steps| - 1]), steps[|steps| - 1].input;
      if ForThread(last) then before + [last] else before
  }

  lemma {:induction false} ForwardedIsRelevant(steps: seq<Timed>)
    ensures ForwardedAll(steps) == Relevant(steps)
    decreases steps
  {
    if steps != [] {
      ForwardedIsRelevant(steps[..|steps| - 1]);
    }
  }

  /** For every interleaving: what the broadcasting thread has taken, followed by what is still on the
      link, is exactly what concerns it of all that has arrived, in order.  The main thread has taken
      everything until a stop arrived. */
  lemma LinkLossless(run: seq<Turn>)
    ensures Inputs(Taken(run)) + SystemAfter(run).link == Relevant(Arrived(run))
    ensures SystemAfter(run).relay.running <==>
            forall i :: 0 <= i < |Arrived(run)| ==> Arrived(run)[i].input != Message(Stop)
  {
    hide SystemAfter, Arrived, Taken, Relevant, ForwardedAll, Inputs, RelayAfter, ThreadAfter;
    ThreadsIndependent(run, 0, OfEvent(0));
    ForwardedIsRelevant(Arrived(run));
    RelayRunsIff(Arrived(run));
  }

  lemma {:induction false} RelayRunsIff(steps: seq<Timed>)
    ensures RelayAfter(steps).running <==> forall i :: 0 <= i < |steps| ==> steps[i].input != Message(Stop)
    decreases steps
  {
    if steps == [] {
    } else {
      hide RelayStep;
      var front, last := steps[..|steps| - 1], steps[|steps| - 1];
      RelayRunsIff(front);
      RelayRunsOn(RelayAfter(front), last.input, last.now);
      assert forall i :: 0 <= i < |front| ==> steps[i] == front[i];
    }
  }

  lemma RelayRunsOn(m: Relay, input: Input, now: nat)
    ensures RelayStep(m, input, now).running <==> m.running && input != Message(Stop)
  {
  }

  /** For every interleaving: if the broadcasting thread has taken the right count and all registrations
      in time and in good order, a network module's among them, it is running, unless it took a stop. */
  lemma SystemStaysAlive(run: seq<Turn>)
    requires Chronological(Taken(run)) && OnTime(Taken(run)) && CountedRightly(Taken(run))
    requires AllAccepted(Taken(run)) && NetworkRegistered(Taken(run))
    requires forall i :: 0 <= i < |Taken(run)| ==> Taken(run)[i].input != Message(Stop)
    ensures SystemAfter(run).thread.running
  {
    hide SystemAfter, Taken, OnTime, CountedRightly, AllAccepted, NetworkRegistered, Chronological;
    ThreadsIndependent(run, 0, OfEvent(0));
    StaysAlive(Taken(run));
  }

  // ---- from a sender to a subscriber ----

  lemma MessagesSnoc(inputs: seq<Input>, input: Input)
    ensures Messages(inputs + [input]) == Messages(inputs) + if input.Message? then [input.msg] else []
  {
  }

  lemma {:induction false} MessagesConcat(a: seq<Input>, b: seq<Input>)
    ensures Messages(a + b) == Messages(a) + Messages(b)
    decreases b
  {
    if b == [] {
      assert a + b == a;
      AppendNothing(Messages(a));
    } else {
      hide Messages;
      var front, last := b[..|b| - 1], b[|b| - 1];
      MessagesConcat(a, front);
      MessagesSnoc(a + front, last);
      MessagesSnoc(front, last);
      Associate(Messages(a), Messages(front), if last.Message? then [last.msg] else []);
      assert a + b == (a + front) + [last] && b == front + [last];
    }
  }

  lemma {:induction false} LogIsMessages(steps: seq<Timed>)
    ensures Log(steps) == Messages(Inputs(steps))
    decreases steps
  {
    if steps == [] {
    } else {
      hide Messages;
      var front, last := steps[..|steps| - 1], steps[|steps| - 1];
      LogIsMessages(front);
      assert Inputs(steps) == Inputs(front) + [last.input];
      MessagesSnoc(Inputs(front), last.input);
    }
  }

  lemma ForwardsAllBroadcasts(input: Input, to: Receiver, name: Name)
    requires !to.OfOne?
    ensures Wanted(Messages(Forwarded(input)), to, name) == Wanted(if input.Message? then [input.msg] else [], to, name)
  {
  }

  /** Nothing that is to be broadcast is held back from the link. */
  lemma {:induction false} ForwardedIsComplete(steps: seq<Timed>, to: Receiver, name: Name)
    requires !to.OfOne?
    ensures Wanted(Messages(ForwardedAll(steps)), to, name) == Wanted(Log(steps), to, name)
    decreases steps
  {
    if steps == [] {
    } else {
      hide Messages, Wanted, Forwarded, Log;
      var front, last := steps[..|steps| - 1], steps[|steps| - 1];
      ForwardedIsComplete(front, to, name);
      assert steps == front + [last];
      LogSnoc(front, last);
      MessagesConcat(ForwardedAll(front), Forwarded(last.input));
      WantedConcat(Messages(ForwardedAll(front)), Messages(Forwarded(last.input)), to, name);
      WantedConcat(Log(front), if last.input.Message? then [last.input.msg] else [], to, name);
      ForwardsAllBroadcasts(last.input, to, name);
    }
  }

  /** What was taken for a subscription, followed by what is still on the link, is what arrived for it. */
  lemma TakenThenLinked(run: seq<Turn>, to: Receiver, name: Name)
    requires !to.OfOne?
    ensures Wanted(Log(Taken(run)), to, name) + Wanted(Messages(SystemAfter(run).link), to, name) ==
            Wanted(Log(Arrived(run)), to, name)
  {
    hide Wanted, Messages, Log, SystemAfter, Arrived, Taken, ThreadAfter, BoxesAfter, Inputs, ForwardedAll;
    var s, taken := SystemAfter(run), Taken(run);
    ThreadsIndependent(run, 0, to);
    LogIsMessages(taken);
    MessagesConcat(Inputs(taken), s.link);
    WantedConcat(Messages(Inputs(taken)), Messages(s.link), to, name);
    ForwardedIsComplete(Arrived(run), to, name);
  }

  /** For every interleaving: of each of its subscriptions a module has received, exactly once and in
      order, what was taken before it registered, unless it is lost, and what others sent since. */
  lemma DeliveredInSystem(run: seq<Turn>, reg: Registration, i: nat, to: Receiver)
    requires Chronological(Taken(run)) && RegistersAt(Taken(run), reg, i) && SystemAfter(run).thread.running &&
             Asks(reg, to)
    ensures var taken := Taken(run);
      Addressed(Get(SystemAfter(run).boxes, reg.channel), to) ==
      (if AnyLate(taken[..i]) then [] else Addressed(Log(taken[..i]), to)) + Wanted(Log(taken[i..]), to, reg.name)
  {
    hide Wanted, Addressed, Log, Chronological, NotYet, NoDup, AnyLate, SystemAfter, Arrived, Taken, ThreadAfter,
         BoxesAfter;
    ThreadsIndependent(run, reg.channel, to);
    BroadcastDelivery(Taken(run), reg, i, to);
  }

  /** From end to end, for every interleaving: what a registered module has received for one of its
      subscriptions from others, followed by what is still on the link for it, is everything they sent to
      the router for it, in the order the router received it, if and only if nothing late, or nothing of
      that kind, was taken before the module registered. */
  lemma EndToEndIff(run: seq<Turn>, reg: Registration, i: nat, to: Receiver)
    requires Chronological(Taken(run)) && RegistersAt(Taken(run), reg, i) && SystemAfter(run).thread.running &&
             Asks(reg, to)
    ensures var s, taken := SystemAfter(run), Taken(run);
      Wanted(Get(s.boxes, reg.channel), to, reg.name) + Wanted(Messages(s.link), to, reg.name) ==
      Wanted(Log(Arrived(run)), to, reg.name) <==>
      !AnyLate(taken[..i]) || Wanted(Log(taken[..i]), to, reg.name) == []
  {
    hide Wanted, Addressed, Messages, Log, Chronological, NotYet, NoDup, AnyLate, SystemAfter, Arrived, Taken,
         ThreadAfter, BoxesAfter;
    var s, taken := SystemAfter(run), Taken(run);
    ThreadsIndependent(run, reg.channel, to);
    NothingMissedIff(taken, reg, i, to);
    WantedOfAddressed(Get(s.boxes, reg.channel), to, reg.name);
    WantedOfAddressed(Get(BoxesAfter(taken), reg.channel), to, reg.name);
    TakenThenLinked(run, to, reg.name);
    SamePrefix(Wanted(Get(s.boxes, reg.channel), to, reg.name), Wanted(Log(taken), to, reg.name),
               Wanted(Messages(s.link), to, reg.name));
  }

  /** Its own events among it: the moment of registration is invisible, for every interleaving, if and
      only if nothing was lost and no event of its own was replayed. */
  lemma InvisibleInSystemIff(run: seq<Turn>, reg: Registration, i: nat, to: Receiver)
    requires Chronological(Taken(run)) && RegistersAt(Taken(run), reg, i) && SystemAfter(run).thread.running &&
             Asks(reg, to)
    ensures var s, taken := SystemAfter(run), Taken(run);
      Addressed(Get(s.boxes, reg.channel), to) + Wanted(Messages(s.link), to, reg.name) ==
      Wanted(Log(Arrived(run)), to, reg.name) <==>
      if AnyLate(taken[..i]) then Wanted(Log(taken[..i]), to, reg.name) == []
      else Own(Log(taken[..i]), to, reg.name) == []
  {
    hide Wanted, Addressed, Messages, Log, Chronological, NotYet, NoDup, AnyLate, SystemAfter, Arrived, Taken,
         ThreadAfter, BoxesAfter, Own;
    var s, taken := SystemAfter(run), Taken(run);
    ThreadsIndependent(run, reg.channel, to);
    RegistrationInvisibleIff(taken, reg, i, to);
    TakenThenLinked(run, to, reg.name);
    SamePrefix(Addressed(Get(s.boxes, reg.channel), to), Wanted(Log(taken), to, reg.name),
               Wanted(Messages(s.link), to, reg.name));
  }

  /** For every interleaving, a module has received all responses sent to it, in order, if and only if no
      stray response came before it registered, or none to it. */
  lemma ResponsesEndToEndIff(run: seq<Turn>, reg: Registration, i: nat)
    requires Chronological(Arrived(run)) && RegistersOnceAt(Arrived(run), reg, i) && SystemAfter(run).relay.running
    ensures var arrived, box := Arrived(run), Get(SystemAfter(run).boxes, reg.channel);
      && Addressed(box, OfOne(reg.name)) == Addressed(Answers(arrived, i), OfOne(reg.name))
      && (Addressed(box, OfOne(reg.name)) == Addressed(Log(arrived), OfOne(reg.name)) <==>
          !AnyStray(arrived[..i]) || Addressed(Log(arrived[..i]), OfOne(reg.name)) == [])
  {
    hide Addressed, Log, Chronological, NotYet, AnyStray, SystemAfter, Arrived, Taken, RelayAfter, RelayBoxesAfter,
         Answers;
    var arrived := Arrived(run);
    ThreadsIndependent(run, reg.channel, OfOne(reg.name));
    ResponseDelivery(arrived, reg, i);
    NoResponseLostIff(arrived, reg, i);
    AddressedTwice(Answers(arrived, i), OfOne(reg.name));
  }

  lemma {:induction false} AddressedTwice(msgs: seq<DursMsg>, to: Receiver)
    ensures Addressed(Addressed(msgs, to), to) == Addressed(msgs, to)
    decreases msgs
  {
    if msgs != [] {
      var front, last := msgs[..|msgs| - 1], msgs[|msgs| - 1];
      AddressedTwice(front, to);
      AddressedSnoc(Addressed(front, to), last, to);
    }
  }

  // ---- endpoints and the APIs they belong to ----

  /** The registration that completes the count tells every network module that had registered before
      about all endpoints; the module that completes the count, network module or not, is not told. */
  lemma EndpointsReachAllButTheLast(b: Broadcast, boxes: Boxes, reg: Registration, name: Name, c: Channel)
    requires Admissible(b.reserved, reg) && IsComplete(Subscribed(b, reg)) &&
             INTER_NODES_NETWORK in Subscribed(b, reg).roles
    requires OnlyOn(b.senders, name, c) &&
             Times(Subscribers(Subscribed(b, reg), OfRole(INTER_NODES_NETWORK)), name) == 1
    ensures Get(BoxesAfterRegister(b, boxes, reg), c) ==
            Get(Replayed(b, boxes, reg), c) +
            if name in b.senders then [ModulesEndpoints(b.endpoints + reg.endpoints)] else []
  {
    hide SendToSeveral, Replayed, Subscribed, Times, OnlyOn, Admissible;
    var s := Subscribed(b, reg);
    SubscribedKeeps(b, reg);
    SendToSeveralOn(Replayed(b, boxes, reg), ModulesEndpoints(b.endpoints + reg.endpoints),
                    s.roles[INTER_NODES_NETWORK], s.senders, name, c);
  }

  /** No version of an API is reserved by two modules. */
  ghost predicate Apart(reserved: map<Name, seq<ApiPart>>) {
    forall m, n, i, j ::
      m in reserved && n in reserved && m != n && 0 <= i < |reserved[m]| && 0 <= j < |reserved[n]| ==>
      !UnionExist(reserved[m][i], reserved[n][j])
  }

  lemma ReservingKeepsApart(reserved: map<Name, seq<ApiPart>>, name: Name, apis: seq<ApiPart>)
    requires Apart(reserved) && Reservable(reserved, apis)
    ensures Apart(reserved[name := apis])
  {
    var after := reserved[name := apis];
    forall m, n, i, j | m in after && n in after && m != n && 0 <= i < |after[m]| && 0 <= j < |after[n]|
      ensures !UnionExist(after[m][i], after[n][j])
    {
      if m == name {
        assert AllFree(apis, reserved[n]) && PartFree(apis[i], reserved[n]);
      } else if n == name {
        assert AllFree(apis, reserved[m]) && PartFree(apis[j], reserved[m]);
      }
    }
  }

  lemma RegisteringReserves(b: Broadcast, reg: Registration)
    ensures var b' := AfterRegister(b, reg);
      b'.reserved == if Admissible(b.reserved, reg) then b.reserved[reg.name := reg.apis] else b.reserved
  {
    SubscribedKeeps(b, reg);
    EndingReserves(Subscribed(b, reg), reg);
    hide Subscribed, Admissible, Ended, Declared;
  }

  lemma EndingReserves(b: Broadcast, reg: Registration)
    ensures Ended(Declared(b, reg), reg).reserved == b.reserved[reg.name := reg.apis]
  {
  }

  /** Over every run, whatever modules ask for, no version of an API is ever reserved by two of them. */
  lemma {:induction false} ReservationsApart(steps: seq<Timed>)
    ensures Apart(ThreadAfter(steps).reserved)
    decreases steps
  {
    if steps == [] {
    } else {
      hide Apart, AfterRegister, AfterMessage, Overdue, Reservable, AllDeclared;
      var front, last := steps[..|steps| - 1], steps[|steps| - 1];
      var b := ThreadAfter(front);
      ReservationsApart(front);
      if last.input.Register? {
        RegisteringReserves(b, last.input.reg);
        if Admissible(b.reserved, last.input.reg) {
          ReservingKeepsApart(b.reserved, last.input.reg.name, last.input.reg.apis);
        }
      } else if last.input.Message? {
        MessagesReserveNothing(b, last.input.msg, last.now);
      }
    }
  }

  lemma MessagesReserveNothing(b: Broadcast, msg: DursMsg, now: nat)
    ensures AfterMessage(b, msg, now).reserved == b.reserved
  {
  }
}
