/**
  The message router: one thread hands responses to the module they are for, another one broadcasts
  events and requests to the modules that subscribed to them.  Both keep early messages in a pool
  for modules that register late.
 */
module Router {
  import opened Wrappers

  type Name = string
  type EventType = nat
  type Role = nat
  type Channel = nat

  const MAX_REGISTRATION_DELAY: nat := 20
  const INTER_NODES_NETWORK: Role := 6

  datatype DursMsg =
    | Event(eventFrom: Name, eventType: EventType, eventContent: nat)
    | Request(reqFrom: Name, reqTo: Role, reqId: nat, reqContent: nat)
    | Response(resFrom: Name, resTo: Name, resId: nat, resContent: nat)
    | Stop
    | SaveNewModuleConf(owner: Name, conf: nat)
    | ModulesEndpoints(endpoints: seq<Endpoint>)

  /** Some versions of an API. */
  datatype ApiPart = ApiPart(name: nat, versions: set<nat>)

  datatype Endpoint = Endpoint(api: nat, version: nat, raw: nat)

  /** What a message is addressed to. */
  datatype Receiver = OfRole(role: Role) | OfEvent(event: EventType) | OfOne(name: Name)

  datatype Registration = Registration(
    name: Name, channel: Channel, events: seq<EventType>, roles: seq<Role>,
    apis: seq<ApiPart>, endpoints: seq<Endpoint>)

  datatype Input = ModulesCount(count: nat) | Register(reg: Registration) | Message(msg: DursMsg)

  function ReceiverOf(msg: DursMsg): Option<Receiver> {
    match msg
    case Event(_, eventType, _) => Some(OfEvent(eventType))
    case Request(_, role, _, _) => Some(OfRole(role))
    case Response(_, name, _, _) => Some(OfOne(name))
    case _ => None
  }

  // ---- reservations of APIs ----

  predicate UnionExist(a: ApiPart, b: ApiPart) {
    a.name == b.name && a.versions * b.versions != {}
  }

  predicate Contains(part: ApiPart, ep: Endpoint) {
    part.name == ep.api && ep.version in part.versions
  }

  predicate PartFree(part: ApiPart, others: seq<ApiPart>) {
    forall i :: 0 <= i < |others| ==> !UnionExist(part, others[i])
  }

  predicate AllFree(apis: seq<ApiPart>, others: seq<ApiPart>) {
    forall i :: 0 <= i < |apis| ==> PartFree(apis[i], others)
  }

  predicate Reservable(reserved: map<Name, seq<ApiPart>>, apis: seq<ApiPart>) {
    forall n :: n in reserved ==> AllFree(apis, reserved[n])
  }

  predicate DeclaredBy(apis: seq<ApiPart>, ep: Endpoint) {
    exists i :: 0 <= i < |apis| && Contains(apis[i], ep)
  }

  predicate AllDeclared(apis: seq<ApiPart>, endpoints: seq<Endpoint>) {
    forall i :: 0 <= i < |endpoints| ==> DeclaredBy(apis, endpoints[i])
  }

  /** No version of an API is reserved twice, and no endpoint is declared without a reservation. */
  predicate Admissible(reserved: map<Name, seq<ApiPart>>, reg: Registration) {
    Reservable(reserved, reg.apis) && AllDeclared(reg.apis, reg.endpoints)
  }

  function Get<K, V>(m: map<K, seq<V>>, k: K): seq<V> {
    if k in m then m[k] else []
  }

  // ---- channels ----

  /** What has been sent on every channel so far. */
  type Boxes = map<Channel, seq<DursMsg>>

  function Deliver(boxes: Boxes, c: Channel, msgs: seq<DursMsg>): Boxes {
    boxes[c := Get(boxes, c) + msgs]
  }

  class Channels {
    var boxes: Boxes

    method Send(c: Channel, msg: DursMsg)
      modifies this
      ensures boxes == Deliver(old(boxes), c, [msg])
    {
      boxes := boxes[c := Get(boxes, c) + [msg]];
    }

    method SendAll(c: Channel, msgs: seq<DursMsg>)
      modifies this
      ensures boxes == if msgs == [] then old(boxes) else Deliver(old(boxes), c, msgs)
    {
      ghost var before := boxes;
      for i := 0 to |msgs|
        invariant boxes == if i == 0 then before else Deliver(before, c, msgs[..i])
      {
        assert msgs[..i + 1] == msgs[..i] + [msgs[i]];
        Send(c, msgs[i]);
        DeliverTwice(before, c, msgs[..i], msgs[i]);
      }
      assert msgs[..|msgs|] == msgs;
    }
  }

  lemma DeliverTwice(boxes: Boxes, c: Channel, msgs: seq<DursMsg>, msg: DursMsg)
    ensures Deliver(Deliver(boxes, c, msgs), c, [msg]) == Deliver(boxes, c, msgs + [msg])
    ensures Deliver(boxes, c, [] + [msg]) == Deliver(boxes, c, [msg])
  {
    assert [] + [msg] == [msg];
    assert Get(boxes, c) + (msgs + [msg]) == (Get(boxes, c) + msgs) + [msg];
  }

  function DeliverAll(boxes: Boxes, c: Channel, msgs: seq<DursMsg>): Boxes {
    if msgs == [] then boxes else Deliver(boxes, c, msgs)
  }

  function SendOne(boxes: Boxes, msg: DursMsg, name: Name, senders: map<Name, Channel>): Boxes {
    if name in senders then Deliver(boxes, senders[name], [msg]) else boxes
  }

  function SendEach(boxes: Boxes, msg: DursMsg, names: seq<Name>, senders: map<Name, Channel>): Boxes {
    if names == [] then boxes
    else SendOne(SendEach(boxes, msg, names[..|names| - 1], senders), msg, names[|names| - 1], senders)
  }

  /** Copies go to all receivers but the first, then the message itself goes to the first. */
  function SendToSeveral(boxes: Boxes, msg: DursMsg, names: seq<Name>, senders: map<Name, Channel>): Boxes {
    if names == [] then boxes
    else SendOne(SendEach(boxes, msg, names[1..], senders), msg, names[0], senders)
  }

  function Others(names: seq<Name>, sender: Name): seq<Name> {
    if names == [] then []
    else
      var rest, last := Others(names[..|names| - 1], sender), names[|names| - 1];
      if last != sender then rest + [last] else rest
  }

  // ---- the broadcasting thread ----

  datatype Broadcast = Broadcast(
    senders: map<Name, Channel>,
    pool: map<Receiver, seq<DursMsg>>,
    subscriptions: map<EventType, seq<Name>>,
    roles: map<Role, seq<Name>>,
    registered: nat,
    expected: Option<nat>,
    reserved: map<Name, seq<ApiPart>>,
    endpoints: seq<Endpoint>,
    running: bool)

  const IDLE := Broadcast(map[], map[], map[], map[], 0, None, map[], [], true)

  function StoreInPool(pool: map<Receiver, seq<DursMsg>>, msg: DursMsg, now: nat): map<Receiver, seq<DursMsg>> {
    if now < MAX_REGISTRATION_DELAY then
      match ReceiverOf(msg)
      case Some(receiver) => pool[receiver := Get(pool, receiver) + [msg]]
      case None => pool
    else map[]
  }

  function AddEvents(b: Broadcast, reg: Registration, n: nat): Broadcast
    requires n <= |reg.events|
  {
    if n == 0 then b
    else
      var before, e := AddEvents(b, reg, n - 1), reg.events[n - 1];
      before.(subscriptions := before.subscriptions[e := Get(before.subscriptions, e) + [reg.name]])
  }

  function ReplayEvents(pool: map<Receiver, seq<DursMsg>>, boxes: Boxes, reg: Registration, n: nat): Boxes
    requires n <= |reg.events|
  {
    if n == 0 then boxes
    else DeliverAll(ReplayEvents(pool, boxes, reg, n - 1), reg.channel, Get(pool, OfEvent(reg.events[n - 1])))
  }

  function AddRoles(b: Broadcast, reg: Registration, n: nat): Broadcast
    requires n <= |reg.roles|
  {
    if n == 0 then b
    else
      var before, r := AddRoles(b, reg, n - 1), reg.roles[n - 1];
      before.(roles := before.roles[r := Get(before.roles, r) + [reg.name]])
  }

  function ReplayRoles(pool: map<Receiver, seq<DursMsg>>, boxes: Boxes, reg: Registration, n: nat): Boxes
    requires n <= |reg.roles|
  {
    if n == 0 then boxes
    else DeliverAll(ReplayRoles(pool, boxes, reg, n - 1), reg.channel, Get(pool, OfRole(reg.roles[n - 1])))
  }

  /** The count of registrations and the lists of subscribers. */
  function Subscribed(b: Broadcast, reg: Registration): Broadcast {
    AddRoles(AddEvents(b.(registered := b.registered + 1), reg, |reg.events|), reg, |reg.roles|)
  }

  function Declared(b: Broadcast, reg: Registration): Broadcast {
    b.(reserved := b.reserved[reg.name := reg.apis], endpoints := b.endpoints + reg.endpoints)
  }

  function Replayed(b: Broadcast, boxes: Boxes, reg: Registration): Boxes {
    ReplayRoles(b.pool, ReplayEvents(b.pool, boxes, reg, |reg.events|), reg, |reg.roles|)
  }

  /** The registration was the last one that is expected. */
  predicate IsComplete(b: Broadcast) {
    b.expected == Some(b.registered)
  }

  /** When all have registered, there must be a network module. */
  function Ended(b: Broadcast, reg: Registration): Broadcast {
    if IsComplete(b) && INTER_NODES_NETWORK !in b.roles then b.(running := false)
    else b.(senders := b.senders[reg.name := reg.channel])
  }

  /** When all have registered, the network modules learn all endpoints. */
  function BoxesEnded(b: Broadcast, boxes: Boxes): Boxes {
    if IsComplete(b) && INTER_NODES_NETWORK in b.roles then
      SendToSeveral(boxes, ModulesEndpoints(b.endpoints), b.roles[INTER_NODES_NETWORK], b.senders)
    else boxes
  }

  function AfterRegister(b: Broadcast, reg: Registration): Broadcast {
    if Admissible(b.reserved, reg) then Ended(Declared(Subscribed(b, reg), reg), reg)
    else Subscribed(b, reg).(running := false)
  }

  function BoxesAfterRegister(b: Broadcast, boxes: Boxes, reg: Registration): Boxes {
    if Admissible(b.reserved, reg) then BoxesEnded(Declared(Subscribed(b, reg), reg), Replayed(b, boxes, reg))
    else Replayed(b, boxes, reg)
  }

  function Recipients(b: Broadcast, msg: DursMsg): seq<Name> {
    match msg
    case Event(from, eventType, _) => Others(Get(b.subscriptions, eventType), from)
    case Request(_, role, _, _) => Get(b.roles, role)
    case _ => []
  }

  function AfterMessage(b: Broadcast, msg: DursMsg, now: nat): Broadcast {
    if msg.Stop? then b.(running := false)
    else if msg.Event? || msg.Request? then b.(pool := StoreInPool(b.pool, msg, now))
    else b
  }

  function BoxesAfterMessage(b: Broadcast, boxes: Boxes, msg: DursMsg): Boxes {
    if msg.Event? || msg.Request? then SendToSeveral(boxes, msg, Recipients(b, msg), b.senders) else boxes
  }

  function Handled(b: Broadcast, input: Input, now: nat): Broadcast {
    match input
    case ModulesCount(n) => b.(expected := Some(n))
    case Register(reg) => AfterRegister(b, reg)
    case Message(msg) => AfterMessage(b, msg, now)
  }

  /** The thread gives up when the delay is over and modules are still missing. */
  predicate Overdue(b: Broadcast, now: nat) {
    (b.expected.None? || b.registered < b.expected.value) && now > MAX_REGISTRATION_DELAY
  }

  function BroadcastStep(b: Broadcast, input: Input, now: nat): Broadcast {
    if !b.running then b
    else
      var h := Handled(b, input, now);
      if h.running && Overdue(h, now) then h.(running := false) else h
  }

  function BoxesStep(b: Broadcast, boxes: Boxes, input: Input, now: nat): Boxes {
    if !b.running then boxes
    else
      match input
      case ModulesCount(_) => boxes
      case Register(reg) => BoxesAfterRegister(b, boxes, reg)
      case Message(msg) => BoxesAfterMessage(b, boxes, msg)
  }

  class BroadcastingThread {
    var senders: map<Name, Channel>
    var pool: map<Receiver, seq<DursMsg>>
    var subscriptions: map<EventType, seq<Name>>
    var roles: map<Role, seq<Name>>
    var registered: nat
    var expected: Option<nat>
    var reserved: map<Name, seq<ApiPart>>
    var endpoints: seq<Endpoint>
    var running: bool
    const channels: Channels

    constructor (channels: Channels)
      ensures Value() == IDLE && this.channels == channels
    {
      this.channels := channels;
      senders, pool, subscriptions, roles := map[], map[], map[], map[];
      registered, expected, reserved, endpoints, running := 0, None, map[], [], true;
    }

    ghost function Value(): Broadcast
      reads this
    {
      Broadcast(senders, pool, subscriptions, roles, registered, expected, reserved, endpoints, running)
    }

    method SendMsgToSeveralReceivers(msg: DursMsg, receivers: seq<Name>)
      modifies channels
      ensures channels.boxes == SendToSeveral(old(channels.boxes), msg, receivers, senders)
    {
      ghost var before := channels.boxes;
      if receivers != [] {
        var others := receivers[1..];
        for i := 0 to |others|
          invariant channels.boxes == SendEach(before, msg, others[..i], senders)
        {
          assert others[..i + 1][..i] == others[..i];
          if others[i] in senders {
            channels.Send(senders[others[i]], msg);
          }
        }
        assert others[..|others|] == others;
        if receivers[0] in senders {
          channels.Send(senders[receivers[0]], msg);
        }
      }
    }

    method StoreMsgInPool(msg: DursMsg, now: nat)
      modifies this
      ensures Value() == old(Value()).(pool := StoreInPool(old(pool), msg, now))
    {
      if now < MAX_REGISTRATION_DELAY {
        match ReceiverOf(msg)
        case Some(receiver) => pool := pool[receiver := Get(pool, receiver) + [msg]];
        case None =>
      } else if pool != map[] {
        pool := map[];
      }
    }

    method RegisterEvents(reg: Registration)
      modifies this, channels
      ensures Value() == AddEvents(old(Value()), reg, |reg.events|)
      ensures channels.boxes == ReplayEvents(old(pool), old(channels.boxes), reg, |reg.events|)
    {
      ghost var start, boxes := Value(), channels.boxes;
      for i := 0 to |reg.events|
        invariant Value() == AddEvents(start, reg, i) && pool == start.pool
        invariant channels.boxes == ReplayEvents(start.pool, boxes, reg, i)
      {
        var event := reg.events[i];
        channels.SendAll(reg.channel, Get(pool, OfEvent(event)));
        subscriptions := subscriptions[event := Get(subscriptions, event) + [reg.name]];
      }
    }

    method RegisterRoles(reg: Registration)
      modifies this, channels
      ensures Value() == AddRoles(old(Value()), reg, |reg.roles|)
      ensures channels.boxes == ReplayRoles(old(pool), old(channels.boxes), reg, |reg.roles|)
    {
      ghost var start, boxes := Value(), channels.boxes;
      for i := 0 to |reg.roles|
        invariant Value() == AddRoles(start, reg, i) && pool == start.pool
        invariant channels.boxes == ReplayRoles(start.pool, boxes, reg, i)
      {
        var role := reg.roles[i];
        channels.SendAll(reg.channel, Get(pool, OfRole(role)));
        roles := roles[role := Get(roles, role) + [reg.name]];
      }
    }

    /** Subscriptions, and what is pooled for them. */
    method Subscribe(reg: Registration)
      modifies this, channels
      ensures Value() == Subscribed(old(Value()), reg)
      ensures channels.boxes == Replayed(old(Value()), old(channels.boxes), reg)
    {
      hide AddEvents, AddRoles, ReplayEvents, ReplayRoles;
      ghost var start := Value();
      registered := registered + 1;
      RegisterEvents(reg);
      PoolUntouched(start.(registered := start.registered + 1), reg, |reg.events|);
      RegisterRoles(reg);
    }

    method CheckReservations(apis: seq<ApiPart>) returns (free: bool)
      ensures free <==> Reservable(reserved, apis)
    {
      var names := reserved.Keys;
      free := true;
      while names != {}
        invariant names <= reserved.Keys
        invariant free <==> forall n :: n in reserved && n !in names ==> AllFree(apis, reserved[n])
      {
        var name :| name in names;
        var apart := PartsApart(apis, reserved[name]);
        free := free && apart;
        names := names - {name};
      }
    }

    /** The end of a registration: is it the last one that is expected? */
    method EndRegistration(reg: Registration)
      modifies this, channels
      ensures Value() == Ended(old(Value()), reg)
      ensures channels.boxes == BoxesEnded(old(Value()), old(channels.boxes))
    {
      hide SendToSeveral;
      if expected == Some(registered) {
        if INTER_NODES_NETWORK !in roles {
          running := false;
          return;
        }
        SendMsgToSeveralReceivers(ModulesEndpoints(endpoints), roles[INTER_NODES_NETWORK]);
      }
      senders := senders[reg.name := reg.channel];
    }

    method RegisterModule(reg: Registration)
      modifies this, channels
      ensures Value() == AfterRegister(old(Value()), reg)
      ensures channels.boxes == BoxesAfterRegister(old(Value()), old(channels.boxes), reg)
    {
      ghost var before := Value();
      Subscribe(reg);
      SubscribedKeeps(before, reg);
      hide Ended, BoxesEnded, Subscribed, Replayed, Admissible, Reservable, AllDeclared;
      var free := CheckReservations(reg.apis);
      var declared := EndpointsDeclared(reg.apis, reg.endpoints);
      AdmissibleIs(reserved, reg);
      if !free || !declared {
        running := false;
        return;
      }
      reserved := reserved[reg.name := reg.apis];
      endpoints := endpoints + reg.endpoints;
      EndRegistration(reg);
    }

    /** One turn of the loop, on a message received `now` seconds after the start. */
    method Receive(input: Input, now: nat)
      requires running
      modifies this, channels
      ensures Value() == BroadcastStep(old(Value()), input, now)
      ensures channels.boxes == BoxesStep(old(Value()), old(channels.boxes), input, now)
    {
      hide AfterRegister, BoxesAfterRegister, SendToSeveral, StoreInPool, Others;
      match input {
        case ModulesCount(n) => expected := Some(n);
        case Register(reg) => RegisterModule(reg);
        case Message(msg) =>
          match msg {
            case Stop => running := false;
            case Event(from, eventType, _) =>
              StoreMsgInPool(msg, now);
              var receivers := ListOthers(Get(subscriptions, eventType), from);
              SendMsgToSeveralReceivers(msg, receivers);
            case Request(_, role, _, _) =>
              StoreMsgInPool(msg, now);
              SendMsgToSeveralReceivers(msg, Get(roles, role));
            case _ =>
          }
      }
      if running && (expected.None? || registered < expected.value) && now > MAX_REGISTRATION_DELAY {
        running := false;
      }
    }
  }

  method PartsApart(apis: seq<ApiPart>, others: seq<ApiPart>) returns (apart: bool)
    ensures apart <==> AllFree(apis, others)
  {
    apart := true;
    for i := 0 to |others|
      invariant apart <==> forall j, k :: 0 <= j < |apis| && 0 <= k < i ==> !UnionExist(apis[j], others[k])
    {
      for l := 0 to |apis|
        invariant apart <==>
          && (forall j, k :: 0 <= j < |apis| && 0 <= k < i ==> !UnionExist(apis[j], others[k]))
          && (forall j :: 0 <= j < l ==> !UnionExist(apis[j], others[i]))
      {
        if UnionExist(apis[l], others[i]) {
          apart := false;
        }
      }
    }
    AllFreeIs(apis, others);
  }

  lemma AllFreeIs(apis: seq<ApiPart>, others: seq<ApiPart>)
    ensures AllFree(apis, others) <==>
            forall j, k :: 0 <= j < |apis| && 0 <= k < |others| ==> !UnionExist(apis[j], others[k])
  {
    if AllFree(apis, others) {
      forall j, k | 0 <= j < |apis| && 0 <= k < |others| ensures !UnionExist(apis[j], others[k]) {
        assert PartFree(apis[j], others);
      }
    }
  }

  method EndpointsDeclared(apis: seq<ApiPart>, endpoints: seq<Endpoint>) returns (declared: bool)
    ensures declared <==> AllDeclared(apis, endpoints)
  {
    declared := true;
    for i := 0 to |endpoints|
      invariant declared <==> AllDeclared(apis, endpoints[..i])
    {
      var count := 0;
      for j := 0 to |apis|
        invariant count > 0 <==> DeclaredBy(apis[..j], endpoints[i])
      {
        DeclaredBySnoc(apis, j, endpoints[i]);
        if Contains(apis[j], endpoints[i]) {
          count := count + 1;
        }
      }
      assert apis[..|apis|] == apis;
      AllDeclaredSnoc(apis, endpoints, i);
      if count == 0 {
        declared := false;
      }
    }
    assert endpoints[..|endpoints|] == endpoints;
  }

  lemma DeclaredBySnoc(apis: seq<ApiPart>, j: nat, ep: Endpoint)
    requires j < |apis|
    ensures DeclaredBy(apis[..j + 1], ep) <==> DeclaredBy(apis[..j], ep) || Contains(apis[j], ep)
  {
    if DeclaredBy(apis[..j], ep) {
      var i :| 0 <= i < j && Contains(apis[..j][i], ep);
      assert apis[..j + 1][i] == apis[i];
    }
    assert apis[..j + 1][j] == apis[j];
    if DeclaredBy(apis[..j + 1], ep) && !Contains(apis[j], ep) {
      var i :| 0 <= i < j + 1 && Contains(apis[..j + 1][i], ep);
      assert apis[..j][i] == apis[i];
    }
  }

  lemma AllDeclaredSnoc(apis: seq<ApiPart>, endpoints: seq<Endpoint>, i: nat)
    requires i < |endpoints|
    ensures AllDeclared(apis, endpoints[..i + 1]) <==>
            AllDeclared(apis, endpoints[..i]) && DeclaredBy(apis, endpoints[i])
  {
    hide DeclaredBy;
    if AllDeclared(apis, endpoints[..i + 1]) {
      assert endpoints[..i + 1][i] == endpoints[i];
      forall k | 0 <= k < i ensures DeclaredBy(apis, endpoints[..i][k]) {
        assert endpoints[..i + 1][k] == endpoints[..i][k];
      }
    }
  }

  lemma AdmissibleIs(reserved: map<Name, seq<ApiPart>>, reg: Registration)
    ensures Admissible(reserved, reg) <==> Reservable(reserved, reg.apis) && AllDeclared(reg.apis, reg.endpoints)
  {
  }

  /** Subscribing leaves everything but the count and the lists of subscribers alone. */
  lemma SubscribedKeeps(b: Broadcast, reg: Registration)
    ensures var s := Subscribed(b, reg);
      && s.reserved == b.reserved && s.endpoints == b.endpoints && s.senders == b.senders && s.pool == b.pool
      && s.running == b.running && s.expected == b.expected
  {
    var counted := b.(registered := b.registered + 1);
    PoolUntouched(counted, reg, |reg.events|);
    SendersUntouched(AddEvents(counted, reg, |reg.events|), reg, |reg.roles|);
  }

  method ListOthers(names: seq<Name>, sender: Name) returns (others: seq<Name>)
    ensures others == Others(names, sender)
  {
    others := [];
    for i := 0 to |names|
      invariant others == Others(names[..i], sender)
    {
      assert names[..i + 1][..i] == names[..i];
      if names[i] != sender {
        others := others + [names[i]];
      }
    }
    assert names[..|names|] == names;
  }

  lemma {:induction false} PoolUntouched(b: Broadcast, reg: Registration, n: nat)
    requires n <= |reg.events|
    ensures AddEvents(b, reg, n) == b.(subscriptions := AddEvents(b, reg, n).subscriptions)
  {
    if n > 0 {
      PoolUntouched(b, reg, n - 1);
    }
  }

  lemma {:induction false} SendersUntouched(b: Broadcast, reg: Registration, n: nat)
    requires n <= |reg.roles|
    ensures AddRoles(b, reg, n) == b.(roles := AddRoles(b, reg, n).roles)
  {
    if n > 0 {
      SendersUntouched(b, reg, n - 1);
    }
  }

  // ---- the main thread of the router ----

  datatype Relay = Relay(senders: map<Name, Channel>, pool: map<Name, seq<DursMsg>>, running: bool)

  const STARTED := Relay(map[], map[], true)

  /** What the main thread passes on to the broadcasting thread. */
  function Forwarded(input: Input): seq<Input> {
    match input
    case Message(Response(_, _, _, _)) => []
    case Message(SaveNewModuleConf(_, _)) => []
    case Message(ModulesEndpoints(_)) => []
    case _ => [input]
  }

  function RelayStep(m: Relay, input: Input, now: nat): Relay {
    if !m.running then m
    else
      match input
      case Register(reg) => m.(pool := m.pool - {reg.name}, senders := m.senders[reg.name := reg.channel])
      case Message(Stop) => m.(running := false)
      case Message(Response(_, to, _, _)) =>
        if to in m.senders then m
        else if now < MAX_REGISTRATION_DELAY then m.(pool := m.pool[to := Get(m.pool, to) + [input.msg]])
        else m.(pool := map[])
      case _ => m
  }

  function RelayBoxes(m: Relay, boxes: Boxes, input: Input): Boxes {
    if !m.running then boxes
    else
      match input
      case Register(reg) => DeliverAll(boxes, reg.channel, Get(m.pool, reg.name))
      case Message(Response(_, to, _, _)) =>
        if to in m.senders then Deliver(boxes, m.senders[to], [input.msg]) else boxes
      case Message(Stop) => WithStops(boxes, m.senders)
      case _ => boxes
  }

  function Sharing(senders: map<Name, Channel>, c: Channel): set<Name> {
    set n | n in senders && senders[n] == c
  }

  /** One stop message for every known module, on its channel. */
  function WithStops(boxes: Boxes, senders: map<Name, Channel>): Boxes {
    map c | c in boxes.Keys + senders.Values :: Get(boxes, c) + Stops(|Sharing(senders, c)|)
  }

  lemma NoStops(boxes: Boxes)
    ensures WithStops(boxes, map[]) == boxes
  {
    forall c | c in boxes ensures WithStops(boxes, map[])[c] == boxes[c] {
      assert Sharing(map[], c) == {};
    }
  }

  lemma SharingGrows(senders: map<Name, Channel>, n: Name, c: Channel, d: Channel)
    requires n !in senders
    ensures |Sharing(senders[n := c], d)| == |Sharing(senders, d)| + if d == c then 1 else 0
  {
    if d == c {
      assert n in senders[n := c] && senders[n := c][n] == c;
      assert Sharing(senders[n := c], c) == Sharing(senders, c) + {n};
    } else {
      assert Sharing(senders[n := c], d) == Sharing(senders, d);
    }
  }

  lemma ValuesGrow(senders: map<Name, Channel>, n: Name, c: Channel)
    requires n !in senders
    ensures senders[n := c].Values == senders.Values + {c}
  {
    assert n in senders[n := c] && senders[n := c][n] == c;
    forall d | d in senders.Values ensures d in senders[n := c].Values {
      var m :| m in senders && senders[m] == d;
      assert senders[n := c][m] == d;
    }
  }

  lemma NobodyOn(senders: map<Name, Channel>, c: Channel)
    requires c !in senders.Values
    ensures |Sharing(senders, c)| == 0
  {
    assert Sharing(senders, c) == {};
  }

  function Stops(n: nat): seq<DursMsg> {
    seq(n, _ => Stop)
  }

  lemma StopsSnoc(n: nat)
    ensures Stops(n + 1) == Stops(n) + [Stop]
    ensures Stops(0) == []
  {
  }

  lemma OneMoreStop(boxes: Boxes, senders: map<Name, Channel>, n: Name, c: Channel)
    requires n !in senders
    ensures WithStops(boxes, senders[n := c]) == Deliver(WithStops(boxes, senders), c, [Stop])
  {
    hide Sharing, Stops;
    var before, after := WithStops(boxes, senders), WithStops(boxes, senders[n := c]);
    ValuesGrow(senders, n, c);
    StopsSnoc(|Sharing(senders, c)|);
    forall d | d in after ensures after[d] == Deliver(before, c, [Stop])[d] {
      SharingGrows(senders, n, c, d);
      if d == c && c !in before {
        NobodyOn(senders, c);
      }
    }
  }

  class RouterThread {
    var senders: map<Name, Channel>
    var pool: map<Name, seq<DursMsg>>
    var running: bool
    var link: seq<Input>
    const channels: Channels

    constructor (channels: Channels)
      ensures Value() == STARTED && link == [] && this.channels == channels
    {
      this.channels := channels;
      senders, pool, running, link := map[], map[], true, [];
    }

    ghost function Value(): Relay
      reads this
    {
      Relay(senders, pool, running)
    }

    method StopModules()
      modifies channels
      ensures channels.boxes == WithStops(old(channels.boxes), senders)
    {
      ghost var before := channels.boxes;
      var todo := senders.Keys;
      NoStops(before);
      assert senders - todo == map[];
      while todo != {}
        invariant todo <= senders.Keys
        invariant channels.boxes == WithStops(before, senders - todo)
      {
        var name :| name in todo;
        channels.Send(senders[name], Stop);
        OneMoreStop(before, senders - todo, name, senders[name]);
        assert senders - (todo - {name}) == (senders - todo)[name := senders[name]];
        todo := todo - {name};
      }
      assert senders - {} == senders;
    }

    /** One turn of the loop. */
    method Receive(input: Input, now: nat)
      requires running
      modifies this, channels
      ensures Value() == RelayStep(old(Value()), input, now)
      ensures channels.boxes == RelayBoxes(old(Value()), old(channels.boxes), input)
      ensures link == old(link) + Forwarded(input)
    {
      match input {
        case ModulesCount(_) => link := link + [input];
        case Register(reg) =>
          if reg.name in pool {
            var msgs := pool[reg.name];
            pool := pool - {reg.name};
            channels.SendAll(reg.channel, msgs);
          }
          assert pool == old(pool) - {reg.name};
          senders := senders[reg.name := reg.channel];
          link := link + [input];
        case Message(msg) =>
          match msg {
            case Stop =>
              link := link + [input];
              StopModules();
              running := false;
            case SaveNewModuleConf(_, _) =>
            case Request(_, _, _, _) => link := link + [input];
            case Event(_, _, _) => link := link + [input];
            case Response(_, to, _, _) =>
              if to in senders {
                channels.Send(senders[to], msg);
              } else if now < MAX_REGISTRATION_DELAY {
                pool := pool[to := Get(pool, to) + [msg]];
              } else if pool != map[] {
                pool := map[];
              }
            case ModulesEndpoints(_) =>
          }
      }
    }
  }
}
