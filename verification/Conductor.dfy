/**
  The conductor of the WS2P v1 connections, in a thread of its own: it answers what the handlers report,
  and watches the state of every connection.
 */
module Conductor {
  import opened Sequences
  import opened Wrappers
  import opened Handshake

  // ---- one connection ----

  /** What the conductor knows of one connection: its state, and whether its websocket is there. */
  datatype Desk = Desk(state: State, open: bool)

  datatype Signal =
    | Empty | NoConnection | SocketError | ConnectionEstablished | NegociationTimedOut | TimedOut | Forwarding(id: nat)

  /** The desk afterwards, what is sent, and the signal that is raised: None if the node gives up. */
  datatype Conducted = Conducted(desk: Desk, sent: seq<Auth>, signal: Option<Signal>)

  /** alone: there is no other websocket; fails: sending does not work; awaited: the response that came
      in is one that a request is waiting for. */
  datatype Env = Env(alone: bool, fails: bool, awaited: bool)

  const SMOOTH := Env(true, false, true)

  function Conduct(d: Desk, payload: Payload, env: Env): Conducted {
    match payload
    case FailOpenWS => Conducted(d.(state := WSError), [], Some(SocketError))
    case TryToSendConnect => Idle(d.(state := TryToSendConnectMess), [], env)
    case FailSendConnect => Idle(d.(state := Unreachable), [], env)
    case WebsocketOk => Idle(d.(open := true), [], env)
    case ValidConnectMessage(response, state) =>
      if !d.open then Idle(Desk(Close, false), [], env)
      else if env.fails then Conducted(Desk(state, true), [], Some(SocketError))
      else Idle(Desk(state, true), [response], env)
    case ValidAckMessage(response, state) =>
      if state != AckMessOk then Idle(d.(state := state), [], env)
      else if !d.open then Conducted(d.(state := state), [], None)
      else if env.fails then Conducted(d.(state := state), [], Some(SocketError))
      else Idle(d.(state := state), [response], env)
    case ValidOk(state) =>
      if state == OkMessOkWaitingAckMess then Conducted(d.(state := state), [], Some(Empty))
      else if state == Established then Conducted(d.(state := state), [], Some(ConnectionEstablished))
      else Conducted(Desk(Close, false), [], Some(Empty))
    case Passed(Content(id)) => Conducted(d, [], Some(Forwarding(id)))
    case Passed(ReqResponse(_, id)) => if env.awaited then Conducted(d, [], Some(Forwarding(id))) else Idle(d, [], env)
    case Passed(_) => Idle(d, [], env)
    case InvalidMessage => Conducted(d, [], Some(Empty))
    case NegociationTimeout => Conducted(Desk(GivenUp(d.state), false), [], Some(NegociationTimedOut))
    case Timeout => Conducted(Desk(Close, false), [], Some(TimedOut))
    case Closing => Idle(Desk(Close, false), [], env)
  }

  function GivenUp(state: State): State {
    match state
    case AckMessOk => Denial
    case ConnectMessOk => Denial
    case WaitingConnectMess => NoResponse
    case _ => Unreachable
  }

  function Idle(d: Desk, sent: seq<Auth>, env: Env): Conducted {
    Conducted(d, sent, Some(if env.alone && !d.open then NoConnection else Empty))
  }

  // ---- all connections ----

  type Peer = nat

  function Outbox(outboxes: map<Peer, seq<Auth>>, peer: Peer): seq<Auth> {
    if peer in outboxes then outboxes[peer] else []
  }

  /** The states, the websockets, what was sent on each, and the requests that await a response. */
  datatype Books = Books(endpoints: map<Peer, State>, websockets: set<Peer>, outboxes: map<Peer, seq<Auth>>,
                         awaiting: set<nat>)

  function DeskOf(books: Books, peer: Peer): Desk
    requires peer in books.endpoints
  {
    Desk(books.endpoints[peer], peer in books.websockets)
  }

  function Entered(books: Books, peer: Peer, c: Conducted): Books {
    books.(endpoints := books.endpoints[peer := c.desk.state],
           websockets := if c.desk.open then books.websockets + {peer} else books.websockets - {peer},
           outboxes := if c.sent == [] then books.outboxes
                       else books.outboxes[peer := Outbox(books.outboxes, peer) + c.sent])
  }

  predicate Awaited(awaiting: set<nat>, payload: Payload) {
    payload.Passed? && payload.rest.ReqResponse? && payload.rest.req in awaiting
  }

  /** A request gets one response. */
  function Resolved(books: Books, payload: Payload): Books {
    if Awaited(books.awaiting, payload) then books.(awaiting := books.awaiting - {payload.rest.req}) else books
  }

  function EnvOf(books: Books, from: Peer, payload: Payload, fails: bool): Env {
    Env(books.websockets <= {from}, fails, Awaited(books.awaiting, payload))
  }

  /** The conductor has handled a payload: only the entries of its connection, and the request it
      responds to, have changed. */
  predicate Follows(before: Books, after: Books, from: Peer, payload: Payload, fails: bool, signal: Option<Signal>) {
    && from in before.endpoints
    && var c := Conduct(DeskOf(before, from), payload, EnvOf(before, from, payload, fails));
       after == Entered(Resolved(before, payload), from, c) && signal == c.signal
  }

  /** What the conductor deals with: a report of a handler, some requests having waited too long by then, or
      a request to a peer. */
  datatype Turn =
    | FromHandler(peer: Peer, payload: Payload, timedOut: set<nat>, fails: bool)
    | ToPeer(peer: Peer, req: nat, fails: bool)

  function Handled(books: Books, turn: Turn): (Books, Option<Signal>) {
    match turn
    case FromHandler(from, payload, timedOut, fails) =>
      if from !in books.endpoints then (books, None)
      else
        var now := books.(awaiting := books.awaiting - timedOut);
        var c := Conduct(DeskOf(now, from), payload, EnvOf(now, from, payload, fails));
        (Entered(Resolved(now, payload), from, c), c.signal)
    case ToPeer(peer, req, fails) =>
      (if peer in books.websockets && !fails then books.(awaiting := books.awaiting + {req}) else books, Some(Empty))
  }

  class WS2PModule {
    var endpoints: map<Peer, State>
    var websockets: set<Peer>
    var outboxes: map<Peer, seq<Auth>>
    var awaiting: set<nat>

    constructor (endpoints: map<Peer, State>)
      ensures Value() == Books(endpoints, {}, map[], {})
    {
      this.endpoints, websockets, outboxes, awaiting := endpoints, {}, map[], {};
    }

    ghost function Value(): Books
      reads this
    {
      Books(endpoints, websockets, outboxes, awaiting)
    }

    method CloseConnection(peer: Peer, negociationTimeout: bool)
      requires peer in endpoints
      modifies this
      ensures Value() == Entered(old(Value()), peer,
                                 Conducted(Desk(if negociationTimeout then old(endpoints)[peer] else Close, false),
                                           [], None))
    {
      if !negociationTimeout {
        endpoints := endpoints[peer := Close];
      }
      websockets := websockets - {peer};
      assert negociationTimeout ==> endpoints == endpoints[peer := endpoints[peer]];
    }

    /** Sends an answer on the websocket of the connection; the source's two callers differ in what
        they do when there is none. */
    method Answer(peer: Peer, state: State, response: Auth, fails: bool) returns (sent: bool)
      requires peer in endpoints && peer in websockets
      modifies this
      ensures sent == !fails
      ensures Value() ==
              Entered(old(Value()), peer, Conducted(Desk(state, true), if fails then [] else [response], None))
    {
      endpoints := endpoints[peer := state];
      if !fails {
        outboxes := outboxes[peer := Outbox(outboxes, peer) + [response]];
      }
      sent := !fails;
      assert websockets == websockets + {peer};
    }

    method SetState(peer: Peer, state: State)
      requires peer in endpoints
      modifies this
      ensures Value() == Entered(old(Value()), peer, Conducted(DeskOf(old(Value()), peer).(state := state), [], None))
    {
      endpoints := endpoints[peer := state];
      assert peer in websockets ==> websockets == websockets + {peer};
      assert peer !in websockets ==> websockets == websockets - {peer};
    }

    /** The signal when nothing else is to be said. */
    method CountConnections() returns (signal: Option<Signal>)
      ensures signal == Some(if websockets == {} then NoConnection else Empty)
    {
      signal := Some(if websockets == {} then NoConnection else Empty);
    }

    /** Before the websocket is there, or when it is. */
    method HandleOpening(from: Peer, payload: Payload, fails: bool) returns (signal: Option<Signal>)
      requires from in endpoints
      requires payload.FailOpenWS? || payload.TryToSendConnect? || payload.FailSendConnect? || payload.WebsocketOk?
      modifies this
      ensures Follows(old(Value()), Value(), from, payload, fails, signal)
    {
      match payload {
        case FailOpenWS =>
          SetState(from, WSError);
          return Some(SocketError);
        case TryToSendConnect => SetState(from, TryToSendConnectMess);
        case FailSendConnect => SetState(from, Unreachable);
        case WebsocketOk =>
          EnteredAgain(Value(), from);
          websockets := websockets + {from};
      }
      signal := CountConnections();
    }

    method HandleConnect(from: Peer, payload: Payload, fails: bool) returns (signal: Option<Signal>)
      requires from in endpoints && payload.ValidConnectMessage?
      modifies this
      ensures Follows(old(Value()), Value(), from, payload, fails, signal)
    {
      if from in websockets {
        var sent := Answer(from, payload.state, payload.response, fails);
        if !sent {
          return Some(SocketError);
        }
      } else {
        SetState(from, Close);
      }
      signal := CountConnections();
    }

    method HandleAck(from: Peer, payload: Payload, fails: bool) returns (signal: Option<Signal>)
      requires from in endpoints && payload.ValidAckMessage?
      modifies this
      ensures Follows(old(Value()), Value(), from, payload, fails, signal)
    {
      if payload.state != AckMessOk {
        SetState(from, payload.state);
      } else if from in websockets {
        var sent := Answer(from, payload.state, payload.response, fails);
        if !sent {
          return Some(SocketError);
        }
      } else {
        SetState(from, payload.state);
        return None;
      }
      signal := CountConnections();
    }

    method HandleOk(from: Peer, payload: Payload, fails: bool) returns (signal: Option<Signal>)
      requires from in endpoints && payload.ValidOk?
      modifies this
      ensures Follows(old(Value()), Value(), from, payload, fails, signal)
    {
      match payload.state {
        case OkMessOkWaitingAckMess =>
          SetState(from, payload.state);
          signal := Some(Empty);
        case Established =>
          SetState(from, payload.state);
          signal := Some(ConnectionEstablished);
        case _ =>
          CloseConnection(from, false);
          signal := Some(Empty);
      }
    }

    method HandlePassed(from: Peer, payload: Payload, fails: bool) returns (signal: Option<Signal>)
      requires from in endpoints && payload.Passed?
      modifies this
      ensures Follows(old(Value()), Value(), from, payload, fails, signal)
    {
      EnteredAgain(Value(), from);
      match payload.rest {
        case Content(id) => return Some(Forwarding(id));
        case ReqResponse(req, id) =>
          if req in awaiting {
            EnteredAgain(Value().(awaiting := awaiting - {req}), from);
            awaiting := awaiting - {req};
            return Some(Forwarding(id));
          }
        case _ =>
      }
      signal := CountConnections();
    }

    method GiveUp(peer: Peer)
      requires peer in endpoints
      modifies this
      ensures Value() == Entered(old(Value()), peer, Conducted(Desk(GivenUp(old(endpoints)[peer]), false), [], None))
    {
      ghost var before, given := Value(), GivenUp(endpoints[peer]);
      match endpoints[peer] {
        case AckMessOk => SetState(peer, Denial);
        case ConnectMessOk => SetState(peer, Denial);
        case WaitingConnectMess => SetState(peer, NoResponse);
        case _ => SetState(peer, Unreachable);
      }
      CloseConnection(peer, true);
      EnteredTwice(before, peer, DeskOf(before, peer).(state := given), Desk(given, false));
    }

    /** Time is over, or the handler has closed the connection. */
    method HandleEnd(from: Peer, payload: Payload, fails: bool) returns (signal: Option<Signal>)
      requires from in endpoints && (payload.NegociationTimeout? || payload.Timeout? || payload.Closing?)
      modifies this
      ensures Follows(old(Value()), Value(), from, payload, fails, signal)
    {
      match payload {
        case NegociationTimeout =>
          GiveUp(from);
          return Some(NegociationTimedOut);
        case Timeout =>
          CloseConnection(from, false);
          return Some(TimedOut);
        case Closing => CloseConnection(from, false);
      }
      signal := CountConnections();
    }

    method HandleInvalid(from: Peer, fails: bool) returns (signal: Option<Signal>)
      requires from in endpoints
      ensures Follows(Value(), Value(), from, InvalidMessage, fails, signal)
    {
      EnteredAgain(Value(), from);
      signal := Some(Empty);
    }

    /** Every payload changes only the entries of the connection it came from; requests that have waited
        too long are forgotten first. */
    method RecvMessagePretreatment(from: Peer, payload: Payload, timedOut: set<nat>, fails: bool)
      returns (signal: Option<Signal>)
      requires from in endpoints
      modifies this
      ensures var before := old(Value()).(awaiting := old(awaiting) - timedOut);
        Follows(before, Value(), from, payload, fails, signal)
      ensures (Value(), signal) == Handled(old(Value()), FromHandler(from, payload, timedOut, fails))
    {
      hide Follows, Handled;
      ghost var start := Value();
      awaiting := awaiting - timedOut;
      match payload {
        case FailOpenWS => signal := HandleOpening(from, payload, fails);
        case TryToSendConnect => signal := HandleOpening(from, payload, fails);
        case FailSendConnect => signal := HandleOpening(from, payload, fails);
        case WebsocketOk => signal := HandleOpening(from, payload, fails);
        case ValidConnectMessage(_, _) => signal := HandleConnect(from, payload, fails);
        case ValidAckMessage(_, _) => signal := HandleAck(from, payload, fails);
        case ValidOk(_) => signal := HandleOk(from, payload, fails);
        case Passed(_) => signal := HandlePassed(from, payload, fails);
        case InvalidMessage => signal := HandleInvalid(from, fails);
        case NegociationTimeout => signal := HandleEnd(from, payload, fails);
        case Timeout => signal := HandleEnd(from, payload, fails);
        case Closing => signal := HandleEnd(from, payload, fails);
      }
      FollowsIsHandled(start, Value(), from, payload, timedOut, fails, signal);
    }

    /** A request is awaited once it has been sent; without a websocket nothing happens. */
    method SendRequest(peer: Peer, req: nat, fails: bool) returns (error: bool)
      modifies this
      ensures error <==> peer in old(websockets) && fails
      ensures awaiting == if peer in old(websockets) && !fails then old(awaiting) + {req} else old(awaiting)
      ensures Value() == Handled(old(Value()), ToPeer(peer, req, fails)).0
    {
      if peer in websockets {
        if fails {
          return true;
        }
        awaiting := awaiting + {req};
      }
      error := false;
    }
  }

  lemma FollowsIsHandled(before: Books, after: Books, from: Peer, payload: Payload, timedOut: set<nat>, fails: bool,
                         signal: Option<Signal>)
    requires Follows(before.(awaiting := before.awaiting - timedOut), after, from, payload, fails, signal)
    ensures (after, signal) == Handled(before, FromHandler(from, payload, timedOut, fails))
  {
    hide Conduct, Entered, EnvOf, Resolved;
  }

  lemma EnteredAgain(books: Books, peer: Peer)
    requires peer in books.endpoints
    ensures Entered(books, peer, Conducted(DeskOf(books, peer), [], None)) == books
  {
  }

  lemma EnteredTwice(books: Books, peer: Peer, first: Desk, second: Desk)
    ensures Entered(Entered(books, peer, Conducted(first, [], None)), peer, Conducted(second, [], None)) ==
            Entered(books, peer, Conducted(second, [], None))
  {
  }

  // ---- a whole connection ----

  /** What the handler of a connection may have to deal with. */
  datatype Happening = Arriving(msg: Incoming) | Deadline | Expiry | Closure

  function Noticed(m: Meta, node: Node, h: Happening): Verdict {
    match h
    case Arriving(msg) => Checked(m, node, msg)
    case Deadline => (m, if m.state != Established then Some(NegociationTimeout) else None)
    case Expiry => (m, Some(Timeout))
    case Closure => (m, Some(Closing))
  }

  /** One connection in the eyes of handler and conductor: the kinds of messages accepted, what the
      conductor has sent, how often it has announced the connection; `smooth` as long as nothing but
      messages has happened and sending has worked; `over` once the conductor has given up. */
  datatype Talk = Talk(meta: Meta, desk: Desk, kinds: seq<Kind>, sent: seq<Auth>, announced: nat, smooth: bool,
                       over: bool)

  function Reporting(t: Talk, meta: Meta, p: Payload, arrived: bool, env: Env): Talk {
    if t.over then t.(meta := meta, kinds := t.kinds + Accepted(p))
    else
      var c := Conduct(t.desk, p, env);
      Talk(meta, c.desk, t.kinds + Accepted(p), t.sent + c.sent,
           t.announced + (if c.signal == Some(ConnectionEstablished) then 1 else 0),
           t.smooth && arrived && !env.fails, c.signal.None?)
  }

  function Heard(t: Talk, node: Node, h: Happening, env: Env): Talk {
    var (meta, report) := Noticed(t.meta, node, h);
    match report
    case None => t.(meta := meta, smooth := t.smooth && h.Arriving?)
    case Some(p) => Reporting(t, meta, p, h.Arriving?, env)
  }

  function TalkAfter(start: Talk, node: Node, events: seq<(Happening, Env)>): Talk {
    if events == [] then start
    else Heard(TalkAfter(start, node, events[..|events| - 1]), node, events[|events| - 1].0, events[|events| - 1].1)
  }

  /** The websocket is open and nothing else has happened yet. */
  function Opening(challenge: string, remote: PubKey, state: State): Talk {
    Talk(Start(challenge, remote), Desk(state, true), [], [], 0, true, false)
  }

  // ---- what has been accepted decides what is answered and announced ----

  function Replies(kinds: seq<Kind>): seq<Kind> {
    match |kinds|
    case 0 => []
    case 1 => [ACK]
    case _ => if kinds[1] == ACK then [ACK, OK] else [ACK]
  }

  function KindOf(auth: Auth): Kind {
    match auth
    case ConnectMess(_, _, _) => CONNECT
    case AckMess(_, _) => ACK
    case OkMess(_) => OK
  }

  function Kinds(auths: seq<Auth>): seq<Kind> {
    seq(|auths|, i requires 0 <= i < |auths| => KindOf(auths[i]))
  }

  /** Some of the replies, in their order. */
  predicate AmongReplies(sent: seq<Kind>, replies: seq<Kind>) {
    sent == [] || sent == replies || (|replies| == 2 && (sent == replies[..1] || sent == replies[1..]))
  }

  predicate InOrder(kinds: seq<Kind>) {
    kinds == [CONNECT, ACK, OK]
  }

  ghost predicate Announces(kinds: seq<Kind>, announced: nat, over: bool) {
    && (!over ==> announced == if InOrder(kinds) then 1 else 0)
    && (over ==> announced == 0 && |kinds| >= 2 && kinds[1] == ACK)
  }

  ghost predicate Smoothly(t: Talk) {
    && !t.over && t.desk.open && (t.kinds != [] ==> t.desk.state == t.meta.state)
    && Kinds(t.sent) == Replies(t.kinds)
  }

  /** What holds of every connection.  The connection is established if and only if CONNECT, ACK and OK
      were accepted, CONNECT first, and it has been announced if and only if they were accepted in exactly
      this order: it is not when the OK overtakes the ACK.  Answers keep the order of the replies due; they
      are all there as long as nothing interferes.  The conductor has given up only if the ACK came first. */
  ghost predicate Told(t: Talk) {
    && Explains(t.kinds, t.meta.state)
    && AmongReplies(Kinds(t.sent), Replies(t.kinds))
    && Announces(t.kinds, t.announced, t.over)
    && (t.smooth ==> Smoothly(t))
  }

  /** Whatever a peer sends, whether or not sending works, and whenever time is over or the connection is
      closed. */
  lemma {:induction false} AnnouncedIff(challenge: string, remote: PubKey, state: State, node: Node,
                                        events: seq<(Happening, Env)>)
    ensures Told(TalkAfter(Opening(challenge, remote, state), node, events))
    decreases |events|
  {
    if events != [] {
      hide Told, Heard, Opening;
      var last := |events| - 1;
      AnnouncedIff(challenge, remote, state, node, events[..last]);
      HeardKeeps(TalkAfter(Opening(challenge, remote, state), node, events[..last]), node, events[last].0,
                 events[last].1);
    }
  }

  lemma HeardKeeps(t: Talk, node: Node, h: Happening, env: Env)
    requires Told(t)
    ensures Told(Heard(t, node, h, env))
  {
    assert t.kinds + [] == t.kinds && t.sent + [] == t.sent;
    hide Checked, Explains, AmongReplies, Announces, Kinds, Replies, Conduct, Accepted;
    match h
    case Arriving(msg) =>
      match Checked(t.meta, node, msg).1 {
        case None => NoneUnchanged(t.meta, node, msg);
        case Some(p) => ReportKeeps(t, node, msg, env);
      }
    case Deadline => Unaccepted(t.desk, NegociationTimeout, env);
    case Expiry => Unaccepted(t.desk, Timeout, env);
    case Closure => Unaccepted(t.desk, Closing, env);
  }

  lemma NoneUnchanged(m: Meta, node: Node, msg: Incoming)
    requires Checked(m, node, msg).1.None?
    ensures Checked(m, node, msg).0 == m
  {
  }

  lemma Unaccepted(d: Desk, p: Payload, env: Env)
    requires Accepted(p) == []
    ensures var c := Conduct(d, p, env); c.sent == [] && c.signal.Some? && c.signal != Some(ConnectionEstablished)
    ensures p.Passed? || p.InvalidMessage? ==> Conduct(d, p, env).desk == d
  {
  }

  lemma ReportKeeps(t: Talk, node: Node, msg: Incoming, env: Env)
    requires Told(t) && Checked(t.meta, node, msg).1.Some?
    ensures Told(Heard(t, node, Arriving(msg), env))
  {
    var p, meta := Checked(t.meta, node, msg).1.value, Checked(t.meta, node, msg).0;
    ReportCases(t.meta, node, msg);
    hide Checked, Told;
    match p
    case ValidConnectMessage(_, _) => ConnectKeeps(t, meta, p, env);
    case ValidAckMessage(_, _) => AckKeeps(t, meta, p, env);
    case ValidOk(_) => OkKeeps(t, meta, p, env);
    case _ => OtherKeeps(t, p, env);
  }

  lemma OtherKeeps(t: Talk, p: Payload, env: Env)
    requires Told(t) && (p.Passed? || p.InvalidMessage?)
    ensures Told(Reporting(t, t.meta, p, true, env))
  {
    assert t.kinds + [] == t.kinds && t.sent + [] == t.sent;
    Unaccepted(t.desk, p, env);
    hide Explains, AmongReplies, Announces, Kinds, Replies, Conduct;
  }

  lemma ConnectKeeps(t: Talk, meta: Meta, p: Payload, env: Env)
    requires Told(t) && p.ValidConnectMessage? && p.response.AckMess?
    requires t.meta.state == WaitingConnectMess && p.state == ConnectMessOk == meta.state
    ensures Told(Reporting(t, meta, p, true, env))
  {
    assert t.kinds == [] && Kinds(t.sent) == [];
    assert t.sent == [] && !t.over;
    assert Reporting(t, meta, p, true, env).kinds == [CONNECT];
  }

  lemma AckKeeps(t: Talk, meta: Meta, p: Payload, env: Env)
    requires Told(t) && p.ValidAckMessage? && p.response.OkMess? && meta.state == p.state
    requires (t.meta.state == ConnectMessOk && p.state == AckMessOk)
             || (t.meta.state == OkMessOkWaitingAckMess && p.state == Established)
    ensures Told(Reporting(t, meta, p, true, env))
  {
  }

  lemma OkKeeps(t: Talk, meta: Meta, p: Payload, env: Env)
    requires Told(t) && p.ValidOk? && meta.state == p.state
    requires (t.meta.state == ConnectMessOk && p.state == OkMessOkWaitingAckMess)
             || (t.meta.state == AckMessOk && p.state == Established)
    ensures Told(Reporting(t, meta, p, true, env))
  {
  }
}
