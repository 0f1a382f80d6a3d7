/**
  The conductor over whole runs: the story of each connection by itself, and of each request.
 */
module ConductorRuns {
  import opened Wrappers
  import opened Handshake
  import opened Conductor

  function After(books: Books, turns: seq<Turn>): Books {
    if turns == [] then books else Handled(After(books, turns[..|turns| - 1]), turns[|turns| - 1]).0
  }

  // ---- one connection, told from its own reports ----

  /** Whether the websocket is there. */
  function Connected(start: bool, turns: seq<Turn>, peer: Peer): bool {
    if turns == [] then start
    else
      var before, last := Connected(start, turns[..|turns| - 1], peer), turns[|turns| - 1];
      if last.ToPeer? || last.peer != peer then before
      else if last.payload.WebsocketOk? then true
      else if last.payload.NegociationTimeout? || last.payload.Timeout? || last.payload.Closing? then false
      else if last.payload.ValidOk? then
        before && (last.payload.state == Established || last.payload.state == OkMessOkWaitingAckMess)
      else before
  }

  /** The state a report leads to. */
  function Led(state: State, connected: bool, payload: Payload): State {
    if payload.FailOpenWS? then WSError
    else if payload.TryToSendConnect? then TryToSendConnectMess
    else if payload.FailSendConnect? then Unreachable
    else if payload.Timeout? || payload.Closing? then Close
    else if payload.ValidConnectMessage? then if connected then payload.state else Close
    else if payload.ValidAckMessage? then payload.state
    else if payload.ValidOk? then
      if payload.state == Established || payload.state == OkMessOkWaitingAckMess then payload.state else Close
    else if payload.NegociationTimeout? then
      if state == AckMessOk || state == ConnectMessOk then Denial
      else if state == WaitingConnectMess then NoResponse
      else Unreachable
    else state
  }

  function StateOf(state: State, start: bool, turns: seq<Turn>, peer: Peer): State {
    if turns == [] then state
    else
      var front, last := turns[..|turns| - 1], turns[|turns| - 1];
      var before := StateOf(state, start, front, peer);
      if last.ToPeer? || last.peer != peer then before
      else Led(before, Connected(start, front, peer), last.payload)
  }

  /** An answer is due: to a CONNECT, and to an ACK that came before the OK. */
  predicate AnswerDue(payload: Payload) {
    payload.ValidConnectMessage? || (payload.ValidAckMessage? && payload.state == AckMessOk)
  }

  function SentTo(start: bool, turns: seq<Turn>, peer: Peer): seq<Auth> {
    if turns == [] then []
    else
      var front, last := turns[..|turns| - 1], turns[|turns| - 1];
      var before := SentTo(start, front, peer);
      if last.FromHandler? && last.peer == peer && AnswerDue(last.payload) && !last.fails &&
         Connected(start, front, peer) then
        before + [last.payload.response]
      else before
  }

  ghost predicate Tells(books: Books, start: Books, turns: seq<Turn>, peer: Peer) {
    && (peer in books.endpoints <==> peer in start.endpoints)
    && (peer in start.endpoints ==>
        && books.endpoints[peer] == StateOf(start.endpoints[peer], peer in start.websockets, turns, peer)
        && (peer in books.websockets <==> Connected(peer in start.websockets, turns, peer))
        && Outbox(books.outboxes, peer) ==
           Outbox(start.outboxes, peer) + SentTo(peer in start.websockets, turns, peer))
  }

  /** What a report makes of one connection. */
  lemma Conducts(d: Desk, payload: Payload, env: Env)
    ensures var c := Conduct(d, payload, env);
      && c.desk.state == Led(d.state, d.open, payload)
      && c.sent == if AnswerDue(payload) && d.open && !env.fails then [payload.response] else []
  {
  }

  lemma Opens(d: Desk, payload: Payload, env: Env, turn: Turn)
    requires turn.FromHandler? && turn.payload == payload
    ensures Conduct(d, payload, env).desk.open <==> Connected(d.open, [turn], turn.peer)
  {
    assert [turn][..0] == [];
  }

  /** A report about one connection, seen from that connection. */
  lemma OwnStep(books: Books, turn: Turn)
    requires turn.FromHandler? && turn.peer in books.endpoints
    ensures var (books', _) := Handled(books, turn);
      var connected, due := turn.peer in books.websockets, AnswerDue(turn.payload);
      && turn.peer in books'.endpoints
      && books'.endpoints[turn.peer] == Led(books.endpoints[turn.peer], connected, turn.payload)
      && (turn.peer in books'.websockets <==> Connected(connected, [turn], turn.peer))
      && Outbox(books'.outboxes, turn.peer) ==
         Outbox(books.outboxes, turn.peer) +
         if due && connected && !turn.fails then [turn.payload.response] else []
  {
    hide Conduct, Led, Connected, EnvOf;
    var now := books.(awaiting := books.awaiting - turn.timedOut);
    var d, env := DeskOf(now, turn.peer), EnvOf(now, turn.peer, turn.payload, turn.fails);
    FailsAsGiven(now, turn.peer, turn.payload, turn.fails);
    Conducts(d, turn.payload, env);
    Opens(d, turn.payload, env, turn);
    assert Outbox(books.outboxes, turn.peer) + [] == Outbox(books.outboxes, turn.peer);
  }

  lemma FailsAsGiven(books: Books, from: Peer, payload: Payload, fails: bool)
    ensures EnvOf(books, from, payload, fails).fails == fails
    ensures EnvOf(books, from, payload, fails).alone <==> books.websockets <= {from}
    ensures EnvOf(books, from, payload, fails).awaited <==>
            payload.Passed? && payload.rest.ReqResponse? && payload.rest.req in books.awaiting
  {
  }

  /** ... and from any other. */
  lemma OtherStep(books: Books, turn: Turn, peer: Peer)
    requires turn.ToPeer? || turn.peer != peer
    ensures var (books', _) := Handled(books, turn);
      && (peer in books'.endpoints <==> peer in books.endpoints)
      && (peer in books.endpoints ==> books'.endpoints[peer] == books.endpoints[peer])
      && (peer in books'.websockets <==> peer in books.websockets)
      && Outbox(books'.outboxes, peer) == Outbox(books.outboxes, peer)
  {
    hide Conduct;
  }

  /** Whatever happens on other connections: the state of a connection, whether its websocket is there, and
      what was sent on it follow from its own reports alone. */
  lemma {:induction false} OwnStory(start: Books, turns: seq<Turn>, peer: Peer)
    ensures Tells(After(start, turns), start, turns, peer)
    decreases turns
  {
    if turns == [] {
      assert Outbox(start.outboxes, peer) + [] == Outbox(start.outboxes, peer);
    } else {
      hide Handled, Led, AnswerDue, Outbox;
      var front, last := turns[..|turns| - 1], turns[|turns| - 1];
      var books := After(start, front);
      OwnStory(start, front, peer);
      if last.ToPeer? || last.peer != peer {
        OtherStep(books, last, peer);
      } else if peer in books.endpoints {
        OwnStep(books, last);
        assert [last][..0] == [];
      }
    }
  }

  // ---- signals ----

  predicate IsResponse(turn: Turn, req: nat) {
    turn.FromHandler? && turn.payload.Passed? && turn.payload.rest.ReqResponse? && turn.payload.rest.req == req
  }

  /** When each signal is raised, and when the node gives up. */
  lemma SignalIff(books: Books, turn: Turn)
    requires turn.FromHandler? && turn.peer in books.endpoints
    ensures var (books', signal) := Handled(books, turn);
      var p, connected := turn.payload, turn.peer in books.websockets;
      && (signal == None <==> p.ValidAckMessage? && AnswerDue(p) && !connected)
      && (signal == Some(ConnectionEstablished) <==> p == ValidOk(Established))
      && (signal == Some(SocketError) <==> p.FailOpenWS? || (AnswerDue(p) && connected && turn.fails))
      && (signal == Some(NegociationTimedOut) <==> p.NegociationTimeout?)
      && (signal == Some(TimedOut) <==> p.Timeout?)
      && (forall id :: signal == Some(Forwarding(id)) <==>
            p == Passed(Content(id)) ||
            exists req :: p == Passed(ReqResponse(req, id)) && req in books.awaiting - turn.timedOut)
      && (signal == Some(NoConnection) ==> books'.websockets == {} && !p.ValidOk? && !p.InvalidMessage?)
      && (books'.websockets == {} && signal == Some(Empty) ==> p.ValidOk? || p.InvalidMessage?)
  {
    hide Entered;
    var now := books.(awaiting := books.awaiting - turn.timedOut);
    EnteredSockets(Resolved(now, turn.payload), turn.peer,
                   Conduct(DeskOf(now, turn.peer), turn.payload, EnvOf(now, turn.peer, turn.payload, turn.fails)));
  }

  lemma EnteredSockets(books: Books, peer: Peer, c: Conducted)
    ensures Entered(books, peer, c).websockets == {} <==> books.websockets <= {peer} && !c.desk.open
  {
    var after := Entered(books, peer, c).websockets;
    if c.desk.open {
      assert peer in after;
    } else if after == {} {
      assert forall p :: p in books.websockets ==> p == peer || p in after;
    }
  }

  // ---- one request, told from what happened to it ----

  /** Whether a response to the request is awaited: it was sent, and neither responded to nor timed out
      since. */
  function Awaits(start: Books, turns: seq<Turn>, req: nat): bool {
    if turns == [] then req in start.awaiting
    else
      var front, last := turns[..|turns| - 1], turns[|turns| - 1];
      match last
      case ToPeer(peer, r, fails) =>
        Awaits(start, front, req) || (r == req && !fails && peer in After(start, front).websockets)
      case FromHandler(peer, _, timedOut, _) =>
        Awaits(start, front, req) && !(peer in start.endpoints && (req in timedOut || IsResponse(last, req)))
  }

  /** Exactly the requests responded to and those timed out are awaited no longer. */
  lemma AwaitingStep(books: Books, turn: Turn)
    requires turn.FromHandler? && turn.peer in books.endpoints
    ensures var p, after := turn.payload, Handled(books, turn).0.awaiting;
      after == books.awaiting - turn.timedOut -
               if p.Passed? && p.rest.ReqResponse? then {p.rest.req} else {}
  {
    hide Conduct;
  }

  lemma {:induction false} SameConnections(start: Books, turns: seq<Turn>)
    ensures After(start, turns).endpoints.Keys == start.endpoints.Keys
    decreases turns
  {
    if turns == [] {
    } else {
      hide Handled;
      var front, last := turns[..|turns| - 1], turns[|turns| - 1];
      SameConnections(start, front);
      NoNewConnection(After(start, front), last);
    }
  }

  lemma NoNewConnection(books: Books, turn: Turn)
    ensures Handled(books, turn).0.endpoints.Keys == books.endpoints.Keys
  {
    hide Conduct;
  }

  lemma {:induction false} AwaitedIff(start: Books, turns: seq<Turn>, req: nat)
    ensures req in After(start, turns).awaiting <==> Awaits(start, turns, req)
    decreases turns
  {
    if turns == [] {
    } else {
      hide Handled, IsResponse;
      var front, last := turns[..|turns| - 1], turns[|turns| - 1];
      AwaitedIff(start, front, req);
      SameConnections(start, front);
      OneTurn(After(start, front), last, req);
    }
  }

  lemma OneTurn(books: Books, turn: Turn, req: nat)
    ensures req in Handled(books, turn).0.awaiting <==>
      match turn
      case ToPeer(peer, r, fails) => req in books.awaiting || (r == req && !fails && peer in books.websockets)
      case FromHandler(peer, _, timedOut, _) =>
        req in books.awaiting && !(peer in books.endpoints && (req in timedOut || IsResponse(turn, req)))
  {
    hide Conduct, Entered;
    if turn.FromHandler? && turn.peer in books.endpoints {
      AwaitingStep(books, turn);
    }
  }

  /** A response to the request is handed on. */
  predicate HandsOn(books: Books, turn: Turn, req: nat) {
    IsResponse(turn, req) && Handled(books, turn).1 == Some(Forwarding(turn.payload.rest.id))
  }

  /** How many responses to a request are handed on in a run. */
  function HandedOn(start: Books, turns: seq<Turn>, req: nat): nat {
    if turns == [] then 0
    else
      var front, last := turns[..|turns| - 1], turns[|turns| - 1];
      HandedOn(start, front, req) + if HandsOn(After(start, front), last, req) then 1 else 0
  }

  function TimesSent(start: Books, turns: seq<Turn>, req: nat): nat {
    if turns == [] then 0
    else
      var front, last := turns[..|turns| - 1], turns[|turns| - 1];
      TimesSent(start, front, req) +
      if last.ToPeer? && last.req == req && !last.fails && last.peer in After(start, front).websockets then 1 else 0
  }

  lemma HandsOnIff(books: Books, turn: Turn, req: nat)
    requires IsResponse(turn, req)
    ensures HandsOn(books, turn, req) <==> turn.peer in books.endpoints && req in books.awaiting - turn.timedOut
    ensures HandsOn(books, turn, req) ==> req !in Handled(books, turn).0.awaiting
  {
    if turn.peer in books.endpoints {
      SignalIff(books, turn);
      AwaitingStep(books, turn);
      hide Handled;
    }
  }

  /** No request gets more responses than it was sent for: in a run that sends it no more, at most one, and
      none if it was not awaited. */
  lemma {:induction false} OneResponseEach(start: Books, turns: seq<Turn>, req: nat)
    ensures HandedOn(start, turns, req) + (if req in After(start, turns).awaiting then 1 else 0) <=
            TimesSent(start, turns, req) + (if req in start.awaiting then 1 else 0)
    decreases turns
  {
    if turns == [] {
    } else {
      hide Handled, IsResponse, HandsOn;
      var front, last := turns[..|turns| - 1], turns[|turns| - 1];
      OneResponseEach(start, front, req);
      OneTurn(After(start, front), last, req);
      if HandsOn(After(start, front), last, req) {
        HandsOnMeans(After(start, front), last, req);
        HandsOnIff(After(start, front), last, req);
      }
    }
  }

  lemma HandsOnMeans(books: Books, turn: Turn, req: nat)
    requires HandsOn(books, turn, req)
    ensures IsResponse(turn, req) && turn.FromHandler?
  {
  }
}
