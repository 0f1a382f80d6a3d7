/**
  The handshake of one WS2P v1 connection, as the handler of the connection sees it: it checks the
  messages that come in and reports them to the conductor.
 */
module Handshake {
  import opened Wrappers

  type PubKey = string
  type Sig = string

  datatype KeyPair = KeyPair(public: PubKey, secret: string)

  /** The signature scheme is a parameter. */
  datatype Crypto = Crypto(sign: (KeyPair, string) -> Sig, verify: (PubKey, string, Sig) -> bool)

  /** What one signs, the other can verify. */
  ghost predicate SignThenVerify(c: Crypto) {
    forall keys: KeyPair, text: string :: c.verify(keys.public, text, c.sign(keys, text))
  }

  datatype State =
    | NeverTry | TryToOpenWS | WSError | TryToSendConnectMess | Unreachable | WaitingConnectMess | NoResponse
    | ConnectMessOk | OkMessOkWaitingAckMess | AckMessOk | Denial | Close | Established

  /** Authentication messages as they travel: an acknowledgement does not carry the challenge it
      answers, and a confirmation carries nothing but a signature. */
  datatype Auth =
    | ConnectMess(pubkey: PubKey, challenge: string, sig: Sig)
    | AckMess(pubkey: PubKey, sig: Sig)
    | OkMess(sig: Sig)

  /** What the parser of everything but authentication makes of a message. */
  datatype Rest = Content(id: nat) | ReqResponse(req: nat, id: nat) | WrongFormatMessage | UnknowMessage

  /** An incoming message: its authentication part, if any, and what it is when that part is ignored. */
  datatype Incoming = Authentication(auth: Auth, rest: Rest) | Malformed | Plain(rest: Rest)

  datatype Payload =
    | FailOpenWS | TryToSendConnect | FailSendConnect | WebsocketOk
    | ValidConnectMessage(response: Auth, state: State)
    | ValidAckMessage(response: Auth, state: State)
    | ValidOk(state: State)
    | Passed(rest: Rest)
    | InvalidMessage | NegociationTimeout | Timeout | Closing

  function ConnectRaw(currency: string, pubkey: PubKey, challenge: string): string {
    "WS2P:CONNECT:" + currency + ":" + pubkey + ":" + challenge
  }

  function AckRaw(currency: string, pubkey: PubKey, challenge: string): string {
    "WS2P:ACK:" + currency + ":" + pubkey + ":" + challenge
  }

  function OkRaw(currency: string, pubkey: PubKey, challenge: string): string {
    "WS2P:OK:" + currency + ":" + pubkey + ":" + challenge
  }

  /** What a node knows for all its connections. */
  datatype Node = Node(crypto: Crypto, currency: string, keys: KeyPair) {
    function Connecting(challenge: string): Auth {
      ConnectMess(keys.public, challenge, crypto.sign(keys, ConnectRaw(currency, keys.public, challenge)))
    }

    function Acknowledging(challenge: string): Auth {
      AckMess(keys.public, crypto.sign(keys, AckRaw(currency, keys.public, challenge)))
    }

    function Confirming(challenge: string): Auth {
      OkMess(crypto.sign(keys, OkRaw(currency, keys.public, challenge)))
    }
  }

  // ---- the handler's checks ----

  datatype Meta = Meta(state: State, remotePubkey: Option<PubKey>, challenge: string, remoteChallenge: string)

  /** The connection afterwards, and what is reported to the conductor: None if the thread panics. */
  type Verdict = (Meta, Option<Payload>)

  function CheckedConnect(m: Meta, node: Node, auth: Auth, rest: Rest): Verdict
    requires auth.ConnectMess?
  {
    if !node.crypto.verify(auth.pubkey, ConnectRaw(node.currency, auth.pubkey, auth.challenge), auth.sig) then
      (m, Some(Passed(rest)))
    else if m.remotePubkey.None? then (m, None)
    else if m.remotePubkey.value != auth.pubkey then (m, Some(Passed(rest)))
    else if m.state != WaitingConnectMess then (m, Some(InvalidMessage))
    else (m.(state := ConnectMessOk, remoteChallenge := auth.challenge),
          Some(ValidConnectMessage(node.Acknowledging(auth.challenge), ConnectMessOk)))
  }

  function CheckedAck(m: Meta, node: Node, auth: Auth, rest: Rest): Verdict
    requires auth.AckMess?
  {
    if !node.crypto.verify(auth.pubkey, AckRaw(node.currency, auth.pubkey, m.challenge), auth.sig) then
      (m, Some(Passed(rest)))
    else if m.state == ConnectMessOk then
      (m.(state := AckMessOk), Some(ValidAckMessage(node.Confirming(m.challenge), AckMessOk)))
    else if m.state == OkMessOkWaitingAckMess then
      (m.(state := Established), Some(ValidAckMessage(node.Confirming(m.challenge), Established)))
    else (m, Some(InvalidMessage))
  }

  function CheckedOk(m: Meta, node: Node, auth: Auth): Verdict
    requires auth.OkMess?
  {
    if m.remotePubkey.None? then (m, None)
    else if !node.crypto.verify(m.remotePubkey.value,
                                OkRaw(node.currency, m.remotePubkey.value, m.remoteChallenge), auth.sig) then
      (m, Some(InvalidMessage))
    else if m.state == ConnectMessOk then (m.(state := OkMessOkWaitingAckMess), Some(ValidOk(OkMessOkWaitingAckMess)))
    else if m.state == AckMessOk then (m.(state := Established), Some(ValidOk(Established)))
    else (m, Some(InvalidMessage))
  }

  function Checked(m: Meta, node: Node, msg: Incoming): Verdict {
    match msg
    case Plain(rest) => (m, Some(Passed(rest)))
    case Malformed => (m, None)
    case Authentication(auth, rest) =>
      match auth
      case ConnectMess(_, _, _) => CheckedConnect(m, node, auth, rest)
      case AckMess(_, _) => CheckedAck(m, node, auth, rest)
      case OkMess(_) => CheckedOk(m, node, auth)
  }

  class ConnectionMetaDatas {
    var state: State
    var remotePubkey: Option<PubKey>
    var challenge: string
    var remoteChallenge: string

    constructor (challenge: string)
      ensures Value() == Meta(WaitingConnectMess, None, challenge, "")
    {
      state, remotePubkey, remoteChallenge := WaitingConnectMess, None, "";
      this.challenge := challenge;
    }

    ghost function Value(): Meta
      reads this
    {
      Meta(state, remotePubkey, challenge, remoteChallenge)
    }

    method ParseAndCheckIncomingMessage(node: Node, msg: Incoming) returns (payload: Option<Payload>)
      modifies this
      ensures (Value(), payload) == Checked(old(Value()), node, msg)
    {
      match msg {
        case Plain(_) =>
        case Malformed => return None;
        case Authentication(auth, _) =>
          match auth {
            case ConnectMess(pubkey, theirChallenge, sig) =>
              if node.crypto.verify(pubkey, ConnectRaw(node.currency, pubkey, theirChallenge), sig) {
                if remotePubkey.None? {
                  return None;
                }
                if pubkey == remotePubkey.value {
                  if state != WaitingConnectMess {
                    return Some(InvalidMessage);
                  }
                  state := ConnectMessOk;
                  remoteChallenge := theirChallenge;
                  return Some(ValidConnectMessage(node.Acknowledging(remoteChallenge), state));
                }
              }
            case AckMess(pubkey, sig) =>
              if node.crypto.verify(pubkey, AckRaw(node.currency, pubkey, challenge), sig) {
                match state {
                  case ConnectMessOk => state := AckMessOk;
                  case OkMessOkWaitingAckMess => state := Established;
                  case _ => return Some(InvalidMessage);
                }
                return Some(ValidAckMessage(node.Confirming(challenge), state));
              }
            case OkMess(sig) =>
              if remotePubkey.None? {
                return None;
              }
              var expected := OkRaw(node.currency, remotePubkey.value, remoteChallenge);
              if !node.crypto.verify(remotePubkey.value, expected, sig) {
                return Some(InvalidMessage);
              }
              match state {
                case ConnectMessOk => state := OkMessOkWaitingAckMess;
                case AckMessOk => state := Established;
                case _ => return Some(InvalidMessage);
              }
              return Some(ValidOk(state));
          }
      }
      payload := Some(Passed(msg.rest));
    }
  }

  /** The handler of one connection: `toConductor` and `wire` are what it has sent so far.  The conductor
      cannot be reached once its thread has ended; the handler then closes the connection. */
  class Client {
    const node: Node
    const connectMessage: Auth
    const metaDatas: ConnectionMetaDatas
    var toConductor: seq<Payload>
    var wire: seq<Auth>
    var panicked: bool
    var closed: bool

    constructor (node: Node, challenge: string, remote: PubKey)
      ensures fresh(metaDatas) && metaDatas.Value() == Meta(WaitingConnectMess, Some(remote), challenge, "")
      ensures this.node == node && connectMessage == node.Connecting(challenge)
      ensures toConductor == [] && wire == [] && !panicked && !closed
    {
      var meta := new ConnectionMetaDatas(challenge);
      meta.remotePubkey := Some(remote);
      this.node, metaDatas, connectMessage := node, meta, node.Connecting(challenge);
      toConductor, wire, panicked, closed := [], [], false, false;
    }

    method OnOpen(reachable: bool)
      modifies this
      ensures panicked == old(panicked)
      ensures reachable ==> toConductor == old(toConductor) + [WebsocketOk] && wire == old(wire) + [connectMessage]
      ensures !reachable ==> toConductor == old(toConductor) && wire == old(wire)
      ensures closed <==> old(closed) || !reachable
    {
      if reachable {
        toConductor := toConductor + [WebsocketOk];
        wire := wire + [connectMessage];
      } else {
        closed := true;
      }
    }

    method OnMessage(msg: Incoming, reachable: bool)
      modifies this, metaDatas
      ensures var (meta, payload) := Checked(old(metaDatas.Value()), node, msg);
        && metaDatas.Value() == meta && wire == old(wire)
        && toConductor == old(toConductor) + (if reachable then Reported(payload) else [])
        && (panicked <==> old(panicked) || payload.None?)
        && (closed <==> old(closed) || (payload.Some? && !reachable))
    {
      var payload := metaDatas.ParseAndCheckIncomingMessage(node, msg);
      match payload
      case Some(p) =>
        if reachable {
          toConductor := toConductor + [p];
        } else {
          closed := true;
        }
      case None => panicked := true;
    }

    /** The deadline of the negotiation. */
    method OnConnectTimeout(reachable: bool)
      modifies this
      ensures var late := metaDatas.state != Established;
        && toConductor == old(toConductor) + (if late && reachable then [NegociationTimeout] else [])
        && (closed <==> old(closed) || late)
        && wire == old(wire) && panicked == old(panicked)
    {
      if metaDatas.state != Established {
        if reachable {
          toConductor := toConductor + [NegociationTimeout];
        }
        closed := true;
      }
    }

    /** Nothing has happened on the connection for too long. */
    method OnExpireTimeout(reachable: bool)
      modifies this
      ensures toConductor == old(toConductor) + (if reachable then [Timeout] else []) && closed
      ensures wire == old(wire) && panicked == old(panicked)
    {
      if reachable {
        toConductor := toConductor + [Timeout];
      }
      closed := true;
    }

    method OnClose(reachable: bool)
      modifies this
      ensures toConductor == old(toConductor) + (if reachable then [Closing] else [])
      ensures wire == old(wire) && panicked == old(panicked) && closed == old(closed)
    {
      if reachable {
        toConductor := toConductor + [Closing];
      }
    }
  }

  function Reported(payload: Option<Payload>): seq<Payload> {
    match payload
    case Some(p) => [p]
    case None => []
  }

  // ---- one connection, whatever the peer sends ----

  function Start(challenge: string, remote: PubKey): Meta {
    Meta(WaitingConnectMess, Some(remote), challenge, "")
  }

  function MetaAfter(m: Meta, node: Node, msgs: seq<Incoming>): Meta {
    if msgs == [] then m else Checked(MetaAfter(m, node, msgs[..|msgs| - 1]), node, msgs[|msgs| - 1]).0
  }

  function Payloads(m: Meta, node: Node, msgs: seq<Incoming>): seq<Payload> {
    if msgs == [] then []
    else
      var front := msgs[..|msgs| - 1];
      Payloads(m, node, front) + Reported(Checked(MetaAfter(m, node, front), node, msgs[|msgs| - 1]).1)
  }

  datatype Kind = CONNECT | ACK | OK

  function Accepted(payload: Payload): seq<Kind> {
    match payload
    case ValidConnectMessage(_, _) => [CONNECT]
    case ValidAckMessage(_, _) => [ACK]
    case ValidOk(_) => [OK]
    case _ => []
  }

  function AllAccepted(payloads: seq<Payload>): seq<Kind> {
    if payloads == [] then []
    else AllAccepted(payloads[..|payloads| - 1]) + Accepted(payloads[|payloads| - 1])
  }

  function Rank(state: State): nat {
    match state
    case ConnectMessOk => 1
    case OkMessOkWaitingAckMess => 2
    case AckMessOk => 2
    case Established => 3
    case _ => 0
  }

  /** The state a connection is in after the messages of the given kinds were accepted. */
  ghost predicate Explains(kinds: seq<Kind>, state: State) {
    match state
    case WaitingConnectMess => kinds == []
    case ConnectMessOk => kinds == [CONNECT]
    case AckMessOk => kinds == [CONNECT, ACK]
    case OkMessOkWaitingAckMess => kinds == [CONNECT, OK]
    case Established => kinds == [CONNECT, ACK, OK] || kinds == [CONNECT, OK, ACK]
    case _ => false
  }

  lemma AcceptedSnoc(payloads: seq<Payload>, payload: Option<Payload>)
    ensures AllAccepted(payloads + Reported(payload)) ==
            AllAccepted(payloads) + match payload { case Some(p) => Accepted(p) case None => [] }
  {
    match payload
    case Some(p) => assert (payloads + [p])[..|payloads|] == payloads;
    case None => assert payloads + [] == payloads;
  }

  lemma ExplainsStep(m: Meta, node: Node, msg: Incoming, kinds: seq<Kind>)
    requires Explains(kinds, m.state)
    ensures Explains(kinds + match Checked(m, node, msg).1 { case Some(p) => Accepted(p) case None => [] },
                     Checked(m, node, msg).0.state)
  {
    assert kinds + [] == kinds;
  }

  /** Whatever a peer sends, the state of a connection is exactly what it has accepted: in particular
      it is established if and only if one CONNECT, one ACK and one OK were accepted, CONNECT first. */
  lemma {:induction false} StateIsWhatWasAccepted(challenge: string, remote: PubKey, node: Node, msgs: seq<Incoming>)
    ensures var m := Start(challenge, remote);
      Explains(AllAccepted(Payloads(m, node, msgs)), MetaAfter(m, node, msgs).state)
    decreases msgs
  {
    var m := Start(challenge, remote);
    if msgs == [] {
    } else {
      hide Explains, Checked, AllAccepted, Accepted;
      var front, last := msgs[..|msgs| - 1], msgs[|msgs| - 1];
      StateIsWhatWasAccepted(challenge, remote, node, front);
      var before := MetaAfter(m, node, front);
      ExplainsStep(before, node, last, AllAccepted(Payloads(m, node, front)));
      AcceptedSnoc(Payloads(m, node, front), Checked(before, node, last).1);
    }
  }

  lemma RankCountsAccepted(challenge: string, remote: PubKey, node: Node, msgs: seq<Incoming>)
    ensures var m := Start(challenge, remote);
      Rank(MetaAfter(m, node, msgs).state) == |AllAccepted(Payloads(m, node, msgs))|
  {
    hide AllAccepted, MetaAfter, Payloads;
    StateIsWhatWasAccepted(challenge, remote, node, msgs);
  }

  /** A message that is not accepted changes nothing; one that is raises the rank by one. */
  lemma AcceptedIffStateChanges(m: Meta, node: Node, msg: Incoming)
    ensures var (m', p) := Checked(m, node, msg);
      && (p.None? || Accepted(p.value) == [] ==> m' == m)
      && (p.Some? && Accepted(p.value) != [] ==> Rank(m'.state) == Rank(m.state) + 1)
      && m'.challenge == m.challenge && m'.remotePubkey == m.remotePubkey
  {
  }

  /** Who vouches for what: a CONNECT must be signed by the expected peer, an ACK by the key it names
      over the challenge of this side, an OK by the expected peer over the challenge of its CONNECT. */
  lemma AcceptedIff(m: Meta, node: Node, auth: Auth, rest: Rest)
    requires m.remotePubkey.Some?
    ensures var p := Checked(m, node, Authentication(auth, rest)).1; var remote := m.remotePubkey.value;
      && p.Some?
      && (Accepted(p.value) != [] <==>
          match auth
          case ConnectMess(pubkey, challenge, sig) =>
            m.state == WaitingConnectMess && pubkey == remote &&
            node.crypto.verify(remote, ConnectRaw(node.currency, remote, challenge), sig)
          case AckMess(pubkey, sig) =>
            (m.state == ConnectMessOk || m.state == OkMessOkWaitingAckMess) &&
            node.crypto.verify(pubkey, AckRaw(node.currency, pubkey, m.challenge), sig)
          case OkMess(sig) =>
            (m.state == ConnectMessOk || m.state == AckMessOk) &&
            node.crypto.verify(remote, OkRaw(node.currency, remote, m.remoteChallenge), sig))
  {
    hide ConnectRaw, AckRaw, OkRaw;
  }

  /** The handler panics on a malformed authentication message and, as long as it does not know whose
      connection it is, on any OK and on any CONNECT that is correctly signed. */
  lemma PanicsIff(m: Meta, node: Node, msg: Incoming)
    ensures Checked(m, node, msg).1.None? <==>
      msg.Malformed? ||
      (m.remotePubkey.None? && msg.Authentication? &&
       (msg.auth.OkMess? ||
        (msg.auth.ConnectMess? &&
         node.crypto.verify(msg.auth.pubkey, ConnectRaw(node.currency, msg.auth.pubkey, msg.auth.challenge),
                            msg.auth.sig))))
  {
  }

  /** What is reported of a message that is not accepted: one that speaks out of turn is invalid, and so is
      an OK with a wrong signature; of any other the authentication part is ignored. */
  lemma RefusedIff(m: Meta, node: Node, msg: Incoming)
    ensures var report := Checked(m, node, msg).1;
      && (report == Some(InvalidMessage) <==>
          msg.Authentication? &&
          match msg.auth
          case ConnectMess(pubkey, challenge, sig) =>
            node.crypto.verify(pubkey, ConnectRaw(node.currency, pubkey, challenge), sig) &&
            m.remotePubkey == Some(pubkey) && m.state != WaitingConnectMess
          case AckMess(pubkey, sig) =>
            node.crypto.verify(pubkey, AckRaw(node.currency, pubkey, m.challenge), sig) &&
            m.state != ConnectMessOk && m.state != OkMessOkWaitingAckMess
          case OkMess(sig) =>
            m.remotePubkey.Some? &&
            (node.crypto.verify(m.remotePubkey.value,
                                OkRaw(node.currency, m.remotePubkey.value, m.remoteChallenge), sig) ==>
             m.state != ConnectMessOk && m.state != AckMessOk))
      && (report.Some? && report.value.Passed? <==>
          match msg
          case Plain(_) => true
          case Malformed => false
          case Authentication(ConnectMess(pubkey, challenge, sig), _) =>
            !node.crypto.verify(pubkey, ConnectRaw(node.currency, pubkey, challenge), sig) ||
            (m.remotePubkey.Some? && m.remotePubkey.value != pubkey)
          case Authentication(AckMess(pubkey, sig), _) =>
            !node.crypto.verify(pubkey, AckRaw(node.currency, pubkey, m.challenge), sig)
          case Authentication(OkMess(_), _) => false)
      && (report.Some? && report.value.Passed? ==> report.value.rest == msg.rest)
  {
    hide ConnectRaw, AckRaw, OkRaw;
  }

  /** What is answered to a message that is accepted: the challenge of the peer's CONNECT is acknowledged,
      the challenge of this side confirmed. */
  lemma AnswersAre(m: Meta, node: Node, msg: Incoming)
    ensures var (m', report) := Checked(m, node, msg);
      && (report.Some? && report.value.ValidConnectMessage? ==>
            msg.Authentication? && msg.auth.ConnectMess? && m'.remoteChallenge == msg.auth.challenge &&
            report.value.response == node.Acknowledging(msg.auth.challenge))
      && (report.Some? && report.value.ValidAckMessage? ==>
            report.value.response == node.Confirming(m.challenge))
      && (!(report.Some? && report.value.ValidConnectMessage?) ==> m'.remoteChallenge == m.remoteChallenge)
  {
    hide ConnectRaw, AckRaw, OkRaw;
  }

  // ---- the texts that are signed ----

  /** Fields separated by colons. */
  function Joined(fields: seq<string>): string {
    if fields == [] then ""
    else if |fields| == 1 then fields[0]
    else fields[0] + ":" + Joined(fields[1..])
  }

  lemma JoinedCons(first: string, rest: seq<string>)
    requires rest != []
    ensures Joined([first] + rest) == first + ":" + Joined(rest)
    ensures Joined([first]) == first
  {
    assert ([first] + rest)[1..] == rest;
  }

  lemma FiveJoined(a: string, b: string, c: string, d: string, e: string)
    ensures Joined([a, b, c, d, e]) == a + ":" + (b + ":" + (c + ":" + (d + ":" + e)))
  {
    JoinedCons(d, [e]);
    JoinedCons(c, [d, e]);
    JoinedCons(b, [c, d, e]);
    JoinedCons(a, [b, c, d, e]);
  }

  /** Protocol, kind of message, currency, key, and challenge. */
  lemma TextsAre(currency: string, pubkey: PubKey, challenge: string)
    ensures ConnectRaw(currency, pubkey, challenge) == Joined(["WS2P", "CONNECT", currency, pubkey, challenge])
    ensures AckRaw(currency, pubkey, challenge) == Joined(["WS2P", "ACK", currency, pubkey, challenge])
    ensures OkRaw(currency, pubkey, challenge) == Joined(["WS2P", "OK", currency, pubkey, challenge])
  {
    hide Joined;
    FiveJoined("WS2P", "CONNECT", currency, pubkey, challenge);
    FiveJoined("WS2P", "ACK", currency, pubkey, challenge);
    FiveJoined("WS2P", "OK", currency, pubkey, challenge);
  }

  ghost predicate NoColon(s: string) {
    forall i :: 0 <= i < |s| ==> s[i] != ':'
  }

  lemma FieldEnds(a: string, rest: string, b: string, rest': string)
    requires NoColon(a) && NoColon(b) && a + ":" + rest == b + ":" + rest'
    ensures a == b && rest == rest'
  {
    var text := a + ":" + rest;
    assert text[|a|] == ':' && text[|b|] == ':';
    assert forall i :: 0 <= i < |a| ==> text[i] == a[i];
    assert forall i :: 0 <= i < |b| ==> text[i] == b[i];
    assert |a| == |b|;
    assert text[..|a|] == a && text[..|b|] == b;
    assert text[|a| + 1..] == rest && text[|b| + 1..] == rest';
  }

  /** As long as neither currencies nor keys contain a colon, a text tells its kind, its currency, its key
      and its challenge apart from all others: no signature made for one can serve for another. */
  lemma TextsTellApart(kind: string, currency: string, pubkey: PubKey, challenge: string,
                       kind': string, currency': string, pubkey': PubKey, challenge': string)
    requires NoColon(kind) && NoColon(currency) && NoColon(pubkey)
    requires NoColon(kind') && NoColon(currency') && NoColon(pubkey')
    requires Joined(["WS2P", kind, currency, pubkey, challenge]) ==
             Joined(["WS2P", kind', currency', pubkey', challenge'])
    ensures kind == kind' && currency == currency' && pubkey == pubkey' && challenge == challenge'
  {
    FiveJoined("WS2P", kind, currency, pubkey, challenge);
    FiveJoined("WS2P", kind', currency', pubkey', challenge');
    hide Joined;
    FieldEnds("WS2P", kind + ":" + (currency + ":" + (pubkey + ":" + challenge)),
              "WS2P", kind' + ":" + (currency' + ":" + (pubkey' + ":" + challenge')));
    FieldEnds(kind, currency + ":" + (pubkey + ":" + challenge), kind', currency' + ":" + (pubkey' + ":" + challenge'));
    FieldEnds(currency, pubkey + ":" + challenge, currency', pubkey' + ":" + challenge');
    FieldEnds(pubkey, challenge, pubkey', challenge');
  }

  /** What the handler can report, and when. */
  lemma ReportCases(m: Meta, node: Node, msg: Incoming)
    requires Checked(m, node, msg).1.Some?
    ensures var p, m' := Checked(m, node, msg).1.value, Checked(m, node, msg).0;
      match p
      case ValidConnectMessage(response, state) =>
        m.state == WaitingConnectMess && state == ConnectMessOk && m'.state == state && response.AckMess?
      case ValidAckMessage(response, state) =>
        && response.OkMess? && m'.state == state
        && ((m.state == ConnectMessOk && state == AckMessOk) ||
            (m.state == OkMessOkWaitingAckMess && state == Established))
      case ValidOk(state) =>
        && m'.state == state
        && ((m.state == ConnectMessOk && state == OkMessOkWaitingAckMess) ||
            (m.state == AckMessOk && state == Established))
      case _ => m' == m && (p.Passed? || p.InvalidMessage?)
  {
  }
}
