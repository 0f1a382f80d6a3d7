/**
  Two nodes that both follow the handler and the conductor, connected by two channels that keep the
  order of messages.  At each moment either node may open, receive the next message, or let its
  conductor handle what its handler reported.
 */
module TwoPeers {
  import opened Wrappers
  import opened Handshake
  import opened Conductor

  datatype Party = Party(node: Node, challenge: string)

  /** One side: `queue` is on its way from the handler to the conductor, `inbox` from the other side. */
  datatype End = End(isOpen: bool, meta: Meta, queue: seq<Payload>, desk: Desk, announced: nat, inbox: seq<Auth>)

  datatype Action = Open | Receive | Handle

  datatype Side = Left | Right

  datatype Net = Net(left: End, right: End)

  datatype Pair = Pair(left: Party, right: Party)

  /** Both use one signature scheme and one currency. */
  ghost predicate Compatible(p: Pair) {
    && p.left.node.crypto == p.right.node.crypto && p.left.node.currency == p.right.node.currency
    && SignThenVerify(p.left.node.crypto)
  }

  function Fresh(me: Party, you: Party): End {
    End(false, Start(me.challenge, you.node.keys.public), [], Desk(NeverTry, false), 0, [])
  }

  function Acted(party: Party, me: End, you: End, action: Action): (End, End) {
    match action
    case Open =>
      if me.isOpen then (me, you)
      else (me.(isOpen := true, queue := me.queue + [WebsocketOk]),
            you.(inbox := you.inbox + [party.node.Connecting(party.challenge)]))
    case Receive =>
      if !me.isOpen || me.inbox == [] then (me, you)
      else
        var v := Checked(me.meta, party.node, Authentication(me.inbox[0], UnknowMessage));
        (me.(meta := v.0, inbox := me.inbox[1..], queue := me.queue + Reported(v.1)), you)
    case Handle =>
      if me.queue == [] then (me, you)
      else
        var c := Conduct(me.desk, me.queue[0], SMOOTH);
        (me.(queue := me.queue[1..], desk := c.desk,
             announced := me.announced + if c.signal == Some(ConnectionEstablished) then 1 else 0),
         you.(inbox := you.inbox + c.sent))
  }

  function NetStep(p: Pair, net: Net, side: Side, action: Action): Net {
    match side
    case Left => var (me, you) := Acted(p.left, net.left, net.right, action); Net(me, you)
    case Right => var (me, you) := Acted(p.right, net.right, net.left, action); Net(you, me)
  }

  function NetAfter(p: Pair, run: seq<(Side, Action)>): Net {
    if run == [] then Net(Fresh(p.left, p.right), Fresh(p.right, p.left))
    else NetStep(p, NetAfter(p, run[..|run| - 1]), run[|run| - 1].0, run[|run| - 1].1)
  }

  // ---- the script every run follows ----

  /** How far one side has come. */
  datatype Count = Count(isOpen: bool, received: nat, handled: nat)

  /** How many messages a side has sent: one when it opens, one each when its conductor handles the
      first and the second thing reported after the opening. */
  function Sent(c: Count): nat {
    if !c.isOpen then 0 else if c.handled <= 1 then 1 else if c.handled == 2 then 2 else 3
  }

  predicate Possible(me: Count, you: Count) {
    && (if me.isOpen then me.handled <= 1 + me.received else me.handled == 0 && me.received == 0)
    && me.received <= Sent(you)
  }

  function Messages(from: Party, to: Party): seq<Auth> {
    [from.node.Connecting(from.challenge), from.node.Acknowledging(to.challenge), from.node.Confirming(from.challenge)]
  }

  function Reports(me: Party, you: Party): seq<Payload> {
    [WebsocketOk, ValidConnectMessage(me.node.Acknowledging(you.challenge), ConnectMessOk),
     ValidAckMessage(me.node.Confirming(me.challenge), AckMessOk), ValidOk(Established)]
  }

  function StateAt(n: nat): State {
    if n == 0 then WaitingConnectMess else if n == 1 then ConnectMessOk else if n == 2 then AckMessOk else Established
  }

  function MetaAt(me: Party, you: Party, received: nat): Meta {
    Meta(StateAt(received), Some(you.node.keys.public), me.challenge, if received == 0 then "" else you.challenge)
  }

  function DeskAt(handled: nat): Desk {
    Desk(if handled <= 1 then NeverTry else StateAt(handled - 1), handled > 0)
  }

  function EndAt(me: Party, you: Party, c: Count, yours: Count): End
    requires Possible(c, yours)
  {
    End(c.isOpen, MetaAt(me, you, c.received),
        if c.isOpen then Reports(me, you)[c.handled..1 + c.received] else [],
        DeskAt(c.handled), if c.handled == 4 then 1 else 0,
        Messages(you, me)[c.received..Sent(yours)])
  }

  function Counted(me: Count, you: Count, action: Action): Count {
    match action
    case Open => me.(isOpen := true)
    case Receive => if me.isOpen && me.received < Sent(you) then me.(received := me.received + 1) else me
    case Handle => if me.isOpen && me.handled < 1 + me.received then me.(handled := me.handled + 1) else me
  }

  function CountsAfter(run: seq<(Side, Action)>): (Count, Count) {
    if run == [] then (Count(false, 0, 0), Count(false, 0, 0))
    else
      var (l, r) := CountsAfter(run[..|run| - 1]);
      match run[|run| - 1].0
      case Left => (Counted(l, r, run[|run| - 1].1), r)
      case Right => (l, Counted(r, l, run[|run| - 1].1))
  }

  ghost predicate Honest(me: Party, you: Party) {
    me.node.crypto == you.node.crypto && me.node.currency == you.node.currency && SignThenVerify(me.node.crypto)
  }

  /** The next scripted message is accepted, and moves the connection on as scripted. */
  lemma ScriptedMessageAccepted(me: Party, you: Party, n: nat)
    requires Honest(me, you) && n < 3
    ensures Checked(MetaAt(me, you, n), me.node, Authentication(Messages(you, me)[n], UnknowMessage)) ==
            (MetaAt(me, you, n + 1), Some(Reports(me, you)[n + 1]))
  {
    hide ConnectRaw, AckRaw, OkRaw;
  }

  /** The next scripted report makes the conductor send the next scripted message. */
  lemma ScriptedReportHandled(me: Party, you: Party, n: nat)
    requires n < 4
    ensures Conduct(DeskAt(n), Reports(me, you)[n], SMOOTH) ==
            Conducted(DeskAt(n + 1), if n == 1 || n == 2 then [Messages(me, you)[n]] else [],
                      Some(if n == 3 then ConnectionEstablished else Empty))
  {
  }

  lemma SliceGrows<T>(s: seq<T>, i: nat, j: nat)
    requires i <= j < |s|
    ensures s[i..j] + [s[j]] == s[i..j + 1] && s[i..j] + [] == s[i..j]
  {
  }

  lemma SliceShrinks<T>(s: seq<T>, i: nat, j: nat)
    requires i < j <= |s|
    ensures s[i..j] != [] && s[i..j][0] == s[i] && s[i..j][1..] == s[i + 1..j]
  {
  }

  lemma OpenScripted(me: Party, you: Party, c: Count, yours: Count)
    requires Honest(me, you) && Possible(c, yours) && Possible(yours, c) && !c.isOpen
    ensures var c' := Counted(c, yours, Open);
      && Possible(c', yours) && Possible(yours, c')
      && Acted(me, EndAt(me, you, c, yours), EndAt(you, me, yours, c), Open) ==
          (EndAt(me, you, c', yours), EndAt(you, me, yours, c'))
  {
    hide Honest, MetaAt, DeskAt;
    assert c == Count(false, 0, 0) && yours.received == 0;
    SliceGrows(Reports(me, you), 0, 0);
    SliceGrows(Messages(me, you), 0, 0);
  }

  lemma ReceiveScripted(me: Party, you: Party, c: Count, yours: Count)
    requires Honest(me, you) && Possible(c, yours) && Possible(yours, c) && c.isOpen && c.received < Sent(yours)
    ensures var c' := Counted(c, yours, Receive);
      && Possible(c', yours) && Possible(yours, c')
      && Acted(me, EndAt(me, you, c, yours), EndAt(you, me, yours, c), Receive) ==
          (EndAt(me, you, c', yours), EndAt(you, me, yours, c'))
  {
    hide Checked, MetaAt, DeskAt, Honest;
    SliceShrinks(Messages(you, me), c.received, Sent(yours));
    ScriptedMessageAccepted(me, you, c.received);
    SliceGrows(Reports(me, you), c.handled, 1 + c.received);
  }

  /** What the conductor sends is the next part of the script, if it sends anything. */
  lemma SentScripted(messages: seq<Auth>, received: nat, c: Count)
    requires |messages| == 3 && received <= Sent(c) && c.isOpen && c.handled < 4
    ensures messages[received..Sent(c)] + (if c.handled == 1 || c.handled == 2 then [messages[c.handled]] else []) ==
            messages[received..Sent(c.(handled := c.handled + 1))]
  {
    if c.handled == 1 || c.handled == 2 {
      SliceGrows(messages, received, c.handled);
    } else {
      assert messages[received..Sent(c)] + [] == messages[received..Sent(c)];
    }
  }

  lemma HandleScripted(me: Party, you: Party, c: Count, yours: Count)
    requires Honest(me, you) && Possible(c, yours) && Possible(yours, c) && c.isOpen && c.handled < 1 + c.received
    ensures var c' := Counted(c, yours, Handle);
      && Possible(c', yours) && Possible(yours, c')
      && Acted(me, EndAt(me, you, c, yours), EndAt(you, me, yours, c), Handle) ==
          (EndAt(me, you, c', yours), EndAt(you, me, yours, c'))
  {
    hide Conduct, MetaAt, DeskAt, Honest;
    assert |Reports(me, you)| == 4 && |Messages(me, you)| == 3 && |Messages(you, me)| == 3;
    hide Reports, Messages;
    SliceShrinks(Reports(me, you), c.handled, 1 + c.received);
    ScriptedReportHandled(me, you, c.handled);
    SentScripted(Messages(me, you), yours.received, c);
  }

  lemma ActScripted(me: Party, you: Party, c: Count, yours: Count, action: Action)
    requires Honest(me, you) && Possible(c, yours) && Possible(yours, c)
    ensures var c' := Counted(c, yours, action);
      && Possible(c', yours) && Possible(yours, c')
      && Acted(me, EndAt(me, you, c, yours), EndAt(you, me, yours, c), action) ==
          (EndAt(me, you, c', yours), EndAt(you, me, yours, c'))
  {
    hide Honest, Checked, Conduct, MetaAt, DeskAt;
    match action
    case Open => if !c.isOpen { OpenScripted(me, you, c, yours); }
    case Receive => if c.isOpen && c.received < Sent(yours) { ReceiveScripted(me, you, c, yours); }
    case Handle => if c.isOpen && c.handled < 1 + c.received { HandleScripted(me, you, c, yours); }
  }

  ghost predicate Scripted(p: Pair, net: Net, counts: (Count, Count)) {
    && Possible(counts.0, counts.1) && Possible(counts.1, counts.0)
    && net == Net(EndAt(p.left, p.right, counts.0, counts.1), EndAt(p.right, p.left, counts.1, counts.0))
  }

  /** The invariant: every reachable state, channels included, is fixed by how far each side has come. */
  lemma {:induction false} EveryRunIsScripted(p: Pair, run: seq<(Side, Action)>)
    requires Compatible(p)
    ensures Scripted(p, NetAfter(p, run), CountsAfter(run))
    decreases run
  {
    if run == [] {
    } else {
      hide Acted, Counted, EndAt, Possible;
      var (l, r) := CountsAfter(run[..|run| - 1]);
      EveryRunIsScripted(p, run[..|run| - 1]);
      match run[|run| - 1].0
      case Left => ActScripted(p.left, p.right, l, r, run[|run| - 1].1);
      case Right => ActScripted(p.right, p.left, r, l, run[|run| - 1].1);
    }
  }

  // ---- what follows ----

  function At(net: Net, side: Side): End {
    match side case Left => net.left case Right => net.right
  }

  function PartyAt(p: Pair, side: Side): Party {
    match side case Left => p.left case Right => p.right
  }

  /** In no reachable state is a message rejected: whatever is next in an inbox will be accepted, or
      is already there before its receiver has opened and will be accepted then. */
  lemma NothingRejected(p: Pair, run: seq<(Side, Action)>, side: Side)
    requires Compatible(p) && At(NetAfter(p, run), side).inbox != []
    ensures var e := At(NetAfter(p, run), side);
      var v := Checked(e.meta, PartyAt(p, side).node, Authentication(e.inbox[0], UnknowMessage));
      v.1.Some? && Accepted(v.1.value) != []
  {
    hide Checked, NetAfter, CountsAfter, EndAt, Possible, Accepted;
    EveryRunIsScripted(p, run);
    var (l, r) := CountsAfter(run);
    match side
    case Left => NextAccepted(p.left, p.right, l, r);
    case Right => NextAccepted(p.right, p.left, r, l);
  }

  lemma NextAccepted(me: Party, you: Party, c: Count, yours: Count)
    requires Honest(me, you) && Possible(c, yours) && Possible(yours, c) && EndAt(me, you, c, yours).inbox != []
    ensures var e := EndAt(me, you, c, yours);
      var v := Checked(e.meta, me.node, Authentication(e.inbox[0], UnknowMessage));
      v.1.Some? && Accepted(v.1.value) != []
  {
    hide Checked, MetaAt, DeskAt, Honest;
    SliceShrinks(Messages(you, me), c.received, Sent(yours));
    ScriptedMessageAccepted(me, you, c.received);
  }

  /** An OK never overtakes an ACK, and neither side gives the connection up. */
  lemma OkNeverBeforeAck(p: Pair, run: seq<(Side, Action)>, side: Side)
    requires Compatible(p)
    ensures var e := At(NetAfter(p, run), side);
      && e.meta.state in {WaitingConnectMess, ConnectMessOk, AckMessOk, Established}
      && e.desk.state in {NeverTry, ConnectMessOk, AckMessOk, Established}
  {
    hide NetAfter, CountsAfter, Counted, Reports, Messages;
    EveryRunIsScripted(p, run);
  }

  /** The number of actions of a run that had any effect. */
  function Effective(p: Pair, run: seq<(Side, Action)>): nat {
    if run == [] then 0
    else Effective(p, run[..|run| - 1]) + if NetAfter(p, run) != NetAfter(p, run[..|run| - 1]) then 1 else 0
  }

  function Progress(c: Count): nat {
    (if c.isOpen then 1 else 0) + c.received + c.handled
  }

  lemma EffectIffProgress(me: Party, you: Party, c: Count, yours: Count, action: Action)
    requires Honest(me, you) && Possible(c, yours) && Possible(yours, c)
    ensures var before := (EndAt(me, you, c, yours), EndAt(you, me, yours, c));
      Progress(Counted(c, yours, action)) ==
      Progress(c) + if Acted(me, before.0, before.1, action) != before then 1 else 0
  {
    hide Honest, Checked, Conduct, MetaAt, DeskAt;
    var before := (EndAt(me, you, c, yours), EndAt(you, me, yours, c));
    match action
    case Open =>
    case Receive =>
      if c.isOpen && c.received < Sent(yours) {
        assert |Acted(me, before.0, before.1, action).0.inbox| == |before.0.inbox| - 1;
      }
    case Handle =>
      if c.isOpen && c.handled < 1 + c.received {
        assert |Acted(me, before.0, before.1, action).0.queue| == |before.0.queue| - 1;
      }
  }

  lemma {:induction false} EffectiveIsProgress(p: Pair, run: seq<(Side, Action)>)
    requires Compatible(p)
    ensures Effective(p, run) == Progress(CountsAfter(run).0) + Progress(CountsAfter(run).1)
    decreases run
  {
    if run == [] {
    } else {
      hide Acted, Counted, EndAt, Possible, Progress;
      var front, last := run[..|run| - 1], run[|run| - 1];
      var (l, r) := CountsAfter(front);
      EffectiveIsProgress(p, front);
      EveryRunIsScripted(p, front);
      match last.0
      case Left => EffectIffProgress(p.left, p.right, l, r, last.1);
      case Right => EffectIffProgress(p.right, p.left, r, l, last.1);
    }
  }

  /** Every run stops: at most sixteen actions have any effect. */
  lemma EveryRunEnds(p: Pair, run: seq<(Side, Action)>)
    requires Compatible(p)
    ensures Effective(p, run) <= 16
  {
    hide EndAt, Counted;
    EffectiveIsProgress(p, run);
    EveryRunIsScripted(p, run);
  }

  /** Nothing can happen any more: both have opened and nothing is in flight. */
  predicate Quiet(net: Net) {
    && net.left.isOpen && net.left.inbox == [] && net.left.queue == []
    && net.right.isOpen && net.right.inbox == [] && net.right.queue == []
  }

  predicate Connected(e: End) {
    e.meta.state == Established && e.desk == Desk(Established, true) && e.announced == 1
  }

  /** No run gets stuck half way: nothing is left to do if and only if both sides are established, in
      the eyes of handler and conductor, and each conductor has announced the connection once. */
  lemma QuietIffConnected(p: Pair, run: seq<(Side, Action)>)
    requires Compatible(p)
    ensures Quiet(NetAfter(p, run)) <==> Connected(NetAfter(p, run).left) && Connected(NetAfter(p, run).right)
    ensures Quiet(NetAfter(p, run)) <==> Effective(p, run) == 16
  {
    hide NetAfter, CountsAfter, Counted, Effective;
    EveryRunIsScripted(p, run);
    EffectiveIsProgress(p, run);
    var net, counts := NetAfter(p, run), CountsAfter(run);
    EmptyIff(p.left, p.right, counts.0, counts.1);
    EmptyIff(p.right, p.left, counts.1, counts.0);
  }

  lemma EmptyIff(me: Party, you: Party, c: Count, yours: Count)
    requires Possible(c, yours)
    ensures var e := EndAt(me, you, c, yours);
      && (e.inbox == [] <==> c.received == Sent(yours))
      && (e.isOpen ==> (e.queue == [] <==> c.handled == 1 + c.received))
      && (Connected(e) <==> c.isOpen && c.received == 3 && c.handled == 4)
  {
    var e := EndAt(me, you, c, yours);
    assert |e.inbox| == Sent(yours) - c.received;
    assert c.isOpen ==> |e.queue| == 1 + c.received - c.handled;
  }

  /** As long as a run is not quiet, some action has an effect. */
  lemma NotQuietMoves(p: Pair, run: seq<(Side, Action)>)
    requires Compatible(p) && !Quiet(NetAfter(p, run))
    ensures exists side, action :: NetStep(p, NetAfter(p, run), side, action) != NetAfter(p, run)
  {
    var net := NetAfter(p, run);
    if !net.left.isOpen {
      assert NetStep(p, net, Left, Open).left.isOpen;
    } else if !net.right.isOpen {
      assert NetStep(p, net, Right, Open).right.isOpen;
    } else if net.left.inbox != [] {
      assert |NetStep(p, net, Left, Receive).left.inbox| < |net.left.inbox|;
    } else if net.right.inbox != [] {
      assert |NetStep(p, net, Right, Receive).right.inbox| < |net.right.inbox|;
    } else if net.left.queue != [] {
      assert |NetStep(p, net, Left, Handle).left.queue| < |net.left.queue|;
    } else {
      assert |NetStep(p, net, Right, Handle).right.queue| < |net.right.queue|;
    }
  }
}
