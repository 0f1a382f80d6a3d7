/**
  How long the broadcasting thread lives: it ends on a stop, on a registration it cannot accept, and when
  modules are missing after the delay; here it is said on the inputs alone when that happens.
 */
module RouterLife {
  import opened Sequences
  import opened Wrappers
  import opened Router
  import opened RouterDelivery

  // ---- what a run has brought so far ----

  function Registrations(steps: seq<Timed>): nat {
    if steps == [] then 0
    else Registrations(steps[..|steps| - 1]) + if steps[|steps| - 1].input.Register? then 1 else 0
  }

  /** How many modules are to be expected, by the last word on it. */
  function LastCount(steps: seq<Timed>): Option<nat> {
    if steps == [] then None
    else if steps[|steps| - 1].input.ModulesCount? then Some(steps[|steps| - 1].input.count)
    else LastCount(steps[..|steps| - 1])
  }

  predicate IsNetworkModule(t: Timed) {
    t.input.Register? && INTER_NODES_NETWORK in t.input.reg.roles
  }

  predicate NetworkRegistered(steps: seq<Timed>) {
    exists i :: 0 <= i < |steps| && IsNetworkModule(steps[i])
  }

  /** What a module reserved when it last registered. */
  function LatestApis(steps: seq<Timed>, name: Name): Option<seq<ApiPart>> {
    if steps == [] then None
    else if steps[|steps| - 1].input.Register? && steps[|steps| - 1].input.reg.name == name then
      Some(steps[|steps| - 1].input.reg.apis)
    else LatestApis(steps[..|steps| - 1], name)
  }

  function AllEndpoints(steps: seq<Timed>): seq<Endpoint> {
    if steps == [] then []
    else
      AllEndpoints(steps[..|steps| - 1]) +
      if steps[|steps| - 1].input.Register? then steps[|steps| - 1].input.reg.endpoints else []
  }

  ghost predicate Overlap(a: ApiPart, b: ApiPart) {
    a.name == b.name && exists v: nat :: v in a.versions && v in b.versions
  }

  /** Some version that the module wants is reserved. */
  ghost predicate Conflicts(steps: seq<Timed>, apis: seq<ApiPart>) {
    exists n, i, j ::
      LatestApis(steps, n).Some? && 0 <= i < |apis| && 0 <= j < |LatestApis(steps, n).value| &&
      Overlap(apis[i], LatestApis(steps, n).value[j])
  }

  ghost predicate CoveredBy(apis: seq<ApiPart>, ep: Endpoint) {
    exists i :: 0 <= i < |apis| && apis[i].name == ep.api && ep.version in apis[i].versions
  }

  /** Every endpoint belongs to a version that the module reserves. */
  ghost predicate Covered(reg: Registration) {
    forall k :: 0 <= k < |reg.endpoints| ==> CoveredBy(reg.apis, reg.endpoints[k])
  }

  ghost predicate Accepts(steps: seq<Timed>, reg: Registration) {
    !Conflicts(steps, reg.apis) && Covered(reg)
  }

  lemma OverlapIs(a: ApiPart, b: ApiPart)
    ensures UnionExist(a, b) <==> Overlap(a, b)
  {
    if a.versions * b.versions != {} {
      var v :| v in a.versions * b.versions;
    }
    if v: nat :| v in a.versions && v in b.versions {
      assert v in a.versions * b.versions;
    }
  }

  // ---- what the thread keeps is just that ----

  ghost predicate Tracks(b: Broadcast, steps: seq<Timed>) {
    && b.expected == LastCount(steps) && b.registered == Registrations(steps)
    && (INTER_NODES_NETWORK in b.roles <==> NetworkRegistered(steps))
    && b.endpoints == AllEndpoints(steps)
    && ReservedAs(b, steps)
  }

  ghost predicate ReservedAs(b: Broadcast, steps: seq<Timed>) {
    forall n :: LatestApis(steps, n) == if n in b.reserved then Some(b.reserved[n]) else None
  }

  lemma Snoc(steps: seq<Timed>, t: Timed)
    ensures Registrations(steps + [t]) == Registrations(steps) + if t.input.Register? then 1 else 0
    ensures LastCount(steps + [t]) == if t.input.ModulesCount? then Some(t.input.count) else LastCount(steps)
    ensures NetworkRegistered(steps + [t]) <==> NetworkRegistered(steps) || IsNetworkModule(t)
    ensures AllEndpoints(steps + [t]) ==
            AllEndpoints(steps) + if t.input.Register? then t.input.reg.endpoints else []
    ensures forall n :: LatestApis(steps + [t], n) ==
              if t.input.Register? && t.input.reg.name == n then Some(t.input.reg.apis) else LatestApis(steps, n)
  {
    var all := steps + [t];
    assert all[..|steps|] == steps && all[|steps|] == t;
    if NetworkRegistered(steps) {
      var i :| 0 <= i < |steps| && IsNetworkModule(steps[i]);
      assert all[i] == steps[i];
    }
  }

  lemma AcceptsIs(b: Broadcast, steps: seq<Timed>, reg: Registration)
    requires ReservedAs(b, steps)
    ensures Admissible(b.reserved, reg) <==> Accepts(steps, reg)
  {
    hide LatestApis, UnionExist, Overlap;
    forall x, y ensures UnionExist(x, y) <==> Overlap(x, y) {
      OverlapIs(x, y);
    }
    ReservableIs(b.reserved, reg.apis);
    forall ep: Endpoint ensures DeclaredBy(reg.apis, ep) <==> CoveredBy(reg.apis, ep) {
      CoveredIs(reg.apis, ep);
    }
  }

  lemma CoveredIs(apis: seq<ApiPart>, ep: Endpoint)
    ensures DeclaredBy(apis, ep) <==> CoveredBy(apis, ep)
  {
    if DeclaredBy(apis, ep) {
      var i :| 0 <= i < |apis| && Contains(apis[i], ep);
    }
    if i :| 0 <= i < |apis| && apis[i].name == ep.api && ep.version in apis[i].versions {
      assert Contains(apis[i], ep);
    }
  }

  lemma ReservableIs(reserved: map<Name, seq<ApiPart>>, apis: seq<ApiPart>)
    ensures Reservable(reserved, apis) <==>
            forall n, i, j :: n in reserved && 0 <= i < |apis| && 0 <= j < |reserved[n]| ==>
              !UnionExist(apis[i], reserved[n][j])
  {
    hide UnionExist;
    if Reservable(reserved, apis) {
      forall n, i, j | n in reserved && 0 <= i < |apis| && 0 <= j < |reserved[n]|
        ensures !UnionExist(apis[i], reserved[n][j])
      {
        assert AllFree(apis, reserved[n]) && PartFree(apis[i], reserved[n]);
      }
    }
  }

  /** Who has subscribed to a role after a registration. */
  lemma {:induction false} RolesListed(b: Broadcast, reg: Registration, n: nat, role: Role)
    requires n <= |reg.roles|
    ensures role in AddRoles(b, reg, n).roles <==> role in b.roles || role in reg.roles[..n]
    decreases n
  {
    if n > 0 {
      RolesListed(b, reg, n - 1, role);
      assert reg.roles[..n] == reg.roles[..n - 1] + [reg.roles[n - 1]];
    }
  }

  lemma {:induction false} EventsKeepRoles(b: Broadcast, reg: Registration, n: nat)
    requires n <= |reg.events|
    ensures AddEvents(b, reg, n).roles == b.roles && AddEvents(b, reg, n).registered == b.registered
    decreases n
  {
    if n > 0 {
      EventsKeepRoles(b, reg, n - 1);
    }
  }

  lemma SubscribedCounts(b: Broadcast, reg: Registration)
    ensures var s := Subscribed(b, reg);
      && s.registered == b.registered + 1
      && (INTER_NODES_NETWORK in s.roles <==> INTER_NODES_NETWORK in b.roles || INTER_NODES_NETWORK in reg.roles)
  {
    var counted := b.(registered := b.registered + 1);
    var listed := AddEvents(counted, reg, |reg.events|);
    EventsKeepRoles(counted, reg, |reg.events|);
    RolesListed(listed, reg, |reg.roles|, INTER_NODES_NETWORK);
    SendersUntouched(listed, reg, |reg.roles|);
    assert reg.roles[..|reg.roles|] == reg.roles;
  }

  /** A registration that does not end the thread. */
  lemma RegisterTracks(b: Broadcast, steps: seq<Timed>, reg: Registration, now: nat)
    requires Tracks(b, steps) && b.running
    ensures var t := Timed(Register(reg), now);
      && (AfterRegister(b, reg).running <==>
          && Accepts(steps, reg)
          && (LastCount(steps) == Some(Registrations(steps + [t])) ==> NetworkRegistered(steps + [t])))
      && (AfterRegister(b, reg).running ==> Tracks(AfterRegister(b, reg), steps + [t]))
  {
    hide Accepts, Admissible, Subscribed, Registrations, LastCount, NetworkRegistered, AllEndpoints, LatestApis;
    var t := Timed(Register(reg), now);
    Snoc(steps, t);
    AcceptsIs(b, steps, reg);
    SubscribedKeeps(b, reg);
    SubscribedCounts(b, reg);
  }

  lemma CountTracks(b: Broadcast, steps: seq<Timed>, n: nat, now: nat)
    requires Tracks(b, steps)
    ensures Tracks(b.(expected := Some(n)), steps + [Timed(ModulesCount(n), now)])
  {
    hide Registrations, LastCount, NetworkRegistered, AllEndpoints, LatestApis;
    Snoc(steps, Timed(ModulesCount(n), now));
    AppendNothing(AllEndpoints(steps));
  }

  lemma MessageTracks(b: Broadcast, steps: seq<Timed>, msg: DursMsg, now: nat)
    requires Tracks(b, steps) && b.running
    ensures var b' := AfterMessage(b, msg, now);
      && (b'.running <==> msg != Stop)
      && (b'.running ==> Tracks(b', steps + [Timed(Message(msg), now)]))
  {
    hide Registrations, LastCount, NetworkRegistered, AllEndpoints, LatestApis, StoreInPool;
    Snoc(steps, Timed(Message(msg), now));
    AppendNothing(AllEndpoints(steps));
  }

  // ---- exactly when the thread lives ----

  /** The modules that are expected have all registered. */
  predicate AllThere(steps: seq<Timed>) {
    LastCount(steps).Some? && LastCount(steps).value <= Registrations(steps)
  }

  /** Input i does not end the thread: it is not a stop; if it is a registration, it is one that can be
      accepted, and a network module is there if it is the last one expected; and nobody is missing if
      more than 20 seconds have passed. */
  ghost predicate Survives(steps: seq<Timed>, i: nat)
    requires i < |steps|
  {
    && steps[i].input != Message(Stop)
    && (steps[i].input.Register? ==>
        && Accepts(steps[..i], steps[i].input.reg)
        && (LastCount(steps[..i]) == Some(Registrations(steps[..i + 1])) ==> NetworkRegistered(steps[..i + 1])))
    && (steps[i].now > 20 ==> AllThere(steps[..i + 1]))
  }

  lemma StepTracks(b: Broadcast, steps: seq<Timed>, i: nat)
    requires i < |steps| && Tracks(b, steps[..i]) && b.running
    ensures BroadcastStep(b, steps[i].input, steps[i].now).running <==> Survives(steps, i)
    ensures Survives(steps, i) ==> Tracks(BroadcastStep(b, steps[i].input, steps[i].now), steps[..i + 1])
  {
    hide Registrations, LastCount, NetworkRegistered, AllEndpoints, LatestApis, Accepts, ReservedAs, AfterRegister,
      AfterMessage;
    var t := steps[i];
    assert steps[..i + 1] == steps[..i] + [t];
    match t.input
    case ModulesCount(n) => CountTracks(b, steps[..i], n, t.now);
    case Register(reg) => RegisterTracks(b, steps[..i], reg, t.now);
    case Message(msg) => MessageTracks(b, steps[..i], msg, t.now);
  }

  lemma {:induction false} LivesUpTo(steps: seq<Timed>, n: nat)
    requires n <= |steps|
    ensures ThreadAfter(steps[..n]).running <==> forall i: nat :: i < n ==> Survives(steps, i)
    ensures ThreadAfter(steps[..n]).running ==> Tracks(ThreadAfter(steps[..n]), steps[..n])
    decreases n
  {
    if n == 0 {
    } else {
      hide Survives, Tracks, BroadcastStep;
      LivesUpTo(steps, n - 1);
      assert steps[..n][..n - 1] == steps[..n - 1];
      var b := ThreadAfter(steps[..n - 1]);
      StoppedStays(b, steps[n - 1].input, steps[n - 1].now);
      if b.running {
        StepTracks(b, steps, n - 1);
      }
    }
  }

  /** The thread is running if and only if none of its inputs has ended it; and then it knows how many
      modules have registered and are expected, and what they have reserved and declared. */
  lemma RunningIff(steps: seq<Timed>)
    ensures ThreadAfter(steps).running <==> forall i: nat :: i < |steps| ==> Survives(steps, i)
    ensures ThreadAfter(steps).running ==> Tracks(ThreadAfter(steps), steps)
  {
    hide Survives, Tracks, ThreadAfter;
    assert steps[..|steps|] == steps;
    LivesUpTo(steps, |steps|);
  }

  // ---- a node that starts in time stays up ----

  lemma {:induction false} CountsAfter(steps: seq<Timed>, i: nat, n: nat)
    requires i <= n <= |steps|
    ensures Registrations(steps[..i]) <= Registrations(steps[..n])
    ensures Registrations(steps[..i]) == Registrations(steps[..n]) <==>
            forall k :: i <= k < n ==> !steps[k].input.Register?
    ensures (forall k :: i <= k < n ==> !steps[k].input.ModulesCount?) ==>
            LastCount(steps[..i]) == LastCount(steps[..n])
    decreases n
  {
    if i < n {
      hide Registrations, LastCount;
      CountsAfter(steps, i, n - 1);
      assert steps[..n] == steps[..n - 1] + [steps[n - 1]];
      Snoc(steps[..n - 1], steps[n - 1]);
    }
  }

  /** All registrations, and the number of modules to expect, were taken by the end of the delay. */
  ghost predicate OnTime(steps: seq<Timed>) {
    forall i :: 0 <= i < |steps| && !steps[i].input.Message? ==> steps[i].now <= 20
  }

  /** The number of modules is told once, as the number that register. */
  ghost predicate CountedRightly(steps: seq<Timed>) {
    && LastCount(steps) == Some(Registrations(steps))
    && forall i, j :: 0 <= i < j < |steps| ==> !(steps[i].input.ModulesCount? && steps[j].input.ModulesCount?)
  }

  ghost predicate AllAccepted(steps: seq<Timed>) {
    forall i :: 0 <= i < |steps| && steps[i].input.Register? ==> Accepts(steps[..i], steps[i].input.reg)
  }

  /** If the modules are counted rightly, all register in time and in good order, and a network module is
      among them, the thread lives until it is stopped, whatever else it is sent and however long. */
  lemma StaysAlive(steps: seq<Timed>)
    requires Chronological(steps) && OnTime(steps) && CountedRightly(steps) && AllAccepted(steps)
    requires NetworkRegistered(steps)
    requires forall i :: 0 <= i < |steps| ==> steps[i].input != Message(Stop)
    ensures ThreadAfter(steps).running
  {
    hide Accepts, ThreadAfter, Registrations, LastCount, NetworkRegistered, Survives;
    RunningIff(steps);
    assert steps[..|steps|] == steps;
    forall i: nat | i < |steps| ensures Survives(steps, i) {
      SurvivesInTime(steps, i);
    }
  }

  lemma NetworkAmongFirst(steps: seq<Timed>, n: nat)
    requires n <= |steps| && NetworkRegistered(steps) && forall k :: n <= k < |steps| ==> !steps[k].input.Register?
    ensures NetworkRegistered(steps[..n])
  {
    var i :| 0 <= i < |steps| && IsNetworkModule(steps[i]);
    assert steps[..n][i] == steps[i];
  }

  lemma SurvivesInTime(steps: seq<Timed>, i: nat)
    requires Chronological(steps) && OnTime(steps) && CountedRightly(steps) && AllAccepted(steps)
    requires NetworkRegistered(steps) && i < |steps| && steps[i].input != Message(Stop)
    ensures Survives(steps, i)
  {
    hide Accepts, Registrations, LastCount, NetworkRegistered;
    assert steps[..|steps|] == steps;
    CountsAfter(steps, i + 1, |steps|);
    if steps[i].now > 20 {
      forall k | i + 1 <= k < |steps| ensures steps[k].input.Message? {
        assert steps[k].now >= steps[i].now;
      }
    }
    if steps[i].input.Register? && LastCount(steps[..i]) == Some(Registrations(steps[..i + 1])) {
      CountIsLast(steps, i);
      NetworkAmongFirst(steps, i + 1);
    }
  }

  /** The only count there is has the last word wherever it has come. */
  lemma CountIsLast(steps: seq<Timed>, i: nat)
    requires CountedRightly(steps) && i < |steps| && LastCount(steps[..i]) == Some(Registrations(steps[..i + 1]))
    ensures forall k :: i + 1 <= k < |steps| ==> !steps[k].input.Register?
  {
    hide Registrations, LastCount;
    assert steps[..|steps|] == steps;
    var c := CountFrom(steps[..i]);
    assert steps[c].input.ModulesCount?;
    forall k | i <= k < |steps| ensures !steps[k].input.ModulesCount? {
      assert k != c;
    }
    CountsAfter(steps, i, |steps|);
    CountsAfter(steps, i + 1, |steps|);
  }

  lemma {:induction false} CountFrom(steps: seq<Timed>) returns (c: nat)
    requires LastCount(steps).Some?
    ensures c < |steps| && steps[c].input.ModulesCount?
    decreases steps
  {
    if steps[|steps| - 1].input.ModulesCount? {
      c := |steps| - 1;
    } else {
      c := CountFrom(steps[..|steps| - 1]);
    }
  }
}
