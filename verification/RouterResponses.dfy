/**
  What a module receives from the main thread, whenever it registers.
 */
module RouterResponses {
  import opened Sequences
  import opened Wrappers
  import opened Router
  import opened RouterDelivery

  // ---- runs of the main thread ----

  function RelayAfter(steps: seq<Timed>): Relay {
    if steps == [] then STARTED
    else RelayStep(RelayAfter(steps[..|steps| - 1]), steps[|steps| - 1].input, steps[|steps| - 1].now)
  }

  function RelayBoxesAfter(steps: seq<Timed>): Boxes {
    if steps == [] then map[]
    else RelayBoxes(RelayAfter(steps[..|steps| - 1]), RelayBoxesAfter(steps[..|steps| - 1]), steps[|steps| - 1].input)
  }

  predicate Registered(steps: seq<Timed>, name: Name) {
    exists i :: 0 <= i < |steps| && steps[i].input.Register? && steps[i].input.reg.name == name
  }

  /** A response, handled after the registration delay, to a module that has not registered. */
  predicate IsStray(before: seq<Timed>, t: Timed) {
    && t.input.Message? && t.input.msg.Response?
    && !Registered(before, t.input.msg.resTo) && t.now >= MAX_REGISTRATION_DELAY
  }

  predicate AnyStray(steps: seq<Timed>) {
    steps != [] && (AnyStray(steps[..|steps| - 1]) || IsStray(steps[..|steps| - 1], steps[|steps| - 1]))
  }

  lemma RelaySnoc(steps: seq<Timed>, t: Timed)
    ensures RelayAfter(steps + [t]) == RelayStep(RelayAfter(steps), t.input, t.now)
    ensures RelayBoxesAfter(steps + [t]) == RelayBoxes(RelayAfter(steps), RelayBoxesAfter(steps), t.input)
    ensures AnyStray(steps + [t]) <==> AnyStray(steps) || IsStray(steps, t)
  {
    assert (steps + [t])[..|steps|] == steps;
  }

  lemma RegisteredSnoc(steps: seq<Timed>, t: Timed, name: Name)
    ensures Registered(steps + [t], name) <==>
            Registered(steps, name) || (t.input.Register? && t.input.reg.name == name)
  {
    var all := steps + [t];
    if Registered(steps, name) {
      var i :| 0 <= i < |steps| && steps[i].input.Register? && steps[i].input.reg.name == name;
      assert all[i] == steps[i];
    }
    assert all[|steps|] == t;
  }

  ghost predicate UpToDate(steps: seq<Timed>, m: Relay) {
    forall name :: name in m.senders <==> Registered(steps, name)
  }

  /** The thread knows exactly the modules that have registered. */
  lemma {:induction false} KnownIffRegistered(steps: seq<Timed>, name: Name)
    requires RelayAfter(steps).running
    ensures name in RelayAfter(steps).senders <==> Registered(steps, name)
    decreases steps
  {
    if steps == [] {
    } else {
      hide Registered, RelayStep;
      var front, last := steps[..|steps| - 1], steps[|steps| - 1];
      StoppedRelayStays(RelayAfter(front), last.input, last.now);
      KnownIffRegistered(front, name);
      assert steps == front + [last];
      RegisteredSnoc(front, last, name);
      KnownStep(RelayAfter(front), last, name);
    }
  }

  lemma KnownStep(m: Relay, t: Timed, name: Name)
    requires m.running
    ensures name in RelayStep(m, t.input, t.now).senders <==>
            name in m.senders || (t.input.Register? && t.input.reg.name == name)
  {
  }

  /** No module is ever both known and waited for. */
  lemma {:induction false} KnownNotAwaited(steps: seq<Timed>)
    ensures RelayAfter(steps).pool.Keys !! RelayAfter(steps).senders.Keys
    decreases steps
  {
    if steps != [] {
      KnownNotAwaited(steps[..|steps| - 1]);
    }
  }

  // ---- what the main thread holds back for a module ----

  ghost predicate Held(m: Relay, steps: seq<Timed>, name: Name) {
    if AnyStray(steps) then m.pool == map[] else Get(m.pool, name) == Addressed(Log(steps), OfOne(name))
  }

  lemma {:induction false} StrayThen(steps: seq<Timed>, now: nat)
    requires AnyStray(steps) && forall i :: 0 <= i < |steps| ==> steps[i].now <= now
    ensures now >= MAX_REGISTRATION_DELAY
    decreases steps
  {
    hide IsStray;
    var front, last := steps[..|steps| - 1], steps[|steps| - 1];
    if AnyStray(front) {
      StrayThen(front, now);
    } else {
      assert last.now >= MAX_REGISTRATION_DELAY by {
        StrayIsLate(front, last);
      }
    }
  }

  lemma StrayIsLate(before: seq<Timed>, t: Timed)
    requires IsStray(before, t)
    ensures t.now >= MAX_REGISTRATION_DELAY
  {
  }

  lemma HeldStep(m: Relay, steps: seq<Timed>, t: Timed, name: Name)
    requires m.running && Held(m, steps, name) && UpToDate(steps, m)
    requires forall i :: 0 <= i < |steps| ==> steps[i].now <= t.now
    requires !Registered(steps, name) && !(t.input.Register? && t.input.reg.name == name)
    requires t.input != Message(Stop)
    ensures Held(RelayStep(m, t.input, t.now), steps + [t], name)
  {
    hide Addressed, Log, AnyStray, Registered;
    RelaySnoc(steps, t);
    LogSnoc(steps, t);
    if AnyStray(steps) {
      StrayThen(steps, t.now);
      assert m.pool == map[];
      NothingHeld(m, t);
    } else if !IsStray(steps, t) {
      HeldOnTime(m, steps, t, name);
    }
  }

  lemma NothingHeld(m: Relay, t: Timed)
    requires m.pool == map[] && t.now >= MAX_REGISTRATION_DELAY
    ensures RelayStep(m, t.input, t.now).pool == map[]
  {
  }

  lemma HeldOnTime(m: Relay, steps: seq<Timed>, t: Timed, name: Name)
    requires m.running && UpToDate(steps, m) && !IsStray(steps, t) && !Registered(steps, name)
    requires !(t.input.Register? && t.input.reg.name == name)
    requires Get(m.pool, name) == Addressed(Log(steps), OfOne(name))
    ensures Get(RelayStep(m, t.input, t.now).pool, name) == Addressed(Log(steps + [t]), OfOne(name))
  {
    hide Addressed, Log, Registered;
    LogSnoc(steps, t);
    if t.input.Message? {
      AddressedSnoc(Log(steps), t.input.msg, OfOne(name));
    } else {
      AppendNothing(Log(steps));
    }
  }

  lemma {:induction false} HeldOverRun(steps: seq<Timed>, name: Name)
    requires Chronological(steps) && RelayAfter(steps).running && !Registered(steps, name)
    ensures Held(RelayAfter(steps), steps, name)
    decreases steps
  {
    if steps == [] {
    } else {
      hide Held, RelayStep, Registered;
      var front, last := steps[..|steps| - 1], steps[|steps| - 1];
      assert steps == front + [last];
      StoppedRelayStays(RelayAfter(front), last.input, last.now);
      RegisteredSnoc(front, last, name);
      HeldOverRun(front, name);
      forall n ensures n in RelayAfter(front).senders <==> Registered(front, n) {
        KnownIffRegistered(front, n);
      }
      HeldStep(RelayAfter(front), front, last, name);
    }
  }

  lemma StoppedRelayStays(m: Relay, input: Input, now: nat)
    ensures RelayStep(m, input, now).running ==> m.running && input != Message(Stop)
  {
  }

  // ---- one module's box ----

  ghost predicate Silent(m: Relay, boxes: Boxes, reg: Registration) {
    reg.name !in m.senders && OnlyOn(m.senders, reg.name, reg.channel) && Get(boxes, reg.channel) == []
  }

  lemma StillSilent(m: Relay, boxes: Boxes, reg: Registration, t: Timed)
    requires Silent(m, boxes, reg) && t.input != Message(Stop)
    requires t.input.Register? ==> t.input.reg.name != reg.name && t.input.reg.channel != reg.channel
    ensures Silent(RelayStep(m, t.input, t.now), RelayBoxes(m, boxes, t.input), reg)
  {
  }

  lemma {:induction false} SilentBefore(steps: seq<Timed>, reg: Registration)
    requires NotYet(steps, reg) && RelayAfter(steps).running
    ensures Silent(RelayAfter(steps), RelayBoxesAfter(steps), reg)
    decreases steps
  {
    if steps == [] {
    } else {
      hide Silent, RelayStep, RelayBoxes;
      var front, last := steps[..|steps| - 1], steps[|steps| - 1];
      StoppedRelayStays(RelayAfter(front), last.input, last.now);
      SilentBefore(front, reg);
      StillSilent(RelayAfter(front), RelayBoxesAfter(front), reg, last);
    }
  }

  /** The module is known and has received exactly the responses to it among `seen`. */
  ghost predicate Answered(m: Relay, boxes: Boxes, reg: Registration, seen: seq<DursMsg>) {
    && reg.name in m.senders && OnlyOn(m.senders, reg.name, reg.channel)
    && Get(boxes, reg.channel) == Addressed(seen, OfOne(reg.name))
  }

  lemma StartsAnswering(m: Relay, boxes: Boxes, reg: Registration, now: nat, seen: seq<DursMsg>)
    requires m.running && Silent(m, boxes, reg) && Get(m.pool, reg.name) == Addressed(seen, OfOne(reg.name))
    ensures Answered(RelayStep(m, Register(reg), now), RelayBoxes(m, boxes, Register(reg)), reg, seen)
  {
  }

  lemma KeepsAnswering(m: Relay, boxes: Boxes, reg: Registration, seen: seq<DursMsg>, t: Timed)
    requires Answered(m, boxes, reg, seen) && m.running && t.input != Message(Stop)
    requires t.input.Register? ==> t.input.reg.name != reg.name && t.input.reg.channel != reg.channel
    ensures Answered(RelayStep(m, t.input, t.now), RelayBoxes(m, boxes, t.input), reg,
                     seen + if t.input.Message? then [t.input.msg] else [])
  {
    hide Addressed;
    if t.input.Message? {
      AddressedSnoc(seen, t.input.msg, OfOne(reg.name));
    } else {
      AppendNothing(seen);
    }
  }

  lemma {:induction false} AnsweredThroughout(steps: seq<Timed>, reg: Registration, i: nat, n: nat)
    requires Chronological(steps) && RegistersOnceAt(steps, reg, i) && i < n <= |steps| &&
             RelayAfter(steps[..n]).running
    ensures Answered(RelayAfter(steps[..n]), RelayBoxesAfter(steps[..n]), reg,
                     (if AnyStray(steps[..i]) then [] else Log(steps[..i])) + Log(steps[i..n]))
    decreases n
  {
    hide Answered, RelayStep, RelayBoxes, Log, AnyStray, RelayAfter, RelayBoxesAfter, Chronological, RegistersOnceAt;
    var start := if AnyStray(steps[..i]) then [] else Log(steps[..i]);
    var last := steps[n - 1];
    assert steps[..n] == steps[..n - 1] + [last];
    RelaySnoc(steps[..n - 1], last);
    StoppedRelayStays(RelayAfter(steps[..n - 1]), last.input, last.now);
    if n == i + 1 {
      AnsweredAtRegistration(steps, reg, i);
      LogOne(steps, i);
      AppendNothing(start);
    } else {
      AnsweredThroughout(steps, reg, i, n - 1);
      OthersAfter(steps, reg, i, n - 1);
      KeepsAnswering(RelayAfter(steps[..n - 1]), RelayBoxesAfter(steps[..n - 1]), reg,
                     start + Log(steps[i..n - 1]), last);
      LogMore(steps, i, n);
      Associate(start, Log(steps[i..n - 1]), if last.input.Message? then [last.input.msg] else []);
    }
  }

  lemma LogMore(steps: seq<Timed>, i: nat, n: nat)
    requires i < n <= |steps|
    ensures Log(steps[i..n]) ==
            Log(steps[i..n - 1]) + if steps[n - 1].input.Message? then [steps[n - 1].input.msg] else []
  {
    assert steps[i..n] == steps[i..n - 1] + [steps[n - 1]];
    LogSnoc(steps[i..n - 1], steps[n - 1]);
  }

  lemma LogOne(steps: seq<Timed>, i: nat)
    requires i < |steps| && RegistersAtStep(steps, i)
    ensures Log(steps[i..i + 1]) == []
  {
  }

  predicate RegistersAtStep(steps: seq<Timed>, i: nat) {
    i < |steps| && steps[i].input.Register?
  }

  lemma AnsweredAtRegistration(steps: seq<Timed>, reg: Registration, i: nat)
    requires Chronological(steps) && RegistersOnceAt(steps, reg, i) && RelayAfter(steps[..i + 1]).running
    ensures RegistersAtStep(steps, i)
    ensures Answered(RelayAfter(steps[..i + 1]), RelayBoxesAfter(steps[..i + 1]), reg,
                     if AnyStray(steps[..i]) then [] else Log(steps[..i]))
  {
    assert Addressed([], OfOne(reg.name)) == [] && !Registered(steps[..i], reg.name);
    hide Answered, RelayStep, RelayBoxes, Log, AnyStray, RelayAfter, RelayBoxesAfter, Silent, Addressed, Registered;
    var front := steps[..i];
    var m := RelayAfter(front);
    assert steps[..i + 1] == front + [steps[i]];
    RelaySnoc(front, steps[i]);
    StoppedRelayStays(m, steps[i].input, steps[i].now);
    SilentBefore(front, reg);
    HeldOverRun(front, reg.name);
    StartsAnswering(m, RelayBoxesAfter(front), reg, steps[i].now, if AnyStray(front) then [] else Log(front));
  }

  /** The responses the main thread lets a module see that registers at step i. */
  ghost function Answers(steps: seq<Timed>, i: nat): seq<DursMsg>
    requires i <= |steps|
  {
    if AnyStray(steps[..i]) then Log(steps[i..]) else Log(steps)
  }

  /** Exactly once and in order: a module's box holds all responses sent to it, whether they were
      handled before or after it registered, and nothing else; they are lost only if a stray response
      was handled before it registered. */
  lemma ResponseDelivery(steps: seq<Timed>, reg: Registration, i: nat)
    requires Chronological(steps) && RegistersOnceAt(steps, reg, i) && RelayAfter(steps).running
    ensures Get(RelayBoxesAfter(steps), reg.channel) == Addressed(Answers(steps, i), OfOne(reg.name))
  {
    hide Log, AnyStray, RelayAfter, RelayBoxesAfter, Chronological, NotYet, OnlyOn, Addressed;
    assert steps[..|steps|] == steps && steps[i..|steps|] == steps[i..];
    AnsweredThroughout(steps, reg, i, |steps|);
    AnswersAre(steps, i);
  }

  /** No response is lost if and only if none was sent to a module that registered after a stray one. */
  lemma NoResponseLostIff(steps: seq<Timed>, reg: Registration, i: nat)
    requires Chronological(steps) && RegistersOnceAt(steps, reg, i) && RelayAfter(steps).running
    ensures Get(RelayBoxesAfter(steps), reg.channel) == Addressed(Log(steps), OfOne(reg.name)) <==>
            !AnyStray(steps[..i]) || Addressed(Log(steps[..i]), OfOne(reg.name)) == []
  {
    hide Log, AnyStray, RelayAfter, RelayBoxesAfter, Chronological, NotYet, Addressed;
    ResponseDelivery(steps, reg, i);
    LogConcat(steps[..i], steps[i..]);
    assert steps == steps[..i] + steps[i..];
    AddressedConcat(Log(steps[..i]), Log(steps[i..]), OfOne(reg.name));
    var a, b := Addressed(Log(steps[..i]), OfOne(reg.name)), Addressed(Log(steps[i..]), OfOne(reg.name));
    assert a + b == b ==> |a| == 0;
    assert a == [] ==> a + b == b;
  }

  lemma AnswersAre(steps: seq<Timed>, i: nat)
    requires i <= |steps|
    ensures Answers(steps, i) == (if AnyStray(steps[..i]) then [] else Log(steps[..i])) + Log(steps[i..])
  {
    hide Log, AnyStray;
    LogConcat(steps[..i], steps[i..]);
    assert steps == steps[..i] + steps[i..];
  }

  /** The main thread's last act: every module still reachable is told to stop, once. */
  lemma StopReachesAll(m: Relay, boxes: Boxes, name: Name, c: Channel)
    requires m.running && name in m.senders && OnlyOn(m.senders, name, c)
    ensures Get(RelayBoxes(m, boxes, Message(Stop)), c) == Get(boxes, c) + [Stop]
  {
    assert Sharing(m.senders, c) == {name};
    assert m.senders[name] == c;
    assert c in m.senders.Values;
    StopsSnoc(0);
  }
}
