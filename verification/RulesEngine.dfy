/**
  The rules engine: a protocol is a list of groups of numbered rules, each rule having one function
  per protocol version.  Groups run in series, and may change the data, or in parallel, and may not.
 */
module RulesEngine {
  import opened Wrappers

  /** What rules work on, and why they fail. */
  type Data(!new)
  type Cause(==, !new)

  type RuleNumber = nat
  type Version = nat

  /** A rule that only looks at the data, or one that may change them, even when it fails. */
  datatype RuleFn = Ref(check: Data -> Option<Cause>) | RefMut(run: Data -> (Data, Option<Cause>))

  datatype Rule = Rule(versions: map<Version, RuleFn>)

  datatype EngineError =
    | RuleError(number: RuleNumber, cause: Cause)
    | ProtocolVersionNotExist(version: Version)
    | RuleNotExist(number: RuleNumber, version: Version)
    | MutRuleInPar(number: RuleNumber, version: Version)
    | RuleTooRecent(number: RuleNumber, version: Version)

  /** None means that there is no error. */
  type Outcome = Option<EngineError>

  datatype RulesGroup = Ser(rules: seq<RuleNumber>) | Par(groups: seq<RulesGroup>)

  type ProtocolRules = seq<RulesGroup>

  type Protocol = map<Version, ProtocolRules>

  // ---- one rule ----

  /** A rule needs an implementation. */
  function NewRule(versions: map<Version, RuleFn>): (rule: Option<Rule>)
    ensures rule.None? <==> forall v :: v !in versions
    ensures rule.Some? ==> rule.value.versions == versions
  {
    if versions.Keys == {} then None else Some(Rule(versions))
  }

  function Latest(known: set<Version>, version: Version): Option<Version> {
    if version in known then Some(version)
    else if version == 0 then None
    else Latest(known, version - 1)
  }

  /** The version that counts is the greatest one up to the version of the protocol. */
  lemma {:induction false} LatestIff(known: set<Version>, version: Version, latest: Version)
    ensures Latest(known, version) == Some(latest) <==>
            latest in known && latest <= version && forall v: Version :: latest < v <= version ==> v !in known
    ensures Latest(known, version) == None <==> forall v: Version :: v <= version ==> v !in known
    decreases version
  {
    if version !in known && version > 0 {
      LatestIff(known, version - 1, latest);
    }
  }

  function Chosen(rule: Rule, version: Version): Option<RuleFn> {
    match Latest(rule.versions.Keys, version)
    case Some(v) => if v in rule.versions then Some(rule.versions[v]) else None
    case None => None
  }

  /** A newer implementation does not change what older protocols do. */
  lemma NewerVersionInvisible(rule: Rule, version: Version, newer: Version, fn: RuleFn)
    requires version < newer
    ensures Chosen(Rule(rule.versions[newer := fn]), version) == Chosen(rule, version)
  {
    LatestUpTo(rule.versions.Keys, version, newer);
    assert rule.versions[newer := fn].Keys == rule.versions.Keys + {newer};
    match Latest(rule.versions.Keys, version)
    case Some(v) => LatestIff(rule.versions.Keys, version, v);
    case None =>
  }

  lemma {:induction false} LatestUpTo(known: set<Version>, version: Version, newer: Version)
    requires version < newer
    ensures Latest(known + {newer}, version) == Latest(known, version)
    decreases version
  {
    if version !in known && version > 0 {
      LatestUpTo(known, version - 1, newer);
    }
  }

  function Failed(number: RuleNumber, cause: Option<Cause>): Outcome {
    match cause
    case Some(c) => Some(RuleError(number, c))
    case None => None
  }

  function Executed(rule: Rule, version: Version, number: RuleNumber, data: Data): Outcome {
    match Chosen(rule, version)
    case None => Some(RuleTooRecent(number, version))
    case Some(RefMut(_)) => Some(MutRuleInPar(number, version))
    case Some(Ref(check)) => Failed(number, check(data))
  }

  function ExecutedMut(rule: Rule, version: Version, number: RuleNumber, data: Data): (Data, Outcome) {
    match Chosen(rule, version)
    case None => (data, Some(RuleTooRecent(number, version)))
    case Some(RefMut(run)) => (run(data).0, Failed(number, run(data).1))
    case Some(Ref(check)) => (data, Failed(number, check(data)))
  }

  datatype Engine = Engine(all: map<RuleNumber, Rule>, version: Version) {
    function Applied(number: RuleNumber, data: Data): Outcome {
      if number in all then Executed(all[number], version, number, data) else Some(RuleNotExist(number, version))
    }

    function AppliedMut(number: RuleNumber, data: Data): (Data, Outcome) {
      if number in all then ExecutedMut(all[number], version, number, data)
      else (data, Some(RuleNotExist(number, version)))
    }

    predicate Mutable(number: RuleNumber) {
      number in all && Chosen(all[number], version).Some? && Chosen(all[number], version).value.RefMut?
    }
  }

  // ---- groups ----

  function Leaves(group: RulesGroup): seq<RuleNumber> {
    match group
    case Ser(rules) => rules
    case Par(groups) => AllLeaves(groups)
  }

  function AllLeaves(groups: seq<RulesGroup>): seq<RuleNumber> {
    if groups == [] then [] else Leaves(groups[0]) + AllLeaves(groups[1..])
  }

  /** The first error of a list of rules that only look at the data. */
  function FirstError(e: Engine, rules: seq<RuleNumber>, data: Data): Outcome {
    if rules == [] then None
    else if e.Applied(rules[0], data).Some? then e.Applied(rules[0], data)
    else FirstError(e, rules[1..], data)
  }

  /** The outcomes a group may have, over all schedules of its parallel parts. */
  ghost predicate MayYield(e: Engine, group: RulesGroup, data: Data, r: Outcome) {
    match group
    case Ser(rules) => r == FirstError(e, rules, data)
    case Par(groups) =>
      if r.None? then forall i :: 0 <= i < |groups| ==> MayYield(e, groups[i], data, r)
      else exists i :: 0 <= i < |groups| && MayYield(e, groups[i], data, r)
  }

  /** Runs rules one after the other until one fails. */
  function SerRun(e: Engine, rules: seq<RuleNumber>, data: Data): (Data, Outcome) {
    if rules == [] then (data, None)
    else
      var (d, r) := e.AppliedMut(rules[0], data);
      if r.Some? then (d, r) else SerRun(e, rules[1..], d)
  }

  /** The data and the outcome a list of groups may end with. */
  ghost predicate RunsTo(e: Engine, groups: seq<RulesGroup>, data: Data, after: Data, r: Outcome) {
    if groups == [] then after == data && r.None?
    else
      match groups[0]
      case Ser(rules) =>
        var (d, first) := SerRun(e, rules, data);
        if first.Some? then after == d && r == first else RunsTo(e, groups[1..], d, after, r)
      case Par(_) =>
        || (r.Some? && after == data && MayYield(e, groups[0], data, r))
        || (MayYield(e, groups[0], data, None) && RunsTo(e, groups[1..], data, after, r))
  }

  // ---- the engine as it runs ----

  /** What the source passes as a mutable reference. */
  class Cell {
    var data: Data

    constructor (data: Data)
      ensures this.data == data
    {
      this.data := data;
    }
  }

  method ApplyRuleRef(e: Engine, number: RuleNumber, data: Data) returns (r: Outcome)
    ensures r == e.Applied(number, data)
  {
    if number in e.all {
      var chosen := Chosen(e.all[number], e.version);
      match chosen {
        case Some(Ref(check)) =>
          r := Failed(number, check(data));
          return;
        case Some(RefMut(_)) => return Some(MutRuleInPar(number, e.version));
        case None => return Some(RuleTooRecent(number, e.version));
      }
    } else {
      return Some(RuleNotExist(number, e.version));
    }
  }

  method ApplyRuleMut(e: Engine, number: RuleNumber, cell: Cell) returns (r: Outcome)
    modifies cell
    ensures (cell.data, r) == e.AppliedMut(number, old(cell.data))
  {
    if number in e.all {
      var chosen := Chosen(e.all[number], e.version);
      match chosen {
        case Some(Ref(check)) => r := Failed(number, check(cell.data));
        case Some(RefMut(run)) =>
          var (data, cause) := run(cell.data);
          cell.data := data;
          r := Failed(number, cause);
        case None => r := Some(RuleTooRecent(number, e.version));
      }
    } else {
      r := Some(RuleNotExist(number, e.version));
    }
  }

  function Below(n: nat): (indices: set<nat>)
    ensures forall i: nat :: i in indices <==> i < n
  {
    if n == 0 then {} else Below(n - 1) + {n - 1}
  }

  /** Parallel parts are run in an order nobody controls; the first error that turns up is kept. */
  method ApplyRulesGroupRef(e: Engine, group: RulesGroup, data: Data) returns (r: Outcome)
    ensures MayYield(e, group, data, r)
    decreases group
  {
    match group
    case Ser(rules) => r := ApplySeries(e, rules, data);
    case Par(groups) =>
      var pending := Below(|groups|);
      while pending != {}
        invariant pending <= Below(|groups|)
        invariant forall i :: 0 <= i < |groups| && i !in pending ==> MayYield(e, groups[i], data, None)
        decreases |pending|
      {
        var i :| i in pending;
        pending := pending - {i};
        r := ApplyRulesGroupRef(e, groups[i], data);
        if r.Some? {
          return;
        }
      }
      r := None;
  }

  method ApplySeries(e: Engine, rules: seq<RuleNumber>, data: Data) returns (r: Outcome)
    ensures r == FirstError(e, rules, data)
  {
    for i := 0 to |rules|
      invariant FirstError(e, rules, data) == FirstError(e, rules[i..], data)
    {
      r := ApplyRuleRef(e, rules[i], data);
      if r.Some? {
        return;
      }
    }
    r := None;
  }

  method ApplySeriesMut(e: Engine, rules: seq<RuleNumber>, cell: Cell) returns (r: Outcome)
    modifies cell
    ensures (cell.data, r) == SerRun(e, rules, old(cell.data))
  {
    for i := 0 to |rules|
      invariant SerRun(e, rules, old(cell.data)) == SerRun(e, rules[i..], cell.data)
    {
      r := ApplyRuleMut(e, rules[i], cell);
      if r.Some? {
        return;
      }
    }
    r := None;
  }

  /** Applies one version of the protocol to the data. */
  method ApplyProtocol(all: map<RuleNumber, Rule>, protocol: Protocol, version: Version, cell: Cell)
    returns (r: Outcome)
    modifies cell
    ensures version in protocol ==> RunsTo(Engine(all, version), protocol[version], old(cell.data), cell.data, r)
    ensures version !in protocol ==> r == Some(ProtocolVersionNotExist(version)) && cell.data == old(cell.data)
  {
    if version !in protocol {
      return Some(ProtocolVersionNotExist(version));
    }
    var e, groups := Engine(all, version), protocol[version];
    for i := 0 to |groups|
      invariant forall after, r' ::
        RunsTo(e, groups[i..], cell.data, after, r') ==> RunsTo(e, groups, old(cell.data), after, r')
    {
      ghost var before := cell.data;
      match groups[i] {
        case Ser(rules) => r := ApplySeriesMut(e, rules, cell);
        case Par(_) => r := ApplyRulesGroupRef(e, groups[i], cell.data);
      }
      RunsFrom(e, groups, i, before, cell.data, r);
      if r.Some? {
        return;
      }
    }
    r := None;
  }

  ghost predicate GroupRan(e: Engine, group: RulesGroup, before: Data, data: Data, r: Outcome) {
    match group
    case Ser(rules) => (data, r) == SerRun(e, rules, before)
    case Par(_) => data == before && MayYield(e, group, before, r)
  }

  /** One more group has run. */
  lemma RunsFrom(e: Engine, groups: seq<RulesGroup>, i: nat, before: Data, data: Data, r: Outcome)
    requires i < |groups|
    requires GroupRan(e, groups[i], before, data, r)
    ensures r.Some? ==> RunsTo(e, groups[i..], before, data, r)
    ensures r.None? ==>
            forall after, r' ::
              RunsTo(e, groups[i + 1..], data, after, r') ==> RunsTo(e, groups[i..], before, after, r')
  {
  }

  // ---- parallel rules ----

  predicate AllOk(e: Engine, rules: seq<RuleNumber>, data: Data) {
    forall i :: 0 <= i < |rules| ==> e.Applied(rules[i], data).None?
  }

  lemma {:induction false} NoFirstErrorIff(e: Engine, rules: seq<RuleNumber>, data: Data)
    ensures FirstError(e, rules, data).None? <==> AllOk(e, rules, data)
    ensures FirstError(e, rules, data).Some? ==>
            exists i :: 0 <= i < |rules| && e.Applied(rules[i], data) == FirstError(e, rules, data)
    decreases rules
  {
    if rules != [] {
      var rest := rules[1..];
      NoFirstErrorIff(e, rest, data);
      AllOkCons(e, rules, data);
      if e.Applied(rules[0], data).None? && FirstError(e, rest, data).Some? {
        var i :| 0 <= i < |rest| && e.Applied(rest[i], data) == FirstError(e, rest, data);
        assert e.Applied(rules[i + 1], data) == FirstError(e, rules, data);
      }
    }
  }

  lemma AllOkCons(e: Engine, rules: seq<RuleNumber>, data: Data)
    requires rules != []
    ensures AllOk(e, rules, data) <==> e.Applied(rules[0], data).None? && AllOk(e, rules[1..], data)
  {
  }

  lemma AllOkConcat(e: Engine, a: seq<RuleNumber>, b: seq<RuleNumber>, data: Data)
    ensures AllOk(e, a + b, data) <==> AllOk(e, a, data) && AllOk(e, b, data)
  {
    if AllOk(e, a + b, data) {
      assert forall i :: 0 <= i < |a| ==> (a + b)[i] == a[i];
      assert forall i :: 0 <= i < |b| ==> b[i] == (a + b)[|a| + i];
    }
  }

  /** In any schedule, a group succeeds if and only if each of its leaves succeeds on the data it
      started from; otherwise its error is the error of one of its leaves on those data. */
  lemma {:induction false} GroupOkIffLeavesOk(e: Engine, group: RulesGroup, data: Data)
    ensures MayYield(e, group, data, None) <==> AllOk(e, Leaves(group), data)
    ensures forall error :: MayYield(e, group, data, Some(error)) ==>
      exists i :: 0 <= i < |Leaves(group)| && e.Applied(Leaves(group)[i], data) == Some(error)
    decreases group
  {
    match group
    case Ser(rules) => NoFirstErrorIff(e, rules, data);
    case Par(groups) =>
      forall i | 0 <= i < |groups|
        ensures MayYield(e, groups[i], data, None) <==> AllOk(e, Leaves(groups[i]), data)
        ensures forall error :: MayYield(e, groups[i], data, Some(error)) ==>
                LeafFails(e, Leaves(groups[i]), data, error)
      {
        GroupOkIffLeavesOk(e, groups[i], data);
      }
      AllLeavesOkIff(e, groups, data);
      forall error | MayYield(e, group, data, Some(error)) ensures LeafFails(e, AllLeaves(groups), data, error) {
        var i :| 0 <= i < |groups| && MayYield(e, groups[i], data, Some(error));
        LeafAmongAll(e, groups, i, data, error);
      }
  }

  ghost predicate LeafFails(e: Engine, rules: seq<RuleNumber>, data: Data, error: EngineError) {
    exists i :: 0 <= i < |rules| && e.Applied(rules[i], data) == Some(error)
  }

  lemma {:induction false} AllLeavesOkIff(e: Engine, groups: seq<RulesGroup>, data: Data)
    ensures AllOk(e, AllLeaves(groups), data) <==> forall i :: 0 <= i < |groups| ==> AllOk(e, Leaves(groups[i]), data)
    decreases groups
  {
    if groups == [] {
    } else {
      hide AllOk;
      AllLeavesOkIff(e, groups[1..], data);
      AllOkConcat(e, Leaves(groups[0]), AllLeaves(groups[1..]), data);
      if AllOk(e, Leaves(groups[0]), data) &&
         forall i :: 0 <= i < |groups[1..]| ==> AllOk(e, Leaves(groups[1..][i]), data) {
        forall i | 0 <= i < |groups| ensures AllOk(e, Leaves(groups[i]), data) {
          if i > 0 {
            assert groups[i] == groups[1..][i - 1];
          }
        }
      }
    }
  }

  lemma {:induction false} LeafAmongAll(e: Engine, groups: seq<RulesGroup>, i: nat, data: Data, error: EngineError)
    requires i < |groups| && LeafFails(e, Leaves(groups[i]), data, error)
    ensures LeafFails(e, AllLeaves(groups), data, error)
    decreases groups
  {
    var first, rest := Leaves(groups[0]), AllLeaves(groups[1..]);
    if i == 0 {
      var k :| 0 <= k < |first| && e.Applied(first[k], data) == Some(error);
      assert (first + rest)[k] == first[k];
    } else {
      LeafAmongAll(e, groups[1..], i - 1, data, error);
      var k :| 0 <= k < |rest| && e.Applied(rest[k], data) == Some(error);
      assert (first + rest)[|first| + k] == rest[k];
    }
  }

  /** Whether a group succeeds does not depend on the schedule. */
  lemma VerdictIndependent(e: Engine, group: RulesGroup, data: Data, error: EngineError)
    requires MayYield(e, group, data, Some(error))
    ensures !MayYield(e, group, data, None)
  {
  }

  // ---- parallel against serial ----

  ghost predicate NoneMutable(e: Engine, rules: seq<RuleNumber>) {
    forall i :: 0 <= i < |rules| ==> !e.Mutable(rules[i])
  }

  lemma OkIff(e: Engine, number: RuleNumber, data: Data)
    ensures e.Applied(number, data).None? <==> !e.Mutable(number) && e.AppliedMut(number, data).1.None?
    ensures !e.Mutable(number) ==> e.AppliedMut(number, data) == (data, e.Applied(number, data))
  {
  }

  /** Rules succeed when they are only allowed to look if and only if they succeed in series and none
      of them is one that may change the data; and then they do not. */
  lemma {:induction false} LooksIffSeries(e: Engine, rules: seq<RuleNumber>, data: Data)
    ensures AllOk(e, rules, data) <==> SerRun(e, rules, data).1.None? && NoneMutable(e, rules)
    ensures AllOk(e, rules, data) ==> SerRun(e, rules, data) == (data, None)
    decreases rules
  {
    if rules == [] {
    } else {
      hide AllOk, NoneMutable;
      LooksIffSeries(e, rules[1..], data);
      AllOkCons(e, rules, data);
      OkIff(e, rules[0], data);
      NoneMutableCons(e, rules);
    }
  }

  lemma NoneMutableCons(e: Engine, rules: seq<RuleNumber>)
    requires rules != []
    ensures NoneMutable(e, rules) <==> !e.Mutable(rules[0]) && NoneMutable(e, rules[1..])
  {
  }

  function Serialised(groups: seq<RulesGroup>): seq<RulesGroup> {
    if groups == [] then [] else [Ser(Leaves(groups[0]))] + Serialised(groups[1..])
  }

  ghost predicate ParLooksOnly(e: Engine, groups: seq<RulesGroup>) {
    forall i :: 0 <= i < |groups| && groups[i].Par? ==> NoneMutable(e, Leaves(groups[i]))
  }

  /** Running in parallel what may run in parallel changes neither the verdict nor the data: a protocol
      succeeds if and only if it succeeds with every parallel group replaced by a series of its leaves
      and has no rule in a parallel group that may change the data; and it leaves the same data. */
  lemma {:induction false} ParallelIffSerial(e: Engine, groups: seq<RulesGroup>, data: Data, after: Data)
    ensures RunsTo(e, groups, data, after, None) <==>
            RunsTo(e, Serialised(groups), data, after, None) && ParLooksOnly(e, groups)
    decreases groups
  {
    hide MayYield, SerRun, NoneMutable, AllOk, Leaves;
    if groups != [] {
      var first, rest := groups[0], groups[1..];
      assert Serialised(groups)[0] == Ser(Leaves(first)) && Serialised(groups)[1..] == Serialised(rest);
      ParLooksOnlyCons(e, groups);
      match first
      case Ser(rules) =>
        LeavesOfSeries(rules);
        ParallelIffSerial(e, rest, SerRun(e, rules, data).0, after);
      case Par(_) =>
        GroupOkIffLeavesOk(e, first, data);
        LooksIffSeries(e, Leaves(first), data);
        ParallelIffSerial(e, rest, data, after);
    }
  }

  lemma LeavesOfSeries(rules: seq<RuleNumber>)
    ensures Leaves(Ser(rules)) == rules
  {
  }

  lemma ParLooksOnlyCons(e: Engine, groups: seq<RulesGroup>)
    requires groups != []
    ensures ParLooksOnly(e, groups) <==>
            (groups[0].Par? ==> NoneMutable(e, Leaves(groups[0]))) && ParLooksOnly(e, groups[1..])
  {
  }

  // ---- runs that fail ----

  /** Data and verdict of a protocol are the same in every schedule; only the error may differ. */
  lemma {:induction false} RunIndependent(e: Engine, groups: seq<RulesGroup>, data: Data,
                                          after1: Data, r1: Outcome, after2: Data, r2: Outcome)
    requires RunsTo(e, groups, data, after1, r1) && RunsTo(e, groups, data, after2, r2)
    ensures after1 == after2 && (r1.None? <==> r2.None?)
    decreases groups
  {
    hide MayYield, SerRun;
    if groups != [] {
      match groups[0]
      case Ser(rules) =>
        var (d, first) := SerRun(e, rules, data);
        if first.None? {
          RunIndependent(e, groups[1..], d, after1, r1, after2, r2);
        }
      case Par(_) =>
        GroupOkIffLeavesOk(e, groups[0], data);
        if MayYield(e, groups[0], data, None) {
          RunIndependent(e, groups[1..], data, after1, r1, after2, r2);
        }
    }
  }

  ghost predicate GroupFails(e: Engine, group: RulesGroup, data: Data) {
    exists error :: MayYield(e, group, data, Some(error))
  }

  /** Every group has an outcome. */
  lemma {:induction false} GroupEnds(e: Engine, group: RulesGroup, data: Data)
    ensures MayYield(e, group, data, None) <==> !GroupFails(e, group, data)
    decreases group
  {
    GroupOkIffLeavesOk(e, group, data);
    match group
    case Ser(rules) =>
      NoFirstErrorIff(e, rules, data);
      if FirstError(e, rules, data).Some? {
        assert MayYield(e, group, data, Some(FirstError(e, rules, data).value));
      }
    case Par(groups) =>
      if !MayYield(e, group, data, None) {
        var i :| 0 <= i < |groups| && !MayYield(e, groups[i], data, None);
        GroupEnds(e, groups[i], data);
        var error :| MayYield(e, groups[i], data, Some(error));
        assert MayYield(e, group, data, Some(error));
      }
  }

  ghost predicate FailsAt(e: Engine, groups: seq<RulesGroup>, data: Data, after: Data) {
    exists error :: RunsTo(e, groups, data, after, Some(error))
  }

  lemma FailsAtSeries(e: Engine, rules: seq<RuleNumber>, rest: seq<RulesGroup>, data: Data, after: Data)
    ensures var (d, first) := SerRun(e, rules, data);
      FailsAt(e, [Ser(rules)] + rest, data, after) <==> if first.Some? then after == d else FailsAt(e, rest, d, after)
  {
    hide SerRun, MayYield;
    var groups := [Ser(rules)] + rest;
    assert groups[0] == Ser(rules) && groups[1..] == rest;
    var (d, first) := SerRun(e, rules, data);
    if first.Some? && after == d {
      assert RunsTo(e, groups, data, after, Some(first.value));
    }
    if first.None? && FailsAt(e, rest, d, after) {
      var error :| RunsTo(e, rest, d, after, Some(error));
      assert RunsTo(e, groups, data, after, Some(error));
    }
  }

  lemma FailsAtParallel(e: Engine, group: RulesGroup, rest: seq<RulesGroup>, data: Data, after: Data)
    requires group.Par?
    ensures FailsAt(e, [group] + rest, data, after) <==>
            (after == data && GroupFails(e, group, data)) ||
            (MayYield(e, group, data, None) && FailsAt(e, rest, data, after))
  {
    hide MayYield;
    var groups := [group] + rest;
    assert groups[0] == group && groups[1..] == rest;
    if after == data && GroupFails(e, group, data) {
      var error :| MayYield(e, group, data, Some(error));
      assert RunsTo(e, groups, data, after, Some(error));
    }
    if MayYield(e, group, data, None) && FailsAt(e, rest, data, after) {
      var error :| RunsTo(e, rest, data, after, Some(error));
      assert RunsTo(e, groups, data, after, Some(error));
    }
  }

  /** Rules that may not change the data do not, whether one fails or not. */
  lemma {:induction false} SeriesLooksOnly(e: Engine, rules: seq<RuleNumber>, data: Data)
    requires NoneMutable(e, rules)
    ensures SerRun(e, rules, data).0 == data
    decreases rules
  {
    hide NoneMutable;
    if rules != [] {
      NoneMutableCons(e, rules);
      OkIff(e, rules[0], data);
      SeriesLooksOnly(e, rules[1..], data);
    }
  }

  /** Without mutable rules in parallel groups, a protocol fails and leaves certain data if and only if
      it does so with every parallel group replaced by a series of its leaves. */
  lemma {:induction false} FailureSerialised(e: Engine, groups: seq<RulesGroup>, data: Data, after: Data)
    requires ParLooksOnly(e, groups)
    ensures FailsAt(e, groups, data, after) <==> FailsAt(e, Serialised(groups), data, after)
    decreases groups
  {
    if groups == [] {
    } else {
      hide MayYield, SerRun, NoneMutable, AllOk, Leaves, FailsAt, GroupFails, RunsTo, ParLooksOnly;
      var first, rest := groups[0], groups[1..];
      assert groups == [first] + rest;
      ParLooksOnlyCons(e, groups);
      FailsAtSeries(e, Leaves(first), Serialised(rest), data, after);
      match first
      case Ser(rules) =>
        LeavesOfSeries(rules);
        FailsAtSeries(e, rules, rest, data, after);
        FailureSerialised(e, rest, SerRun(e, rules, data).0, after);
      case Par(_) =>
        FailsAtParallel(e, first, rest, data, after);
        GroupEnds(e, first, data);
        GroupOkIffLeavesOk(e, first, data);
        LooksIffSeries(e, Leaves(first), data);
        SeriesLooksOnly(e, Leaves(first), data);
        FailureSerialised(e, rest, data, after);
    }
  }

  // ---- the data afterwards ----

  /** The data after some rules ran one after the other, whether they failed or not. */
  function Folded(e: Engine, rules: seq<RuleNumber>, data: Data): Data {
    if rules == [] then data else Folded(e, rules[1..], e.AppliedMut(rules[0], data).0)
  }

  /** The rules of the serial groups, in order. */
  function SerialRules(groups: seq<RulesGroup>): seq<RuleNumber> {
    if groups == [] then []
    else if groups[0].Ser? then groups[0].rules + SerialRules(groups[1..])
    else SerialRules(groups[1..])
  }

  function ParallelRules(groups: seq<RulesGroup>): seq<RuleNumber> {
    if groups == [] then []
    else if groups[0].Par? then Leaves(groups[0]) + ParallelRules(groups[1..])
    else ParallelRules(groups[1..])
  }

  lemma {:induction false} FoldedConcat(e: Engine, a: seq<RuleNumber>, b: seq<RuleNumber>, data: Data)
    ensures Folded(e, a + b, data) == Folded(e, b, Folded(e, a, data))
    decreases a
  {
    if a == [] {
      assert a + b == b;
    } else {
      assert (a + b)[1..] == a[1..] + b;
      FoldedConcat(e, a[1..], b, e.AppliedMut(a[0], data).0);
    }
  }

  /** The first n rules ran, all but the last without an error; if r is an error it is the last one's. */
  ghost predicate RanUpTo(e: Engine, rules: seq<RuleNumber>, n: nat, data: Data, after: Data) {
    n <= |rules| && after == Folded(e, rules[..n], data)
  }

  ghost predicate LastFailed(e: Engine, rules: seq<RuleNumber>, n: nat, data: Data, r: Outcome) {
    0 < n <= |rules| && e.AppliedMut(rules[n - 1], Folded(e, rules[..n - 1], data)).1 == r
  }

  lemma {:induction false} SerRunStops(e: Engine, rules: seq<RuleNumber>, data: Data) returns (n: nat)
    ensures RanUpTo(e, rules, n, data, SerRun(e, rules, data).0)
    ensures SerRun(e, rules, data).1.None? ==> n == |rules|
    ensures SerRun(e, rules, data).1.Some? ==> LastFailed(e, rules, n, data, SerRun(e, rules, data).1)
    decreases rules
  {
    if rules == [] {
      n := 0;
    } else {
      var (d, r) := e.AppliedMut(rules[0], data);
      if r.Some? {
        n := 1;
        assert rules[..1] == [rules[0]] && rules[..0] == [];
        assert Folded(e, [rules[0]], data) == d;
      } else {
        var m := SerRunStops(e, rules[1..], d);
        n := m + 1;
        FoldedFront(e, rules, m, data);
        if m > 0 {
          FoldedFront(e, rules, m - 1, data);
          assert rules[1..][m - 1] == rules[n - 1];
        }
      }
    }
  }

  lemma FoldedFront(e: Engine, rules: seq<RuleNumber>, m: nat, data: Data)
    requires m < |rules|
    ensures Folded(e, rules[..m + 1], data) == Folded(e, rules[1..][..m], e.AppliedMut(rules[0], data).0)
  {
    assert rules[..m + 1][0] == rules[0] && rules[..m + 1][1..] == rules[1..][..m];
  }

  /** Where a run stopped: after n serial rules, with the error of the last of them or of a rule in a
      parallel group on the data as they are left; without error, only when all serial rules ran. */
  ghost predicate StoppedAfter(e: Engine, groups: seq<RulesGroup>, n: nat, data: Data, after: Data, r: Outcome) {
    && RanUpTo(e, SerialRules(groups), n, data, after)
    && match r
       case None => n == |SerialRules(groups)|
       case Some(error) =>
         LastFailed(e, SerialRules(groups), n, data, r) || LeafFails(e, ParallelRules(groups), after, error)
  }

  lemma ShiftRun(e: Engine, a: seq<RuleNumber>, b: seq<RuleNumber>, n: nat, data: Data, after: Data, r: Outcome)
    requires n <= |b|
    ensures RanUpTo(e, b, n, Folded(e, a, data), after) ==> RanUpTo(e, a + b, |a| + n, data, after)
    ensures LastFailed(e, b, n, Folded(e, a, data), r) ==> LastFailed(e, a + b, |a| + n, data, r)
  {
    assert (a + b)[..|a| + n] == a + b[..n];
    FoldedConcat(e, a, b[..n], data);
    if n > 0 {
      assert (a + b)[..|a| + n - 1] == a + b[..n - 1];
      FoldedConcat(e, a, b[..n - 1], data);
    }
  }

  lemma FrontRun(e: Engine, a: seq<RuleNumber>, b: seq<RuleNumber>, n: nat, data: Data, after: Data, r: Outcome)
    requires n <= |a|
    ensures RanUpTo(e, a, n, data, after) ==> RanUpTo(e, a + b, n, data, after)
    ensures LastFailed(e, a, n, data, r) ==> LastFailed(e, a + b, n, data, r)
  {
    assert (a + b)[..n] == a[..n];
    if n > 0 {
      assert (a + b)[..n - 1] == a[..n - 1];
    }
  }

  lemma LeafFailsConcat(e: Engine, a: seq<RuleNumber>, b: seq<RuleNumber>, data: Data, error: EngineError)
    ensures LeafFails(e, a + b, data, error) <==> LeafFails(e, a, data, error) || LeafFails(e, b, data, error)
  {
    if LeafFails(e, a, data, error) {
      var i :| 0 <= i < |a| && e.Applied(a[i], data) == Some(error);
      assert (a + b)[i] == a[i];
    }
    if LeafFails(e, b, data, error) {
      var i :| 0 <= i < |b| && e.Applied(b[i], data) == Some(error);
      assert (a + b)[|a| + i] == b[i];
    }
  }

  /** After a run, failed or not, the data are those left by the serial rules that ran, up to and
      including the one that failed: nothing is undone, and parallel groups leave no trace. */
  lemma {:induction false} DataAfterRun(e: Engine, groups: seq<RulesGroup>, data: Data, after: Data, r: Outcome)
    returns (n: nat)
    requires RunsTo(e, groups, data, after, r)
    ensures StoppedAfter(e, groups, n, data, after, r)
    decreases groups
  {
    if groups == [] {
      n := 0;
    } else {
      hide MayYield, SerRun, LeafFails, RanUpTo, LastFailed, Leaves;
      var rest := groups[1..];
      match groups[0]
      case Ser(rules) =>
        var m := SerRunStops(e, rules, data);
        var (d, first) := SerRun(e, rules, data);
        RanBound(e, rules, m, data, d);
        if first.Some? {
          n := m;
          FrontRun(e, rules, SerialRules(rest), m, data, after, r);
        } else {
          var k := DataAfterRun(e, rest, d, after, r);
          RanBound(e, SerialRules(rest), k, d, after);
          RanAll(e, rules, data, d);
          ShiftRun(e, rules, SerialRules(rest), k, data, after, r);
          n := |rules| + k;
        }
      case Par(_) =>
        if r.Some? && after == data && MayYield(e, groups[0], data, r) {
          n := 0;
          GroupOkIffLeavesOk(e, groups[0], data);
          LeafFailsConcat(e, Leaves(groups[0]), ParallelRules(rest), data, r.value);
          NoneRan(e, SerialRules(groups), data);
          FailsMeans(e, Leaves(groups[0]), data, r.value);
        } else {
          n := DataAfterRun(e, rest, data, after, r);
          if r.Some? {
            LeafFailsConcat(e, Leaves(groups[0]), ParallelRules(rest), after, r.value);
          }
        }
    }
  }

  lemma FailsMeans(e: Engine, rules: seq<RuleNumber>, data: Data, error: EngineError)
    ensures LeafFails(e, rules, data, error) <==>
            exists i :: 0 <= i < |rules| && e.Applied(rules[i], data) == Some(error)
  {
  }

  lemma NoneRan(e: Engine, rules: seq<RuleNumber>, data: Data)
    ensures RanUpTo(e, rules, 0, data, data)
  {
    assert rules[..0] == [];
  }

  lemma RanBound(e: Engine, rules: seq<RuleNumber>, n: nat, data: Data, after: Data)
    requires RanUpTo(e, rules, n, data, after)
    ensures n <= |rules|
  {
  }

  lemma RanAll(e: Engine, rules: seq<RuleNumber>, data: Data, after: Data)
    requires RanUpTo(e, rules, |rules|, data, after)
    ensures after == Folded(e, rules, data)
  {
    assert rules[..|rules|] == rules;
  }

  // ---- shorthands ----

  function Singleton(number: RuleNumber): RulesGroup {
    Ser([number])
  }

  function Parallel(numbers: seq<RuleNumber>): RulesGroup {
    Par(seq(|numbers|, i requires 0 <= i < |numbers| => Singleton(numbers[i])))
  }

  /** The shorthand for a parallel list has just the listed rules as its leaves. */
  lemma {:induction false} LeavesOfParallel(numbers: seq<RuleNumber>)
    ensures Leaves(Parallel(numbers)) == numbers
    ensures Parallel(numbers).Par? && |Parallel(numbers).groups| == |numbers|
    ensures forall i :: 0 <= i < |numbers| ==> Parallel(numbers).groups[i] == Ser([numbers[i]])
    decreases numbers
  {
    if numbers != [] {
      LeavesOfParallel(numbers[1..]);
      assert Parallel(numbers).groups[1..] == Parallel(numbers[1..]).groups;
      assert AllLeaves(Parallel(numbers[1..]).groups) == numbers[1..];
      assert Leaves(Parallel(numbers).groups[0]) == [numbers[0]];
      assert numbers == [numbers[0]] + numbers[1..];
    }
  }
}
