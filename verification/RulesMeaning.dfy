/**
  What running rules means, in terms of the rules' own functions: which function a version of the
  protocol calls, what it writes, and what a series of rules makes of the data.
 */
module RulesMeaning {
  import opened Wrappers
  import opened RulesEngine

  /** v is the greatest version, up to that of the protocol, for which the rule has a function. */
  ghost predicate IsLatest(rule: Rule, version: Version, v: Version) {
    && v in rule.versions && v <= version
    && (forall w :: w in rule.versions && w <= version ==> w <= v)
  }

  ghost predicate TooRecent(rule: Rule, version: Version) {
    forall v :: v in rule.versions ==> v > version
  }

  lemma ChosenIs(rule: Rule, version: Version, v: Version)
    ensures IsLatest(rule, version, v) ==> Chosen(rule, version) == Some(rule.versions[v])
    ensures TooRecent(rule, version) <==> Chosen(rule, version) == None
    ensures TooRecent(rule, version) ==> !IsLatest(rule, version, v)
  {
    LatestIff(rule.versions.Keys, version, v);
    match Latest(rule.versions.Keys, version)
    case Some(latest) => LatestIff(rule.versions.Keys, version, latest);
    case None =>
  }

  /** A rule has a greatest version, unless it is too recent. */
  lemma HasLatest(rule: Rule, version: Version) returns (v: Version)
    requires !TooRecent(rule, version)
    ensures IsLatest(rule, version, v)
  {
    match Latest(rule.versions.Keys, version)
    case Some(latest) =>
      v := latest;
      LatestIff(rule.versions.Keys, version, latest);
    case None =>
      LatestIff(rule.versions.Keys, version, 0);
      assert false;
  }

  lemma OnlyLatest(rule: Rule, version: Version, v: Version)
    requires IsLatest(rule, version, v)
    ensures Chosen(rule, version) == Some(rule.versions[v])
    ensures forall w :: IsLatest(rule, version, w) <==> w == v
  {
    ChosenIs(rule, version, v);
  }

  ghost predicate Reports(number: RuleNumber, cause: Option<Cause>, r: Outcome) {
    match cause
    case None => r == None
    case Some(c) => r == Some(RuleError(number, c))
  }

  /** What a function does when it may change the data: what it wrote stays, also when it fails. */
  ghost predicate Writes(fn: RuleFn, number: RuleNumber, before: Data, after: Data, r: Outcome) {
    match fn
    case RefMut(run) => after == run(before).0 && Reports(number, run(before).1, r)
    case Ref(check) => after == before && Reports(number, check(before), r)
  }

  /** What it does when it may only look. */
  ghost predicate Looks(fn: RuleFn, number: RuleNumber, version: Version, data: Data, r: Outcome) {
    match fn
    case RefMut(_) => r == Some(MutRuleInPar(number, version))
    case Ref(check) => Reports(number, check(data), r)
  }

  /** A rule in a serial group of the protocol: no such rule, no function for this version, or what its
      function for this version writes. */
  ghost predicate Does(e: Engine, number: RuleNumber, before: Data, after: Data, r: Outcome) {
    if number !in e.all then after == before && r == Some(RuleNotExist(number, e.version))
    else if TooRecent(e.all[number], e.version) then after == before && r == Some(RuleTooRecent(number, e.version))
    else exists v :: IsLatest(e.all[number], e.version, v) &&
                     Writes(e.all[number].versions[v], number, before, after, r)
  }

  ghost predicate Sees(e: Engine, number: RuleNumber, data: Data, r: Outcome) {
    if number !in e.all then r == Some(RuleNotExist(number, e.version))
    else if TooRecent(e.all[number], e.version) then r == Some(RuleTooRecent(number, e.version))
    else exists v :: IsLatest(e.all[number], e.version, v) &&
                     Looks(e.all[number].versions[v], number, e.version, data, r)
  }

  /** One rule: the data and the verdict are exactly those of the function of the greatest version up
      to the protocol's. */
  lemma AppliedMutIff(e: Engine, number: RuleNumber, before: Data, after: Data, r: Outcome)
    ensures e.AppliedMut(number, before) == (after, r) <==> Does(e, number, before, after, r)
  {
    hide Latest, TooRecent, Chosen;
    if number in e.all {
      var rule := e.all[number];
      ChosenIs(rule, e.version, 0);
      if !TooRecent(rule, e.version) {
        var v := HasLatest(rule, e.version);
        OnlyLatest(rule, e.version, v);
      }
    }
  }

  lemma AppliedIff(e: Engine, number: RuleNumber, data: Data, r: Outcome)
    ensures e.Applied(number, data) == r <==> Sees(e, number, data, r)
  {
    hide Latest, TooRecent, Chosen;
    if number in e.all {
      var rule := e.all[number];
      ChosenIs(rule, e.version, 0);
      if !TooRecent(rule, e.version) {
        var v := HasLatest(rule, e.version);
        OnlyLatest(rule, e.version, v);
      }
    }
  }

  /** A rule may change the data if and only if its function for this version is one that may. */
  lemma MutableIff(e: Engine, number: RuleNumber)
    ensures e.Mutable(number) <==>
            number in e.all && exists v :: IsLatest(e.all[number], e.version, v) && e.all[number].versions[v].RefMut?
  {
    hide Latest, TooRecent, Chosen, IsLatest;
    if number in e.all {
      var rule := e.all[number];
      ChosenIs(rule, e.version, 0);
      if !TooRecent(rule, e.version) {
        var v := HasLatest(rule, e.version);
        OnlyLatest(rule, e.version, v);
      } else {
        forall v ensures !IsLatest(rule, e.version, v) {
          ChosenIs(rule, e.version, v);
        }
      }
    }
  }

  // ---- a series ----

  /** The data between the rules of a series of which none fails: each rule takes what the one before
      it left. */
  ghost predicate Chain(e: Engine, rules: seq<RuleNumber>, states: seq<Data>) {
    && |states| == |rules| + 1
    && forall i :: 0 <= i < |rules| ==> Does(e, rules[i], states[i], states[i + 1], None)
  }

  ghost predicate Linked(e: Engine, rules: seq<RuleNumber>, data: Data, states: seq<Data>, after: Data) {
    |states| == |rules| + 1 && states[0] == data && states[|rules|] == after && Chain(e, rules, states)
  }

  ghost predicate Succeeds(e: Engine, rules: seq<RuleNumber>, data: Data, after: Data) {
    exists states :: Linked(e, rules, data, states, after)
  }

  /** The rules before the n-th succeed, and the n-th fails. */
  ghost predicate FailsIn(e: Engine, rules: seq<RuleNumber>, n: nat, data: Data, after: Data, error: EngineError) {
    n < |rules| && exists before ::
      Succeeds(e, rules[..n], data, before) && Does(e, rules[n], before, after, Some(error))
  }

  lemma ChainCons(e: Engine, rules: seq<RuleNumber>, states: seq<Data>)
    requires rules != [] && |states| == |rules| + 1
    ensures Chain(e, rules, states) <==>
            Does(e, rules[0], states[0], states[1], None) && Chain(e, rules[1..], states[1..])
  {
    hide Does;
    if Chain(e, rules[1..], states[1..]) && Does(e, rules[0], states[0], states[1], None) {
      forall i | 0 <= i < |rules| ensures Does(e, rules[i], states[i], states[i + 1], None) {
        if i > 0 {
          assert Does(e, rules[1..][i - 1], states[1..][i - 1], states[1..][i], None);
        }
      }
    }
  }

  lemma SucceedsCons(e: Engine, rules: seq<RuleNumber>, data: Data, after: Data)
    requires rules != []
    ensures Succeeds(e, rules, data, after) <==>
            exists next :: Does(e, rules[0], data, next, None) && Succeeds(e, rules[1..], next, after)
  {
    hide Does, Chain;
    if Succeeds(e, rules, data, after) {
      var states :| Linked(e, rules, data, states, after);
      ChainCons(e, rules, states);
      assert Linked(e, rules[1..], states[1], states[1..], after);
      assert Succeeds(e, rules[1..], states[1], after);
    }
    if next: Data :| Does(e, rules[0], data, next, None) && Succeeds(e, rules[1..], next, after) {
      var states :| Linked(e, rules[1..], next, states, after);
      assert ([data] + states)[1..] == states;
      ChainCons(e, rules, [data] + states);
      assert Linked(e, rules, data, [data] + states, after);
    }
  }

  /** A series succeeds if and only if each of its rules does on what the one before it left; the data
      afterwards are what the last one left. */
  lemma {:induction false} SeriesSucceedsIff(e: Engine, rules: seq<RuleNumber>, data: Data, after: Data)
    ensures SerRun(e, rules, data) == (after, None) <==> Succeeds(e, rules, data, after)
    decreases rules
  {
    if rules == [] {
      if data == after {
        assert Linked(e, rules, data, [data], after);
      }
    } else {
      hide Does, Succeeds;
      var (next, r) := e.AppliedMut(rules[0], data);
      SeriesSucceedsIff(e, rules[1..], next, after);
      SucceedsCons(e, rules, data, after);
      forall other ensures e.AppliedMut(rules[0], data) == (other, None) <==> Does(e, rules[0], data, other, None) {
        AppliedMutIff(e, rules[0], data, other, None);
      }
    }
  }

  lemma FailsInCons(e: Engine, rules: seq<RuleNumber>, n: nat, data: Data, after: Data, error: EngineError)
    requires rules != [] && n > 0
    ensures FailsIn(e, rules, n, data, after, error) <==>
            exists next :: Does(e, rules[0], data, next, None) && FailsIn(e, rules[1..], n - 1, next, after, error)
  {
    hide Does, Succeeds;
    if n < |rules| {
      assert rules[..n][0] == rules[0] && rules[..n][1..] == rules[1..][..n - 1] && rules[n] == rules[1..][n - 1];
      forall before
        ensures Succeeds(e, rules[..n], data, before) <==>
                exists next :: Does(e, rules[0], data, next, None) && Succeeds(e, rules[1..][..n - 1], next, before)
      {
        SucceedsCons(e, rules[..n], data, before);
      }
    }
  }

  lemma FailsAtOnce(e: Engine, rules: seq<RuleNumber>, data: Data, after: Data, error: EngineError)
    requires rules != []
    ensures FailsIn(e, rules, 0, data, after, error) <==> Does(e, rules[0], data, after, Some(error))
  {
    hide Does;
    assert rules[..0] == [];
    forall before ensures Succeeds(e, [], data, before) <==> before == data {
      if before == data {
        assert Linked(e, [], data, [data], before);
      }
    }
  }

  /** A series fails if and only if one of its rules does after all those before it have succeeded; the
      data afterwards are what the failing one left, and the error is its error. */
  lemma {:induction false} SeriesFailsIff(e: Engine, rules: seq<RuleNumber>, data: Data, after: Data,
                                          error: EngineError)
    ensures SerRun(e, rules, data) == (after, Some(error)) <==>
            exists n: nat :: FailsIn(e, rules, n, data, after, error)
    decreases rules
  {
    if rules == [] {
    } else {
      hide Does, FailsIn;
      var (next, r) := e.AppliedMut(rules[0], data);
      SeriesFailsIff(e, rules[1..], next, after, error);
      FailsAtOnce(e, rules, data, after, error);
      AppliedMutIff(e, rules[0], data, after, Some(error));
      forall other ensures e.AppliedMut(rules[0], data) == (other, None) <==> Does(e, rules[0], data, other, None) {
        AppliedMutIff(e, rules[0], data, other, None);
      }
      forall n: nat | n > 0
        ensures FailsIn(e, rules, n, data, after, error) <==>
                r.None? && FailsIn(e, rules[1..], n - 1, next, after, error)
      {
        FailsInCons(e, rules, n, data, after, error);
      }
      if n: nat :| FailsIn(e, rules[1..], n, next, after, error) {
        assert r.None? ==> FailsIn(e, rules, n + 1, data, after, error);
      }
    }
  }

  // ---- rules that may only look ----

  /** The n-th rule fails, and none before it does. */
  ghost predicate FirstFailure(e: Engine, rules: seq<RuleNumber>, n: nat, data: Data, error: EngineError) {
    && n < |rules| && Sees(e, rules[n], data, Some(error))
    && forall i :: 0 <= i < n ==> Sees(e, rules[i], data, None)
  }

  lemma FirstFailureCons(e: Engine, rules: seq<RuleNumber>, n: nat, data: Data, error: EngineError)
    requires rules != [] && n > 0
    ensures FirstFailure(e, rules, n, data, error) <==>
            Sees(e, rules[0], data, None) && FirstFailure(e, rules[1..], n - 1, data, error)
  {
    hide Sees;
    if n < |rules| && Sees(e, rules[0], data, None) && FirstFailure(e, rules[1..], n - 1, data, error) {
      forall i | 0 <= i < n ensures Sees(e, rules[i], data, None) {
        if i > 0 {
          assert Sees(e, rules[1..][i - 1], data, None);
        }
      }
    }
    if FirstFailure(e, rules, n, data, error) {
      forall i | 0 <= i < n - 1 ensures Sees(e, rules[1..][i], data, None) {
        assert Sees(e, rules[i + 1], data, None);
      }
    }
  }

  /** A series that may only look reports the error of the first of its rules that fails on the data. */
  lemma {:induction false} FirstErrorIff(e: Engine, rules: seq<RuleNumber>, data: Data, error: EngineError)
    ensures FirstError(e, rules, data) == Some(error) <==> exists n: nat :: FirstFailure(e, rules, n, data, error)
    decreases rules
  {
    if rules == [] {
    } else {
      FirstErrorIff(e, rules[1..], data, error);
      AppliedIff(e, rules[0], data, None);
      AppliedIff(e, rules[0], data, Some(error));
      hide Sees, FirstFailure;
      FailsFirst(e, rules, data, error);
      forall n: nat | n > 0
        ensures FirstFailure(e, rules, n, data, error) <==>
                Sees(e, rules[0], data, None) && FirstFailure(e, rules[1..], n - 1, data, error)
      {
        FirstFailureCons(e, rules, n, data, error);
      }
      if n: nat :| FirstFailure(e, rules[1..], n, data, error) {
        assert Sees(e, rules[0], data, None) ==> FirstFailure(e, rules, n + 1, data, error);
      }
    }
  }

  lemma FailsFirst(e: Engine, rules: seq<RuleNumber>, data: Data, error: EngineError)
    requires rules != []
    ensures FirstFailure(e, rules, 0, data, error) <==> Sees(e, rules[0], data, Some(error))
  {
  }

  // ---- a protocol ----

  lemma {:induction false} SerRunConcat(e: Engine, a: seq<RuleNumber>, b: seq<RuleNumber>, data: Data)
    ensures var (d, r) := SerRun(e, a, data); SerRun(e, a + b, data) == if r.Some? then (d, r) else SerRun(e, b, d)
    decreases a
  {
    if a == [] {
      assert a + b == b;
    } else {
      assert (a + b)[0] == a[0] && (a + b)[1..] == a[1..] + b;
      SerRunConcat(e, a[1..], b, e.AppliedMut(a[0], data).0);
    }
  }

  lemma {:induction false} SerialisedIsSeries(e: Engine, groups: seq<RulesGroup>, data: Data, after: Data)
    ensures RunsTo(e, Serialised(groups), data, after, None) <==> SerRun(e, AllLeaves(groups), data) == (after, None)
    decreases groups
  {
    if groups == [] {
    } else {
      hide SerRun;
      var first, rest := Leaves(groups[0]), groups[1..];
      assert Serialised(groups)[0] == Ser(first) && Serialised(groups)[1..] == Serialised(rest);
      var (d, r) := SerRun(e, first, data);
      SerRunConcat(e, first, AllLeaves(rest), data);
      SerialisedIsSeries(e, rest, d, after);
    }
  }

  /** A protocol succeeds, in whatever schedule, if and only if all its rules do one after the other, each
      on what the one before it left, and no rule of a parallel group may change the data; the data
      afterwards are what the last rule left. */
  lemma ProtocolSucceedsIff(e: Engine, groups: seq<RulesGroup>, data: Data, after: Data)
    ensures RunsTo(e, groups, data, after, None) <==>
            Succeeds(e, AllLeaves(groups), data, after) && ParLooksOnly(e, groups)
  {
    hide RunsTo, SerRun, Succeeds, ParLooksOnly;
    ParallelIffSerial(e, groups, data, after);
    SerialisedIsSeries(e, groups, data, after);
    SeriesSucceedsIff(e, AllLeaves(groups), data, after);
  }
}
