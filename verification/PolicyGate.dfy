/** The department policy gate evaluated when a package is finalized. */
module PolicyGate {
  import opened Counting
  import opened JsonModel
  import opened Text
  import opened Judge

  /** `present` and `primary` stand for the placeholder and keyword tests on text. */
  datatype Policy = Policy(
    requiredFields: seq<string>,
    minSources: int,
    minPrimarySources: int,
    minCompletedTasks: int,
    requireAcceptedTask: bool,
    present: string -> bool,
    primary: Dict -> bool)

  datatype BlockerSeverity = Hard | Soft

  /** What a blocker complains about. */
  datatype Cause = MissingField(path: string) | FewSources | FewPrimarySources | FewCompletedTasks | NoAcceptedTask

  datatype Blocker = Blocker(cause: Cause, severity: BlockerSeverity)

  datatype Gate = Gate(passed: bool, blockers: seq<Blocker>)

  predicate Present(policy: Policy, v: Json)
    decreases v
  {
    match v
    case Null => false
    case Str(s) => policy.present(s)
    case Arr(items) => exists i :: 0 <= i < |items| && Present(policy, items[i])
    case Obj(fields) => exists key | key in fields :: Present(policy, fields[key])
    case _ => true
  }

  function MissingFields(policy: Policy, fields: seq<string>, payload: Dict): seq<Blocker> {
    if fields == [] then []
    else
      var init, last := fields[..|fields| - 1], fields[|fields| - 1];
      MissingFields(policy, init, payload)
      + if Present(policy, Walk(Obj(payload), SplitDots(last))) then [] else [Blocker(MissingField(last), Hard)]
  }

  function CountStatus(statuses: seq<Status>, wanted: set<Status>): nat {
    if statuses == [] then 0
    else CountStatus(statuses[..|statuses| - 1], wanted) + if statuses[|statuses| - 1] in wanted then 1 else 0
  }

  lemma {:induction false} CountStatusBound(statuses: seq<Status>, st: Status)
    ensures CountStatus(statuses, {st}) <= |statuses|
    ensures CountStatus(statuses, {st}) == |statuses| <==> forall i | 0 <= i < |statuses| :: statuses[i] == st
  {
    if statuses != [] {
      var n := |statuses| - 1;
      CountStatusBound(statuses[..n], st);
      if forall i | 0 <= i < n :: statuses[..n][i] == st {
        assert forall i | 0 <= i < n :: statuses[i] == st;
      } else {
        var i :| 0 <= i < n && statuses[..n][i] != st;
        assert statuses[i] != st;
      }
    }
  }

  lemma {:induction false} CountStatusMeaning(statuses: seq<Status>, st: Status)
    ensures CountStatus(statuses, {st}) > 0 <==> st in statuses
  {
    if statuses != [] {
      var n := |statuses| - 1;
      CountStatusMeaning(statuses[..n], st);
      assert statuses == statuses[..n] + [statuses[n]];
    }
  }

  function CountPrimary(policy: Policy, sources: seq<Json>, any: bool): nat {
    if sources == [] then 0
    else
      var last := sources[|sources| - 1];
      CountPrimary(policy, sources[..|sources| - 1], any)
      + if last.Obj? && (any || policy.primary(last.fields)) then 1 else 0
  }

  function Shortfall(cause: Cause, required: int, actual: nat): seq<Blocker> {
    if required <= 0 || actual >= required then [] else [Blocker(cause, Hard)]
  }

  /** `evaluate_department_policy_gate`. */
  function Evaluate(policy: Policy, payload: Dict, statuses: seq<Status>, sources: seq<Json>): Gate {
    var blockers :=
      MissingFields(policy, policy.requiredFields, payload)
      + Shortfall(FewSources, policy.minSources, CountPrimary(policy, sources, true))
      + Shortfall(FewPrimarySources, policy.minPrimarySources, CountPrimary(policy, sources, false))
      + Shortfall(FewCompletedTasks, policy.minCompletedTasks,
                  CountStatus(statuses, {StatusAccepted, StatusDegraded, StatusBlocked, StatusSkipped}))
      + if policy.requireAcceptedTask && CountStatus(statuses, {StatusAccepted}) < 1
        then [Blocker(NoAcceptedTask, Hard)] else [];
    Gate(blockers == [], blockers)
  }

  ghost predicate AllHard(blockers: seq<Blocker>) {
    forall i | 0 <= i < |blockers| :: blockers[i].severity == Hard
  }

  lemma {:induction false} MissingFieldsHard(policy: Policy, fields: seq<string>, payload: Dict)
    ensures AllHard(MissingFields(policy, fields, payload))
  {
    if fields != [] {
      MissingFieldsHard(policy, fields[..|fields| - 1], payload);
    }
  }

  /** The gate fails exactly when it has a blocker, and every blocker it ever emits is hard. */
  lemma GateMeaning(policy: Policy, payload: Dict, statuses: seq<Status>, sources: seq<Json>)
    ensures var g := Evaluate(policy, payload, statuses, sources);
            && (g.passed <==> g.blockers == [])
            && AllHard(g.blockers)
            && (policy.requireAcceptedTask && StatusAccepted !in statuses ==> !g.passed)
  {
    CountStatusMeaning(statuses, StatusAccepted);
    MissingFieldsHard(policy, policy.requiredFields, payload);
  }

  // ---- what the gate demands ----

  /** A value that is something by itself: a text that is no placeholder, a number or a truth value. */
  predicate Solid(policy: Policy, v: Json) {
    (v.Str? && policy.present(v.s)) || v.Bool? || v.Num?
  }

  /** A value is present exactly when something solid occurs in it, at any depth. */
  lemma {:induction false} PresentMeaning(policy: Policy, v: Json)
    ensures Present(policy, v) <==> exists part :: Within(v, part) && Solid(policy, part)
    decreases v
  {
    match v
    case Obj(fields) =>
      forall key | key in fields
        ensures Present(policy, fields[key]) <==> exists part :: Within(fields[key], part) && Solid(policy, part)
      {
        PresentMeaning(policy, fields[key]);
      }
    case Arr(items) =>
      forall i | 0 <= i < |items|
        ensures Present(policy, items[i]) <==> exists part :: Within(items[i], part) && Solid(policy, part)
      {
        PresentMeaning(policy, items[i]);
      }
    case _ =>
      assert Within(v, v);
  }

  lemma {:induction false} StatusCardinality(statuses: seq<Status>, wanted: set<Status>)
    ensures CountStatus(statuses, wanted) == |set i | 0 <= i < |statuses| && statuses[i] in wanted|
  {
    if statuses != [] {
      var n := |statuses| - 1;
      StatusCardinality(statuses[..n], wanted);
      var before := set i | 0 <= i < n && statuses[..n][i] in wanted;
      var all := set i | 0 <= i < |statuses| && statuses[i] in wanted;
      assert all == before + if statuses[n] in wanted then {n} else {};
    }
  }

  lemma {:induction false} SourceCardinality(policy: Policy, sources: seq<Json>)
    ensures CountPrimary(policy, sources, true) == |set i | 0 <= i < |sources| && sources[i].Obj?|
  {
    if sources != [] {
      var n := |sources| - 1;
      SourceCardinality(policy, sources[..n]);
      var before := set i | 0 <= i < n && sources[..n][i].Obj?;
      var all := set i | 0 <= i < |sources| && sources[i].Obj?;
      assert all == before + if sources[n].Obj? then {n} else {};
    }
  }

  lemma PrimaryOneMore(policy: Policy, sources: seq<Json>, source: Json)
    ensures var more := sources + [source];
            |set i | 0 <= i < |more| && more[i].Obj? && policy.primary(more[i].fields)| ==
            |set i | 0 <= i < |sources| && sources[i].Obj? && policy.primary(sources[i].fields)|
            + if source.Obj? && policy.primary(source.fields) then 1 else 0
  {
    var n, more := |sources|, sources + [source];
    var before := set i | 0 <= i < |sources| && sources[i].Obj? && policy.primary(sources[i].fields);
    var all := set i | 0 <= i < |more| && more[i].Obj? && policy.primary(more[i].fields);
    forall i ensures i in all <==> i in before || (source.Obj? && policy.primary(source.fields) && i == n) {
      if 0 <= i < n {
        assert more[i] == sources[i];
      }
    }
    CountOneMore(before, all, n, source.Obj? && policy.primary(source.fields));
  }

  lemma {:induction false} PrimaryCardinality(policy: Policy, sources: seq<Json>)
    ensures CountPrimary(policy, sources, false) ==
            |set i | 0 <= i < |sources| && sources[i].Obj? && policy.primary(sources[i].fields)|
  {
    if sources != [] {
      var n := |sources| - 1;
      PrimaryCardinality(policy, sources[..n]);
      assert sources == sources[..n] + [sources[n]];
      PrimaryOneMore(policy, sources[..n], sources[n]);
    }
  }

  lemma {:induction false} MissingFieldsMeaning(policy: Policy, fields: seq<string>, payload: Dict)
    ensures forall b :: b in MissingFields(policy, fields, payload) <==>
              b.cause.MissingField? && b.severity == Hard && b.cause.path in fields
              && !Present(policy, Walk(Obj(payload), SplitDots(b.cause.path)))
  {
    if fields != [] {
      var n := |fields| - 1;
      MissingFieldsMeaning(policy, fields[..n], payload);
      assert fields == fields[..n] + [fields[n]];
    }
  }

  lemma BlockersMeaning(a: seq<Blocker>, b: seq<Blocker>, c: seq<Blocker>, d: seq<Blocker>, e: seq<Blocker>)
    ensures forall x :: x in a + b + c + d + e <==> x in a || x in b || x in c || x in d || x in e
    ensures a + b + c + d + e == [] <==> a == [] && b == [] && c == [] && d == [] && e == []
  {
    assert |a + b + c + d + e| == |a| + |b| + |c| + |d| + |e|;
  }

  /** The shortfalls, for given counts. */
  lemma GateOnCounts(policy: Policy, payload: Dict, statuses: seq<Status>, sources: seq<Json>, total: nat, primary: nat, finished: nat)
    requires total == CountPrimary(policy, sources, true) && primary == CountPrimary(policy, sources, false)
    requires finished == CountStatus(statuses, {StatusAccepted, StatusDegraded, StatusBlocked, StatusSkipped})
    ensures var g := Evaluate(policy, payload, statuses, sources);
            && (forall b :: b in g.blockers <==>
                  || b in MissingFields(policy, policy.requiredFields, payload)
                  || (b == Blocker(FewSources, Hard) && total < policy.minSources)
                  || (b == Blocker(FewPrimarySources, Hard) && primary < policy.minPrimarySources)
                  || (b == Blocker(FewCompletedTasks, Hard) && finished < policy.minCompletedTasks)
                  || (b == Blocker(NoAcceptedTask, Hard) && policy.requireAcceptedTask && StatusAccepted !in statuses))
            && (g.passed <==>
                  && MissingFields(policy, policy.requiredFields, payload) == []
                  && policy.minSources <= total && policy.minPrimarySources <= primary
                  && policy.minCompletedTasks <= finished
                  && (policy.requireAcceptedTask ==> StatusAccepted in statuses))
  {
    CountStatusMeaning(statuses, StatusAccepted);
    BlockersMeaning(MissingFields(policy, policy.requiredFields, payload),
                    Shortfall(FewSources, policy.minSources, total),
                    Shortfall(FewPrimarySources, policy.minPrimarySources, primary),
                    Shortfall(FewCompletedTasks, policy.minCompletedTasks, finished),
                    if policy.requireAcceptedTask && CountStatus(statuses, {StatusAccepted}) < 1
                    then [Blocker(NoAcceptedTask, Hard)] else []);
  }

  lemma NoMissingFields(policy: Policy, payload: Dict)
    ensures MissingFields(policy, policy.requiredFields, payload) == [] <==>
            forall path | path in policy.requiredFields :: Present(policy, Walk(Obj(payload), SplitDots(path)))
  {
    var missing := MissingFields(policy, policy.requiredFields, payload);
    MissingFieldsMeaning(policy, policy.requiredFields, payload);
    if missing != [] {
      assert missing[0] in missing;
    }
    forall path | path in policy.requiredFields && !Present(policy, Walk(Obj(payload), SplitDots(path)))
      ensures missing != []
    {
      assert Blocker(MissingField(path), Hard) in missing;
    }
  }

  /** The blockers, one by one: a missing field per required path without anything present, a
      shortfall per positive threshold that the number of dictionary sources, of primary ones, or
      of finished tasks does not reach, and one when a demanded accepted task is missing. The
      gate passes exactly when none of these applies. */
  lemma GateExactly(policy: Policy, payload: Dict, statuses: seq<Status>, sources: seq<Json>)
    ensures var g := Evaluate(policy, payload, statuses, sources);
            var total := |set i | 0 <= i < |sources| && sources[i].Obj?|;
            var primary := |set i | 0 <= i < |sources| && sources[i].Obj? && policy.primary(sources[i].fields)|;
            var finished := |set i | 0 <= i < |statuses| &&
                              statuses[i] in {StatusAccepted, StatusDegraded, StatusBlocked, StatusSkipped}|;
            && (forall path :: Blocker(MissingField(path), Hard) in g.blockers <==>
                  path in policy.requiredFields && !Present(policy, Walk(Obj(payload), SplitDots(path))))
            && (Blocker(FewSources, Hard) in g.blockers <==> total < policy.minSources)
            && (Blocker(FewPrimarySources, Hard) in g.blockers <==> primary < policy.minPrimarySources)
            && (Blocker(FewCompletedTasks, Hard) in g.blockers <==> finished < policy.minCompletedTasks)
            && (Blocker(NoAcceptedTask, Hard) in g.blockers <==> policy.requireAcceptedTask && StatusAccepted !in statuses)
            && (g.passed <==>
                  && (forall path | path in policy.requiredFields :: Present(policy, Walk(Obj(payload), SplitDots(path))))
                  && policy.minSources <= total && policy.minPrimarySources <= primary
                  && policy.minCompletedTasks <= finished
                  && (policy.requireAcceptedTask ==> StatusAccepted in statuses))
  {
    var total := |set i | 0 <= i < |sources| && sources[i].Obj?|;
    var primary := |set i | 0 <= i < |sources| && sources[i].Obj? && policy.primary(sources[i].fields)|;
    var finished := |set i | 0 <= i < |statuses| &&
                      statuses[i] in {StatusAccepted, StatusDegraded, StatusBlocked, StatusSkipped}|;
    SourceCardinality(policy, sources);
    PrimaryCardinality(policy, sources);
    var wanted := {StatusAccepted, StatusDegraded, StatusBlocked, StatusSkipped};
    StatusCardinality(statuses, wanted);
    assert (set i | 0 <= i < |statuses| && statuses[i] in wanted)
        == set i | 0 <= i < |statuses| && statuses[i] in {StatusAccepted, StatusDegraded, StatusBlocked, StatusSkipped};
    MissingFieldsMeaning(policy, policy.requiredFields, payload);
    NoMissingFields(policy, payload);
    GateOnCounts(policy, payload, statuses, sources, total, primary, finished);
  }
}
