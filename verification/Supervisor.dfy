/** The Supervisor's admission gate, alone and behind the Lead. */
module Supervisor {
  import opened JsonModel
  import opened Critic
  import opened Judge
  import opened Contracts
  import opened Lead
  import opened LeadRuns
  import opened Finalization
  import opened PolicyGate

  datatype Admission = Admitted | AdmittedWithGaps | Refused

  /** Real content under one key of the section payload. */
  predicate SubstantiveValue(v: Json) {
    match v
    case Str(s) => s != "" && s != "n/v"
    case Arr(items) => items != []
    case Obj(fields) =>
      || ("companies" in fields && fields["companies"].Arr? && fields["companies"].items != [])
      || exists key | key in fields :: InnerContent(key, fields[key])
    case _ => false
  }

  predicate InnerContent(key: string, v: Json) {
    key != "assessment" && key != "sources" && Truthy(v) && v != Str("n/v")
  }

  predicate Substantive(payload: Dict) {
    exists key | key in payload :: key != "sources" && SubstantiveValue(payload[key])
  }

  /** Content under a key other than the sources is a text that is neither empty nor "n/v", a list
      with an item, or a dictionary with a company list or with a true value other than "n/v"
      under a key other than the assessment and the sources. */
  lemma SubstantiveExactly(payload: Dict)
    ensures Substantive(payload) <==>
            exists key :: key in payload && key != "sources" && HoldsContent(payload[key])
  {
    forall key | key in payload ensures SubstantiveValue(payload[key]) <==> HoldsContent(payload[key]) {
    }
  }

  ghost predicate HoldsContent(v: Json) {
    || (v.Str? && v.s != "" && v.s != "n/v")
    || (v.Arr? && |v.items| > 0)
    || (v.Obj? && Get(v.fields, "companies").Arr? && |Get(v.fields, "companies").items| > 0)
    || (v.Obj? && exists k :: k in v.fields && k != "assessment" && k != "sources" && Truthy(v.fields[k]) && v.fields[k] != Str("n/v"))
  }

  /** The search loop with its breaks. */
  method HasSubstantiveContent(payload: Dict) returns (substantive: bool)
    ensures substantive <==> Substantive(payload)
  {
    substantive := false;
    var todo := payload.Keys;
    while todo != {}
      invariant todo <= payload.Keys
      invariant !substantive
      invariant forall key | key in payload && key !in todo :: key == "sources" || !SubstantiveValue(payload[key])
      decreases todo
    {
      var key :| key in todo;
      todo := todo - {key};
      if key == "sources" {
        continue;
      }
      if SubstantiveValue(payload[key]) {
        substantive := true;
        break;
      }
    }
  }

  /** A package without a policy gate counts as passed, without blockers. */
  function GateOf(gate: Option<Gate>): Gate {
    match gate case Some(g) => g case None => Gate(true, [])
  }

  /** `accept_department_package`: the decision chain. */
  method AcceptDepartmentPackage(payload: Dict, statuses: seq<Status>, gate: Option<Gate>) returns (decision: Admission)
    ensures decision == Decision(Substantive(payload), statuses, GateOf(gate))
  {
    var g := GateOf(gate);
    var hasPayload := payload != map[];
    var substantive := false;
    if hasPayload {
      substantive := HasSubstantiveContent(payload);
    }
    var accepted := CountStatus(statuses, {StatusAccepted});
    CountStatusMeaning(statuses, StatusAccepted);
    CountStatusBound(statuses, StatusRejected);
    var allRejected := CountStatus(statuses, {StatusRejected}) == |statuses| && |statuses| > 0;
    var allHard := !g.passed && |g.blockers| > 0 && forall i | 0 <= i < |g.blockers| :: g.blockers[i].severity == Hard;
    if hasPayload && substantive && |statuses| > 0 && !allRejected && accepted > 0 && g.passed {
      decision := Admitted;
    } else if allHard {
      decision := Refused;
    } else if hasPayload && substantive && !allRejected {
      decision := AdmittedWithGaps;
    } else {
      decision := Refused;
    }
  }

  /** All tasks carry the status "rejected". */
  ghost predicate AllRejected(statuses: seq<Status>) {
    statuses != [] && forall i | 0 <= i < |statuses| :: statuses[i] == StatusRejected
  }

  /** The intended meaning of the gate: refused without content, when all tasks are rejected, or
      when the policy gate fails on hard blockers alone; admitted when nothing is wrong and some
      task is accepted; admitted with gaps otherwise. */
  ghost function Decision(substantive: bool, statuses: seq<Status>, g: Gate): Admission {
    if !substantive || AllRejected(statuses) || (!g.passed && g.blockers != [] && AllHard(g.blockers)) then Refused
    else if g.passed && StatusAccepted in statuses then Admitted
    else AdmittedWithGaps
  }

  // ---- behind the Lead ----

  predicate LeadStatus(st: Status) {
    st in {StatusAccepted, StatusDegraded, StatusBlocked}
  }

  ghost predicate LeadStatuses(statuses: seq<Status>) {
    forall i | 0 <= i < |statuses| :: LeadStatus(statuses[i])
  }

  lemma SettledStatusIsLead(c: Config, key: string, t: Task, st: Status)
    requires TaskInv(c, key, t) && Settled(t, st)
    ensures LeadStatus(st)
  {
    assert DecisionGrounded(c, key, t.attempts, t.artifacts, t.reviews, t.decisions[|t.decisions| - 1]);
  }

  /** A finalized package shows only accepted, degraded and blocked tasks. */
  lemma FinalizedStatuses(c: Config, s: State, w: WorkerResult)
    requires Inv(c, s) && FinalizeStep(c, s, w).1.PackageReady?
    ensures LeadStatuses(Statuses(FinalizeStep(c, s, w).1.package.entries))
  {
    FinalizedIsSettled(c, s, w);
    FinalizeKeeps(c, s, w);
    var (s', reply) := FinalizeStep(c, s, w);
    forall i | 0 <= i < |reply.package.entries|
      ensures LeadStatus(reply.package.entries[i].status)
    {
      var key := c.assignments[i].key;
      assert Settled(TaskOf(s', c.assignments[i].key), reply.package.entries[i].status);
      assert TaskInv(c, key, TaskOf(s', key));
      SettledStatusIsLead(c, key, TaskOf(s', key), reply.package.entries[i].status);
    }
  }

  datatype MatrixStatus = Answered | PartiallyAnswered | Pending

  /** The answer-matrix status of a task's questions. */
  function MatrixStatusOf(st: Status): MatrixStatus {
    match st
    case StatusAccepted => Answered
    case StatusDegraded => PartiallyAnswered
    case StatusBlocked => PartiallyAnswered
    case StatusSkipped => PartiallyAnswered
    case _ => Pending
  }

  /** No answer-matrix update of a finalized package is pending, and a question counts as
      answered exactly when its task's latest decision accepts it. */
  lemma MatrixNeverPending(c: Config, s: State, w: WorkerResult, i: nat)
    requires Inv(c, s) && FinalizeStep(c, s, w).1.PackageReady? && i < |c.assignments|
    ensures var (s', reply) := FinalizeStep(c, s, w);
            && i < |reply.package.entries|
            && var st := MatrixStatusOf(reply.package.entries[i].status);
               && st != Pending
               && (st == Answered <==> Settled(TaskOf(s', c.assignments[i].key), StatusAccepted))
  {
    FinalizedStatuses(c, s, w);
    FinalizedIsSettled(c, s, w);
    var (s', reply) := FinalizeStep(c, s, w);
    assert Settled(TaskOf(s', c.assignments[i].key), reply.package.entries[i].status);
    assert LeadStatus(Statuses(reply.package.entries)[i]);
  }

  lemma FallbackStatusIsLead(c: Config, key: string, t: Task)
    requires TaskInv(c, key, t) && FallbackEntry(c, key, t).Success?
    ensures LeadStatus(FallbackEntry(c, key, t).value.status)
  {
    if t.decisions != [] {
      SettledStatusIsLead(c, key, t, Last(t.decisions).value.status);
    } else if t.artifacts != [] {
      DecideMeaning(Some(CountsOfReview(ReviewOf(RulesOf(c, key), Last(t.artifacts).value.payload, []).value)), []);
    }
  }

  /** So does a fallback package. */
  lemma {:induction false} FallbackStatuses(c: Config, s: State, assignments: seq<Assignment>)
    requires Inv(c, s) && FallbackEntries(c, s, assignments).Success?
    ensures LeadStatuses(Statuses(FallbackEntries(c, s, assignments).value))
  {
    if assignments != [] {
      var n := |assignments| - 1;
      FallbackStatuses(c, s, assignments[..n]);
      assert TaskInv(c, assignments[n].key, TaskOf(s, assignments[n].key));
      FallbackStatusIsLead(c, assignments[n].key, TaskOf(s, assignments[n].key));
      var all, before := Statuses(FallbackEntries(c, s, assignments).value), Statuses(FallbackEntries(c, s, assignments[..n]).value);
      assert all == before + [FallbackEntry(c, assignments[n].key, TaskOf(s, assignments[n].key)).value.status];
    }
  }

  /** For packages of the Lead the "all tasks failed" refusal is unreachable, whatever becomes
      of the payload on the way (it is escaped for output). */
  lemma LeadPackageAdmission(payload: Dict, statuses: seq<Status>, g: Gate)
    requires LeadStatuses(statuses)
    ensures !AllRejected(statuses)
    ensures var d := Decision(Substantive(payload), statuses, g);
            && (d == Admitted <==> Substantive(payload) && g.passed && StatusAccepted in statuses)
            && (d == Refused <==> !Substantive(payload) || (!g.passed && g.blockers != [] && AllHard(g.blockers)))
  {
    assert statuses != [] ==> LeadStatus(statuses[0]);
  }

  /** A finalized package carries a gate whose blockers are all hard. So it is refused exactly
      when it has no content or its gate fails, "admitted with gaps" is left to packages whose
      gate passes without an accepted task, and a department whose policy demands an accepted
      task is never admitted with gaps. */
  lemma FinalizedAdmission(c: Config, s: State, w: WorkerResult, payload: Dict)
    requires Inv(c, s) && FinalizeStep(c, s, w).1.PackageReady?
    ensures var package := FinalizeStep(c, s, w).1.package;
            var statuses := Statuses(package.entries);
            var d := Decision(Substantive(payload), statuses, GateOf(package.gate));
            && (d == Admitted <==> Substantive(payload) && GateOf(package.gate).passed && StatusAccepted in statuses)
            && (d == Refused <==> !Substantive(payload) || !GateOf(package.gate).passed)
            && (c.policy.requireAcceptedTask ==> d != AdmittedWithGaps)
  {
    FinalizedStatuses(c, s, w);
    ReadyMeansComplete(c, s, w);
    var package := FinalizeStep(c, s, w).1.package;
    var statuses := Statuses(package.entries);
    LeadPackageAdmission(payload, statuses, GateOf(package.gate));
    GateMeaning(c.policy, package.payload, statuses, AllSources(package.entries));
  }

  /** A fallback package has no gate: it is refused only for lack of content. */
  lemma FallbackAdmission(c: Config, s: State, payload: Dict)
    requires Inv(c, s) && FallbackPackage(c, s).Success?
    ensures var package := FallbackPackage(c, s).value;
            var statuses := Statuses(package.entries);
            var d := Decision(Substantive(payload), statuses, GateOf(package.gate));
            && (d == Admitted <==> Substantive(payload) && StatusAccepted in statuses)
            && (d == Refused <==> !Substantive(payload))
  {
    FallbackStatuses(c, s, c.assignments);
    var package := FallbackPackage(c, s).value;
    LeadPackageAdmission(payload, Statuses(package.entries), GateOf(package.gate));
  }

  lemma SettledIsEarned(c: Config, key: string, t: Task)
    requires TaskInv(c, key, t) && Settled(t, StatusAccepted)
    ensures Earned(c, key, t.artifacts, t.reviews, Last(t.decisions).value)
  {
    var d := t.decisions[|t.decisions| - 1];
    assert DecisionGrounded(c, key, t.attempts, t.artifacts, t.reviews, d);
    AcceptedIsEarned(c, key, t.attempts, t.artifacts, t.reviews, d);
  }

  /** What the Supervisor admits outright contains a task whose latest decision accepts it and
      is earned by one of the task's artifacts. */
  lemma AdmittedIsEarned(c: Config, s: State, w: WorkerResult, payload: Dict)
    requires Inv(c, s) && FinalizeStep(c, s, w).1.PackageReady?
    requires var package := FinalizeStep(c, s, w).1.package;
             Decision(Substantive(payload), Statuses(package.entries), GateOf(package.gate)) == Admitted
    ensures var s' := FinalizeStep(c, s, w).0;
            exists i :: 0 <= i < |c.assignments| &&
              var t := TaskOf(s', c.assignments[i].key);
              t.decisions != [] && Earned(c, c.assignments[i].key, t.artifacts, t.reviews, Last(t.decisions).value)
  {
    FinalizedAdmission(c, s, w, payload);
    FinalizedIsSettled(c, s, w);
    FinalizeKeeps(c, s, w);
    var (s', reply) := FinalizeStep(c, s, w);
    var entries := reply.package.entries;
    var i :| 0 <= i < |Statuses(entries)| && Statuses(entries)[i] == StatusAccepted;
    var t := TaskOf(s', c.assignments[i].key);
    assert Settled(TaskOf(s', c.assignments[i].key), entries[i].status);
    assert TaskInv(c, c.assignments[i].key, TaskOf(s', c.assignments[i].key));
    SettledIsEarned(c, c.assignments[i].key, t);
  }
}
