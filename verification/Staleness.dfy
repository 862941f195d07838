/** When a decision, and the package status it becomes, speaks about the latest artifact. */
module Staleness {
  import opened JsonModel
  import opened Critic
  import opened Judge
  import opened Contracts
  import opened Lead
  import opened LeadRuns
  import opened Finalization
  import opened Builders
  import opened Dependencies
  import PolicyGate

  /** What Critic and Judge say about an artifact of a task with a core rule. */
  ghost function CoreStatus(c: Config, key: string, a: Artifact): Status {
    if AllCorePass(RulesOf(c, key), a.payload) then StatusAccepted else StatusDegraded
  }

  lemma CoreStatusMeaning(c: Config, key: string, a: Artifact, violations: seq<Violation>)
    requires HasCoreRule(c, key) && ReviewOf(RulesOf(c, key), a.payload, violations).Success?
    ensures Decide(Some(CountsOfReview(ReviewOf(RulesOf(c, key), a.payload, violations).value)), []).status
            == CoreStatus(c, key, a)
  {
    ReportDoesNotCount(RulesOf(c, key), a.payload, violations);
    DecideMeaning(Some(CountsOfReview(ReviewOf(RulesOf(c, key), a.payload, violations).value)), []);
  }

  // ---- the Judge ----

  /** The latest review is the Critic's, and all core rules passed in it. */
  predicate PassedReview(t: Task) {
    t.reviews != []
    && Last(t.reviews).value.reviewer == CriticReviewer
    && Last(t.reviews).value.corePassed == Last(t.reviews).value.coreTotal
  }

  lemma JudgedOnCounts(c: Config, key: string, r: StoredReview, a: Artifact)
    requires HasCoreRule(c, key) && (CriticsReview(c, key, r, a) || r == FallbackReview(a))
    ensures Decide(Some(CountsOfStored(r)), []).status ==
            if r.reviewer == CriticReviewer && r.corePassed == r.coreTotal then StatusAccepted else StatusDegraded
  {
    DecideMeaning(Some(CountsOfStored(r)), []);
    if CriticsReview(c, key, r, a) {
      ReportDoesNotCount(RulesOf(c, key), a.payload, a.violations);
    }
  }

  lemma JudgedOnGrounded(c: Config, key: string, artifacts: seq<Artifact>, r: StoredReview)
    requires HasCoreRule(c, key) && ReviewGrounded(c, key, artifacts, r)
    ensures Decide(Some(CountsOfStored(r)), []).status ==
            if r.reviewer == CriticReviewer && r.corePassed == r.coreTotal then StatusAccepted else StatusDegraded
  {
    var j :| 0 <= j < |artifacts| && artifacts[j].attempt == r.attempt
             && (CriticsReview(c, key, r, artifacts[j]) || r == FallbackReview(artifacts[j]));
    JudgedOnCounts(c, key, r, artifacts[j]);
  }

  lemma JudgedOnReview(c: Config, key: string, t: Task)
    requires TaskInv(c, key, t) && HasCoreRule(c, key) && t.reviews != []
    ensures Decide(Some(CountsOfStored(Last(t.reviews).value)), []).status
            == if PassedReview(t) then StatusAccepted else StatusDegraded
  {
    assert ReviewGrounded(c, key, t.artifacts, t.reviews[|t.reviews| - 1]);
    JudgedOnGrounded(c, key, t.artifacts, t.reviews[|t.reviews| - 1]);
  }

  /** What `judge_decision` records for a researched task: it accepts exactly on a passed review
      by the Critic, whichever artifact that review was about. */
  lemma JudgeStepStatus(c: Config, s: State, key: string)
    requires Inv(c, s) && Find(c.assignments, key).Some? && HasCoreRule(c, key) && TaskOf(s, key).artifacts != []
    ensures var t, t' := TaskOf(s, key), TaskOf(JudgeStep(c, s, key).0, key);
            && t'.artifacts == t.artifacts && t'.decisions != []
            && Last(t'.decisions).value.attempt == Last(t.artifacts).value.attempt
            && Last(t'.decisions).value.status == if PassedReview(t) then StatusAccepted else StatusDegraded
  {
    var t := TaskOf(s, key);
    assert TaskInv(c, key, t);
    if t.reviews == [] {
      DecideMeaning(Some(CountsOfStored(FallbackReview(Last(t.artifacts).value))), []);
    } else {
      JudgedOnReview(c, key, t);
    }
  }

  /** The Judge is right about the latest artifact exactly when the latest review agrees with it
      on the core rules; a missing or made-up review agrees with a failing artifact only. */
  lemma JudgesLatestExactly(c: Config, s: State, key: string)
    requires Inv(c, s) && Find(c.assignments, key).Some? && HasCoreRule(c, key) && TaskOf(s, key).artifacts != []
    ensures var t, t' := TaskOf(s, key), TaskOf(JudgeStep(c, s, key).0, key);
            var latest := Last(t.artifacts).value;
            && t'.decisions != []
            && (Last(t'.decisions).value.status == CoreStatus(c, key, latest) <==>
                  (PassedReview(t) <==> AllCorePass(RulesOf(c, key), latest.payload)))
  {
    JudgeStepStatus(c, s, key);
  }

  /** In particular when the latest review is the Critic's and bears the latest attempt. */
  lemma CurrentReviewAgrees(c: Config, key: string, t: Task)
    requires TaskInv(c, key, t) && HasCoreRule(c, key) && t.artifacts != [] && t.reviews != []
    requires Last(t.reviews).value.reviewer == CriticReviewer
    requires Last(t.reviews).value.attempt == Last(t.artifacts).value.attempt
    ensures PassedReview(t) <==> AllCorePass(RulesOf(c, key), Last(t.artifacts).value.payload)
  {
    var r, a := t.reviews[|t.reviews| - 1], t.artifacts[|t.artifacts| - 1];
    assert ReviewGrounded(c, key, t.artifacts, r);
    GroundedOnLatest(c, key, t, r);
    ReportDoesNotCount(RulesOf(c, key), a.payload, a.violations);
  }

  // ---- the package ----

  /** Both builders report a recorded decision, whatever was researched or reviewed after it. */
  lemma DecisionStands(c: Config, key: string, t: Task)
    requires t.artifacts != [] && t.decisions != []
    ensures Settle(c, key, t).Success? && FallbackEntry(c, key, t).Success?
    ensures Settle(c, key, t).value.1.status == FallbackEntry(c, key, t).value.status == Last(t.decisions).value.status
  {
  }

  /** The record shows that the latest decision is about the latest artifact: Lead or Judge
      took it, it names the latest attempt, and every stored review is the Critic's and bears
      that attempt too. */
  predicate Fresh(t: Task) {
    t.artifacts != [] && t.decisions != []
    && Last(t.decisions).value.decidedBy != ByRuntime
    && Last(t.decisions).value.attempt == Last(t.artifacts).value.attempt
    && forall i | 0 <= i < |t.reviews| ::
         t.reviews[i].reviewer == CriticReviewer && t.reviews[i].attempt == Last(t.artifacts).value.attempt
  }

  lemma VerdictOnArtifact(c: Config, key: string, a: Artifact, reviews: seq<StoredReview>, d: Decision)
    requires HasCoreRule(c, key) && RestsOn(c, key, a, reviews, d)
    requires forall i | 0 <= i < |reviews| :: reviews[i].reviewer == CriticReviewer
    ensures d.status == CoreStatus(c, key, a)
  {
    if InlineVerdict(c, key, a, d) {
      CoreStatusMeaning(c, key, a, []);
    } else {
      var i :| 0 <= i < |reviews| && StoredVerdict(c, key, a, reviews[i], d);
      CriticsVerdict(c, key, a, reviews[i], d);
    }
  }

  lemma CriticsVerdict(c: Config, key: string, a: Artifact, r: StoredReview, d: Decision)
    requires HasCoreRule(c, key) && StoredVerdict(c, key, a, r, d) && r.reviewer == CriticReviewer
    ensures d.status == CoreStatus(c, key, a)
  {
    ReportDoesNotCount(RulesOf(c, key), a.payload, a.violations);
    ApprovalMeaning(RulesOf(c, key), a.payload, a.violations);
    JudgedOnCounts(c, key, r, a);
  }

  lemma RestsOnLatest(c: Config, key: string, t: Task, j: nat, d: Decision)
    requires AttemptsOrdered(t.attempts, t.artifacts) && j < |t.artifacts| && Fresh(t) && d == Last(t.decisions).value
    requires RestsOn(c, key, t.artifacts[j], t.reviews, d)
    ensures j == |t.artifacts| - 1
  {
    if !InlineVerdict(c, key, t.artifacts[j], d) {
      var i :| 0 <= i < |t.reviews| && StoredVerdict(c, key, t.artifacts[j], t.reviews[i], d);
      assert t.reviews[i].attempt == t.artifacts[j].attempt;
    }
    AttemptNamesArtifact(t, j);
  }

  lemma FreshRestsOnLatest(c: Config, key: string, t: Task, d: Decision)
    requires AttemptsOrdered(t.attempts, t.artifacts) && Fresh(t) && d == Last(t.decisions).value
    requires Founded(c, key, t.attempts, t.artifacts, t.reviews, d)
    ensures RestsOn(c, key, t.artifacts[|t.artifacts| - 1], t.reviews, d)
  {
    assert d.attempt == t.artifacts[|t.artifacts| - 1].attempt;
    var j :| 0 <= j < |t.artifacts| && t.artifacts[j].attempt <= d.attempt && RestsOn(c, key, t.artifacts[j], t.reviews, d);
    RestsOnLatest(c, key, t, j, d);
  }

  /** A fresh decision is what Critic and Judge say about the latest artifact. */
  lemma FreshIsCurrent(c: Config, key: string, t: Task)
    requires TaskInv(c, key, t) && HasCoreRule(c, key) && Fresh(t)
    ensures Last(t.decisions).value.status == CoreStatus(c, key, Last(t.artifacts).value)
  {
    var d := t.decisions[|t.decisions| - 1];
    assert DecisionGrounded(c, key, t.attempts, t.artifacts, t.reviews, d);
    FreshRestsOnLatest(c, key, t, d);
    VerdictOnArtifact(c, key, t.artifacts[|t.artifacts| - 1], t.reviews, d);
  }

  /** When a package status is what Critic and Judge say about the latest artifact. For an
      undecided task the fallback builder is always right, and finalizing exactly when the stored
      review, if any, has that core verdict. A decided task shows its decision in both packages:
      right when the decision is fresh, and never when it is a blocked one. */
  lemma StatusCurrentExactly(c: Config, key: string, t: Task)
    requires TaskInv(c, key, t) && HasCoreRule(c, key) && t.artifacts != []
    requires Settle(c, key, t).Success? && FallbackEntry(c, key, t).Success?
    ensures var now := CoreStatus(c, key, Last(t.artifacts).value);
            var finalized, fallback := Settle(c, key, t).value.1.status, FallbackEntry(c, key, t).value.status;
            && (t.decisions == [] ==> fallback == now && (finalized == now <==> SameVerdict(c, key, t)))
            && (t.decisions != [] ==> finalized == fallback == Last(t.decisions).value.status)
            && (Fresh(t) ==> finalized == fallback == now)
            && (t.decisions != [] && Last(t.decisions).value.outcome == BlockedByDependency ==> finalized != now)
  {
    if t.decisions == [] {
      FallbackStatus(c, key, t);
      SameStatusExactly(c, key, t);
    } else {
      assert DecisionGrounded(c, key, t.attempts, t.artifacts, t.reviews, t.decisions[|t.decisions| - 1]);
      if Fresh(t) {
        FreshIsCurrent(c, key, t);
      }
    }
  }

  /** After the Judge has decided, both builders are right about the latest artifact exactly
      when the review it read was. */
  lemma JudgedShowsLatest(c: Config, s: State, key: string)
    requires Inv(c, s) && Find(c.assignments, key).Some? && HasCoreRule(c, key) && TaskOf(s, key).artifacts != []
    ensures var t, t' := TaskOf(s, key), TaskOf(JudgeStep(c, s, key).0, key);
            var latest := Last(t.artifacts).value;
            && Settle(c, key, t').Success? && FallbackEntry(c, key, t').Success?
            && Settle(c, key, t').value.1.status == FallbackEntry(c, key, t').value.status
            && (Settle(c, key, t').value.1.status == CoreStatus(c, key, latest) <==>
                  (PassedReview(t) <==> AllCorePass(RulesOf(c, key), latest.payload)))
  {
    JudgeStepStatus(c, s, key);
    DecisionStands(c, key, TaskOf(JudgeStep(c, s, key).0, key));
  }

  lemma RerunAndReviewed(c: Config, s: State, key: string, deps: seq<string>, w: WorkerResult)
    requires Rerunnable(c, s, key, deps) && w.Report?
    requires ReviewOf(RulesOf(c, key), w.payload, w.violations).Success?
    ensures var t, t' := TaskOf(s, key), TaskOf(Run(c, s, [Research(key, w), ReviewTask(key)]), key);
            var a := ArtifactOf(w, t.attempts + 1);
            && t'.artifacts == t.artifacts + [a] && t'.decisions == t.decisions
            && t'.reviews == t.reviews + [FromCritic(ReviewOf(RulesOf(c, key), w.payload, w.violations).value, a.attempt)]
  {
    RecheckExactly(c, s, key, deps, w);
    RunTwo(c, s, Research(key, w), ReviewTask(key));
    var s1 := Step(c, s, Research(key, w)).0;
    var t := TaskOf(s, key);
    var a := ArtifactOf(w, t.attempts + 1);
    assert TaskOf(s1, key) == t.(attempts := a.attempt).WithArtifact(a);
    assert Last(TaskOf(s1, key).artifacts) == Some(a);
  }

  /** A stale decision: a task blocked once, then researched and approved, is still reported as
      blocked by both builders. */
  lemma ApprovedStaysBlocked(c: Config, s: State, key: string, deps: seq<string>, w: WorkerResult)
    requires Rerunnable(c, s, key, deps) && w.Report? && Inv(c, s)
    requires ReviewOf(RulesOf(c, key), w.payload, w.violations).Success?
    requires ReviewOf(RulesOf(c, key), w.payload, w.violations).value.approved
    ensures var t := TaskOf(Run(c, s, [Research(key, w), ReviewTask(key)]), key);
            && t.artifacts != [] && t.reviews != []
            && Last(t.artifacts).value.payload == w.payload && Last(t.reviews).value.approved
            && Settle(c, key, t).Success? && FallbackEntry(c, key, t).Success?
            && Settle(c, key, t).value.1.status == FallbackEntry(c, key, t).value.status == StatusBlocked
  {
    RerunAndReviewed(c, s, key, deps, w);
    var t := TaskOf(Run(c, s, [Research(key, w), ReviewTask(key)]), key);
    assert TaskInv(c, key, TaskOf(s, key));
    var n := |TaskOf(s, key).decisions| - 1;
    assert DecisionGrounded(c, key, TaskOf(s, key).attempts, TaskOf(s, key).artifacts, TaskOf(s, key).reviews,
                            TaskOf(s, key).decisions[n]);
    DecisionStands(c, key, t);
  }

  /** The same as one run from the start, for any task with one dependency that itself depends on
      no task of the department. */
  lemma ApprovedStaysBlockedFromStart(c: Config, payload: Dict, key: string, dep: string,
                                      early: WorkerResult, first: WorkerResult, w: WorkerResult)
    requires Find(c.assignments, key) == Some(Assignment(key, [dep]))
    requires Assigned(c, dep) && !HasLocalDependency(c, dep) && first.Report? && first.facts != []
    requires w.Report? && ReviewOf(RulesOf(c, key), w.payload, w.violations).Success?
    requires ReviewOf(RulesOf(c, key), w.payload, w.violations).value.approved
    ensures var t := TaskOf(Reached(c, payload, [Research(key, early), Research(dep, first), Research(key, w), ReviewTask(key)]), key);
            && t.artifacts != [] && t.reviews != []
            && Last(t.artifacts).value.payload == w.payload && Last(t.reviews).value.approved
            && Settle(c, key, t).Success? && FallbackEntry(c, key, t).Success?
            && Settle(c, key, t).value.1.status == FallbackEntry(c, key, t).value.status == StatusBlocked
  {
    var start := [Research(key, early), Research(dep, first)];
    var rest := [Research(key, w), ReviewTask(key)];
    BecomesRerunnable(c, payload, key, dep, early, first);
    ReachedInv(c, payload, start);
    ApprovedStaysBlocked(c, Reached(c, payload, start), key, [dep], w);
    RunJoins(c, InitialState(payload), start, rest);
    assert start + rest == [Research(key, early), Research(dep, first), Research(key, w), ReviewTask(key)];
  }

  const FACT_REPORT := Report(["f"], map[], [], [], [])
  const SOURCED_REPORT := Report([], map["w" := Bool(true), "sources" := Arr([Null])], [], [], [])

  /** Task "k" depends on task "d" and is judged by a core rule on field "w". */
  function DependentConfig(policy: PolicyGate.Policy): Config {
    Config([Assignment("d", []), Assignment("k", ["d"])], map["k" := [CORE_RULE]], 3, policy, None, v => v)
  }

  lemma SourcedIsApproved()
    ensures var r := ReviewOf([CORE_RULE], SOURCED_REPORT.payload, []);
            r.Success? && r.value.approved
  {
    var p := SOURCED_REPORT.payload;
    SplitOne('w');
    assert Walk(Obj(p), ["w"]) == Walk(Bool(true), ["w"][1..]);
    assert Passes(CORE_RULE, p);
    assert Sources(p) == Arr([Null]);
    ApprovalMeaning([CORE_RULE], p, []);
  }

  /** A concrete run with an approved report that both packages show as blocked. */
  lemma ApprovedCanStayBlocked(policy: PolicyGate.Policy, payload: Dict)
    ensures var c := DependentConfig(policy);
            var t := TaskOf(Reached(c, payload, [Research("k", Raised), Research("d", FACT_REPORT),
                                                 Research("k", SOURCED_REPORT), ReviewTask("k")]), "k");
            && t.artifacts != [] && t.reviews != [] && Last(t.reviews).value.approved
            && Settle(c, "k", t).Success? && FallbackEntry(c, "k", t).Success?
            && Settle(c, "k", t).value.1.status == FallbackEntry(c, "k", t).value.status == StatusBlocked
  {
    var c := DependentConfig(policy);
    SourcedIsApproved();
    assert c.assignments[0].key == "d" && c.assignments[1..] == [Assignment("k", ["d"])];
    assert Find(c.assignments, "d") == Some(Assignment("d", []));
    assert Find(c.assignments, "k") == Find([Assignment("k", ["d"])], "k") == Some(Assignment("k", ["d"]));
    assert RulesOf(c, "k") == [CORE_RULE];
    ApprovedStaysBlockedFromStart(c, payload, "k", "d", Raised, FACT_REPORT, SOURCED_REPORT);
  }
}
