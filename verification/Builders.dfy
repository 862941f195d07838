/** The two package builders, `finalize_package` and the fallback builder, compared; and what
    a review that is older than the latest artifact can do. */
module Builders {
  import opened Text
  import opened JsonModel
  import opened Critic
  import opened Judge
  import opened Contracts
  import opened Lead
  import opened LeadRuns
  import opened Finalization
  import PolicyGate

  /** The task is judged by at least one core rule, as every department task of the backlog is. */
  predicate HasCoreRule(c: Config, key: string) {
    ClassTotal(RulesOf(c, key), Core) > 0
  }

  /** If the task is reviewed but undecided, the review is about its latest artifact. */
  predicate ReviewCurrent(t: Task) {
    t.decisions == [] && t.reviews != [] && t.artifacts != [] ==>
      Last(t.reviews).value.attempt == Last(t.artifacts).value.attempt
  }

  /** If the task is reviewed but undecided, its stored review leads to acceptance exactly when
      its latest artifact does on its own: with core rules, when they all passed; without, when
      the Critic approves and no contract violation asks for the Judge, or nothing is objected. */
  ghost predicate SameVerdict(c: Config, key: string, t: Task) {
    t.decisions == [] && t.reviews != [] && t.artifacts != [] ==>
      var r, a := Last(t.reviews).value, Last(t.artifacts).value;
      if HasCoreRule(c, key) then r.corePassed == r.coreTotal <==> AllCorePass(RulesOf(c, key), a.payload)
      else (r.approved && !a.needsContractReview) || r.issues == [] <==> IssuesOf(RulesOf(c, key), a.payload, []) == []
  }

  // ---- one task ----

  /** The class counts, and so the Judge's status, do not depend on the report. */
  lemma ReportDoesNotCount(rules: seq<Rule>, payload: Dict, violations: seq<Violation>)
    requires ClassTotal(rules, Core) > 0
    ensures var x, y := ReviewOf(rules, payload, violations), ReviewOf(rules, payload, []);
            && (x.Success? <==> y.Success?)
            && (x.Success? ==>
                  && x.value.approved == y.value.approved
                  && x.value.acceptedPoints == y.value.acceptedPoints
                  && x.value.corePassed == y.value.corePassed
                  && x.value.coreTotal == y.value.coreTotal == ClassTotal(rules, Core)
                  && (y.value.corePassed == y.value.coreTotal <==> AllCorePass(rules, payload))
                  && y.value.corePassed <= y.value.coreTotal)
  {
    CountsMeaning(rules, payload, Core);
  }

  lemma {:induction false} NoCoreFailures(rules: seq<Rule>, payload: Dict)
    ensures Failures(rules, payload, true) == [] <==> AllCorePass(rules, payload)
  {
    if rules != [] {
      var n := |rules| - 1;
      NoCoreFailures(rules[..n], payload);
      assert forall i | 0 <= i < |rules| :: i == n || rules[i] == rules[..n][i];
      assert forall i | 0 <= i < n :: rules[..n][i] == rules[i];
    }
  }

  /** Storing a review loses the messages of its failed rules: the Judge reaches the same
      verdict on the stored form but never gives an open question, while on the review itself
      it gives one whenever a core rule fails. */
  lemma StoredReviewSilencesJudge(rules: seq<Rule>, payload: Dict, violations: seq<Violation>, attempt: nat)
    requires ReviewOf(rules, payload, violations).Success?
    ensures var r := ReviewOf(rules, payload, violations).value;
            var direct := Decide(Some(CountsOfReview(r)), []);
            var stored := Decide(Some(CountsOfStored(FromCritic(r, attempt))), []);
            && stored == direct.(openQuestions := [])
            && (direct.openQuestions == [] <==> AllCorePass(rules, payload))
  {
    NoCoreFailures(rules, payload);
    CountsMeaning(rules, payload, Core);
  }

  /** A task reviewed but undecided: its latest review is the Critic's, of one of its artifacts. */
  lemma UndecidedReview(c: Config, key: string, t: Task)
    requires TaskInv(c, key, t) && t.decisions == [] && t.reviews != []
    ensures exists j :: 0 <= j < |t.artifacts| && CriticsReview(c, key, Last(t.reviews).value, t.artifacts[j])
                        && t.artifacts[j].attempt == Last(t.reviews).value.attempt
  {
    var r := t.reviews[|t.reviews| - 1];
    assert ReviewGrounded(c, key, t.artifacts, r) && r.reviewer == CriticReviewer;
  }

  /** The status finalize gives to a reviewed, undecided task is the core verdict of its review. */
  lemma ReviewedStatus(c: Config, key: string, t: Task)
    requires TaskInv(c, key, t) && HasCoreRule(c, key)
    requires t.decisions == [] && t.reviews != [] && t.artifacts != []
    ensures var r := Last(t.reviews).value;
            && Settle(c, key, t).Success?
            && Settle(c, key, t).value.1.status ==
               (if r.corePassed == r.coreTotal then StatusAccepted else StatusDegraded)
            && Settle(c, key, t).value.1.acceptedPoints == r.acceptedPoints
  {
    var r := Last(t.reviews).value;
    UndecidedReview(c, key, t);
    var j :| 0 <= j < |t.artifacts| && CriticsReview(c, key, r, t.artifacts[j]);
    var a := t.artifacts[j];
    ApprovalMeaning(RulesOf(c, key), a.payload, a.violations);
    ReportDoesNotCount(RulesOf(c, key), a.payload, a.violations);
    DecideMeaning(Some(CountsOfStored(r)), []);
  }

  lemma FallbackStatus(c: Config, key: string, t: Task)
    requires HasCoreRule(c, key) && t.decisions == [] && t.artifacts != []
    requires FallbackEntry(c, key, t).Success?
    ensures FallbackEntry(c, key, t).value.status ==
            (if AllCorePass(RulesOf(c, key), Last(t.artifacts).value.payload) then StatusAccepted else StatusDegraded)
  {
    var a := Last(t.artifacts).value;
    ReportDoesNotCount(RulesOf(c, key), a.payload, []);
    DecideMeaning(Some(CountsOfReview(ReviewOf(RulesOf(c, key), a.payload, []).value)), []);
  }

  /** Both builders on a task that is decided or unreviewed. */
  lemma SameEntryWithoutReview(c: Config, key: string, t: Task)
    requires TaskInv(c, key, t) && (t.artifacts != [] || t.decisions != [])
    requires t.decisions != [] || t.reviews == []
    ensures Settle(c, key, t).Success? <==> FallbackEntry(c, key, t).Success?
    ensures Settle(c, key, t).Success? ==> Settle(c, key, t).value.1 == FallbackEntry(c, key, t).value
  {
    if t.artifacts == [] {
      NoReviewWithoutArtifact(c, key, t.reviews);
      assert DecisionGrounded(c, key, t.attempts, t.artifacts, t.reviews, t.decisions[|t.decisions| - 1]);
    }
  }

  /** Without a core rule, what finalizing gives to a reviewed, undecided task. */
  lemma ReviewedStatusWithoutCore(c: Config, key: string, t: Task)
    requires TaskInv(c, key, t) && !HasCoreRule(c, key)
    requires t.decisions == [] && t.reviews != [] && t.artifacts != []
    ensures var r, a := Last(t.reviews).value, Last(t.artifacts).value;
            && Settle(c, key, t).Success?
            && Settle(c, key, t).value.1.status ==
               (if (r.approved && !a.needsContractReview) || r.issues == [] then StatusAccepted else StatusDegraded)
  {
    var r := Last(t.reviews).value;
    UndecidedReview(c, key, t);
    var j :| 0 <= j < |t.artifacts| && CriticsReview(c, key, r, t.artifacts[j]);
    assert r.coreTotal == 0;
    DecideMeaning(Some(CountsOfStored(r)), []);
  }

  lemma FallbackStatusWithoutCore(c: Config, key: string, t: Task)
    requires !HasCoreRule(c, key) && t.decisions == [] && t.artifacts != []
    requires FallbackEntry(c, key, t).Success?
    ensures FallbackEntry(c, key, t).value.status ==
            (if IssuesOf(RulesOf(c, key), Last(t.artifacts).value.payload, []) == [] then StatusAccepted else StatusDegraded)
  {
    DecideMeaning(Some(CountsOfReview(ReviewOf(RulesOf(c, key), Last(t.artifacts).value.payload, []).value)), []);
  }

  /** The two builders give a task the same status exactly when the stored review and the
      latest artifact lead to the same verdict. */
  lemma SameStatusExactly(c: Config, key: string, t: Task)
    requires TaskInv(c, key, t) && (t.artifacts != [] || t.decisions != [])
    requires Settle(c, key, t).Success? && FallbackEntry(c, key, t).Success?
    ensures Settle(c, key, t).value.1.status == FallbackEntry(c, key, t).value.status <==> SameVerdict(c, key, t)
  {
    if t.decisions != [] || t.reviews == [] {
      SameEntryWithoutReview(c, key, t);
    } else if HasCoreRule(c, key) {
      ReviewedStatus(c, key, t);
      FallbackStatus(c, key, t);
    } else {
      ReviewedStatusWithoutCore(c, key, t);
      FallbackStatusWithoutCore(c, key, t);
    }
  }

  /** Without a core rule the builders can disagree even on a current review: exactly when the
      latest artifact is faultless but for contract violations, and these are all of high
      severity or there is no rule at all. */
  lemma CurrentWithoutCoreExactly(c: Config, key: string, t: Task)
    requires !HasCoreRule(c, key) && t.decisions == [] && t.reviews != [] && t.artifacts != []
    requires CriticsReview(c, key, Last(t.reviews).value, Last(t.artifacts).value)
    ensures var rules, a := RulesOf(c, key), Last(t.artifacts).value;
            SameVerdict(c, key, t) <==>
            !(IssuesOf(rules, a.payload, []) == [] && a.violations != [] && (a.needsContractReview || rules == []))
  {
    var rules, a := RulesOf(c, key), Last(t.artifacts).value;
    NoIssues(rules, a.payload, []);
    NoIssues(rules, a.payload, a.violations);
    NoFailures(rules, a.payload);
    ApprovalMeaning(rules, a.payload, a.violations);
  }

  /** Distinct attempts name distinct artifacts. */
  lemma AttemptNamesArtifact(t: Task, j: nat)
    requires AttemptsOrdered(t.attempts, t.artifacts) && j < |t.artifacts|
    requires t.artifacts[j].attempt == Last(t.artifacts).value.attempt
    ensures j == |t.artifacts| - 1
  {
  }

  /** A grounded review that bears the latest attempt number is about the latest artifact. */
  lemma GroundedOnLatest(c: Config, key: string, t: Task, r: StoredReview)
    requires AttemptsOrdered(t.attempts, t.artifacts) && ReviewGrounded(c, key, t.artifacts, r)
    requires t.artifacts != [] && r.attempt == Last(t.artifacts).value.attempt
    ensures var a := Last(t.artifacts).value;
            CriticsReview(c, key, r, a) || r == FallbackReview(a)
  {
    var j :| 0 <= j < |t.artifacts| && t.artifacts[j].attempt == r.attempt
             && (CriticsReview(c, key, r, t.artifacts[j]) || r == FallbackReview(t.artifacts[j]));
    AttemptNamesArtifact(t, j);
  }

  lemma CurrentReviewOfLatest(c: Config, key: string, t: Task)
    requires TaskInv(c, key, t) && ReviewCurrent(t)
    requires t.decisions == [] && t.reviews != [] && t.artifacts != []
    ensures CriticsReview(c, key, Last(t.reviews).value, Last(t.artifacts).value)
  {
    var r := t.reviews[|t.reviews| - 1];
    assert ReviewGrounded(c, key, t.artifacts, r) && r.reviewer == CriticReviewer;
    GroundedOnLatest(c, key, t, r);
  }

  /** With a current review the two builders give the task the same entry: status, accepted
      points and sources. */
  lemma SameEntry(c: Config, key: string, t: Task)
    requires TaskInv(c, key, t) && HasCoreRule(c, key) && (t.artifacts != [] || t.decisions != [])
    requires ReviewCurrent(t)
    ensures Settle(c, key, t).Success? <==> FallbackEntry(c, key, t).Success?
    ensures Settle(c, key, t).Success? ==> Settle(c, key, t).value.1 == FallbackEntry(c, key, t).value
  {
    if t.decisions != [] || t.reviews == [] {
      SameEntryWithoutReview(c, key, t);
    } else {
      CurrentReviewOfLatest(c, key, t);
      var a := Last(t.artifacts).value;
      ReportDoesNotCount(RulesOf(c, key), a.payload, a.violations);
      ReviewedStatus(c, key, t);
      FallbackStatus(c, key, t);
    }
  }

  // ---- whole packages ----

  /** With unique keys, settling the tasks before `key` leaves `key` alone. */
  lemma {:induction false} SettleAllLeaves(c: Config, s: State, assignments: seq<Assignment>, key: string)
    requires forall i | 0 <= i < |assignments| :: assignments[i].key != key
    ensures TaskOf(SettleAll(c, s, assignments).0, key) == TaskOf(s, key)
  {
    if assignments != [] {
      SettleAllLeaves(c, s, assignments[..|assignments| - 1], key);
    }
  }

  /** The conditions under which the packages are compared. */
  ghost predicate Comparable(c: Config, s: State, assignments: seq<Assignment>) {
    && Inv(c, s)
    && UniqueKeys(assignments)
    && forall i | 0 <= i < |assignments| :: !Missing(s, assignments[i].key)
  }

  /** Assembling is settling each task as it was at the start. */
  lemma AssembleTurn(c: Config, s: State, assignments: seq<Assignment>)
    requires Comparable(c, s, assignments) && assignments != []
    ensures var last := assignments[|assignments| - 1];
            && Comparable(c, s, assignments[..|assignments| - 1])
            && TaskOf(SettleAll(c, s, assignments[..|assignments| - 1]).0, last.key) == TaskOf(s, last.key)
            && TaskInv(c, last.key, TaskOf(s, last.key))
            && !Missing(s, last.key)
  {
    var n := |assignments| - 1;
    assert forall i | 0 <= i < n :: assignments[..n][i] == assignments[i];
    SettleAllLeaves(c, s, assignments[..n], assignments[n].key);
  }

  lemma {:induction false} EntriesAgree(c: Config, s: State, assignments: seq<Assignment>)
    requires Comparable(c, s, assignments)
    requires forall i | 0 <= i < |assignments| :: HasCoreRule(c, assignments[i].key)
    requires forall i | 0 <= i < |assignments| :: ReviewCurrent(TaskOf(s, assignments[i].key))
    ensures SettleAll(c, s, assignments).1 == FallbackEntries(c, s, assignments)
  {
    if assignments != [] {
      var n := |assignments| - 1;
      AssembleTurn(c, s, assignments);
      assert forall i | 0 <= i < n :: assignments[..n][i] == assignments[i];
      EntriesAgree(c, s, assignments[..n]);
      assert HasCoreRule(c, assignments[n].key) && ReviewCurrent(TaskOf(s, assignments[n].key));
      SameEntry(c, assignments[n].key, TaskOf(s, assignments[n].key));
    }
  }

  /** The two builders agree: from any state of a run in which finalizing is not blocked and
      every reviewed, undecided task has a review of its latest artifact, they produce the same
      entries (status, accepted points, sources) and the same confidence, or both raise. */
  lemma BuildersAgree(c: Config, s: State)
    requires Inv(c, s) && Incomplete(s, c.assignments) == []
    requires UniqueKeys(c.assignments)
    requires forall i | 0 <= i < |c.assignments| :: HasCoreRule(c, c.assignments[i].key)
    requires forall i | 0 <= i < |c.assignments| :: ReviewCurrent(TaskOf(s, c.assignments[i].key))
    ensures var finalized, fallback := Assemble(c, s).1, FallbackPackage(c, s);
            && (finalized.PackageReady? <==> fallback.Success?)
            && (fallback.Success? ==>
                  && finalized.package.entries == fallback.value.entries
                  && finalized.package.confidence == fallback.value.confidence)
  {
    CompleteMeansDone(c, s);
    EntriesAgree(c, s, c.assignments);
  }

  /** In particular after any run. */
  lemma BuildersAgreeInRuns(c: Config, payload: Dict, actions: seq<Action>)
    requires UniqueKeys(c.assignments)
    requires forall i | 0 <= i < |c.assignments| :: HasCoreRule(c, c.assignments[i].key)
    requires Incomplete(Reached(c, payload, actions), c.assignments) == []
    requires forall i | 0 <= i < |c.assignments| :: ReviewCurrent(TaskOf(Reached(c, payload, actions), c.assignments[i].key))
    ensures var s := Reached(c, payload, actions);
            var finalized, fallback := Assemble(c, s).1, FallbackPackage(c, s);
            && (finalized.PackageReady? <==> fallback.Success?)
            && (fallback.Success? ==>
                  && finalized.package.entries == fallback.value.entries
                  && finalized.package.confidence == fallback.value.confidence)
  {
    ReachedInv(c, payload, actions);
    BuildersAgree(c, Reached(c, payload, actions));
  }

  /** Two lists of entries agree on a task's status exactly when its verdicts agree. */
  ghost predicate AgreeExactly(c: Config, s: State, assignments: seq<Assignment>, xs: seq<Entry>, ys: seq<Entry>) {
    && |xs| == |ys| == |assignments|
    && forall i | 0 <= i < |assignments| ::
         xs[i].status == ys[i].status <==> SameVerdict(c, assignments[i].key, TaskOf(s, assignments[i].key))
  }

  lemma AgreeOneMore(c: Config, s: State, assignments: seq<Assignment>, xs: seq<Entry>, ys: seq<Entry>,
                     a: Assignment, x: Entry, y: Entry)
    requires AgreeExactly(c, s, assignments, xs, ys)
    requires x.status == y.status <==> SameVerdict(c, a.key, TaskOf(s, a.key))
    ensures AgreeExactly(c, s, assignments + [a], xs + [x], ys + [y])
  {
  }

  lemma SameStatusesExactly(c: Config, s: State, assignments: seq<Assignment>, xs: seq<Entry>, ys: seq<Entry>)
    requires AgreeExactly(c, s, assignments, xs, ys)
    ensures Statuses(xs) == Statuses(ys) <==>
            forall i | 0 <= i < |assignments| :: SameVerdict(c, assignments[i].key, TaskOf(s, assignments[i].key))
  {
    if Statuses(xs) == Statuses(ys) {
      forall i | 0 <= i < |assignments|
        ensures SameVerdict(c, assignments[i].key, TaskOf(s, assignments[i].key))
      {
        assert Statuses(xs)[i] == Statuses(ys)[i];
      }
    }
  }

  lemma PrefixSucceeds(c: Config, s: State, init: seq<Assignment>, last: Assignment)
    ensures SettleAll(c, s, init + [last]).1.Success? ==> SettleAll(c, s, init).1.Success?
    ensures FallbackEntries(c, s, init + [last]).Success? ==> FallbackEntries(c, s, init).Success?
  {
    assert (init + [last])[..|init + [last]| - 1] == init;
  }

  lemma StatusesTurn(c: Config, s: State, init: seq<Assignment>, last: Assignment)
    requires TaskInv(c, last.key, TaskOf(s, last.key)) && !Missing(s, last.key)
    requires TaskOf(SettleAll(c, s, init).0, last.key) == TaskOf(s, last.key)
    requires SettleAll(c, s, init).1.Success? && FallbackEntries(c, s, init).Success?
    requires SettleAll(c, s, init + [last]).1.Success? && FallbackEntries(c, s, init + [last]).Success?
    requires AgreeExactly(c, s, init, SettleAll(c, s, init).1.value, FallbackEntries(c, s, init).value)
    ensures AgreeExactly(c, s, init + [last],
                         SettleAll(c, s, init + [last]).1.value, FallbackEntries(c, s, init + [last]).value)
  {
    var t := TaskOf(s, last.key);
    assert (init + [last])[..|init + [last]| - 1] == init;
    SettleAllTurn(c, s, init, last);
    SameStatusExactly(c, last.key, t);
    AgreeOneMore(c, s, init, SettleAll(c, s, init).1.value, FallbackEntries(c, s, init).value,
                 last, Settle(c, last.key, t).value.1, FallbackEntry(c, last.key, t).value);
  }

  lemma {:induction false} StatusesAgreeExactly(c: Config, s: State, assignments: seq<Assignment>)
    requires Comparable(c, s, assignments)
    requires SettleAll(c, s, assignments).1.Success? && FallbackEntries(c, s, assignments).Success?
    ensures AgreeExactly(c, s, assignments, SettleAll(c, s, assignments).1.value, FallbackEntries(c, s, assignments).value)
  {
    if assignments != [] {
      var init, last := assignments[..|assignments| - 1], assignments[|assignments| - 1];
      assert assignments == init + [last];
      AssembleTurn(c, s, assignments);
      PrefixSucceeds(c, s, init, last);
      StatusesAgreeExactly(c, s, init);
      StatusesTurn(c, s, init, last);
    }
  }

  /** Without the assumption on reviews: when neither builder raises, they give all tasks the
      same statuses exactly when every stored review of an undecided task leads to the same
      verdict as the task's latest artifact. */
  lemma BuildersAgreeExactly(c: Config, s: State)
    requires Inv(c, s) && Incomplete(s, c.assignments) == []
    requires UniqueKeys(c.assignments)
    requires Assemble(c, s).1.PackageReady? && FallbackPackage(c, s).Success?
    ensures Statuses(Assemble(c, s).1.package.entries) == Statuses(FallbackPackage(c, s).value.entries) <==>
            forall i | 0 <= i < |c.assignments| ::
              SameVerdict(c, c.assignments[i].key, TaskOf(s, c.assignments[i].key))
  {
    CompleteMeansDone(c, s);
    StatusesAgreeExactly(c, s, c.assignments);
    SameStatusesExactly(c, s, c.assignments, SettleAll(c, s, c.assignments).1.value, FallbackEntries(c, s, c.assignments).value);
  }

  // ---- stale reviews ----

  /** With a current review, what `judge_decision` accepts is the latest artifact itself. */
  lemma CurrentReviewJudgesLatest(c: Config, key: string, t: Task)
    requires TaskInv(c, key, t) && t.artifacts != [] && t.reviews != []
    requires Last(t.reviews).value.attempt == Last(t.artifacts).value.attempt
    requires Decide(Some(CountsOfStored(Last(t.reviews).value)), []).status == StatusAccepted
    ensures Deserves(RulesOf(c, key), Last(t.artifacts).value.payload)
  {
    var r := t.reviews[|t.reviews| - 1];
    GroundedOnLatest(c, key, t, r);
    FavourableDeserves(c, key, r, t.artifacts[|t.artifacts| - 1]);
  }

  const CORE_RULE := Rule(CheckNonPlaceholder, Some("w"), None, None, Core, None)
  const SUPPORTING_RULE := Rule(CheckNonPlaceholder, Some("r"), None, None, Supporting, None)

  /** One task, judged by a core rule on field "w" and a supporting rule on field "r". */
  function TwoRuleConfig(policy: PolicyGate.Policy): Config {
    Config([Assignment("k", [])], map["k" := [CORE_RULE, SUPPORTING_RULE]], 3, policy, None, v => v)
  }

  const EMPTY_REPORT := Report([], map[], [], [], [])
  const CORE_ONLY_REPORT := Report([], map["w" := Bool(true)], [], [], [])

  lemma SplitOne(c: char)
    requires c != '.'
    ensures SplitDots([c]) == [[c]]
  {
    assert [c][1..] == "" && [c] + "" == [c];
  }

  lemma RuleVerdicts()
    ensures !Passes(CORE_RULE, map[])
    ensures Passes(CORE_RULE, CORE_ONLY_REPORT.payload)
    ensures !Passes(SUPPORTING_RULE, CORE_ONLY_REPORT.payload)
  {
    SplitOne('w');
    SplitOne('r');
    assert forall v :: Walk(v, []) == v;
    assert Walk(Obj(CORE_ONLY_REPORT.payload), ["w"]) == Walk(Bool(true), ["w"][1..]);
    assert Walk(Obj(CORE_ONLY_REPORT.payload), ["r"]) == Walk(Null, ["r"][1..]);
    assert Walk(Obj(map[]), ["w"]) == Walk(Null, ["w"][1..]);
  }

  /** Neither report is approved: the supporting rule fails on both. */
  lemma ReportsNotApproved(w: WorkerResult)
    requires w in {EMPTY_REPORT, CORE_ONLY_REPORT}
    ensures var rules := [CORE_RULE, SUPPORTING_RULE];
            var r := ReviewOf(rules, w.payload, []);
            && r.Success? && !r.value.approved
            && r.value.coreTotal == 1
            && (r.value.corePassed == r.value.coreTotal <==> w == CORE_ONLY_REPORT)
            && (AllCorePass(rules, w.payload) <==> w == CORE_ONLY_REPORT)
  {
    var rules := [CORE_RULE, SUPPORTING_RULE];
    RuleVerdicts();
    ApprovalMeaning(rules, w.payload, []);
    CountsMeaning(rules, w.payload, Core);
    assert rules[0].ruleClass == Core && rules[1].ruleClass == Supporting;
    assert rules[..1] == [CORE_RULE] && [CORE_RULE][..0] == [];
    assert ClassTotal([CORE_RULE], Core) == 1;
  }

  lemma FirstResearch(c: Config, s: State, key: string, w: WorkerResult)
    requires Find(c.assignments, key) == Some(Assignment(key, [])) && TaskOf(s, key) == NEW_TASK && w.Report?
    ensures TaskOf(ResearchStep(c, s, key, w).0, key) == Task(1, [ArtifactOf(w, 1)], [], [])
  {
  }

  lemma FirstReview(c: Config, s: State, key: string, a: Artifact)
    requires Find(c.assignments, key).Some? && TaskOf(s, key) == Task(1, [a], [], [])
    requires ReviewOf(RulesOf(c, key), a.payload, a.violations).Success?
    ensures TaskOf(ReviewStep(c, s, key).0, key) ==
            Task(1, [a], [FromCritic(ReviewOf(RulesOf(c, key), a.payload, a.violations).value, a.attempt)], [])
  {
  }

  lemma SecondResearch(c: Config, s: State, key: string, a: Artifact, r: StoredReview, w: WorkerResult)
    requires Find(c.assignments, key) == Some(Assignment(key, [])) && w.Report? && c.maxRetries > 1
    requires TaskOf(s, key) == Task(1, [a], [r], []) && !r.approved
    ensures TaskOf(ResearchStep(c, s, key, w).0, key) == Task(2, [a, ArtifactOf(w, 2)], [r], [])
  {
    assert ResearchStep(c, s, key, w) == Execute(s, key, w);
  }

  lemma RunThree(c: Config, s: State, a1: Action, a2: Action, a3: Action)
    ensures Run(c, s, [a1, a2, a3]) == Step(c, Step(c, Step(c, s, a1).0, a2).0, a3).0
  {
    assert [a1, a2, a3][1..] == [a2, a3];
    assert [a2, a3][1..] == [a3];
    assert [a3][1..] == [];
    var s1 := Step(c, s, a1).0;
    var s2 := Step(c, s1, a2).0;
    assert Run(c, s1, [a2, a3]) == Run(c, s2, [a3]);
    assert Run(c, s2, [a3]) == Run(c, Step(c, s2, a3).0, []);
  }

  /** Research, review, research again: after a review that did not approve, the second
      artifact stands beside a review of the first. */
  lemma ReviewedThenRedone(policy: PolicyGate.Policy, payload: Dict, first: WorkerResult, second: WorkerResult)
    requires first in {EMPTY_REPORT, CORE_ONLY_REPORT} && second.Report?
    ensures var c := TwoRuleConfig(policy);
            var s := Reached(c, payload, [Research("k", first), ReviewTask("k"), Research("k", second)]);
            var r := ReviewOf([CORE_RULE, SUPPORTING_RULE], first.payload, []);
            && r.Success?
            && TaskOf(s, "k") == Task(2, [ArtifactOf(first, 1), ArtifactOf(second, 2)], [FromCritic(r.value, 1)], [])
  {
    var c := TwoRuleConfig(policy);
    var s0 := InitialState(payload);
    var s1 := ResearchStep(c, s0, "k", first).0;
    var s2 := ReviewStep(c, s1, "k").0;
    assert Find(c.assignments, "k") == Some(Assignment("k", []));
    ReportsNotApproved(first);
    FirstResearch(c, s0, "k", first);
    FirstReview(c, s1, "k", ArtifactOf(first, 1));
    SecondResearch(c, s2, "k", ArtifactOf(first, 1), TaskOf(s2, "k").reviews[0], second);
    RunThree(c, s0, Research("k", first), ReviewTask("k"), Research("k", second));
  }

  lemma DisagreesOn(c: Config, s: State, key: string, t: Task)
    requires Inv(c, s) && TaskOf(s, key) == t && HasCoreRule(c, key) && t.artifacts != []
    requires t.decisions == [] && t.reviews != [] && !SameVerdict(c, key, t)
    requires ReviewOf(RulesOf(c, key), Last(t.artifacts).value.payload, []).Success?
    ensures var finalized, fallback := Settle(c, key, t), FallbackEntry(c, key, t);
            finalized.Success? && fallback.Success? && finalized.value.1.status != fallback.value.status
  {
    assert TaskInv(c, key, TaskOf(s, key));
    SameStatusExactly(c, key, t);
  }

  /** The builders can disagree: after a first attempt that fails the core rule, its review, and
      a second attempt that passes it, they give the task different statuses. */
  lemma BuildersCanDisagree(policy: PolicyGate.Policy, payload: Dict)
    ensures var c := TwoRuleConfig(policy);
            var s := Reached(c, payload, [Research("k", EMPTY_REPORT), ReviewTask("k"), Research("k", CORE_ONLY_REPORT)]);
            var finalized, fallback := Settle(c, "k", TaskOf(s, "k")), FallbackEntry(c, "k", TaskOf(s, "k"));
            && finalized.Success? && fallback.Success?
            && finalized.value.1.status != fallback.value.status
  {
    var c := TwoRuleConfig(policy);
    var actions := [Research("k", EMPTY_REPORT), ReviewTask("k"), Research("k", CORE_ONLY_REPORT)];
    ReportsNotApproved(EMPTY_REPORT);
    ReportsNotApproved(CORE_ONLY_REPORT);
    ReviewedThenRedone(policy, payload, EMPTY_REPORT, CORE_ONLY_REPORT);
    ReachedInv(c, payload, actions);
    assert EMPTY_REPORT != CORE_ONLY_REPORT by {
      assert "w" in CORE_ONLY_REPORT.payload;
    }
    assert RulesOf(c, "k") == [CORE_RULE, SUPPORTING_RULE];
    DisagreesOn(c, Reached(c, payload, actions), "k", TaskOf(Reached(c, payload, actions), "k"));
  }

  lemma JudgedOnLastReview(c: Config, s: State, key: string, t: Task)
    requires Find(c.assignments, key).Some? && TaskOf(s, key) == t && t.artifacts != [] && t.reviews != []
    ensures var v := Decide(Some(CountsOfStored(Last(t.reviews).value)), []);
            TaskOf(JudgeStep(c, s, key).0, key) == t.WithDecision(FromJudge(v, Last(t.artifacts).value.attempt))
  {
  }

  /** A stale acceptance: the Judge accepts attempt 2 on the review of attempt 1, although the
      artifact of attempt 2 fails the core rule. */
  lemma AcceptanceCanBeStale(policy: PolicyGate.Policy, payload: Dict)
    ensures var c := TwoRuleConfig(policy);
            var s := Reached(c, payload, [Research("k", CORE_ONLY_REPORT), ReviewTask("k"), Research("k", EMPTY_REPORT)]);
            var t := TaskOf(JudgeStep(c, s, "k").0, "k");
            && t.decisions != [] && t.artifacts != []
            && Last(t.decisions).value.status == StatusAccepted
            && Last(t.decisions).value.attempt == Last(t.artifacts).value.attempt
            && !AllCorePass(RulesOf(c, "k"), Last(t.artifacts).value.payload)
  {
    var c := TwoRuleConfig(policy);
    var s := Reached(c, payload, [Research("k", CORE_ONLY_REPORT), ReviewTask("k"), Research("k", EMPTY_REPORT)]);
    ReportsNotApproved(CORE_ONLY_REPORT);
    ReportsNotApproved(EMPTY_REPORT);
    ReviewedThenRedone(policy, payload, CORE_ONLY_REPORT, EMPTY_REPORT);
    assert Find(c.assignments, "k").Some?;
    var t := TaskOf(s, "k");
    JudgedOnLastReview(c, s, "k", t);
    DecideMeaning(Some(CountsOfStored(Last(t.reviews).value)), []);
    assert RulesOf(c, "k") == [CORE_RULE, SUPPORTING_RULE];
    assert Last(t.artifacts).value == ArtifactOf(EMPTY_REPORT, 2);
    assert EMPTY_REPORT != CORE_ONLY_REPORT by {
      assert "w" in CORE_ONLY_REPORT.payload;
    }
  }
}
