/** What one tool call does, said over the record before it: when the worker is called, when
    nothing happens, and what each answer leaves behind. */
module ToolCalls {
  import opened JsonModel
  import opened Critic
  import opened Judge
  import opened Contracts
  import opened Lead
  import opened LeadRuns
  import opened Finalization
  import opened Dependencies
  import opened WorkerCalls

  // ---- the conditions ----

  /** Some dependency that is a task of the department is not satisfied. */
  ghost predicate MissesLocal(c: Config, s: State, deps: seq<string>) {
    exists i, k :: 0 <= i < |deps| && 0 <= k < |c.assignments| && c.assignments[k].key == deps[i]
                   && !TaskOf(s, deps[i]).SatisfiesDependents()
  }

  ghost predicate AllMet(s: State, deps: seq<string>) {
    forall i | 0 <= i < |deps| :: TaskOf(s, deps[i]).SatisfiesDependents()
  }

  /** The latest decision is a block. */
  ghost predicate BlockedLast(t: Task) {
    t.decisions != [] && t.decisions[|t.decisions| - 1].outcome == BlockedByDependency
  }

  /** The latest review does not approve. */
  ghost predicate RejectedLast(t: Task) {
    t.reviews != [] && !t.reviews[|t.reviews| - 1].approved
  }

  /** A dependency is satisfied by its latest decision when there is one (accepted, with or without
      gaps), otherwise by an approving latest review, otherwise by a latest artifact with facts. */
  lemma DependencyMeaning(t: Task)
    ensures t.SatisfiesDependents() <==>
            if t.decisions != [] then t.decisions[|t.decisions| - 1].outcome in {Accepted, AcceptedWithGaps}
            else || (t.reviews != [] && t.reviews[|t.reviews| - 1].approved)
                 || (t.artifacts != [] && t.artifacts[|t.artifacts| - 1].facts != [])
  {
  }

  lemma {:induction false} UnmetExactly(c: Config, s: State, deps: seq<string>)
    ensures FirstUnmet(c, s, deps).Some? <==> MissesLocal(c, s, deps)
    ensures FirstUnmet(c, s, deps).Some? ==>
              exists i :: 0 <= i < |deps| && deps[i] == FirstUnmet(c, s, deps).value && MissesLocal(c, s, [deps[i]])
                          && !MissesLocal(c, s, deps[..i])
  {
    if deps != [] {
      UnmetExactly(c, s, deps[1..]);
      assert Unmet(c, s, deps[0]) <==> MissesLocal(c, s, [deps[0]]) by {
        assert [deps[0]][0] == deps[0];
      }
      MissesJoins(c, s, [deps[0]], deps[1..]);
      assert [deps[0]] + deps[1..] == deps;
      if Unmet(c, s, deps[0]) {
        assert deps[..0] == [];
      } else if FirstUnmet(c, s, deps[1..]).Some? {
        var i :| 0 <= i < |deps[1..]| && deps[1..][i] == FirstUnmet(c, s, deps[1..]).value && MissesLocal(c, s, [deps[1..][i]])
                 && !MissesLocal(c, s, deps[1..][..i]);
        MissesJoins(c, s, [deps[0]], deps[1..][..i]);
        assert [deps[0]] + deps[1..][..i] == deps[..i + 1] && deps[i + 1] == deps[1..][i];
      }
    }
  }

  lemma MissesJoins(c: Config, s: State, a: seq<string>, b: seq<string>)
    ensures MissesLocal(c, s, a + b) <==> MissesLocal(c, s, a) || MissesLocal(c, s, b)
  {
    var all := a + b;
    if i, k :| 0 <= i < |a| && 0 <= k < |c.assignments| && c.assignments[k].key == a[i] && !TaskOf(s, a[i]).SatisfiesDependents() {
      assert all[i] == a[i];
    }
    if i, k :| 0 <= i < |b| && 0 <= k < |c.assignments| && c.assignments[k].key == b[i] && !TaskOf(s, b[i]).SatisfiesDependents() {
      assert all[|a| + i] == b[i];
    }
    if i, k :| 0 <= i < |all| && 0 <= k < |c.assignments| && c.assignments[k].key == all[i] && !TaskOf(s, all[i]).SatisfiesDependents() {
      assert all[i] == if i < |a| then a[i] else b[i - |a|];
    }
  }

  /** The call reaches the worker: no local dependency is missing, and the task has no artifact
      yet, or was blocked and now has all its dependencies, or was not blocked, was reviewed
      without approval, and has retries left. */
  ghost predicate ReachesWorker(c: Config, s: State, key: string, deps: seq<string>) {
    var t := TaskOf(s, key);
    && !MissesLocal(c, s, deps)
    && (|| t.artifacts == []
        || (BlockedLast(t) && AllMet(s, deps))
        || (!BlockedLast(t) && RejectedLast(t) && t.attempts < c.maxRetries))
  }

  // ---- the answers ----

  /** Each answer has its exact condition; together they cover every case. */
  lemma AnswersExactly(c: Config, s: State, key: string, deps: seq<string>, w: WorkerResult)
    requires Find(c.assignments, key) == Some(Assignment(key, deps))
    ensures var reply, t := Step(c, s, Research(key, w)).1, TaskOf(s, key);
            && (reply.BlockedBy? <==> MissesLocal(c, s, deps))
            && (reply == ToolFailed <==> ReachesWorker(c, s, key, deps) && w.Raised?)
            && (reply.ResearchComplete? <==> ReachesWorker(c, s, key, deps) && w.Report?)
            && (reply == StillBlocked <==>
                  !MissesLocal(c, s, deps) && t.artifacts != [] && BlockedLast(t) && !AllMet(s, deps))
            && (reply == RetryLimitReached <==>
                  !MissesLocal(c, s, deps) && t.artifacts != [] && !BlockedLast(t) && RejectedLast(t) && t.attempts >= c.maxRetries)
            && (reply == AlreadyCompleted <==>
                  !MissesLocal(c, s, deps) && t.artifacts != [] && !BlockedLast(t) && !RejectedLast(t))
  {
    UnmetExactly(c, s, deps);
    assert AllSatisfied(s, deps) <==> AllMet(s, deps);
  }

  // ---- what each answer leaves behind ----

  /** Only the task's own record, the payload and the error list can change. */
  lemma ResearchFrame(c: Config, s: State, key: string, w: WorkerResult)
    ensures var s' := Step(c, s, Research(key, w)).0;
            && (forall k | k != key :: TaskOf(s', k) == TaskOf(s, k))
            && s'.overrides == s.overrides && s'.blockedFinalize == s.blockedFinalize
            && TaskOf(s', key).reviews == TaskOf(s, key).reviews
  {
    ResearchExtends(c, s, key, w);
  }

  /** A task that is done, still blocked or unknown is left exactly as it was. */
  lemma IdleAnswers(c: Config, s: State, key: string, w: WorkerResult)
    ensures var (s', reply) := Step(c, s, Research(key, w));
            reply in {AlreadyCompleted, StillBlocked, UnknownTask} ==> s' == s
  {
  }

  /** A refused retry only records that the task is closed unresolved, as degraded, with low
      confidence, by the runtime. */
  lemma RefusedRetry(c: Config, s: State, key: string, w: WorkerResult)
    requires Step(c, s, Research(key, w)).1 == RetryLimitReached
    ensures var s' := Step(c, s, Research(key, w)).0;
            var t, t' := TaskOf(s, key), TaskOf(s', key);
            && t'.attempts == t.attempts && t'.artifacts == t.artifacts && s'.payload == s.payload && s'.toolErrors == s.toolErrors
            && |t'.decisions| == |t.decisions| + 1 && t'.decisions[..|t.decisions|] == t.decisions
            && var d := t'.decisions[|t.decisions|];
               && d.outcome == ClosedUnresolved && d.status == StatusDegraded && d.decidedBy == ByRuntime && d.confidence == Low
               && d.attempt == t.attempts
               && t.reviews != []
               && var r := t.reviews[|t.reviews| - 1];
                  d.openQuestions == if r.missingPoints != [] then r.missingPoints
                                     else if r.issues == [] then r.rejectedPoints else r.issues
  {
  }

  /** A raising worker costs an attempt and leaves an error. */
  lemma FailedCall(c: Config, s: State, key: string, w: WorkerResult)
    requires Step(c, s, Research(key, w)).1 == ToolFailed
    ensures var s' := Step(c, s, Research(key, w)).0;
            && TaskOf(s', key) == TaskOf(s, key).(attempts := TaskOf(s, key).attempts + 1)
            && s'.payload == s.payload && s'.toolErrors == s.toolErrors + [(RunResearchTool, key)]
  {
  }

  /** A report is recorded as it is, under the next attempt, and asks for the Judge exactly when
      it has contract violations and all of them are of high severity. */
  lemma ReportedCall(c: Config, s: State, key: string, w: WorkerResult)
    requires Step(c, s, Research(key, w)).1.ResearchComplete?
    ensures w.Report?
    ensures var (s', reply) := Step(c, s, Research(key, w));
            var t, t' := TaskOf(s, key), TaskOf(s', key);
            && t'.attempts == reply.attempt == t.attempts + 1 && t'.decisions == t.decisions && s'.toolErrors == s.toolErrors
            && |t'.artifacts| == |t.artifacts| + 1 && t'.artifacts[..|t.artifacts|] == t.artifacts
            && var a := t'.artifacts[|t.artifacts|];
               && a.attempt == t.attempts + 1 && a.facts == w.facts && a.payload == w.payload && a.sources == w.sources
               && a.openQuestions == w.openQuestions && a.violations == w.violations
               && (a.needsContractReview <==>
                     w.violations != [] && forall i | 0 <= i < |w.violations| :: w.violations[i].severity == HighSeverity)
  {
    assert ResearchStep(c, s, key, w) == Execute(s, key, w);
  }

  /** A missing dependency costs an attempt and leaves an empty artifact and a block that name it. */
  lemma BlockedCall(c: Config, s: State, key: string, w: WorkerResult)
    requires Step(c, s, Research(key, w)).1.BlockedBy?
    ensures var (s', reply) := Step(c, s, Research(key, w));
            var t, t' := TaskOf(s, key), TaskOf(s', key);
            && t'.attempts == t.attempts + 1 && s'.payload == s.payload && s'.toolErrors == s.toolErrors
            && |t'.artifacts| == |t.artifacts| + 1 && t'.artifacts[..|t.artifacts|] == t.artifacts
            && |t'.decisions| == |t.decisions| + 1 && t'.decisions[..|t.decisions|] == t.decisions
            && var a, d := t'.artifacts[|t.artifacts|], t'.decisions[|t.decisions|];
               && a.attempt == d.attempt == t.attempts + 1
               && a.facts == [] && a.payload == map[] && a.sources == [] && a.openQuestions == [DependencyMissing(reply.dep)]
               && d.outcome == BlockedByDependency && d.status == StatusBlocked && d.decidedBy == ByRuntime
  {
  }

  // ---- the other tools ----

  /** A review tool call records the Critic's review of the latest artifact, field by field and
      under that artifact's attempt, when the Critic can run at all. */
  lemma ReviewExactly(c: Config, s: State, key: string)
    requires Find(c.assignments, key).Some? && TaskOf(s, key).artifacts != []
    ensures var (s', reply) := Step(c, s, ReviewTask(key));
            var t, t' := TaskOf(s, key), TaskOf(s', key);
            var a := t.artifacts[|t.artifacts| - 1];
            var result := ReviewOf(RulesOf(c, key), a.payload, a.violations);
            && (result.Failure? ==> reply == ToolFailed && t' == t && s'.toolErrors == s.toolErrors + [(ReviewTool, key)])
            && (result.Success? ==>
                  && reply.Reviewed? && s'.toolErrors == s.toolErrors
                  && t' == t.(reviews := t.reviews + [reply.review])
                  && SameReview(reply.review, result.value, a.attempt))
            && s'.payload == s.payload && forall k | k != key :: TaskOf(s', k) == TaskOf(s, k)
  {
    ReviewExtends(c, s, key);
  }

  predicate SameReview(r: StoredReview, full: Review, attempt: nat) {
    && r.attempt == attempt && r.reviewer == CriticReviewer && r.approved == full.approved
    && r.corePassed == full.corePassed && r.coreTotal == full.coreTotal
    && r.supportingPassed == full.supportingPassed && r.supportingTotal == full.supportingTotal
    && r.acceptedPoints == full.acceptedPoints && r.rejectedPoints == full.rejectedPoints
    && r.missingPoints == full.missingPoints && r.issues == full.issues
  }

  /** Without an artifact there is nothing to review. */
  lemma NothingToReview(c: Config, s: State, key: string)
    requires TaskOf(s, key).artifacts == [] || Find(c.assignments, key).None?
    ensures Step(c, s, ReviewTask(key)).0 == s
  {
  }

  /** Suggested queries replace the task's earlier ones and touch no record. */
  lemma SuggestExactly(c: Config, s: State, key: string, queries: Option<seq<string>>)
    ensures var (s', reply) := Step(c, s, Suggest(key, queries));
            && s'.tasks == s.tasks && s'.payload == s.payload && s'.blockedFinalize == s.blockedFinalize
            && (reply == Suggested <==> Find(c.assignments, key).Some? && queries.Some?)
            && (reply == Suggested ==> s'.overrides == s.overrides[key := queries.value] && s'.toolErrors == s.toolErrors)
            && (reply != Suggested ==> s'.overrides == s.overrides)
  {
  }

  /** A judge tool call on a researched task records one decision, the Judge's verdict on the
      counts and issues of the latest review, under the latest attempt; a missing review is made
      up first, without any count, with the artifact's open questions as missing points. */
  lemma JudgeExactly(c: Config, s: State, key: string)
    requires Find(c.assignments, key).Some? && TaskOf(s, key).artifacts != []
    ensures var (s', reply) := Step(c, s, JudgeTask(key));
            var t, t' := TaskOf(s, key), TaskOf(s', key);
            var a := t.artifacts[|t.artifacts| - 1];
            && t'.attempts == t.attempts && t'.artifacts == t.artifacts && s'.payload == s.payload
            && (t.reviews != [] ==> t'.reviews == t.reviews)
            && (t.reviews == [] ==>
                  && |t'.reviews| == 1
                  && var r := t'.reviews[0];
                     r.attempt == a.attempt && !r.approved && r.reviewer == RuntimeFallback && r.coreTotal == 0 && r.corePassed == 0
                     && r.supportingTotal == 0 && r.missingPoints == a.openQuestions && r.acceptedPoints == []
                     && r.issues == [NoCriticReview])
            && |t'.decisions| == |t.decisions| + 1 && t'.decisions[..|t.decisions|] == t.decisions
            && var d, r := t'.decisions[|t.decisions|], t'.reviews[|t'.reviews| - 1];
               var v := Decide(Some(Counts(r.corePassed, r.coreTotal, r.supportingPassed, r.supportingTotal, r.issues, [])), []);
               && reply == Judged(v)
               && d.attempt == a.attempt && d.decidedBy == ByJudge
               && d.outcome == v.outcome && d.status == v.status && d.confidence == v.confidence && d.openQuestions == v.openQuestions
  {
  }

  /** Without an artifact it closes the task as degraded, under the current attempt. */
  lemma JudgedTooEarly(c: Config, s: State, key: string)
    requires Find(c.assignments, key).Some? && TaskOf(s, key).artifacts == []
    ensures var s' := Step(c, s, JudgeTask(key)).0;
            var t, t' := TaskOf(s, key), TaskOf(s', key);
            && t'.reviews == t.reviews && t'.artifacts == [] && t'.attempts == t.attempts
            && |t'.decisions| == |t.decisions| + 1 && t'.decisions[..|t.decisions|] == t.decisions
            && var d := t'.decisions[|t.decisions|];
               d.outcome == ClosedUnresolved && d.status == StatusDegraded && d.confidence == Low && d.attempt == t.attempts
               && d.decidedBy == ByJudge
  {
  }

  /** Finalizing with tasks missing is refused the first time, with the list of missing tasks. */
  lemma RefusedFinalize(c: Config, s: State, w: WorkerResult)
    requires Incomplete(s, c.assignments) != [] && s.blockedFinalize == 0
    ensures Step(c, s, Finalize(w)) == (s.(blockedFinalize := 1), FinalizeBlocked(Incomplete(s, c.assignments)))
  {
  }

  /** Later the first missing task is researched instead; the counter goes up each time. */
  lemma RecoveringFinalize(c: Config, s: State, w: WorkerResult)
    requires Incomplete(s, c.assignments) != [] && s.blockedFinalize > 0
    ensures var (s', reply) := FinalizeStep(c, s, w);
            && reply.AutoRecovered? && reply.key == Incomplete(s, c.assignments)[0]
            && s' == ResearchStep(c, s.(blockedFinalize := s.blockedFinalize + 1), reply.key, w).0
  {
    RecoveryUnfolds(c, s, w);
  }

  // ---- a finished task is left alone ----

  /** A task with an artifact, no missing dependency, no block, and no review or an approving one:
      asking for it again changes nothing, whatever the worker would say. */
  lemma FinishedIsLeftAlone(c: Config, s: State, key: string, deps: seq<string>, w: WorkerResult)
    requires Find(c.assignments, key) == Some(Assignment(key, deps)) && !MissesLocal(c, s, deps)
    requires TaskOf(s, key).artifacts != [] && !BlockedLast(TaskOf(s, key)) && !RejectedLast(TaskOf(s, key))
    ensures Step(c, s, Research(key, w)) == (s, AlreadyCompleted)
  {
    AnswersExactly(c, s, key, deps, w);
    IdleAnswers(c, s, key, w);
  }

  /** The latest review is the Critic's, of the latest artifact, and approves. */
  ghost predicate ApprovedNow(c: Config, key: string, t: Task) {
    && t.artifacts != [] && t.reviews != []
    && t.reviews[|t.reviews| - 1].approved
    && CriticsReview(c, key, t.reviews[|t.reviews| - 1], t.artifacts[|t.artifacts| - 1])
  }

  /** Nothing of the department keeps the task from being asked for, and it is not blocked. */
  ghost predicate Unhindered(c: Config, s: State, key: string, deps: seq<string>) {
    Find(c.assignments, key) == Some(Assignment(key, deps)) && !MissesLocal(c, s, deps) && !BlockedLast(TaskOf(s, key))
  }

  ghost predicate Resting(c: Config, s: State, key: string, deps: seq<string>) {
    Unhindered(c, s, key, deps) && ApprovedNow(c, key, TaskOf(s, key))
  }

  /** Research or review of the task, or suggested queries for any task. */
  predicate Asks(key: string, a: Action) {
    (a.Research? && a.key == key) || (a.ReviewTask? && a.key == key) || a.Suggest?
  }

  lemma SuggestionKeeps(c: Config, s: State, key: string, queries: Option<seq<string>>)
    ensures Step(c, s, Suggest(key, queries)).0.tasks == s.tasks
    ensures Step(c, s, Suggest(key, queries)).0.payload == s.payload
  {
  }

  lemma ReviewedCall(c: Config, s: State, key: string, a: Artifact, result: Result<Review>)
    requires Find(c.assignments, key).Some? && TaskOf(s, key).LatestArtifact() == Some(a)
    requires result == ReviewOf(RulesOf(c, key), a.payload, a.violations) && result.Success?
    ensures Step(c, s, ReviewTask(key)).0 == SetTask(s, key, TaskOf(s, key).WithReview(FromCritic(result.value, a.attempt)))
  {
  }

  /** Reviewing again gives the same approval once more. */
  lemma ReviewAgain(c: Config, s: State, key: string)
    requires Find(c.assignments, key).Some? && ApprovedNow(c, key, TaskOf(s, key))
    ensures var t := TaskOf(s, key);
            Step(c, s, ReviewTask(key)).0 == SetTask(s, key, t.WithReview(t.reviews[|t.reviews| - 1]))
  {
    var t := TaskOf(s, key);
    var a := t.artifacts[|t.artifacts| - 1];
    var result := ReviewOf(RulesOf(c, key), a.payload, a.violations);
    assert CriticsReview(c, key, t.reviews[|t.reviews| - 1], a);
    ReviewedCall(c, s, key, a, result);
  }

  lemma SameMisses(c: Config, s: State, s': State, deps: seq<string>)
    requires forall k :: TaskOf(s', k).SatisfiesDependents() == TaskOf(s, k).SatisfiesDependents()
    ensures MissesLocal(c, s', deps) == MissesLocal(c, s, deps)
  {
    forall i, k | 0 <= i < |deps| && 0 <= k < |c.assignments| && c.assignments[k].key == deps[i]
      ensures TaskOf(s', deps[i]).SatisfiesDependents() == TaskOf(s, deps[i]).SatisfiesDependents()
    {
    }
  }

  lemma ApprovedOnceMore(c: Config, key: string, t: Task)
    requires ApprovedNow(c, key, t)
    ensures var t' := t.WithReview(t.reviews[|t.reviews| - 1]);
            && ApprovedNow(c, key, t')
            && t'.SatisfiesDependents() == t.SatisfiesDependents()
  {
    var t' := t.WithReview(t.reviews[|t.reviews| - 1]);
    assert t'.reviews[|t'.reviews| - 1] == t.reviews[|t.reviews| - 1];
    DependencyMeaning(t);
    DependencyMeaning(t');
  }

  lemma UnhinderedWith(c: Config, s: State, key: string, deps: seq<string>, t': Task)
    requires Unhindered(c, s, key, deps)
    requires t'.decisions == TaskOf(s, key).decisions && t'.SatisfiesDependents() == TaskOf(s, key).SatisfiesDependents()
    ensures Unhindered(c, SetTask(s, key, t'), key, deps) && TaskOf(SetTask(s, key, t'), key) == t'
  {
    var s' := SetTask(s, key, t');
    assert forall k :: TaskOf(s', k) == if k == key then t' else TaskOf(s, k);
    SameMisses(c, s, s', deps);
  }

  lemma RestingReview(c: Config, s: State, key: string, deps: seq<string>)
    requires Resting(c, s, key, deps)
    ensures var t := TaskOf(s, key);
            var t' := t.WithReview(t.reviews[|t.reviews| - 1]);
            && Step(c, s, ReviewTask(key)).0 == SetTask(s, key, t')
            && Resting(c, SetTask(s, key, t'), key, deps)
  {
    var t := TaskOf(s, key);
    ReviewAgain(c, s, key);
    ApprovedOnceMore(c, key, t);
    UnhinderedWith(c, s, key, deps, t.WithReview(t.reviews[|t.reviews| - 1]));
  }

  lemma RestingSuggestion(c: Config, s: State, key: string, deps: seq<string>, k: string, queries: Option<seq<string>>)
    requires Resting(c, s, key, deps)
    ensures var s' := Step(c, s, Suggest(k, queries)).0;
            Resting(c, s', key, deps) && TaskOf(s', key) == TaskOf(s, key) && s'.payload == s.payload
  {
    var s' := Step(c, s, Suggest(k, queries)).0;
    SuggestionKeeps(c, s, k, queries);
    assert forall k' :: TaskOf(s', k') == TaskOf(s, k');
    SameMisses(c, s, s', deps);
  }

  lemma RestingResearch(c: Config, s: State, key: string, deps: seq<string>, w: WorkerResult)
    requires Resting(c, s, key, deps)
    ensures Step(c, s, Research(key, w)) == (s, AlreadyCompleted)
    ensures !Hands(c, s, Research(key, w), key)
  {
    FinishedIsLeftAlone(c, s, key, deps, w);
  }

  /** Nothing but reviews, suggestions and errors was added. */
  predicate Untouched(s: State, s': State, key: string) {
    var t, t' := TaskOf(s, key), TaskOf(s', key);
    t'.attempts == t.attempts && t'.artifacts == t.artifacts && t'.decisions == t.decisions && s'.payload == s.payload
  }

  lemma UntouchedTransitive(s: State, s1: State, s2: State, key: string)
    requires Untouched(s, s1, key) && Untouched(s1, s2, key)
    ensures Untouched(s, s2, key)
  {
  }

  lemma RestingStep(c: Config, s: State, key: string, deps: seq<string>, a: Action)
    requires Resting(c, s, key, deps) && Asks(key, a)
    ensures Resting(c, Step(c, s, a).0, key, deps) && !Hands(c, s, a, key) && Untouched(s, Step(c, s, a).0, key)
  {
    if a.Research? {
      RestingResearch(c, s, key, deps, a.worker);
    } else if a.Suggest? {
      RestingSuggestion(c, s, key, deps, a.key, a.queries);
    } else {
      RestingReview(c, s, key, deps);
    }
  }

  predicate AllAsk(key: string, actions: seq<Action>) {
    forall i | 0 <= i < |actions| :: Asks(key, actions[i])
  }

  lemma TurnWithoutHanding(c: Config, s: State, actions: seq<Action>, key: string)
    requires actions != [] && !Hands(c, s, actions[0], key)
    ensures var s1 := Step(c, s, actions[0]).0;
            && CountHanded(c, s, actions, key) == CountHanded(c, s1, actions[1..], key)
            && Run(c, s, actions) == Run(c, s1, actions[1..])
  {
  }

  lemma RestingTurn(c: Config, s: State, key: string, deps: seq<string>, actions: seq<Action>) returns (s1: State)
    requires Resting(c, s, key, deps) && actions != [] && AllAsk(key, actions)
    ensures Resting(c, s1, key, deps) && Untouched(s, s1, key) && AllAsk(key, actions[1..])
    ensures CountHanded(c, s, actions, key) == CountHanded(c, s1, actions[1..], key)
    ensures Run(c, s, actions) == Run(c, s1, actions[1..])
  {
    assert Asks(key, actions[0]);
    RestingStep(c, s, key, deps, actions[0]);
    TurnWithoutHanding(c, s, actions, key);
    s1 := Step(c, s, actions[0]).0;
  }

  lemma {:induction false} RestingRun(c: Config, s: State, key: string, deps: seq<string>, actions: seq<Action>)
    requires Resting(c, s, key, deps) && AllAsk(key, actions)
    ensures CountHanded(c, s, actions, key) == 0 && Untouched(s, Run(c, s, actions), key)
    decreases |actions|
  {
    if actions != [] {
      var s1 := RestingTurn(c, s, key, deps, actions);
      RestingRun(c, s1, key, deps, actions[1..]);
      UntouchedTransitive(s, s1, Run(c, s1, actions[1..]), key);
    }
  }

  /** An approved task stays as it is over any run of research, review and suggestion calls: the
      worker is never called, and no artifact, decision, attempt or payload field changes. */
  lemma ApprovedStaysAtRest(c: Config, s: State, key: string, deps: seq<string>, actions: seq<Action>)
    requires Find(c.assignments, key) == Some(Assignment(key, deps)) && !MissesLocal(c, s, deps) && !BlockedLast(TaskOf(s, key))
    requires ApprovedNow(c, key, TaskOf(s, key)) && AllAsk(key, actions)
    ensures var s' := Run(c, s, actions);
            var t, t' := TaskOf(s, key), TaskOf(s', key);
            && CountHanded(c, s, actions, key) == 0
            && t'.attempts == t.attempts && t'.artifacts == t.artifacts && t'.decisions == t.decisions && s'.payload == s.payload
  {
    RestingRun(c, s, key, deps, actions);
  }
}
