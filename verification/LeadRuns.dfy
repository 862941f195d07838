/** What every run of a department keeps, whatever tools are called in whatever order. */
module LeadRuns {
  import opened JsonModel
  import opened Critic
  import opened Judge
  import opened Contracts
  import opened Lead

  // ---- the invariant of one task ----

  /** The payload deserves acceptance: every core rule passes, and if there is no core rule
      then every rule passes and some source is recorded. */
  ghost predicate Deserves(rules: seq<Rule>, payload: Dict) {
    && AllCorePass(rules, payload)
    && (ClassTotal(rules, Core) == 0 ==>
          (forall i | 0 <= i < |rules| :: Passes(rules[i], payload)) && Truthy(Sources(payload)))
  }

  /** `r` is the Critic's stored review of artifact `a`. */
  predicate CriticsReview(c: Config, key: string, r: StoredReview, a: Artifact) {
    var result := ReviewOf(RulesOf(c, key), a.payload, a.violations);
    result.Success? && r == FromCritic(result.value, a.attempt)
  }

  ghost predicate ReviewGrounded(c: Config, key: string, artifacts: seq<Artifact>, r: StoredReview) {
    exists j :: 0 <= j < |artifacts| && artifacts[j].attempt == r.attempt
                && (CriticsReview(c, key, r, artifacts[j]) || r == FallbackReview(artifacts[j]))
  }

  ghost predicate ReviewsGrounded(c: Config, key: string, artifacts: seq<Artifact>, reviews: seq<StoredReview>) {
    forall i | 0 <= i < |reviews| :: ReviewGrounded(c, key, artifacts, reviews[i])
  }

  predicate AllByCritic(reviews: seq<StoredReview>) {
    forall i | 0 <= i < |reviews| :: reviews[i].reviewer == CriticReviewer
  }

  /** The decision is the Judge's verdict on a review of `a` made without the worker's report,
      as finalizing does for an unreviewed task. */
  predicate InlineVerdict(c: Config, key: string, a: Artifact, d: Decision) {
    var result := ReviewOf(RulesOf(c, key), a.payload, []);
    result.Success? && d == FromJudge(Decide(Some(CountsOfReview(result.value)), []), a.attempt)
  }

  /** The decision is what the stored review `r` of `a` leads to: the Judge's verdict on it, or
      the Lead's acceptance of an approved one. */
  predicate StoredVerdict(c: Config, key: string, a: Artifact, r: StoredReview, d: Decision) {
    && (CriticsReview(c, key, r, a) || r == FallbackReview(a))
    && r.attempt == a.attempt
    && (d.status == Decide(Some(CountsOfStored(r)), []).status || (r.approved && d.status == StatusAccepted))
  }

  /** The decision rests on a review of `a`, inline or stored. */
  ghost predicate RestsOn(c: Config, key: string, a: Artifact, reviews: seq<StoredReview>, d: Decision) {
    || InlineVerdict(c, key, a, d)
    || exists i :: 0 <= i < |reviews| && StoredVerdict(c, key, a, reviews[i], d)
  }

  /** A decision of Lead or Judge rests on a review of an artifact recorded no later than the
      attempt it names, or there was no artifact yet. */
  ghost predicate Founded(c: Config, key: string, attempts: nat, artifacts: seq<Artifact>, reviews: seq<StoredReview>, d: Decision) {
    && d.attempt <= attempts
    && ((d.outcome == ClosedUnresolved && forall j | 0 <= j < |artifacts| :: d.attempt < artifacts[j].attempt)
        || exists j :: 0 <= j < |artifacts| && artifacts[j].attempt <= d.attempt && RestsOn(c, key, artifacts[j], reviews, d))
  }

  /** The review speaks for acceptance: the Critic approves, or the Judge accepts on it. */
  predicate Favourable(r: StoredReview) {
    r.approved || Decide(Some(CountsOfStored(r)), []).status == StatusAccepted
  }

  /** A favourable review of `a` stands behind the decision: an inline one, or a stored one by
      the Critic. */
  ghost predicate FavouredBy(c: Config, key: string, a: Artifact, reviews: seq<StoredReview>, d: Decision) {
    || InlineVerdict(c, key, a, d)
    || exists i :: 0 <= i < |reviews| && CriticsReview(c, key, reviews[i], a) && Favourable(reviews[i])
  }

  /** The acceptance `d` is earned by an artifact recorded no later than the attempt it names:
      the artifact deserves it, and a favourable review of that artifact stands behind it. */
  ghost predicate Earned(c: Config, key: string, artifacts: seq<Artifact>, reviews: seq<StoredReview>, d: Decision) {
    exists j :: 0 <= j < |artifacts| && artifacts[j].attempt <= d.attempt
                && Deserves(RulesOf(c, key), artifacts[j].payload)
                && FavouredBy(c, key, artifacts[j], reviews, d)
  }

  ghost predicate DecisionGrounded(c: Config, key: string, attempts: nat, artifacts: seq<Artifact>,
                                   reviews: seq<StoredReview>, d: Decision) {
    && d.status == StatusOf(d.outcome)
    && (artifacts == [] ==> d.outcome == ClosedUnresolved)
    && (if d.decidedBy == ByRuntime then d.outcome != Accepted else Founded(c, key, attempts, artifacts, reviews, d))
  }

  ghost predicate DecisionsGrounded(c: Config, key: string, attempts: nat, artifacts: seq<Artifact>,
                                    reviews: seq<StoredReview>, decisions: seq<Decision>) {
    forall i | 0 <= i < |decisions| :: DecisionGrounded(c, key, attempts, artifacts, reviews, decisions[i])
  }

  /** Recorded attempt numbers strictly increase and never exceed the counter. */
  ghost predicate AttemptsOrdered(attempts: nat, artifacts: seq<Artifact>) {
    && (forall i | 0 <= i < |artifacts| :: 1 <= artifacts[i].attempt <= attempts)
    && (forall i, j | 0 <= i < j < |artifacts| :: artifacts[i].attempt < artifacts[j].attempt)
  }

  /** Some dependency of the task is a task of the same department. */
  predicate HasLocalDependency(c: Config, key: string) {
    match Find(c.assignments, key)
    case None => false
    case Some(a) => exists i :: 0 <= i < |a.dependsOn| && Assigned(c, a.dependsOn[i])
  }

  function Max(a: int, b: int): int {
    if a < b then b else a
  }

  ghost predicate RetriesBounded(maxRetries: int, attempts: nat, artifacts: seq<Artifact>) {
    && (artifacts != [] ==> attempts <= Max(maxRetries, artifacts[0].attempt))
    && (|artifacts| >= 2 ==> artifacts[|artifacts| - 1].attempt <= maxRetries)
  }

  ghost predicate NeverBlocked(decisions: seq<Decision>) {
    forall i | 0 <= i < |decisions| :: decisions[i].outcome != BlockedByDependency
  }

  ghost predicate TaskInv(c: Config, key: string, t: Task) {
    && AttemptsOrdered(t.attempts, t.artifacts)
    && ReviewsGrounded(c, key, t.artifacts, t.reviews)
    && DecisionsGrounded(c, key, t.attempts, t.artifacts, t.reviews, t.decisions)
    && (t.decisions == [] ==> AllByCritic(t.reviews))
    && (NeverBlocked(t.decisions) ==> RetriesBounded(c.maxRetries, t.attempts, t.artifacts))
    && (!HasLocalDependency(c, key) ==> NeverBlocked(t.decisions))
  }

  ghost predicate Inv(c: Config, s: State) {
    forall key {:trigger TaskInv(c, key, TaskOf(s, key))} :: TaskInv(c, key, TaskOf(s, key))
  }

  // ---- acceptance is earned ----

  lemma {:induction false} NoFailures(rules: seq<Rule>, payload: Dict)
    ensures Failures(rules, payload, false) == [] <==> forall i | 0 <= i < |rules| :: Passes(rules[i], payload)
  {
    if rules != [] {
      var n := |rules| - 1;
      NoFailures(rules[..n], payload);
      assert forall i | 0 <= i < |rules| :: i == n || rules[i] == rules[..n][i];
      assert forall i | 0 <= i < n :: rules[..n][i] == rules[i];
    }
  }

  /** A Critic review that makes the Judge accept, or that approves, is about a payload that
      deserves it. */
  lemma AcceptedDeserves(rules: seq<Rule>, payload: Dict, violations: seq<Violation>)
    requires ReviewOf(rules, payload, violations).Success?
    ensures var r := ReviewOf(rules, payload, violations).value;
            && (r.approved ==> Deserves(rules, payload))
            && (Decide(Some(CountsOfReview(r)), []).status == StatusAccepted ==> Deserves(rules, payload))
            && (Decide(Some(CountsOfStored(FromCritic(r, 0))), []).status == StatusAccepted ==> Deserves(rules, payload))
  {
    CountsMeaning(rules, payload, Core);
    ApprovalMeaning(rules, payload, violations);
    NoFailures(rules, payload);
  }

  /** A favourable review of a given artifact is not a made-up one, and the artifact deserves it. */
  lemma FavourableDeserves(c: Config, key: string, r: StoredReview, a: Artifact)
    requires CriticsReview(c, key, r, a) || r == FallbackReview(a)
    requires Favourable(r)
    ensures CriticsReview(c, key, r, a) && Deserves(RulesOf(c, key), a.payload)
  {
    if CriticsReview(c, key, r, a) {
      AcceptedDeserves(RulesOf(c, key), a.payload, a.violations);
    }
  }

  lemma AcceptedIsFavoured(c: Config, key: string, a: Artifact, reviews: seq<StoredReview>, d: Decision)
    requires RestsOn(c, key, a, reviews, d) && d.status == StatusAccepted
    ensures Deserves(RulesOf(c, key), a.payload) && FavouredBy(c, key, a, reviews, d)
  {
    if InlineVerdict(c, key, a, d) {
      AcceptedDeserves(RulesOf(c, key), a.payload, []);
    } else {
      var i :| 0 <= i < |reviews| && StoredVerdict(c, key, a, reviews[i], d);
      FavourableDeserves(c, key, reviews[i], a);
    }
  }

  /** A grounded acceptance is earned. */
  lemma AcceptedIsEarned(c: Config, key: string, attempts: nat, artifacts: seq<Artifact>, reviews: seq<StoredReview>, d: Decision)
    requires DecisionGrounded(c, key, attempts, artifacts, reviews, d) && d.status == StatusAccepted
    ensures Earned(c, key, artifacts, reviews, d)
  {
    var j :| 0 <= j < |artifacts| && artifacts[j].attempt <= d.attempt && RestsOn(c, key, artifacts[j], reviews, d);
    AcceptedIsFavoured(c, key, artifacts[j], reviews, d);
  }

  /** A decision named after the latest attempt and taken on a stored review is founded. */
  lemma StoredFounds(c: Config, key: string, t: Task, i: nat, d: Decision)
    requires AttemptsOrdered(t.attempts, t.artifacts) && i < |t.reviews|
    requires ReviewGrounded(c, key, t.artifacts, t.reviews[i])
    requires t.artifacts != [] && d.attempt == Last(t.artifacts).value.attempt
    requires d.status == Decide(Some(CountsOfStored(t.reviews[i])), []).status
             || (t.reviews[i].approved && d.status == StatusAccepted)
    ensures Founded(c, key, t.attempts, t.artifacts, t.reviews, d)
  {
    var r := t.reviews[i];
    var j :| 0 <= j < |t.artifacts| && t.artifacts[j].attempt == r.attempt
             && (CriticsReview(c, key, r, t.artifacts[j]) || r == FallbackReview(t.artifacts[j]));
    assert StoredVerdict(c, key, t.artifacts[j], r, d);
    assert RestsOn(c, key, t.artifacts[j], t.reviews, d);
  }

  // ---- each way of changing a task keeps its invariant ----

  lemma ReviewsStayGrounded(c: Config, key: string, artifacts: seq<Artifact>, more: seq<Artifact>, reviews: seq<StoredReview>)
    requires artifacts <= more && ReviewsGrounded(c, key, artifacts, reviews)
    ensures ReviewsGrounded(c, key, more, reviews)
  {
    forall i | 0 <= i < |reviews| ensures ReviewGrounded(c, key, more, reviews[i]) {
      assert ReviewGrounded(c, key, artifacts, reviews[i]);
      var r := reviews[i];
      var j :| 0 <= j < |artifacts| && artifacts[j].attempt == r.attempt
               && (CriticsReview(c, key, r, artifacts[j]) || r == FallbackReview(artifacts[j]));
      assert more[j] == artifacts[j];
    }
  }

  lemma StillRestsOn(c: Config, key: string, a: Artifact, reviews: seq<StoredReview>, more: seq<StoredReview>, d: Decision)
    requires reviews <= more && RestsOn(c, key, a, reviews, d)
    ensures RestsOn(c, key, a, more, d)
  {
    if !InlineVerdict(c, key, a, d) {
      var i :| 0 <= i < |reviews| && StoredVerdict(c, key, a, reviews[i], d);
      assert more[i] == reviews[i];
    }
  }

  /** The record `t'` continues `t`: nothing is lost, and new artifacts bear later attempts. */
  ghost predicate Continues(t: Task, t': Task) {
    && t.attempts <= t'.attempts
    && t.artifacts <= t'.artifacts
    && t.reviews <= t'.reviews
    && forall j | |t.artifacts| <= j < |t'.artifacts| :: t.attempts < t'.artifacts[j].attempt
  }

  lemma StillFounded(c: Config, key: string, t: Task, t': Task, d: Decision)
    requires Continues(t, t') && Founded(c, key, t.attempts, t.artifacts, t.reviews, d)
    ensures Founded(c, key, t'.attempts, t'.artifacts, t'.reviews, d)
  {
    if d.outcome == ClosedUnresolved && forall j | 0 <= j < |t.artifacts| :: d.attempt < t.artifacts[j].attempt {
      forall j | 0 <= j < |t'.artifacts| ensures d.attempt < t'.artifacts[j].attempt {
        assert j < |t.artifacts| ==> t'.artifacts[j] == t.artifacts[j];
      }
    } else {
      var j :| 0 <= j < |t.artifacts| && t.artifacts[j].attempt <= d.attempt && RestsOn(c, key, t.artifacts[j], t.reviews, d);
      StillRestsOn(c, key, t.artifacts[j], t.reviews, t'.reviews, d);
      assert t'.artifacts[j] == t.artifacts[j];
    }
  }

  /** Growing histories leave every decision grounded. */
  lemma DecisionsStayGrounded(c: Config, key: string, t: Task, t': Task)
    requires Continues(t, t')
    requires DecisionsGrounded(c, key, t.attempts, t.artifacts, t.reviews, t.decisions)
    ensures DecisionsGrounded(c, key, t'.attempts, t'.artifacts, t'.reviews, t.decisions)
  {
    forall i | 0 <= i < |t.decisions|
      ensures DecisionGrounded(c, key, t'.attempts, t'.artifacts, t'.reviews, t.decisions[i])
    {
      assert DecisionGrounded(c, key, t.attempts, t.artifacts, t.reviews, t.decisions[i]);
      if t.decisions[i].decidedBy != ByRuntime {
        StillFounded(c, key, t, t', t.decisions[i]);
      }
    }
  }

  /** A new attempt is allowed: nothing recorded yet, or the retry budget is not used up. */
  predicate MayAttempt(c: Config, t: Task) {
    t.artifacts == [] || t.attempts < c.maxRetries
  }

  lemma FailedAttemptKeeps(c: Config, key: string, t: Task)
    requires TaskInv(c, key, t)
    requires NeverBlocked(t.decisions) ==> MayAttempt(c, t)
    ensures TaskInv(c, key, t.(attempts := t.attempts + 1))
  {
    DecisionsStayGrounded(c, key, t, t.(attempts := t.attempts + 1));
  }

  lemma ArtifactKeeps(c: Config, key: string, t: Task, a: Artifact)
    requires TaskInv(c, key, t) && a.attempt == t.attempts + 1
    requires NeverBlocked(t.decisions) ==> MayAttempt(c, t)
    ensures TaskInv(c, key, t.(attempts := a.attempt).WithArtifact(a))
  {
    ReviewsStayGrounded(c, key, t.artifacts, t.artifacts + [a], t.reviews);
    DecisionsStayGrounded(c, key, t, t.(attempts := a.attempt).WithArtifact(a));
  }

  lemma ReviewsGrow(c: Config, key: string, artifacts: seq<Artifact>, reviews: seq<StoredReview>, r: StoredReview)
    requires ReviewsGrounded(c, key, artifacts, reviews) && ReviewGrounded(c, key, artifacts, r)
    ensures ReviewsGrounded(c, key, artifacts, reviews + [r])
  {
  }

  lemma ReviewKeeps(c: Config, key: string, t: Task, r: StoredReview)
    requires TaskInv(c, key, t) && ReviewGrounded(c, key, t.artifacts, r)
    requires r.reviewer == CriticReviewer || t.decisions != []
    ensures TaskInv(c, key, t.WithReview(r))
  {
    ReviewsGrow(c, key, t.artifacts, t.reviews, r);
    DecisionsStayGrounded(c, key, t, t.WithReview(r));
  }

  lemma OneMoreDecision(decisions: seq<Decision>, d: Decision)
    ensures NeverBlocked(decisions + [d]) <==> NeverBlocked(decisions) && d.outcome != BlockedByDependency
  {
    var more := decisions + [d];
    assert more[|decisions|] == d;
    assert forall i | 0 <= i < |decisions| :: more[i] == decisions[i];
  }

  lemma DecisionKeeps(c: Config, key: string, t: Task, d: Decision)
    requires TaskInv(c, key, t) && DecisionGrounded(c, key, t.attempts, t.artifacts, t.reviews, d)
    requires !HasLocalDependency(c, key) ==> d.outcome != BlockedByDependency
    ensures TaskInv(c, key, t.WithDecision(d))
  {
    OneMoreDecision(t.decisions, d);
  }

  /** A decision the Judge takes on a stored review. */
  lemma JudgedKeeps(c: Config, key: string, t: Task, attempt: nat)
    requires TaskInv(c, key, t) && t.reviews != []
    requires t.artifacts != [] && attempt == Last(t.artifacts).value.attempt
    ensures TaskInv(c, key, t.WithDecision(FromJudge(Decide(Some(CountsOfStored(Last(t.reviews).value)), []), attempt)))
  {
    var n := |t.reviews| - 1;
    var v := Decide(Some(CountsOfStored(t.reviews[n])), []);
    DecideMeaning(Some(CountsOfStored(t.reviews[n])), []);
    StoredFounds(c, key, t, n, FromJudge(v, attempt));
    DecisionKeeps(c, key, t, FromJudge(v, attempt));
  }

  /** The fallback review and the decision recorded right after it. */
  lemma UnreviewedJudgedKeeps(c: Config, key: string, t: Task, a: Artifact)
    requires TaskInv(c, key, t) && t.LatestArtifact() == Some(a)
    ensures var r := FallbackReview(a);
            TaskInv(c, key, t.WithReview(r).WithDecision(FromJudge(Decide(Some(CountsOfStored(r)), []), a.attempt)))
  {
    var r := FallbackReview(a);
    var t1 := t.WithReview(r);
    var d := FromJudge(Decide(Some(CountsOfStored(r)), []), a.attempt);
    assert t.artifacts[|t.artifacts| - 1] == a;
    assert ReviewGrounded(c, key, t.artifacts, r);
    ReviewsGrow(c, key, t.artifacts, t.reviews, r);
    DecisionsStayGrounded(c, key, t, t1);
    StoredFounds(c, key, t1, |t.reviews|, d);
    OneMoreDecision(t.decisions, d);
  }

  // ---- each tool keeps the invariant ----

  lemma SetTaskKeeps(c: Config, s: State, key: string, t: Task)
    requires Inv(c, s) && TaskInv(c, key, t)
    ensures Inv(c, SetTask(s, key, t))
  {
    forall k ensures TaskInv(c, k, TaskOf(SetTask(s, key, t), k)) {
      assert TaskOf(SetTask(s, key, t), k) == if k == key then t else TaskOf(s, k);
    }
  }

  lemma SameTasks(c: Config, s: State, s': State)
    requires Inv(c, s) && s'.tasks == s.tasks
    ensures Inv(c, s')
  {
    forall k ensures TaskInv(c, k, TaskOf(s', k)) {
      assert TaskOf(s', k) == TaskOf(s, k);
    }
  }

  lemma ExecutedTaskKeeps(c: Config, s: State, key: string, w: WorkerResult)
    requires TaskInv(c, key, TaskOf(s, key))
    requires NeverBlocked(TaskOf(s, key).decisions) ==> MayAttempt(c, TaskOf(s, key))
    ensures var s' := Execute(s, key, w).0;
            TaskInv(c, key, TaskOf(s', key)) && s'.tasks == s.tasks[key := TaskOf(s', key)]
  {
    var t := TaskOf(s, key);
    if w.Raised? {
      FailedAttemptKeeps(c, key, t);
    } else {
      ArtifactKeeps(c, key, t, ArtifactOf(w, t.attempts + 1));
    }
  }

  lemma ExecuteKeeps(c: Config, s: State, key: string, w: WorkerResult)
    requires Inv(c, s)
    requires NeverBlocked(TaskOf(s, key).decisions) ==> MayAttempt(c, TaskOf(s, key))
    ensures Inv(c, Execute(s, key, w).0)
  {
    assert TaskInv(c, key, TaskOf(s, key));
    ExecutedTaskKeeps(c, s, key, w);
    var s' := Execute(s, key, w).0;
    SetTaskKeeps(c, s, key, TaskOf(s', key));
    SameTasks(c, SetTask(s, key, TaskOf(s', key)), s');
  }

  lemma {:induction false} UnmetIsLocal(c: Config, s: State, deps: seq<string>)
    requires FirstUnmet(c, s, deps).Some?
    ensures exists i :: 0 <= i < |deps| && deps[i] == FirstUnmet(c, s, deps).value && Unmet(c, s, deps[i])
  {
    if !Unmet(c, s, deps[0]) {
      UnmetIsLocal(c, s, deps[1..]);
      var i :| 0 <= i < |deps[1..]| && deps[1..][i] == FirstUnmet(c, s, deps).value && Unmet(c, s, deps[1..][i]);
      assert deps[i + 1] == deps[1..][i];
    }
  }

  lemma BlockedTaskKeeps(c: Config, key: string, t: Task, a: Artifact)
    requires TaskInv(c, key, t) && HasLocalDependency(c, key) && a.attempt == t.attempts + 1
    ensures TaskInv(c, key, t.(attempts := a.attempt).WithArtifact(a).WithDecision(BlockedDecision(a.attempt)))
  {
    var d := BlockedDecision(a.attempt);
    if t.artifacts == [] {
      ArtifactKeeps(c, key, t, a);
      DecisionKeeps(c, key, t.(attempts := a.attempt).WithArtifact(a), d);
    } else {
      DecisionKeeps(c, key, t, d);
      assert t.WithDecision(d).decisions[|t.decisions|] == d;
      ArtifactKeeps(c, key, t.WithDecision(d), a);
      assert t.(attempts := a.attempt).WithArtifact(a).WithDecision(d)
          == t.WithDecision(d).(attempts := a.attempt).WithArtifact(a);
    }
  }

  lemma BlockKeeps(c: Config, s: State, key: string, dep: string)
    requires Inv(c, s) && HasLocalDependency(c, key)
    ensures Inv(c, Block(s, key, dep))
  {
    var t := TaskOf(s, key);
    assert TaskInv(c, key, t);
    BlockedTaskKeeps(c, key, t, BlockedArtifact(t.attempts + 1, dep));
    SetTaskKeeps(c, s, key, TaskOf(Block(s, key, dep), key));
  }

  lemma ResearchKeeps(c: Config, s: State, key: string, w: WorkerResult)
    requires Inv(c, s)
    ensures Inv(c, ResearchStep(c, s, key, w).0)
  {
    var t := TaskOf(s, key);
    assert TaskInv(c, key, t);
    var found := Find(c.assignments, key);
    if found.Some? {
      var unmet := FirstUnmet(c, s, found.value.dependsOn);
      if unmet.Some? {
        UnmetIsLocal(c, s, found.value.dependsOn);
        BlockKeeps(c, s, key, unmet.value);
      } else if ResearchStep(c, s, key, w) == Execute(s, key, w) {
        assert t.decisions != [] ==> t.LatestDecision() == Some(t.decisions[|t.decisions| - 1]);
        ExecuteKeeps(c, s, key, w);
      } else if ResearchStep(c, s, key, w).1.RetryLimitReached? {
        var d := RetryLimitDecision(t.attempts, t.LatestReview().value);
        DecisionKeeps(c, key, t, d);
        SetTaskKeeps(c, s, key, t.WithDecision(d));
      }
    }
  }

  lemma ReviewStepKeeps(c: Config, s: State, key: string)
    requires Inv(c, s)
    ensures Inv(c, ReviewStep(c, s, key).0)
  {
    var t := TaskOf(s, key);
    var s' := ReviewStep(c, s, key).0;
    if s'.tasks == s.tasks {
      SameTasks(c, s, s');
    } else {
      var a := t.artifacts[|t.artifacts| - 1];
      var r := FromCritic(ReviewOf(RulesOf(c, key), a.payload, a.violations).value, a.attempt);
      assert CriticsReview(c, key, r, a);
      ReviewKeeps(c, key, t, r);
      SetTaskKeeps(c, s, key, t.WithReview(r));
    }
  }

  lemma JudgedTaskKeeps(c: Config, s: State, key: string)
    requires TaskInv(c, key, TaskOf(s, key)) && Find(c.assignments, key).Some?
    ensures TaskInv(c, key, TaskOf(JudgeStep(c, s, key).0, key))
    ensures JudgeStep(c, s, key).0 == SetTask(s, key, TaskOf(JudgeStep(c, s, key).0, key))
  {
    var t := TaskOf(s, key);
    if t.artifacts == [] {
      DecisionKeeps(c, key, t, FromJudge(NO_ARTIFACT_VERDICT, t.attempts));
    } else {
      var a := t.artifacts[|t.artifacts| - 1];
      if t.reviews == [] {
        UnreviewedJudgedKeeps(c, key, t, a);
      } else {
        JudgedKeeps(c, key, t, a.attempt);
      }
    }
  }

  lemma JudgeStepKeeps(c: Config, s: State, key: string)
    requires Inv(c, s)
    ensures Inv(c, JudgeStep(c, s, key).0)
  {
    if Find(c.assignments, key).Some? {
      assert TaskInv(c, key, TaskOf(s, key));
      JudgedTaskKeeps(c, s, key);
      SetTaskKeeps(c, s, key, TaskOf(JudgeStep(c, s, key).0, key));
    }
  }

  /** The Lead's implicit acceptance of an approved review. */
  lemma LeadAcceptedKeeps(c: Config, key: string, t: Task, attempt: nat)
    requires TaskInv(c, key, t) && t.reviews != [] && Last(t.reviews).value.approved
    requires t.artifacts != [] && attempt == Last(t.artifacts).value.attempt
    ensures TaskInv(c, key, t.WithDecision(LeadAccepted(attempt, Last(t.reviews).value)))
  {
    var n := |t.reviews| - 1;
    var d := LeadAccepted(attempt, t.reviews[n]);
    StoredFounds(c, key, t, n, d);
    DecisionKeeps(c, key, t, d);
  }

  /** Critic and Judge run inline on an unreviewed artifact. */
  lemma InlineJudgedKeeps(c: Config, key: string, t: Task, a: Artifact)
    requires TaskInv(c, key, t) && a in t.artifacts
    requires ReviewOf(RulesOf(c, key), a.payload, []).Success?
    ensures var r := ReviewOf(RulesOf(c, key), a.payload, []).value;
            TaskInv(c, key, t.WithDecision(FromJudge(Decide(Some(CountsOfReview(r)), []), a.attempt)))
  {
    var r := ReviewOf(RulesOf(c, key), a.payload, []).value;
    var v := Decide(Some(CountsOfReview(r)), []);
    var d := FromJudge(v, a.attempt);
    DecideMeaning(Some(CountsOfReview(r)), []);
    assert RestsOn(c, key, a, t.reviews, d);
    DecisionKeeps(c, key, t, d);
  }

  lemma SettleKeeps(c: Config, key: string, t: Task)
    requires TaskInv(c, key, t) && Settle(c, key, t).Success?
    ensures TaskInv(c, key, Settle(c, key, t).value.0)
  {
    if t.artifacts != [] && t.decisions == [] {
      var a := t.artifacts[|t.artifacts| - 1];
      if t.reviews == [] {
        InlineJudgedKeeps(c, key, t, a);
      } else if Last(t.reviews).value.approved && !a.needsContractReview {
        LeadAcceptedKeeps(c, key, t, a.attempt);
      } else {
        JudgedKeeps(c, key, t, a.attempt);
      }
    }
  }

  lemma {:induction false} SettleAllKeeps(c: Config, s: State, assignments: seq<Assignment>)
    requires Inv(c, s)
    ensures Inv(c, SettleAll(c, s, assignments).0)
  {
    if assignments != [] {
      var init, key := assignments[..|assignments| - 1], assignments[|assignments| - 1].key;
      SettleAllKeeps(c, s, init);
      var (s1, done) := SettleAll(c, s, init);
      if done.Success? && Settle(c, key, TaskOf(s1, key)).Success? {
        SettleKeeps(c, key, TaskOf(s1, key));
        SetTaskKeeps(c, s1, key, Settle(c, key, TaskOf(s1, key)).value.0);
      }
    }
  }

  lemma FinalizeKeeps(c: Config, s: State, w: WorkerResult)
    requires Inv(c, s)
    ensures Inv(c, FinalizeStep(c, s, w).0)
  {
    var incomplete := Incomplete(s, c.assignments);
    if incomplete == [] {
      SettleAllKeeps(c, s, c.assignments);
      SameTasks(c, SettleAll(c, s, c.assignments).0, FinalizeStep(c, s, w).0);
    } else {
      var s1 := s.(blockedFinalize := s.blockedFinalize + 1);
      SameTasks(c, s, s1);
      ResearchKeeps(c, s1, incomplete[0], w);
    }
  }

  lemma StepKeeps(c: Config, s: State, a: Action)
    requires Inv(c, s)
    ensures Inv(c, Step(c, s, a).0)
  {
    match a
    case Research(key, w) => ResearchKeeps(c, s, key, w);
    case ReviewTask(key) => ReviewStepKeeps(c, s, key);
    case Suggest(key, queries) => SameTasks(c, s, SuggestStep(c, s, key, queries).0);
    case JudgeTask(key) => JudgeStepKeeps(c, s, key);
    case Finalize(w) => FinalizeKeeps(c, s, w);
  }

  lemma {:induction false} RunKeeps(c: Config, s: State, actions: seq<Action>)
    requires Inv(c, s)
    ensures Inv(c, Run(c, s, actions))
    decreases |actions|
  {
    if actions != [] {
      StepKeeps(c, s, actions[0]);
      RunKeeps(c, Step(c, s, actions[0]).0, actions[1..]);
    }
  }

  /** The state of a department after any run from the start. */
  function Reached(c: Config, payload: Dict, actions: seq<Action>): State {
    Run(c, InitialState(payload), actions)
  }

  lemma ReachedInv(c: Config, payload: Dict, actions: seq<Action>)
    ensures Inv(c, Reached(c, payload, actions))
  {
    RunKeeps(c, InitialState(payload), actions);
  }

  // ---- main results over all runs ----

  /** No order of tool calls, worker failures or premature judgements yields an acceptance that
      was not earned: one of the task's own artifacts, recorded no later than the attempt the
      decision names, deserves it, and it rests on a favourable review of that artifact, stored
      by the Critic or made inline. And every decision has one of three statuses. */
  lemma AcceptanceIsEarned(c: Config, payload: Dict, actions: seq<Action>, key: string)
    ensures var t := TaskOf(Reached(c, payload, actions), key);
            forall i | 0 <= i < |t.decisions| ::
              && t.decisions[i].status in {StatusAccepted, StatusDegraded, StatusBlocked}
              && (t.decisions[i].status == StatusAccepted ==>
                    exists j :: 0 <= j < |t.artifacts| && t.artifacts[j].attempt <= t.decisions[i].attempt
                                && Deserves(RulesOf(c, key), t.artifacts[j].payload)
                                && FavouredBy(c, key, t.artifacts[j], t.reviews, t.decisions[i]))
  {
    ReachedInv(c, payload, actions);
    var t := TaskOf(Reached(c, payload, actions), key);
    assert TaskInv(c, key, t);
    forall i | 0 <= i < |t.decisions|
      ensures t.decisions[i].status == StatusOf(t.decisions[i].outcome)
      ensures t.decisions[i].status == StatusAccepted ==> Earned(c, key, t.artifacts, t.reviews, t.decisions[i])
    {
      assert DecisionGrounded(c, key, t.attempts, t.artifacts, t.reviews, t.decisions[i]);
      if t.decisions[i].status == StatusAccepted {
        AcceptedIsEarned(c, key, t.attempts, t.artifacts, t.reviews, t.decisions[i]);
      }
    }
  }

  lemma NoReviewWithoutArtifact(c: Config, key: string, reviews: seq<StoredReview>)
    requires ReviewsGrounded(c, key, [], reviews)
    ensures reviews == []
  {
    assert Last(reviews).Some? ==> ReviewGrounded(c, key, [], Last(reviews).value);
  }

  /** A decision on a task that has no artifact is always a degraded one. */
  lemma NoArtifactNoAcceptance(c: Config, payload: Dict, actions: seq<Action>, key: string)
    requires TaskOf(Reached(c, payload, actions), key).artifacts == []
    ensures var t := TaskOf(Reached(c, payload, actions), key);
            && t.reviews == []
            && forall i | 0 <= i < |t.decisions| :: t.decisions[i].status == StatusDegraded
  {
    ReachedInv(c, payload, actions);
    var t := TaskOf(Reached(c, payload, actions), key);
    assert TaskInv(c, key, t);
    NoReviewWithoutArtifact(c, key, t.reviews);
    assert forall i | 0 <= i < |t.decisions| :: DecisionGrounded(c, key, t.attempts, t.artifacts, t.reviews, t.decisions[i]);
  }

  /** At least as many attempts as artifacts, because attempt numbers strictly increase. */
  lemma {:induction false} AttemptAtLeastIndex(t: Task, i: nat)
    requires AttemptsOrdered(t.attempts, t.artifacts) && i < |t.artifacts|
    ensures t.artifacts[i].attempt >= i + 1
  {
    if i > 0 {
      AttemptAtLeastIndex(t, i - 1);
    }
  }

  /** The retry bound of a task that was never recorded as blocked: over any run, at most
      max(1, retries) artifacts, and from the first artifact on the attempt counter stays
      below max(retries, attempt of that first artifact). */
  lemma RetryBound(c: Config, payload: Dict, actions: seq<Action>, key: string)
    requires NeverBlocked(TaskOf(Reached(c, payload, actions), key).decisions)
    ensures var t := TaskOf(Reached(c, payload, actions), key);
            && |t.artifacts| <= Max(1, c.maxRetries)
            && (t.artifacts != [] ==> t.attempts <= Max(c.maxRetries, t.artifacts[0].attempt))
  {
    ReachedInv(c, payload, actions);
    var t := TaskOf(Reached(c, payload, actions), key);
    assert TaskInv(c, key, t);
    if |t.artifacts| >= 2 {
      AttemptAtLeastIndex(t, |t.artifacts| - 1);
    }
  }

  /** A task without a dependency inside its department never is. */
  lemma IndependentIsNeverBlocked(c: Config, payload: Dict, actions: seq<Action>, key: string)
    requires !HasLocalDependency(c, key)
    ensures NeverBlocked(TaskOf(Reached(c, payload, actions), key).decisions)
  {
    ReachedInv(c, payload, actions);
    assert TaskInv(c, key, TaskOf(Reached(c, payload, actions), key));
  }

  /** For every task, recorded attempt numbers start at one or later, strictly increase and
      never pass the attempt counter. */
  lemma AttemptsIncrease(c: Config, payload: Dict, actions: seq<Action>, key: string)
    ensures var t := TaskOf(Reached(c, payload, actions), key);
            && (forall i | 0 <= i < |t.artifacts| :: 1 <= t.artifacts[i].attempt <= t.attempts)
            && (forall i, j | 0 <= i < j < |t.artifacts| :: t.artifacts[i].attempt < t.artifacts[j].attempt)
  {
    ReachedInv(c, payload, actions);
    assert TaskInv(c, key, TaskOf(Reached(c, payload, actions), key));
  }

  lemma ResearchGuards(c: Config, s: State, key: string, w: WorkerResult, field: string)
    requires field in s.payload && field != "sources" && !DefaultValue(s.payload[field])
    ensures var after := ResearchStep(c, s, key, w).0.payload;
            && field in after
            && (after[field] != s.payload[field] ==>
                  w.Report? && field in w.payload && after[field] == w.payload[field])
  {
  }

  lemma {:induction false} SettleAllSamePayload(c: Config, s: State, assignments: seq<Assignment>)
    ensures SettleAll(c, s, assignments).0.payload == s.payload
  {
    if assignments != [] {
      SettleAllSamePayload(c, s, assignments[..|assignments| - 1]);
    }
  }

  /** The two fields finalizing may write. */
  predicate CompletedField(field: string) {
    field == "goods_classification" || field == "product_asset_scope"
  }

  /** Completing the payload removes no field, adds or changes at most those two, never touches
      a scope that is set, and does nothing at all outside the company department. */
  lemma CompletionKeeps(c: Config, payload: Dict, field: string)
    ensures var after := Completed(c, payload);
            && (field in payload ==> field in after)
            && (Get(after, field) != Get(payload, field) || (field in after && field !in payload) ==>
                  && CompletedField(field)
                  && c.classifyGoods.Some?
                  && (field == "product_asset_scope" ==> !Truthy(Get(payload, field))))
  {
  }

  lemma FinalizeGuards(c: Config, s: State, w: WorkerResult, field: string)
    requires field in s.payload && field != "sources" && !DefaultValue(s.payload[field])
    ensures var after := FinalizeStep(c, s, w).0.payload;
            && field in after
            && (after[field] != s.payload[field] ==>
                  || CompletedField(field)
                  || (w.Report? && field in w.payload && after[field] == w.payload[field]))
  {
    var incomplete := Incomplete(s, c.assignments);
    if incomplete == [] {
      SettleAllSamePayload(c, s, c.assignments);
      CompletionKeeps(c, s.payload, field);
    } else {
      ResearchGuards(c, s.(blockedFinalize := s.blockedFinalize + 1), incomplete[0], w, field);
    }
  }

  /** The payload-loss guard, call by call: no tool call drops a field with a non-default value;
      it keeps its value unless the worker of that call reports another one, or finalizing
      writes one of the two fields it completes. */
  lemma FieldsSurvive(c: Config, s: State, a: Action, field: string)
    requires field in s.payload && field != "sources" && !DefaultValue(s.payload[field])
    ensures var after := Step(c, s, a).0.payload;
            && field in after
            && (after[field] != s.payload[field] ==>
                  || (a.Finalize? && CompletedField(field))
                  || ((a.Research? || a.Finalize?) && a.worker.Report? && field in a.worker.payload
                      && after[field] == a.worker.payload[field]))
  {
    match a
    case Finalize(w) => FinalizeGuards(c, s, w, field);
    case Research(key, w) => ResearchGuards(c, s, key, w, field);
    case _ =>
  }

  /** After a research call that completes, a field holds what the worker reported, or else what
      it held before unless that was a default; a field in neither is absent. */
  lemma ReportedFieldsWin(c: Config, s: State, key: string, w: WorkerResult, field: string)
    requires ResearchStep(c, s, key, w).1.ResearchComplete?
    ensures var after := ResearchStep(c, s, key, w).0.payload;
            && w.Report?
            && (field in w.payload ==> field in after && after[field] == w.payload[field])
            && (field !in w.payload ==>
                  (field in after <==> field in s.payload && field != "sources" && !DefaultValue(s.payload[field])))
            && (field !in w.payload && field in after ==> after[field] == s.payload[field])
  {
    assert ResearchStep(c, s, key, w) == Execute(s, key, w);
  }
}
