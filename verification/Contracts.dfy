/** The runtime records of one department run: artifacts, reviews and decisions per task. */
module Contracts {
  import opened JsonModel
  import opened Critic
  import opened Judge

  datatype Artifact = Artifact(
    attempt: nat,
    facts: seq<string>,
    payload: Dict,
    sources: seq<Json>,
    openQuestions: seq<Note>,
    violations: seq<Violation>,
    needsContractReview: bool)

  datatype Reviewer = CriticReviewer | RuntimeFallback

  datatype StoredReview = StoredReview(
    attempt: nat,
    approved: bool,
    reviewer: Reviewer,
    corePassed: nat,
    coreTotal: nat,
    supportingPassed: nat,
    supportingTotal: nat,
    acceptedPoints: seq<Note>,
    rejectedPoints: seq<Note>,
    missingPoints: seq<Note>,
    issues: seq<Note>)

  datatype DecidedBy = ByLead | ByJudge | ByRuntime

  datatype Decision = Decision(
    attempt: nat,
    outcome: Outcome,
    status: Status,
    decidedBy: DecidedBy,
    confidence: Confidence,
    openQuestions: seq<Note>)

  /** `TaskReviewArtifact.from_critic_review`. */
  function FromCritic(r: Review, attempt: nat): StoredReview {
    StoredReview(attempt, r.approved, CriticReviewer,
                 r.corePassed, r.coreTotal, r.supportingPassed, r.supportingTotal,
                 r.acceptedPoints, r.rejectedPoints, r.missingPoints, r.issues)
  }

  /** The review `judge_decision` makes up when the Critic never ran. */
  function FallbackReview(a: Artifact): StoredReview {
    StoredReview(a.attempt, false, RuntimeFallback, 0, 0, 0, 0, [], [], a.openQuestions, [NoCriticReview])
  }

  /** What the Judge reads from a stored review. The stored form has no failed-rule messages. */
  function CountsOfStored(r: StoredReview): Counts {
    Counts(r.corePassed, r.coreTotal, r.supportingPassed, r.supportingTotal, r.issues, [])
  }

  function CountsOfReview(r: Review): Counts {
    Counts(r.corePassed, r.coreTotal, r.supportingPassed, r.supportingTotal, r.issues, r.failedRuleMessages)
  }

  function FromJudge(v: Verdict, attempt: nat): Decision {
    Decision(attempt, v.outcome, v.status, ByJudge, v.confidence, v.openQuestions)
  }

  function LeadAccepted(attempt: nat, r: StoredReview): Decision {
    Decision(attempt, Accepted, StatusAccepted, ByLead,
             if r.corePassed == r.coreTotal then High else Medium, [])
  }

  function BlockedArtifact(attempt: nat, dep: string): Artifact {
    Artifact(attempt, [], map[], [], [DependencyMissing(dep)], [], false)
  }

  function BlockedDecision(attempt: nat): Decision {
    Decision(attempt, BlockedByDependency, StatusBlocked, ByRuntime, Medium, [])
  }

  /** The decision recorded when a retry is refused. */
  function RetryLimitDecision(attempt: nat, r: StoredReview): Decision {
    Decision(attempt, ClosedUnresolved, StatusDegraded, ByRuntime, Low,
             if r.missingPoints != [] then r.missingPoints
             else if r.issues != [] then r.issues
             else r.rejectedPoints)
  }

  const NO_ARTIFACT_VERDICT :=
    Verdict(ClosedUnresolved, StatusDegraded, Low, [NoArtifactYet])

  function Last<T>(xs: seq<T>): Option<T> {
    if xs == [] then None else Some(xs[|xs| - 1])
  }

  /** Everything a run records about one task. All histories only grow. */
  datatype Task = Task(
    attempts: nat,
    artifacts: seq<Artifact>,
    reviews: seq<StoredReview>,
    decisions: seq<Decision>)
  {
    function LatestArtifact(): Option<Artifact> { Last(artifacts) }
    function LatestReview(): Option<StoredReview> { Last(reviews) }
    function LatestDecision(): Option<Decision> { Last(decisions) }

    /** `DepartmentRunState.is_dependency_satisfied`: an explicit decision settles it;
        failing that an approved review; failing that an artifact with facts. */
    predicate SatisfiesDependents() {
      match LatestDecision()
      case Some(d) => d.outcome == Accepted || d.outcome == AcceptedWithGaps
      case None =>
        || (LatestReview().Some? && LatestReview().value.approved)
        || (LatestArtifact().Some? && LatestArtifact().value.facts != [])
    }

    function WithArtifact(a: Artifact): Task { this.(artifacts := artifacts + [a]) }
    function WithReview(r: StoredReview): Task { this.(reviews := reviews + [r]) }
    function WithDecision(d: Decision): Task { this.(decisions := decisions + [d]) }
  }

  const NEW_TASK := Task(0, [], [], [])
}
