/** The Judge: a deterministic quality gate over the Critic's class-aware counts. */
module Judge {
  import opened JsonModel
  import opened Critic

  datatype Outcome = Accepted | AcceptedWithGaps | ClosedUnresolved | BlockedByDependency

  /** The task statuses any layer of the pipeline knows. */
  datatype Status = StatusAccepted | StatusDegraded | StatusBlocked | StatusSkipped | StatusPending | StatusRejected

  datatype Confidence = Low | Medium | High

  datatype Verdict = Verdict(outcome: Outcome, status: Status, confidence: Confidence, openQuestions: seq<Note>)

  /** The entries of a review dictionary the Judge reads. */
  datatype Counts = Counts(
    corePassed: nat, coreTotal: nat, supportingPassed: nat, supportingTotal: nat,
    issues: seq<Note>, failedMessages: seq<Note>)

  function FirstFive(xs: seq<Note>): seq<Note> {
    if |xs| <= 5 then xs else xs[..5]
  }

  const NO_ISSUES := Verdict(Accepted, StatusAccepted, Medium, [])

  /** `JudgeAgent.decide`; the second argument is the legacy issue list used without a review. */
  function Decide(review: Option<Counts>, criticIssues: seq<Note>): Verdict {
    match review
    case None =>
      if criticIssues == [] then NO_ISSUES
      else Verdict(AcceptedWithGaps, StatusDegraded, Low, FirstFive(criticIssues))
    case Some(c) =>
      if c.coreTotal == 0 then
        if c.issues == [] then NO_ISSUES
        else Verdict(AcceptedWithGaps, StatusDegraded, Low, FirstFive(c.failedMessages))
      else if c.corePassed == 0 then
        Verdict(ClosedUnresolved, StatusDegraded, Low, FirstFive(c.failedMessages))
      else if c.corePassed < c.coreTotal then
        Verdict(AcceptedWithGaps, StatusDegraded, Low, FirstFive(c.failedMessages))
      else if c.supportingTotal > 0 && c.supportingPassed == 0 then
        Verdict(Accepted, StatusAccepted, Medium, [])
      else
        Verdict(Accepted, StatusAccepted, if c.supportingPassed > 0 then High else Medium, [])
  }

  /** The lifecycle status that belongs to an outcome. */
  function StatusOf(outcome: Outcome): Status {
    match outcome
    case Accepted => StatusAccepted
    case AcceptedWithGaps => StatusDegraded
    case ClosedUnresolved => StatusDegraded
    case BlockedByDependency => StatusBlocked
  }

  /** The gate in one line: with core rules, accepted exactly when all of them passed; without,
      exactly when there are no issues; closed unresolved exactly when no core rule passed. The
      Judge never blocks and never rejects, its status always matches its outcome, it is
      confident only about what it accepts, and what it does not accept it explains with the
      first five failure messages. */
  lemma DecideMeaning(review: Option<Counts>, criticIssues: seq<Note>)
    ensures var v := Decide(review, criticIssues);
            && v.status == StatusOf(v.outcome)
            && v.outcome != BlockedByDependency
            && (v.status == StatusAccepted <==>
                  match review
                  case None => criticIssues == []
                  case Some(c) => if c.coreTotal == 0 then c.issues == [] else c.corePassed >= c.coreTotal)
            && (v.confidence == Low <==> v.status == StatusDegraded)
            && (v.outcome == ClosedUnresolved <==>
                  review.Some? && review.value.coreTotal > 0 && review.value.corePassed == 0)
            && (v.status == StatusAccepted ==> v.openQuestions == [])
            && (v.status != StatusAccepted ==>
                  var messages := if review.Some? then review.value.failedMessages else criticIssues;
                  v.openQuestions <= messages && |v.openQuestions| == if |messages| < 5 then |messages| else 5)
            && (v.confidence == High <==>
                  review.Some? && review.value.coreTotal > 0 && v.status == StatusAccepted
                  && review.value.supportingPassed > 0)
  {
  }

  function OutcomeRank(o: Outcome): nat {
    match o
    case BlockedByDependency => 0
    case ClosedUnresolved => 1
    case AcceptedWithGaps => 2
    case Accepted => 3
  }

  function ConfidenceRank(c: Confidence): nat {
    match c case Low => 0 case Medium => 1 case High => 2
  }
}
