/** The department Lead's five tools as a state machine. The language model that picks the
    next tool is an arbitrary sequence of calls; the worker is an arbitrary report or failure. */
module Lead {
  import opened JsonModel
  import opened Critic
  import opened Judge
  import opened Contracts
  import PolicyGate

  datatype Assignment = Assignment(key: string, dependsOn: seq<string>)

  /** `classifyGoods` is the keyword classification only the company department applies, and
      `pendingScope` the placeholder list written from the known products. */
  datatype Config = Config(
    assignments: seq<Assignment>,
    rules: map<string, seq<Rule>>,
    maxRetries: int,
    policy: PolicyGate.Policy,
    classifyGoods: Option<Dict -> string>,
    pendingScope: Json -> Json)

  datatype Tool = RunResearchTool | ReviewTool | SuggestTool

  datatype State = State(
    tasks: map<string, Task>,
    payload: Dict,
    overrides: map<string, seq<string>>,
    blockedFinalize: nat,
    toolErrors: seq<(Tool, string)>)

  datatype WorkerResult =
    | Raised
    | Report(facts: seq<string>, payload: Dict, sources: seq<Json>, openQuestions: seq<Note>, violations: seq<Violation>)

  /** One task's line in a package, with the sources it contributes. */
  datatype Entry = Entry(key: string, status: Status, acceptedPoints: seq<Note>, sources: seq<Json>)

  /** A finalized package carries the policy gate; a fallback package does not. */
  datatype Package = Package(
    entries: seq<Entry>, confidence: Confidence, payload: Dict, gate: Option<PolicyGate.Gate>)

  datatype Reply =
    | UnknownTask
    | BlockedBy(dep: string)
    | StillBlocked
    | RetryLimitReached
    | AlreadyCompleted
    | ToolFailed
    | ResearchComplete(attempt: nat)
    | NoResearchYet
    | Reviewed(review: StoredReview)
    | Suggested
    | Judged(verdict: Verdict)
    | FinalizeBlocked(incomplete: seq<string>)
    | AutoRecovered(key: string, remaining: seq<string>)
    | PackageReady(package: Package)

  const AUTO_RECOVER_AFTER := 2

  function InitialState(payload: Dict): State {
    State(map[], payload, map[], 0, [])
  }

  function TaskOf(s: State, key: string): Task {
    if key in s.tasks then s.tasks[key] else NEW_TASK
  }

  function SetTask(s: State, key: string, t: Task): State {
    s.(tasks := s.tasks[key := t])
  }

  function RulesOf(c: Config, key: string): seq<Rule> {
    if key in c.rules then c.rules[key] else []
  }

  /** The first assignment with this key. */
  function Find(assignments: seq<Assignment>, key: string): Option<Assignment> {
    if assignments == [] then None
    else if assignments[0].key == key then Some(assignments[0])
    else Find(assignments[1..], key)
  }

  predicate Assigned(c: Config, key: string) {
    exists i :: 0 <= i < |c.assignments| && c.assignments[i].key == key
  }

  lemma {:induction false} FindMeaning(assignments: seq<Assignment>, key: string)
    ensures Find(assignments, key).Some? <==> exists i :: 0 <= i < |assignments| && assignments[i].key == key
    ensures Find(assignments, key).Some? ==>
              Find(assignments, key).value in assignments && Find(assignments, key).value.key == key
  {
    if assignments != [] {
      FindMeaning(assignments[1..], key);
      assert forall i | 1 <= i < |assignments| :: assignments[i] == assignments[1..][i - 1];
      assert forall i | 0 <= i < |assignments| - 1 :: assignments[1..][i] == assignments[i + 1];
    }
  }

  // ---- run_research ----

  /** This dependency is local to the department and not satisfied yet. */
  predicate Unmet(c: Config, s: State, dep: string) {
    Assigned(c, dep) && !TaskOf(s, dep).SatisfiesDependents()
  }

  function FirstUnmet(c: Config, s: State, deps: seq<string>): Option<string> {
    if deps == [] then None
    else if Unmet(c, s, deps[0]) then Some(deps[0])
    else FirstUnmet(c, s, deps[1..])
  }

  /** All dependencies, including those of other departments. */
  predicate AllSatisfied(s: State, deps: seq<string>) {
    forall i | 0 <= i < |deps| :: TaskOf(s, deps[i]).SatisfiesDependents()
  }

  predicate DefaultValue(v: Json) {
    v == Null || v == Str("") || v == Str("n/v") || v == Arr([])
  }

  /** The payload-loss guard: fields the worker left out keep their non-default value. */
  function Guarded(previous: Dict, reported: Dict): Dict {
    map key | key in previous.Keys + reported.Keys
              && (key in reported || (key != "sources" && !DefaultValue(previous[key]))) ::
      if key in reported then reported[key] else previous[key]
  }

  predicate AllHigh(violations: seq<Violation>) {
    forall i | 0 <= i < |violations| :: violations[i].severity == HighSeverity
  }

  function ArtifactOf(report: WorkerResult, attempt: nat): Artifact
    requires report.Report?
  {
    Artifact(attempt, report.facts, report.payload, report.sources, report.openQuestions, report.violations,
             report.violations != [] && AllHigh(report.violations))
  }

  /** The worker call at the end of `run_research`. */
  function Execute(s: State, key: string, w: WorkerResult): (State, Reply) {
    var t := TaskOf(s, key);
    var attempt := t.attempts + 1;
    var started := t.(attempts := attempt);
    match w
    case Raised =>
      (SetTask(s, key, started).(toolErrors := s.toolErrors + [(RunResearchTool, key)]), ToolFailed)
    case Report(_, payload, _, _, _) =>
      (SetTask(s, key, started.WithArtifact(ArtifactOf(w, attempt))).(payload := Guarded(s.payload, payload)),
       ResearchComplete(attempt))
  }

  /** Recording that a dependency is missing. */
  function Block(s: State, key: string, dep: string): State {
    var t := TaskOf(s, key);
    var attempt := t.attempts + 1;
    SetTask(s, key, t.(attempts := attempt)
                    .WithArtifact(BlockedArtifact(attempt, dep))
                    .WithDecision(BlockedDecision(attempt)))
  }

  function ResearchStep(c: Config, s: State, key: string, w: WorkerResult): (State, Reply) {
    match Find(c.assignments, key)
    case None => (s, UnknownTask)
    case Some(a) =>
      match FirstUnmet(c, s, a.dependsOn)
      case Some(dep) => (Block(s, key, dep), BlockedBy(dep))
      case None =>
        var t := TaskOf(s, key);
        if t.artifacts == [] then Execute(s, key, w)
        else if t.LatestDecision().Some? && t.LatestDecision().value.outcome == BlockedByDependency then
          if AllSatisfied(s, a.dependsOn) then Execute(s, key, w) else (s, StillBlocked)
        else if t.LatestReview().Some? && !t.LatestReview().value.approved then
          if t.attempts >= c.maxRetries then
            (SetTask(s, key, t.WithDecision(RetryLimitDecision(t.attempts, t.LatestReview().value))), RetryLimitReached)
          else Execute(s, key, w)
        else (s, AlreadyCompleted)
  }

  // ---- review_research, suggest_refined_queries, judge_decision ----

  function ReviewStep(c: Config, s: State, key: string): (State, Reply) {
    var t := TaskOf(s, key);
    if Find(c.assignments, key).None? then (s, UnknownTask)
    else
      match t.LatestArtifact()
      case None => (s, NoResearchYet)
      case Some(a) =>
        match ReviewOf(RulesOf(c, key), a.payload, a.violations)
        case Failure => (s.(toolErrors := s.toolErrors + [(ReviewTool, key)]), ToolFailed)
        case Success(r) => (SetTask(s, key, t.WithReview(FromCritic(r, a.attempt))), Reviewed(FromCritic(r, a.attempt)))
  }

  /** `queries` is what the coding specialist suggests, or none when it fails or is invalid. */
  function SuggestStep(c: Config, s: State, key: string, queries: Option<seq<string>>): (State, Reply) {
    if Find(c.assignments, key).None? then (s, UnknownTask)
    else
      match queries
      case None => (s.(toolErrors := s.toolErrors + [(SuggestTool, key)]), ToolFailed)
      case Some(qs) => (s.(overrides := s.overrides[key := qs]), Suggested)
  }

  function JudgeStep(c: Config, s: State, key: string): (State, Reply) {
    var t := TaskOf(s, key);
    if Find(c.assignments, key).None? then (s, UnknownTask)
    else
      match t.LatestArtifact()
      case None =>
        (SetTask(s, key, t.WithDecision(FromJudge(NO_ARTIFACT_VERDICT, t.attempts))), Judged(NO_ARTIFACT_VERDICT))
      case Some(a) =>
        var reviewed := if t.reviews == [] then t.WithReview(FallbackReview(a)) else t;
        var v := Decide(Some(CountsOfStored(Last(reviewed.reviews).value)), []);
        (SetTask(s, key, reviewed.WithDecision(FromJudge(v, a.attempt))), Judged(v))
  }

  // ---- finalize_package ----

  predicate Missing(s: State, key: string) {
    TaskOf(s, key).artifacts == [] && TaskOf(s, key).decisions == []
  }

  function Incomplete(s: State, assignments: seq<Assignment>): seq<string> {
    if assignments == [] then []
    else
      var init, key := assignments[..|assignments| - 1], assignments[|assignments| - 1].key;
      Incomplete(s, init) + if Missing(s, key) then [key] else []
  }

  function AcceptedPoints(t: Task): seq<Note> {
    match t.LatestReview() case Some(r) => r.acceptedPoints case None => []
  }

  /** One task at finalization: its new record and its package entry. Stored decisions are
      used as they are; otherwise the Lead accepts or the Judge decides here. The Critic, run
      here without the worker's report, may raise. */
  function Settle(c: Config, key: string, t: Task): Result<(Task, Entry)> {
    match t.LatestArtifact()
    case None => Success((t, Entry(key, StatusDegraded, [], [])))
    case Some(a) =>
      if t.decisions != [] then
        Success((t, Entry(key, Last(t.decisions).value.status, AcceptedPoints(t), a.sources)))
      else
        match t.LatestReview()
        case Some(r) =>
          if r.approved && !a.needsContractReview then
            Success((t.WithDecision(LeadAccepted(a.attempt, r)), Entry(key, StatusAccepted, r.acceptedPoints, a.sources)))
          else
            var v := Decide(Some(CountsOfStored(r)), []);
            Success((t.WithDecision(FromJudge(v, a.attempt)), Entry(key, v.status, r.acceptedPoints, a.sources)))
        case None =>
          match ReviewOf(RulesOf(c, key), a.payload, [])
          case Failure => Failure
          case Success(r) =>
            var v := Decide(Some(CountsOfReview(r)), []);
            Success((t.WithDecision(FromJudge(v, a.attempt)), Entry(key, v.status, r.acceptedPoints, a.sources)))
  }

  /** The assembly loop. When the Critic raises, the decisions recorded so far stay. */
  function SettleAll(c: Config, s: State, assignments: seq<Assignment>): (State, Result<seq<Entry>>) {
    if assignments == [] then (s, Success([]))
    else
      var init, key := assignments[..|assignments| - 1], assignments[|assignments| - 1].key;
      var (s1, done) := SettleAll(c, s, init);
      match done
      case Failure => (s1, Failure)
      case Success(entries) =>
        match Settle(c, key, TaskOf(s1, key))
        case Failure => (s1, Failure)
        case Success((t, entry)) => (SetTask(s1, key, t), Success(entries + [entry]))
  }

  function Statuses(entries: seq<Entry>): seq<Status> {
    seq(|entries|, i requires 0 <= i < |entries| => entries[i].status)
  }

  function AllSources(entries: seq<Entry>): seq<Json> {
    if entries == [] then [] else AllSources(entries[..|entries| - 1]) + entries[|entries| - 1].sources
  }

  /** Package confidence; an empty package has a total of one. */
  function PackageConfidence(statuses: seq<Status>): Confidence {
    var accepted := PolicyGate.CountStatus(statuses, {StatusAccepted});
    var degraded := PolicyGate.CountStatus(statuses, {StatusDegraded});
    if accepted == (if statuses == [] then 1 else |statuses|) then High
    else if accepted + degraded > 0 then Medium
    else Low
  }

  /** A missing product scope is filled in from the known products. */
  function WithScope(c: Config, payload: Dict): Dict {
    var products := Get(payload, "products_and_services");
    if Truthy(Get(payload, "product_asset_scope")) || !Truthy(products) then payload
    else payload["product_asset_scope" := c.pendingScope(products)]
  }

  /** What finalizing adds to the payload of the company department. */
  function Completed(c: Config, payload: Dict): Dict {
    match c.classifyGoods
    case None => payload
    case Some(classify) => WithScope(c, payload["goods_classification" := Str(classify(payload))])
  }

  function Assemble(c: Config, s: State): (State, Reply) {
    var (s1, done) := SettleAll(c, s, c.assignments);
    match done
    case Failure => (s1, ToolFailed)
    case Success(entries) =>
      var payload, statuses := Completed(c, s1.payload), Statuses(entries);
      (s1.(payload := payload),
       PackageReady(Package(entries, PackageConfidence(statuses), payload,
                            Some(PolicyGate.Evaluate(c.policy, payload, statuses, AllSources(entries))))))
  }

  function FinalizeStep(c: Config, s: State, w: WorkerResult): (State, Reply) {
    var incomplete := Incomplete(s, c.assignments);
    if incomplete == [] then Assemble(c, s)
    else
      var s1 := s.(blockedFinalize := s.blockedFinalize + 1);
      if s1.blockedFinalize >= AUTO_RECOVER_AFTER then
        var s2 := ResearchStep(c, s1, incomplete[0], w).0;
        (s2, AutoRecovered(incomplete[0], Incomplete(s2, c.assignments)))
      else (s1, FinalizeBlocked(incomplete))
  }

  // ---- _build_fallback_package ----

  function FallbackEntry(c: Config, key: string, t: Task): Result<Entry> {
    var sources := match t.LatestArtifact() case Some(a) => a.sources case None => [];
    if t.decisions != [] then
      Success(Entry(key, Last(t.decisions).value.status, AcceptedPoints(t), sources))
    else
      match t.LatestArtifact()
      case None => Success(Entry(key, StatusDegraded, [], []))
      case Some(a) =>
        match ReviewOf(RulesOf(c, key), a.payload, [])
        case Failure => Failure
        case Success(r) => Success(Entry(key, Decide(Some(CountsOfReview(r)), []).status, r.acceptedPoints, sources))
  }

  function FallbackEntries(c: Config, s: State, assignments: seq<Assignment>): Result<seq<Entry>> {
    if assignments == [] then Success([])
    else
      var init, key := assignments[..|assignments| - 1], assignments[|assignments| - 1].key;
      match FallbackEntries(c, s, init)
      case Failure => Failure
      case Success(entries) =>
        match FallbackEntry(c, key, TaskOf(s, key))
        case Failure => Failure
        case Success(entry) => Success(entries + [entry])
  }

  /** Any department's payload gets the missing scope here. */
  function FallbackPackage(c: Config, s: State): Result<Package> {
    match FallbackEntries(c, s, c.assignments)
    case Failure => Failure
    case Success(entries) =>
      Success(Package(entries, PackageConfidence(Statuses(entries)), WithScope(c, s.payload), None))
  }

  // ---- runs ----

  datatype Action =
    | Research(key: string, worker: WorkerResult)
    | ReviewTask(key: string)
    | Suggest(key: string, queries: Option<seq<string>>)
    | JudgeTask(key: string)
    | Finalize(worker: WorkerResult)

  function Step(c: Config, s: State, a: Action): (State, Reply) {
    match a
    case Research(key, w) => ResearchStep(c, s, key, w)
    case ReviewTask(key) => ReviewStep(c, s, key)
    case Suggest(key, queries) => SuggestStep(c, s, key, queries)
    case JudgeTask(key) => JudgeStep(c, s, key)
    case Finalize(w) => FinalizeStep(c, s, w)
  }

  /** The state after any sequence of tool calls. */
  function Run(c: Config, s: State, actions: seq<Action>): State
    decreases |actions|
  {
    if actions == [] then s else Run(c, Step(c, s, actions[0]).0, actions[1..])
  }
}
