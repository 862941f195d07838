/** Turning finished runs into reusable role patterns, and what becomes of them in the store. */
module Consolidation {
  import opened Text
  import opened JsonModel
  import opened Dedup
  import opened Ranking
  import opened PatternStore

  // ---- kinds of patterns ----

  datatype Kind =
    | QueryPatterns | QueryStrategy | SourceStrategy | EvidencePattern | TaskRecipe | AcceptanceHeuristic
    | CriticHeuristics | JudgePatterns | CodingPatterns | RetryPatterns

  /** How the name of a pattern of this kind ends. */
  function Suffix(kind: Kind): string {
    match kind
    case QueryPatterns => "-query-patterns"
    case QueryStrategy => "-query-strategy"
    case SourceStrategy => "-source-strategy"
    case EvidencePattern => "-evidence-pattern"
    case TaskRecipe => "-task-recipe"
    case AcceptanceHeuristic => "-acceptance-heuristic"
    case CriticHeuristics => "-critic-heuristics"
    case JudgePatterns => "-judge-patterns"
    case CodingPatterns => "-coding-patterns"
    case RetryPatterns => "-retry-patterns"
  }

  function KindScore(kind: Kind): real {
    match kind
    case QueryPatterns => 1.0
    case QueryStrategy => 0.95
    case SourceStrategy => 0.9
    case EvidencePattern => 0.9
    case TaskRecipe => 0.92
    case AcceptanceHeuristic => 0.9
    case CriticHeuristics => 1.0
    case JudgePatterns => 0.9
    case CodingPatterns => 0.9
    case RetryPatterns => 0.85
  }

  /** Four characters near the end of a name, enough to tell the kinds apart. */
  function Signature(s: string): (char, char, char, char)
    requires |s| >= 12
  {
    (s[|s| - 1], s[|s| - 2], s[|s| - 10], s[|s| - 12])
  }

  function KindSignature(kind: Kind): (char, char, char, char) {
    match kind
    case QueryPatterns => ('s', 'n', 'y', 'e')
    case QueryStrategy => ('y', 'g', 'y', 'e')
    case SourceStrategy => ('y', 'g', 'e', 'r')
    case EvidencePattern => ('n', 'r', 'c', 'e')
    case TaskRecipe => ('e', 'p', 'a', '-')
    case AcceptanceHeuristic => ('c', 'i', '-', 'c')
    case CriticHeuristics => ('s', 'c', 'h', 'c')
    case JudgePatterns => ('s', 'n', 'e', 'd')
    case CodingPatterns => ('s', 'n', 'g', 'i')
    case RetryPatterns => ('s', 'n', 'y', 't')
  }

  lemma SuffixSignature(kind: Kind)
    ensures |Suffix(kind)| >= 12
    ensures Signature(Suffix(kind)) == KindSignature(kind)
  {
  }

  lemma SignatureOfName(name: string, suffix: string)
    requires |suffix| >= 12 && EndsWith(name, suffix)
    ensures |name| >= 12 && Signature(name) == Signature(suffix)
  {
    var start := |name| - |suffix|;
    assert forall i | 0 <= i < |suffix| :: name[start + i] == name[start..][i];
  }

  /** No name ends like two kinds: the suffix, and with it the score, is a function of the name. */
  lemma SuffixesExclude(name: string, a: Kind, b: Kind)
    requires EndsWith(name, Suffix(a)) && EndsWith(name, Suffix(b))
    ensures a == b
  {
    SuffixSignature(a);
    SuffixSignature(b);
    SignatureOfName(name, Suffix(a));
    SignatureOfName(name, Suffix(b));
  }

  /** The score that a name carries. */
  ghost function ScoreOfName(name: Option<string>): real {
    if name.Some? && exists kind: Kind :: EndsWith(name.value, Suffix(kind)) then
      var kind: Kind :| EndsWith(name.value, Suffix(kind));
      KindScore(kind)
    else 0.0
  }

  // ---- runs ----

  datatype RunStatus = RunCompleted | RunSucceeded | RunDiscoveryReady | RunBlocked | RunOther

  datatype Report = Report(
    taskKey: string, worker: string, queries: seq<string>, sourceCount: nat, packetCount: nat, objective: string)

  datatype CriticSummary = CriticSummary(approved: bool, acceptedPoints: seq<string>)

  datatype DepartmentState = DepartmentState(
    name: string, escalations: nat, codingInterventions: nat, retryReasons: seq<string>)

  datatype FinishedRun = FinishedRun(
    status: RunStatus,
    usable: bool,
    accepted: set<string>,
    reports: seq<Report>,
    reviews: map<string, CriticSummary>,
    departments: seq<DepartmentState>)

  /** The string helpers: scrubbing with the terms of the run, the safety test on a scrubbed
      query, role names derived from workers and departments, and the test whether a task belongs to a department. */
  datatype Scrubber = Scrubber(
    scrub: string -> string,
    processSafe: string -> bool,
    lower: string -> string,
    leadRole: string -> string,
    criticRole: string -> string,
    departmentRole: (string, Kind) -> string,
    mentions: (string, string) -> bool)

  /** A pattern before it is written out. */
  datatype Emitted = Emitted(kind: Kind, prefix: string, role: string, taskKey: Option<string>, queries: seq<string>)

  /** The rest of a written pattern: its memory scope, the scrubbed industry and the dictionary. */
  datatype Rendered = Rendered(scope: string, industry: string, body: Json)

  /** Writing a pattern out; no pattern carries a domain. */
  function ToPattern(r: Rendered, e: Emitted): Pattern {
    Pattern(Some(e.prefix + Suffix(e.kind)), e.role, r.scope, r.industry, "", KindScore(e.kind), r.body)
  }

  predicate FullRun(run: FinishedRun) {
    (run.status == RunCompleted || run.status == RunSucceeded) && run.usable
  }

  predicate TaskPositive(run: FinishedRun) {
    run.status != RunOther && run.accepted != {}
  }

  // ---- structural queries ----

  function SafeScrubbed(z: Scrubber, queries: seq<string>): seq<string> {
    if queries == [] then []
    else
      var s := z.scrub(queries[|queries| - 1]);
      SafeScrubbed(z, queries[..|queries| - 1]) + if z.processSafe(s) then [s] else []
  }

  function Structural(z: Scrubber, queries: seq<string>): seq<string> {
    Distinct(SafeScrubbed(z, queries))
  }

  /** `_to_structural_patterns`: scrub, test, deduplicate. */
  method ToStructuralPatterns(z: Scrubber, queries: seq<string>) returns (out: seq<string>)
    ensures out == Structural(z, queries)
  {
    var seen: set<string> := {};
    out := [];
    for i := 0 to |queries|
      invariant out == Structural(z, queries[..i])
      invariant forall s :: s in seen <==> s in out
    {
      assert queries[..i + 1][..i] == queries[..i];
      var scrubbed := z.scrub(queries[i]);
      DistinctOneMore(SafeScrubbed(z, queries[..i]), scrubbed);
      assert SafeScrubbed(z, queries[..i]) + [] == SafeScrubbed(z, queries[..i]);
      if z.processSafe(scrubbed) && scrubbed !in seen {
        seen := seen + {scrubbed};
        out := out + [scrubbed];
      }
    }
    assert queries[..|queries|] == queries;
  }

  lemma {:induction false} StructuralMeaning(z: Scrubber, queries: seq<string>)
    ensures NoRepeats(Structural(z, queries))
    ensures forall s :: s in Structural(z, queries) <==> exists q :: q in queries && s == z.scrub(q) && z.processSafe(s)
  {
    DistinctSound(SafeScrubbed(z, queries));
    if queries != [] {
      var init, last := queries[..|queries| - 1], queries[|queries| - 1];
      StructuralMeaning(z, init);
      DistinctSound(SafeScrubbed(z, init));
      assert queries == init + [last];
    }
  }

  // ---- full-run query patterns ----

  /** The report belongs to an accepted task, or to no task. */
  predicate Included(run: FinishedRun, r: Report) {
    r.taskKey == "" || r.taskKey in run.accepted
  }

  function IncludedWorkers(run: FinishedRun, reports: seq<Report>): seq<string> {
    if reports == [] then []
    else
      var last := reports[|reports| - 1];
      IncludedWorkers(run, reports[..|reports| - 1]) + if Included(run, last) then [last.worker] else []
  }

  /** All queries of a worker's included reports. */
  function QueriesOf(run: FinishedRun, reports: seq<Report>, worker: string): seq<string> {
    if reports == [] then []
    else
      var last := reports[|reports| - 1];
      QueriesOf(run, reports[..|reports| - 1], worker) + if Included(run, last) && last.worker == worker then last.queries else []
  }

  /** A worker's group, empty until its first report. */
  function GroupOf(grouped: map<string, seq<string>>, worker: string): seq<string> {
    if worker in grouped then grouped[worker] else []
  }

  lemma GroupTurn(run: FinishedRun, reports: seq<Report>, i: nat)
    requires i < |reports|
    ensures var r, before := reports[i], Distinct(IncludedWorkers(run, reports[..i]));
            && Distinct(IncludedWorkers(run, reports[..i + 1])) ==
               (if Included(run, r) && r.worker !in before then before + [r.worker] else before)
            && forall w :: QueriesOf(run, reports[..i + 1], w) ==
                 QueriesOf(run, reports[..i], w) + if Included(run, r) && r.worker == w then r.queries else []
  {
    assert reports[..i + 1][..i] == reports[..i];
    var workers := IncludedWorkers(run, reports[..i]);
    DistinctOneMore(workers, reports[i].worker);
    assert workers + [] == workers;
  }

  lemma Regrouped(grouped: map<string, seq<string>>, worker: string, queries: seq<string>)
    ensures var after := grouped[worker := GroupOf(grouped, worker) + queries];
            && (forall w :: w in after <==> w in grouped || w == worker)
            && (forall w :: GroupOf(after, w) == GroupOf(grouped, w) + if worker == w then queries else [])
  {
  }

  /** Grouping: the workers in order of first appearance, each with its queries. */
  method GroupQueries(run: FinishedRun) returns (order: seq<string>, grouped: map<string, seq<string>>)
    ensures order == Distinct(IncludedWorkers(run, run.reports))
    ensures forall w :: w in grouped <==> w in order
    ensures forall w :: GroupOf(grouped, w) == QueriesOf(run, run.reports, w)
  {
    var reports := run.reports;
    order, grouped := [], map[];
    for i := 0 to |reports|
      invariant order == Distinct(IncludedWorkers(run, reports[..i]))
      invariant forall w :: w in grouped <==> w in order
      invariant forall w :: GroupOf(grouped, w) == QueriesOf(run, reports[..i], w)
    {
      var r := reports[i];
      GroupTurn(run, reports, i);
      if !Included(run, r) {
        continue;
      }
      if r.worker !in grouped {
        order := order + [r.worker];
      }
      Regrouped(grouped, r.worker, r.queries);
      grouped := grouped[r.worker := GroupOf(grouped, r.worker) + r.queries];
    }
    assert reports[..|reports|] == reports;
  }

  function FullRunPatterns(z: Scrubber, run: FinishedRun, workers: seq<string>): seq<Emitted> {
    if workers == [] then []
    else
      var w := workers[|workers| - 1];
      var structural := Structural(z, QueriesOf(run, run.reports, w));
      FullRunPatterns(z, run, workers[..|workers| - 1])
      + if structural != [] && FullRun(run) then [Emitted(QueryPatterns, z.lower(w), w, None, structural)] else []
  }

  // ---- patterns of one accepted task ----

  function ReportsOf(reports: seq<Report>, taskKey: string): seq<Report> {
    if reports == [] then []
    else
      var last := reports[|reports| - 1];
      ReportsOf(reports[..|reports| - 1], taskKey) + if last.taskKey == taskKey then [last] else []
  }

  function NonEmptyQueries(queries: seq<string>): seq<string> {
    if queries == [] then []
    else
      var last := queries[|queries| - 1];
      NonEmptyQueries(queries[..|queries| - 1]) + if last != "" then [last] else []
  }

  function AllQueries(reports: seq<Report>): seq<string> {
    if reports == [] then []
    else AllQueries(reports[..|reports| - 1]) + NonEmptyQueries(reports[|reports| - 1].queries)
  }

  predicate AnyScrubbed(z: Scrubber, texts: seq<string>) {
    exists i :: 0 <= i < |texts| && Trim(z.scrub(texts[i])) != ""
  }

  function FirstTwelve(points: seq<string>): seq<string> {
    Take(points, 12)
  }

  function When(condition: bool, e: Emitted): seq<Emitted> {
    if condition then [e] else []
  }

  function OfTask(z: Scrubber, kind: Kind, role: string, taskKey: string, queries: seq<string>): Emitted {
    Emitted(kind, z.lower(role) + "-" + taskKey, role, Some(taskKey), queries)
  }

  const TASK_KINDS := [QueryStrategy, SourceStrategy, EvidencePattern, TaskRecipe, AcceptanceHeuristic]

  /** The condition under which an accepted task yields a pattern of the kind. */
  predicate Shows(z: Scrubber, reviews: map<string, CriticSummary>, taskKey: string, reports: seq<Report>, kind: Kind) {
    match kind
    case QueryStrategy => Structural(z, AllQueries(reports)) != []
    case SourceStrategy => AnySource(reports)
    case EvidencePattern => AnyPacket(reports)
    case TaskRecipe => AnyObjective(z, reports) || AnyScrubbed(z, PointsOf(reviews, taskKey)) || AnySource(reports)
    case AcceptanceHeuristic => taskKey in reviews && reviews[taskKey].approved
    case _ => false
  }

  predicate AnySource(reports: seq<Report>) {
    exists i :: 0 <= i < |reports| && reports[i].sourceCount > 0
  }

  predicate AnyPacket(reports: seq<Report>) {
    exists i :: 0 <= i < |reports| && reports[i].packetCount > 0
  }

  predicate AnyObjective(z: Scrubber, reports: seq<Report>) {
    exists i :: 0 <= i < |reports| && Trim(z.scrub(reports[i].objective)) != ""
  }

  function PointsOf(reviews: map<string, CriticSummary>, taskKey: string): seq<string> {
    if taskKey in reviews then FirstTwelve(reviews[taskKey].acceptedPoints) else []
  }

  /** The pattern of one kind, if any, that an accepted task yields. */
  function TaskPattern(z: Scrubber, reviews: map<string, CriticSummary>, taskKey: string, reports: seq<Report>, kind: Kind): seq<Emitted>
    requires reports != []
  {
    var last := reports[|reports| - 1].worker;
    var role := if last != "" then last else "researcher";
    var named := match kind
                 case TaskRecipe => z.leadRole(role)
                 case AcceptanceHeuristic => z.criticRole(role)
                 case _ => role;
    var queries := if kind == QueryStrategy then FirstTwelve(Structural(z, AllQueries(reports))) else [];
    When(Shows(z, reviews, taskKey, reports, kind), OfTask(z, kind, named, taskKey, queries))
  }

  function PatternsOfKinds(z: Scrubber, reviews: map<string, CriticSummary>, taskKey: string, reports: seq<Report>, kinds: seq<Kind>): seq<Emitted>
    requires reports != []
  {
    if kinds == [] then []
    else
      PatternsOfKinds(z, reviews, taskKey, reports, kinds[..|kinds| - 1])
      + TaskPattern(z, reviews, taskKey, reports, kinds[|kinds| - 1])
  }

  /** The patterns of one accepted task from its reports (never empty) and its review. */
  function TaskPatterns(z: Scrubber, reviews: map<string, CriticSummary>, taskKey: string, reports: seq<Report>): seq<Emitted>
    requires reports != []
  {
    PatternsOfKinds(z, reviews, taskKey, reports, TASK_KINDS)
  }

  function AcceptedKeys(run: FinishedRun, reports: seq<Report>): seq<string> {
    if reports == [] then []
    else
      var last := reports[|reports| - 1];
      AcceptedKeys(run, reports[..|reports| - 1]) + if last.taskKey in run.accepted then [last.taskKey] else []
  }

  function ByName(keys: seq<string>): seq<Scored<string>> {
    seq(|keys|, i requires 0 <= i < |keys| => Scored(0.0, keys[i], keys[i]))
  }

  /** The accepted tasks with at least one report, sorted by key. */
  function SortedTasks(run: FinishedRun): seq<Scored<string>> {
    Rank(ByName(Distinct(AcceptedKeys(run, run.reports))))
  }

  function AllTaskPatterns(z: Scrubber, run: FinishedRun, tasks: seq<Scored<string>>): seq<Emitted> {
    if tasks == [] then []
    else
      var key := tasks[|tasks| - 1].item;
      var reports := ReportsOf(run.reports, key);
      AllTaskPatterns(z, run, tasks[..|tasks| - 1]) + if reports != [] then TaskPatterns(z, run.reviews, key, reports) else []
  }

  // ---- critic and department patterns ----

  const CRITICS: seq<(string, string)> :=
    [("CompanyCritic", "company"), ("MarketCritic", "market"), ("BuyerCritic", "buyer"),
     ("ContactCritic", "contact"), ("SynthesisCritic", "synthesis")]

  function CriticPatterns(z: Scrubber, run: FinishedRun, critics: seq<(string, string)>): seq<Emitted> {
    if critics == [] then []
    else
      var (role, prefix) := critics[|critics| - 1];
      CriticPatterns(z, run, critics[..|critics| - 1])
      + if exists key | key in run.reviews :: key in run.accepted && z.mentions(prefix, key)
        then [Emitted(CriticHeuristics, prefix, role, None, [])] else []
  }

  predicate AnyReason(z: Scrubber, reasons: seq<string>) {
    exists i :: 0 <= i < |reasons| && reasons[i] != "" && |z.scrub(reasons[i])| > 8
  }

  function DepartmentPattern(z: Scrubber, kind: Kind, d: DepartmentState): Emitted {
    Emitted(kind, z.lower(d.name), z.departmentRole(d.name, kind), None, [])
  }

  function DepartmentPatterns(z: Scrubber, d: DepartmentState): seq<Emitted> {
    When(d.escalations > 0, DepartmentPattern(z, JudgePatterns, d))
    + When(d.codingInterventions > 0, DepartmentPattern(z, CodingPatterns, d))
    + When(AnyReason(z, d.retryReasons), DepartmentPattern(z, RetryPatterns, d))
  }

  function AllDepartmentPatterns(z: Scrubber, departments: seq<DepartmentState>): seq<Emitted> {
    if departments == [] then []
    else AllDepartmentPatterns(z, departments[..|departments| - 1]) + DepartmentPatterns(z, departments[|departments| - 1])
  }

  /** Everything a run contributes. */
  function Consolidated(z: Scrubber, run: FinishedRun): seq<Emitted> {
    if !FullRun(run) && !TaskPositive(run) then []
    else
      FullRunPatterns(z, run, Distinct(IncludedWorkers(run, run.reports)))
      + AllTaskPatterns(z, run, SortedTasks(run))
      + (if FullRun(run) && run.reviews != map[] then CriticPatterns(z, run, CRITICS) else [])
      + (if FullRun(run) then AllDepartmentPatterns(z, run.departments) else [])
  }

  lemma QueryTurn(z: Scrubber, run: FinishedRun, workers: seq<string>, i: nat)
    requires i < |workers|
    ensures var structural := Structural(z, QueriesOf(run, run.reports, workers[i]));
            FullRunPatterns(z, run, workers[..i + 1]) == FullRunPatterns(z, run, workers[..i]) +
            if structural != [] && FullRun(run)
            then [Emitted(QueryPatterns, z.lower(workers[i]), workers[i], None, structural)] else []
  {
    assert workers[..i + 1][..i] == workers[..i];
  }

  method EmitQueryPatterns(z: Scrubber, run: FinishedRun) returns (patterns: seq<Emitted>)
    ensures patterns == FullRunPatterns(z, run, Distinct(IncludedWorkers(run, run.reports)))
  {
    var order, grouped := GroupQueries(run);
    patterns := [];
    for i := 0 to |order|
      invariant patterns == FullRunPatterns(z, run, order[..i])
    {
      QueryTurn(z, run, order, i);
      var structural := ToStructuralPatterns(z, GroupOf(grouped, order[i]));
      if structural == [] {
        continue;
      }
      if FullRun(run) {
        patterns := patterns + [Emitted(QueryPatterns, z.lower(order[i]), order[i], None, structural)];
      }
    }
    assert order[..|order|] == order;
  }

  lemma TaskTurn(z: Scrubber, run: FinishedRun, tasks: seq<Scored<string>>, i: nat)
    requires i < |tasks|
    ensures var reports := ReportsOf(run.reports, tasks[i].item);
            AllTaskPatterns(z, run, tasks[..i + 1]) == AllTaskPatterns(z, run, tasks[..i]) +
            if reports != [] then TaskPatterns(z, run.reviews, tasks[i].item, reports) else []
  {
    assert tasks[..i + 1][..i] == tasks[..i];
  }

  method EmitTaskPatterns(z: Scrubber, run: FinishedRun) returns (patterns: seq<Emitted>)
    ensures patterns == AllTaskPatterns(z, run, SortedTasks(run))
  {
    var tasks := SortedTasks(run);
    patterns := [];
    for i := 0 to |tasks|
      invariant patterns == AllTaskPatterns(z, run, tasks[..i])
    {
      TaskTurn(z, run, tasks, i);
      var reports := ReportsOf(run.reports, tasks[i].item);
      if reports != [] {
        patterns := patterns + TaskPatterns(z, run.reviews, tasks[i].item, reports);
      }
    }
    assert tasks[..|tasks|] == tasks;
  }

  method EmitCriticPatterns(z: Scrubber, run: FinishedRun) returns (patterns: seq<Emitted>)
    ensures patterns == CriticPatterns(z, run, CRITICS)
  {
    var critics := CRITICS;
    patterns := [];
    for i := 0 to |critics|
      invariant patterns == CriticPatterns(z, run, critics[..i])
    {
      assert critics[..i + 1][..i] == critics[..i];
      var (role, prefix) := critics[i];
      if exists key | key in run.reviews :: key in run.accepted && z.mentions(prefix, key) {
        patterns := patterns + [Emitted(CriticHeuristics, prefix, role, None, [])];
      }
    }
    assert critics[..|critics|] == critics;
  }

  method EmitOfDepartment(z: Scrubber, d: DepartmentState) returns (patterns: seq<Emitted>)
    ensures patterns == DepartmentPatterns(z, d)
  {
    patterns := [];
    if d.escalations > 0 {
      patterns := patterns + [DepartmentPattern(z, JudgePatterns, d)];
    }
    if d.codingInterventions > 0 {
      patterns := patterns + [DepartmentPattern(z, CodingPatterns, d)];
    }
    if AnyReason(z, d.retryReasons) {
      patterns := patterns + [DepartmentPattern(z, RetryPatterns, d)];
    }
  }

  method EmitDepartmentPatterns(z: Scrubber, run: FinishedRun) returns (patterns: seq<Emitted>)
    ensures patterns == AllDepartmentPatterns(z, run.departments)
  {
    patterns := [];
    for i := 0 to |run.departments|
      invariant patterns == AllDepartmentPatterns(z, run.departments[..i])
    {
      assert run.departments[..i + 1][..i] == run.departments[..i];
      var more := EmitOfDepartment(z, run.departments[i]);
      patterns := patterns + more;
    }
    assert run.departments[..|run.departments|] == run.departments;
  }

  /** `consolidate_role_patterns`: one loop per family of patterns, with its early returns. */
  method ConsolidateRolePatterns(z: Scrubber, run: FinishedRun) returns (patterns: seq<Emitted>)
    ensures patterns == Consolidated(z, run)
  {
    var full := FullRun(run);
    if !full && !TaskPositive(run) {
      return [];
    }
    patterns := EmitQueryPatterns(z, run);
    var more := EmitTaskPatterns(z, run);
    patterns := patterns + more;
    if full && run.reviews != map[] {
      more := EmitCriticPatterns(z, run);
      patterns := patterns + more;
    }
    if !full {
      return;
    }
    more := EmitDepartmentPatterns(z, run);
    patterns := patterns + more;
  }

  // ---- what is emitted ----

  /** Nothing is emitted for a task that was not accepted, and every query written out is the
      safe scrubbed form of a query reported for an accepted task, or for no task at all. */
  ghost predicate Grounded(z: Scrubber, run: FinishedRun, e: Emitted) {
    && (e.taskKey.Some? ==> e.taskKey.value in run.accepted)
    && (e.taskKey.None? ==> FullRun(run))
    && forall s | s in e.queries :: z.processSafe(s) && FromReport(z, run, s)
  }

  ghost predicate FromReport(z: Scrubber, run: FinishedRun, s: string) {
    exists r, q :: r in run.reports && Included(run, r) && q in r.queries && s == z.scrub(q)
  }

  ghost predicate AllGrounded(z: Scrubber, run: FinishedRun, es: seq<Emitted>) {
    forall e | e in es :: Grounded(z, run, e)
  }

  lemma {:induction false} QueriesOfMeaning(run: FinishedRun, reports: seq<Report>, worker: string)
    ensures forall q | q in QueriesOf(run, reports, worker) :: exists r :: r in reports && Included(run, r) && q in r.queries
  {
    if reports != [] {
      QueriesOfMeaning(run, reports[..|reports| - 1], worker);
      assert reports == reports[..|reports| - 1] + [reports[|reports| - 1]];
    }
  }

  lemma {:induction false} FullRunGrounded(z: Scrubber, run: FinishedRun, workers: seq<string>)
    ensures AllGrounded(z, run, FullRunPatterns(z, run, workers))
  {
    if workers != [] {
      var w := workers[|workers| - 1];
      FullRunGrounded(z, run, workers[..|workers| - 1]);
      var queries := QueriesOf(run, run.reports, w);
      QueriesOfMeaning(run, run.reports, w);
      StructuralMeaning(z, queries);
      forall s | s in Structural(z, queries) ensures z.processSafe(s) && FromReport(z, run, s) {
        var q :| q in queries && s == z.scrub(q) && z.processSafe(s);
      }
    }
  }

  lemma {:induction false} NonEmptyAreQueries(queries: seq<string>)
    ensures forall q | q in NonEmptyQueries(queries) :: q in queries
  {
    if queries != [] {
      NonEmptyAreQueries(queries[..|queries| - 1]);
      assert queries == queries[..|queries| - 1] + [queries[|queries| - 1]];
    }
  }

  lemma {:induction false} AllQueriesMeaning(reports: seq<Report>)
    ensures forall q | q in AllQueries(reports) :: exists r :: r in reports && q in r.queries
  {
    if reports != [] {
      AllQueriesMeaning(reports[..|reports| - 1]);
      NonEmptyAreQueries(reports[|reports| - 1].queries);
      assert reports == reports[..|reports| - 1] + [reports[|reports| - 1]];
    }
  }

  lemma {:induction false} ReportsOfMeaning(reports: seq<Report>, taskKey: string)
    ensures forall r | r in ReportsOf(reports, taskKey) :: r in reports && r.taskKey == taskKey
  {
    if reports != [] {
      ReportsOfMeaning(reports[..|reports| - 1], taskKey);
      assert reports == reports[..|reports| - 1] + [reports[|reports| - 1]];
    }
  }

  lemma TaskQueriesGrounded(z: Scrubber, run: FinishedRun, taskKey: string)
    requires taskKey in run.accepted
    ensures forall s | s in Structural(z, AllQueries(ReportsOf(run.reports, taskKey))) ::
              z.processSafe(s) && FromReport(z, run, s)
  {
    var reports := ReportsOf(run.reports, taskKey);
    ReportsOfMeaning(run.reports, taskKey);
    AllQueriesMeaning(reports);
    StructuralMeaning(z, AllQueries(reports));
    forall s | s in Structural(z, AllQueries(reports)) ensures z.processSafe(s) && FromReport(z, run, s) {
      var q :| q in AllQueries(reports) && s == z.scrub(q) && z.processSafe(s);
      var r :| r in reports && q in r.queries;
      assert Included(run, r);
    }
  }

  /** What holds of every pattern of a task. */
  ghost predicate TaskShape(z: Scrubber, taskKey: string, reports: seq<Report>, e: Emitted) {
    && e.taskKey == Some(taskKey)
    && e.kind != QueryPatterns
    && (e.queries == [] || e.queries == FirstTwelve(Structural(z, AllQueries(reports))))
  }

  lemma TaskPatternShape(z: Scrubber, reviews: map<string, CriticSummary>, taskKey: string, reports: seq<Report>, kind: Kind)
    requires reports != []
    ensures forall e | e in TaskPattern(z, reviews, taskKey, reports, kind) :: TaskShape(z, taskKey, reports, e)
  {
  }

  lemma {:induction false} TaskPatternsShape(z: Scrubber, reviews: map<string, CriticSummary>, taskKey: string, reports: seq<Report>, kinds: seq<Kind>)
    requires reports != []
    ensures forall e | e in PatternsOfKinds(z, reviews, taskKey, reports, kinds) :: TaskShape(z, taskKey, reports, e)
  {
    if kinds != [] {
      TaskPatternsShape(z, reviews, taskKey, reports, kinds[..|kinds| - 1]);
      TaskPatternShape(z, reviews, taskKey, reports, kinds[|kinds| - 1]);
    }
  }

  lemma TaskGrounded(z: Scrubber, run: FinishedRun, taskKey: string)
    requires taskKey in run.accepted && ReportsOf(run.reports, taskKey) != []
    ensures AllGrounded(z, run, TaskPatterns(z, run.reviews, taskKey, ReportsOf(run.reports, taskKey)))
  {
    var reports := ReportsOf(run.reports, taskKey);
    var structural := Structural(z, AllQueries(reports));
    TaskQueriesGrounded(z, run, taskKey);
    TaskPatternsShape(z, run.reviews, taskKey, reports, TASK_KINDS);
    forall e | e in TaskPatterns(z, run.reviews, taskKey, reports) ensures Grounded(z, run, e) {
      forall s | s in e.queries ensures z.processSafe(s) && FromReport(z, run, s) {
        assert s in structural;
      }
    }
  }

  lemma {:induction false} TasksGrounded(z: Scrubber, run: FinishedRun, tasks: seq<Scored<string>>)
    requires forall i | 0 <= i < |tasks| :: tasks[i].item in run.accepted
    ensures AllGrounded(z, run, AllTaskPatterns(z, run, tasks))
  {
    if tasks != [] {
      var n := |tasks| - 1;
      TasksGrounded(z, run, tasks[..n]);
      if ReportsOf(run.reports, tasks[n].item) != [] {
        TaskGrounded(z, run, tasks[n].item);
      }
    }
  }

  lemma {:induction false} AcceptedKeysAccepted(run: FinishedRun, reports: seq<Report>)
    ensures forall k | k in AcceptedKeys(run, reports) :: k in run.accepted
  {
    if reports != [] {
      AcceptedKeysAccepted(run, reports[..|reports| - 1]);
    }
  }

  lemma SortedTasksAccepted(run: FinishedRun)
    ensures forall i | 0 <= i < |SortedTasks(run)| :: SortedTasks(run)[i].item in run.accepted
  {
    var keys := Distinct(AcceptedKeys(run, run.reports));
    AcceptedKeysAccepted(run, run.reports);
    DistinctSound(AcceptedKeys(run, run.reports));
    forall i | 0 <= i < |SortedTasks(run)| ensures SortedTasks(run)[i].item in run.accepted {
      RankMembers(ByName(keys), SortedTasks(run)[i]);
      var j :| 0 <= j < |keys| && ByName(keys)[j] == SortedTasks(run)[i];
      assert keys[j] in keys;
    }
  }

  lemma {:induction false} CriticsGrounded(z: Scrubber, run: FinishedRun, critics: seq<(string, string)>)
    requires FullRun(run)
    ensures AllGrounded(z, run, CriticPatterns(z, run, critics))
  {
    if critics != [] {
      CriticsGrounded(z, run, critics[..|critics| - 1]);
    }
  }

  lemma {:induction false} DepartmentsGrounded(z: Scrubber, run: FinishedRun, departments: seq<DepartmentState>)
    requires FullRun(run)
    ensures AllGrounded(z, run, AllDepartmentPatterns(z, departments))
  {
    if departments != [] {
      DepartmentsGrounded(z, run, departments[..|departments| - 1]);
    }
  }

  /** The accepted-task filter holds for everything a run contributes, and an ineligible run
      contributes nothing. */
  lemma ConsolidatedGrounded(z: Scrubber, run: FinishedRun)
    ensures AllGrounded(z, run, Consolidated(z, run))
    ensures !FullRun(run) && !TaskPositive(run) ==> Consolidated(z, run) == []
  {
    FullRunGrounded(z, run, Distinct(IncludedWorkers(run, run.reports)));
    SortedTasksAccepted(run);
    TasksGrounded(z, run, SortedTasks(run));
    if FullRun(run) {
      CriticsGrounded(z, run, CRITICS);
      DepartmentsGrounded(z, run, run.departments);
    }
  }

  // ---- the accepted-tasks-only promise ----

  function AcceptedReports(run: FinishedRun, reports: seq<Report>): seq<Report> {
    if reports == [] then []
    else
      var last := reports[|reports| - 1];
      AcceptedReports(run, reports[..|reports| - 1]) + if last.taskKey in run.accepted then [last] else []
  }

  /** The run as if it had only the reports of accepted tasks. */
  function AcceptedOnly(run: FinishedRun): FinishedRun {
    run.(reports := AcceptedReports(run, run.reports))
  }

  /** What a worker's queries come to. */
  function StructuralOf(z: Scrubber, run: FinishedRun, worker: string): seq<string> {
    Structural(z, QueriesOf(run, run.reports, worker))
  }

  function QueryPattern(z: Scrubber, run: FinishedRun, worker: string): Emitted {
    Emitted(QueryPatterns, z.lower(worker), worker, None, StructuralOf(z, run, worker))
  }

  lemma {:induction false} FullRunMembers(z: Scrubber, run: FinishedRun, workers: seq<string>)
    ensures forall e :: e in FullRunPatterns(z, run, workers) <==>
              FullRun(run) && e.role in workers && StructuralOf(z, run, e.role) != [] && e == QueryPattern(z, run, e.role)
  {
    if workers != [] {
      var n := |workers| - 1;
      FullRunMembers(z, run, workers[..n]);
      assert workers == workers[..n] + [workers[n]];
    }
  }

  lemma {:induction false} QueriesHaveWorker(run: FinishedRun, reports: seq<Report>, worker: string)
    requires QueriesOf(run, reports, worker) != []
    ensures worker in IncludedWorkers(run, reports)
  {
    var n := |reports| - 1;
    if QueriesOf(run, reports[..n], worker) != [] {
      QueriesHaveWorker(run, reports[..n], worker);
    }
  }

  /** A full run writes one query pattern for each worker with a structural query. */
  lemma QueryPatternsMeaning(z: Scrubber, run: FinishedRun, e: Emitted)
    requires FullRun(run)
    ensures e in FullRunPatterns(z, run, Distinct(IncludedWorkers(run, run.reports))) <==>
            StructuralOf(z, run, e.role) != [] && e == QueryPattern(z, run, e.role)
  {
    var workers := IncludedWorkers(run, run.reports);
    FullRunMembers(z, run, Distinct(workers));
    DistinctSound(workers);
    if StructuralOf(z, run, e.role) != [] {
      QueriesHaveWorker(run, run.reports, e.role);
    }
  }

  lemma AcceptedOneMore(run: FinishedRun, reports: seq<Report>, r: Report)
    ensures AcceptedReports(run, reports + [r]) ==
            if r.taskKey in run.accepted then AcceptedReports(run, reports) + [r] else AcceptedReports(run, reports)
  {
    assert (reports + [r])[..|reports|] == reports;
  }

  lemma KeysOneMore(run: FinishedRun, reports: seq<Report>, r: Report)
    ensures AcceptedKeys(run, reports + [r]) == AcceptedKeys(run, reports) + if r.taskKey in run.accepted then [r.taskKey] else []
  {
    assert (reports + [r])[..|reports|] == reports;
  }

  lemma ReportsOneMore(reports: seq<Report>, r: Report, taskKey: string)
    ensures ReportsOf(reports + [r], taskKey) == ReportsOf(reports, taskKey) + if r.taskKey == taskKey then [r] else []
  {
    assert (reports + [r])[..|reports|] == reports;
  }

  lemma QueriesOneMore(run: FinishedRun, reports: seq<Report>, r: Report, worker: string)
    ensures QueriesOf(run, reports + [r], worker) ==
            QueriesOf(run, reports, worker) + if Included(run, r) && r.worker == worker then r.queries else []
  {
    assert (reports + [r])[..|reports|] == reports;
  }

  lemma {:induction false} SameAcceptedKeys(run: FinishedRun, reports: seq<Report>)
    ensures AcceptedKeys(AcceptedOnly(run), AcceptedReports(run, reports)) == AcceptedKeys(run, reports)
  {
    if reports != [] {
      var init, last := reports[..|reports| - 1], reports[|reports| - 1];
      assert reports == init + [last];
      SameAcceptedKeys(run, init);
      AcceptedOneMore(run, init, last);
      KeysOneMore(run, init, last);
      KeysOneMore(AcceptedOnly(run), AcceptedReports(run, init), last);
    }
  }

  lemma {:induction false} SameReportsOf(run: FinishedRun, reports: seq<Report>, taskKey: string)
    requires taskKey in run.accepted
    ensures ReportsOf(AcceptedReports(run, reports), taskKey) == ReportsOf(reports, taskKey)
  {
    if reports != [] {
      var init, last := reports[..|reports| - 1], reports[|reports| - 1];
      assert reports == init + [last];
      SameReportsOf(run, init, taskKey);
      AcceptedOneMore(run, init, last);
      ReportsOneMore(init, last, taskKey);
      ReportsOneMore(AcceptedReports(run, init), last, taskKey);
    }
  }

  lemma {:induction false} SameTaskPatterns(z: Scrubber, run: FinishedRun, tasks: seq<Scored<string>>)
    requires forall i | 0 <= i < |tasks| :: tasks[i].item in run.accepted
    ensures AllTaskPatterns(z, AcceptedOnly(run), tasks) == AllTaskPatterns(z, run, tasks)
  {
    if tasks != [] {
      var n := |tasks| - 1;
      assert forall i | 0 <= i < n :: tasks[..n][i] == tasks[i];
      SameTaskPatterns(z, run, tasks[..n]);
      SameReportsOf(run, run.reports, tasks[n].item);
    }
  }

  /** Everything but the query patterns of full runs. */
  function OtherPatterns(z: Scrubber, run: FinishedRun): seq<Emitted> {
    AllTaskPatterns(z, run, SortedTasks(run))
    + (if FullRun(run) && run.reviews != map[] then CriticPatterns(z, run, CRITICS) else [])
    + (if FullRun(run) then AllDepartmentPatterns(z, run.departments) else [])
  }

  lemma {:induction false} CriticsUnchanged(z: Scrubber, run: FinishedRun, critics: seq<(string, string)>)
    ensures CriticPatterns(z, AcceptedOnly(run), critics) == CriticPatterns(z, run, critics)
  {
    if critics != [] {
      CriticsUnchanged(z, run, critics[..|critics| - 1]);
    }
  }

  /** All of these keep to accepted tasks. */
  lemma SameOtherPatterns(z: Scrubber, run: FinishedRun)
    ensures OtherPatterns(z, AcceptedOnly(run)) == OtherPatterns(z, run)
  {
    SameAcceptedKeys(run, run.reports);
    SortedTasksAccepted(run);
    SameTaskPatterns(z, run, SortedTasks(run));
    CriticsUnchanged(z, run, CRITICS);
  }

  ghost predicate NoQueryPattern(es: seq<Emitted>) {
    forall e | e in es :: e.kind != QueryPatterns
  }

  lemma {:induction false} TasksHaveNoQueryPattern(z: Scrubber, run: FinishedRun, tasks: seq<Scored<string>>)
    ensures NoQueryPattern(AllTaskPatterns(z, run, tasks))
  {
    if tasks != [] {
      var n := |tasks| - 1;
      TasksHaveNoQueryPattern(z, run, tasks[..n]);
      var reports := ReportsOf(run.reports, tasks[n].item);
      if reports != [] {
        TaskPatternsShape(z, run.reviews, tasks[n].item, reports, TASK_KINDS);
      }
    }
  }

  lemma {:induction false} CriticsHaveNoQueryPattern(z: Scrubber, run: FinishedRun, critics: seq<(string, string)>)
    ensures NoQueryPattern(CriticPatterns(z, run, critics))
  {
    if critics != [] {
      CriticsHaveNoQueryPattern(z, run, critics[..|critics| - 1]);
    }
  }

  lemma {:induction false} DepartmentsHaveNoQueryPattern(z: Scrubber, departments: seq<DepartmentState>)
    ensures NoQueryPattern(AllDepartmentPatterns(z, departments))
  {
    if departments != [] {
      DepartmentsHaveNoQueryPattern(z, departments[..|departments| - 1]);
    }
  }

  lemma ConsolidatedMembers(z: Scrubber, run: FinishedRun, e: Emitted)
    requires FullRun(run)
    ensures e in Consolidated(z, run) <==>
            (StructuralOf(z, run, e.role) != [] && e == QueryPattern(z, run, e.role)) || e in OtherPatterns(z, run)
    ensures e in OtherPatterns(z, run) ==> e.kind != QueryPatterns
  {
    QueryPatternsMeaning(z, run, e);
    TasksHaveNoQueryPattern(z, run, SortedTasks(run));
    CriticsHaveNoQueryPattern(z, run, CRITICS);
    DepartmentsHaveNoQueryPattern(z, run.departments);
  }

  lemma {:induction false} NotFullNoQueries(z: Scrubber, run: FinishedRun, workers: seq<string>)
    requires !FullRun(run)
    ensures FullRunPatterns(z, run, workers) == []
  {
    if workers != [] {
      NotFullNoQueries(z, run, workers[..|workers| - 1]);
    }
  }

  lemma NotFullConsolidated(z: Scrubber, run: FinishedRun)
    requires !FullRun(run)
    ensures Consolidated(z, run) == if TaskPositive(run) then OtherPatterns(z, run) else []
  {
    NotFullNoQueries(z, run, Distinct(IncludedWorkers(run, run.reports)));
    var tasks := AllTaskPatterns(z, run, SortedTasks(run));
    assert [] + tasks + [] + [] == tasks + [] + [];
  }

  ghost predicate SamePatterns(z: Scrubber, run: FinishedRun, run': FinishedRun) {
    forall e :: e in Consolidated(z, run) <==> e in Consolidated(z, run')
  }

  /** Consolidation keeps its promise, to draw on accepted tasks only, exactly when the reports
      without a task key make no difference to what any worker's queries come to, or the run is
      not a full one. */
  lemma AcceptedOnlyExactly(z: Scrubber, run: FinishedRun)
    ensures SamePatterns(z, run, AcceptedOnly(run)) <==>
            (FullRun(run) ==> forall w :: StructuralOf(z, run, w) == StructuralOf(z, AcceptedOnly(run), w))
  {
    var run' := AcceptedOnly(run);
    SameOtherPatterns(z, run);
    if FullRun(run) {
      forall e
        ensures e in Consolidated(z, run) <==>
                (StructuralOf(z, run, e.role) != [] && e == QueryPattern(z, run, e.role)) || e in OtherPatterns(z, run)
        ensures e in Consolidated(z, run') <==>
                (StructuralOf(z, run', e.role) != [] && e == QueryPattern(z, run', e.role)) || e in OtherPatterns(z, run)
        ensures e in OtherPatterns(z, run) ==> e.kind != QueryPatterns
      {
        ConsolidatedMembers(z, run, e);
        ConsolidatedMembers(z, run', e);
      }
      if SamePatterns(z, run, run') {
        forall w ensures StructuralOf(z, run, w) == StructuralOf(z, run', w) {
          var e, e' := QueryPattern(z, run, w), QueryPattern(z, run', w);
          assert e in Consolidated(z, run) <==> e in Consolidated(z, run');
          assert e' in Consolidated(z, run) <==> e' in Consolidated(z, run');
        }
      }
    } else {
      NotFullConsolidated(z, run);
      NotFullConsolidated(z, run');
    }
  }

  /** No report outside the accepted tasks is let through with a query that would be kept. */
  ghost predicate NoStrayQuery(z: Scrubber, run: FinishedRun, reports: seq<Report>) {
    forall r, q | r in reports && Included(run, r) && r.taskKey !in run.accepted && q in r.queries :: !z.processSafe(z.scrub(q))
  }

  lemma {:induction false} SafeScrubbedJoins(z: Scrubber, a: seq<string>, b: seq<string>)
    ensures SafeScrubbed(z, a + b) == SafeScrubbed(z, a) + SafeScrubbed(z, b)
  {
    if b == [] {
      assert a + b == a;
    } else {
      SafeScrubbedJoins(z, a, b[..|b| - 1]);
      assert (a + b)[..|a + b| - 1] == a + b[..|b| - 1];
    }
  }

  lemma {:induction false} NothingSafe(z: Scrubber, queries: seq<string>)
    requires forall q | q in queries :: !z.processSafe(z.scrub(q))
    ensures SafeScrubbed(z, queries) == []
  {
    if queries != [] {
      NothingSafe(z, queries[..|queries| - 1]);
    }
  }

  lemma {:induction false} StrayQueriesVanish(z: Scrubber, run: FinishedRun, reports: seq<Report>, w: string)
    requires NoStrayQuery(z, run, reports)
    ensures SafeScrubbed(z, QueriesOf(AcceptedOnly(run), AcceptedReports(run, reports), w))
            == SafeScrubbed(z, QueriesOf(run, reports, w))
  {
    if reports != [] {
      var init, last := reports[..|reports| - 1], reports[|reports| - 1];
      assert reports == init + [last];
      StrayQueriesVanish(z, run, init, w);
      AcceptedOneMore(run, init, last);
      QueriesOneMore(run, init, last, w);
      QueriesOneMore(AcceptedOnly(run), AcceptedReports(run, init), last, w);
      var before, kept := QueriesOf(run, init, w), QueriesOf(AcceptedOnly(run), AcceptedReports(run, init), w);
      SafeScrubbedJoins(z, before, last.queries);
      SafeScrubbedJoins(z, kept, last.queries);
      assert before + [] == before && kept + [] == kept;
      if Included(run, last) && last.taskKey !in run.accepted {
        NothingSafe(z, last.queries);
      }
    }
  }

  /** A condition on the reports alone: the promise is kept if no report without a task key has
      a query that passes the safety test. */
  lemma NoStrayQueryKeepsPromise(z: Scrubber, run: FinishedRun)
    requires NoStrayQuery(z, run, run.reports)
    ensures SamePatterns(z, run, AcceptedOnly(run))
  {
    forall w ensures StructuralOf(z, run, w) == StructuralOf(z, AcceptedOnly(run), w) {
      StrayQueriesVanish(z, run, run.reports, w);
    }
    AcceptedOnlyExactly(z, run);
  }

  function KeylessRun(query: string): FinishedRun {
    FinishedRun(RunCompleted, true, {}, [Report("", "w", [query], 0, 0, "")], map[], [])
  }

  lemma KeylessGroups(z: Scrubber, query: string)
    ensures var run := KeylessRun(query);
            && Distinct(IncludedWorkers(run, run.reports)) == ["w"]
            && QueriesOf(run, run.reports, "w") == [query]
            && SortedTasks(run) == []
  {
    var run := KeylessRun(query);
    assert run.reports[..0] == [];
    assert IncludedWorkers(run, run.reports) == [] + ["w"] == ["w"];
    DistinctFixed(["w"]);
    assert QueriesOf(run, run.reports, "w") == [] + [query];
    assert AcceptedKeys(run, run.reports) == [] + [];
  }

  lemma StructuralOfOne(z: Scrubber, query: string)
    requires z.processSafe(z.scrub(query))
    ensures Structural(z, [query]) == [z.scrub(query)]
  {
    assert [query][..0] == [];
    assert SafeScrubbed(z, [query]) == [] + [z.scrub(query)];
    DistinctFixed([z.scrub(query)]);
  }

  /** The filter lets through one thing its comment excludes: in a full run without a single
      accepted task, a report with an empty task key still yields a query pattern. */
  lemma KeylessReportsCount(z: Scrubber, query: string)
    requires z.processSafe(z.scrub(query))
    ensures var run := KeylessRun(query);
            && run.accepted == {}
            && Consolidated(z, run) == [Emitted(QueryPatterns, z.lower("w"), "w", None, [z.scrub(query)])]
  {
    var run := KeylessRun(query);
    KeylessGroups(z, query);
    StructuralOfOne(z, query);
    assert ["w"][..0] == [];
    assert FullRunPatterns(z, run, ["w"]) == [] + [Emitted(QueryPatterns, z.lower("w"), "w", None, [z.scrub(query)])];
  }

  // ---- into the store ----

  /** Every emitted pattern has the score of its name. */
  lemma ScoreFollowsName(r: Rendered, e: Emitted)
    ensures ToPattern(r, e).score == ScoreOfName(ToPattern(r, e).name) > 0.0
  {
    var name := e.prefix + Suffix(e.kind);
    assert EndsWith(name, Suffix(e.kind)) by {
      assert name[|e.prefix|..] == Suffix(e.kind);
    }
    forall kind: Kind | EndsWith(name, Suffix(kind)) ensures kind == e.kind {
      SuffixesExclude(name, kind, e.kind);
    }
  }

  /** A finished run with its own scrubber (the terms to scrub are the run's) and its own way of
      writing out each of its patterns (a pattern carries the run's id, industry and counts). */
  datatype Contribution = Contribution(scrubber: Scrubber, render: (nat, Emitted) -> Rendered, run: FinishedRun)

  /** The patterns a run writes out. */
  function Patterns(k: Contribution): seq<Pattern> {
    var es := Consolidated(k.scrubber, k.run);
    seq(|es|, i requires 0 <= i < |es| => ToPattern(k.render(i, es[i]), es[i]))
  }

  /** What a sequence of runs offers to the store, in order. */
  function Offers(runs: seq<Contribution>): seq<Pattern> {
    if |runs| == 0 then [] else Offers(runs[..|runs| - 1]) + Patterns(runs[|runs| - 1])
  }

  function SafeOffers(screen: Screen, offers: seq<Pattern>): seq<Pattern> {
    if offers == [] then []
    else
      var last := offers[|offers| - 1];
      SafeOffers(screen, offers[..|offers| - 1]) + if Safe(screen, last) then [last] else []
  }

  /** Offers that the policy guard refuses leave no trace. */
  lemma {:induction false} UnsafeOffersVanish(screen: Screen, items: seq<Pattern>, offers: seq<Pattern>)
    ensures UpsertAll(screen, items, offers) == UpsertAll(screen, items, SafeOffers(screen, offers))
  {
    if offers != [] {
      var init, last := offers[..|offers| - 1], offers[|offers| - 1];
      UnsafeOffersVanish(screen, items, init);
      var safe := SafeOffers(screen, init);
      if Safe(screen, last) {
        UpsertOneMore(screen, items, safe, last);
      } else {
        assert SafeOffers(screen, offers) == safe;
      }
    }
  }

  ghost predicate NameScored(p: Pattern) {
    p.score == ScoreOfName(p.name) && p.score >= 0.0
  }

  lemma {:induction false} OffersNameScored(runs: seq<Contribution>)
    ensures forall i | 0 <= i < |Offers(runs)| :: NameScored(Offers(runs)[i])
  {
    if |runs| != 0 {
      OffersNameScored(runs[..|runs| - 1]);
      var k := runs[|runs| - 1];
      var es := Consolidated(k.scrubber, k.run);
      forall i | 0 <= i < |es| ensures NameScored(Patterns(k)[i]) {
        ScoreFollowsName(k.render(i, es[i]), es[i]);
      }
    }
  }

  lemma {:induction false} SafeOffersScored(screen: Screen, offers: seq<Pattern>)
    requires forall i | 0 <= i < |offers| :: NameScored(offers[i])
    ensures forall i | 0 <= i < |SafeOffers(screen, offers)| ::
              Safe(screen, SafeOffers(screen, offers)[i]) && NameScored(SafeOffers(screen, offers)[i])
  {
    if offers != [] {
      var n := |offers| - 1;
      assert forall i | 0 <= i < n :: offers[..n][i] == offers[i];
      SafeOffersScored(screen, offers[..n]);
    }
  }

  /** After any sequence of runs, each with its own scrub terms and its own patterns, a store that
      started empty holds each name once, in the order of first insertion, with the pattern most
      recently offered under it that passed the guard. */
  lemma StoreAfterRuns(screen: Screen, runs: seq<Contribution>)
    ensures var offers := Offers(runs);
            HoldsLatest(UpsertAll(screen, [], offers), SafeOffers(screen, offers))
  {
    var offers := Offers(runs);
    OffersNameScored(runs);
    SafeOffersScored(screen, offers);
    UnsafeOffersVanish(screen, [], offers);
    var safe := SafeOffers(screen, offers);
    assert ScoredByName(screen, n => ScoreOfName(n), safe) by {
      assert forall i | 0 <= i < |safe| :: Safe(screen, safe[i]) && NameScored(safe[i]);
    }
    LastWriterWins(screen, n => ScoreOfName(n), safe);
  }
}
