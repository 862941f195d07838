/** Which patterns a finished run yields, said over its reports, reviews and departments alone. */
module Emission {
  import opened Text
  import opened JsonModel
  import opened Dedup
  import opened Ranking
  import opened Consolidation

  // ---- reports and queries ----

  lemma {:induction false} ReportsOfExactly(reports: seq<Report>, taskKey: string, r: Report)
    ensures r in ReportsOf(reports, taskKey) <==> r in reports && r.taskKey == taskKey
  {
    if reports != [] {
      var init, last := reports[..|reports| - 1], reports[|reports| - 1];
      assert reports == init + [last];
      ReportsOfExactly(init, taskKey, r);
    }
  }

  lemma {:induction false} NonEmptyExactly(queries: seq<string>, q: string)
    ensures q in NonEmptyQueries(queries) <==> q in queries && q != ""
  {
    if queries != [] {
      var init, last := queries[..|queries| - 1], queries[|queries| - 1];
      assert queries == init + [last];
      NonEmptyExactly(init, q);
    }
  }

  lemma {:induction false} AllQueriesExactly(reports: seq<Report>, q: string)
    ensures q in AllQueries(reports) <==> q != "" && exists r :: r in reports && q in r.queries
  {
    if reports != [] {
      var init, last := reports[..|reports| - 1], reports[|reports| - 1];
      assert reports == init + [last];
      AllQueriesExactly(init, q);
      NonEmptyExactly(last.queries, q);
      assert last in reports;
    }
  }

  /** Some non-empty query of the task's reports is safe after scrubbing. */
  ghost predicate SafeQuery(z: Scrubber, run: FinishedRun, taskKey: string) {
    exists r, q :: r in run.reports && r.taskKey == taskKey && q in r.queries && q != "" && z.processSafe(z.scrub(q))
  }

  lemma StructuralOfTask(z: Scrubber, run: FinishedRun, taskKey: string)
    ensures Structural(z, AllQueries(ReportsOf(run.reports, taskKey))) != [] <==> SafeQuery(z, run, taskKey)
  {
    var reports := ReportsOf(run.reports, taskKey);
    var queries := AllQueries(reports);
    var structural := Structural(z, queries);
    StructuralMeaning(z, queries);
    if structural != [] {
      assert structural[0] in structural;
      var q :| q in queries && structural[0] == z.scrub(q) && z.processSafe(structural[0]);
      AllQueriesExactly(reports, q);
      var r :| r in reports && q in r.queries;
      ReportsOfExactly(run.reports, taskKey, r);
    }
    if SafeQuery(z, run, taskKey) {
      var r, q :| r in run.reports && r.taskKey == taskKey && q in r.queries && q != "" && z.processSafe(z.scrub(q));
      ReportsOfExactly(run.reports, taskKey, r);
      AllQueriesExactly(reports, q);
      assert z.scrub(q) in structural;
    }
  }

  // ---- patterns of an accepted task ----

  ghost predicate HasReport(run: FinishedRun, taskKey: string) {
    exists r :: r in run.reports && r.taskKey == taskKey
  }

  ghost predicate HasSource(run: FinishedRun, taskKey: string) {
    exists r :: r in run.reports && r.taskKey == taskKey && r.sourceCount > 0
  }

  ghost predicate HasPacket(run: FinishedRun, taskKey: string) {
    exists r :: r in run.reports && r.taskKey == taskKey && r.packetCount > 0
  }

  /** Something of an objective is left after scrubbing. */
  ghost predicate HasObjective(z: Scrubber, run: FinishedRun, taskKey: string) {
    exists r :: r in run.reports && r.taskKey == taskKey && Trim(z.scrub(r.objective)) != ""
  }

  /** Something of one of the first twelve accepted points is left after scrubbing. */
  ghost predicate HasPoint(z: Scrubber, run: FinishedRun, taskKey: string) {
    taskKey in run.reviews
    && exists i :: 0 <= i < |run.reviews[taskKey].acceptedPoints| && i < 12
                   && Trim(z.scrub(run.reviews[taskKey].acceptedPoints[i])) != ""
  }

  /** What a task must show for a pattern of each kind. */
  ghost predicate Warrants(z: Scrubber, run: FinishedRun, taskKey: string, kind: Kind) {
    HasReport(run, taskKey) &&
    match kind
    case QueryStrategy => SafeQuery(z, run, taskKey)
    case SourceStrategy => HasSource(run, taskKey)
    case EvidencePattern => HasPacket(run, taskKey)
    case TaskRecipe => HasObjective(z, run, taskKey) || HasPoint(z, run, taskKey) || HasSource(run, taskKey)
    case AcceptanceHeuristic => taskKey in run.reviews && run.reviews[taskKey].approved
    case _ => false
  }

  lemma AnyReport(run: FinishedRun, taskKey: string, test: Report -> bool)
    ensures (exists i :: 0 <= i < |ReportsOf(run.reports, taskKey)| && test(ReportsOf(run.reports, taskKey)[i])) <==>
            exists r :: r in run.reports && r.taskKey == taskKey && test(r)
  {
    var reports := ReportsOf(run.reports, taskKey);
    if i :| 0 <= i < |reports| && test(reports[i]) {
      ReportsOfExactly(run.reports, taskKey, reports[i]);
      assert reports[i] in run.reports;
    }
    if r :| r in run.reports && r.taskKey == taskKey && test(r) {
      ReportsOfExactly(run.reports, taskKey, r);
      var i :| 0 <= i < |reports| && reports[i] == r;
      assert test(reports[i]);
    }
  }

  lemma ReportedExactly(run: FinishedRun, taskKey: string)
    ensures ReportsOf(run.reports, taskKey) != [] <==> HasReport(run, taskKey)
  {
    AnyReport(run, taskKey, (r: Report) => true);
    var reports := ReportsOf(run.reports, taskKey);
    if reports != [] {
      ReportsOfExactly(run.reports, taskKey, reports[0]);
    }
    if HasReport(run, taskKey) {
      var r :| r in run.reports && r.taskKey == taskKey;
      ReportsOfExactly(run.reports, taskKey, r);
    }
  }

  lemma SourcesExactly(run: FinishedRun, taskKey: string)
    ensures AnySource(ReportsOf(run.reports, taskKey)) <==> HasSource(run, taskKey)
  {
    var test := (r: Report) => r.sourceCount > 0;
    AnyReport(run, taskKey, test);
    assert forall r :: test(r) == (r.sourceCount > 0);
  }

  lemma PacketsExactly(run: FinishedRun, taskKey: string)
    ensures AnyPacket(ReportsOf(run.reports, taskKey)) <==> HasPacket(run, taskKey)
  {
    var test := (r: Report) => r.packetCount > 0;
    AnyReport(run, taskKey, test);
    assert forall r :: test(r) == (r.packetCount > 0);
  }

  lemma ObjectivesExactly(z: Scrubber, run: FinishedRun, taskKey: string)
    ensures AnyObjective(z, ReportsOf(run.reports, taskKey)) <==> HasObjective(z, run, taskKey)
  {
    var test := (r: Report) => Trim(z.scrub(r.objective)) != "";
    AnyReport(run, taskKey, test);
    assert forall r :: test(r) == (Trim(z.scrub(r.objective)) != "");
  }

  lemma PointsExactly(z: Scrubber, run: FinishedRun, taskKey: string)
    ensures AnyScrubbed(z, PointsOf(run.reviews, taskKey)) <==> HasPoint(z, run, taskKey)
  {
    if taskKey in run.reviews {
      var points := run.reviews[taskKey].acceptedPoints;
      assert |FirstTwelve(points)| == if |points| <= 12 then |points| else 12;
      assert forall i | 0 <= i < |FirstTwelve(points)| :: FirstTwelve(points)[i] == points[i];
      if HasPoint(z, run, taskKey) {
        var i :| 0 <= i < |points| && i < 12 && Trim(z.scrub(points[i])) != "";
        assert FirstTwelve(points)[i] == points[i];
      }
    }
  }

  /** The i-th report is the last one of the task. */
  ghost predicate LastOf(reports: seq<Report>, taskKey: string, i: int) {
    0 <= i < |reports| && reports[i].taskKey == taskKey && forall j | i < j < |reports| :: reports[j].taskKey != taskKey
  }

  lemma StillLast(reports: seq<Report>, r: Report, taskKey: string, i: int)
    requires LastOf(reports, taskKey, i) && r.taskKey != taskKey
    ensures LastOf(reports + [r], taskKey, i) && (reports + [r])[i] == reports[i]
  {
  }

  /** The worker of the task's last report; it names the patterns and, turned into the Lead's or
      the Critic's role, those written for these two. */
  lemma {:induction false} LastReport(reports: seq<Report>, taskKey: string)
    requires ReportsOf(reports, taskKey) != []
    ensures var mine := ReportsOf(reports, taskKey);
            exists i :: LastOf(reports, taskKey, i) && mine[|mine| - 1] == reports[i]
  {
    var init, last := reports[..|reports| - 1], reports[|reports| - 1];
    assert reports == init + [last];
    if last.taskKey == taskKey {
      assert LastOf(reports, taskKey, |reports| - 1);
    } else {
      LastReport(init, taskKey);
      var mine := ReportsOf(init, taskKey);
      var i :| LastOf(init, taskKey, i) && mine[|mine| - 1] == init[i];
      StillLast(init, last, taskKey, i);
    }
  }

  function RoleFor(z: Scrubber, worker: string, kind: Kind): string {
    var role := if worker == "" then "researcher" else worker;
    if kind == TaskRecipe then z.leadRole(role) else if kind == AcceptanceHeuristic then z.criticRole(role) else role
  }

  lemma ShowsExactly(z: Scrubber, run: FinishedRun, taskKey: string, kind: Kind)
    requires HasReport(run, taskKey)
    ensures Shows(z, run.reviews, taskKey, ReportsOf(run.reports, taskKey), kind) <==> Warrants(z, run, taskKey, kind)
  {
    match kind
    case QueryStrategy => StructuralOfTask(z, run, taskKey);
    case SourceStrategy => SourcesExactly(run, taskKey);
    case EvidencePattern => PacketsExactly(run, taskKey);
    case TaskRecipe =>
      SourcesExactly(run, taskKey);
      ObjectivesExactly(z, run, taskKey);
      PointsExactly(z, run, taskKey);
    case AcceptanceHeuristic =>
    case _ =>
  }

  /** A task's pattern of a kind is there exactly when the task warrants it. */
  lemma TaskPatternExactly(z: Scrubber, run: FinishedRun, taskKey: string, kind: Kind)
    requires ReportsOf(run.reports, taskKey) != []
    ensures TaskPattern(z, run.reviews, taskKey, ReportsOf(run.reports, taskKey), kind) != [] <==> Warrants(z, run, taskKey, kind)
  {
    ReportedExactly(run, taskKey);
    ShowsExactly(z, run, taskKey, kind);
  }

  lemma TaskPatternForm(z: Scrubber, reviews: map<string, CriticSummary>, taskKey: string, reports: seq<Report>, kind: Kind)
    requires reports != []
    ensures forall e | e in TaskPattern(z, reviews, taskKey, reports, kind) :: e.kind == kind && e.taskKey == Some(taskKey)
  {
  }

  /** It is named after its role and task; the role follows from the worker of the last report. */
  lemma TaskPatternNamed(z: Scrubber, reviews: map<string, CriticSummary>, taskKey: string, reports: seq<Report>, kind: Kind)
    requires reports != []
    ensures forall e | e in TaskPattern(z, reviews, taskKey, reports, kind) ::
              e.prefix == z.lower(e.role) + "-" + taskKey && e.role == RoleFor(z, reports[|reports| - 1].worker, kind)
  {
  }

  ghost predicate Emits(es: seq<Emitted>, taskKey: string, kind: Kind) {
    exists e :: e in es && e.taskKey == Some(taskKey) && e.kind == kind
  }

  lemma EmitsJoins(a: seq<Emitted>, b: seq<Emitted>, taskKey: string, kind: Kind)
    ensures Emits(a + b, taskKey, kind) <==> Emits(a, taskKey, kind) || Emits(b, taskKey, kind)
  {
    if Emits(a, taskKey, kind) {
      var e :| e in a && e.taskKey == Some(taskKey) && e.kind == kind;
      assert e in a + b;
    }
    if Emits(b, taskKey, kind) {
      var e :| e in b && e.taskKey == Some(taskKey) && e.kind == kind;
      assert e in a + b;
    }
  }

  lemma KindExactly(z: Scrubber, run: FinishedRun, taskKey: string, own: Kind, kind: Kind)
    requires ReportsOf(run.reports, taskKey) != []
    ensures var es := TaskPattern(z, run.reviews, taskKey, ReportsOf(run.reports, taskKey), own);
            Emits(es, taskKey, kind) <==> kind == own && Warrants(z, run, taskKey, kind)
  {
    var es := TaskPattern(z, run.reviews, taskKey, ReportsOf(run.reports, taskKey), own);
    TaskPatternExactly(z, run, taskKey, own);
    TaskPatternForm(z, run.reviews, taskKey, ReportsOf(run.reports, taskKey), own);
    if es != [] {
      assert es[0] in es;
    }
  }

  lemma KindsOneMore(z: Scrubber, reviews: map<string, CriticSummary>, taskKey: string, reports: seq<Report>, kinds: seq<Kind>, kind: Kind)
    requires reports != []
    ensures PatternsOfKinds(z, reviews, taskKey, reports, kinds + [kind]) ==
            PatternsOfKinds(z, reviews, taskKey, reports, kinds) + TaskPattern(z, reviews, taskKey, reports, kind)
  {
    assert (kinds + [kind])[..|kinds|] == kinds;
  }

  lemma {:induction false} KindsExactly(z: Scrubber, run: FinishedRun, taskKey: string, kinds: seq<Kind>, kind: Kind)
    requires ReportsOf(run.reports, taskKey) != []
    ensures Emits(PatternsOfKinds(z, run.reviews, taskKey, ReportsOf(run.reports, taskKey), kinds), taskKey, kind) <==>
            kind in kinds && Warrants(z, run, taskKey, kind)
  {
    if kinds != [] {
      var init, last := kinds[..|kinds| - 1], kinds[|kinds| - 1];
      var reports := ReportsOf(run.reports, taskKey);
      assert kinds == init + [last];
      KindsExactly(z, run, taskKey, init, kind);
      KindExactly(z, run, taskKey, last, kind);
      KindsOneMore(z, run.reviews, taskKey, reports, init, last);
      EmitsJoins(PatternsOfKinds(z, run.reviews, taskKey, reports, init), TaskPattern(z, run.reviews, taskKey, reports, last), taskKey, kind);
    }
  }

  lemma {:induction false} KindsOfTask(z: Scrubber, reviews: map<string, CriticSummary>, taskKey: string, reports: seq<Report>, kinds: seq<Kind>)
    requires reports != []
    ensures forall e | e in PatternsOfKinds(z, reviews, taskKey, reports, kinds) :: e.taskKey == Some(taskKey)
  {
    if kinds != [] {
      KindsOfTask(z, reviews, taskKey, reports, kinds[..|kinds| - 1]);
      TaskPatternForm(z, reviews, taskKey, reports, kinds[|kinds| - 1]);
    }
  }

  /** What one turn of the loop over the tasks adds. */
  function OfOneTask(z: Scrubber, run: FinishedRun, key: string): seq<Emitted> {
    var reports := ReportsOf(run.reports, key);
    if reports != [] then TaskPatterns(z, run.reviews, key, reports) else []
  }

  lemma OneTaskExactly(z: Scrubber, run: FinishedRun, key: string, taskKey: string, kind: Kind)
    ensures Emits(OfOneTask(z, run, key), taskKey, kind) <==> key == taskKey && kind in TASK_KINDS && Warrants(z, run, taskKey, kind)
  {
    ReportedExactly(run, key);
    if ReportsOf(run.reports, key) != [] {
      KindsOfTask(z, run.reviews, key, ReportsOf(run.reports, key), TASK_KINDS);
      KindsExactly(z, run, key, TASK_KINDS, kind);
    }
  }

  /** The task is among these. */
  ghost predicate Among(tasks: seq<Scored<string>>, taskKey: string) {
    exists i :: 0 <= i < |tasks| && tasks[i].item == taskKey
  }

  lemma AmongOneMore(tasks: seq<Scored<string>>, task: Scored<string>, taskKey: string)
    ensures Among(tasks + [task], taskKey) <==> Among(tasks, taskKey) || task.item == taskKey
  {
    var more := tasks + [task];
    assert more[|tasks|] == task && forall i | 0 <= i < |tasks| :: more[i] == tasks[i];
  }

  lemma TasksOneMore(z: Scrubber, run: FinishedRun, tasks: seq<Scored<string>>, task: Scored<string>)
    ensures AllTaskPatterns(z, run, tasks + [task]) == AllTaskPatterns(z, run, tasks) + OfOneTask(z, run, task.item)
  {
    assert (tasks + [task])[..|tasks|] == tasks;
  }

  lemma {:induction false} AllTasksExactly(z: Scrubber, run: FinishedRun, tasks: seq<Scored<string>>, taskKey: string, kind: Kind)
    ensures Emits(AllTaskPatterns(z, run, tasks), taskKey, kind) <==>
            Among(tasks, taskKey) && kind in TASK_KINDS && Warrants(z, run, taskKey, kind)
  {
    if tasks != [] {
      var init, last := tasks[..|tasks| - 1], tasks[|tasks| - 1];
      assert tasks == init + [last];
      AllTasksExactly(z, run, init, taskKey, kind);
      OneTaskExactly(z, run, last.item, taskKey, kind);
      TasksOneMore(z, run, init, last);
      AmongOneMore(init, last, taskKey);
      EmitsJoins(AllTaskPatterns(z, run, init), OfOneTask(z, run, last.item), taskKey, kind);
    }
  }

  lemma {:induction false} AcceptedKeysExactly(run: FinishedRun, reports: seq<Report>, key: string)
    ensures key in AcceptedKeys(run, reports) <==> key in run.accepted && exists r :: r in reports && r.taskKey == key
  {
    if reports != [] {
      var init, last := reports[..|reports| - 1], reports[|reports| - 1];
      assert reports == init + [last];
      AcceptedKeysExactly(run, init, key);
      assert last in reports;
    }
  }

  lemma SortedTasksExactly(run: FinishedRun, key: string)
    ensures Among(SortedTasks(run), key) <==> key in run.accepted && HasReport(run, key)
  {
    var keys := Distinct(AcceptedKeys(run, run.reports));
    var tasks := SortedTasks(run);
    AcceptedKeysExactly(run, run.reports, key);
    DistinctSound(AcceptedKeys(run, run.reports));
    if i :| 0 <= i < |tasks| && tasks[i].item == key {
      RankMembers(ByName(keys), tasks[i]);
      var j :| 0 <= j < |keys| && ByName(keys)[j] == tasks[i];
      assert keys[j] in keys;
    }
    if key in keys {
      var j :| 0 <= j < |keys| && keys[j] == key;
      assert ByName(keys)[j] in ByName(keys);
      RankMembers(ByName(keys), ByName(keys)[j]);
      var i :| 0 <= i < |tasks| && tasks[i] == ByName(keys)[j];
    }
  }

  /** A task's pattern bears the name and role that its last report gives it. */
  ghost predicate WellNamed(z: Scrubber, run: FinishedRun, e: Emitted) {
    e.taskKey.Some? ==>
      exists i :: LastOf(run.reports, e.taskKey.value, i)
                  && e.role == RoleFor(z, run.reports[i].worker, e.kind)
                  && e.prefix == z.lower(e.role) + "-" + e.taskKey.value
  }

  lemma KindNamed(z: Scrubber, run: FinishedRun, taskKey: string, kind: Kind)
    requires ReportsOf(run.reports, taskKey) != []
    ensures forall e | e in TaskPattern(z, run.reviews, taskKey, ReportsOf(run.reports, taskKey), kind) :: WellNamed(z, run, e)
  {
    var reports := ReportsOf(run.reports, taskKey);
    TaskPatternForm(z, run.reviews, taskKey, reports, kind);
    TaskPatternNamed(z, run.reviews, taskKey, reports, kind);
    LastReport(run.reports, taskKey);
    var i :| LastOf(run.reports, taskKey, i) && reports[|reports| - 1] == run.reports[i];
    forall e | e in TaskPattern(z, run.reviews, taskKey, reports, kind) ensures WellNamed(z, run, e) {
      assert LastOf(run.reports, e.taskKey.value, i) && e.role == RoleFor(z, run.reports[i].worker, e.kind);
    }
  }

  lemma {:induction false} KindsNamed(z: Scrubber, run: FinishedRun, taskKey: string, kinds: seq<Kind>)
    requires ReportsOf(run.reports, taskKey) != []
    ensures forall e | e in PatternsOfKinds(z, run.reviews, taskKey, ReportsOf(run.reports, taskKey), kinds) :: WellNamed(z, run, e)
  {
    if kinds != [] {
      KindsNamed(z, run, taskKey, kinds[..|kinds| - 1]);
      KindNamed(z, run, taskKey, kinds[|kinds| - 1]);
    }
  }

  lemma {:induction false} TasksNamed(z: Scrubber, run: FinishedRun, tasks: seq<Scored<string>>)
    ensures forall e | e in AllTaskPatterns(z, run, tasks) :: WellNamed(z, run, e)
  {
    if tasks != [] {
      var n := |tasks| - 1;
      TasksNamed(z, run, tasks[..n]);
      if ReportsOf(run.reports, tasks[n].item) != [] {
        KindsNamed(z, run, tasks[n].item, TASK_KINDS);
      }
    }
  }

  // ---- patterns of critics and departments ----

  /** A pattern of a whole run, of the given kind and name prefix. */
  ghost predicate EmitsAs(es: seq<Emitted>, prefix: string, kind: Kind) {
    exists e :: e in es && e.taskKey == None && e.prefix == prefix && e.kind == kind
  }

  lemma EmitsAsJoins(a: seq<Emitted>, b: seq<Emitted>, prefix: string, kind: Kind)
    ensures EmitsAs(a + b, prefix, kind) <==> EmitsAs(a, prefix, kind) || EmitsAs(b, prefix, kind)
  {
    if EmitsAs(a, prefix, kind) {
      var e :| e in a && e.taskKey == None && e.prefix == prefix && e.kind == kind;
      assert e in a + b;
    }
    if EmitsAs(b, prefix, kind) {
      var e :| e in b && e.taskKey == None && e.prefix == prefix && e.kind == kind;
      assert e in a + b;
    }
  }

  /** Some accepted task of the department has a review. */
  ghost predicate ReviewedIn(z: Scrubber, run: FinishedRun, prefix: string) {
    exists key :: key in run.reviews && key in run.accepted && z.mentions(prefix, key)
  }

  lemma {:induction false} CriticsExactly(z: Scrubber, run: FinishedRun, critics: seq<(string, string)>, prefix: string, kind: Kind)
    ensures EmitsAs(CriticPatterns(z, run, critics), prefix, kind) <==>
            kind == CriticHeuristics && ReviewedIn(z, run, prefix) && exists i :: 0 <= i < |critics| && critics[i].1 == prefix
  {
    if critics != [] {
      var n := |critics| - 1;
      CriticsExactly(z, run, critics[..n], prefix, kind);
      assert forall i | 0 <= i < n :: critics[..n][i] == critics[i];
      var (role, last) := critics[n];
      var e := Emitted(CriticHeuristics, last, role, None, []);
      var es := if exists key | key in run.reviews :: key in run.accepted && z.mentions(last, key) then [e] else [];
      EmitsAsJoins(CriticPatterns(z, run, critics[..n]), es, prefix, kind);
      assert e in [e];
    }
  }

  /** What a department must show for a pattern of each kind. */
  ghost predicate DepartmentWarrants(z: Scrubber, d: DepartmentState, kind: Kind) {
    match kind
    case JudgePatterns => d.escalations > 0
    case CodingPatterns => d.codingInterventions > 0
    case RetryPatterns => exists i :: 0 <= i < |d.retryReasons| && d.retryReasons[i] != "" && |z.scrub(d.retryReasons[i])| > 8
    case _ => false
  }

  lemma WhenExactly(condition: bool, e: Emitted, prefix: string, kind: Kind)
    requires e.taskKey == None
    ensures EmitsAs(When(condition, e), prefix, kind) <==> condition && e.prefix == prefix && e.kind == kind
  {
    assert e in [e];
  }

  lemma DepartmentExactly(z: Scrubber, d: DepartmentState, prefix: string, kind: Kind)
    ensures EmitsAs(DepartmentPatterns(z, d), prefix, kind) <==> z.lower(d.name) == prefix && DepartmentWarrants(z, d, kind)
  {
    var judge := When(d.escalations > 0, DepartmentPattern(z, JudgePatterns, d));
    var coding := When(d.codingInterventions > 0, DepartmentPattern(z, CodingPatterns, d));
    var retry := When(AnyReason(z, d.retryReasons), DepartmentPattern(z, RetryPatterns, d));
    WhenExactly(d.escalations > 0, DepartmentPattern(z, JudgePatterns, d), prefix, kind);
    WhenExactly(d.codingInterventions > 0, DepartmentPattern(z, CodingPatterns, d), prefix, kind);
    WhenExactly(AnyReason(z, d.retryReasons), DepartmentPattern(z, RetryPatterns, d), prefix, kind);
    EmitsAsJoins(judge, coding, prefix, kind);
    EmitsAsJoins(judge + coding, retry, prefix, kind);
  }

  lemma {:induction false} DepartmentsExactly(z: Scrubber, departments: seq<DepartmentState>, prefix: string, kind: Kind)
    ensures EmitsAs(AllDepartmentPatterns(z, departments), prefix, kind) <==>
            exists d :: d in departments && z.lower(d.name) == prefix && DepartmentWarrants(z, d, kind)
  {
    if departments != [] {
      var init, last := departments[..|departments| - 1], departments[|departments| - 1];
      assert departments == init + [last];
      DepartmentsExactly(z, init, prefix, kind);
      DepartmentExactly(z, last, prefix, kind);
      EmitsAsJoins(AllDepartmentPatterns(z, init), DepartmentPatterns(z, last), prefix, kind);
      assert last in departments;
    }
  }

  // ---- the whole run ----

  ghost predicate ForTask(es: seq<Emitted>) {
    forall e | e in es :: e.taskKey.Some?
  }

  ghost predicate ForRun(es: seq<Emitted>) {
    forall e | e in es :: e.taskKey.None?
  }

  lemma {:induction false} QueryPatternsForRun(z: Scrubber, run: FinishedRun, workers: seq<string>)
    ensures ForRun(FullRunPatterns(z, run, workers))
    ensures forall e | e in FullRunPatterns(z, run, workers) :: e.kind == QueryPatterns
  {
    if workers != [] {
      QueryPatternsForRun(z, run, workers[..|workers| - 1]);
    }
  }

  lemma {:induction false} TasksForTask(z: Scrubber, run: FinishedRun, tasks: seq<Scored<string>>)
    ensures ForTask(AllTaskPatterns(z, run, tasks))
  {
    if tasks != [] {
      var n := |tasks| - 1;
      TasksForTask(z, run, tasks[..n]);
      if ReportsOf(run.reports, tasks[n].item) != [] {
        KindsOfTask(z, run.reviews, tasks[n].item, ReportsOf(run.reports, tasks[n].item), TASK_KINDS);
      }
    }
  }

  lemma {:induction false} CriticsForRun(z: Scrubber, run: FinishedRun, critics: seq<(string, string)>)
    ensures ForRun(CriticPatterns(z, run, critics))
  {
    if critics != [] {
      CriticsForRun(z, run, critics[..|critics| - 1]);
    }
  }

  lemma {:induction false} DepartmentsForRun(z: Scrubber, departments: seq<DepartmentState>)
    ensures ForRun(AllDepartmentPatterns(z, departments))
  {
    if departments != [] {
      DepartmentsForRun(z, departments[..|departments| - 1]);
    }
  }

  lemma Parts(z: Scrubber, run: FinishedRun, e: Emitted)
    ensures e in Consolidated(z, run) <==>
            (FullRun(run) || TaskPositive(run)) &&
            (|| e in FullRunPatterns(z, run, Distinct(IncludedWorkers(run, run.reports)))
             || e in AllTaskPatterns(z, run, SortedTasks(run))
             || (FullRun(run) && run.reviews != map[] && e in CriticPatterns(z, run, CRITICS))
             || (FullRun(run) && e in AllDepartmentPatterns(z, run.departments)))
  {
  }

  /** A run is evaluated at all when it ended well and is usable, or when it ended in any known
      way with an accepted task. */
  lemma EligibleExactly(z: Scrubber, run: FinishedRun, e: Emitted)
    requires e in Consolidated(z, run)
    ensures || ((run.status == RunCompleted || run.status == RunSucceeded) && run.usable)
            || (run.status != RunOther && run.accepted != {})
  {
    Parts(z, run, e);
  }

  /** For an accepted task of an eligible run a pattern of each kind is written exactly when the
      task warrants it, and no other kind is written for a task. */
  lemma TasksExactly(z: Scrubber, run: FinishedRun, taskKey: string, kind: Kind)
    requires FullRun(run) || TaskPositive(run)
    ensures Emits(Consolidated(z, run), taskKey, kind) <==> taskKey in run.accepted && Warrants(z, run, taskKey, kind)
  {
    var tasks := AllTaskPatterns(z, run, SortedTasks(run));
    SortedTasksExactly(run, taskKey);
    AllTasksExactly(z, run, SortedTasks(run), taskKey, kind);
    QueryPatternsForRun(z, run, Distinct(IncludedWorkers(run, run.reports)));
    CriticsForRun(z, run, CRITICS);
    DepartmentsForRun(z, run.departments);
    if Emits(Consolidated(z, run), taskKey, kind) {
      var e :| e in Consolidated(z, run) && e.taskKey == Some(taskKey) && e.kind == kind;
      Parts(z, run, e);
      assert e in tasks;
    }
    if Emits(tasks, taskKey, kind) {
      var e :| e in tasks && e.taskKey == Some(taskKey) && e.kind == kind;
      Parts(z, run, e);
    }
    assert Warrants(z, run, taskKey, kind) ==> kind in TASK_KINDS by {
      assert TASK_KINDS[0] == QueryStrategy && TASK_KINDS[1] == SourceStrategy && TASK_KINDS[2] == EvidencePattern
          && TASK_KINDS[3] == TaskRecipe && TASK_KINDS[4] == AcceptanceHeuristic;
    }
  }

  lemma ConsolidatedNamed(z: Scrubber, run: FinishedRun, e: Emitted)
    requires e in Consolidated(z, run)
    ensures WellNamed(z, run, e)
  {
    Parts(z, run, e);
    TasksNamed(z, run, SortedTasks(run));
    QueryPatternsForRun(z, run, Distinct(IncludedWorkers(run, run.reports)));
    CriticsForRun(z, run, CRITICS);
    DepartmentsForRun(z, run.departments);
  }

  /** For a full run the critics' and departments' patterns are written exactly when they should
      be: a critic's when an accepted task of its department has a review, a department's for its
      escalations, its coding interventions, and a retry reason that survives scrubbing. */
  lemma RunPatternsExactly(z: Scrubber, run: FinishedRun, prefix: string, kind: Kind)
    requires kind != QueryPatterns && (FullRun(run) || TaskPositive(run))
    ensures EmitsAs(Consolidated(z, run), prefix, kind) <==>
            FullRun(run) &&
            (|| (kind == CriticHeuristics && ReviewedIn(z, run, prefix) && exists i :: 0 <= i < |CRITICS| && CRITICS[i].1 == prefix)
             || exists d :: d in run.departments && z.lower(d.name) == prefix && DepartmentWarrants(z, d, kind))
  {
    var critics, departments := CriticPatterns(z, run, CRITICS), AllDepartmentPatterns(z, run.departments);
    CriticsExactly(z, run, CRITICS, prefix, kind);
    DepartmentsExactly(z, run.departments, prefix, kind);
    QueryPatternsForRun(z, run, Distinct(IncludedWorkers(run, run.reports)));
    TasksForTask(z, run, SortedTasks(run));
    if EmitsAs(Consolidated(z, run), prefix, kind) {
      var e :| e in Consolidated(z, run) && e.taskKey == None && e.prefix == prefix && e.kind == kind;
      Parts(z, run, e);
      assert e in critics || e in departments;
    }
    if FullRun(run) && EmitsAs(departments, prefix, kind) {
      var e :| e in departments && e.taskKey == None && e.prefix == prefix && e.kind == kind;
      Parts(z, run, e);
    }
    if FullRun(run) && EmitsAs(critics, prefix, kind) {
      var e :| e in critics && e.taskKey == None && e.prefix == prefix && e.kind == kind;
      assert run.reviews != map[];
      Parts(z, run, e);
    }
  }

  lemma {:induction false} QueriesOfExactly(run: FinishedRun, reports: seq<Report>, worker: string, q: string)
    ensures q in QueriesOf(run, reports, worker) <==>
            exists r :: r in reports && (r.taskKey == "" || r.taskKey in run.accepted) && r.worker == worker && q in r.queries
  {
    if reports != [] {
      var init, last := reports[..|reports| - 1], reports[|reports| - 1];
      assert reports == init + [last];
      QueriesOfExactly(run, init, worker, q);
      assert last in reports;
    }
  }

  /** The queries a full run writes out for a worker: the safe scrubbed ones of its reports on
      accepted tasks or on none, each once, under the worker's own name. */
  lemma WorkerQueriesExactly(z: Scrubber, run: FinishedRun, e: Emitted, s: string)
    requires FullRun(run) && e in Consolidated(z, run) && e.kind == QueryPatterns
    ensures e.prefix == z.lower(e.role) && e.taskKey == None && NoRepeats(e.queries)
    ensures s in e.queries <==>
            z.processSafe(s) && exists r, q :: r in run.reports && (r.taskKey == "" || r.taskKey in run.accepted)
                                              && r.worker == e.role && q in r.queries && s == z.scrub(q)
  {
    ConsolidatedMembers(z, run, e);
    var queries := QueriesOf(run, run.reports, e.role);
    StructuralMeaning(z, queries);
    if s in e.queries {
      var q :| q in queries && s == z.scrub(q) && z.processSafe(s);
      QueriesOfExactly(run, run.reports, e.role, q);
    }
    if r, q :| z.processSafe(s) && r in run.reports && (r.taskKey == "" || r.taskKey in run.accepted)
               && r.worker == e.role && q in r.queries && s == z.scrub(q) {
      QueriesOfExactly(run, run.reports, e.role, q);
    }
  }

  /** And such a pattern is written for every worker with a safe query. */
  lemma WorkersExactly(z: Scrubber, run: FinishedRun, worker: string)
    requires FullRun(run)
    ensures (exists e :: e in Consolidated(z, run) && e.kind == QueryPatterns && e.role == worker) <==>
            exists r, q :: r in run.reports && (r.taskKey == "" || r.taskKey in run.accepted)
                           && r.worker == worker && q in r.queries && z.processSafe(z.scrub(q))
  {
    var queries := QueriesOf(run, run.reports, worker);
    var structural := StructuralOf(z, run, worker);
    StructuralMeaning(z, queries);
    ConsolidatedMembers(z, run, QueryPattern(z, run, worker));
    if e :| e in Consolidated(z, run) && e.kind == QueryPatterns && e.role == worker {
      ConsolidatedMembers(z, run, e);
      assert structural[0] in structural;
      var q :| q in queries && structural[0] == z.scrub(q) && z.processSafe(structural[0]);
      QueriesOfExactly(run, run.reports, worker, q);
    }
    if r, q :| r in run.reports && (r.taskKey == "" || r.taskKey in run.accepted)
               && r.worker == worker && q in r.queries && z.processSafe(z.scrub(q)) {
      QueriesOfExactly(run, run.reports, worker, q);
      assert z.scrub(q) in structural;
    }
  }
}
