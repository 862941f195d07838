/** The Lead's tools as they update the shared run state, proved to follow the state machine
    of module `Lead`. */
module DepartmentLead {
  import opened JsonModel
  import opened Critic
  import opened Judge
  import opened Contracts
  import opened Lead
  import PolicyGate

  function Lookup<V>(m: map<string, V>, key: string, default: V): V {
    if key in m then m[key] else default
  }

  /** A failure part-way is the failure of the whole assembly. */
  lemma {:induction false} SettleAllFails(c: Config, s: State, assignments: seq<Assignment>, n: nat)
    requires n <= |assignments| && SettleAll(c, s, assignments[..n]).1.Failure?
    ensures SettleAll(c, s, assignments) == SettleAll(c, s, assignments[..n])
    decreases |assignments| - n
  {
    if n == |assignments| {
      assert assignments[..n] == assignments;
    } else {
      assert assignments[..n + 1][..n] == assignments[..n];
      SettleAllFails(c, s, assignments, n + 1);
    }
  }

  lemma {:induction false} FallbackFails(c: Config, s: State, assignments: seq<Assignment>, n: nat)
    requires n <= |assignments| && FallbackEntries(c, s, assignments[..n]).Failure?
    ensures FallbackEntries(c, s, assignments).Failure?
    decreases |assignments| - n
  {
    if n == |assignments| {
      assert assignments[..n] == assignments;
    } else {
      assert assignments[..n + 1][..n] == assignments[..n];
      FallbackFails(c, s, assignments, n + 1);
    }
  }

  /** The payload-loss guard: a loop over the keys the worker left out. */
  method GuardPayload(previous: Dict, reported: Dict) returns (merged: Dict)
    ensures merged == Guarded(previous, reported)
  {
    merged := reported;
    var lost := previous.Keys - reported.Keys - {"sources"};
    while lost != {}
      invariant lost <= previous.Keys - reported.Keys - {"sources"}
      invariant forall key :: key in merged <==> key in Guarded(previous, reported) && key !in lost
      invariant forall key | key in merged :: merged[key] == Guarded(previous, reported)[key]
      decreases lost
    {
      var key :| key in lost;
      lost := lost - {key};
      if !DefaultValue(previous[key]) {
        merged := merged[key := previous[key]];
      }
    }
  }

  class DepartmentRun {
    const config: Config
    var attempts: map<string, nat>
    var taskArtifacts: map<string, seq<Artifact>>
    var reviewArtifacts: map<string, seq<StoredReview>>
    var decisionArtifacts: map<string, seq<Decision>>
    var currentPayload: Dict
    var queryOverrides: map<string, seq<string>>
    var blockedFinalizeAttempts: nat
    var toolErrors: seq<(Tool, string)>

    /** The abstract state these fields stand for. */
    ghost var model: State

    /** What the four registries hold about one task. */
    function Recorded(key: string): Task
      reads this
    {
      Task(Lookup(attempts, key, 0), Lookup(taskArtifacts, key, []),
           Lookup(reviewArtifacts, key, []), Lookup(decisionArtifacts, key, []))
    }

    ghost predicate Valid()
      reads this
    {
      && (forall key :: Recorded(key) == TaskOf(model, key))
      && currentPayload == model.payload
      && queryOverrides == model.overrides
      && blockedFinalizeAttempts == model.blockedFinalize
      && toolErrors == model.toolErrors
    }

    constructor (config: Config, section: Dict)
      ensures Valid() && this.config == config && model == InitialState(section)
    {
      this.config := config;
      attempts, taskArtifacts, reviewArtifacts, decisionArtifacts := map[], map[], map[], map[];
      currentPayload, queryOverrides, blockedFinalizeAttempts, toolErrors := section, map[], 0, [];
      model := InitialState(section);
    }

    // ---- the registries ----

    /** A new attempt starts: the counter goes up. */
    method StartAttempt(key: string) returns (attempt: nat)
      requires Valid()
      modifies `attempts, `model
      ensures Valid() && attempt == TaskOf(old(model), key).attempts + 1
      ensures model == SetTask(old(model), key, TaskOf(old(model), key).(attempts := attempt))
    {
      ghost var t := TaskOf(model, key);
      assert Recorded(key) == t;
      attempt := Lookup(attempts, key, 0) + 1;
      attempts := attempts[key := attempt];
      model := SetTask(model, key, t.(attempts := attempt));
      forall k ensures Recorded(k) == TaskOf(model, k) {
        assert old(Recorded(k)) == TaskOf(old(model), k);
      }
    }

    method RecordTaskArtifact(key: string, a: Artifact)
      requires Valid()
      modifies `taskArtifacts, `model
      ensures Valid() && model == SetTask(old(model), key, TaskOf(old(model), key).WithArtifact(a))
    {
      ghost var t := TaskOf(model, key);
      assert Recorded(key) == t;
      taskArtifacts := taskArtifacts[key := Lookup(taskArtifacts, key, []) + [a]];
      model := SetTask(model, key, t.WithArtifact(a));
      forall k ensures Recorded(k) == TaskOf(model, k) {
        assert old(Recorded(k)) == TaskOf(old(model), k);
      }
    }

    method RecordReviewArtifact(key: string, r: StoredReview)
      requires Valid()
      modifies `reviewArtifacts, `model
      ensures Valid() && model == SetTask(old(model), key, TaskOf(old(model), key).WithReview(r))
    {
      ghost var t := TaskOf(model, key);
      assert Recorded(key) == t;
      reviewArtifacts := reviewArtifacts[key := Lookup(reviewArtifacts, key, []) + [r]];
      model := SetTask(model, key, t.WithReview(r));
      forall k ensures Recorded(k) == TaskOf(model, k) {
        assert old(Recorded(k)) == TaskOf(old(model), k);
      }
    }

    method RecordDecisionArtifact(key: string, d: Decision)
      requires Valid()
      modifies `decisionArtifacts, `model
      ensures Valid() && model == SetTask(old(model), key, TaskOf(old(model), key).WithDecision(d))
    {
      ghost var t := TaskOf(model, key);
      assert Recorded(key) == t;
      decisionArtifacts := decisionArtifacts[key := Lookup(decisionArtifacts, key, []) + [d]];
      model := SetTask(model, key, t.WithDecision(d));
      forall k ensures Recorded(k) == TaskOf(model, k) {
        assert old(Recorded(k)) == TaskOf(old(model), k);
      }
    }

    method RecordToolError(tool: Tool, key: string)
      requires Valid()
      modifies `toolErrors, `model
      ensures Valid() && model == old(model).(toolErrors := old(model).toolErrors + [(tool, key)])
    {
      toolErrors := toolErrors + [(tool, key)];
      ghost var before := model;
      model := model.(toolErrors := toolErrors);
      forall k ensures Recorded(k) == TaskOf(model, k) {
        assert Recorded(k) == TaskOf(before, k);
      }
    }

    function LatestArtifact(key: string): Option<Artifact>
      reads this
    {
      Last(Lookup(taskArtifacts, key, []))
    }

    function LatestReview(key: string): Option<StoredReview>
      reads this
    {
      Last(Lookup(reviewArtifacts, key, []))
    }

    function LatestDecision(key: string): Option<Decision>
      reads this
    {
      Last(Lookup(decisionArtifacts, key, []))
    }

    /** `is_dependency_satisfied`, level by level. */
    method IsDependencySatisfied(key: string) returns (satisfied: bool)
      ensures satisfied <==> Recorded(key).SatisfiesDependents()
    {
      var decision := LatestDecision(key);
      if decision.Some? {
        return decision.value.outcome == Accepted || decision.value.outcome == AcceptedWithGaps;
      }
      var review := LatestReview(key);
      if review.Some? && review.value.approved {
        return true;
      }
      var artifact := LatestArtifact(key);
      return artifact.Some? && artifact.value.facts != [];
    }

    // ---- run_research ----

    /** The dependency guard: the first local dependency that is not satisfied. */
    method MissingDependency(deps: seq<string>) returns (missing: Option<string>)
      requires Valid()
      ensures missing == FirstUnmet(config, model, deps)
    {
      for i := 0 to |deps|
        invariant FirstUnmet(config, model, deps) == FirstUnmet(config, model, deps[i..])
      {
        if !Assigned(config, deps[i]) {
          continue;
        }
        var satisfied := IsDependencySatisfied(deps[i]);
        if !satisfied {
          return Some(deps[i]);
        }
      }
      return None;
    }

    method AllDependenciesSatisfied(deps: seq<string>) returns (ok: bool)
      requires Valid()
      ensures ok <==> AllSatisfied(model, deps)
    {
      for i := 0 to |deps|
        invariant forall j | 0 <= j < i :: TaskOf(model, deps[j]).SatisfiesDependents()
      {
        var satisfied := IsDependencySatisfied(deps[i]);
        if !satisfied {
          return false;
        }
      }
      return true;
    }

    method RecordBlocked(key: string, dep: string)
      requires Valid()
      modifies this
      ensures Valid() && model == Block(old(model), key, dep)
    {
      var attempt := StartAttempt(key);
      RecordTaskArtifact(key, BlockedArtifact(attempt, dep));
      RecordDecisionArtifact(key, BlockedDecision(attempt));
    }

    method UpdatePayload(payload: Dict)
      requires Valid()
      modifies `currentPayload, `model
      ensures Valid() && model == old(model).(payload := payload)
    {
      currentPayload := payload;
      ghost var before := model;
      model := model.(payload := payload);
      forall k ensures Recorded(k) == TaskOf(model, k) {
        assert Recorded(k) == TaskOf(before, k);
      }
    }

    method CallWorker(key: string, w: WorkerResult) returns (reply: Reply)
      requires Valid()
      modifies this
      ensures Valid() && (model, reply) == Execute(old(model), key, w)
    {
      var attempt := StartAttempt(key);
      match w {
        case Raised =>
          RecordToolError(RunResearchTool, key);
          reply := ToolFailed;
        case Report(_, payload, _, _, _) =>
          RecordTaskArtifact(key, ArtifactOf(w, attempt));
          var merged := GuardPayload(currentPayload, payload);
          UpdatePayload(merged);
          reply := ResearchComplete(attempt);
      }
      assert model.tasks == old(model).tasks[key := TaskOf(model, key)];
    }

    method RunResearch(key: string, w: WorkerResult) returns (reply: Reply)
      requires Valid()
      modifies this
      ensures Valid() && (model, reply) == ResearchStep(config, old(model), key, w)
    {
      var assignment := Find(config.assignments, key);
      if assignment.None? {
        return UnknownTask;
      }
      var deps := assignment.value.dependsOn;
      var missing := MissingDependency(deps);
      if missing.Some? {
        RecordBlocked(key, missing.value);
        return BlockedBy(missing.value);
      }
      ghost var t := TaskOf(model, key);
      assert Recorded(key) == t;
      if LatestArtifact(key).Some? {
        var decision, review := LatestDecision(key), LatestReview(key);
        if decision.Some? && decision.value.outcome == BlockedByDependency {
          var allOk := AllDependenciesSatisfied(deps);
          if !allOk {
            return StillBlocked;
          }
        } else if review.Some? && !review.value.approved {
          var attempt := Lookup(attempts, key, 0);
          if attempt >= config.maxRetries {
            RecordDecisionArtifact(key, RetryLimitDecision(attempt, review.value));
            return RetryLimitReached;
          }
        } else {
          return AlreadyCompleted;
        }
      }
      reply := CallWorker(key, w);
    }

    // ---- review_research, suggest_refined_queries, judge_decision ----

    method ReviewResearch(key: string) returns (reply: Reply)
      requires Valid()
      modifies this
      ensures Valid() && (model, reply) == ReviewStep(config, old(model), key)
    {
      if Find(config.assignments, key).None? {
        return UnknownTask;
      }
      assert Recorded(key) == TaskOf(model, key);
      var artifact := LatestArtifact(key);
      if artifact.None? {
        return NoResearchYet;
      }
      var result := RunReview(RulesOf(config, key), artifact.value.payload, artifact.value.violations);
      match result {
        case Failure =>
          RecordToolError(ReviewTool, key);
          reply := ToolFailed;
        case Success(r) =>
          var stored := FromCritic(r, artifact.value.attempt);
          RecordReviewArtifact(key, stored);
          reply := Reviewed(stored);
      }
    }

    method SuggestRefinedQueries(key: string, queries: Option<seq<string>>) returns (reply: Reply)
      requires Valid()
      modifies this
      ensures Valid() && (model, reply) == SuggestStep(config, old(model), key, queries)
    {
      if Find(config.assignments, key).None? {
        return UnknownTask;
      }
      match queries {
        case None =>
          RecordToolError(SuggestTool, key);
          reply := ToolFailed;
        case Some(qs) =>
          queryOverrides := queryOverrides[key := qs];
          ghost var before := model;
          model := model.(overrides := queryOverrides);
          forall k ensures Recorded(k) == TaskOf(model, k) {
            assert Recorded(k) == TaskOf(before, k);
          }
          reply := Suggested;
      }
    }

    method JudgeDecision(key: string) returns (reply: Reply)
      requires Valid()
      modifies this
      ensures Valid() && (model, reply) == JudgeStep(config, old(model), key)
    {
      if Find(config.assignments, key).None? {
        return UnknownTask;
      }
      assert Recorded(key) == TaskOf(model, key);
      var artifact := LatestArtifact(key);
      if artifact.None? {
        RecordDecisionArtifact(key, FromJudge(NO_ARTIFACT_VERDICT, Lookup(attempts, key, 0)));
        return Judged(NO_ARTIFACT_VERDICT);
      }
      if LatestReview(key).None? {
        RecordReviewArtifact(key, FallbackReview(artifact.value));
      }
      assert Recorded(key) == TaskOf(model, key);
      var verdict := Decide(Some(CountsOfStored(LatestReview(key).value)), []);
      RecordDecisionArtifact(key, FromJudge(verdict, artifact.value.attempt));
      assert model.tasks == old(model).tasks[key := TaskOf(model, key)];
      return Judged(verdict);
    }

    // ---- finalize_package ----

    method IncompleteTasks() returns (incomplete: seq<string>)
      requires Valid()
      ensures incomplete == Incomplete(model, config.assignments)
    {
      var assignments := config.assignments;
      incomplete := [];
      for i := 0 to |assignments|
        invariant incomplete == Incomplete(model, assignments[..i])
      {
        var key := assignments[i].key;
        assert assignments[..i + 1][..i] == assignments[..i];
        assert Recorded(key) == TaskOf(model, key);
        if LatestArtifact(key).None? && LatestDecision(key).None? {
          incomplete := incomplete + [key];
        }
      }
      assert assignments[..|assignments|] == assignments;
    }

    /** One turn of the assembly loop: the task's entry, and a decision recorded if there was none. */
    method SettleTask(key: string) returns (result: Result<Entry>)
      requires Valid()
      modifies this
      ensures Valid()
      ensures match Settle(config, key, TaskOf(old(model), key))
              case Failure => result.Failure? && model == old(model)
              case Success((t, entry)) => result == Success(entry) && model == SetTask(old(model), key, t)
    {
      ghost var t := TaskOf(model, key);
      assert Recorded(key) == t;
      var decision, review, artifact := LatestDecision(key), LatestReview(key), LatestArtifact(key);
      var status, points, sources := StatusDegraded, [], [];
      if decision.Some? && artifact.None? {
        status := StatusDegraded;
      } else if decision.Some? {
        status := decision.value.status;
        points := if review.Some? then review.value.acceptedPoints else [];
        sources := artifact.value.sources;
      } else if artifact.Some? && review.Some? {
        var r := review.value;
        var settled: Decision;
        if artifact.value.needsContractReview {
          settled := FromJudge(Decide(Some(CountsOfStored(r)), []), artifact.value.attempt);
        } else if r.approved {
          settled := LeadAccepted(artifact.value.attempt, r);
        } else {
          settled := FromJudge(Decide(Some(CountsOfStored(r)), []), artifact.value.attempt);
        }
        RecordDecisionArtifact(key, settled);
        t := t.WithDecision(settled);
        status, points, sources := settled.status, r.acceptedPoints, artifact.value.sources;
      } else if artifact.Some? {
        var fallback := RunReview(RulesOf(config, key), artifact.value.payload, []);
        if fallback.Failure? {
          return Failure;
        }
        var settled := FromJudge(Decide(Some(CountsOfReview(fallback.value)), []), artifact.value.attempt);
        RecordDecisionArtifact(key, settled);
        t := t.WithDecision(settled);
        status, points, sources := settled.status, fallback.value.acceptedPoints, artifact.value.sources;
      }
      ghost var before := model;
      model := SetTask(model, key, t);
      forall k ensures Recorded(k) == TaskOf(model, k) {
        assert Recorded(k) == TaskOf(before, k);
      }
      result := Success(Entry(key, status, points, sources));
    }

    /** A missing product scope is written from the known products. */
    method FillScope(payload: Dict) returns (filled: Dict)
      ensures filled == WithScope(config, payload)
    {
      filled := payload;
      if !Truthy(Get(payload, "product_asset_scope")) {
        var products := Get(payload, "products_and_services");
        if Truthy(products) {
          filled := filled["product_asset_scope" := config.pendingScope(products)];
        }
      }
    }

    /** The company department's classification, and the safety net for its product scope. */
    method CompletePayload(payload: Dict) returns (completed: Dict)
      ensures completed == Completed(config, payload)
    {
      completed := payload;
      if config.classifyGoods.Some? {
        completed := completed["goods_classification" := Str(config.classifyGoods.value(payload))];
        completed := FillScope(completed);
      }
    }

    method AssemblePackage() returns (reply: Reply)
      requires Valid()
      modifies this
      ensures Valid() && (model, reply) == Assemble(config, old(model))
    {
      var assignments := config.assignments;
      var entries: seq<Entry> := [];
      for i := 0 to |assignments|
        invariant Valid()
        invariant SettleAll(config, old(model), assignments[..i]) == (model, Success(entries))
      {
        assert assignments[..i + 1][..i] == assignments[..i];
        var result := SettleTask(assignments[i].key);
        if result.Failure? {
          SettleAllFails(config, old(model), assignments, i + 1);
          return ToolFailed;
        }
        entries := entries + [result.value];
      }
      assert assignments[..|assignments|] == assignments;
      var statuses := Statuses(entries);
      var completed := CompletePayload(currentPayload);
      UpdatePayload(completed);
      reply := PackageReady(Package(entries, PackageConfidence(statuses), currentPayload,
        Some(PolicyGate.Evaluate(config.policy, currentPayload, statuses, AllSources(entries)))));
    }

    method CountBlockedFinalize()
      requires Valid()
      modifies `blockedFinalizeAttempts, `model
      ensures Valid() && model == old(model).(blockedFinalize := old(model).blockedFinalize + 1)
    {
      blockedFinalizeAttempts := blockedFinalizeAttempts + 1;
      ghost var before := model;
      model := model.(blockedFinalize := blockedFinalizeAttempts);
      forall k ensures Recorded(k) == TaskOf(model, k) {
        assert Recorded(k) == TaskOf(before, k);
      }
    }

    method FinalizePackage(w: WorkerResult) returns (reply: Reply)
      requires Valid()
      modifies this
      ensures Valid() && (model, reply) == FinalizeStep(config, old(model), w)
    {
      var incomplete := IncompleteTasks();
      if incomplete != [] {
        CountBlockedFinalize();
        var next := incomplete[0];
        if blockedFinalizeAttempts >= AUTO_RECOVER_AFTER {
          var _ := RunResearch(next, w);
          var remaining := IncompleteTasks();
          return AutoRecovered(next, remaining);
        }
        return FinalizeBlocked(incomplete);
      }
      reply := AssemblePackage();
    }

    /** One turn of the fallback loop. */
    method FallbackTask(key: string) returns (result: Result<Entry>)
      requires Valid()
      ensures result == FallbackEntry(config, key, TaskOf(model, key))
    {
      assert Recorded(key) == TaskOf(model, key);
      var decision, review, artifact := LatestDecision(key), LatestReview(key), LatestArtifact(key);
      var status, points, sources := StatusDegraded, [], [];
      if decision.Some? {
        status := decision.value.status;
        points := if review.Some? then review.value.acceptedPoints else [];
        sources := if artifact.Some? then artifact.value.sources else [];
      } else if artifact.Some? {
        var fallback := RunReview(RulesOf(config, key), artifact.value.payload, []);
        if fallback.Failure? {
          return Failure;
        }
        status := Decide(Some(CountsOfReview(fallback.value)), []).status;
        points, sources := fallback.value.acceptedPoints, artifact.value.sources;
      }
      result := Success(Entry(key, status, points, sources));
    }

    /** `_build_fallback_package`: the same tasks; no decision is recorded, only the payload is
        completed. */
    method BuildFallbackPackage() returns (result: Result<Package>)
      requires Valid()
      modifies `currentPayload, `model
      ensures Valid() && result == FallbackPackage(config, old(model))
      ensures model == if result.Success? then old(model).(payload := result.value.payload) else old(model)
    {
      var assignments := config.assignments;
      var entries: seq<Entry> := [];
      for i := 0 to |assignments|
        invariant Valid() && model == old(model)
        invariant FallbackEntries(config, model, assignments[..i]) == Success(entries)
      {
        assert assignments[..i + 1][..i] == assignments[..i];
        var entry := FallbackTask(assignments[i].key);
        if entry.Failure? {
          FallbackFails(config, model, assignments, i + 1);
          return Failure;
        }
        entries := entries + [entry.value];
      }
      assert assignments[..|assignments|] == assignments;
      var filled := FillScope(currentPayload);
      UpdatePayload(filled);
      result := Success(Package(entries, PackageConfidence(Statuses(entries)), currentPayload, None));
    }
  }
}
