/** What dependencies do to a run: where the retry limit fails, and when a dependency of
    another department blocks a task for good. */
module Dependencies {
  import opened JsonModel
  import opened Judge
  import opened Contracts
  import opened Lead
  import opened LeadRuns
  import opened Finalization
  import opened Builders

  // ---- repeated blocking ----

  function Repeat(a: Action, n: nat): seq<Action> {
    if n == 0 then [] else [a] + Repeat(a, n - 1)
  }

  lemma {:induction false} UnmetIsFound(c: Config, s: State, deps: seq<string>, dep: string)
    requires dep in deps && Unmet(c, s, dep)
    ensures FirstUnmet(c, s, deps).Some?
  {
    if !Unmet(c, s, deps[0]) {
      UnmetIsFound(c, s, deps[1..], dep);
    }
  }

  lemma StaysUnmet(c: Config, s: State, key: string, w: WorkerResult, deps: seq<string>)
    requires FirstUnmet(c, s, deps).Some? && Find(c.assignments, key) == Some(Assignment(key, deps))
    ensures var s' := ResearchStep(c, s, key, w).0;
            && FirstUnmet(c, s', deps).Some?
            && |TaskOf(s', key).artifacts| == |TaskOf(s, key).artifacts| + 1
  {
    var dep := FirstUnmet(c, s, deps).value;
    var s' := Block(s, key, dep);
    UnmetIsLocal(c, s, deps);
    assert !TaskOf(s', key).SatisfiesDependents();
    assert Unmet(c, s', dep) by {
      assert TaskOf(s', dep) == if dep == key then TaskOf(s', key) else TaskOf(s, dep);
    }
    UnmetIsFound(c, s', deps, dep);
  }

  /** The retry bound needs its condition: asking again and again for a task whose dependency
      is missing records one more artifact every time, without limit. */
  lemma {:induction false} BlockedArtifactsUnbounded(c: Config, s: State, key: string, deps: seq<string>, w: WorkerResult, n: nat)
    requires Find(c.assignments, key) == Some(Assignment(key, deps)) && FirstUnmet(c, s, deps).Some?
    ensures |TaskOf(Run(c, s, Repeat(Research(key, w), n)), key).artifacts| == |TaskOf(s, key).artifacts| + n
    decreases n
  {
    if n > 0 {
      var a := Research(key, w);
      StaysUnmet(c, s, key, w, deps);
      BlockedArtifactsUnbounded(c, Step(c, s, a).0, key, deps, w, n - 1);
      assert Repeat(a, n)[0] == a && Repeat(a, n)[1..] == Repeat(a, n - 1);
    }
  }

  // ---- where the retry limit fails ----

  /** The task's latest decision says that a dependency is missing. */
  predicate Blocked(t: Task) {
    t.artifacts != [] && t.decisions != [] && Last(t.decisions).value.outcome == BlockedByDependency
  }

  /** A task with a dependency in its department is blocked when it is asked for first. */
  lemma AskedTooEarly(c: Config, payload: Dict, key: string, w: WorkerResult)
    requires HasLocalDependency(c, key)
    ensures FirstUnmet(c, InitialState(payload), Find(c.assignments, key).value.dependsOn).Some?
    ensures Blocked(TaskOf(Reached(c, payload, [Research(key, w)]), key))
  {
    var s := InitialState(payload);
    var deps := Find(c.assignments, key).value.dependsOn;
    var i :| 0 <= i < |deps| && Assigned(c, deps[i]);
    assert Unmet(c, s, deps[i]);
    UnmetIsFound(c, s, deps, deps[i]);
    RunOne(c, s, Research(key, w));
  }

  lemma RunOne(c: Config, s: State, a: Action)
    ensures Run(c, s, [a]) == Step(c, s, a).0
  {
    assert [a][1..] == [];
    assert Run(c, Step(c, s, a).0, []) == Step(c, s, a).0;
  }

  /** Some run records at least n artifacts for the task. */
  ghost predicate CanRecord(c: Config, payload: Dict, key: string, n: nat) {
    exists actions :: |TaskOf(Reached(c, payload, actions), key).artifacts| >= n
  }

  /** The number of artifacts is unbounded exactly for the tasks that depend on a task of their
      own department. */
  lemma UnboundedExactly(c: Config, payload: Dict, key: string)
    ensures (forall n: nat :: CanRecord(c, payload, key, n)) <==> HasLocalDependency(c, key)
  {
    if HasLocalDependency(c, key) {
      FindMeaning(c.assignments, key);
      var deps := Find(c.assignments, key).value.dependsOn;
      AskedTooEarly(c, payload, key, Raised);
      forall n: nat ensures CanRecord(c, payload, key, n) {
        BlockedArtifactsUnbounded(c, InitialState(payload), key, deps, Raised, n);
        assert |TaskOf(Reached(c, payload, Repeat(Research(key, Raised), n)), key).artifacts| >= n;
      }
    } else {
      var n: nat := Max(1, c.maxRetries) + 1;
      if CanRecord(c, payload, key, n) {
        var actions :| |TaskOf(Reached(c, payload, actions), key).artifacts| >= n;
        IndependentIsNeverBlocked(c, payload, actions, key);
        RetryBound(c, payload, actions, key);
      }
    }
  }

  /** A blocked decision is ever recorded exactly for those tasks. */
  lemma BlockableExactly(c: Config, payload: Dict, key: string)
    ensures (exists actions :: Blocked(TaskOf(Reached(c, payload, actions), key))) <==> HasLocalDependency(c, key)
  {
    if HasLocalDependency(c, key) {
      AskedTooEarly(c, payload, key, Raised);
    } else {
      forall actions ensures !Blocked(TaskOf(Reached(c, payload, actions), key)) {
        IndependentIsNeverBlocked(c, payload, actions, key);
        var decisions := TaskOf(Reached(c, payload, actions), key).decisions;
        assert decisions != [] ==> decisions[|decisions| - 1].outcome != BlockedByDependency;
      }
    }
  }

  lemma SatisfiedHasNoUnmet(c: Config, s: State, deps: seq<string>)
    requires AllSatisfied(s, deps)
    ensures FirstUnmet(c, s, deps) == None
  {
    if FirstUnmet(c, s, deps).Some? {
      UnmetIsLocal(c, s, deps);
    }
  }

  /** The re-check of a blocked task: the worker is called exactly when all its dependencies,
      of whatever department, are satisfied. Nothing else is asked, neither how often the task
      was attempted nor what was said about it. */
  lemma RecheckExactly(c: Config, s: State, key: string, deps: seq<string>, w: WorkerResult)
    requires Find(c.assignments, key) == Some(Assignment(key, deps)) && Blocked(TaskOf(s, key))
    ensures var (s', reply) := ResearchStep(c, s, key, w);
            && (AllSatisfied(s, deps) ==> (s', reply) == Execute(s, key, w))
            && (!AllSatisfied(s, deps) ==> reply.BlockedBy? || reply.StillBlocked?)
            && (w.Report? ==> (reply.ResearchComplete? <==> AllSatisfied(s, deps)))
  {
    if AllSatisfied(s, deps) {
      SatisfiedHasNoUnmet(c, s, deps);
    }
  }

  /** Once blocked, and by now all dependencies are satisfied. */
  predicate Rerunnable(c: Config, s: State, key: string, deps: seq<string>) {
    && Find(c.assignments, key) == Some(Assignment(key, deps))
    && Blocked(TaskOf(s, key))
    && AllSatisfied(s, deps)
  }

  /** The tool calls are about one task only: research with a worker that reports, or review. */
  predicate ResearchOrReview(key: string, a: Action) {
    (a.Research? && a.key == key && a.worker.Report?) || (a.ReviewTask? && a.key == key)
  }

  predicate AllResearchOrReview(key: string, actions: seq<Action>) {
    forall i | 0 <= i < |actions| :: ResearchOrReview(key, actions[i])
  }

  function CountResearch(actions: seq<Action>): nat
    decreases |actions|
  {
    if actions == [] then 0 else (if actions[0].Research? then 1 else 0) + CountResearch(actions[1..])
  }

  /** A blocked task satisfies nobody, so it is not among its own satisfied dependencies, and
      changing its artifacts and reviews leaves them satisfied. */
  lemma StaysRerunnable(c: Config, s: State, s': State, key: string, deps: seq<string>)
    requires Rerunnable(c, s, key, deps)
    requires s'.tasks == s.tasks || s'.tasks == s.tasks[key := TaskOf(s', key)]
    requires TaskOf(s', key).artifacts != [] && TaskOf(s', key).decisions == TaskOf(s, key).decisions
    ensures Rerunnable(c, s', key, deps)
  {
    forall i | 0 <= i < |deps| ensures TaskOf(s', deps[i]).SatisfiesDependents() {
      assert TaskOf(s, deps[i]).SatisfiesDependents();
      assert deps[i] != key;
      assert TaskOf(s', deps[i]) == TaskOf(s, deps[i]);
    }
  }

  lemma RerunResearch(c: Config, s: State, key: string, deps: seq<string>, w: WorkerResult)
    requires Rerunnable(c, s, key, deps) && w.Report?
    ensures var (s', reply) := ResearchStep(c, s, key, w);
            var t, t' := TaskOf(s, key), TaskOf(s', key);
            && Rerunnable(c, s', key, deps) && reply.ResearchComplete?
            && t'.decisions == t.decisions && t'.artifacts == t.artifacts + [ArtifactOf(w, t.attempts + 1)]
  {
    RecheckExactly(c, s, key, deps, w);
    StaysRerunnable(c, s, ResearchStep(c, s, key, w).0, key, deps);
  }

  lemma ReviewOnlyAdds(c: Config, s: State, key: string)
    ensures var s' := ReviewStep(c, s, key).0;
            && (s'.tasks == s.tasks || s'.tasks == s.tasks[key := TaskOf(s', key)])
            && TaskOf(s', key).artifacts == TaskOf(s, key).artifacts
            && TaskOf(s', key).decisions == TaskOf(s, key).decisions
  {
  }

  lemma RerunStep(c: Config, s: State, key: string, deps: seq<string>, a: Action)
    requires Rerunnable(c, s, key, deps) && ResearchOrReview(key, a)
    ensures var (s', reply) := Step(c, s, a);
            var t, t' := TaskOf(s, key), TaskOf(s', key);
            && Rerunnable(c, s', key, deps)
            && t'.decisions == t.decisions
            && (a.Research? ==> reply.ResearchComplete? && t'.artifacts == t.artifacts + [ArtifactOf(a.worker, t.attempts + 1)])
            && (a.ReviewTask? ==> t'.artifacts == t.artifacts)
  {
    if a.Research? {
      RerunResearch(c, s, key, deps, a.worker);
    } else {
      ReviewOnlyAdds(c, s, key);
      StaysRerunnable(c, s, ReviewStep(c, s, key).0, key, deps);
    }
  }

  /** The retry limit fails for a task that was once blocked: as soon as all its dependencies
      are satisfied, every request calls the worker again, past the limit and past an approving
      review, as long as no other decision is recorded. */
  lemma {:induction false} RerunsUnbounded(c: Config, s: State, key: string, deps: seq<string>, actions: seq<Action>)
    requires Rerunnable(c, s, key, deps) && AllResearchOrReview(key, actions)
    ensures var t, t' := TaskOf(s, key), TaskOf(Run(c, s, actions), key);
            && Rerunnable(c, Run(c, s, actions), key, deps)
            && t'.decisions == t.decisions
            && |t'.artifacts| == |t.artifacts| + CountResearch(actions)
    decreases |actions|
  {
    if actions != [] {
      assert ResearchOrReview(key, actions[0]);
      RerunStep(c, s, key, deps, actions[0]);
      RerunsUnbounded(c, Step(c, s, actions[0]).0, key, deps, actions[1..]);
    }
  }

  /** A task whose dependencies are all outside the department is researched right away. */
  lemma FirstCallReports(c: Config, s: State, key: string, w: WorkerResult)
    requires Find(c.assignments, key).Some? && !HasLocalDependency(c, key)
    requires TaskOf(s, key) == NEW_TASK && w.Report?
    ensures TaskOf(ResearchStep(c, s, key, w).0, key) == Task(1, [ArtifactOf(w, 1)], [], [])
  {
    var deps := Find(c.assignments, key).value.dependsOn;
    if FirstUnmet(c, s, deps).Some? {
      UnmetIsLocal(c, s, deps);
    }
  }

  /** That state is reached in two calls, by any task with one dependency that itself depends on
      no task of the department: the task is asked for too early, then its dependency is
      researched and yields a fact. */
  lemma BecomesRerunnable(c: Config, payload: Dict, key: string, dep: string, early: WorkerResult, w: WorkerResult)
    requires Find(c.assignments, key) == Some(Assignment(key, [dep]))
    requires Assigned(c, dep) && !HasLocalDependency(c, dep) && w.Report? && w.facts != []
    ensures var s := Reached(c, payload, [Research(key, early), Research(dep, w)]);
            Rerunnable(c, s, key, [dep]) && |TaskOf(s, key).decisions| == 1
  {
    var s0 := InitialState(payload);
    var s1 := Step(c, s0, Research(key, early)).0;
    var s2 := Step(c, s1, Research(dep, w)).0;
    FindMeaning(c.assignments, dep);
    assert Assigned(c, [dep][0]) && HasLocalDependency(c, key);
    AskedTooEarly(c, payload, key, early);
    RunOne(c, s0, Research(key, early));
    RunTwo(c, s0, Research(key, early), Research(dep, w));
    BlockExtends(s0, key, dep);
    assert key != dep && TaskOf(s1, dep) == NEW_TASK;
    FirstCallReports(c, s1, dep, w);
    ResearchExtends(c, s1, dep, w);
    assert TaskOf(s2, key) == TaskOf(s1, key);
    assert TaskOf(s2, dep).SatisfiesDependents();
  }

  lemma RunTwo(c: Config, s: State, a1: Action, a2: Action)
    ensures Run(c, s, [a1, a2]) == Step(c, Step(c, s, a1).0, a2).0
  {
    assert [a1, a2][1..] == [a2];
    RunOne(c, Step(c, s, a1).0, a2);
  }

  lemma {:induction false} RunJoins(c: Config, s: State, first: seq<Action>, second: seq<Action>)
    ensures Run(c, s, first + second) == Run(c, Run(c, s, first), second)
    decreases |first|
  {
    if first == [] {
      assert first + second == second;
    } else {
      assert (first + second)[0] == first[0] && (first + second)[1..] == first[1..] + second;
      RunJoins(c, Step(c, s, first[0]).0, first[1..], second);
    }
  }

  /** So from the start, such a task is handed to the worker as often as the Lead asks. */
  lemma WorkerCallsUnbounded(c: Config, payload: Dict, key: string, dep: string, early: WorkerResult, w: WorkerResult,
                             actions: seq<Action>)
    requires Find(c.assignments, key) == Some(Assignment(key, [dep]))
    requires Assigned(c, dep) && !HasLocalDependency(c, dep) && w.Report? && w.facts != []
    requires AllResearchOrReview(key, actions)
    ensures var t := TaskOf(Reached(c, payload, [Research(key, early), Research(dep, w)] + actions), key);
            |t.artifacts| > CountResearch(actions) && |t.decisions| == 1
  {
    var start := [Research(key, early), Research(dep, w)];
    BecomesRerunnable(c, payload, key, dep, early, w);
    RunJoins(c, InitialState(payload), start, actions);
    RerunsUnbounded(c, Reached(c, payload, start), key, [dep], actions);
  }

  // ---- dependencies of other departments ----

  /** A key without an assignment. */
  predicate Foreign(c: Config, key: string) {
    Find(c.assignments, key).None?
  }

  lemma FinalizeLeavesForeign(c: Config, s: State, w: WorkerResult, key: string)
    requires Foreign(c, key)
    ensures TaskOf(FinalizeStep(c, s, w).0, key) == TaskOf(s, key)
  {
    FindMeaning(c.assignments, key);
    var incomplete := Incomplete(s, c.assignments);
    if incomplete == [] {
      SettleAllLeaves(c, s, c.assignments, key);
    } else {
      var s1 := s.(blockedFinalize := s.blockedFinalize + 1);
      HeadIsAssigned(c, s);
      assert TaskOf(s1, key) == TaskOf(s, key);
      ResearchExtends(c, s1, incomplete[0], w);
    }
  }

  /** No tool records anything about a task of another department. */
  lemma StepLeavesForeign(c: Config, s: State, a: Action, key: string)
    requires Foreign(c, key)
    ensures TaskOf(Step(c, s, a).0, key) == TaskOf(s, key)
  {
    match a
    case Research(k, w) => ResearchExtends(c, s, k, w);
    case Finalize(w) => FinalizeLeavesForeign(c, s, w, key);
    case ReviewTask(k) =>
    case Suggest(k, queries) =>
    case JudgeTask(k) =>
  }

  lemma {:induction false} RunLeavesForeign(c: Config, s: State, actions: seq<Action>, key: string)
    requires Foreign(c, key)
    ensures TaskOf(Run(c, s, actions), key) == TaskOf(s, key)
    decreases |actions|
  {
    if actions != [] {
      StepLeavesForeign(c, s, actions[0], key);
      RunLeavesForeign(c, Step(c, s, actions[0]).0, actions[1..], key);
    }
  }

  /** Once a task with a dependency in another department has been blocked, `run_research`
      never calls the worker for it again, after any run, as long as that decision is the
      latest: the re-check asks for dependencies that only the other department records. */
  lemma ForeignDependencyBlocksForGood(c: Config, payload: Dict, actions: seq<Action>, key: string, deps: seq<string>, dep: string, w: WorkerResult)
    requires Find(c.assignments, key) == Some(Assignment(key, deps)) && dep in deps && Foreign(c, dep)
    requires Blocked(TaskOf(Reached(c, payload, actions), key))
    ensures var reply := ResearchStep(c, Reached(c, payload, actions), key, w).1;
            reply.BlockedBy? || reply.StillBlocked?
  {
    var s := Reached(c, payload, actions);
    RunLeavesForeign(c, InitialState(payload), actions, dep);
    var i :| 0 <= i < |deps| && deps[i] == dep;
    assert !TaskOf(s, deps[i]).SatisfiesDependents();
    RecheckExactly(c, s, key, deps, w);
  }

  /** Blocked, with a dependency that no run of this department can satisfy. */
  ghost predicate Stuck(c: Config, s: State, key: string, deps: seq<string>) {
    && Blocked(TaskOf(s, key))
    && exists i :: 0 <= i < |deps| && Foreign(c, deps[i])
  }

  /** This happens exactly to tasks with mixed dependencies, one inside the department and one
      outside: such a task is stuck when it is asked for before the inner one, and only the
      inner one can block it. */
  lemma StuckExactly(c: Config, payload: Dict, key: string, deps: seq<string>)
    requires Find(c.assignments, key) == Some(Assignment(key, deps))
    ensures (exists actions :: Stuck(c, Reached(c, payload, actions), key, deps)) <==>
            (exists i :: 0 <= i < |deps| && Assigned(c, deps[i])) && (exists i :: 0 <= i < |deps| && Foreign(c, deps[i]))
  {
    BlockableExactly(c, payload, key);
    if HasLocalDependency(c, key) && exists i :: 0 <= i < |deps| && Foreign(c, deps[i]) {
      AskedTooEarly(c, payload, key, Raised);
      assert Stuck(c, Reached(c, payload, [Research(key, Raised)]), key, deps);
    }
    if actions :| Stuck(c, Reached(c, payload, actions), key, deps) {
      assert Blocked(TaskOf(Reached(c, payload, actions), key));
    }
  }
}
