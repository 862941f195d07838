/** How often a task is handed to its worker: without end while the worker keeps raising, and,
    for reports, exactly when a blocked task can see all its dependencies satisfied. */
module WorkerCalls {
  import opened JsonModel
  import opened Critic
  import opened Judge
  import opened Contracts
  import opened Lead
  import opened LeadRuns
  import opened Finalization
  import opened Builders
  import opened Dependencies

  // ---- a worker that raises ----

  lemma RaisingStep(c: Config, s: State, key: string, deps: seq<string>)
    requires Find(c.assignments, key) == Some(Assignment(key, deps))
    requires FirstUnmet(c, s, deps) == None && TaskOf(s, key).artifacts == []
    ensures var (s', reply) := ResearchStep(c, s, key, Raised);
            && reply == ToolFailed
            && TaskOf(s', key) == TaskOf(s, key).(attempts := TaskOf(s, key).attempts + 1)
            && FirstUnmet(c, s', deps) == None
  {
    var s' := ResearchStep(c, s, key, Raised).0;
    assert s'.tasks == s.tasks[key := TaskOf(s', key)];
    SameUnmet(c, s, s', deps);
  }

  lemma {:induction false} SameUnmet(c: Config, s: State, s': State, deps: seq<string>)
    requires forall k :: TaskOf(s', k).SatisfiesDependents() == TaskOf(s, k).SatisfiesDependents()
    ensures FirstUnmet(c, s', deps) == FirstUnmet(c, s, deps)
  {
    if deps != [] {
      SameUnmet(c, s, s', deps[1..]);
    }
  }

  /** The retry limit looks only at tasks that have an artifact: a worker that keeps raising is
      called on every request, leaving nothing but a higher attempt counter. */
  lemma {:induction false} RaisingUnbounded(c: Config, s: State, key: string, deps: seq<string>, n: nat)
    requires Find(c.assignments, key) == Some(Assignment(key, deps))
    requires FirstUnmet(c, s, deps) == None && TaskOf(s, key).artifacts == []
    ensures var s' := Run(c, s, Repeat(Research(key, Raised), n));
            && TaskOf(s', key) == TaskOf(s, key).(attempts := TaskOf(s, key).attempts + n)
            && FirstUnmet(c, s', deps) == None
    decreases n
  {
    if n > 0 {
      var a := Research(key, Raised);
      RaisingStep(c, s, key, deps);
      RaisingUnbounded(c, Step(c, s, a).0, key, deps, n - 1);
      assert Repeat(a, n)[0] == a && Repeat(a, n)[1..] == Repeat(a, n - 1);
    }
  }

  /** Some run brings the attempt counter to at least n. */
  ghost predicate CanAttempt(c: Config, payload: Dict, key: string, n: nat) {
    exists actions :: TaskOf(Reached(c, payload, actions), key).attempts >= n
  }

  lemma RecordedIsAttempted(c: Config, payload: Dict, key: string, n: nat)
    requires CanRecord(c, payload, key, n)
    ensures CanAttempt(c, payload, key, n)
  {
    var actions :| |TaskOf(Reached(c, payload, actions), key).artifacts| >= n;
    var t := TaskOf(Reached(c, payload, actions), key);
    ReachedInv(c, payload, actions);
    assert TaskInv(c, key, t);
    if t.artifacts != [] {
      AttemptAtLeastIndex(t, |t.artifacts| - 1);
    }
  }

  /** The attempt counter of every assigned task is unbounded over all runs, and no other one
      ever moves. */
  lemma AttemptsUnboundedExactly(c: Config, payload: Dict, key: string)
    ensures (forall n: nat :: CanAttempt(c, payload, key, n)) <==> Find(c.assignments, key).Some?
  {
    FindMeaning(c.assignments, key);
    if Find(c.assignments, key).None? {
      forall actions ensures TaskOf(Reached(c, payload, actions), key).attempts == 0 {
        RunLeavesForeign(c, InitialState(payload), actions, key);
      }
      assert !CanAttempt(c, payload, key, 1);
    } else if HasLocalDependency(c, key) {
      UnboundedExactly(c, payload, key);
      forall n: nat ensures CanAttempt(c, payload, key, n) {
        RecordedIsAttempted(c, payload, key, n);
      }
    } else {
      var deps := Find(c.assignments, key).value.dependsOn;
      NoLocalNoUnmet(c, InitialState(payload), key);
      forall n: nat ensures CanAttempt(c, payload, key, n) {
        RaisingUnbounded(c, InitialState(payload), key, deps, n);
        assert TaskOf(Reached(c, payload, Repeat(Research(key, Raised), n)), key).attempts >= n;
      }
    }
  }

  lemma NoLocalNoUnmet(c: Config, s: State, key: string)
    requires Find(c.assignments, key).Some? && !HasLocalDependency(c, key)
    ensures FirstUnmet(c, s, Find(c.assignments, key).value.dependsOn) == None
  {
    var deps := Find(c.assignments, key).value.dependsOn;
    if FirstUnmet(c, s, deps).Some? {
      UnmetIsLocal(c, s, deps);
    }
  }

  // ---- reports of the worker ----

  /** The call hands the task to its worker and records a report, directly or by auto-recovery. */
  predicate Hands(c: Config, s: State, a: Action, key: string) {
    match a
    case Research(k, w) => k == key && ResearchStep(c, s, key, w).1.ResearchComplete?
    case Finalize(w) =>
      var incomplete := Incomplete(s, c.assignments);
      && incomplete != [] && incomplete[0] == key && s.blockedFinalize + 1 >= AUTO_RECOVER_AFTER
      && ResearchStep(c, s.(blockedFinalize := s.blockedFinalize + 1), key, w).1.ResearchComplete?
    case _ => false
  }

  function CountHanded(c: Config, s: State, actions: seq<Action>, key: string): nat
    decreases |actions|
  {
    if actions == [] then 0
    else (if Hands(c, s, actions[0], key) then 1 else 0) + CountHanded(c, Step(c, s, actions[0]).0, actions[1..], key)
  }

  /** How many reports a task can still take before it must be rerun after a block. */
  function Budget(c: Config, t: Task): nat {
    (if t.artifacts == [] then 1 else 0) + (if t.attempts < c.maxRetries then c.maxRetries - t.attempts else 0)
  }

  lemma BudgetShrinks(c: Config, t: Task, t': Task)
    requires Extends(t, t')
    ensures Budget(c, t') <= Budget(c, t)
    ensures t.attempts < t'.attempts && t'.artifacts != [] && MayAttempt(c, t) ==> Budget(c, t') < Budget(c, t)
  {
  }

  /** A report outside the rerun of a blocked task uses up budget. */
  lemma ReportCosts(c: Config, s: State, key: string, w: WorkerResult)
    requires ResearchStep(c, s, key, w).1.ResearchComplete?
    requires !Rerunnable(c, s, key, Find(c.assignments, key).value.dependsOn)
    ensures Budget(c, TaskOf(ResearchStep(c, s, key, w).0, key)) < Budget(c, TaskOf(s, key))
  {
    var t, t' := TaskOf(s, key), TaskOf(ResearchStep(c, s, key, w).0, key);
    FindMeaning(c.assignments, key);
    assert ResearchStep(c, s, key, w) == Execute(s, key, w);
    assert t'.attempts == t.attempts + 1 && t'.artifacts == t.artifacts + [ArtifactOf(w, t.attempts + 1)];
    ResearchExtends(c, s, key, w);
    assert MayAttempt(c, t);
    BudgetShrinks(c, t, t');
  }

  lemma StepBudget(c: Config, s: State, a: Action, key: string)
    requires Find(c.assignments, key).Some?
    requires !Rerunnable(c, s, key, Find(c.assignments, key).value.dependsOn)
    ensures Budget(c, TaskOf(Step(c, s, a).0, key)) + (if Hands(c, s, a, key) then 1 else 0) <= Budget(c, TaskOf(s, key))
  {
    StepExtends(c, s, a);
    assert Extends(TaskOf(s, key), TaskOf(Step(c, s, a).0, key));
    BudgetShrinks(c, TaskOf(s, key), TaskOf(Step(c, s, a).0, key));
    if Hands(c, s, a, key) {
      if a.Research? {
        ReportCosts(c, s, key, a.worker);
      } else {
        var s1 := s.(blockedFinalize := s.blockedFinalize + 1);
        NotRerunnableEither(c, s, s1, key);
        ReportCosts(c, s1, key, a.worker);
        RecoveryUnfolds(c, s, a.worker);
      }
    }
  }

  lemma NotRerunnableEither(c: Config, s: State, s': State, key: string)
    requires Find(c.assignments, key).Some? && s'.tasks == s.tasks
    requires !Rerunnable(c, s, key, Find(c.assignments, key).value.dependsOn)
    ensures !Rerunnable(c, s', key, Find(c.assignments, key).value.dependsOn)
  {
    assert forall k :: TaskOf(s', k) == TaskOf(s, k);
  }

  ghost predicate NeverRerunnable(c: Config, s: State, key: string, deps: seq<string>) {
    forall actions :: !Rerunnable(c, Run(c, s, actions), key, deps)
  }

  /** A task that can never be rerun after a block gets at most its budget of reports. */
  lemma {:induction false} HandedWithinBudget(c: Config, s: State, key: string, actions: seq<Action>)
    requires Find(c.assignments, key).Some?
    requires NeverRerunnable(c, s, key, Find(c.assignments, key).value.dependsOn)
    ensures CountHanded(c, s, actions, key) <= Budget(c, TaskOf(s, key))
    decreases |actions|
  {
    var deps := Find(c.assignments, key).value.dependsOn;
    if actions != [] {
      var s' := Step(c, s, actions[0]).0;
      assert Run(c, s, []) == s && !Rerunnable(c, Run(c, s, []), key, deps);
      StepBudget(c, s, actions[0], key);
      forall rest ensures !Rerunnable(c, Run(c, s', rest), key, deps) {
        assert ([actions[0]] + rest)[1..] == rest;
        assert Run(c, s, [actions[0]] + rest) == Run(c, s', rest);
      }
      HandedWithinBudget(c, s', key, actions[1..]);
    }
  }

  // ---- which tasks can be rerun without end ----

  /** The task depends on tasks of its own department only, on at least one, and not on itself. */
  predicate OnlyLocalDependencies(c: Config, key: string) {
    match Find(c.assignments, key)
    case None => false
    case Some(a) => a.dependsOn != [] && key !in a.dependsOn && forall i | 0 <= i < |a.dependsOn| :: Assigned(c, a.dependsOn[i])
  }

  /** No task but these can be rerun: a task that is blocked satisfies nobody, itself included,
      and no run satisfies a dependency on another department. */
  lemma RerunnableNeedsLocal(c: Config, payload: Dict, key: string, deps: seq<string>, actions: seq<Action>)
    requires Rerunnable(c, Reached(c, payload, actions), key, deps)
    ensures OnlyLocalDependencies(c, key)
  {
    var s := Reached(c, payload, actions);
    BlockableExactly(c, payload, key);
    assert Blocked(TaskOf(Reached(c, payload, actions), key));
    assert HasLocalDependency(c, key);
    forall i | 0 <= i < |deps| ensures deps[i] != key && Assigned(c, deps[i]) {
      assert TaskOf(s, deps[i]).SatisfiesDependents();
      FindMeaning(c.assignments, deps[i]);
      if Foreign(c, deps[i]) {
        RunLeavesForeign(c, InitialState(payload), actions, deps[i]);
      }
    }
  }

  /** No review, or only one that was made up for the Judge. */
  predicate Unreviewed(t: Task) {
    t.reviews == [] || (Last(t.reviews).value.coreTotal == 0 && Last(t.reviews).value.issues != [])
  }

  /** Asking for a task and judging it unreviewed closes it as accepted with gaps, even when it
      is blocked or reports nothing. Its dependents count as satisfied. */
  lemma JudgedUnreviewedSatisfies(c: Config, s: State, d: string)
    requires Assigned(c, d) && Unreviewed(TaskOf(s, d))
    ensures var s' := Step(c, Step(c, s, Research(d, EMPTY_REPORT)).0, JudgeTask(d)).0;
            && TaskOf(s', d).SatisfiesDependents() && Unreviewed(TaskOf(s', d))
            && forall k | k != d :: TaskOf(s', k) == TaskOf(s, k)
  {
    FindMeaning(c.assignments, d);
    var s1 := Step(c, s, Research(d, EMPTY_REPORT)).0;
    ResearchExtends(c, s, d, EMPTY_REPORT);
    AskedHasArtifact(c, s, d);
    JudgedUnreviewed(c, s1, d);
  }

  lemma AskedHasArtifact(c: Config, s: State, d: string)
    requires Find(c.assignments, d).Some?
    ensures var t := TaskOf(ResearchStep(c, s, d, EMPTY_REPORT).0, d);
            t.artifacts != [] && t.reviews == TaskOf(s, d).reviews
  {
  }

  lemma JudgedUnreviewed(c: Config, s: State, d: string)
    requires Find(c.assignments, d).Some? && TaskOf(s, d).artifacts != [] && Unreviewed(TaskOf(s, d))
    ensures var s' := JudgeStep(c, s, d).0;
            && TaskOf(s', d).SatisfiesDependents() && Unreviewed(TaskOf(s', d))
            && forall k | k != d :: TaskOf(s', k) == TaskOf(s, k)
  {
  }

  /** Two calls for each dependency. */
  function Prepared(deps: seq<string>): seq<Action> {
    if deps == [] then []
    else Prepared(deps[..|deps| - 1]) + [Research(deps[|deps| - 1], EMPTY_REPORT), JudgeTask(deps[|deps| - 1])]
  }

  lemma PreparedTurn(c: Config, s: State, deps: seq<string>, dep: string)
    requires Assigned(c, dep) && Unreviewed(TaskOf(Run(c, s, Prepared(deps)), dep))
    ensures var s1, s' := Run(c, s, Prepared(deps)), Run(c, s, Prepared(deps + [dep]));
            && TaskOf(s', dep).SatisfiesDependents() && Unreviewed(TaskOf(s', dep))
            && forall k | k != dep :: TaskOf(s', k) == TaskOf(s1, k)
  {
    var two := [Research(dep, EMPTY_REPORT), JudgeTask(dep)];
    assert (deps + [dep])[..|deps|] == deps;
    assert Prepared(deps + [dep]) == Prepared(deps) + two;
    RunJoins(c, s, Prepared(deps), two);
    RunTwo(c, Run(c, s, Prepared(deps)), Research(dep, EMPTY_REPORT), JudgeTask(dep));
    JudgedUnreviewedSatisfies(c, Run(c, s, Prepared(deps)), dep);
  }

  lemma {:induction false} PreparedSatisfies(c: Config, s: State, key: string, deps: seq<string>)
    requires key !in deps && forall i | 0 <= i < |deps| :: Assigned(c, deps[i]) && Unreviewed(TaskOf(s, deps[i]))
    ensures var s' := Run(c, s, Prepared(deps));
            && TaskOf(s', key) == TaskOf(s, key)
            && AllSatisfied(s', deps)
            && forall k | Unreviewed(TaskOf(s, k)) :: Unreviewed(TaskOf(s', k))
  {
    if deps != [] {
      var init, last := deps[..|deps| - 1], deps[|deps| - 1];
      assert deps == init + [last];
      assert forall i | 0 <= i < |init| :: init[i] == deps[i];
      PreparedSatisfies(c, s, key, init);
      assert Assigned(c, last) && Unreviewed(TaskOf(s, last));
      PreparedTurn(c, s, init, last);
      var s1, s' := Run(c, s, Prepared(init)), Run(c, s, Prepared(deps));
      forall i | 0 <= i < |deps| ensures TaskOf(s', deps[i]).SatisfiesDependents() {
        if deps[i] != last {
          assert init[i] == deps[i];
          assert TaskOf(s1, init[i]).SatisfiesDependents();
        }
      }
    }
  }

  /** All these tasks can be: asked for too early, then each dependency asked for and judged. */
  lemma LocalBecomesRerunnable(c: Config, payload: Dict, key: string)
    requires OnlyLocalDependencies(c, key)
    ensures var deps := Find(c.assignments, key).value.dependsOn;
            Rerunnable(c, Reached(c, payload, [Research(key, Raised)] + Prepared(deps)), key, deps)
  {
    FindMeaning(c.assignments, key);
    var deps := Find(c.assignments, key).value.dependsOn;
    var s0 := InitialState(payload);
    var s1 := Reached(c, payload, [Research(key, Raised)]);
    assert Assigned(c, deps[0]) && HasLocalDependency(c, key);
    AskedTooEarly(c, payload, key, Raised);
    RunOne(c, s0, Research(key, Raised));
    ResearchExtends(c, s0, key, Raised);
    forall i | 0 <= i < |deps| ensures Unreviewed(TaskOf(s1, deps[i])) {
      assert TaskOf(s1, deps[i]) == TaskOf(s0, deps[i]);
    }
    PreparedSatisfies(c, s1, key, deps);
    RunJoins(c, s0, [Research(key, Raised)], Prepared(deps));
  }

  /** Some run makes the worker report on the task at least n times. */
  ghost predicate CanReport(c: Config, payload: Dict, key: string, n: nat) {
    exists actions :: CountHanded(c, InitialState(payload), actions, key) >= n
  }

  lemma {:induction false} CountJoins(c: Config, s: State, first: seq<Action>, second: seq<Action>, key: string)
    ensures CountHanded(c, s, first + second, key) == CountHanded(c, s, first, key) + CountHanded(c, Run(c, s, first), second, key)
    decreases |first|
  {
    if first == [] {
      assert first + second == second;
    } else {
      assert (first + second)[0] == first[0] && (first + second)[1..] == first[1..] + second;
      CountJoins(c, Step(c, s, first[0]).0, first[1..], second, key);
    }
  }

  lemma {:induction false} RerunnableReports(c: Config, s: State, key: string, deps: seq<string>, n: nat)
    requires Rerunnable(c, s, key, deps)
    ensures CountHanded(c, s, Repeat(Research(key, EMPTY_REPORT), n), key) == n
    decreases n
  {
    if n > 0 {
      var a := Research(key, EMPTY_REPORT);
      RerunStep(c, s, key, deps, a);
      RerunnableReports(c, Step(c, s, a).0, key, deps, n - 1);
      assert Repeat(a, n)[0] == a && Repeat(a, n)[1..] == Repeat(a, n - 1);
    }
  }

  /** The number of reports a task's worker makes is unbounded over all runs exactly for the
      tasks with dependencies that are all tasks of the department other than itself. For every
      other task it stays within one more than the retry limit. */
  lemma ReportsUnboundedExactly(c: Config, payload: Dict, key: string)
    requires Find(c.assignments, key).Some?
    ensures (forall n: nat :: CanReport(c, payload, key, n)) <==> OnlyLocalDependencies(c, key)
    ensures !OnlyLocalDependencies(c, key) ==>
              forall actions :: CountHanded(c, InitialState(payload), actions, key) <= 1 + Max(0, c.maxRetries)
  {
    var deps := Find(c.assignments, key).value.dependsOn;
    var s0 := InitialState(payload);
    if OnlyLocalDependencies(c, key) {
      LocalBecomesRerunnable(c, payload, key);
      var start := [Research(key, Raised)] + Prepared(deps);
      forall n: nat ensures CanReport(c, payload, key, n) {
        var again := Repeat(Research(key, EMPTY_REPORT), n);
        RerunnableReports(c, Reached(c, payload, start), key, deps, n);
        CountJoins(c, s0, start, again, key);
        assert CountHanded(c, s0, start + again, key) >= n;
      }
    } else {
      forall actions ensures !Rerunnable(c, Run(c, s0, actions), key, deps) {
        if Rerunnable(c, Reached(c, payload, actions), key, deps) {
          RerunnableNeedsLocal(c, payload, key, deps, actions);
        }
      }
      forall actions ensures CountHanded(c, s0, actions, key) <= 1 + Max(0, c.maxRetries) {
        HandedWithinBudget(c, s0, key, actions);
      }
      assert !CanReport(c, payload, key, 2 + Max(0, c.maxRetries));
    }
  }
}
