/** Finalizing a package: bounded progress, settled decisions, and finalizing again. */
module Finalization {
  import opened JsonModel
  import opened Critic
  import opened Judge
  import opened Contracts
  import opened Lead
  import opened LeadRuns
  import PolicyGate

  // ---- histories only grow ----

  ghost predicate Extends(t: Task, t': Task) {
    && t.attempts <= t'.attempts
    && t.artifacts <= t'.artifacts
    && t.reviews <= t'.reviews
    && t.decisions <= t'.decisions
  }

  ghost predicate AllExtend(s: State, s': State) {
    forall key {:trigger Extends(TaskOf(s, key), TaskOf(s', key))} :: Extends(TaskOf(s, key), TaskOf(s', key))
  }

  lemma SetTaskExtends(s: State, key: string, t: Task)
    requires Extends(TaskOf(s, key), t)
    ensures AllExtend(s, SetTask(s, key, t))
  {
  }

  lemma AllExtendTransitive(s: State, s1: State, s2: State)
    requires AllExtend(s, s1) && AllExtend(s1, s2)
    ensures AllExtend(s, s2)
  {
    forall key ensures Extends(TaskOf(s, key), TaskOf(s2, key)) {
      assert Extends(TaskOf(s, key), TaskOf(s1, key)) && Extends(TaskOf(s1, key), TaskOf(s2, key));
    }
  }

  lemma SettleExtends(c: Config, key: string, t: Task)
    requires Settle(c, key, t).Success?
    ensures Extends(t, Settle(c, key, t).value.0)
    ensures Settle(c, key, t).value.0.artifacts == t.artifacts
    ensures Settle(c, key, t).value.0.reviews == t.reviews
  {
  }

  lemma {:induction false} SettleAllExtends(c: Config, s: State, assignments: seq<Assignment>)
    ensures AllExtend(s, SettleAll(c, s, assignments).0)
    ensures forall key :: TaskOf(SettleAll(c, s, assignments).0, key).artifacts == TaskOf(s, key).artifacts
  {
    if assignments != [] {
      var init, key := assignments[..|assignments| - 1], assignments[|assignments| - 1].key;
      SettleAllExtends(c, s, init);
      var (s1, done) := SettleAll(c, s, init);
      if done.Success? && Settle(c, key, TaskOf(s1, key)).Success? {
        SettleExtends(c, key, TaskOf(s1, key));
        SetTaskExtends(s1, key, Settle(c, key, TaskOf(s1, key)).value.0);
        AllExtendTransitive(s, s1, SettleAll(c, s, assignments).0);
      }
    }
  }

  /** Only the record of `key` differs, and it has only grown. */
  ghost predicate OnlyGrows(s: State, s': State, key: string) {
    && (s'.tasks == s.tasks || s'.tasks == s.tasks[key := TaskOf(s', key)])
    && Extends(TaskOf(s, key), TaskOf(s', key))
  }

  lemma OnlyGrowsExtends(s: State, s': State, key: string)
    requires OnlyGrows(s, s', key)
    ensures AllExtend(s, s')
    ensures forall k | k != key :: TaskOf(s', k) == TaskOf(s, k)
  {
  }

  lemma ExecuteExtends(s: State, key: string, w: WorkerResult)
    ensures OnlyGrows(s, Execute(s, key, w).0, key)
  {
  }

  lemma BlockExtends(s: State, key: string, dep: string)
    ensures OnlyGrows(s, Block(s, key, dep), key)
  {
  }

  lemma ResearchExtends(c: Config, s: State, key: string, w: WorkerResult)
    ensures OnlyGrows(s, ResearchStep(c, s, key, w).0, key)
    ensures AllExtend(s, ResearchStep(c, s, key, w).0)
    ensures forall k | k != key :: TaskOf(ResearchStep(c, s, key, w).0, k) == TaskOf(s, k)
  {
    ExecuteExtends(s, key, w);
    var (s', reply) := ResearchStep(c, s, key, w);
    if reply.BlockedBy? {
      BlockExtends(s, key, reply.dep);
    }
    OnlyGrowsExtends(s, s', key);
  }

  lemma ReviewExtends(c: Config, s: State, key: string)
    ensures AllExtend(s, ReviewStep(c, s, key).0)
    ensures forall k :: TaskOf(ReviewStep(c, s, key).0, k).artifacts == TaskOf(s, k).artifacts
  {
    OnlyGrowsExtends(s, ReviewStep(c, s, key).0, key);
  }

  lemma JudgeExtends(c: Config, s: State, key: string)
    ensures AllExtend(s, JudgeStep(c, s, key).0)
    ensures forall k :: TaskOf(JudgeStep(c, s, key).0, k).artifacts == TaskOf(s, k).artifacts
  {
    OnlyGrowsExtends(s, JudgeStep(c, s, key).0, key);
  }

  lemma FinalizeExtends(c: Config, s: State, w: WorkerResult)
    ensures AllExtend(s, FinalizeStep(c, s, w).0)
  {
    var incomplete := Incomplete(s, c.assignments);
    if incomplete == [] {
      SettleAllExtends(c, s, c.assignments);
      var s1 := SettleAll(c, s, c.assignments).0;
      assert forall key :: TaskOf(FinalizeStep(c, s, w).0, key) == TaskOf(s1, key);
    } else {
      ResearchExtends(c, s.(blockedFinalize := s.blockedFinalize + 1), incomplete[0], w);
      assert forall key :: TaskOf(s.(blockedFinalize := s.blockedFinalize + 1), key) == TaskOf(s, key);
    }
  }

  /** No tool call ever removes or rewrites a recorded artifact, review or decision. */
  lemma StepExtends(c: Config, s: State, a: Action)
    ensures AllExtend(s, Step(c, s, a).0)
  {
    match a
    case Research(key, w) => ResearchExtends(c, s, key, w);
    case ReviewTask(key) => ReviewExtends(c, s, key);
    case JudgeTask(key) => JudgeExtends(c, s, key);
    case Finalize(w) => FinalizeExtends(c, s, w);
    case Suggest(key, queries) =>
      OnlyGrowsExtends(s, SuggestStep(c, s, key, queries).0, key);
  }

  // ---- the incomplete tasks ----

  lemma {:induction false} IncompleteMeaning(s: State, assignments: seq<Assignment>)
    ensures forall key :: key in Incomplete(s, assignments) <==>
              Missing(s, key) && exists i :: 0 <= i < |assignments| && assignments[i].key == key
  {
    if assignments != [] {
      var n := |assignments| - 1;
      IncompleteMeaning(s, assignments[..n]);
      assert forall i | 0 <= i < n :: assignments[..n][i] == assignments[i];
      assert forall i | 0 <= i < |assignments| :: i == n || assignments[i] == assignments[..n][i];
    }
  }

  lemma {:induction false} IncompleteShrinks(s: State, s': State, assignments: seq<Assignment>)
    requires forall key :: Missing(s', key) ==> Missing(s, key)
    ensures |Incomplete(s', assignments)| <= |Incomplete(s, assignments)|
    ensures (exists key :: key in Incomplete(s, assignments) && !Missing(s', key)) ==>
              |Incomplete(s', assignments)| < |Incomplete(s, assignments)|
  {
    if assignments != [] {
      IncompleteShrinks(s, s', assignments[..|assignments| - 1]);
    }
  }

  /** The incomplete set never grows, whatever tool is called. */
  lemma IncompleteNeverGrows(c: Config, s: State, a: Action)
    ensures var s' := Step(c, s, a).0;
            && (forall key | key in Incomplete(s', c.assignments) :: key in Incomplete(s, c.assignments))
            && |Incomplete(s', c.assignments)| <= |Incomplete(s, c.assignments)|
  {
    var s' := Step(c, s, a).0;
    StepExtends(c, s, a);
    forall key | Missing(s', key) ensures Missing(s, key) {
      assert Extends(TaskOf(s, key), TaskOf(s', key));
    }
    IncompleteMeaning(s, c.assignments);
    IncompleteMeaning(s', c.assignments);
    IncompleteShrinks(s, s', c.assignments);
  }

  predicate UniqueKeys(assignments: seq<Assignment>) {
    forall i, j | 0 <= i < j < |assignments| :: assignments[i].key != assignments[j].key
  }

  lemma {:induction false} IncompleteUnaffected(s: State, s': State, assignments: seq<Assignment>)
    requires forall i | 0 <= i < |assignments| :: Missing(s', assignments[i].key) == Missing(s, assignments[i].key)
    ensures Incomplete(s', assignments) == Incomplete(s, assignments)
  {
    if assignments != [] {
      var n := |assignments| - 1;
      assert forall i | 0 <= i < n :: assignments[..n][i] == assignments[i];
      IncompleteUnaffected(s, s', assignments[..n]);
      assert Missing(s', assignments[n].key) == Missing(s, assignments[n].key);
    }
  }

  lemma {:induction false} IncompleteLosesHead(s: State, s': State, assignments: seq<Assignment>, key: string)
    requires UniqueKeys(assignments)
    requires forall k | k != key :: Missing(s', k) == Missing(s, k)
    requires !Missing(s', key)
    requires Incomplete(s, assignments) != [] && Incomplete(s, assignments)[0] == key
    ensures Incomplete(s', assignments) == Incomplete(s, assignments)[1..]
  {
    var n := |assignments| - 1;
    var init, last := assignments[..n], assignments[n].key;
    assert forall i | 0 <= i < n :: init[i] == assignments[i];
    if Incomplete(s, init) == [] {
      assert last == key;
      IncompleteUnaffected(s, s', init);
    } else {
      IncompleteLosesHead(s, s', init, key);
      IncompleteMeaning(s, init);
      assert key in Incomplete(s, init);
      assert last != key;
    }
  }

  lemma RecoveryRecords(c: Config, s: State, key: string, w: WorkerResult)
    requires Missing(s, key) && Find(c.assignments, key).Some? && w.Report?
    ensures !Missing(ResearchStep(c, s, key, w).0, key)
  {
  }

  lemma HeadIsAssigned(c: Config, s: State)
    requires Incomplete(s, c.assignments) != []
    ensures var key := Incomplete(s, c.assignments)[0];
            Missing(s, key) && Find(c.assignments, key).Some?
  {
    var key := Incomplete(s, c.assignments)[0];
    IncompleteMeaning(s, c.assignments);
    assert key in Incomplete(s, c.assignments);
    FindMeaning(c.assignments, key);
  }

  lemma ResearchOnHead(c: Config, s: State, w: WorkerResult)
    requires UniqueKeys(c.assignments) && w.Report?
    requires Incomplete(s, c.assignments) != []
    ensures Incomplete(ResearchStep(c, s, Incomplete(s, c.assignments)[0], w).0, c.assignments)
            == Incomplete(s, c.assignments)[1..]
  {
    var key := Incomplete(s, c.assignments)[0];
    var s' := ResearchStep(c, s, key, w).0;
    HeadIsAssigned(c, s);
    RecoveryRecords(c, s, key, w);
    ResearchExtends(c, s, key, w);
    forall k | k != key ensures Missing(s', k) == Missing(s, k) {
      assert TaskOf(s', k) == TaskOf(s, k);
    }
    IncompleteLosesHead(s, s', c.assignments, key);
  }

  lemma {:induction false} SameIncomplete(s: State, s': State, assignments: seq<Assignment>)
    requires s.tasks == s'.tasks
    ensures Incomplete(s, assignments) == Incomplete(s', assignments)
  {
    if assignments != [] {
      SameIncomplete(s, s', assignments[..|assignments| - 1]);
      assert Missing(s, assignments[|assignments| - 1].key) == Missing(s', assignments[|assignments| - 1].key);
    }
  }

  lemma RecoveryUnfolds(c: Config, s: State, w: WorkerResult)
    requires Incomplete(s, c.assignments) != [] && s.blockedFinalize >= 1
    ensures var key := Incomplete(s, c.assignments)[0];
            var s' := ResearchStep(c, s.(blockedFinalize := s.blockedFinalize + 1), key, w).0;
            FinalizeStep(c, s, w) == (s', AutoRecovered(key, Incomplete(s', c.assignments)))
  {
  }

  /** Auto-recovery takes exactly the first incomplete task off the list, even when that task
      is blocked by a dependency. */
  lemma RecoveryRemovesOne(c: Config, s: State, w: WorkerResult)
    requires UniqueKeys(c.assignments) && w.Report?
    requires Incomplete(s, c.assignments) != [] && s.blockedFinalize >= 1
    ensures var (s', reply) := FinalizeStep(c, s, w);
            && reply.AutoRecovered?
            && reply.key == Incomplete(s, c.assignments)[0]
            && reply.remaining == Incomplete(s', c.assignments) == Incomplete(s, c.assignments)[1..]
  {
    var s1 := s.(blockedFinalize := s.blockedFinalize + 1);
    RecoveryUnfolds(c, s, w);
    SameIncomplete(s, s1, c.assignments);
    ResearchOnHead(c, s1, w);
  }

  // ---- progress ----

  /** The worker reports, and its sources can be looped over (as its output schema ensures). */
  predicate Sound(w: WorkerResult) {
    w.Report? && Readable(Sources(w.payload))
  }

  predicate SoundAction(a: Action) {
    (a.Research? || a.Finalize?) ==> Sound(a.worker)
  }

  predicate AllSound(actions: seq<Action>) {
    forall i | 0 <= i < |actions| :: SoundAction(actions[i])
  }

  ghost predicate TaskReadable(t: Task) {
    forall i | 0 <= i < |t.artifacts| :: Readable(Sources(t.artifacts[i].payload))
  }

  ghost predicate AllReadable(s: State) {
    forall key {:trigger TaskReadable(TaskOf(s, key))} :: TaskReadable(TaskOf(s, key))
  }

  /** The record has at most one artifact more, with the given payload. */
  ghost predicate AddsAtMost(t: Task, t': Task, payload: Dict) {
    || t'.artifacts == t.artifacts
    || exists a: Artifact :: t'.artifacts == t.artifacts + [a] && a.payload == payload
  }

  lemma ReadableGrows(t: Task, t': Task, payload: Dict)
    requires TaskReadable(t) && AddsAtMost(t, t', payload) && Readable(Sources(payload))
    ensures TaskReadable(t')
  {
  }

  /** A research call adds at most one artifact: the report's, or an empty one when blocked. */
  lemma ResearchAdds(c: Config, s: State, key: string, w: WorkerResult)
    requires w.Report?
    ensures var t, t' := TaskOf(s, key), TaskOf(ResearchStep(c, s, key, w).0, key);
            AddsAtMost(t, t', w.payload) || AddsAtMost(t, t', map[])
  {
    var t := TaskOf(s, key);
    var (s', reply) := ResearchStep(c, s, key, w);
    if reply.BlockedBy? {
      assert TaskOf(s', key).artifacts == t.artifacts + [BlockedArtifact(t.attempts + 1, reply.dep)];
    } else if reply.ResearchComplete? {
      assert TaskOf(s', key).artifacts == t.artifacts + [ArtifactOf(w, reply.attempt)];
    }
  }

  lemma ResearchReadable(c: Config, s: State, key: string, w: WorkerResult)
    requires AllReadable(s) && Sound(w)
    ensures AllReadable(ResearchStep(c, s, key, w).0)
  {
    var s' := ResearchStep(c, s, key, w).0;
    ResearchExtends(c, s, key, w);
    ResearchAdds(c, s, key, w);
    forall k ensures TaskReadable(TaskOf(s', k)) {
      assert TaskReadable(TaskOf(s, k));
      if k == key {
        var payload := if AddsAtMost(TaskOf(s, key), TaskOf(s', key), w.payload) then w.payload else map[];
        ReadableGrows(TaskOf(s, key), TaskOf(s', key), payload);
      }
    }
  }

  lemma SameArtifactsReadable(s: State, s': State)
    requires AllReadable(s)
    requires forall key :: TaskOf(s', key).artifacts == TaskOf(s, key).artifacts
    ensures AllReadable(s')
  {
    forall key ensures TaskReadable(TaskOf(s', key)) {
      assert TaskReadable(TaskOf(s, key));
    }
  }

  lemma FinalizeReadable(c: Config, s: State, w: WorkerResult)
    requires AllReadable(s) && Sound(w)
    ensures AllReadable(FinalizeStep(c, s, w).0)
  {
    var incomplete := Incomplete(s, c.assignments);
    if incomplete == [] {
      SettleAllExtends(c, s, c.assignments);
      SameArtifactsReadable(s, FinalizeStep(c, s, w).0);
    } else {
      var s1 := s.(blockedFinalize := s.blockedFinalize + 1);
      SameArtifactsReadable(s, s1);
      ResearchReadable(c, s1, incomplete[0], w);
    }
  }

  lemma StepReadable(c: Config, s: State, a: Action)
    requires AllReadable(s) && SoundAction(a)
    ensures AllReadable(Step(c, s, a).0)
  {
    match a
    case Research(key, w) => ResearchReadable(c, s, key, w);
    case Finalize(w) => FinalizeReadable(c, s, w);
    case ReviewTask(key) =>
      ReviewExtends(c, s, key);
      SameArtifactsReadable(s, ReviewStep(c, s, key).0);
    case JudgeTask(key) =>
      JudgeExtends(c, s, key);
      SameArtifactsReadable(s, JudgeStep(c, s, key).0);
    case Suggest(key, queries) =>
      SameArtifactsReadable(s, SuggestStep(c, s, key, queries).0);
  }

  lemma {:induction false} SettleAllSucceeds(c: Config, s: State, assignments: seq<Assignment>)
    requires AllReadable(s)
    ensures SettleAll(c, s, assignments).1.Success?
  {
    if assignments != [] {
      var init, key := assignments[..|assignments| - 1], assignments[|assignments| - 1].key;
      SettleAllSucceeds(c, s, init);
      SettleAllExtends(c, s, init);
      assert TaskReadable(TaskOf(s, key));
    }
  }

  function CountFinalize(actions: seq<Action>): nat
    decreases |actions|
  {
    if actions == [] then 0 else (if actions[0].Finalize? then 1 else 0) + CountFinalize(actions[1..])
  }

  /** Some call of the run returns a finished package. */
  predicate ReadyWithin(c: Config, s: State, actions: seq<Action>)
    decreases |actions|
  {
    actions != []
    && (Step(c, s, actions[0]).1.PackageReady? || ReadyWithin(c, Step(c, s, actions[0]).0, actions[1..]))
  }

  /** How many more finalize calls a package can take: one per incomplete task, the one that
      succeeds, and the first premature one, which is only refused. */
  function CallsNeeded(c: Config, s: State): nat {
    var n := |Incomplete(s, c.assignments)|;
    if n > 0 && s.blockedFinalize == 0 then n + 2 else n + 1
  }

  lemma OtherCallsCostNothing(c: Config, s: State, a: Action)
    requires !a.Finalize?
    ensures CallsNeeded(c, Step(c, s, a).0) <= CallsNeeded(c, s)
  {
    IncompleteNeverGrows(c, s, a);
  }

  lemma FinalizeCallCounts(c: Config, s: State, w: WorkerResult)
    requires AllReadable(s) && Sound(w)
    ensures FinalizeStep(c, s, w).1.PackageReady? || CallsNeeded(c, FinalizeStep(c, s, w).0) < CallsNeeded(c, s)
  {
    var incomplete := Incomplete(s, c.assignments);
    if incomplete == [] {
      SettleAllSucceeds(c, s, c.assignments);
    } else {
      var s1 := s.(blockedFinalize := s.blockedFinalize + 1);
      SameIncomplete(s, s1, c.assignments);
      if s1.blockedFinalize >= AUTO_RECOVER_AFTER {
        var key := incomplete[0];
        var s' := ResearchStep(c, s1, key, w).0;
        assert key in incomplete;
        IncompleteMeaning(s1, c.assignments);
        FindMeaning(c.assignments, key);
        RecoveryRecords(c, s1, key, w);
        ResearchExtends(c, s1, key, w);
        forall k | Missing(s', k) ensures Missing(s1, k) {
          assert Extends(TaskOf(s1, k), TaskOf(s', k));
        }
        IncompleteShrinks(s1, s', c.assignments);
      }
    }
  }

  /** Progress: with a worker that always reports, as many finalize calls as `CallsNeeded`,
      with any other tool calls in between, end in a finished package. */
  lemma {:induction false} FinalizationProgress(c: Config, s: State, actions: seq<Action>)
    requires AllReadable(s) && AllSound(actions)
    requires CountFinalize(actions) >= CallsNeeded(c, s)
    ensures ReadyWithin(c, s, actions)
    decreases |actions|
  {
    var a := actions[0];
    var s' := Step(c, s, a).0;
    assert SoundAction(a);
    if a.Finalize? {
      FinalizeCallCounts(c, s, a.worker);
    } else {
      OtherCallsCostNothing(c, s, a);
    }
    if !Step(c, s, a).1.PackageReady? {
      StepReadable(c, s, a);
      FinalizationProgress(c, s', actions[1..]);
    }
  }

  lemma {:induction false} IncompleteAtMost(s: State, assignments: seq<Assignment>)
    ensures |Incomplete(s, assignments)| <= |assignments|
  {
    if assignments != [] {
      IncompleteAtMost(s, assignments[..|assignments| - 1]);
    }
  }

  /** From the start: n tasks, n + 2 finalize calls. */
  lemma ProgressFromStart(c: Config, payload: Dict, actions: seq<Action>)
    requires AllSound(actions) && CountFinalize(actions) >= |c.assignments| + 2
    ensures ReadyWithin(c, InitialState(payload), actions)
  {
    IncompleteAtMost(InitialState(payload), c.assignments);
    FinalizationProgress(c, InitialState(payload), actions);
  }

  lemma BlockedCounterKept(c: Config, s: State, key: string, w: WorkerResult)
    ensures ResearchStep(c, s, key, w).0.blockedFinalize == s.blockedFinalize
  {
  }

  /** The bound is exact: a Lead that does nothing but finalize is not done any sooner. */
  lemma {:induction false} ProgressBoundIsTight(c: Config, s: State, actions: seq<Action>)
    requires UniqueKeys(c.assignments) && AllSound(actions)
    requires forall i | 0 <= i < |actions| :: actions[i].Finalize?
    requires |actions| < CallsNeeded(c, s)
    ensures !ReadyWithin(c, s, actions)
    decreases |actions|
  {
    if actions != [] {
      var w := actions[0].worker;
      var s' := FinalizeStep(c, s, w).0;
      assert SoundAction(actions[0]);
      if s.blockedFinalize >= 1 {
        RecoveryRemovesOne(c, s, w);
        BlockedCounterKept(c, s.(blockedFinalize := s.blockedFinalize + 1), Incomplete(s, c.assignments)[0], w);
      } else {
        SameIncomplete(s, s', c.assignments);
      }
      ProgressBoundIsTight(c, s', actions[1..]);
    }
  }

  // ---- a finished package is settled ----

  predicate Settled(t: Task, status: Status) {
    t.decisions != [] && Last(t.decisions).value.status == status
  }

  lemma SettleDecides(c: Config, key: string, t: Task)
    requires TaskInv(c, key, t) && Settle(c, key, t).Success?
    requires t.artifacts != [] || t.decisions != []
    ensures var (t', entry) := Settle(c, key, t).value;
            && entry.key == key
            && Settled(t', entry.status)
            && (t.decisions != [] ==> t' == t)
  {
    if t.artifacts == [] {
      assert DecisionGrounded(c, key, t.attempts, t.artifacts, t.reviews, t.decisions[|t.decisions| - 1]);
    }
  }

  /** One turn of the assembly loop. */
  lemma SettleAllTurn(c: Config, s: State, init: seq<Assignment>, last: Assignment)
    requires SettleAll(c, s, init).1.Success?
    ensures var (s1, done) := SettleAll(c, s, init);
            SettleAll(c, s, init + [last]) ==
            match Settle(c, last.key, TaskOf(s1, last.key))
            case Failure => (s1, Failure)
            case Success((t, entry)) => (SetTask(s1, last.key, t), Success(done.value + [entry]))
  {
    assert (init + [last])[..|init + [last]| - 1] == init;
  }

  /** One entry per assignment, showing the latest decision of its task. */
  predicate ShowsDecisions(s: State, assignments: seq<Assignment>, entries: seq<Entry>) {
    |entries| == |assignments|
    && forall i | 0 <= i < |assignments| ::
         entries[i].key == assignments[i].key && Settled(TaskOf(s, assignments[i].key), entries[i].status)
  }

  lemma ShowsOneMore(s: State, assignments: seq<Assignment>, entries: seq<Entry>, a: Assignment, e: Entry)
    requires ShowsDecisions(s, assignments, entries)
    requires e.key == a.key && Settled(TaskOf(s, a.key), e.status)
    ensures ShowsDecisions(s, assignments + [a], entries + [e])
  {
  }

  lemma ShowsKept(s: State, assignments: seq<Assignment>, entries: seq<Entry>, key: string, t: Task)
    requires ShowsDecisions(s, assignments, entries)
    requires TaskOf(s, key).decisions != [] ==> t == TaskOf(s, key)
    ensures ShowsDecisions(SetTask(s, key, t), assignments, entries)
  {
    forall i | 0 <= i < |assignments|
      ensures TaskOf(SetTask(s, key, t), assignments[i].key) == TaskOf(s, assignments[i].key)
    {
      assert Settled(TaskOf(s, assignments[i].key), entries[i].status);
    }
  }

  lemma DecidesTurn(c: Config, s: State, init: seq<Assignment>, entries: seq<Entry>, last: Assignment)
    requires TaskInv(c, last.key, TaskOf(s, last.key)) && !Missing(s, last.key)
    requires ShowsDecisions(s, init, entries) && Settle(c, last.key, TaskOf(s, last.key)).Success?
    ensures var (t, entry) := Settle(c, last.key, TaskOf(s, last.key)).value;
            ShowsDecisions(SetTask(s, last.key, t), init + [last], entries + [entry])
  {
    SettleDecides(c, last.key, TaskOf(s, last.key));
    var (t, entry) := Settle(c, last.key, TaskOf(s, last.key)).value;
    ShowsKept(s, init, entries, last.key, t);
    ShowsOneMore(SetTask(s, last.key, t), init, entries, last, entry);
  }

  lemma StillNotMissing(c: Config, s: State, assignments: seq<Assignment>, key: string)
    requires !Missing(s, key)
    ensures !Missing(SettleAll(c, s, assignments).0, key)
  {
    SettleAllExtends(c, s, assignments);
    assert Extends(TaskOf(s, key), TaskOf(SettleAll(c, s, assignments).0, key));
  }

  lemma SettleAllDecidesTurn(c: Config, s: State, init: seq<Assignment>, last: Assignment)
    requires SettleAll(c, s, init).1.Success? && SettleAll(c, s, init + [last]).1.Success?
    requires var (s1, done) := SettleAll(c, s, init);
             Inv(c, s1) && ShowsDecisions(s1, init, done.value) && !Missing(s1, last.key)
    ensures var (s', done) := SettleAll(c, s, init + [last]);
            ShowsDecisions(s', init + [last], done.value)
  {
    var (s1, done) := SettleAll(c, s, init);
    SettleAllTurn(c, s, init, last);
    assert TaskInv(c, last.key, TaskOf(s1, last.key));
    DecidesTurn(c, s1, init, done.value, last);
  }

  lemma {:induction false} SettleAllDecides(c: Config, s: State, assignments: seq<Assignment>)
    requires Inv(c, s) && SettleAll(c, s, assignments).1.Success?
    requires forall i | 0 <= i < |assignments| :: !Missing(s, assignments[i].key)
    ensures var (s', done) := SettleAll(c, s, assignments);
            ShowsDecisions(s', assignments, done.value)
  {
    if assignments != [] {
      var n := |assignments| - 1;
      var init, last := assignments[..n], assignments[n];
      assert assignments == init + [last];
      SettleAllDecides(c, s, init);
      SettleAllKeeps(c, s, init);
      StillNotMissing(c, s, init, last.key);
      SettleAllDecidesTurn(c, s, init, last);
    }
  }

  lemma SettleReplays(c: Config, s: State, key: string)
    requires Inv(c, s) && TaskOf(s, key).decisions != []
    ensures var result := Settle(c, key, TaskOf(s, key));
            && result.Success?
            && SetTask(s, key, result.value.0) == s
            && result.value.1.key == key
            && Settled(TaskOf(s, key), result.value.1.status)
  {
    assert TaskInv(c, key, TaskOf(s, key));
    SettleDecides(c, key, TaskOf(s, key));
    assert s.tasks[key := s.tasks[key]] == s.tasks;
  }

  lemma ReplayTurn(c: Config, s: State, init: seq<Assignment>, entries: seq<Entry>, last: Assignment)
    requires Inv(c, s) && ShowsDecisions(s, init, entries) && TaskOf(s, last.key).decisions != []
    ensures var result := Settle(c, last.key, TaskOf(s, last.key));
            && result.Success?
            && SetTask(s, last.key, result.value.0) == s
            && ShowsDecisions(s, init + [last], entries + [result.value.1])
  {
    SettleReplays(c, s, last.key);
    ShowsOneMore(s, init, entries, last, Settle(c, last.key, TaskOf(s, last.key)).value.1);
  }

  /** When every task is decided, assembling changes nothing and reads the decisions back. */
  lemma {:induction false} SettleAllReplays(c: Config, s: State, assignments: seq<Assignment>)
    requires Inv(c, s)
    requires forall i | 0 <= i < |assignments| :: TaskOf(s, assignments[i].key).decisions != []
    ensures var (s', done) := SettleAll(c, s, assignments);
            s' == s && done.Success? && ShowsDecisions(s, assignments, done.value)
  {
    if assignments != [] {
      var n := |assignments| - 1;
      var init, last := assignments[..n], assignments[n];
      SettleAllReplays(c, s, init);
      assert assignments == init + [last];
      SettleAllTurn(c, s, init, last);
      ReplayTurn(c, s, init, SettleAll(c, s, init).1.value, last);
    }
  }

  lemma ReadyMeansComplete(c: Config, s: State, w: WorkerResult)
    ensures FinalizeStep(c, s, w).1.PackageReady? ==>
              Incomplete(s, c.assignments) == [] && SettleAll(c, s, c.assignments).1.Success?
  {
  }

  lemma CompleteMeansDone(c: Config, s: State)
    ensures Incomplete(s, c.assignments) == [] <==>
            forall i | 0 <= i < |c.assignments| :: !Missing(s, c.assignments[i].key)
  {
    IncompleteMeaning(s, c.assignments);
    var incomplete := Incomplete(s, c.assignments);
    if incomplete != [] {
      assert incomplete[0] in incomplete;
    } else {
      forall i | 0 <= i < |c.assignments| ensures !Missing(s, c.assignments[i].key) {
        assert c.assignments[i].key !in incomplete;
      }
    }
  }

  /** After a successful finalize every assigned task has a decision, and the package shows
      exactly the latest decision of each task; the "no research at all" branch is not taken. */
  lemma FinalizedIsSettled(c: Config, s: State, w: WorkerResult)
    requires Inv(c, s) && FinalizeStep(c, s, w).1.PackageReady?
    ensures var (s', reply) := FinalizeStep(c, s, w);
            ShowsDecisions(s', c.assignments, reply.package.entries)
  {
    ReadyMeansComplete(c, s, w);
    CompleteMeansDone(c, s);
    SettleAllDecides(c, s, c.assignments);
  }

  /** The confidence of a package, of either builder: high exactly when there are tasks and all
      are accepted, low exactly when none is accepted or degraded. */
  lemma ConfidenceMeaning(statuses: seq<Status>)
    ensures PackageConfidence(statuses) == High <==>
              statuses != [] && forall i | 0 <= i < |statuses| :: statuses[i] == StatusAccepted
    ensures PackageConfidence(statuses) == Low <==> StatusAccepted !in statuses && StatusDegraded !in statuses
  {
    PolicyGate.CountStatusBound(statuses, StatusAccepted);
    PolicyGate.CountStatusMeaning(statuses, StatusAccepted);
    PolicyGate.CountStatusMeaning(statuses, StatusDegraded);
  }

  lemma SettledStatuses(s: State, assignments: seq<Assignment>, xs: seq<Entry>, ys: seq<Entry>)
    requires ShowsDecisions(s, assignments, xs) && ShowsDecisions(s, assignments, ys)
    ensures Statuses(xs) == Statuses(ys)
  {
    forall i | 0 <= i < |xs| ensures xs[i].status == ys[i].status {
      assert Settled(TaskOf(s, assignments[i].key), xs[i].status);
      assert Settled(TaskOf(s, assignments[i].key), ys[i].status);
    }
  }

  /** Finalizing again records nothing and repeats the statuses and the confidence; only the
      payload may be completed anew. */
  lemma FinalizeAgain(c: Config, s: State, w: WorkerResult, again: WorkerResult)
    requires Inv(c, s) && FinalizeStep(c, s, w).1.PackageReady?
    ensures var (s', reply) := FinalizeStep(c, s, w);
            var (s2, reply2) := FinalizeStep(c, s', again);
            && s2 == s'.(payload := s2.payload) && reply2.PackageReady?
            && Statuses(reply2.package.entries) == Statuses(reply.package.entries)
            && reply2.package.confidence == reply.package.confidence
  {
    FinalizedIsSettled(c, s, w);
    FinalizeKeeps(c, s, w);
    var (s', reply) := FinalizeStep(c, s, w);
    var entries := reply.package.entries;
    forall i | 0 <= i < |c.assignments| ensures TaskOf(s', c.assignments[i].key).decisions != [] {
      assert Settled(TaskOf(s', c.assignments[i].key), entries[i].status);
    }
    CompleteMeansDone(c, s');
    SettleAllReplays(c, s', c.assignments);
    SettledStatuses(s', c.assignments, SettleAll(c, s', c.assignments).1.value, entries);
    ReadyMeansComplete(c, s, w);
  }
}
