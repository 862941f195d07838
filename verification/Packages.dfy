/** What a package contains: each task's line, the sources, the payload and the policy gate. */
module Packages {
  import opened Text
  import opened JsonModel
  import opened Critic
  import opened Judge
  import opened Contracts
  import opened Lead
  import opened LeadRuns
  import opened Finalization
  import PolicyGate

  // ---- one line ----

  /** The points a task's line shows: those of its latest review, or without any decision or
      review those of a review made on the spot. */
  ghost function PointsShown(c: Config, key: string, t: Task): seq<Note>
    requires t.artifacts != []
  {
    if t.reviews != [] then t.reviews[|t.reviews| - 1].acceptedPoints
    else if t.decisions != [] then []
    else Points(RulesOf(c, key), t.artifacts[|t.artifacts| - 1].payload, true)
  }

  /** The line finalizing writes for a researched task, and the decision it leaves. */
  lemma LineExactly(c: Config, key: string, t: Task)
    requires t.artifacts != [] && Settle(c, key, t).Success?
    ensures var (t', entry) := Settle(c, key, t).value;
            var a := t.artifacts[|t.artifacts| - 1];
            && entry.key == key && entry.sources == a.sources && entry.acceptedPoints == PointsShown(c, key, t)
            && t'.attempts == t.attempts && t'.artifacts == t.artifacts && t'.reviews == t.reviews
            && (t.decisions != [] ==> t' == t)
            && (t.decisions == [] ==>
                  && |t'.decisions| == 1 && t'.decisions[0].status == entry.status && t'.decisions[0].attempt == a.attempt
                  && (t'.decisions[0].decidedBy == ByLead <==>
                        t.reviews != [] && t.reviews[|t.reviews| - 1].approved && !a.needsContractReview)
                  && t'.decisions[0].decidedBy != ByRuntime)
  {
  }

  /** The line the fallback builder writes for a researched, undecided task comes from a review
      made on the spot; a decided one shows its latest review, if any. */
  lemma FallbackLineExactly(c: Config, key: string, t: Task)
    requires t.artifacts != [] && FallbackEntry(c, key, t).Success?
    ensures var entry, a := FallbackEntry(c, key, t).value, t.artifacts[|t.artifacts| - 1];
            && entry.key == key && entry.sources == a.sources
            && (t.decisions == [] ==> entry.acceptedPoints == Points(RulesOf(c, key), a.payload, true))
            && (t.decisions != [] ==>
                  entry.acceptedPoints == if t.reviews != [] then t.reviews[|t.reviews| - 1].acceptedPoints else [])
  {
  }

  /** When the Lead accepts an approved review, it is with high confidence: approval means that
      all core rules passed. */
  lemma LeadIsConfident(rules: seq<Rule>, payload: Dict, violations: seq<Violation>, attempt: nat)
    requires ReviewOf(rules, payload, violations).Success? && ReviewOf(rules, payload, violations).value.approved
    ensures var d := LeadAccepted(attempt, FromCritic(ReviewOf(rules, payload, violations).value, attempt));
            d.outcome == Accepted && d.status == StatusAccepted && d.confidence == High && d.decidedBy == ByLead
            && d.openQuestions == [] && d.attempt == attempt
  {
    ApprovalMeaning(rules, payload, violations);
  }

  // ---- sources ----

  lemma {:induction false} SourcesJoin(a: seq<Entry>, b: seq<Entry>)
    ensures AllSources(a + b) == AllSources(a) + AllSources(b)
  {
    if b == [] {
      assert a + b == a;
    } else {
      SourcesJoin(a, b[..|b| - 1]);
      assert (a + b)[..|a + b| - 1] == a + b[..|b| - 1];
    }
  }

  /** A package's sources are those of its lines, one after the other. */
  lemma SourcesMeaning(first: Entry, rest: seq<Entry>)
    ensures AllSources([]) == []
    ensures AllSources([first] + rest) == first.sources + AllSources(rest)
  {
    SourcesJoin([first], rest);
    assert [first][..0] == [];
    assert AllSources([first]) == [] + first.sources;
  }

  // ---- payload ----

  /** Finalizing in the company department writes the classification of the payload as it was,
      and the scope from the known products when there are some and no scope is set. */
  lemma CompletionWrites(c: Config, payload: Dict)
    requires c.classifyGoods.Some?
    ensures var after := Completed(c, payload);
            && "goods_classification" in after && after["goods_classification"] == Str(c.classifyGoods.value(payload))
            && (!Truthy(Get(payload, "product_asset_scope")) && Truthy(Get(payload, "products_and_services")) ==>
                  && "product_asset_scope" in after
                  && after["product_asset_scope"] == c.pendingScope(payload["products_and_services"]))
  {
  }

  /** The fallback builder writes the scope alike, in every department, and nothing else. */
  lemma FallbackCompletion(c: Config, s: State)
    requires FallbackPackage(c, s).Success?
    ensures var after := FallbackPackage(c, s).value.payload;
            && (forall k | k != "product_asset_scope" :: (k in after <==> k in s.payload) && Get(after, k) == Get(s.payload, k))
            && Get(after, "product_asset_scope") ==
               if !Truthy(Get(s.payload, "product_asset_scope")) && Truthy(Get(s.payload, "products_and_services"))
               then c.pendingScope(s.payload["products_and_services"]) else Get(s.payload, "product_asset_scope")
  {
  }

  // ---- gate ----

  lemma GateOnEntries(policy: PolicyGate.Policy, payload: Dict, entries: seq<Entry>, sources: seq<Json>)
    ensures var finished := |set i | 0 <= i < |entries| &&
                              entries[i].status in {StatusAccepted, StatusDegraded, StatusBlocked, StatusSkipped}|;
            var total := |set i | 0 <= i < |sources| && sources[i].Obj?|;
            var primary := |set i | 0 <= i < |sources| && sources[i].Obj? && policy.primary(sources[i].fields)|;
            PolicyGate.Evaluate(policy, payload, Statuses(entries), sources).passed <==>
              && (forall path | path in policy.requiredFields :: PolicyGate.Present(policy, Walk(Obj(payload), SplitDots(path))))
              && policy.minSources <= total && policy.minPrimarySources <= primary && policy.minCompletedTasks <= finished
              && (policy.requireAcceptedTask ==> exists i :: 0 <= i < |entries| && entries[i].status == StatusAccepted)
  {
    var statuses := Statuses(entries);
    PolicyGate.GateExactly(policy, payload, statuses, sources);
    assert forall i | 0 <= i < |entries| :: statuses[i] == entries[i].status;
    assert (set i | 0 <= i < |statuses| && statuses[i] in {StatusAccepted, StatusDegraded, StatusBlocked, StatusSkipped})
        == set i | 0 <= i < |entries| && entries[i].status in {StatusAccepted, StatusDegraded, StatusBlocked, StatusSkipped};
    assert StatusAccepted in statuses <==> exists i :: 0 <= i < |entries| && entries[i].status == StatusAccepted;
  }

  /** A finalized package carries the completed payload and the gate on it, on its lines and on
      their sources. */
  lemma FinalizedParts(c: Config, s: State, w: WorkerResult)
    requires FinalizeStep(c, s, w).1.PackageReady?
    ensures var p := FinalizeStep(c, s, w).1.package;
            && p.payload == FinalizeStep(c, s, w).0.payload == Completed(c, s.payload)
            && p.gate == Some(PolicyGate.Evaluate(c.policy, p.payload, Statuses(p.entries), AllSources(p.entries)))
  {
    ReadyMeansComplete(c, s, w);
    SettleAllSamePayload(c, s, c.assignments);
  }

  /** A finalized package passes its policy gate exactly when its payload has something present
      at every required path, its sources reach the thresholds for dictionary sources and for
      primary ones, its lines reach the one for finished tasks, and a line is accepted if that is
      demanded. */
  lemma FinalizedGateExactly(c: Config, s: State, w: WorkerResult)
    requires FinalizeStep(c, s, w).1.PackageReady?
    ensures var p, policy := FinalizeStep(c, s, w).1.package, c.policy;
            var sources := AllSources(p.entries);
            var total := |set i | 0 <= i < |sources| && sources[i].Obj?|;
            var primary := |set i | 0 <= i < |sources| && sources[i].Obj? && policy.primary(sources[i].fields)|;
            var finished := |set i | 0 <= i < |p.entries| &&
                              p.entries[i].status in {StatusAccepted, StatusDegraded, StatusBlocked, StatusSkipped}|;
            && p.gate.Some?
            && (p.gate.value.passed <==>
                  && (forall path | path in policy.requiredFields ::
                        PolicyGate.Present(policy, Walk(Obj(p.payload), SplitDots(path))))
                  && policy.minSources <= total && policy.minPrimarySources <= primary
                  && policy.minCompletedTasks <= finished
                  && (policy.requireAcceptedTask ==> exists i :: 0 <= i < |p.entries| && p.entries[i].status == StatusAccepted))
  {
    FinalizedParts(c, s, w);
    var p := FinalizeStep(c, s, w).1.package;
    GateOnEntries(c.policy, p.payload, p.entries, AllSources(p.entries));
  }
}
