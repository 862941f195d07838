/** More information never hurts: the Critic followed by the Judge is monotone in an
    information order on payloads. */
module QualityOrder {
  import opened Text
  import opened JsonModel
  import opened Critic
  import opened Judge
  import opened Contracts
  import Payload

  /** `p` holds no more information than `q`. */
  ghost predicate Leq(p: Json, q: Json)
    decreases p
  {
    match p
    case Null => true
    case Bool(_) => q.Bool? || q.Num?
    case Num(_) => q.Bool? || q.Num?
    case Str(s) => q.Str? && |Trim(s)| <= |Trim(q.s)| && (!Placeholder(s) ==> !Placeholder(q.s))
    case Arr(items) => q.Arr? && |items| <= |q.items| && forall i | 0 <= i < |items| :: Leq(items[i], q.items[i])
    case Obj(fields) => q.Obj? && forall key | key in fields :: key in q.fields && Leq(fields[key], q.fields[key])
  }

  lemma {:induction false} LeqReflexive(p: Json)
    ensures Leq(p, p)
  {
    match p
    case Arr(items) =>
      forall i | 0 <= i < |items| ensures Leq(items[i], items[i]) { LeqReflexive(items[i]); }
    case Obj(fields) =>
      forall key | key in fields ensures Leq(fields[key], fields[key]) { LeqReflexive(fields[key]); }
    case _ =>
  }

  lemma {:induction false} LeqTransitive(p: Json, q: Json, r: Json)
    requires Leq(p, q) && Leq(q, r)
    ensures Leq(p, r)
    decreases p
  {
    match p
    case Arr(items) =>
      forall i | 0 <= i < |items| ensures Leq(items[i], r.items[i]) {
        LeqTransitive(items[i], q.items[i], r.items[i]);
      }
    case Obj(fields) =>
      forall key | key in fields ensures key in r.fields && Leq(fields[key], r.fields[key]) {
        LeqTransitive(fields[key], q.fields[key], r.fields[key]);
      }
    case _ =>
  }

  lemma {:induction false} WalkMonotone(p: Json, q: Json, path: seq<string>)
    requires Leq(p, q)
    ensures Leq(Walk(p, path), Walk(q, path))
    decreases |path|
  {
    if path != [] {
      if p.Obj? {
        WalkMonotone(Get(p.fields, path[0]), Get(q.fields, path[0]), path[1..]);
      } else {
        WalkNull(path[1..]);
      }
    }
  }

  lemma NonPlaceholderMonotone(p: Json, q: Json)
    requires Leq(p, q) && NonPlaceholder(p)
    ensures NonPlaceholder(q)
  {
    if p.Obj? {
      var key :| key in p.fields;
      assert key in q.fields;
    }
  }

  lemma {:induction false} CountFilledMonotone(ps: seq<Json>, qs: seq<Json>, subField: string)
    requires |ps| <= |qs|
    requires forall i | 0 <= i < |ps| :: Leq(ps[i], qs[i])
    ensures CountFilled(ps, subField) <= CountFilled(qs, subField)
    decreases |qs|
  {
    if |ps| < |qs| {
      CountFilledMonotone(ps, qs[..|qs| - 1], subField);
    } else if ps != [] {
      var n := |ps| - 1;
      CountFilledMonotone(ps[..n], qs[..n], subField);
      assert Leq(ps[n], qs[n]);
      if Filled(ps[n], subField) {
        NonPlaceholderMonotone(Get(ps[n].fields, subField), Get(qs[n].fields, subField));
      }
    }
  }

  /** A rule that passes keeps passing when the payload gains information. */
  lemma RuleMonotone(rule: Rule, p: Dict, q: Dict)
    requires Leq(Obj(p), Obj(q)) && Passes(rule, p)
    ensures Passes(rule, q)
  {
    WalkMonotone(Obj(p), Obj(q), rule.Path());
    var v, w := Walk(Obj(p), rule.Path()), Walk(Obj(q), rule.Path());
    if NonPlaceholder(v) {
      NonPlaceholderMonotone(v, w);
    }
    if v.Arr? {
      CountFilledMonotone(v.items, w.items, OrElse(rule.subField, ""));
    }
  }

  lemma {:induction false} CountsMonotone(rules: seq<Rule>, p: Dict, q: Dict, cls: RuleClass)
    requires Leq(Obj(p), Obj(q))
    ensures ClassPassed(rules, p, cls) <= ClassPassed(rules, q, cls)
  {
    if rules != [] {
      var n := |rules| - 1;
      CountsMonotone(rules[..n], p, q, cls);
      if Passes(rules[n], p) {
        RuleMonotone(rules[n], p, q);
      }
    }
  }

  lemma DecideMonotone(x: Counts, y: Counts)
    requires x.coreTotal == y.coreTotal > 0 && x.supportingTotal == y.supportingTotal
    requires x.corePassed <= y.corePassed && x.supportingPassed <= y.supportingPassed
    ensures OutcomeRank(Decide(Some(x), []).outcome) <= OutcomeRank(Decide(Some(y), []).outcome)
    ensures ConfidenceRank(Decide(Some(x), []).confidence) <= ConfidenceRank(Decide(Some(y), []).confidence)
  {
  }

  /** The Judge's verdict on a payload, by way of the Critic. */
  function JudgedOn(rules: seq<Rule>, p: Dict, violations: seq<Violation>): Verdict
    requires ReviewOf(rules, p, violations).Success?
  {
    Decide(Some(CountsOfReview(ReviewOf(rules, p, violations).value)), [])
  }

  /** The main result: with at least one core rule, neither the outcome nor the confidence of
      the Judge drops when the payload gains information, whatever violations are reported. */
  lemma JudgedMonotone(rules: seq<Rule>, p: Dict, q: Dict, vp: seq<Violation>, vq: seq<Violation>)
    requires Leq(Obj(p), Obj(q))
    requires ClassTotal(rules, Core) > 0
    requires ReviewOf(rules, p, vp).Success? && ReviewOf(rules, q, vq).Success?
    ensures var x, y := JudgedOn(rules, p, vp), JudgedOn(rules, q, vq);
            && OutcomeRank(x.outcome) <= OutcomeRank(y.outcome)
            && ConfidenceRank(x.confidence) <= ConfidenceRank(y.confidence)
  {
    CountsMonotone(rules, p, q, Core);
    CountsMonotone(rules, p, q, Supporting);
    DecideMonotone(CountsOfReview(ReviewOf(rules, p, vp).value),
                   CountsOfReview(ReviewOf(rules, q, vq).value));
  }

  /** Having a source survives, unless the sources are a string. */
  lemma SourcesMonotone(p: Dict, q: Dict)
    requires Leq(Obj(p), Obj(q)) && Truthy(Sources(p)) && Readable(Sources(p)) && !Sources(p).Str?
    ensures Truthy(Sources(q))
  {
    assert "sources" in p && "sources" in q && Leq(p["sources"], q["sources"]);
    NonPlaceholderMonotone(p["sources"], q["sources"]);
  }

  lemma {:induction false} NoFailuresMonotone(rules: seq<Rule>, p: Dict, q: Dict)
    requires Leq(Obj(p), Obj(q)) && Failures(rules, p, false) == []
    ensures Failures(rules, q, false) == []
  {
    if rules != [] {
      var n := |rules| - 1;
      NoFailuresMonotone(rules[..n], p, q);
      if Passes(rules[n], p) {
        RuleMonotone(rules[n], p, q);
      }
    }
  }

  /** The exact condition without core rules. When the payload gains information the outcome
      drops just when there was nothing to object to before and afterwards either some
      violation is reported or the source is gone; the confidence drops with it. A source can
      only go when the sources are a string. */
  lemma DropsWithoutCoreExactly(rules: seq<Rule>, p: Dict, q: Dict, vp: seq<Violation>, vq: seq<Violation>)
    requires Leq(Obj(p), Obj(q)) && ClassTotal(rules, Core) == 0
    requires ReviewOf(rules, p, vp).Success? && ReviewOf(rules, q, vq).Success?
    ensures var x, y := JudgedOn(rules, p, vp), JudgedOn(rules, q, vq);
            var drops := IssuesOf(rules, p, vp) == [] && (vq != [] || !Truthy(Sources(q)));
            && (OutcomeRank(y.outcome) < OutcomeRank(x.outcome) <==> drops)
            && (ConfidenceRank(y.confidence) < ConfidenceRank(x.confidence) <==> drops)
    ensures !Sources(p).Str? && IssuesOf(rules, p, vp) == [] ==> Truthy(Sources(q))
  {
    NoIssues(rules, p, vp);
    NoIssues(rules, q, vq);
    if IssuesOf(rules, p, vp) == [] {
      NoFailuresMonotone(rules, p, q);
      if !Sources(p).Str? {
        SourcesMonotone(p, q);
      }
    }
  }

  /** So without reported violations the law holds without core rules too. */
  lemma MonotoneWithoutViolations(rules: seq<Rule>, p: Dict, q: Dict, vp: seq<Violation>)
    requires Leq(Obj(p), Obj(q)) && !Sources(p).Str?
    requires ReviewOf(rules, p, vp).Success? && ReviewOf(rules, q, []).Success?
    ensures OutcomeRank(JudgedOn(rules, p, vp).outcome) <= OutcomeRank(JudgedOn(rules, q, []).outcome)
    ensures ConfidenceRank(JudgedOn(rules, p, vp).confidence) <= ConfidenceRank(JudgedOn(rules, q, []).confidence)
  {
    if ClassTotal(rules, Core) == 0 {
      DropsWithoutCoreExactly(rules, p, q, vp, []);
    } else {
      JudgedMonotone(rules, p, q, vp, []);
    }
  }

  /** A concrete drop: with the same payload on both sides, a contract violation turns an
      accepted task without rules into a degraded one. */
  lemma NotMonotoneWithoutCore()
    ensures var p: Dict := map["sources" := Arr([Null])];
            var v := [Violation("type_mismatch", LowSeverity, "")];
            && Leq(Obj(p), Obj(p))
            && ReviewOf([], p, []).Success? && ReviewOf([], p, v).Success?
            && JudgedOn([], p, []).status == StatusAccepted
            && JudgedOn([], p, v).status == StatusDegraded
  {
    var p: Dict := map["sources" := Arr([Null])];
    var v := [Violation("type_mismatch", LowSeverity, "")];
    LeqReflexive(Obj(p));
    NoIssues([], p, []);
    DropsWithoutCoreExactly([], p, p, [], v);
  }

  // ---- the Critic and the payload algebra ----

  /** A rule on a field that the updates do not touch keeps its verdict after a merge, and a
      rule on a leaf of the updates has the verdict it has on the updates alone. */
  lemma RuleFrame(rule: Rule, base: Dict, updates: Dict)
    ensures var touch := Payload.TouchAt(updates, rule.Path());
            && (touch.Untouched? ==> Passes(rule, Payload.Merge(base, updates)) == Passes(rule, base))
            && (touch.Leaf? ==> Passes(rule, Payload.Merge(base, updates)) == Passes(rule, updates))
            && (touch.Cut? ==> !Passes(rule, Payload.Merge(base, updates)))
  {
    Payload.MergeFrame(base, updates, rule.Path());
    Payload.MergeFrame(map[], updates, rule.Path());
    Payload.MergeIdentity(updates);
  }

  /** The stripped payload is below the original in the information order. */
  lemma {:induction false} StripLeq(p: Dict)
    ensures Leq(Obj(Payload.Strip(p)), Obj(p))
    decreases Obj(p)
  {
    var s := Payload.Strip(p);
    forall key | key in s
      ensures Leq(s[key], p[key])
    {
      match p[key]
      case Obj(fields) => StripLeq(fields);
      case v => LeqReflexive(v);
    }
  }

  /** Stripping defaults never makes a rule pass. */
  lemma StrippingAddsNoPass(rule: Rule, p: Dict)
    requires Passes(rule, Payload.Strip(p))
    ensures Passes(rule, p)
  {
    StripLeq(p);
    RuleMonotone(rule, Payload.Strip(p), p);
  }
}
