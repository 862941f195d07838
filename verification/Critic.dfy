/** The Critic: a deterministic evaluator of validation rules over a payload. */
module Critic {
  import opened Text
  import opened JsonModel
  import opened Counting
  import opened Dedup

  /** The check types; any other name fails. A rule without one counts as named "unknown". */
  datatype Check = CheckNonPlaceholder | CheckMinItems | CheckMinLength | CheckNestedField | CheckUnknown(name: string)

  /** "core", or anything else. */
  datatype RuleClass = Core | Supporting

  /** A validation rule. The entries that may be missing are optional. */
  datatype Rule = Rule(
    check: Check,
    field: Option<string>,
    subField: Option<string>,
    value: Option<int>,
    ruleClass: RuleClass,
    message: Option<string>)
  {
    function Path(): seq<string> { SplitDots(OrElse(field, "")) }
    function Threshold(): int { OrElse(value, 1) }
    function Name(): string { OrElse(field, CheckName(check)) }
  }

  function CheckName(check: Check): string {
    match check
    case CheckNonPlaceholder => "non_placeholder"
    case CheckMinItems => "min_items"
    case CheckMinLength => "min_length"
    case CheckNestedField => "nested_field_non_placeholder"
    case CheckUnknown(name) => name
  }

  function OrElse<T>(x: Option<T>, default: T): T {
    match x case Some(v) => v case None => default
  }

  datatype Severity = LowSeverity | MediumSeverity | HighSeverity

  /** A mismatch found by the task-level schema validation. */
  datatype Violation = Violation(kind: string, severity: Severity, message: string)

  /** An entry of an issue, point or open-question list; the wording is left to the reader. */
  datatype Note =
    | PointOf(name: string)          // the name of a rule, or "supporting_sources"
    | FailedRule(rule: Rule)         // the failure message of a rule
    | NoSourceRecorded
    | ContractIssue(violation: Violation)
    | NoCriticReview
    | NoArtifactYet
    | DependencyMissing(dep: string)
    | OpenQuestion(text: string)

  // ---- single checks ----

  /** `_resolve_field`: walk the payload with a cursor, giving up at the first non-dictionary. */
  method ResolveField(payload: Dict, fieldPath: string) returns (value: Json)
    ensures value == Walk(Obj(payload), SplitDots(fieldPath))
  {
    value := Obj(payload);
    var parts := SplitDots(fieldPath);
    for i := 0 to |parts|
      invariant Walk(value, parts[i..]) == Walk(Obj(payload), parts)
    {
      if !value.Obj? {
        return Null;
      }
      value := Get(value.fields, parts[i]);
    }
  }

  /** Reading a dotted path reads its rest in the dictionary at its first step; it is null when
      there is no dictionary. */
  lemma ResolveNested(p: Dict, a: string, b: string)
    requires '.' !in a
    ensures Walk(Obj(p), SplitDots(a)) == if a in p then p[a] else Null
    ensures Walk(Obj(p), SplitDots(a + "." + b)) ==
            if a in p && p[a].Obj? then Walk(p[a], SplitDots(b)) else Null
  {
    SplitFirst(a, b);
    var rest := SplitDots(b);
    assert [a][1..] == [] && ([a] + rest)[1..] == rest;
    assert Walk(Obj(p), [a]) == Walk(Get(p, a), []);
    assert Walk(Obj(p), [a] + rest) == Walk(Get(p, a), rest);
    assert rest != [];
  }

  predicate NonPlaceholder(v: Json) {
    match v
    case Null => false
    case Str(s) => Trim(s) != "" && Trim(s) != "n/v"
    case Arr(items) => items != []
    case Obj(fields) => fields != map[]
    case _ => true
  }

  predicate MinItems(v: Json, threshold: int) {
    v.Arr? && |v.items| >= threshold
  }

  predicate MinLength(v: Json, threshold: int) {
    v.Str? && |Trim(v.s)| >= threshold
  }

  /** This item has a real value at `subField`. */
  predicate Filled(item: Json, subField: string) {
    item.Obj? && NonPlaceholder(Get(item.fields, subField))
  }

  function CountFilled(items: seq<Json>, subField: string): nat {
    if items == [] then 0
    else CountFilled(items[..|items| - 1], subField) + if Filled(items[|items| - 1], subField) then 1 else 0
  }

  lemma {:induction false} CountFilledPrefix(items: seq<Json>, subField: string, n: nat)
    requires n <= |items|
    ensures CountFilled(items[..n], subField) <= CountFilled(items, subField)
    decreases |items| - n
  {
    if n == |items| {
      assert items[..n] == items;
    } else {
      assert items[..n + 1][..n] == items[..n];
      CountFilledPrefix(items, subField, n + 1);
    }
  }

  /** A threshold below one still needs one filled item: the count is only compared when it grows. */
  predicate NestedFilled(v: Json, subField: string, threshold: int) {
    v.Arr? && CountFilled(v.items, subField) >= (if threshold < 1 then 1 else threshold)
  }

  /** The counting loop with its early exit. */
  method CheckNestedFieldNonPlaceholder(v: Json, subField: string, threshold: int) returns (ok: bool)
    ensures ok <==> NestedFilled(v, subField, threshold)
  {
    if !v.Arr? {
      return false;
    }
    var count := 0;
    for i := 0 to |v.items|
      invariant count == CountFilled(v.items[..i], subField)
      invariant count < (if threshold < 1 then 1 else threshold)
    {
      var item := v.items[i];
      assert v.items[..i + 1][..i] == v.items[..i];
      if !item.Obj? {
        continue;
      }
      if NonPlaceholder(Get(item.fields, subField)) {
        count := count + 1;
        if count >= threshold {
          CountFilledPrefix(v.items, subField, i + 1);
          return true;
        }
      }
    }
    assert v.items[..|v.items|] == v.items;
    return false;
  }

  /** The verdict of one rule; unknown checks fail. */
  predicate Passes(rule: Rule, payload: Dict) {
    var v := Walk(Obj(payload), rule.Path());
    match rule.check
    case CheckNonPlaceholder => NonPlaceholder(v)
    case CheckMinItems => MinItems(v, rule.Threshold())
    case CheckMinLength => MinLength(v, rule.Threshold())
    case CheckNestedField => NestedFilled(v, OrElse(rule.subField, ""), rule.Threshold())
    case CheckUnknown(_) => false
  }

  method EvaluateRule(rule: Rule, payload: Dict) returns (ok: bool)
    ensures ok <==> Passes(rule, payload)
  {
    var v := ResolveField(payload, OrElse(rule.field, ""));
    match rule.check
    case CheckNonPlaceholder => ok := NonPlaceholder(v);
    case CheckMinItems => ok := MinItems(v, rule.Threshold());
    case CheckMinLength => ok := MinLength(v, rule.Threshold());
    case CheckNestedField => ok := CheckNestedFieldNonPlaceholder(v, OrElse(rule.subField, ""), rule.Threshold());
    case CheckUnknown(_) => ok := false;
  }

  // ---- the review ----

  datatype Strength = Weak | Moderate | Strong

  datatype Review = Review(
    approved: bool,
    issues: seq<Note>,
    acceptedPoints: seq<Note>,
    rejectedPoints: seq<Note>,
    missingPoints: seq<Note>,
    evidence: Strength,
    corePassed: nat,
    coreTotal: nat,
    supportingPassed: nat,
    supportingTotal: nat,
    failedRuleMessages: seq<Note>)

  /** How many rules of the class (core or supporting) there are among `rules`. */
  function ClassTotal(rules: seq<Rule>, cls: RuleClass): nat {
    if rules == [] then 0
    else ClassTotal(rules[..|rules| - 1], cls) + if rules[|rules| - 1].ruleClass == cls then 1 else 0
  }

  function ClassPassed(rules: seq<Rule>, payload: Dict, cls: RuleClass): nat {
    if rules == [] then 0
    else
      var last := rules[|rules| - 1];
      ClassPassed(rules[..|rules| - 1], payload, cls)
      + if last.ruleClass == cls && Passes(last, payload) then 1 else 0
  }

  /** The rules with the given verdict, in order. */
  function Points(rules: seq<Rule>, payload: Dict, verdict: bool): seq<Note> {
    if rules == [] then []
    else
      var last := rules[|rules| - 1];
      Points(rules[..|rules| - 1], payload, verdict)
      + if Passes(last, payload) == verdict then [PointOf(last.Name())] else []
  }

  /** Messages of the failed rules, all of them or only those of core rules. */
  function Failures(rules: seq<Rule>, payload: Dict, coreOnly: bool): seq<Note> {
    if rules == [] then []
    else
      var last := rules[|rules| - 1];
      Failures(rules[..|rules| - 1], payload, coreOnly)
      + if !Passes(last, payload) && (!coreOnly || last.ruleClass == Core) then [FailedRule(last)] else []
  }

  /** The point missing when no source is recorded. */
  const SUPPORTING_SOURCES := PointOf("supporting_sources")

  function PointText(note: Note): string {
    match note case PointOf(name) => name case _ => ""
  }

  function Sources(payload: Dict): Json {
    if "sources" in payload then payload["sources"] else Arr([])
  }

  /** Looping over the recorded sources raises no exception: they are iterable, and each
      dictionary in a list has a hashable `source_type`. */
  predicate Readable(sources: Json) {
    match sources
    case Arr(items) =>
      forall i | 0 <= i < |items| :: items[i].Obj? ==>
        var t := Get(items[i].fields, "source_type"); !t.Arr? && !t.Obj?
    case Str(_) => true
    case Obj(_) => true
    case _ => false
  }

  predicate External(source: Json) {
    source.Obj? && Get(source.fields, "source_type") !in {Str("owned"), Str("first_party")}
  }

  function CountExternal(items: seq<Json>): nat {
    if items == [] then 0
    else CountExternal(items[..|items| - 1]) + if External(items[|items| - 1]) then 1 else 0
  }

  function EvidenceOf(sources: Json): Strength {
    if sources.Arr? && CountExternal(sources.items) >= 2 then Strong
    else if Truthy(sources) then Moderate
    else Weak
  }

  function ViolationIssues(violations: seq<Violation>): seq<Note> {
    seq(|violations|, i requires 0 <= i < |violations| => ContractIssue(violations[i]))
  }

  function IssuesOf(rules: seq<Rule>, payload: Dict, violations: seq<Violation>): seq<Note> {
    Failures(rules, payload, false)
    + (if Truthy(Sources(payload)) then [] else [NoSourceRecorded])
    + ViolationIssues(violations)
  }

  /** The review as a function of the rules and the payload. The report enters only through
      its contract violations, which add issues. */
  function ReviewOf(rules: seq<Rule>, payload: Dict, violations: seq<Violation>): Result<Review> {
    if !Readable(Sources(payload)) then Failure
    else
      var issues := IssuesOf(rules, payload, violations);
      var rejected := Points(rules, payload, false);
      var evidence := EvidenceOf(Sources(payload));
      Success(Review(
        if rules == [] then issues == [] else rejected == [] && evidence != Weak,
        issues,
        Points(rules, payload, true),
        rejected,
        DistinctTexts(PointText, rejected + if Truthy(Sources(payload)) then [] else [SUPPORTING_SOURCES]),
        evidence,
        ClassPassed(rules, payload, Core), ClassTotal(rules, Core),
        ClassPassed(rules, payload, Supporting), ClassTotal(rules, Supporting),
        Failures(rules, payload, true)))
  }

  method EvidenceStrength(sources: Json) returns (evidence: Strength)
    requires Readable(sources)
    ensures evidence == EvidenceOf(sources)
  {
    var external := 0;
    if sources.Arr? {
      for i := 0 to |sources.items|
        invariant external == CountExternal(sources.items[..i])
      {
        assert sources.items[..i + 1][..i] == sources.items[..i];
        if External(sources.items[i]) {
          external := external + 1;
        }
      }
      assert sources.items[..|sources.items|] == sources.items;
    }
    evidence := if external >= 2 then Strong else if Truthy(sources) then Moderate else Weak;
  }

  /** `CriticAgent.review`: one pass over the rules with running counters. */
  method RunReview(rules: seq<Rule>, payload: Dict, violations: seq<Violation>)
    returns (result: Result<Review>)
    ensures result == ReviewOf(rules, payload, violations)
  {
    var accepted: seq<Note>, rejected: seq<Note>, issues: seq<Note>, failed: seq<Note> := [], [], [], [];
    var corePassed, coreTotal, supportingPassed, supportingTotal := 0, 0, 0, 0;
    for i := 0 to |rules|
      invariant corePassed == ClassPassed(rules[..i], payload, Core)
      invariant coreTotal == ClassTotal(rules[..i], Core)
      invariant supportingPassed == ClassPassed(rules[..i], payload, Supporting)
      invariant supportingTotal == ClassTotal(rules[..i], Supporting)
      invariant accepted == Points(rules[..i], payload, true)
      invariant rejected == Points(rules[..i], payload, false)
      invariant issues == Failures(rules[..i], payload, false)
      invariant failed == Failures(rules[..i], payload, true)
    {
      var rule := rules[i];
      assert rules[..i + 1][..i] == rules[..i];
      var passed := EvaluateRule(rule, payload);
      if rule.ruleClass == Core {
        coreTotal := coreTotal + 1;
        if passed {
          corePassed := corePassed + 1;
        }
      } else {
        supportingTotal := supportingTotal + 1;
        if passed {
          supportingPassed := supportingPassed + 1;
        }
      }
      if passed {
        accepted := accepted + [PointOf(rule.Name())];
      } else {
        rejected := rejected + [PointOf(rule.Name())];
        issues := issues + [FailedRule(rule)];
        if rule.ruleClass == Core {
          failed := failed + [FailedRule(rule)];
        }
      }
    }
    assert rules[..|rules|] == rules;

    var sources := Sources(payload);
    var missing := rejected;
    if !Truthy(sources) {
      issues := issues + [NoSourceRecorded];
      missing := missing + [SUPPORTING_SOURCES];
    }
    assert missing == rejected + if Truthy(sources) then [] else [SUPPORTING_SOURCES];
    if !Readable(sources) {
      return Failure;
    }
    var evidence := EvidenceStrength(sources);
    issues := issues + ViolationIssues(violations);
    assert issues == IssuesOf(rules, payload, violations);
    var approved := if rules == [] then issues == [] else rejected == [] && evidence != Weak;
    missing := DedupSafe(PointText, missing);
    result := Success(Review(approved, issues, accepted, rejected, missing, evidence,
                             corePassed, coreTotal, supportingPassed, supportingTotal, failed));
  }

  // ---- what the counts mean ----

  /** Every core rule passes. */
  ghost predicate AllCorePass(rules: seq<Rule>, payload: Dict) {
    forall i | 0 <= i < |rules| && rules[i].ruleClass == Core :: Passes(rules[i], payload)
  }

  /** The class counts say what they should: never more passed than there are, all passed
      exactly when every rule of the class passes. */
  lemma {:induction false} CountsMeaning(rules: seq<Rule>, payload: Dict, cls: RuleClass)
    ensures ClassPassed(rules, payload, cls) <= ClassTotal(rules, cls)
    ensures ClassPassed(rules, payload, cls) == ClassTotal(rules, cls) <==>
            forall i | 0 <= i < |rules| && rules[i].ruleClass == cls :: Passes(rules[i], payload)
    ensures ClassTotal(rules, cls) > 0 <==> exists i :: 0 <= i < |rules| && rules[i].ruleClass == cls
  {
    if rules != [] {
      var n := |rules| - 1;
      CountsMeaning(rules[..n], payload, cls);
      assert forall i | 0 <= i < n :: rules[..n][i] == rules[i];
      assert forall i | 0 <= i < |rules| :: i == n || rules[i] == rules[..n][i];
    }
  }

  lemma {:induction false} NothingRejected(rules: seq<Rule>, payload: Dict)
    ensures Points(rules, payload, false) == [] <==> forall i | 0 <= i < |rules| :: Passes(rules[i], payload)
  {
    if rules != [] {
      var n := |rules| - 1;
      NothingRejected(rules[..n], payload);
      assert forall i | 0 <= i < |rules| :: i == n || rules[i] == rules[..n][i];
      assert forall i | 0 <= i < n :: rules[..n][i] == rules[i];
    }
  }

  /** Approval means every rule passed and some source is recorded; in particular every core
      rule passed. With no rules at all it means there is nothing to object to. */
  lemma ApprovalMeaning(rules: seq<Rule>, payload: Dict, violations: seq<Violation>)
    requires ReviewOf(rules, payload, violations).Success?
    ensures var r := ReviewOf(rules, payload, violations).value;
            && (rules != [] ==>
                  (r.approved <==> (forall i | 0 <= i < |rules| :: Passes(rules[i], payload)) && Truthy(Sources(payload))))
            && (rules == [] ==> (r.approved <==> Truthy(Sources(payload)) && violations == []))
            && (r.approved ==> r.corePassed == r.coreTotal)
  {
    var sources := Sources(payload);
    NothingRejected(rules, payload);
    CountsMeaning(rules, payload, Core);
    assert |ViolationIssues(violations)| == |violations|;
    if sources.Arr? && sources.items == [] {
      assert CountExternal(sources.items) == 0;
    }
  }

  /** There is nothing to object to exactly when every rule passes, a source is recorded and no
      violation is reported. */
  lemma NoIssues(rules: seq<Rule>, p: Dict, violations: seq<Violation>)
    ensures IssuesOf(rules, p, violations) == [] <==>
              Failures(rules, p, false) == [] && Truthy(Sources(p)) && violations == []
  {
    assert |ViolationIssues(violations)| == |violations|;
    assert |IssuesOf(rules, p, violations)| ==
           |Failures(rules, p, false)| + (if Truthy(Sources(p)) then 0 else 1) + |violations|;
  }

  // ---- what rules and counts say ----

  /** Each check, on the value `v` found at the rule's path: something that says anything; a list
      long enough; a text long enough without the spaces around it; a list with enough items, and
      at least one, that are dictionaries with something at the sub-field. */
  lemma RuleMeaning(rule: Rule, payload: Dict)
    ensures var v := Walk(Obj(payload), SplitDots(if rule.field.Some? then rule.field.value else ""));
            var threshold := if rule.value.Some? then rule.value.value else 1;
            var subField := if rule.subField.Some? then rule.subField.value else "";
            && (rule.check.CheckNonPlaceholder? ==> (Passes(rule, payload) <==> SaysSomething(v)))
            && (rule.check.CheckMinItems? ==> (Passes(rule, payload) <==> v.Arr? && threshold <= |v.items|))
            && (rule.check.CheckMinLength? ==> (Passes(rule, payload) <==> v.Str? && threshold <= |Trim(v.s)|))
            && (rule.check.CheckNestedField? ==>
                  (Passes(rule, payload) <==>
                     v.Arr? && var n := |set i | 0 <= i < |v.items| && v.items[i].Obj? && SaysSomething(Get(v.items[i].fields, subField))|;
                               1 <= n && threshold <= n))
            && (rule.check.CheckUnknown? ==> !Passes(rule, payload))
  {
    var v := Walk(Obj(payload), SplitDots(if rule.field.Some? then rule.field.value else ""));
    if v.Arr? {
      FilledCardinality(v.items, if rule.subField.Some? then rule.subField.value else "");
    }
  }

  /** Neither null, nor blank, nor "n/v", nor an empty list or dictionary. */
  predicate SaysSomething(v: Json) {
    && v != Null && v != Arr([]) && v != Obj(map[])
    && (v.Str? ==> !Placeholder(v.s))
  }

  lemma FilledOneMore(items: seq<Json>, item: Json, subField: string)
    ensures var more := items + [item];
            |set i | 0 <= i < |more| && more[i].Obj? && SaysSomething(Get(more[i].fields, subField))| ==
            |set i | 0 <= i < |items| && items[i].Obj? && SaysSomething(Get(items[i].fields, subField))|
            + if item.Obj? && SaysSomething(Get(item.fields, subField)) then 1 else 0
  {
    var n, more := |items|, items + [item];
    var before := set i | 0 <= i < |items| && items[i].Obj? && SaysSomething(Get(items[i].fields, subField));
    var all := set i | 0 <= i < |more| && more[i].Obj? && SaysSomething(Get(more[i].fields, subField));
    forall i ensures i in all <==> i in before || (item.Obj? && SaysSomething(Get(item.fields, subField)) && i == n) {
      if 0 <= i < n {
        assert more[i] == items[i];
      }
    }
    CountOneMore(before, all, n, item.Obj? && SaysSomething(Get(item.fields, subField)));
  }

  lemma {:induction false} FilledCardinality(items: seq<Json>, subField: string)
    ensures CountFilled(items, subField) ==
            |set i | 0 <= i < |items| && items[i].Obj? && SaysSomething(Get(items[i].fields, subField))|
  {
    if items != [] {
      var n := |items| - 1;
      FilledCardinality(items[..n], subField);
      assert items == items[..n] + [items[n]];
      FilledOneMore(items[..n], items[n], subField);
    }
  }

  /** The class counts are numbers of rules. */
  lemma {:induction false} TotalCardinality(rules: seq<Rule>, cls: RuleClass)
    ensures ClassTotal(rules, cls) == |set i | 0 <= i < |rules| && rules[i].ruleClass == cls|
  {
    if rules != [] {
      var n := |rules| - 1;
      TotalCardinality(rules[..n], cls);
      var before := set i | 0 <= i < n && rules[..n][i].ruleClass == cls;
      var all := set i | 0 <= i < |rules| && rules[i].ruleClass == cls;
      assert all == before + if rules[n].ruleClass == cls then {n} else {};
    }
  }

  lemma PassedOneMore(rules: seq<Rule>, rule: Rule, payload: Dict, cls: RuleClass)
    ensures var more := rules + [rule];
            |set i | 0 <= i < |more| && more[i].ruleClass == cls && Passes(more[i], payload)| ==
            |set i | 0 <= i < |rules| && rules[i].ruleClass == cls && Passes(rules[i], payload)|
            + if rule.ruleClass == cls && Passes(rule, payload) then 1 else 0
  {
    var n, more := |rules|, rules + [rule];
    var before := set i | 0 <= i < |rules| && rules[i].ruleClass == cls && Passes(rules[i], payload);
    var all := set i | 0 <= i < |more| && more[i].ruleClass == cls && Passes(more[i], payload);
    forall i ensures i in all <==> i in before || (rule.ruleClass == cls && Passes(rule, payload) && i == n) {
      if 0 <= i < n {
        assert more[i] == rules[i];
      }
    }
    CountOneMore(before, all, n, rule.ruleClass == cls && Passes(rule, payload));
  }

  lemma {:induction false} PassedCardinality(rules: seq<Rule>, payload: Dict, cls: RuleClass)
    ensures ClassPassed(rules, payload, cls) == |set i | 0 <= i < |rules| && rules[i].ruleClass == cls && Passes(rules[i], payload)|
  {
    if rules != [] {
      var n := |rules| - 1;
      PassedCardinality(rules[..n], payload, cls);
      assert rules == rules[..n] + [rules[n]];
      PassedOneMore(rules[..n], rules[n], payload, cls);
    }
  }

  /** Accepted points name the rules that pass, rejected ones those that fail; failure messages
      come from failed rules, and those for the Judge from failed core rules. */
  lemma {:induction false} PointsMeaning(rules: seq<Rule>, payload: Dict, verdict: bool, coreOnly: bool, note: Note)
    ensures note in Points(rules, payload, verdict) <==>
            exists i :: 0 <= i < |rules| && Passes(rules[i], payload) == verdict && note == PointOf(rules[i].Name())
    ensures note in Failures(rules, payload, coreOnly) <==>
            exists i :: 0 <= i < |rules| && !Passes(rules[i], payload) && (coreOnly ==> rules[i].ruleClass == Core)
                        && note == FailedRule(rules[i])
  {
    if rules != [] {
      var n := |rules| - 1;
      PointsMeaning(rules[..n], payload, verdict, coreOnly, note);
      assert forall i | 0 <= i < n :: rules[..n][i] == rules[i];
      assert forall i | 0 <= i < |rules| :: i == n || rules[i] == rules[..n][i];
    }
  }

  /** What stands in a review: the counts, the points, and a missing point for each rejected one,
      without repetition, and for the source when none is recorded. */
  lemma ReviewMeaning(rules: seq<Rule>, payload: Dict, violations: seq<Violation>)
    requires ReviewOf(rules, payload, violations).Success?
    ensures var r := ReviewOf(rules, payload, violations).value;
            && r.coreTotal == |set i | 0 <= i < |rules| && rules[i].ruleClass == Core|
            && r.corePassed == |set i | 0 <= i < |rules| && rules[i].ruleClass == Core && Passes(rules[i], payload)|
            && r.supportingTotal == |set i | 0 <= i < |rules| && rules[i].ruleClass == Supporting|
            && r.supportingPassed == |set i | 0 <= i < |rules| && rules[i].ruleClass == Supporting && Passes(rules[i], payload)|
            && r.acceptedPoints == Points(rules, payload, true) && r.rejectedPoints == Points(rules, payload, false)
            && r.failedRuleMessages == Failures(rules, payload, true)
            && (forall name :: name in Texts(PointText, r.missingPoints) <==>
                  name in Texts(PointText, r.rejectedPoints) || (name == "supporting_sources" && !Truthy(Sources(payload))))
  {
    TotalCardinality(rules, Core);
    TotalCardinality(rules, Supporting);
    PassedCardinality(rules, payload, Core);
    PassedCardinality(rules, payload, Supporting);
    var rejected := Points(rules, payload, false);
    var missing := rejected + if Truthy(Sources(payload)) then [] else [SUPPORTING_SOURCES];
    DistinctTextsMeaning(PointText, missing);
    TextsOneMore(PointText, rejected, SUPPORTING_SOURCES);
    assert rejected + [] == rejected;
  }

  /** Strong evidence is two sources from outside the company, moderate evidence any source. */
  lemma EvidenceMeaning(sources: Json)
    ensures EvidenceOf(sources) == Strong <==>
            sources.Arr? && exists i, j :: 0 <= i < j < |sources.items| && External(sources.items[i]) && External(sources.items[j])
    ensures EvidenceOf(sources) == Weak <==> !Truthy(sources)
  {
    if sources.Arr? {
      TwoExternal(sources.items);
      if exists i, j :: 0 <= i < j < |sources.items| && External(sources.items[i]) && External(sources.items[j]) {
        assert sources.items != [];
      }
    }
  }

  lemma {:induction false} TwoExternal(items: seq<Json>)
    ensures CountExternal(items) >= 1 <==> exists i :: 0 <= i < |items| && External(items[i])
    ensures CountExternal(items) >= 2 <==> exists i, j :: 0 <= i < j < |items| && External(items[i]) && External(items[j])
    ensures CountExternal(items) <= |items|
  {
    if items != [] {
      var n := |items| - 1;
      TwoExternal(items[..n]);
      assert forall i | 0 <= i < n :: items[..n][i] == items[i];
      assert forall i | 0 <= i < |items| :: i == n || items[i] == items[..n][i];
    }
  }

  /** A source is external when it is a dictionary whose type is neither owned nor first-party. The
      sources can be looped over when they are a text, a dictionary, or a list in which no
      dictionary has a list or a dictionary for its type. */
  lemma SourcesMeaning(source: Json, sources: Json)
    ensures External(source) <==>
            source.Obj? && ("source_type" in source.fields ==>
                              source.fields["source_type"] != Str("owned") && source.fields["source_type"] != Str("first_party"))
    ensures Readable(sources) <==>
            || sources.Str? || sources.Obj?
            || (sources.Arr? && forall i | 0 <= i < |sources.items| && sources.items[i].Obj? && "source_type" in sources.items[i].fields ::
                  !sources.items[i].fields["source_type"].Arr? && !sources.items[i].fields["source_type"].Obj?)
  {
  }
}
