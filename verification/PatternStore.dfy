/** The long-term store of strategy patterns: guarded upsert with score decay, and top-k retrieval. */
module PatternStore {
  import opened Text
  import opened JsonModel
  import opened Dedup
  import opened Ranking
  import opened Rounding

  /** A pattern: the entries the store reads (an absent role, scope, hint or domain reads as
      empty), and the whole dictionary, which the policy guard inspects. */
  datatype Pattern = Pattern(
    name: Option<string>, role: string, scope: string, industry: string, domain: string, score: real, body: Json)

  /** The regular expressions and the list of sensitive keys. */
  datatype Screen = Screen(unsafeText: string -> bool, sensitiveKey: string -> bool)

  // ---- the policy guard ----

  /** Only a blank string renders as blank. */
  predicate RendersBlank(v: Json) {
    v.Str? && Trim(v.s) == ""
  }

  predicate CaseSpecific(screen: Screen, v: Json)
    decreases v
  {
    match v
    case Obj(fields) =>
      exists key | key in fields ::
        (screen.sensitiveKey(key) && !RendersBlank(fields[key])) || CaseSpecific(screen, fields[key])
    case Arr(items) => exists i | 0 <= i < |items| :: CaseSpecific(screen, items[i])
    case Str(s) => Trim(s) != "" && screen.unsafeText(Trim(s))
    case _ => false
  }

  /** What the guard objects to in a single value. */
  predicate Offends(screen: Screen, part: Json) {
    match part
    case Str(s) => Trim(s) != "" && screen.unsafeText(Trim(s))
    case Obj(fields) => exists key | key in fields :: screen.sensitiveKey(key) && !RendersBlank(fields[key])
    case _ => false
  }

  /** The guard misses nothing: it objects exactly when some nested string is unsafe or some
      nested dictionary has a sensitive key with a value. */
  lemma {:induction false} GuardMeaning(screen: Screen, v: Json)
    ensures CaseSpecific(screen, v) <==> exists part :: Within(v, part) && Offends(screen, part)
    decreases v
  {
    match v
    case Obj(fields) =>
      forall key | key in fields
        ensures CaseSpecific(screen, fields[key]) <==> exists part :: Within(fields[key], part) && Offends(screen, part)
      {
        GuardMeaning(screen, fields[key]);
      }
      if key :| key in fields && screen.sensitiveKey(key) && !RendersBlank(fields[key]) {
        assert Within(v, v) && Offends(screen, v);
      }
    case Arr(items) =>
      forall i | 0 <= i < |items|
        ensures CaseSpecific(screen, items[i]) <==> exists part :: Within(items[i], part) && Offends(screen, part)
      {
        GuardMeaning(screen, items[i]);
      }
    case _ =>
      assert Within(v, v);
  }

  /** The pattern may enter the store. */
  predicate Safe(screen: Screen, p: Pattern) {
    p.domain == "" && !CaseSpecific(screen, p.body)
  }

  /** A pattern may enter the store when it has no domain and nowhere in it is an unsafe text, or a
      value other than a blank text under a sensitive key. */
  lemma SafeMeaning(screen: Screen, p: Pattern)
    ensures Safe(screen, p) <==>
            && p.domain == ""
            && (forall part | Within(p.body, part) && part.Str? && Trim(part.s) != "" :: !screen.unsafeText(Trim(part.s)))
            && (forall part, key | Within(p.body, part) && part.Obj? && key in part.fields && screen.sensitiveKey(key) ::
                  part.fields[key].Str? && Trim(part.fields[key].s) == "")
  {
    GuardMeaning(screen, p.body);
    if part :| Within(p.body, part) && part.Str? && Trim(part.s) != "" && screen.unsafeText(Trim(part.s)) {
      assert Offends(screen, part);
    }
    if part, key :| Within(p.body, part) && part.Obj? && key in part.fields && screen.sensitiveKey(key)
                    && !(part.fields[key].Str? && Trim(part.fields[key].s) == "") {
      assert Offends(screen, part);
    }
  }

  // ---- upsert ----

  function IndexOf(items: seq<Pattern>, name: Option<string>): Option<nat> {
    if items == [] then None
    else if items[0].name == name then Some(0)
    else match IndexOf(items[1..], name) case None => None case Some(i) => Some(i + 1)
  }

  lemma {:induction false} IndexOfMeaning(items: seq<Pattern>, name: Option<string>)
    ensures match IndexOf(items, name)
            case None => forall i | 0 <= i < |items| :: items[i].name != name
            case Some(i) => i < |items| && items[i].name == name
  {
    if items != [] {
      IndexOfMeaning(items[1..], name);
      if IndexOf(items, name).None? {
        forall i | 0 <= i < |items| ensures items[i].name != name {
          assert i > 0 ==> items[i] == items[1..][i - 1];
        }
      }
    }
  }

  function Upsert(screen: Screen, items: seq<Pattern>, p: Pattern): (seq<Pattern>, bool) {
    if !Safe(screen, p) then (items, false)
    else
      match IndexOf(items, p.name)
      case None => (items + [p], true)
      case Some(i) =>
        IndexOfMeaning(items, p.name);
        if p.score >= items[i].score * 0.9 then (items[i := p], true) else (items, false)
  }

  function UpsertAll(screen: Screen, items: seq<Pattern>, offers: seq<Pattern>): seq<Pattern> {
    if offers == [] then items
    else Upsert(screen, UpsertAll(screen, items, offers[..|offers| - 1]), offers[|offers| - 1]).0
  }

  lemma UpsertOneMore(screen: Screen, items: seq<Pattern>, offers: seq<Pattern>, p: Pattern)
    ensures UpsertAll(screen, items, offers + [p]) == Upsert(screen, UpsertAll(screen, items, offers), p).0
  {
    assert (offers + [p])[..|offers|] == offers;
  }

  ghost predicate UniqueNames(items: seq<Pattern>) {
    forall i, j | 0 <= i < j < |items| :: items[i].name != items[j].name
  }

  ghost predicate AllSafe(screen: Screen, items: seq<Pattern>) {
    forall i | 0 <= i < |items| :: Safe(screen, items[i])
  }

  function StoredScore(items: seq<Pattern>, name: Option<string>): Option<real> {
    IndexOfMeaning(items, name);
    match IndexOf(items, name) case None => None case Some(i) => Some(items[i].score)
  }

  /** One upsert: it takes effect exactly when the pattern is safe and its name is new or its
      score reaches nine tenths of the stored one. A refused offer changes nothing, an effective
      one changes nothing but its own name, and the policy and uniqueness are kept. */
  lemma UpsertMeaning(screen: Screen, items: seq<Pattern>, p: Pattern)
    requires UniqueNames(items) && AllSafe(screen, items)
    ensures var (items', changed) := Upsert(screen, items, p);
            var stored := StoredScore(items, p.name);
            && (changed <==> Safe(screen, p) && (stored.Some? ==> p.score >= stored.value * 0.9))
            && (stored.Some? && 0.0 <= stored.value <= p.score && Safe(screen, p) ==> changed)
            && (!changed ==> items' == items)
            && (changed ==> p in items' && (forall q: Pattern | q.name != p.name :: q in items' <==> q in items))
            && (changed ==> |items'| == |items| + if stored.None? then 1 else 0)
            && UniqueNames(items') && AllSafe(screen, items')
  {
    IndexOfMeaning(items, p.name);
    var (items', changed) := Upsert(screen, items, p);
    if changed {
      match IndexOf(items, p.name)
      case None =>
        assert items'[|items|] == p;
      case Some(i) =>
        assert items'[i] == p;
        forall q: Pattern | q.name != p.name ensures q in items' <==> q in items {
          if q in items {
            var k :| 0 <= k < |items| && items[k] == q;
            assert items'[k] == q;
          }
        }
    }
  }

  lemma {:induction false} UpsertAllKeeps(screen: Screen, items: seq<Pattern>, offers: seq<Pattern>)
    requires UniqueNames(items) && AllSafe(screen, items)
    ensures UniqueNames(UpsertAll(screen, items, offers)) && AllSafe(screen, UpsertAll(screen, items, offers))
  {
    if offers != [] {
      UpsertAllKeeps(screen, items, offers[..|offers| - 1]);
      UpsertMeaning(screen, UpsertAll(screen, items, offers[..|offers| - 1]), offers[|offers| - 1]);
    }
  }

  // ---- decay ----

  /** `score` times nine tenths to the power k. */
  function Decayed(score: real, k: nat): real {
    if k == 0 then score else Decayed(score, k - 1) * 0.9
  }

  function CountOffers(offers: seq<Pattern>, name: Option<string>): nat {
    if offers == [] then 0
    else CountOffers(offers[..|offers| - 1], name) + if offers[|offers| - 1].name == name then 1 else 0
  }

  lemma UpsertScore(screen: Screen, items: seq<Pattern>, p: Pattern, name: Option<string>)
    requires UniqueNames(items) && StoredScore(items, name).Some? && StoredScore(items, name).value >= 0.0
    ensures var before, after := StoredScore(items, name).value, StoredScore(Upsert(screen, items, p).0, name);
            && after.Some?
            && after.value >= (if p.name == name then before * 0.9 else before)
  {
    IndexOfMeaning(items, name);
    IndexOfMeaning(items, p.name);
    var items' := Upsert(screen, items, p).0;
    IndexOfMeaning(items', name);
    var i := IndexOf(items, name).value;
    assert items'[i].name == name;
    assert UniqueNames(items') by {
      assert |items'| == |items| + 1 ==> items' == items + [p];
    }
  }

  /** The decay bound: with k offers of a name among any sequence of upserts, the stored score
      of that name is at least 0.9 to the power k times what it was. */
  lemma {:induction false} DecayBound(screen: Screen, items: seq<Pattern>, offers: seq<Pattern>, name: Option<string>)
    requires UniqueNames(items) && AllSafe(screen, items)
    requires StoredScore(items, name).Some? && StoredScore(items, name).value >= 0.0
    ensures var after := StoredScore(UpsertAll(screen, items, offers), name);
            after.Some? && after.value >= Decayed(StoredScore(items, name).value, CountOffers(offers, name)) >= 0.0
  {
    if offers != [] {
      var init, last := offers[..|offers| - 1], offers[|offers| - 1];
      DecayBound(screen, items, init, name);
      UpsertAllKeeps(screen, items, init);
      UpsertScore(screen, UpsertAll(screen, items, init), last, name);
    }
  }

  // ---- last writer wins ----

  function Names(offers: seq<Pattern>): seq<Option<string>> {
    seq(|offers|, i requires 0 <= i < |offers| => offers[i].name)
  }

  /** The most recent offer of a name. */
  function Latest(offers: seq<Pattern>, name: Option<string>): Option<Pattern> {
    if offers == [] then None
    else if offers[|offers| - 1].name == name then Some(offers[|offers| - 1])
    else Latest(offers[..|offers| - 1], name)
  }

  /** Every offer is safe, and its score is non-negative and fixed by its name. */
  ghost predicate ScoredByName(screen: Screen, scoreOf: Option<string> -> real, offers: seq<Pattern>) {
    forall i | 0 <= i < |offers| ::
      Safe(screen, offers[i]) && offers[i].score == scoreOf(offers[i].name) && offers[i].score >= 0.0
  }

  /** Each name once, in the order of first insertion, with the most recent offer of that name. */
  ghost predicate HoldsLatest(items: seq<Pattern>, offers: seq<Pattern>) {
    && Names(items) == Distinct(Names(offers))
    && forall i | 0 <= i < |items| :: Latest(offers, items[i].name) == Some(items[i])
  }

  lemma NamesOfOneMore(offers: seq<Pattern>, p: Pattern)
    ensures Names(offers + [p]) == Names(offers) + [p.name]
    ensures Distinct(Names(offers + [p])) ==
            var before := Distinct(Names(offers)); if p.name in before then before else before + [p.name]
  {
    assert Names(offers + [p]) == Names(offers) + [p.name];
    DistinctOneMore(Names(offers), p.name);
  }

  lemma LatestOfOneMore(offers: seq<Pattern>, p: Pattern, name: Option<string>)
    ensures Latest(offers + [p], name) == if p.name == name then Some(p) else Latest(offers, name)
  {
    assert (offers + [p])[..|offers|] == offers;
  }

  lemma ReplacedHoldsLatest(items: seq<Pattern>, offers: seq<Pattern>, p: Pattern, i: nat)
    requires HoldsLatest(items, offers) && i < |items| && items[i].name == p.name
    ensures HoldsLatest(items[i := p], offers + [p])
  {
    NamesOfOneMore(offers, p);
    DistinctSound(Names(offers));
    assert Names(items)[i] == p.name;
    assert Names(items[i := p]) == Names(items);
    var items' := items[i := p];
    forall k | 0 <= k < |items'| ensures Latest(offers + [p], items'[k].name) == Some(items'[k]) {
      LatestOfOneMore(offers, p, items'[k].name);
      if k != i {
        assert Names(items)[k] != Names(items)[i];
      }
    }
  }

  lemma AppendedHoldsLatest(items: seq<Pattern>, offers: seq<Pattern>, p: Pattern)
    requires HoldsLatest(items, offers) && forall k | 0 <= k < |items| :: items[k].name != p.name
    ensures HoldsLatest(items + [p], offers + [p])
  {
    NamesOfOneMore(offers, p);
    NamesOfOneMore(items, p);
    assert p.name !in Names(items);
    var items' := items + [p];
    forall k | 0 <= k < |items'| ensures Latest(offers + [p], items'[k].name) == Some(items'[k]) {
      LatestOfOneMore(offers, p, items'[k].name);
    }
  }

  lemma {:induction false} LatestIsScored(screen: Screen, scoreOf: Option<string> -> real, offers: seq<Pattern>, name: Option<string>)
    requires ScoredByName(screen, scoreOf, offers) && Latest(offers, name).Some?
    ensures Latest(offers, name).value.score == scoreOf(name) && Latest(offers, name).value.score >= 0.0
  {
    var n := |offers| - 1;
    if offers[n].name != name {
      assert forall i | 0 <= i < n :: offers[..n][i] == offers[i];
      LatestIsScored(screen, scoreOf, offers[..n], name);
    }
  }

  /** For offers scored by name the store is a last-writer-wins map. */
  lemma {:induction false} LastWriterWins(screen: Screen, scoreOf: Option<string> -> real, offers: seq<Pattern>)
    requires ScoredByName(screen, scoreOf, offers)
    ensures HoldsLatest(UpsertAll(screen, [], offers), offers)
  {
    if offers != [] {
      var n := |offers| - 1;
      var init, p := offers[..n], offers[n];
      assert offers == init + [p];
      assert forall i | 0 <= i < n :: init[i] == offers[i];
      LastWriterWins(screen, scoreOf, init);
      var before := UpsertAll(screen, [], init);
      IndexOfMeaning(before, p.name);
      match IndexOf(before, p.name)
      case None =>
        AppendedHoldsLatest(before, init, p);
      case Some(i) =>
        assert Latest(init, before[i].name) == Some(before[i]);
        LatestIsScored(screen, scoreOf, init, p.name);
        ReplacedHoldsLatest(before, init, p, i);
    }
  }

  // ---- retrieval ----

  datatype Query = Query(industry: string, role: string, scope: string)

  function RetrievalScore(q: Query, p: Pattern): real {
    (if q.industry != "" && p.industry == q.industry then 0.5 else 0.0)
    + (if q.role != "" && p.role == q.role then 0.75 else 0.0)
    + (if q.scope != "" && p.scope == q.scope then 0.25 else 0.0)
    + p.score
  }

  /** What the score is made of: the stored score, and half a point for the same industry, three
      quarters for the same role and a quarter for the same scope, where the query asks for them. */
  lemma ScoreMeaning(q: Query, p: Pattern)
    ensures RetrievalScore(q, p) - p.score ==
            (if q.industry == "" || p.industry != q.industry then 0.0 else 0.5)
            + (if q.role == "" || p.role != q.role then 0.0 else 0.75)
            + (if q.scope == "" || p.scope != q.scope then 0.0 else 0.25)
    ensures Matches(q, p) <==>
            !(q.role != "" && p.role != "" && p.role != q.role) && !(q.scope != "" && p.scope != "" && p.scope != q.scope)
  {
  }

  /** The role and scope filters: an entry that is set on both sides must agree. */
  predicate Matches(q: Query, p: Pattern) {
    && (q.role != "" && p.role != "" ==> p.role == q.role)
    && (q.scope != "" && p.scope != "" ==> p.scope == q.scope)
  }

  predicate Eligible(q: Query, p: Pattern) {
    Matches(q, p) && RetrievalScore(q, p) > 0.0
  }

  const HUNDREDTHS := 100.0

  /** A hit is ranked by its exact score and reports the score rounded to two decimals. */
  function Hit(q: Query, p: Pattern): Scored<Pattern> {
    Scored(RetrievalScore(q, p), match p.name case Some(n) => n case None => "",
           p.(score := RoundTo(RetrievalScore(q, p), HUNDREDTHS)))
  }

  /** A hit is the stored pattern with its rounded score, ranked by the exact one and by name. */
  lemma HitMeaning(q: Query, p: Pattern)
    ensures var h := Hit(q, p);
            && h.score == RetrievalScore(q, p) && h.name == (if p.name.Some? then p.name.value else "")
            && h.item == p.(score := h.item.score)
            && h.item.score - 0.005 <= h.score <= h.item.score + 0.005
  {
    RoundToClose(RetrievalScore(q, p), HUNDREDTHS);
  }

  function Hits(q: Query, items: seq<Pattern>): seq<Scored<Pattern>> {
    if items == [] then []
    else
      var last := items[|items| - 1];
      Hits(q, items[..|items| - 1]) + if Eligible(q, last) then [Hit(q, last)] else []
  }

  function Payloads(xs: seq<Scored<Pattern>>): seq<Pattern> {
    seq(|xs|, i requires 0 <= i < |xs| => xs[i].item)
  }

  /** `x` is the hit of some eligible stored pattern. */
  ghost predicate IsHit(q: Query, items: seq<Pattern>, x: Scored<Pattern>) {
    exists i :: 0 <= i < |items| && Eligible(q, items[i]) && x == Hit(q, items[i])
  }

  lemma {:induction false} HitsMeaning(q: Query, items: seq<Pattern>)
    ensures forall x :: x in Hits(q, items) <==> IsHit(q, items, x)
  {
    if items != [] {
      var n := |items| - 1;
      HitsMeaning(q, items[..n]);
      forall x ensures x in Hits(q, items) <==> IsHit(q, items, x) {
        if IsHit(q, items[..n], x) {
          var i :| 0 <= i < n && Eligible(q, items[..n][i]) && x == Hit(q, items[..n][i]);
          assert items[i] == items[..n][i];
        }
        if IsHit(q, items, x) {
          var i :| 0 <= i < |items| && Eligible(q, items[i]) && x == Hit(q, items[i]);
          assert i < n ==> items[..n][i] == items[i];
        }
      }
    }
  }

  class LongTermStore {
    var items: seq<Pattern>
    const screen: Screen

    constructor (screen: Screen)
      ensures items == [] && this.screen == screen
    {
      items := [];
      this.screen := screen;
    }

    method FindByName(name: Option<string>) returns (index: Option<nat>)
      ensures index == IndexOf(items, name)
    {
      for i := 0 to |items|
        invariant match IndexOf(items[i..], name)
                  case None => IndexOf(items, name) == None
                  case Some(k) => IndexOf(items, name) == Some(i + k)
      {
        if items[i].name == name {
          return Some(i);
        }
        assert items[i..][1..] == items[i + 1..];
      }
      return None;
    }

    /** `upsert_strategy`. */
    method UpsertStrategy(p: Pattern) returns (changed: bool)
      modifies this
      ensures (items, changed) == Upsert(screen, old(items), p)
    {
      if !Safe(screen, p) {
        return false;
      }
      var existing := FindByName(p.name);
      IndexOfMeaning(items, p.name);
      if existing.None? {
        items := items + [p];
        return true;
      }
      var decayed := items[existing.value].score * 0.9;
      if p.score >= decayed {
        items := items[existing.value := p];
        return true;
      }
      return false;
    }

    /** `retrieve`: score and filter in one pass, then sort and cut. */
    method Retrieve(q: Query, limit: nat) returns (hits: seq<Pattern>)
      ensures hits == Payloads(Take(Rank(Hits(q, items)), limit))
    {
      var scored: seq<Scored<Pattern>> := [];
      for i := 0 to |items|
        invariant scored == Hits(q, items[..i])
      {
        assert items[..i + 1][..i] == items[..i];
        var item := items[i];
        if q.role != "" && item.role != "" && item.role != q.role {
          continue;
        }
        if q.scope != "" && item.scope != "" && item.scope != q.scope {
          continue;
        }
        var score := 0.0;
        if q.industry != "" && item.industry == q.industry {
          score := score + 0.5;
        }
        if q.role != "" && item.role == q.role {
          score := score + 0.75;
        }
        if q.scope != "" && item.scope == q.scope {
          score := score + 0.25;
        }
        score := score + item.score;
        if score > 0.0 {
          scored := scored + [Hit(q, item)];
        }
      }
      assert items[..|items|] == items;
      hits := Payloads(Take(Rank(scored), limit));
    }
  }

  /** Retrieval returns the correct top of the eligible patterns: at most `limit`, each an
      eligible stored pattern, by exact score and then name; none that is left out ranks
      strictly ahead of one returned, and the reported scores do not increase either. */
  lemma RetrieveMeaning(q: Query, items: seq<Pattern>, limit: nat)
    ensures var hits := Take(Rank(Hits(q, items)), limit);
            var rest := Rank(Hits(q, items))[|hits|..];
            && |hits| <= limit
            && multiset(hits) + multiset(rest) == multiset(Hits(q, items))
            && (forall k | 0 <= k < |hits| :: IsHit(q, items, hits[k]))
            && (forall k, m | 0 <= k < m < |hits| ::
                  Ahead(hits[k], hits[m]) && hits[k].item.score >= hits[m].item.score)
            && (forall a, b | a in hits && b in rest :: Ahead(a, b))
  {
    var all := Hits(q, items);
    TopIsTop(all, limit);
    HitsMeaning(q, items);
    var hits := Take(Rank(all), limit);
    forall k | 0 <= k < |hits| ensures IsHit(q, items, hits[k]) {
      assert hits[k] == Rank(all)[k];
      RankMembers(all, hits[k]);
    }
    forall k, m | 0 <= k < m < |hits| ensures hits[k].item.score >= hits[m].item.score {
      assert Ahead(hits[k], hits[m]);
      RoundToMonotone(hits[m].score, hits[k].score, HUNDREDTHS);
    }
  }
}
