/** Selecting records: keep the first record of each key, fill it, filter it, score it; then
    rank and cut. The records and the tests are left abstract. */
module Selection {
  import opened Ranking

  datatype Selector<!T, !K(==)> = Selector(
    identified: T -> bool,
    key: T -> K,
    fill: T -> T,
    survives: T -> bool,
    score: T -> Scored<T>)

  /** The keys met so far. A record occupies its key even if it is filtered out later. */
  function SeenKeys<T, K(==)>(s: Selector<T, K>, records: seq<T>): set<K> {
    if records == [] then {}
    else
      var last := records[|records| - 1];
      SeenKeys(s, records[..|records| - 1]) + if s.identified(last) then {s.key(last)} else {}
  }

  /** The surviving candidates, filled and scored, in input order. */
  function Candidacy<T, K(==)>(s: Selector<T, K>, records: seq<T>): seq<Scored<T>> {
    if records == [] then []
    else
      var init, last := records[..|records| - 1], records[|records| - 1];
      Candidacy(s, init)
      + if s.identified(last) && s.key(last) !in SeenKeys(s, init) && s.survives(s.fill(last))
        then [s.score(s.fill(last))] else []
  }

  /** One turn of the selection loop. */
  lemma Turn<T, K>(s: Selector<T, K>, records: seq<T>, i: nat)
    requires i < |records|
    ensures var r, seen, before := records[i], SeenKeys(s, records[..i]), Candidacy(s, records[..i]);
            && SeenKeys(s, records[..i + 1]) == seen + (if s.identified(r) then {s.key(r)} else {})
            && Candidacy(s, records[..i + 1]) ==
               before + if s.identified(r) && s.key(r) !in seen && s.survives(s.fill(r)) then [s.score(s.fill(r))] else []
  {
    assert records[..i + 1][..i] == records[..i];
  }

  lemma {:induction false} SeenKeysMeaning<T, K>(s: Selector<T, K>, records: seq<T>, key: K)
    ensures key in SeenKeys(s, records) <==>
            exists j :: 0 <= j < |records| && s.identified(records[j]) && s.key(records[j]) == key
  {
    if records != [] {
      var n := |records| - 1;
      SeenKeysMeaning(s, records[..n], key);
      assert forall j | 0 <= j < n :: records[..n][j] == records[j];
      assert forall j | 0 <= j < |records| :: j == n || records[j] == records[..n][j];
    }
  }

  /** The k-th record is a candidate: identified, the first of its key, and filled it survives. */
  ghost predicate Chosen<T, K>(s: Selector<T, K>, records: seq<T>, k: nat)
    requires k < |records|
  {
    && s.identified(records[k])
    && (forall j | 0 <= j < k :: s.identified(records[j]) ==> s.key(records[j]) != s.key(records[k]))
    && s.survives(s.fill(records[k]))
  }

  ghost predicate FromChosen<T, K>(s: Selector<T, K>, records: seq<T>, x: Scored<T>) {
    exists k :: 0 <= k < |records| && Chosen(s, records, k) && x == s.score(s.fill(records[k]))
  }

  lemma ChosenOneMore<T, K>(s: Selector<T, K>, records: seq<T>, r: T)
    ensures forall k | 0 <= k < |records| :: Chosen(s, records + [r], k) <==> Chosen(s, records, k)
    ensures Chosen(s, records + [r], |records|) <==> s.identified(r) && s.key(r) !in SeenKeys(s, records) && s.survives(s.fill(r))
  {
    var more := records + [r];
    SeenKeysMeaning(s, records, s.key(r));
    assert more[|records|] == r && forall j | 0 <= j < |records| :: more[j] == records[j];
    if s.key(r) !in SeenKeys(s, records) {
      forall j | 0 <= j < |records| ensures s.identified(more[j]) ==> s.key(more[j]) != s.key(r) {
        assert more[j] == records[j];
      }
    } else {
      var j :| 0 <= j < |records| && s.identified(records[j]) && s.key(records[j]) == s.key(r);
      assert s.identified(more[j]) && s.key(more[j]) == s.key(more[|records|]);
    }
  }

  lemma FromChosenOneMore<T, K>(s: Selector<T, K>, records: seq<T>, r: T, x: Scored<T>)
    ensures FromChosen(s, records + [r], x) <==>
            FromChosen(s, records, x) || (Chosen(s, records + [r], |records|) && x == s.score(s.fill(r)))
  {
    var more := records + [r];
    ChosenOneMore(s, records, r);
    if FromChosen(s, records, x) {
      var k :| 0 <= k < |records| && Chosen(s, records, k) && x == s.score(s.fill(records[k]));
      assert Chosen(s, more, k) && more[k] == records[k];
    }
    if FromChosen(s, more, x) {
      var k :| 0 <= k < |more| && Chosen(s, more, k) && x == s.score(s.fill(more[k]));
      assert k < |records| ==> Chosen(s, records, k) && records[k] == more[k];
    } else {
      assert more[|records|] == r;
    }
  }

  /** The candidates are exactly the scores of the chosen records. */
  lemma {:induction false} CandidacyExactly<T, K>(s: Selector<T, K>, records: seq<T>)
    ensures forall x :: x in Candidacy(s, records) <==> FromChosen(s, records, x)
  {
    if records != [] {
      var init, last := records[..|records| - 1], records[|records| - 1];
      CandidacyExactly(s, init);
      assert records == init + [last];
      ChosenOneMore(s, init, last);
      forall x ensures x in Candidacy(s, records) <==> FromChosen(s, records, x) {
        FromChosenOneMore(s, init, last, x);
      }
    }
  }

  function ItemsOf<T>(xs: seq<Scored<T>>): seq<T> {
    seq(|xs|, i requires 0 <= i < |xs| => xs[i].item)
  }

  function Select<T, K(==)>(s: Selector<T, K>, records: seq<T>, limit: nat): seq<T> {
    ItemsOf(Take(Rank(Candidacy(s, records)), limit))
  }

  /** Filling twice is filling once and keeps identity and key; a score belongs to its record. */
  ghost predicate Lawful<T(!new), K>(s: Selector<T, K>) {
    forall x ::
      && s.fill(s.fill(x)) == s.fill(x)
      && s.identified(s.fill(x)) == s.identified(x)
      && s.key(s.fill(x)) == s.key(x)
      && s.score(x).item == x
  }

  /** What is true of every candidate. */
  ghost predicate Good<T, K>(s: Selector<T, K>, x: Scored<T>) {
    && s.fill(x.item) == x.item
    && s.identified(x.item)
    && s.survives(x.item)
    && x == s.score(x.item)
  }

  ghost predicate AllGood<T, K>(s: Selector<T, K>, xs: seq<Scored<T>>) {
    forall i | 0 <= i < |xs| :: Good(s, xs[i])
  }

  lemma {:induction false} CandidacyGood<T(!new), K>(s: Selector<T, K>, records: seq<T>)
    requires Lawful(s)
    ensures AllGood(s, Candidacy(s, records))
    ensures DistinctBy(s.key, Candidacy(s, records))
    ensures forall i | 0 <= i < |Candidacy(s, records)| :: s.key(Candidacy(s, records)[i].item) in SeenKeys(s, records)
    ensures forall i | 0 <= i < |Candidacy(s, records)| :: exists r :: r in records && Candidacy(s, records)[i].item == s.fill(r)
  {
    if records != [] {
      var n := |records| - 1;
      CandidacyGood(s, records[..n]);
      var before, all := Candidacy(s, records[..n]), Candidacy(s, records);
      assert records == records[..n] + [records[n]];
      forall i | 0 <= i < |all| ensures exists r :: r in records && all[i].item == s.fill(r) {
        if i < |before| {
          var r :| r in records[..n] && before[i].item == s.fill(r);
          assert r in records;
        } else {
          assert records[n] in records;
        }
      }
    }
  }

  /** Selecting among good, distinct candidates keeps all of them, with the same scores. */
  lemma {:induction false} CandidacyAgain<T, K>(s: Selector<T, K>, xs: seq<Scored<T>>)
    requires AllGood(s, xs) && DistinctBy(s.key, xs)
    ensures Candidacy(s, ItemsOf(xs)) == xs
    ensures forall k :: k in SeenKeys(s, ItemsOf(xs)) ==> exists i :: 0 <= i < |xs| && s.key(xs[i].item) == k
  {
    if xs != [] {
      var n := |xs| - 1;
      CandidacyAgain(s, xs[..n]);
      assert ItemsOf(xs)[..n] == ItemsOf(xs[..n]);
      assert Good(s, xs[n]);
      forall k | k in SeenKeys(s, ItemsOf(xs)) ensures exists i :: 0 <= i < |xs| && s.key(xs[i].item) == k {
        if k in SeenKeys(s, ItemsOf(xs[..n])) {
          var i :| 0 <= i < n && s.key(xs[..n][i].item) == k;
          assert s.key(xs[i].item) == k;
        } else {
          assert s.key(xs[n].item) == k;
        }
      }
    }
  }

  lemma TopGood<T(!new), K>(s: Selector<T, K>, records: seq<T>, limit: nat)
    requires Lawful(s)
    ensures var top := Take(Rank(Candidacy(s, records)), limit);
            && AllGood(s, top) && DistinctBy(s.key, top) && Ranked(top)
            && forall i | 0 <= i < |top| :: top[i] in Candidacy(s, records)
  {
    var all := Candidacy(s, records);
    CandidacyGood(s, records);
    RankDistinct(s.key, all);
    RankSorts(all);
    var top := Take(Rank(all), limit);
    forall i | 0 <= i < |top| ensures Good(s, top[i]) && top[i] in all {
      assert top[i] == Rank(all)[i];
      RankMembers(all, top[i]);
    }
  }

  /** Selection is a projection, and a smaller second limit takes a prefix. */
  lemma SelectAgain<T(!new), K>(s: Selector<T, K>, records: seq<T>, limit: nat, again: nat)
    requires Lawful(s)
    ensures Select(s, Select(s, records, limit), again) == Take(Select(s, records, limit), again)
  {
    TopGood(s, records, limit);
    var top := Take(Rank(Candidacy(s, records)), limit);
    CandidacyAgain(s, top);
    RankFixed(top);
  }

  /** A candidate whose record is not selected ranks behind every selected one. */
  lemma LeftOutRanksBehind<T(!new)>(all: seq<Scored<T>>, limit: nat, x: Scored<T>)
    requires var top := Take(Rank(all), limit); x in all && forall k | 0 <= k < |top| :: top[k].item != x.item
    ensures var top := Take(Rank(all), limit); forall i | 0 <= i < |top| :: Ahead(top[i], x)
  {
    RankSorts(all);
    RankMembers(all, x);
    var ranked := Rank(all);
    var top := Take(ranked, limit);
    var at :| 0 <= at < |ranked| && ranked[at] == x;
    assert forall i | 0 <= i < |top| :: top[i] == ranked[i];
    assert |top| <= at;
    forall i | 0 <= i < |top| ensures Ahead(top[i], x) {
      assert Ahead(ranked[i], ranked[at]);
    }
  }

  /** The selected records are unique by key and ranked, and no candidate that is left out
      ranks strictly ahead of one that is kept. */
  lemma SelectMeaning<T(!new), K>(s: Selector<T, K>, records: seq<T>, limit: nat)
    requires Lawful(s)
    ensures var all, output := Candidacy(s, records), Select(s, records, limit);
            && |output| == (if |all| <= limit then |all| else limit)
            && (forall i, j | 0 <= i < j < |output| ::
                  s.key(output[i]) != s.key(output[j]) && Ahead(s.score(output[i]), s.score(output[j])))
            && (forall i | 0 <= i < |output| :: s.score(output[i]) in all)
            && (forall x, i | x in all && x.item !in output && 0 <= i < |output| :: Ahead(s.score(output[i]), x))
  {
    var all := Candidacy(s, records);
    var top := Take(Rank(all), limit);
    var output := ItemsOf(top);
    TopGood(s, records, limit);
    TopIsTop(all, limit);
    forall i | 0 <= i < |output| ensures s.score(output[i]) == top[i] && top[i] in all {
      assert Good(s, top[i]);
    }
    RankSorts(all);
    forall x, i | x in all && x.item !in output && 0 <= i < |output| ensures Ahead(s.score(output[i]), x) {
      forall k | 0 <= k < |top| ensures top[k].item != x.item {
        assert output[k] == top[k].item && output[k] in output;
      }
      LeftOutRanksBehind(all, limit, x);
    }
  }
}
