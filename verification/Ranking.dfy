/** Ranking by score descending, then name: the stable sort and cut-off shared by contact
    prioritization and pattern retrieval. */
module Ranking {
  import opened Text

  datatype Scored<T> = Scored(score: real, name: string, item: T)

  /** `a` may stand ahead of `b`. */
  predicate Ahead<T>(a: Scored<T>, b: Scored<T>) {
    a.score > b.score || (a.score == b.score && StrLeq(a.name, b.name))
  }

  /** The higher score comes first; on equal scores the name that is a prefix of the other, or
      smaller at the first difference. */
  lemma AheadMeaning<T>(a: Scored<T>, b: Scored<T>)
    ensures Ahead(a, b) <==>
            || b.score < a.score
            || (a.score == b.score
                && (a.name <= b.name
                    || exists k :: 0 <= k < |a.name| && k < |b.name| && a.name[..k] == b.name[..k] && a.name[k] < b.name[k]))
  {
    StrLeqMeaning(a.name, b.name);
  }

  lemma AheadTotal<T>(a: Scored<T>, b: Scored<T>)
    ensures Ahead(a, b) || Ahead(b, a)
  {
    StrLeqTotal(a.name, b.name);
  }

  lemma AheadTransitive<T>(a: Scored<T>, b: Scored<T>, c: Scored<T>)
    requires Ahead(a, b) && Ahead(b, c)
    ensures Ahead(a, c)
  {
    if a.score == b.score == c.score {
      StrLeqTransitive(a.name, b.name, c.name);
    }
  }

  ghost predicate Ranked<T>(xs: seq<Scored<T>>) {
    forall i, j | 0 <= i < j < |xs| :: Ahead(xs[i], xs[j])
  }

  function Insert<T>(x: Scored<T>, xs: seq<Scored<T>>): seq<Scored<T>> {
    if xs == [] || Ahead(x, xs[0]) then [x] + xs else [xs[0]] + Insert(x, xs[1..])
  }

  /** The stable sort. */
  function Rank<T>(xs: seq<Scored<T>>): seq<Scored<T>> {
    if xs == [] then [] else Insert(xs[0], Rank(xs[1..]))
  }

  function Take<T>(xs: seq<T>, n: nat): seq<T> {
    if |xs| <= n then xs else xs[..n]
  }

  lemma {:induction false} InsertContents<T>(x: Scored<T>, xs: seq<Scored<T>>)
    ensures multiset(Insert(x, xs)) == multiset(xs) + multiset{x}
  {
    if !(xs == [] || Ahead(x, xs[0])) {
      InsertContents(x, xs[1..]);
      assert xs == [xs[0]] + xs[1..];
    }
  }

  lemma {:induction false} InsertRanked<T>(x: Scored<T>, xs: seq<Scored<T>>)
    requires Ranked(xs)
    ensures Ranked(Insert(x, xs))
  {
    if xs == [] {
    } else if Ahead(x, xs[0]) {
      forall j | 0 <= j < |xs| ensures Ahead(x, xs[j]) {
        if j > 0 {
          AheadTransitive(x, xs[0], xs[j]);
        }
      }
    } else {
      var rest := Insert(x, xs[1..]);
      InsertRanked(x, xs[1..]);
      InsertContents(x, xs[1..]);
      AheadTotal(x, xs[0]);
      forall j | 0 <= j < |rest| ensures Ahead(xs[0], rest[j]) {
        assert rest[j] in multiset(rest);
        if rest[j] != x {
          assert rest[j] in xs[1..];
        }
      }
    }
  }

  /** Ranking orders the same records, and leaves ranked records as they are. */
  lemma {:induction false} RankSorts<T>(xs: seq<Scored<T>>)
    ensures Ranked(Rank(xs))
    ensures multiset(Rank(xs)) == multiset(xs)
    ensures |Rank(xs)| == |xs|
  {
    if xs != [] {
      RankSorts(xs[1..]);
      InsertRanked(xs[0], Rank(xs[1..]));
      InsertContents(xs[0], Rank(xs[1..]));
      assert xs == [xs[0]] + xs[1..];
      assert |multiset(Rank(xs))| == |Rank(xs)| && |multiset(xs)| == |xs|;
    }
  }

  lemma {:induction false} RankFixed<T>(xs: seq<Scored<T>>)
    requires Ranked(xs)
    ensures Rank(xs) == xs
  {
    if xs != [] {
      RankFixed(xs[1..]);
      assert xs == [xs[0]] + xs[1..];
    }
  }

  lemma RankMembers<T>(xs: seq<Scored<T>>, x: Scored<T>)
    ensures x in Rank(xs) <==> x in xs
  {
    RankSorts(xs);
    assert x in Rank(xs) <==> x in multiset(Rank(xs));
    assert x in xs <==> x in multiset(xs);
  }

  function Ties<T>(xs: seq<Scored<T>>, score: real, name: string): seq<Scored<T>> {
    if xs == [] then []
    else (if xs[0].score == score && xs[0].name == name then [xs[0]] else []) + Ties(xs[1..], score, name)
  }

  lemma {:induction false} InsertStable<T>(x: Scored<T>, xs: seq<Scored<T>>, score: real, name: string)
    requires Ranked(xs)
    ensures Ties(Insert(x, xs), score, name) == (if x.score == score && x.name == name then [x] else []) + Ties(xs, score, name)
  {
    if !(xs == [] || Ahead(x, xs[0])) {
      InsertStable(x, xs[1..], score, name);
      StrLeqTotal(x.name, x.name);
      assert Insert(x, xs)[1..] == Insert(x, xs[1..]);
    } else {
      assert Insert(x, xs)[1..] == xs;
    }
  }

  /** The sort is stable: records that tie on score and name keep their order. */
  lemma {:induction false} RankStable<T>(xs: seq<Scored<T>>, score: real, name: string)
    ensures Ties(Rank(xs), score, name) == Ties(xs, score, name)
  {
    if xs != [] {
      RankStable(xs[1..], score, name);
      RankSorts(xs[1..]);
      InsertStable(xs[0], Rank(xs[1..]), score, name);
    }
  }

  /** The cut-off is the true top of the list: the parts make up the whole, and nothing that is
      left out ranks strictly ahead of anything that is kept. */
  lemma TopIsTop<T>(xs: seq<Scored<T>>, limit: nat)
    ensures var top := Take(Rank(xs), limit);
            var rest := Rank(xs)[|top|..];
            && |top| == (if |xs| <= limit then |xs| else limit)
            && Ranked(top)
            && multiset(top) + multiset(rest) == multiset(xs)
            && forall a, b | a in top && b in rest :: Ahead(a, b)
  {
    RankSorts(xs);
    var top := Take(Rank(xs), limit);
    assert Rank(xs) == top + Rank(xs)[|top|..];
  }

  /** All records have different keys. */
  ghost predicate DistinctBy<T, K>(key: T -> K, xs: seq<Scored<T>>) {
    forall i, j | 0 <= i < j < |xs| :: key(xs[i].item) != key(xs[j].item)
  }

  lemma {:induction false} InsertDistinct<T, K>(key: T -> K, x: Scored<T>, xs: seq<Scored<T>>)
    requires DistinctBy(key, xs) && forall i | 0 <= i < |xs| :: key(xs[i].item) != key(x.item)
    ensures DistinctBy(key, Insert(x, xs))
  {
    if !(xs == [] || Ahead(x, xs[0])) {
      InsertDistinct(key, x, xs[1..]);
      InsertContents(x, xs[1..]);
      var rest := Insert(x, xs[1..]);
      forall j | 0 <= j < |rest| ensures key(rest[j].item) != key(xs[0].item) {
        assert rest[j] in multiset(rest);
        assert rest[j] == x || rest[j] in xs[1..];
      }
    }
  }

  lemma {:induction false} RankDistinct<T, K>(key: T -> K, xs: seq<Scored<T>>)
    requires DistinctBy(key, xs)
    ensures DistinctBy(key, Rank(xs))
  {
    if xs != [] {
      RankDistinct(key, xs[1..]);
      var rest := Rank(xs[1..]);
      forall i | 0 <= i < |rest| ensures key(rest[i].item) != key(xs[0].item) {
        RankMembers(xs[1..], rest[i]);
        assert rest[i] in xs[1..];
      }
      InsertDistinct(key, xs[0], rest);
    }
  }
}
