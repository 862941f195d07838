/** The worker's query collector: cached searches, deduplicated by URL, cut off early. */
module WebSearch {
  import opened Text
  import opened Ranking

  datatype Found = Found(title: string, url: string, sourceType: string, summary: string)

  /** The answer to a query at the n-th call ever made: an engine may answer the same query
      differently each time. It never raises. */
  type Engine = (string, nat) -> seq<Found>

  type Cache = map<string, seq<Found>>

  // ---- collecting ----

  function Urls(records: seq<Found>): set<string> {
    set r | r in records :: r.url
  }

  /** One search result joins the list unless its URL is blank or already there. */
  function Add(records: seq<Found>, item: Found): seq<Found> {
    var url := Trim(item.url);
    if url == "" || url in Urls(records) then records else records + [item.(url := url)]
  }

  /** Results join until `limit` records are there. */
  function AddUpTo(records: seq<Found>, batch: seq<Found>, limit: nat): seq<Found>
    decreases |batch|
  {
    if batch == [] || |records| >= limit then records
    else AddUpTo(Add(records, batch[0]), batch[1..], limit)
  }

  /** All results, deduplicated by URL. */
  function Unique(records: seq<Found>, batch: seq<Found>): seq<Found>
    decreases |batch|
  {
    if batch == [] then records else Unique(Add(records, batch[0]), batch[1..])
  }

  lemma {:induction false} UniqueExtends(records: seq<Found>, batch: seq<Found>)
    ensures records <= Unique(records, batch)
    decreases |batch|
  {
    if batch != [] {
      UniqueExtends(Add(records, batch[0]), batch[1..]);
    }
  }

  /** Stopping early is cutting off late. */
  lemma {:induction false} AddUpToIsTake(records: seq<Found>, batch: seq<Found>, limit: nat)
    requires |records| <= limit
    ensures AddUpTo(records, batch, limit) == Take(Unique(records, batch), limit)
    decreases |batch|
  {
    if batch == [] {
    } else if |records| >= limit {
      UniqueExtends(records, batch);
    } else {
      AddUpToIsTake(Add(records, batch[0]), batch[1..], limit);
    }
  }

  lemma {:induction false} AddUpToJoins(records: seq<Found>, a: seq<Found>, b: seq<Found>, limit: nat)
    ensures AddUpTo(records, a + b, limit) == AddUpTo(AddUpTo(records, a, limit), b, limit)
    decreases |a|
  {
    if a == [] {
      assert a + b == b;
    } else if |records| < limit {
      assert (a + b)[0] == a[0] && (a + b)[1..] == a[1..] + b;
      AddUpToJoins(Add(records, a[0]), a[1..], b, limit);
    }
  }

  /** All URLs are trimmed, present and different. */
  ghost predicate DistinctUrls(records: seq<Found>) {
    && (forall i | 0 <= i < |records| :: records[i].url != "" && Trim(records[i].url) == records[i].url)
    && (forall i, j | 0 <= i < j < |records| :: records[i].url != records[j].url)
  }

  lemma AddMeaning(records: seq<Found>, item: Found)
    requires DistinctUrls(records) && Trim(Trim(item.url)) == Trim(item.url)
    ensures DistinctUrls(Add(records, item))
    ensures forall url :: url in Urls(Add(records, item)) <==>
              url in Urls(records) || (url != "" && Trim(item.url) == url)
  {
    var more := Add(records, item);
    if more != records {
      var added := item.(url := Trim(item.url));
      assert more == records + [added] && added in more;
      forall i | 0 <= i < |records| ensures records[i].url != added.url {
        assert records[i].url in Urls(records);
      }
      forall url ensures url in Urls(more) <==> url in Urls(records) || url == added.url {
        if url in Urls(records) {
          var r :| r in records && r.url == url;
          assert r in more;
        }
      }
    }
  }

  /** Deduplication keeps every non-blank URL exactly once. */
  lemma {:induction false} UniqueMeaning(records: seq<Found>, batch: seq<Found>)
    requires DistinctUrls(records)
    ensures DistinctUrls(Unique(records, batch))
    ensures forall url :: url in Urls(Unique(records, batch)) <==>
              url in Urls(records) || (url != "" && exists i :: 0 <= i < |batch| && Trim(batch[i].url) == url)
    decreases |batch|
  {
    if batch != [] {
      var more := Add(records, batch[0]);
      TrimTrimmed(batch[0].url);
      TrimTrimmed(Trim(batch[0].url));
      assert DistinctUrls(more) && forall url :: url in Urls(more) <==>
          url in Urls(records) || (url != "" && Trim(batch[0].url) == url) by {
        AddMeaning(records, batch[0]);
      }
      UniqueMeaning(more, batch[1..]);
      assert forall i | 1 <= i < |batch| :: batch[i] == batch[1..][i - 1];
      assert forall i | 0 <= i < |batch| - 1 :: batch[1..][i] == batch[i + 1];
    }
  }

  // ---- searching ----

  /** Make sure the query is cached: a miss searches, and searches once more on an empty answer. */
  function Fetch(engine: Engine, cache: Cache, calls: nat, query: string): (Cache, nat) {
    if query in cache then (cache, calls)
    else
      var batch := engine(query, calls);
      if batch == [] then (cache[query := engine(query, calls + 1)], calls + 2)
      else (cache[query := batch], calls + 1)
  }

  /** A cached query costs nothing. Otherwise the engine is asked once, and once more if it finds
      nothing; the last answer is cached, empty or not, and no other entry changes. */
  lemma FetchMeaning(engine: Engine, cache: Cache, calls: nat, query: string)
    ensures var (cache', calls') := Fetch(engine, cache, calls, query);
            && (query in cache ==> cache' == cache && calls' == calls)
            && (query !in cache && engine(query, calls) != [] ==>
                  cache' == cache[query := engine(query, calls)] && calls' == calls + 1)
            && (query !in cache && engine(query, calls) == [] ==>
                  cache' == cache[query := engine(query, calls + 1)] && calls' == calls + 2)
  {
  }

  datatype Outcome = Outcome(records: seq<Found>, searchCalls: nat, cache: Cache, calls: nat)

  /** The collector from a given point on: it stops as soon as the list is full. */
  function Search(engine: Engine, cache: Cache, calls: nat, queries: seq<string>, records: seq<Found>, limit: nat): Outcome
    decreases |queries|
  {
    if queries == [] || |records| >= limit then Outcome(records, 0, cache, calls)
    else if Trim(queries[0]) == "" then Search(engine, cache, calls, queries[1..], records, limit)
    else
      var (cache1, calls1) := Fetch(engine, cache, calls, queries[0]);
      var rest := Search(engine, cache1, calls1, queries[1..], AddUpTo(records, cache1[queries[0]], limit), limit);
      if queries[0] in cache then rest else rest.(searchCalls := rest.searchCalls + 1)
  }

  /** The cached batches of the non-blank queries, one after the other. */
  function Batches(cache: Cache, queries: seq<string>): seq<Found>
    decreases |queries|
  {
    if queries == [] then []
    else
      (if Trim(queries[0]) != "" && queries[0] in cache then cache[queries[0]] else []) + Batches(cache, queries[1..])
  }

  ghost predicate Preserves(cache: Cache, cache': Cache) {
    forall q | q in cache :: q in cache' && cache'[q] == cache[q]
  }

  /** Cached answers never change, and `search_calls` counts exactly the newly cached queries. */
  lemma {:induction false} CacheGrows(engine: Engine, cache: Cache, calls: nat, queries: seq<string>, records: seq<Found>, limit: nat)
    ensures var out := Search(engine, cache, calls, queries, records, limit);
            && Preserves(cache, out.cache)
            && |out.cache.Keys| == |cache.Keys| + out.searchCalls
            && forall q | q in out.cache :: q in cache || q in queries
    decreases |queries|
  {
    if queries != [] && |records| < limit {
      var q := queries[0];
      if Trim(q) == "" {
        CacheGrows(engine, cache, calls, queries[1..], records, limit);
      } else {
        var (cache1, calls1) := Fetch(engine, cache, calls, q);
        assert cache1.Keys == cache.Keys + {q};
        CacheGrows(engine, cache1, calls1, queries[1..], AddUpTo(records, cache1[q], limit), limit);
      }
    }
  }

  lemma {:induction false} SearchCollects(engine: Engine, cache: Cache, calls: nat, queries: seq<string>, records: seq<Found>, limit: nat)
    ensures var out := Search(engine, cache, calls, queries, records, limit);
            out.records == AddUpTo(records, Batches(out.cache, queries), limit)
    decreases |queries|
  {
    if queries != [] && |records| < limit {
      var q := queries[0];
      if Trim(q) == "" {
        SearchCollects(engine, cache, calls, queries[1..], records, limit);
        assert Batches(Search(engine, cache, calls, queries, records, limit).cache, queries)
            == Batches(Search(engine, cache, calls, queries, records, limit).cache, queries[1..]);
      } else {
        var (cache1, calls1) := Fetch(engine, cache, calls, q);
        var records1 := AddUpTo(records, cache1[q], limit);
        var out := Search(engine, cache1, calls1, queries[1..], records1, limit);
        CacheGrows(engine, cache1, calls1, queries[1..], records1, limit);
        SearchCollects(engine, cache1, calls1, queries[1..], records1, limit);
        assert q in out.cache && out.cache[q] == cache1[q];
        AddUpToJoins(records, cache1[q], Batches(out.cache, queries[1..]), limit);
      }
    }
  }

  /** The collector refines its specification: the result is the first `limit` of all cached
      batches, deduplicated by URL, despite the early return. */
  lemma SearchRefines(engine: Engine, cache: Cache, calls: nat, queries: seq<string>, limit: nat)
    ensures var out := Search(engine, cache, calls, queries, [], limit);
            out.records == Take(Unique([], Batches(out.cache, queries)), limit)
  {
    SearchCollects(engine, cache, calls, queries, [], limit);
    AddUpToIsTake([], Batches(Search(engine, cache, calls, queries, [], limit).cache, queries), limit);
  }

  /** Replaying from the resulting cache, or any larger one, gives the same list and searches
      nothing, whatever the engine would answer now. */
  lemma {:induction false} SearchReplays(engine: Engine, cache: Cache, calls: nat, queries: seq<string>, records: seq<Found>, limit: nat,
                                         engine': Engine, cache': Cache, calls': nat)
    requires Preserves(Search(engine, cache, calls, queries, records, limit).cache, cache')
    ensures Search(engine', cache', calls', queries, records, limit)
            == Outcome(Search(engine, cache, calls, queries, records, limit).records, 0, cache', calls')
    decreases |queries|
  {
    if queries != [] && |records| < limit {
      var q := queries[0];
      if Trim(q) == "" {
        SearchReplays(engine, cache, calls, queries[1..], records, limit, engine', cache', calls');
      } else {
        var (cache1, calls1) := Fetch(engine, cache, calls, q);
        var records1 := AddUpTo(records, cache1[q], limit);
        CacheGrows(engine, cache1, calls1, queries[1..], records1, limit);
        assert q in cache' && cache'[q] == cache1[q];
        SearchReplays(engine, cache1, calls1, queries[1..], records1, limit, engine', cache', calls');
      }
    }
  }

  /** A blank query is never searched for; and unless the list is full, every other one is
      answered from the cache in the end. */
  lemma {:induction false} QueriesAsked(engine: Engine, cache: Cache, calls: nat, queries: seq<string>, records: seq<Found>, limit: nat)
    ensures var out := Search(engine, cache, calls, queries, records, limit);
            && (forall q | q in out.cache && q !in cache :: Trim(q) != "")
            && (|out.records| < limit ==> forall q | q in queries && Trim(q) != "" :: q in out.cache)
    decreases |queries|
  {
    if queries != [] && |records| < limit {
      var q := queries[0];
      if Trim(q) == "" {
        QueriesAsked(engine, cache, calls, queries[1..], records, limit);
      } else {
        var (cache1, calls1) := Fetch(engine, cache, calls, q);
        var records1 := AddUpTo(records, cache1[q], limit);
        QueriesAsked(engine, cache1, calls1, queries[1..], records1, limit);
        CacheGrows(engine, cache1, calls1, queries[1..], records1, limit);
      }
      assert queries == [q] + queries[1..];
    }
  }

  /** A record is the first result with its URL, as the engine gave it, the URL trimmed. */
  ghost predicate FirstWithUrl(batch: seq<Found>, r: Found) {
    exists k :: 0 <= k < |batch| && Trim(batch[k].url) == r.url && r == batch[k].(url := r.url)
                && forall j | 0 <= j < k :: Trim(batch[j].url) != r.url
  }

  lemma {:induction false} UniqueKeepsFirsts(records: seq<Found>, batch: seq<Found>, i: nat)
    requires |records| <= i < |Unique(records, batch)|
    ensures FirstWithUrl(batch, Unique(records, batch)[i])
    ensures Unique(records, batch)[i].url != "" && Unique(records, batch)[i].url !in Urls(records)
    decreases |batch|
  {
    var more := Add(records, batch[0]);
    UniqueExtends(more, batch[1..]);
    var r := Unique(records, batch)[i];
    if i < |more| {
      assert r == more[i] && r == batch[0].(url := Trim(batch[0].url));
    } else {
      UniqueKeepsFirsts(more, batch[1..], i);
      var k :| 0 <= k < |batch[1..]| && Trim(batch[1..][k].url) == r.url && r == batch[1..][k].(url := r.url)
               && forall j | 0 <= j < k :: Trim(batch[1..][j].url) != r.url;
      assert batch[k + 1] == batch[1..][k];
      assert Urls(records) <= Urls(more) by {
        assert forall x | x in records :: x in more;
      }
      assert Trim(batch[0].url) != r.url by {
        AddedUrl(records, batch[0]);
      }
      forall j | 0 <= j < k + 1 ensures Trim(batch[j].url) != r.url {
        assert j > 0 ==> batch[j] == batch[1..][j - 1];
      }
    }
  }

  lemma AddedUrl(records: seq<Found>, item: Found)
    ensures Trim(item.url) == "" || Trim(item.url) in Urls(Add(records, item))
  {
    if Trim(item.url) != "" && Trim(item.url) !in Urls(records) {
      assert item.(url := Trim(item.url)) in Add(records, item);
    }
  }

  // ---- the worker ----

  /** How many queries a task may use and how many results it keeps. */
  function Limits(taskKey: string): (limits: (nat, nat))
    ensures limits.0 >= 5 && limits.1 >= 8
  {
    match taskKey
    case "contact_discovery" => (10, 12)
    case "contact_qualification" => (10, 12)
    case "target_company_contacts" => (12, 12)
    case "peer_companies" => (8, 12)
    case "monetization_redeployment" => (8, 8)
    case "company_fundamentals" => (8, 30)
    case "economic_commercial_situation" => (9, 24)
    case "financial_deep_dive" => (10, 12)
    case "transaction_event_intelligence" => (10, 12)
    case _ => (5, 8)
  }

  class SearchWorker {
    const engine: Engine
    var searchCache: Cache
    var calls: nat

    constructor (engine: Engine)
      ensures searchCache == map[] && this.engine == engine
    {
      this.engine := engine;
      searchCache, calls := map[], 0;
    }

    method FillCache(query: string)
      modifies this
      ensures (searchCache, calls) == Fetch(engine, old(searchCache), old(calls), query)
    {
      if query !in searchCache {
        var batch := engine(query, calls);
        calls := calls + 1;
        if batch == [] {
          batch := engine(query, calls);
          calls := calls + 1;
        }
        searchCache := searchCache[query := batch];
      }
    }

    /** `_search_queries` after the permission check and the lookup of the limits: nested loops
        with an early return. */
    method SearchQueries(queries: seq<string>, limit: nat) returns (results: seq<Found>, searchCalls: nat)
      requires limit > 0
      modifies this
      ensures Search(engine, old(searchCache), old(calls), queries, [], limit)
              == Outcome(results, searchCalls, searchCache, calls)
    {
      results, searchCalls := [], 0;
      ghost var whole := Search(engine, searchCache, calls, queries, [], limit);
      for i := 0 to |queries|
        invariant |results| < limit
        invariant var rest := Search(engine, searchCache, calls, queries[i..], results, limit);
                  whole == rest.(searchCalls := searchCalls + rest.searchCalls)
      {
        var query := queries[i];
        assert queries[i..][0] == query && queries[i..][1..] == queries[i + 1..];
        if Trim(query) == "" {
          continue;
        }
        if query !in searchCache {
          searchCalls := searchCalls + 1;
        }
        FillCache(query);
        var batch := searchCache[query];
        ghost var goal := AddUpTo(results, batch, limit);
        for j := 0 to |batch|
          invariant |results| < limit
          invariant AddUpTo(results, batch[j..], limit) == goal
        {
          assert batch[j..][0] == batch[j] && batch[j..][1..] == batch[j + 1..];
          var url := Trim(batch[j].url);
          if url == "" || url in Urls(results) {
            continue;
          }
          results := results + [batch[j].(url := url)];
          if |results| >= limit {
            return;
          }
        }
      }
    }

    /** The whole of `_search_queries`. */
    method SearchForTask(queries: seq<string>, searchAllowed: bool, taskKey: string)
      returns (results: seq<Found>, searchCalls: nat)
      modifies this
      ensures if searchAllowed
              then Search(engine, old(searchCache), old(calls), Take(queries, Limits(taskKey).0), [], Limits(taskKey).1)
                   == Outcome(results, searchCalls, searchCache, calls)
              else results == [] && searchCalls == 0 && searchCache == old(searchCache) && calls == old(calls)
    {
      if !searchAllowed {
        return [], 0;
      }
      var (maxQueries, maxResults) := Limits(taskKey);
      results, searchCalls := SearchQueries(Take(queries, maxQueries), maxResults);
    }
  }
}
