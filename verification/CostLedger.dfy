/** The cost ledger: token usage and estimated cost by model, by agent, and by agent and model. */
module CostLedger {
  import opened Text
  import opened JsonModel
  import opened Rounding

  datatype Price = Price(input: real, output: real)

  /** Resolving a model's price reads a table and the environment. */
  type PriceList = string -> Option<Price>

  datatype Report = Report(model: string, worker: string, prompt: int, completion: int, total: int)

  datatype Usage = Usage(cost: real, prompt: int, completion: int, total: int)

  const NOTHING := Usage(0.0, 0, 0, 0)

  const MILLION := 1000000.0

  /** Ten decimals. */
  const GRID := 10000000000.0

  function Plus(a: Usage, b: Usage): Usage {
    Usage(a.cost + b.cost, a.prompt + b.prompt, a.completion + b.completion, a.total + b.total)
  }

  /** What the code stores: the sum with its cost rounded again. */
  function PlusRounded(a: Usage, b: Usage): Usage {
    Plus(a, b).(cost := RoundTo(a.cost + b.cost, GRID))
  }

  function NonNegative(n: int): int {
    if n < 0 then 0 else n
  }

  /** `estimate_cost_usd`. */
  function EstimateCost(prices: PriceList, model: string, prompt: int, completion: int): real {
    match prices(model)
    case None => 0.0
    case Some(price) => RoundTo(ExactCost(price, prompt, completion), GRID)
  }

  function ExactCost(price: Price, prompt: int, completion: int): real {
    (NonNegative(prompt) as real / MILLION) * price.input + (NonNegative(completion) as real / MILLION) * price.output
  }

  /** Prompt tokens cost the input price and completion tokens the output price, per million; a
      negative count costs nothing. */
  lemma PriceMeaning(price: Price, prompt: int, completion: int)
    ensures ExactCost(price, 1000000, 0) == price.input && ExactCost(price, 0, 1000000) == price.output
    ensures ExactCost(price, prompt, completion) == ExactCost(price, prompt, 0) + ExactCost(price, 0, completion)
    ensures prompt >= 0 ==> ExactCost(price, prompt, 0) * MILLION == prompt as real * price.input
    ensures completion >= 0 ==> ExactCost(price, 0, completion) * MILLION == completion as real * price.output
    ensures prompt <= 0 && completion <= 0 ==> ExactCost(price, prompt, completion) == 0.0
  {
  }

  /** An estimate is within half a unit of the exact cost, it is not negative unless a price is,
      and a model without a known price costs nothing. */
  lemma EstimateMeaning(prices: PriceList, model: string, prompt: int, completion: int)
    ensures var cost := EstimateCost(prices, model, prompt, completion);
            && (prices(model).Some? && prices(model).value.input >= 0.0 && prices(model).value.output >= 0.0 ==> cost >= 0.0)
            && (prices(model).None? ==> cost == 0.0)
            && (prices(model).Some? ==>
                  cost - 0.5 / GRID <= ExactCost(prices(model).value, prompt, completion) <= cost + 0.5 / GRID)
  {
    match prices(model)
    case None =>
    case Some(price) =>
      var exact := ExactCost(price, prompt, completion);
      RoundToClose(exact, GRID);
      if price.input >= 0.0 && price.output >= 0.0 {
        assert exact >= 0.0;
        RoundToMonotone(0.0, exact, GRID);
        assert RoundTo(0.0, GRID) == 0.0;
      }
  }

  predicate Counted(r: Report) {
    !(r.prompt == 0 && r.completion == 0 && r.total == 0)
  }

  function ModelName(r: Report): string {
    if Trim(r.model) == "" then "unknown" else Trim(r.model)
  }

  function WorkerName(lower: string -> string, r: Report): string {
    lower(if Trim(r.worker) == "" then "worker" else Trim(r.worker))
  }

  /** What a report adds to every bucket it belongs to. */
  function Charge(prices: PriceList, r: Report): Usage {
    Usage(EstimateCost(prices, ModelName(r), r.prompt, r.completion), r.prompt, r.completion,
          if r.total != 0 then r.total else r.prompt + r.completion)
  }

  type Buckets = map<string, Usage>

  datatype Agent = Agent(actual: Usage, models: Buckets)

  datatype Ledger = Ledger(total: Usage, models: Buckets, agents: map<string, Agent>)

  function Bucket(buckets: Buckets, key: string): Usage {
    if key in buckets then buckets[key] else NOTHING
  }

  function AgentOf(agents: map<string, Agent>, key: string): Agent {
    if key in agents then agents[key] else Agent(NOTHING, map[])
  }

  /** The aggregation loop. */
  method SummarizeWorkerReportCosts(prices: PriceList, lower: string -> string, reports: seq<Report>) returns (ledger: Ledger)
    ensures ledger == Summary(prices, lower, reports)
  {
    var total := NOTHING;
    var models: Buckets := map[];
    var agents: map<string, Agent> := map[];
    for i := 0 to |reports|
      invariant Ledger(total, models, agents) == Summary(prices, lower, reports[..i])
    {
      assert reports[..i + 1][..i] == reports[..i];
      SummaryOnGrid(prices, lower, reports[..i]);
      var r := reports[i];
      BookingIsExact(prices, lower, Summary(prices, lower, reports[..i]), r);
      if r.prompt == 0 && r.completion == 0 && r.total == 0 {
        continue;
      }
      var model, worker := ModelName(r), WorkerName(lower, r);
      var charge := Charge(prices, r);
      total := Plus(total, charge);
      models := models[model := PlusRounded(Bucket(models, model), charge)];
      var agent := AgentOf(agents, worker);
      agents := agents[worker := Agent(PlusRounded(agent.actual, charge),
                                       agent.models[model := PlusRounded(Bucket(agent.models, model), charge)])];
    }
    assert reports[..|reports|] == reports;
    SummaryOnGrid(prices, lower, reports);
    RoundToGrid(total.cost, GRID);
    ledger := Ledger(total.(cost := RoundTo(total.cost, GRID)), models, agents);
  }

  // ---- the ledger without rounding ----

  /** One report booked, in exact arithmetic. */
  function Book(prices: PriceList, lower: string -> string, ledger: Ledger, r: Report): Ledger {
    if !Counted(r) then ledger
    else BookCharge(ledger, ModelName(r), WorkerName(lower, r), Charge(prices, r))
  }

  function BookCharge(ledger: Ledger, model: string, worker: string, charge: Usage): Ledger {
    var agent := AgentOf(ledger.agents, worker);
    Ledger(Plus(ledger.total, charge),
           ledger.models[model := Plus(Bucket(ledger.models, model), charge)],
           ledger.agents[worker := Agent(Plus(agent.actual, charge),
                                         agent.models[model := Plus(Bucket(agent.models, model), charge)])])
  }

  function Summary(prices: PriceList, lower: string -> string, reports: seq<Report>): Ledger {
    if reports == [] then Ledger(NOTHING, map[], map[])
    else Book(prices, lower, Summary(prices, lower, reports[..|reports| - 1]), reports[|reports| - 1])
  }

  // ---- rounding is the identity ----

  ghost predicate UsageOnGrid(u: Usage) {
    OnGrid(u.cost, GRID)
  }

  ghost predicate BucketsOnGrid(buckets: Buckets) {
    forall key | key in buckets :: UsageOnGrid(buckets[key])
  }

  ghost predicate LedgerOnGrid(ledger: Ledger) {
    && UsageOnGrid(ledger.total)
    && BucketsOnGrid(ledger.models)
    && forall key | key in ledger.agents ::
         UsageOnGrid(ledger.agents[key].actual) && BucketsOnGrid(ledger.agents[key].models)
  }

  lemma NothingOnGrid()
    ensures UsageOnGrid(NOTHING)
  {
    assert GridPoint(0, GRID) == 0.0;
  }

  lemma ChargeOnGrid(prices: PriceList, r: Report)
    ensures UsageOnGrid(Charge(prices, r))
  {
    NothingOnGrid();
    match prices(ModelName(r))
    case None =>
    case Some(price) =>
      RoundToGrid(ExactCost(price, r.prompt, r.completion), GRID);
  }

  /** Every cost is a whole number of ten-decimal units, and so are their sums: rounding a sum
      again changes nothing. */
  lemma PlusRoundedExact(a: Usage, b: Usage)
    requires UsageOnGrid(a) && UsageOnGrid(b)
    ensures PlusRounded(a, b) == Plus(a, b) && UsageOnGrid(Plus(a, b))
  {
    GridSum(a.cost, b.cost, GRID);
    RoundToGrid(a.cost + b.cost, GRID);
  }

  lemma BucketOnGrid(buckets: Buckets, key: string)
    requires BucketsOnGrid(buckets)
    ensures UsageOnGrid(Bucket(buckets, key))
  {
    NothingOnGrid();
  }

  /** The buckets a report is booked into, on the grid before and after. */
  lemma BookingIsExact(prices: PriceList, lower: string -> string, ledger: Ledger, r: Report)
    requires LedgerOnGrid(ledger)
    ensures var model, charge := ModelName(r), Charge(prices, r);
            var agent := AgentOf(ledger.agents, WorkerName(lower, r));
            && PlusRounded(Bucket(ledger.models, model), charge) == Plus(Bucket(ledger.models, model), charge)
            && PlusRounded(agent.actual, charge) == Plus(agent.actual, charge)
            && PlusRounded(Bucket(agent.models, model), charge) == Plus(Bucket(agent.models, model), charge)
    ensures LedgerOnGrid(Book(prices, lower, ledger, r))
  {
    var model, charge := ModelName(r), Charge(prices, r);
    var agent := AgentOf(ledger.agents, WorkerName(lower, r));
    NothingOnGrid();
    ChargeOnGrid(prices, r);
    BucketOnGrid(ledger.models, model);
    BucketOnGrid(agent.models, model);
    PlusRoundedExact(ledger.total, charge);
    PlusRoundedExact(Bucket(ledger.models, model), charge);
    PlusRoundedExact(agent.actual, charge);
    PlusRoundedExact(Bucket(agent.models, model), charge);
  }

  lemma {:induction false} SummaryOnGrid(prices: PriceList, lower: string -> string, reports: seq<Report>)
    ensures LedgerOnGrid(Summary(prices, lower, reports))
  {
    NothingOnGrid();
    if reports != [] {
      SummaryOnGrid(prices, lower, reports[..|reports| - 1]);
      BookingIsExact(prices, lower, Summary(prices, lower, reports[..|reports| - 1]), reports[|reports| - 1]);
    }
  }

  // ---- conservation ----

  ghost function Sum(buckets: Buckets): Usage {
    if buckets == map[] then NOTHING
    else
      var key :| key in buckets;
      Plus(buckets[key], Sum(buckets - {key}))
  }

  lemma PlusSwaps(a: Usage, b: Usage, c: Usage)
    ensures Plus(a, Plus(b, c)) == Plus(b, Plus(a, c))
  {
  }

  /** Any key may be summed first. */
  lemma {:induction false} SumTake(buckets: Buckets, key: string)
    requires key in buckets
    ensures Sum(buckets) == Plus(buckets[key], Sum(buckets - {key}))
    decreases |buckets|
  {
    var first :| first in buckets && Sum(buckets) == Plus(buckets[first], Sum(buckets - {first}));
    if first != key {
      var rest := Sum(buckets - {first} - {key});
      assert buckets - {first} - {key} == buckets - {key} - {first};
      assert Sum(buckets - {first}) == Plus(buckets[key], rest) by {
        SumTake(buckets - {first}, key);
      }
      assert Sum(buckets - {key}) == Plus(buckets[first], rest) by {
        SumTake(buckets - {key}, first);
      }
      PlusSwaps(buckets[first], buckets[key], rest);
    }
  }

  lemma SumAfterBooking(buckets: Buckets, key: string, charge: Usage)
    ensures Sum(buckets[key := Plus(Bucket(buckets, key), charge)]) == Plus(Sum(buckets), charge)
  {
    var after := buckets[key := Plus(Bucket(buckets, key), charge)];
    SumTake(after, key);
    assert after - {key} == buckets - {key};
    if key in buckets {
      SumTake(buckets, key);
    } else {
      assert buckets - {key} == buckets;
    }
  }

  /** The agents' own totals, as buckets. */
  function Actuals(agents: map<string, Agent>): Buckets {
    map worker | worker in agents :: agents[worker].actual
  }

  /** Tokens and cost summed over models, over agents, and over each agent's own models all
      match the corresponding totals. */
  ghost predicate Balanced(ledger: Ledger) {
    && Sum(ledger.models) == ledger.total
    && Sum(Actuals(ledger.agents)) == ledger.total
    && forall worker | worker in ledger.agents :: AgentBalanced(ledger.agents[worker])
  }

  ghost predicate AgentBalanced(agent: Agent) {
    Sum(agent.models) == agent.actual
  }

  lemma AgentAfterBooking(agent: Agent, model: string, charge: Usage)
    requires AgentBalanced(agent)
    ensures AgentBalanced(Agent(Plus(agent.actual, charge), agent.models[model := Plus(Bucket(agent.models, model), charge)]))
  {
    SumAfterBooking(agent.models, model, charge);
  }

  lemma AgentsAfterBooking(agents: map<string, Agent>, worker: string, charge: Usage, models: Buckets)
    ensures Sum(Actuals(agents[worker := Agent(Plus(AgentOf(agents, worker).actual, charge), models)]))
            == Plus(Sum(Actuals(agents)), charge)
  {
    SumAfterBooking(Actuals(agents), worker, charge);
    assert Actuals(agents[worker := Agent(Plus(AgentOf(agents, worker).actual, charge), models)])
        == Actuals(agents)[worker := Plus(Bucket(Actuals(agents), worker), charge)];
  }

  lemma AgentsStayBalanced(agents: map<string, Agent>, worker: string, agent: Agent)
    requires AgentBalanced(agent) && forall w | w in agents :: AgentBalanced(agents[w])
    ensures var after := agents[worker := agent];
            forall w | w in after :: AgentBalanced(after[w])
  {
  }

  lemma BookingBalances(ledger: Ledger, model: string, worker: string, charge: Usage)
    requires Balanced(ledger)
    ensures Balanced(BookCharge(ledger, model, worker, charge))
  {
    var agent := AgentOf(ledger.agents, worker);
    var models := agent.models[model := Plus(Bucket(agent.models, model), charge)];
    assert AgentBalanced(agent);
    AgentAfterBooking(agent, model, charge);
    AgentsStayBalanced(ledger.agents, worker, Agent(Plus(agent.actual, charge), models));
    SumAfterBooking(ledger.models, model, charge);
    AgentsAfterBooking(ledger.agents, worker, charge, models);
  }

  /** Nothing is lost or counted twice, for any list of reports. */
  lemma {:induction false} LedgerConserves(prices: PriceList, lower: string -> string, reports: seq<Report>)
    ensures Balanced(Summary(prices, lower, reports))
  {
    if reports != [] {
      var init, r := reports[..|reports| - 1], reports[|reports| - 1];
      LedgerConserves(prices, lower, init);
      BookingBalances(Summary(prices, lower, init), ModelName(r), WorkerName(lower, r), Charge(prices, r));
    }
  }

  /** The charges of the counted reports that satisfy a test. */
  function ChargesWhere(prices: PriceList, reports: seq<Report>, test: Report -> bool): Usage {
    if reports == [] then NOTHING
    else
      var last := reports[|reports| - 1];
      var before := ChargesWhere(prices, reports[..|reports| - 1], test);
      if Counted(last) && test(last) then Plus(before, Charge(prices, last)) else before
  }

  /** And each bucket holds exactly the charges of its own reports. */
  lemma {:induction false} BucketsMeaning(prices: PriceList, lower: string -> string, reports: seq<Report>, model: string, worker: string)
    ensures var ledger := Summary(prices, lower, reports);
            var byModel := (r: Report) => ModelName(r) == model;
            var byWorker := (r: Report) => WorkerName(lower, r) == worker;
            var byBoth := (r: Report) => ModelName(r) == model && WorkerName(lower, r) == worker;
            && Bucket(ledger.models, model) == ChargesWhere(prices, reports, byModel)
            && AgentOf(ledger.agents, worker).actual == ChargesWhere(prices, reports, byWorker)
            && Bucket(AgentOf(ledger.agents, worker).models, model) == ChargesWhere(prices, reports, byBoth)
  {
    if reports != [] {
      BucketsMeaning(prices, lower, reports[..|reports| - 1], model, worker);
    }
  }

  // ---- totals ----

  function PromptTokens(reports: seq<Report>): int {
    if reports == [] then 0 else reports[0].prompt + PromptTokens(reports[1..])
  }

  function CompletionTokens(reports: seq<Report>): int {
    if reports == [] then 0 else reports[0].completion + CompletionTokens(reports[1..])
  }

  /** A report that gives no total counts as the sum of its two parts. */
  function TotalTokens(reports: seq<Report>): int {
    if reports == [] then 0
    else (if reports[0].total == 0 then reports[0].prompt + reports[0].completion else reports[0].total) + TotalTokens(reports[1..])
  }

  lemma {:induction false} TokensOneMore(reports: seq<Report>, r: Report)
    ensures PromptTokens(reports + [r]) == PromptTokens(reports) + r.prompt
    ensures CompletionTokens(reports + [r]) == CompletionTokens(reports) + r.completion
    ensures TotalTokens(reports + [r]) ==
            TotalTokens(reports) + if r.total == 0 then r.prompt + r.completion else r.total
  {
    if reports == [] {
      assert ([] + [r])[1..] == [];
    } else {
      TokensOneMore(reports[1..], r);
      assert (reports + [r])[0] == reports[0] && (reports + [r])[1..] == reports[1..] + [r];
    }
  }

  /** The token totals of the ledger are the plain sums over all reports. */
  lemma {:induction false} TotalsMeaning(prices: PriceList, lower: string -> string, reports: seq<Report>)
    ensures var total := Summary(prices, lower, reports).total;
            && total.prompt == PromptTokens(reports) && total.completion == CompletionTokens(reports)
            && total.total == TotalTokens(reports)
  {
    if reports != [] {
      var init, r := reports[..|reports| - 1], reports[|reports| - 1];
      TotalsMeaning(prices, lower, init);
      TokensOneMore(init, r);
      assert reports == init + [r];
    }
  }

  /** What one counted report adds: its estimated cost and its tokens, in the bucket of its trimmed
      model name and of its trimmed, lower-case worker name, with stand-ins for blank names. */
  lemma ChargeMeaning(prices: PriceList, lower: string -> string, r: Report)
    ensures var model := if Trim(r.model) != "" then Trim(r.model) else "unknown";
            && ModelName(r) == model
            && WorkerName(lower, r) == lower(if Trim(r.worker) != "" then Trim(r.worker) else "worker")
            && Charge(prices, r).cost == EstimateCost(prices, model, r.prompt, r.completion)
            && Charge(prices, r).prompt == r.prompt && Charge(prices, r).completion == r.completion
            && (Counted(r) <==> r.prompt != 0 || r.completion != 0 || r.total != 0)
  {
  }
}
