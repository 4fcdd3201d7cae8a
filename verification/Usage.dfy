/** Token and cost accounting. Costs are exact reals. */
module Usage {
  import opened Wrappers

  datatype Record = Record(
    runId: string, inputTokens: nat, outputTokens: nat, totalTokens: nat,
    inputCost: real, outputCost: real, totalCost: real, retryCount: nat, failedCalls: nat)

  function Build(runId: string, inputTokens: nat, outputTokens: nat, totalTokens: Option<nat>, inputPrice: real,
                 outputPrice: real, retryCount: nat, failedCalls: nat): Record
  {
    var inputCost := inputTokens as real / 1000000.0 * inputPrice;
    var outputCost := outputTokens as real / 1000000.0 * outputPrice;
    Record(runId, inputTokens, outputTokens,
           if totalTokens.Some? then totalTokens.value else inputTokens + outputTokens,
           inputCost, outputCost, inputCost + outputCost, retryCount, failedCalls)
  }

  // ----- totals of one run

  function Tokens(runId: string, rs: seq<Record>): nat {
    if rs == [] then 0
    else Tokens(runId, rs[..|rs| - 1]) + if rs[|rs| - 1].runId == runId then rs[|rs| - 1].totalTokens else 0
  }

  function Cost(runId: string, rs: seq<Record>): real {
    if rs == [] then 0.0
    else Cost(runId, rs[..|rs| - 1]) + if rs[|rs| - 1].runId == runId then rs[|rs| - 1].totalCost else 0.0
  }

  function Failures(runId: string, rs: seq<Record>): nat {
    if rs == [] then 0
    else Failures(runId, rs[..|rs| - 1]) + if rs[|rs| - 1].runId == runId then rs[|rs| - 1].failedCalls else 0
  }

  datatype Action = Continue | Warn | BlockNewCalls | UseDeterministicFallback | DiagnosticHold

  function Decide(runId: string, rs: seq<Record>, tokenBudget: nat, costBudget: real): Action {
    var tokens, cost := Tokens(runId, rs), Cost(runId, rs);
    if tokenBudget != 0 && tokens > tokenBudget then BlockNewCalls
    else if Failures(runId, rs) != 0 then UseDeterministicFallback
    else if costBudget != 0.0 && cost > costBudget then DiagnosticHold
    else if tokenBudget != 0 && tokens as real >= tokenBudget as real * 0.8 then Warn
    else if costBudget != 0.0 && cost >= costBudget * 0.8 then Warn
    else Continue
  }

  predicate Admits(a: Action) { a != BlockNewCalls && a != DiagnosticHold }

  /** A failed call pre-empts the cost check, and nothing else lets a cost overrun through. */
  lemma AdmittedIff(runId: string, rs: seq<Record>, tokenBudget: nat, costBudget: real)
    ensures Admits(Decide(runId, rs, tokenBudget, costBudget)) <==>
      && (tokenBudget == 0 || Tokens(runId, rs) <= tokenBudget)
      && (Failures(runId, rs) > 0 || costBudget == 0.0 || Cost(runId, rs) <= costBudget)
  {
  }

  /** Each decision, by the totals of the run. */
  lemma DecisionIff(runId: string, rs: seq<Record>, tokenBudget: nat, costBudget: real)
    ensures var d, tokens, cost := Decide(runId, rs, tokenBudget, costBudget), Tokens(runId, rs), Cost(runId, rs);
      && (d == BlockNewCalls <==> tokenBudget > 0 && tokens > tokenBudget)
      && (d == UseDeterministicFallback <==> d != BlockNewCalls && Failures(runId, rs) > 0)
      && (d == DiagnosticHold <==>
            d != BlockNewCalls && Failures(runId, rs) == 0 && costBudget != 0.0 && cost > costBudget)
      && (d == Warn <==>
            && Admits(d) && Failures(runId, rs) == 0
            && ((tokenBudget > 0 && 10 * tokens >= 8 * tokenBudget) ||
                (costBudget != 0.0 && 10.0 * cost >= 8.0 * costBudget)))
  {
  }

  lemma TotalsSnoc(runId: string, rs: seq<Record>, r: Record)
    ensures Tokens(runId, rs + [r]) == Tokens(runId, rs) + if r.runId == runId then r.totalTokens else 0
    ensures Cost(runId, rs + [r]) == Cost(runId, rs) + if r.runId == runId then r.totalCost else 0.0
    ensures Failures(runId, rs + [r]) == Failures(runId, rs) + if r.runId == runId then r.failedCalls else 0
  {
    assert (rs + [r])[..|rs|] == rs;
  }

  /** The total of a run is what its own records add up to, wherever records of other runs lie between them. */
  lemma {:induction false} TotalsSplit(runId: string, a: seq<Record>, b: seq<Record>)
    ensures Tokens(runId, a + b) == Tokens(runId, a) + Tokens(runId, b)
    ensures Cost(runId, a + b) == Cost(runId, a) + Cost(runId, b)
    ensures Failures(runId, a + b) == Failures(runId, a) + Failures(runId, b)
  {
    if b == [] {
      assert a + b == a;
    } else {
      var n := |b| - 1;
      TotalsSplit(runId, a, b[..n]);
      assert b == b[..n] + [b[n]] && a + b == (a + b[..n]) + [b[n]];
      TotalsSnoc(runId, a + b[..n], b[n]);
    }
  }
}
