/** The governed model call: retries, the enlarged second request and the budget cut-off. */
module GovernedCall {
  import opened Wrappers
  import Usage

  datatype Code = Protocol | Transport | Server | Budget | Other(name: string)

  datatype Error = Error(
    code: Code, retryable: bool, subtype: Option<string>, providerCode: Option<string>,
    providerMessage: Option<string>, retryCount: nat)

  predicate OccursAt(text: string, part: string, k: int) {
    0 <= k <= |text| - |part| && text[k..k + |part|] == part
  }

  predicate Contains(text: string, part: string) {
    exists k :: 0 <= k <= |text| && OccursAt(text, part, k)
  }

  const LIMIT := "max_output_tokens"
  const TOKEN_LIMIT := "reason=max_output_tokens"

  predicate IsBoundedIncomplete(e: Error) {
    && e.subtype == Some("REFUSAL_OR_INCOMPLETE_RESPONSE")
    && e.providerCode == Some("incomplete")
    && Contains(if e.providerMessage.Some? then e.providerMessage.value else "", TOKEN_LIMIT)
  }

  function Min(a: int, b: int): int { if a < b then a else b }

  function Max(a: int, b: int): int { if a < b then b else a }

  function RetryOutputBudget(m: int): int { Min(32768, Max(m + 1024, m * 2)) }

  /** Twice what was asked for, or 1024 more if that is more, up to the cap. */
  lemma RetryBudgetIs(m: int)
    ensures RetryOutputBudget(m) == 32768 <==> m >= 16384
    ensures 1024 <= m <= 16384 ==> RetryOutputBudget(m) == m + m
    ensures m <= 1024 ==> RetryOutputBudget(m) == m + 1024
  {
  }

  /** The second request asks for more exactly below the cap, and never for more than the cap. */
  lemma RetryBudgetGrows(m: int)
    ensures RetryOutputBudget(m) <= 32768
    ensures RetryOutputBudget(m) > m <==> m < 32768
  {
  }

  // ----- the state of a response

  /** The `status` text of a response body. */
  datatype Status = Absent | Completed | StatusFailed | Incomplete | InProgress | Queued | Unexpected(text: string)

  datatype ResponseState = ResponseState(status: Status,
                                         error: Option<(Option<string>, Option<string>)>, reason: Option<string>)

  predicate IsSafe(c: char) {
    'A' <= c <= 'Z' || 'a' <= c <= 'z' || '0' <= c <= '9' || c == '_' || c == '.' || c == ':' || c == '-'
  }

  function Safe(s: string): (r: string)
    ensures forall c :: c in r ==> IsSafe(c)
  {
    if s == [] then [] else (if IsSafe(s[0]) then [s[0]] else []) + Safe(s[1..])
  }

  function Take(s: string, n: nat): string { if |s| <= n then s else s[..n] }

  const REASON := "status=incomplete; reason="

  function IncompleteMessage(reason: Option<string>): string {
    REASON + Take(Safe(if reason.Some? && reason.value != "" then reason.value else "unknown"), 80)
  }

  /** The reported reason is cut after eighty safe characters. */
  lemma MessageIsCut(reason: Option<string>)
    ensures var safe := Safe(if reason.Some? && reason.value != "" then reason.value else "unknown");
      IncompleteMessage(reason) == "status=incomplete; reason=" + if |safe| <= 80 then safe else safe[..80]
  {
  }

  /** The error a response's own state raises, if any. */
  function StateError(s: ResponseState): Option<Error> {
    if s.error.Some? then
      Some(Error(Protocol, s.status.Queued? || s.status.InProgress?, Some("HTTP_ERROR_ENVELOPE"),
                 s.error.value.0, s.error.value.1, 0))
    else if s.status.StatusFailed? then
      Some(Error(Server, false, Some("LLM_RESPONSE_FAILED"), Some("failed"), None, 0))
    else if s.status.Incomplete? then
      Some(Error(Protocol, false, Some("REFUSAL_OR_INCOMPLETE_RESPONSE"), Some("incomplete"),
                 Some(IncompleteMessage(s.reason)), 0))
    else if s.status.InProgress? then
      Some(Error(Protocol, true, Some("REFUSAL_OR_INCOMPLETE_RESPONSE"), None, None, 0))
    else if !s.status.Absent? && !s.status.Completed? then
      Some(Error(Protocol, false, Some("UNKNOWN_RESPONSE_SHAPE"), Some("unexpected_status"), None, 0))
    else None
  }

  /** The characters of `s` that are safe begin with `w`. */
  predicate StartsSafely(s: string, w: string) {
    if w == [] then true
    else if s == [] then false
    else if IsSafe(s[0]) then s[0] == w[0] && StartsSafely(s[1..], w[1..])
    else StartsSafely(s[1..], w)
  }

  /** The reported reason, read over unsafe characters, begins with `max_output_tokens`. */
  predicate LimitReason(reason: Option<string>) { reason.Some? && StartsSafely(reason.value, LIMIT) }

  lemma {:induction false} StartsSafelyIff(s: string, w: string)
    ensures StartsSafely(s, w) <==> w <= Safe(s)
  {
    if s != [] {
      if IsSafe(s[0]) {
        assert Safe(s) == [s[0]] + Safe(s[1..]);
        if w != [] {
          StartsSafelyIff(s[1..], w[1..]);
          assert w == [w[0]] + w[1..];
        }
      } else {
        StartsSafelyIff(s[1..], w);
      }
    }
  }

  lemma LimitReasonIff(reason: Option<string>)
    ensures LimitReason(reason) <==> LIMIT <= IncompleteMessage(reason)[|REASON|..]
  {
    var reported := if reason.Some? && reason.value != "" then reason.value else "unknown";
    StartsSafelyIff(reported, LIMIT);
    assert IncompleteMessage(reason)[|REASON|..] == Take(Safe(reported), 80);
    LimitLength();
    StartOfLimit();
    if reported == "unknown" {
      assert reported[0] == 'u';
      OtherStart(reported, LIMIT);
    }
  }

  lemma LimitLength()
    ensures |LIMIT| == 17
  {
  }

  lemma {:induction false} SafeAppend(a: string, b: string)
    ensures Safe(a + b) == Safe(a) + Safe(b)
  {
    if a == [] {
      assert a + b == b;
    } else {
      assert (a + b)[1..] == a[1..] + b;
      SafeAppend(a[1..], b);
    }
  }

  lemma {:induction false} LettersAreSafe(s: string)
    requires forall i :: 0 <= i < |s| ==> 'a' <= s[i] <= 'z' || s[i] == '_'
    ensures Safe(s) == s
  {
    if s != [] {
      LettersAreSafe(s[1..]);
      assert s == [s[0]] + s[1..];
    }
  }

  lemma SafePieces(a: string, b: string, c: string)
    requires Safe(a) == a && Safe(b) == b && Safe(c) == c
    ensures Safe(a + b + c) == a + b + c
  {
    SafeAppend(a + b, c);
    SafeAppend(a, b);
  }

  const LIMIT_START := "max_"
  const LIMIT_MIDDLE := "output_"
  const LIMIT_END := "tokens"

  lemma LimitPieces()
    ensures LIMIT == LIMIT_START + LIMIT_MIDDLE + LIMIT_END
  {
  }

  lemma StartIsSafe()
    ensures Safe(LIMIT_START) == LIMIT_START
  {
    LettersAreSafe(LIMIT_START);
  }

  lemma MiddleIsSafe()
    ensures Safe(LIMIT_MIDDLE) == LIMIT_MIDDLE
  {
    LettersAreSafe(LIMIT_MIDDLE);
  }

  lemma EndIsSafe()
    ensures Safe(LIMIT_END) == LIMIT_END
  {
    LettersAreSafe(LIMIT_END);
  }

  lemma LimitIsSafe()
    ensures Safe(LIMIT) == LIMIT
  {
    StartIsSafe();
    MiddleIsSafe();
    EndIsSafe();
    SafePieces(LIMIT_START, LIMIT_MIDDLE, LIMIT_END);
    LimitPieces();
  }

  lemma StartOfLimit()
    ensures LIMIT != [] && LIMIT[0] == 'm'
  {
  }

  lemma StartOfReason()
    ensures |REASON| == 26 && REASON[0] == 's'
  {
  }

  lemma OtherStart(s: string, w: string)
    requires s != [] && w != [] && s[0] != w[0] && 'a' <= s[0] <= 'z'
    ensures !StartsSafely(s, w)
  {
  }

  /** The reason a provider reports for an output that ran out counts; a filtered one does not. */
  lemma LimitReasons()
    ensures LimitReason(Some(LIMIT)) && !LimitReason(Some("content_filter")) && !LimitReason(None)
  {
    LimitIsSafe();
    StartsSafelyIff(LIMIT, LIMIT);
    StartOfLimit();
    assert "content_filter"[0] == 'c';
    OtherStart("content_filter", LIMIT);
  }

  /** Only an incomplete response whose sanitised reason starts with `max_output_tokens` counts as token-limited. */
  lemma TokenLimitedIff(s: ResponseState)
    requires StateError(s).Some?
    ensures IsBoundedIncomplete(StateError(s).value) <==>
      s.error.None? && s.status.Incomplete? && LimitReason(s.reason)
  {
    LimitReasonIff(s.reason);
    if s.error.None? && s.status.Incomplete? {
      var r := IncompleteMessage(s.reason)[|REASON|..];
      assert IncompleteMessage(s.reason) == REASON + r;
      assert forall c :: c in r ==> IsSafe(c);
      ReasonOccurs(r);
    }
  }

  /** '=' occurs in the message only at 6 and 25, so the marker can only start at 19. */
  lemma ReasonOccurs(r: string)
    requires forall c :: c in r ==> IsSafe(c)
    ensures Contains(REASON + r, TOKEN_LIMIT) <==> LIMIT <= r
  {
    var text := REASON + r;
    if LIMIT <= r {
      ReasonIsThere(r);
    }
    if Contains(text, TOKEN_LIMIT) {
      var k :| 0 <= k <= |text| && OccursAt(text, TOKEN_LIMIT, k);
      ReasonAt19(r, k);
    }
  }

  lemma ReasonIsThere(r: string)
    requires LIMIT <= r
    ensures OccursAt(REASON + r, TOKEN_LIMIT, 19)
  {
    var text := REASON + r;
    assert |REASON| == 26 && |TOKEN_LIMIT| == 24;
    assert text[19..43] == REASON[19..] + r[..17];
    assert REASON[19..] + LIMIT == TOKEN_LIMIT;
  }

  /** An occurrence agrees with the part character by character. */
  lemma OccurrenceAt(text: string, part: string, k: int, j: nat)
    requires OccursAt(text, part, k) && j < |part|
    ensures text[k + j] == part[j]
  {
    assert text[k..k + |part|][j] == part[j];
  }

  lemma NoEqualsAfter(r: string, i: nat)
    requires (forall c :: c in r ==> IsSafe(c)) && |REASON| <= i < |REASON + r|
    ensures (REASON + r)[i] != '='
  {
    assert r[i - |REASON|] in r;
  }

  lemma EqualsInText(r: string, i: nat)
    requires (forall c :: c in r ==> IsSafe(c)) && i < |REASON + r| && (REASON + r)[i] == '='
    ensures i == 6 || i == 25
  {
    if i < |REASON| {
      EqualsInReason(i);
    } else {
      NoEqualsAfter(r, i);
    }
  }

  lemma ReasonAt19(r: string, k: nat)
    requires (forall c :: c in r ==> IsSafe(c)) && OccursAt(REASON + r, TOKEN_LIMIT, k)
    ensures k == 19 && LIMIT <= r
  {
    OccurrenceAt(REASON + r, TOKEN_LIMIT, k, 0);
    OccurrenceAt(REASON + r, TOKEN_LIMIT, k, 6);
    EqualsInText(r, k + 6);
    StartOfReason();
    assert (REASON + r)[0] == REASON[0];
    ReasonFollows(r);
  }

  lemma LimitTail(j: nat)
    requires j < |LIMIT|
    ensures 7 + j < |TOKEN_LIMIT| && TOKEN_LIMIT[7 + j] == LIMIT[j]
  {
    assert |TOKEN_LIMIT| == 24 && TOKEN_LIMIT[7..] == LIMIT;
    assert TOKEN_LIMIT[7..][j] == LIMIT[j];
  }

  lemma ReasonFollows(r: string)
    requires OccursAt(REASON + r, TOKEN_LIMIT, 19)
    ensures LIMIT <= r
  {
    assert |REASON| == 26 && |TOKEN_LIMIT| == 24 && |LIMIT| == 17;
    forall j | 0 <= j < |LIMIT| ensures r[j] == LIMIT[j] {
      LimitTail(j);
      OccurrenceAt(REASON + r, TOKEN_LIMIT, 19, 7 + j);
    }
  }

  lemma EqualsInReason(i: nat)
    requires i < |REASON| && REASON[i] == '='
    ensures i == 6 || i == 25
  {
  }

  // ----- one call

  datatype Settings = Settings(maxRetries: nat, tokenBudget: nat, costBudget: real, inputPrice: real, outputPrice: real)

  datatype Call = Call(runId: string, maxOutputTokens: int)

  /** What one attempt meets. `problem` is a structured-output or usage error of a finished response. */
  datatype Outcome =
    | Unsent(e: Error)
    | Raised(e: Error)
    | Replied(state: ResponseState, problem: Option<Error>, inputTokens: nat, outputTokens: nat, totalTokens: nat)
    | Malformed(sent: bool)
    | Broken(sent: bool)

  type Provider = nat -> Outcome

  /** `limited` records whether the handler finds the error to be a token-limited response. */
  datatype Verdict = Returned(usage: Usage.Record) | Failed(e: Error, limited: bool) | Fatal(e: Error)

  datatype Sent = Sent(attempt: nat, maxOutputTokens: int, retryControls: bool)

  function RequestOf(c: Call, attempt: nat): Sent {
    var retryControls := attempt == 1;
    Sent(attempt, if retryControls then RetryOutputBudget(c.maxOutputTokens) else c.maxOutputTokens, retryControls)
  }

  predicate WasSent(o: Outcome) {
    match o
    case Unsent(_) => false
    case Malformed(sent) => sent
    case Broken(sent) => sent
    case _ => true
  }

  function Handled(e: Error): Verdict { Failed(e, IsBoundedIncomplete(e)) }

  function Judge(s: Settings, c: Call, prior: seq<Usage.Record>, attempt: nat, o: Outcome): Verdict {
    match o
    case Unsent(e) => Handled(e)
    case Raised(e) => Handled(e)
    case Replied(state, problem, inputTokens, outputTokens, totalTokens) =>
      var stateError := StateError(state);
      if stateError.Some? then
        var e := stateError.value;
        Handled(if IsBoundedIncomplete(e) && attempt == 0 then e.(retryable := true) else e)
      else if problem.Some? then Handled(problem.value)
      else
        var usage := Usage.Build(c.runId, inputTokens, outputTokens, Some(totalTokens),
                                 s.inputPrice, s.outputPrice, attempt, 0);
        if Usage.Admits(Usage.Decide(c.runId, prior + [usage], s.tokenBudget, s.costBudget)) then Returned(usage)
        else Handled(Error(Budget, false, None, None, None, 0))
    case Malformed(_) => Fatal(Error(Protocol, false, Some("UNKNOWN_RESPONSE_SHAPE"), None, None, 0))
    case Broken(_) => Fatal(Error(Transport, false, Some("LLM_INTERNAL_GATEWAY_ERROR"), None, None, 0))
  }

  /** Token-limited responses are retried once, from the first attempt; other errors within the transport allowance. */
  predicate Retries(s: Settings, attempt: nat, e: Error, limited: bool) {
    if limited then attempt == 0 else e.retryable && attempt < s.maxRetries
  }

  function MostAttempts(s: Settings): nat { Max(2, s.maxRetries + 1) }

  /** The verdicts the attempts of one call would get. */
  type Verdicts = nat -> Verdict

  function VerdictsOf(s: Settings, c: Call, prior: seq<Usage.Record>, provider: Provider): Verdicts {
    (attempt: nat) => Judge(s, c, prior, attempt, provider(attempt))
  }

  function CallResult(s: Settings, verdicts: Verdicts, attempt: nat): Result<Usage.Record, Error>
    requires attempt < MostAttempts(s)
    decreases MostAttempts(s) - attempt
  {
    match verdicts(attempt)
    case Returned(usage) => Ok(usage)
    case Fatal(e) => Err(e)
    case Failed(e, limited) =>
      if Retries(s, attempt, e, limited) then CallResult(s, verdicts, attempt + 1)
      else Err(e.(retryCount := attempt, retryable := e.retryable || limited))
  }

  predicate GoesOn(s: Settings, verdicts: Verdicts, attempt: nat) {
    var v := verdicts(attempt);
    v.Failed? && Retries(s, attempt, v.e, v.limited)
  }

  /** The requests that reach the transport from this attempt on. */
  function Sends(s: Settings, c: Call, provider: Provider, verdicts: Verdicts, attempt: nat): seq<Sent>
    requires attempt < MostAttempts(s)
    decreases MostAttempts(s) - attempt
  {
    var rest := if GoesOn(s, verdicts, attempt) then Sends(s, c, provider, verdicts, attempt + 1) else [];
    if WasSent(provider(attempt)) then [RequestOf(c, attempt)] + rest else rest
  }

  lemma SendsStep(s: Settings, c: Call, provider: Provider, verdicts: Verdicts, attempt: nat,
                  before: seq<Sent>, after: seq<Sent>)
    requires attempt < MostAttempts(s)
    requires after == if WasSent(provider(attempt)) then
        before + [RequestOf(c, attempt)]
      else before
    ensures before + Sends(s, c, provider, verdicts, attempt) ==
      after + if GoesOn(s, verdicts, attempt) then Sends(s, c, provider, verdicts, attempt + 1) else []
  {
  }

  /** How the loop handles an attempt: the call's result, or another attempt. */
  function AfterAttempt(s: Settings, attempt: nat, v: Verdict): Option<Result<Usage.Record, Error>> {
    match v
    case Returned(usage) => Some(Ok(usage))
    case Fatal(e) => Some(Err(e))
    case Failed(e, bounded) =>
      if bounded && attempt >= 1 then Some(Err(e.(retryable := true, retryCount := attempt)))
      else if !(bounded && attempt == 0) && (!e.retryable || attempt >= s.maxRetries) then
        Some(Err(e.(retryCount := attempt)))
      else None
  }

  // ----- the same in terms of what the provider did

  /** The attempt ended with a token-limited response, or an error that looks like one. */
  predicate TokenLimited(o: Outcome) {
    match o
    case Unsent(e) => IsBoundedIncomplete(e)
    case Raised(e) => IsBoundedIncomplete(e)
    case Replied(state, problem, _, _, _) =>
      && state.error.None?
      && (state.status.Incomplete? ==> LimitReason(state.reason))
      && (!state.status.Incomplete? ==> Usable(state) && problem.Some? && IsBoundedIncomplete(problem.value))
    case _ => false
  }

  /** The response has finished: completed, or without a status. */
  predicate Usable(state: ResponseState) { state.error.None? && (state.status.Completed? || state.status.Absent?) }

  /** The attempt ended with an error that may pass. */
  predicate Transient(o: Outcome) {
    match o
    case Unsent(e) => e.retryable
    case Raised(e) => e.retryable
    case Replied(state, problem, _, _, _) =>
      || state.status.InProgress?
      || (state.status.Queued? && state.error.Some?)
      || (Usable(state) && problem.Some? && problem.value.retryable)
    case _ => false
  }

  predicate Continues(s: Settings, o: Outcome, attempt: nat) {
    if TokenLimited(o) then attempt == 0 else Transient(o) && attempt < s.maxRetries
  }

  /** The attempt that decides the call. */
  function EndsAt(s: Settings, provider: Provider, attempt: nat): nat
    decreases MostAttempts(s) - attempt
  {
    if Continues(s, provider(attempt), attempt) then EndsAt(s, provider, attempt + 1) else attempt
  }

  /** The attempt returned a response that can be used, and paying for it keeps the run within its budgets. */
  predicate Delivers(s: Settings, c: Call, prior: seq<Usage.Record>, o: Outcome) {
    && o.Replied? && Usable(o.state) && o.problem.None?
    && (s.tokenBudget == 0 || Usage.Tokens(c.runId, prior) + o.totalTokens <= s.tokenBudget)
    && (Usage.Failures(c.runId, prior) > 0 || s.costBudget == 0.0 ||
        Usage.Cost(c.runId, prior) + Price(s, o) <= s.costBudget)
  }

  function Price(s: Settings, o: Outcome): real
    requires o.Replied?
  {
    o.inputTokens as real * s.inputPrice / 1000000.0 + o.outputTokens as real * s.outputPrice / 1000000.0
  }

  /** The record reports the tokens of the response and what they cost. */
  predicate Reports(s: Settings, c: Call, attempt: nat, o: Outcome, u: Usage.Record) {
    && o.Replied? && u.runId == c.runId && u.retryCount == attempt && u.failedCalls == 0
    && u.inputTokens == o.inputTokens && u.outputTokens == o.outputTokens && u.totalTokens == o.totalTokens
    && u.inputCost == o.inputTokens as real / 1000000.0 * s.inputPrice
    && u.outputCost == o.outputTokens as real / 1000000.0 * s.outputPrice
    && u.totalCost == u.inputCost + u.outputCost
  }

  lemma ContinuesIff(s: Settings, c: Call, prior: seq<Usage.Record>, provider: Provider, attempt: nat)
    ensures GoesOn(s, VerdictsOf(s, c, prior, provider), attempt) <==> Continues(s, provider(attempt), attempt)
  {
    var o := provider(attempt);
    if o.Replied? && StateError(o.state).Some? {
      TokenLimitedIff(o.state);
    }
  }

  lemma DeliversIff(s: Settings, c: Call, prior: seq<Usage.Record>, attempt: nat, o: Outcome)
    ensures Judge(s, c, prior, attempt, o).Returned? <==> Delivers(s, c, prior, o)
    ensures Delivers(s, c, prior, o) ==> Reports(s, c, attempt, o, Judge(s, c, prior, attempt, o).usage)
  {
    if o.Replied? && Usable(o.state) && o.problem.None? {
      var usage := Usage.Build(c.runId, o.inputTokens, o.outputTokens, Some(o.totalTokens),
                               s.inputPrice, s.outputPrice, attempt, 0);
      Usage.AdmittedIff(c.runId, prior + [usage], s.tokenBudget, s.costBudget);
      Usage.TotalsSnoc(c.runId, prior, usage);
      assert usage.totalCost == Price(s, o);
    }
  }

  /**
   A call succeeds if and only if the attempt that decides it got a usable response within the
   budgets, and then the usage returned reports that response.
   */
  lemma {:induction false} CallSucceedsIff(s: Settings, c: Call, prior: seq<Usage.Record>,
                                           provider: Provider, attempt: nat)
    requires attempt < MostAttempts(s)
    ensures var r, last := CallResult(s, VerdictsOf(s, c, prior, provider), attempt), EndsAt(s, provider, attempt);
      && (r.Ok? <==> Delivers(s, c, prior, provider(last)))
      && (r.Ok? ==> Reports(s, c, last, provider(last), r.value))
    decreases MostAttempts(s) - attempt
  {
    var verdicts := VerdictsOf(s, c, prior, provider);
    ContinuesIff(s, c, prior, provider, attempt);
    DeliversIff(s, c, prior, attempt, provider(attempt));
    AfterAttemptAgrees(s, verdicts, attempt);
    if GoesOn(s, verdicts, attempt) {
      CallSucceedsIff(s, c, prior, provider, attempt + 1);
    }
  }

  /** The provider answered or the transport raised, or the attempt broke down only after sending. */
  predicate Reaches(o: Outcome) {
    o.Raised? || o.Replied? || (o.Malformed? && o.sent) || (o.Broken? && o.sent)
  }

  /** The requests are those of exactly the attempts up to the deciding one that reach the transport. */
  lemma {:induction false} SendsIff(s: Settings, c: Call, prior: seq<Usage.Record>,
                                    provider: Provider, attempt: nat, sent: Sent)
    requires attempt < MostAttempts(s)
    ensures sent in Sends(s, c, provider, VerdictsOf(s, c, prior, provider), attempt) <==>
      exists j: nat :: attempt <= j <= EndsAt(s, provider, attempt) && Reaches(provider(j)) && sent == RequestOf(c, j)
    decreases MostAttempts(s) - attempt
  {
    var verdicts := VerdictsOf(s, c, prior, provider);
    ContinuesIff(s, c, prior, provider, attempt);
    AfterAttemptAgrees(s, verdicts, attempt);
    EndsLater(s, provider, attempt);
    if GoesOn(s, verdicts, attempt) {
      SendsIff(s, c, prior, provider, attempt + 1, sent);
    }
  }

  lemma {:induction false} EndsLater(s: Settings, provider: Provider, attempt: nat)
    ensures EndsAt(s, provider, attempt) >= attempt
    decreases MostAttempts(s) - attempt
  {
    if Continues(s, provider(attempt), attempt) {
      EndsLater(s, provider, attempt + 1);
    }
  }

  lemma AfterAttemptAgrees(s: Settings, verdicts: Verdicts, attempt: nat)
    requires attempt < MostAttempts(s)
    ensures AfterAttempt(s, attempt, verdicts(attempt)).None? <==> GoesOn(s, verdicts, attempt)
    ensures GoesOn(s, verdicts, attempt) ==> attempt + 1 < MostAttempts(s)
    ensures CallResult(s, verdicts, attempt) ==
      if GoesOn(s, verdicts, attempt) then CallResult(s, verdicts, attempt + 1)
      else AfterAttempt(s, attempt, verdicts(attempt)).value
  {
  }

  method CallLoop(s: Settings, c: Call, prior: seq<Usage.Record>, provider: Provider)
    returns (r: Result<Usage.Record, Error>, requests: seq<Sent>)
    ensures r == CallResult(s, VerdictsOf(s, c, prior, provider), 0)
    ensures requests == Sends(s, c, provider, VerdictsOf(s, c, prior, provider), 0)
    ensures |requests| <= 2 || |requests| <= s.maxRetries + 1
    ensures var last := EndsAt(s, provider, 0);
      && (r.Ok? <==> Delivers(s, c, prior, provider(last)))
      && (r.Ok? ==> Reports(s, c, last, provider(last), r.value))
  {
    CallSucceedsIff(s, c, prior, provider, 0);
    requests := [];
    ghost var verdicts := VerdictsOf(s, c, prior, provider);
    var attempt: nat := 0;
    while true
      invariant attempt < MostAttempts(s) && |requests| <= attempt
      invariant CallResult(s, verdicts, 0) == CallResult(s, verdicts, attempt)
      invariant Sends(s, c, provider, verdicts, 0) == requests + Sends(s, c, provider, verdicts, attempt)
      decreases MostAttempts(s) - attempt
    {
      var outcome := provider(attempt);
      ghost var before := requests;
      if WasSent(outcome) {
        requests := requests + [RequestOf(c, attempt)];
      }
      SendsStep(s, c, provider, verdicts, attempt, before, requests);
      var finished := AfterAttempt(s, attempt, Judge(s, c, prior, attempt, outcome));
      AfterAttemptAgrees(s, verdicts, attempt);
      if finished.Some? {
        return finished.value, requests;
      }
      attempt := attempt + 1;
    }
  }

  class Gateway {
    const settings: Settings
    var lastRequest: Option<Sent>

    constructor (settings: Settings)
      ensures this.settings == settings && lastRequest == None
    {
      this.settings := settings;
      lastRequest := None;
    }

    method Complete(c: Call, prior: seq<Usage.Record>, provider: Provider)
      returns (r: Result<Usage.Record, Error>, requests: seq<Sent>)
      modifies this
      ensures r == CallResult(settings, VerdictsOf(settings, c, prior, provider), 0)
      ensures requests == Sends(settings, c, provider, VerdictsOf(settings, c, prior, provider), 0)
      ensures |requests| <= 2 || |requests| <= settings.maxRetries + 1
      ensures var last := EndsAt(settings, provider, 0);
        && (r.Ok? <==> Delivers(settings, c, prior, provider(last)))
        && (r.Ok? ==> Reports(settings, c, last, provider(last), r.value))
      ensures lastRequest == if requests == [] then old(lastRequest) else Some(requests[|requests| - 1])
    {
      r, requests := CallLoop(settings, c, prior, provider);
      if requests != [] {
        lastRequest := Some(requests[|requests| - 1]);
      }
    }
  }

  // ----- what every sequence of outcomes satisfies

  lemma {:induction false} SendsShape(s: Settings, c: Call, provider: Provider, verdicts: Verdicts, attempt: nat)
    requires attempt < MostAttempts(s)
    ensures var sends := Sends(s, c, provider, verdicts, attempt);
      && |sends| <= MostAttempts(s) - attempt
      && (forall i :: 0 <= i < |sends| ==> attempt <= sends[i].attempt < MostAttempts(s))
      && (forall i, j :: 0 <= i < j < |sends| ==> sends[i].attempt < sends[j].attempt)
      && (forall i :: 0 <= i < |sends| ==>
            && (sends[i].retryControls <==> sends[i].attempt == 1)
            && sends[i].maxOutputTokens ==
                 if sends[i].attempt == 1 then RetryOutputBudget(c.maxOutputTokens) else c.maxOutputTokens)
    decreases MostAttempts(s) - attempt
  {
    if GoesOn(s, verdicts, attempt) {
      SendsShape(s, c, provider, verdicts, attempt + 1);
    }
  }

  /** Every request after the first follows attempts that the rules allow to be retried. */
  lemma {:induction false} RequestsAreJustified(s: Settings, c: Call, provider: Provider, verdicts: Verdicts,
                                                attempt: nat, sent: Sent, j: nat)
    requires attempt < MostAttempts(s) && sent in Sends(s, c, provider, verdicts, attempt)
    requires attempt <= j < sent.attempt
    ensures GoesOn(s, verdicts, j)
    decreases MostAttempts(s) - attempt
  {
    if GoesOn(s, verdicts, attempt) && attempt < j {
      RequestsAreJustified(s, c, provider, verdicts, attempt + 1, sent, j);
    }
  }

  /** A token-limited response ends the call from the second attempt on, reported as retryable. */
  lemma TokenLimitRetriedOnce(s: Settings, c: Call, prior: seq<Usage.Record>, provider: Provider, attempt: nat)
    requires 1 <= attempt < MostAttempts(s) && provider(attempt).Replied? && provider(attempt).state.error.None?
    requires provider(attempt).state.status.Incomplete?
    requires LimitReason(provider(attempt).state.reason)
    ensures CallResult(s, VerdictsOf(s, c, prior, provider), attempt).Err?
    ensures CallResult(s, VerdictsOf(s, c, prior, provider), attempt).error.retryable
    ensures CallResult(s, VerdictsOf(s, c, prior, provider), attempt).error.retryCount == attempt
    ensures |Sends(s, c, provider, VerdictsOf(s, c, prior, provider), attempt)| == 1
  {
    TokenLimitedIff(provider(attempt).state);
  }

  /** It does earn one retry, even when the transport allowance is zero. */
  lemma TokenLimitEarnsARetry(s: Settings, c: Call, prior: seq<Usage.Record>, provider: Provider)
    requires provider(0).Replied? && provider(0).state.error.None? && provider(0).state.status.Incomplete?
    requires LimitReason(provider(0).state.reason)
    ensures CallResult(s, VerdictsOf(s, c, prior, provider), 0) == CallResult(s, VerdictsOf(s, c, prior, provider), 1)
    ensures Sends(s, c, provider, VerdictsOf(s, c, prior, provider), 0) ==
      [Sent(0, c.maxOutputTokens, false)] + Sends(s, c, provider, VerdictsOf(s, c, prior, provider), 1)
  {
    TokenLimitedIff(provider(0).state);
  }

  /** An error that may pass leads to another attempt while the allowance lasts. */
  lemma TransientIsRetried(s: Settings, c: Call, prior: seq<Usage.Record>, provider: Provider, attempt: nat)
    requires attempt < s.maxRetries && Transient(provider(attempt)) && !TokenLimited(provider(attempt))
    ensures var verdicts := VerdictsOf(s, c, prior, provider);
      && CallResult(s, verdicts, attempt) == CallResult(s, verdicts, attempt + 1)
      && Sends(s, c, provider, verdicts, attempt) ==
           (if WasSent(provider(attempt)) then [RequestOf(c, attempt)] else []) +
           Sends(s, c, provider, verdicts, attempt + 1)
  {
    ContinuesIff(s, c, prior, provider, attempt);
    AfterAttemptAgrees(s, VerdictsOf(s, c, prior, provider), attempt);
  }

  /** A returned usage was admitted together with everything before it. */
  lemma {:induction false} ReturnedIsAdmitted(s: Settings, c: Call, prior: seq<Usage.Record>,
                                              provider: Provider, attempt: nat)
    requires attempt < MostAttempts(s) && CallResult(s, VerdictsOf(s, c, prior, provider), attempt).Ok?
    ensures var u := CallResult(s, VerdictsOf(s, c, prior, provider), attempt).value;
      && u.runId == c.runId && u.failedCalls == 0
      && Usage.Admits(Usage.Decide(c.runId, prior + [u], s.tokenBudget, s.costBudget))
    decreases MostAttempts(s) - attempt
  {
    assert VerdictsOf(s, c, prior, provider)(attempt) == Judge(s, c, prior, attempt, provider(attempt));
    if GoesOn(s, VerdictsOf(s, c, prior, provider), attempt) {
      ReturnedIsAdmitted(s, c, prior, provider, attempt + 1);
    }
  }

  // ----- sequences of calls

  /** Usages returned by calls made in order, each given all usages returned before it. */
  function Returns(s: Settings, calls: seq<(Call, Provider)>): seq<Usage.Record> {
    if calls == [] then []
    else
      var prior := Returns(s, calls[..|calls| - 1]);
      var (c, provider) := calls[|calls| - 1];
      var r := CallResult(s, VerdictsOf(s, c, prior, provider), 0);
      if r.Ok? then prior + [r.value] else prior
  }

  /** However calls for different runs interleave, no run ever spends more than a positive budget. */
  lemma {:induction false} BudgetsHold(s: Settings, calls: seq<(Call, Provider)>, runId: string)
    ensures Usage.Failures(runId, Returns(s, calls)) == 0
    ensures s.tokenBudget > 0 ==> Usage.Tokens(runId, Returns(s, calls)) <= s.tokenBudget
    ensures s.costBudget > 0.0 ==> Usage.Cost(runId, Returns(s, calls)) <= s.costBudget
  {
    if calls != [] {
      var earlier := calls[..|calls| - 1];
      var prior := Returns(s, earlier);
      var (c, provider) := calls[|calls| - 1];
      BudgetsHold(s, earlier, runId);
      var r := CallResult(s, VerdictsOf(s, c, prior, provider), 0);
      if r.Ok? {
        ReturnedIsAdmitted(s, c, prior, provider, 0);
        Usage.TotalsSnoc(runId, prior, r.value);
        Usage.AdmittedIff(c.runId, prior + [r.value], s.tokenBudget, s.costBudget);
      }
    }
  }
}
