/** The retry loop under every request (cli/src/http.ts) and the one refresh above it
    (cli/src/authenticatedRequest.ts), against a server that replays by idempotency key. */
module Http {
  import opened Wrappers
  import opened Strings

  datatype Content = JsonContent | ProblemContent | OtherContent

  datatype Response = Response(status: nat, content: Content, text: string, retryAfter: Option<string>)

  type Headers = map<string, string>

  datatype Value = Null | Json(text: string) | Text(text: string)

  datatype Failure =
    | NetworkFailure
    | Problem(status: nat, text: string)
    | HttpFailure(status: nat, text: string)
    | InvalidJson

  datatype RetryOptions = RetryOptions(maxAttempts: int, baseDelayMs: nat, maxDelayMs: nat)

  datatype Sleep = Backoff(ms: nat) | AskedFor(ms: nat)

  /** What lies outside: whether text is JSON, and how far off a date is. */
  datatype Outside = Outside(isJson: string -> bool, msUntil: string -> Option<int>)

  // ----- Headers --------------------------------------------------------------

  const IDEMPOTENCY_KEY := "idempotency-key"

  predicate HasIdempotencyKey(headers: Headers) {
    exists name | name in headers :: Lower(name) == IDEMPOTENCY_KEY
  }

  /** The key as the server sees it, whatever the header's spelling. */
  function KeyOf(headers: Headers): set<string> {
    set name | name in headers && Lower(name) == IDEMPOTENCY_KEY :: headers[name]
  }

  function WithAuthorizationHeader(headers: Headers, accessToken: Option<string>): Headers {
    if accessToken.Some? && accessToken.value != ""
    then headers["authorization" := "Bearer " + accessToken.value] else headers
  }

  /** A header of another length is not the key's. */
  lemma OtherHeader(headers: Headers, name: string, value: string)
    requires |name| != |IDEMPOTENCY_KEY|
    ensures KeyOf(headers[name := value]) == KeyOf(headers)
    ensures HasIdempotencyKey(headers[name := value]) <==> HasIdempotencyKey(headers)
  {
    var after := headers[name := value];
    forall other | Lower(other) == IDEMPOTENCY_KEY
      ensures other in after <==> other in headers
      ensures other in headers ==> after[other] == headers[other]
    {
      assert |Lower(other)| == |other|;
    }
  }

  /** A fresh access token goes out under the same key. */
  lemma AuthorizationKeepsKey(headers: Headers, accessToken: Option<string>)
    ensures KeyOf(WithAuthorizationHeader(headers, accessToken)) == KeyOf(headers)
    ensures HasIdempotencyKey(WithAuthorizationHeader(headers, accessToken)) <==> HasIdempotencyKey(headers)
  {
    if accessToken.Some? {
      OtherHeader(headers, "authorization", "Bearer " + accessToken.value);
    }
  }

  // ----- Delays ---------------------------------------------------------------

  function Min(a: int, b: int): int {
    if a < b then a else b
  }

  function Max(a: int, b: int): int {
    if a > b then a else b
  }

  function Pow2(n: nat): nat {
    if n == 0 then 1 else 2 * Pow2(n - 1)
  }

  function BackoffDelayMs(attempt: nat, options: RetryOptions): nat
    requires attempt >= 1
  {
    Min(options.maxDelayMs, options.baseDelayMs * Pow2(attempt - 1))
  }

  function ParseRetryAfterMs(headerValue: Option<string>, outside: Outside): Option<nat> {
    if headerValue.None? then None
    else
      var trimmed := Trim(headerValue.value);
      if trimmed == "" then None
      else if AllDigits(trimmed) then Some(DecimalValue(trimmed) * 1000)
      else
        match outside.msUntil(trimmed)
        case None => None
        case Some(ms) => Some(Max(0, ms))
  }

  // ----- One reply ------------------------------------------------------------

  predicate Success(status: nat) {
    200 <= status <= 299
  }

  /** How long to wait before the next attempt, if this reply calls for one. `None` for a
      reply means that none came. */
  function RetryDelay(reply: Option<Response>, attempt: nat, options: RetryOptions, outside: Outside): Option<Sleep>
    requires attempt >= 1
  {
    match reply
    case None => Some(Backoff(BackoffDelayMs(attempt, options)))
    case Some(r) =>
      var asked := ParseRetryAfterMs(r.retryAfter, outside);
      if r.status == 409 && asked.Some? then Some(AskedFor(Min(asked.value, options.maxDelayMs)))
      else if r.status >= 500 && r.text == "" then Some(Backoff(BackoffDelayMs(attempt, options)))
      else None
  }

  /** What the caller gets from a reply that is not retried. */
  function Outcome(reply: Option<Response>, outside: Outside): Result<Value, Failure> {
    match reply
    case None => Err(NetworkFailure)
    case Some(r) =>
      if r.status == 204 then Ok(Null)
      else if !Success(r.status) then
        if r.content.ProblemContent? then (if outside.isJson(r.text) then Err(Problem(r.status, r.text)) else Err(InvalidJson))
        else Err(HttpFailure(r.status, r.text))
      else if r.text == "" then Ok(Null)
      else if r.content.JsonContent? then (if outside.isJson(r.text) then Ok(Json(r.text)) else Err(InvalidJson))
      else Ok(Text(r.text))
  }

  /** The delay grows twofold from the base until it meets the maximum, and stays there. */
  lemma {:induction false} BackoffGrows(attempt: nat, options: RetryOptions)
    requires attempt >= 1
    ensures BackoffDelayMs(1, options) == Min(options.maxDelayMs, options.baseDelayMs)
    ensures BackoffDelayMs(attempt + 1, options) == Min(options.maxDelayMs, 2 * BackoffDelayMs(attempt, options))
  {
    assert options.baseDelayMs * Pow2(attempt) == 2 * (options.baseDelayMs * Pow2(attempt - 1)) by {
      assert Pow2(attempt) == 2 * Pow2(attempt - 1);
      Twofold(options.baseDelayMs, Pow2(attempt - 1));
    }
  }

  lemma Twofold(base: nat, p: nat)
    ensures base * (2 * p) == 2 * (base * p)
  {
  }

  /** `Retry-After` in seconds, with white space around it. */
  lemma SecondsAreRead(before: string, digits: string, after: string, outside: Outside)
    requires AllDigits(digits) && AllSpace(before) && AllSpace(after)
    ensures ParseRetryAfterMs(Some(before + digits + after), outside) == Some(1000 * DecimalValue(digits))
  {
    TrimAround(before, digits, after);
  }

  /** A reply is retried only if it says that nothing was decided: none came, the request is
      still being worked on and the server says when to ask again, or the server failed
      without a word. So no success is, and no other refusal. */
  lemma RetriedOnly(reply: Option<Response>, attempt: nat, options: RetryOptions, outside: Outside)
    requires attempt >= 1
    ensures RetryDelay(reply, attempt, options, outside).Some? <==>
      match reply
      case None => true
      case Some(r) => (r.status == 409 && ParseRetryAfterMs(r.retryAfter, outside).Some?) || (r.status >= 500 && r.text == "")
    ensures reply.Some? && RetryDelay(reply, attempt, options, outside).Some? ==> Outcome(reply, outside).Err?
    ensures RetryDelay(reply, attempt, options, outside).Some? && (reply.None? || reply.value.status != 409) ==>
      RetryDelay(reply, attempt, options, outside) == Some(Backoff(BackoffDelayMs(attempt, options)))
    ensures reply.Some? && reply.value.status == 409 && RetryDelay(reply, attempt, options, outside).Some? ==>
      var asked := ParseRetryAfterMs(reply.value.retryAfter, outside).value;
      RetryDelay(reply, attempt, options, outside) == Some(AskedFor(if asked <= options.maxDelayMs then asked else options.maxDelayMs))
  {
  }

  /** What the caller gets, told from what it gets: nothing from an empty success, JSON and
      text as sent, a problem as the server describes it, and else the status. */
  lemma OutcomeExactly(r: Response, outside: Outside)
    ensures Outcome(Some(r), outside) == Ok(Null) <==> r.status == 204 || (Success(r.status) && r.text == "")
    ensures forall text :: Outcome(Some(r), outside) == Ok(Json(text)) <==>
      Success(r.status) && r.status != 204 && text == r.text != "" && r.content.JsonContent? && outside.isJson(text)
    ensures forall text :: Outcome(Some(r), outside) == Ok(Text(text)) <==>
      Success(r.status) && r.status != 204 && text == r.text != "" && !r.content.JsonContent?
    ensures forall status, text :: Outcome(Some(r), outside) == Err(Problem(status, text)) <==>
      status == r.status && text == r.text && !Success(status) && r.content.ProblemContent? && outside.isJson(text)
    ensures forall status, text :: Outcome(Some(r), outside) == Err(HttpFailure(status, text)) <==>
      status == r.status && text == r.text && !Success(status) && !r.content.ProblemContent?
    ensures Outcome(Some(r), outside) != Err(NetworkFailure) && Outcome(None, outside) == Err(NetworkFailure)
  {
  }

  // ----- The server and the network -------------------------------------------

  /** A keyed mutation is answered from what was stored, or turned away while it runs. */
  datatype Stored = Running | Finished(response: Response)

  /** What happens to one attempt. A request can be lost on its way there, and a reply on
      its way back; the server runs a new mutation, or turns the request away unexecuted. */
  datatype Fate = LostThere | Handled(decision: Decision, replyLost: bool)

  datatype Decision = Execute(response: Response, atOnce: bool) | TurnAway(response: Response)

  datatype Attempt = Attempt(headers: Headers, reply: Option<Response>)

  datatype ServerState = ServerState(stored: map<set<string>, Stored>, executed: multiset<set<string>>)

  /** Busy with the same key: 409, and when to come back. */
  const CONFLICT := Response(409, ProblemContent, "{}", Some("1"))

  function Handle(s: ServerState, key: set<string>, decision: Decision): (ServerState, Response) {
    if key in s.stored && s.stored[key].Finished? then (s, s.stored[key].response)
    else if key in s.stored then
      // The running mutation may finish now.
      match decision
      case Execute(response, true) => (s.(stored := s.stored[key := Finished(response)]), response)
      case _ => (s, CONFLICT)
    else
      match decision
      case TurnAway(response) => (s, if Success(response.status) then CONFLICT else response)
      case Execute(response, atOnce) =>
        (s.(stored := s.stored[key := if atOnce then Finished(response) else Running],
            executed := s.executed + multiset{key}),
         if atOnce then response else CONFLICT)
  }

  /** Only stored mutations were executed, and each of them once. */
  ghost predicate AtMostOnce(s: ServerState) {
    forall key :: s.executed[key] == if key in s.stored then 1 else 0
  }

  class Server {
    var state: ServerState
    /** Everything sent so far, with what came back. */
    var log: seq<Attempt>

    /** `fetch`: one attempt, which may get a reply or not. */
    method Fetch(headers: Headers, fate: Fate) returns (reply: Option<Response>)
      requires HasIdempotencyKey(headers) ==> AtMostOnce(state)
      modifies this
      ensures log == old(log) + [Attempt(headers, reply)]
      ensures HasIdempotencyKey(headers) ==> AtMostOnce(state) && Replayed(old(state), state, KeyOf(headers), reply)
    {
      reply := None;
      if fate.Handled? && HasIdempotencyKey(headers) {
        var (next, response) := Handle(state, KeyOf(headers), fate.decision);
        state := next;
        if !fate.replyLost {
          reply := Some(response);
        }
      } else if fate.Handled? && !fate.replyLost {
        reply := Some(fate.decision.response);
      }
      log := log + [Attempt(headers, reply)];
    }
  }

  /** Other keys are untouched, and a success is the stored response of the one execution. */
  ghost predicate Replayed(before: ServerState, after: ServerState, key: set<string>, reply: Option<Response>) {
    && (forall other | other != key ::
          && (other in before.stored <==> other in after.stored)
          && (other in before.stored ==> before.stored[other] == after.stored[other]))
    && (key in before.stored ==> key in after.stored)
    && (key in before.stored && before.stored[key].Finished? ==> after.stored[key] == before.stored[key])
    && (reply.Some? && Success(reply.value.status) ==> key in after.stored && after.stored[key] == Finished(reply.value))
  }

  // ----- The retry loop -------------------------------------------------------

  function MaxAttempts(headers: Headers, retry: Option<RetryOptions>): nat {
    if retry.Some? && HasIdempotencyKey(headers) then Max(1, retry.value.maxAttempts) else 1
  }

  /** The delays of the attempts before the last. */
  ghost predicate SleptBetween(attempts: seq<Attempt>, sleeps: seq<Sleep>, retry: Option<RetryOptions>, outside: Outside) {
    && |attempts| == |sleeps| + 1
    && (forall k | 0 <= k < |sleeps| ::
          retry.Some? && RetryDelay(attempts[k].reply, k + 1, retry.value, outside) == Some(sleeps[k]))
  }

  function BackoffTotal(sleeps: seq<Sleep>): nat {
    if sleeps == [] then 0
    else BackoffTotal(sleeps[..|sleeps| - 1]) + (if sleeps[|sleeps| - 1].Backoff? then sleeps[|sleeps| - 1].ms else 0)
  }

  lemma {:induction false} SleepsBounded(attempts: seq<Attempt>, sleeps: seq<Sleep>, options: RetryOptions, outside: Outside)
    requires SleptBetween(attempts, sleeps, Some(options), outside)
    ensures forall k | 0 <= k < |sleeps| :: sleeps[k].ms <= options.maxDelayMs
    ensures BackoffTotal(sleeps) <= options.baseDelayMs * (Pow2(|sleeps|) - 1)
    decreases |sleeps|
  {
    if sleeps != [] {
      var n := |sleeps| - 1;
      SleepsBounded(attempts[..|attempts| - 1], sleeps[..n], options, outside);
      assert RetryDelay(attempts[n].reply, n + 1, options, outside) == Some(sleeps[n]);
      assert sleeps[n].Backoff? ==> sleeps[n].ms <= options.baseDelayMs * Pow2(n);
      Distribute(options.baseDelayMs, Pow2(n));
    }
  }

  lemma Distribute(base: nat, p: nat)
    ensures base * (p - 1) + base * p == base * (2 * p - 1)
  {
  }

  /** What one call of `request` did: so many attempts with one and the same request, a
      delay after each that called for one, and the outcome of the last. */
  ghost predicate Requested(before: seq<Attempt>, after: seq<Attempt>, headers: Headers, retry: Option<RetryOptions>,
                            sleeps: seq<Sleep>, r: Result<Value, Failure>, outside: Outside) {
    && before < after
    && var attempts := after[|before|..];
      && (forall k | 0 <= k < |attempts| :: attempts[k].headers == headers)
      && SleptBetween(attempts, sleeps, retry, outside)
      && |attempts| <= MaxAttempts(headers, retry)
      && r == Outcome(attempts[|attempts| - 1].reply, outside)
      && (|attempts| < MaxAttempts(headers, retry) ==>
            retry.Some? && RetryDelay(attempts[|attempts| - 1].reply, |attempts|, retry.value, outside) == None)
  }

  /** Of two keyed calls in a row, or one: the state the server is left in. */
  ghost predicate OnceMore(before: ServerState, after: ServerState, key: set<string>) {
    && AtMostOnce(after)
    && (forall other | other != key :: after.executed[other] == before.executed[other])
    && (key in before.stored ==> key in after.stored && after.executed[key] == before.executed[key])
    && (key in before.stored && before.stored[key].Finished? ==> after.stored[key] == before.stored[key])
  }

  method Request(server: Server, headers: Headers, retry: Option<RetryOptions>, fates: nat -> Fate, outside: Outside)
    returns (r: Result<Value, Failure>, sleeps: seq<Sleep>)
    requires HasIdempotencyKey(headers) ==> AtMostOnce(server.state)
    modifies server
    ensures Requested(old(server.log), server.log, headers, retry, sleeps, r, outside)
    ensures HasIdempotencyKey(headers) ==> OnceMore(old(server.state), server.state, KeyOf(headers))
    ensures HasIdempotencyKey(headers) && r.Ok? ==>
      && KeyOf(headers) in server.state.stored && server.state.stored[KeyOf(headers)].Finished?
      && r == Outcome(Some(server.state.stored[KeyOf(headers)].response), outside)
  {
    hide RetryDelay, Outcome, HasIdempotencyKey, KeyOf;
    var retryable := retry.Some? && HasIdempotencyKey(headers);
    var maxAttempts := if retryable then Max(1, retry.value.maxAttempts) else 1;
    sleeps := [];
    var attempt: nat := 1;
    ghost var start := server.log;
    while true
      invariant 1 <= attempt <= maxAttempts == MaxAttempts(headers, retry) && retryable == (retry.Some? && HasIdempotencyKey(headers))
      invariant start <= server.log && |server.log| == |start| + attempt - 1 && |sleeps| == attempt - 1
      invariant forall k | |start| <= k < |server.log| :: server.log[k].headers == headers
      invariant forall k | 0 <= k < |sleeps| ::
        retry.Some? && RetryDelay(server.log[|start| + k].reply, k + 1, retry.value, outside) == Some(sleeps[k])
      invariant HasIdempotencyKey(headers) ==>
        AtMostOnce(server.state) && OnceMore(old(server.state), server.state, KeyOf(headers))
      decreases maxAttempts - attempt
    {
      var canRetry := retryable && attempt < maxAttempts;
      var reply := server.Fetch(headers, fates(attempt));
      if canRetry {
        var delay := RetryDelay(reply, attempt, retry.value, outside);
        if delay.Some? {
          sleeps := sleeps + [delay.value];
          attempt := attempt + 1;
          continue;
        }
      }
      r := Outcome(reply, outside);
      if r.Ok? {
        OkIsSuccess(reply, outside);
      }
      return;
    }
  }

  lemma OkIsSuccess(reply: Option<Response>, outside: Outside)
    requires Outcome(reply, outside).Ok?
    ensures reply.Some? && Success(reply.value.status)
  {
  }

  // ----- One authenticated request --------------------------------------------

  /** What comes of a refused stored login: the token of a session refreshed or adopted
      under the lock, a login that is rejected for good (every token login is), or a refresh
      that fails for another reason. */
  datatype Refresh = NewSession(accessToken: string) | Rejected | RefreshFailed(failure: Failure)

  datatype Auth = NoAuth | Explicit(accessToken: string) | Stored(accessToken: string, afterRefused: Refresh)

  datatype AuthFailure = Plain(failure: Failure) | SignInAgain

  function AccessTokenFor(auth: Auth): Option<string> {
    if auth.NoAuth? then None else Some(auth.accessToken)
  }

  /** 401 with a problem the server calls `authentication-required`. */
  predicate AuthenticationRequired(failure: Failure, isAuthProblem: string -> bool) {
    failure.Problem? && failure.status == 401 && isAuthProblem(failure.text)
  }

  /** The delays of one call: none longer than the maximum, and the backoff a geometric sum. */
  ghost predicate DelaysOk(sleeps: seq<Sleep>, headers: Headers, retry: Option<RetryOptions>) {
    && |sleeps| < MaxAttempts(headers, retry)
    && (retry.Some? ==>
          && (forall k | 0 <= k < |sleeps| :: sleeps[k].ms <= retry.value.maxDelayMs)
          && BackoffTotal(sleeps) <= retry.value.baseDelayMs * (Pow2(|sleeps|) - 1))
  }

  /** One or more calls' worth of attempts, all under the key of `headers`. */
  ghost predicate SentUnderKey(before: seq<Attempt>, after: seq<Attempt>, headers: Headers, most: nat) {
    && before < after && |after| - |before| <= most
    && (forall k | |before| <= k < |after| :: KeyOf(after[k].headers) == KeyOf(headers))
  }

  /** The caller's headers with that access token in place, or just as they are without one. */
  ghost predicate Carries(sent: Headers, headers: Headers, accessToken: Option<string>) {
    if accessToken == None || accessToken == Some("") then sent == headers
    else
      && "authorization" in sent && sent["authorization"] == "Bearer " + accessToken.value
      && (forall name | name != "authorization" :: (name in sent <==> name in headers) && (name in headers ==> sent[name] == headers[name]))
  }

  ghost predicate AllCarry(attempts: seq<Attempt>, headers: Headers, accessToken: Option<string>) {
    forall k | 0 <= k < |attempts| :: Carries(attempts[k].headers, headers, accessToken)
  }

  /** The attempts before the `middle` carry the token at hand. The ones after it carry the
      new session's, and there are some exactly when the server refused a stored login and
      there is a new session. */
  ghost predicate SentInTurn(before: seq<Attempt>, after: seq<Attempt>, middle: nat, headers: Headers, auth: Auth,
                             outside: Outside, isAuthProblem: string -> bool) {
    && |before| < middle <= |after| && before <= after
    && AllCarry(after[|before|..middle], headers, if auth.NoAuth? then None else Some(auth.accessToken))
    && (middle < |after| <==>
          && auth.Stored? && auth.afterRefused.NewSession?
          && var first := Outcome(after[middle - 1].reply, outside); first.Err? && AuthenticationRequired(first.error, isAuthProblem))
    && (middle < |after| && auth.Stored? && auth.afterRefused.NewSession? ==>
          AllCarry(after[middle..], headers, Some(auth.afterRefused.accessToken)))
  }

  /** A success is the response of the key's one execution. */
  ghost predicate SuccessIsStored(state: ServerState, key: set<string>, r: Result<Value, Failure>, outside: Outside) {
    r.Ok? ==>
      && key in state.stored && state.stored[key].Finished?
      && Outcome(Some(state.stored[key].response), outside) == r
  }

  method PerformAuthenticatedRequest(server: Server, headers: Headers, accessToken: Option<string>, retry: Option<RetryOptions>,
                                     fates: nat -> Fate, outside: Outside)
    returns (r: Result<Value, Failure>, sleeps: seq<Sleep>)
    requires HasIdempotencyKey(headers) ==> AtMostOnce(server.state)
    modifies server
    ensures SentUnderKey(old(server.log), server.log, headers, MaxAttempts(headers, retry))
    ensures DelaysOk(sleeps, headers, retry)
    ensures AllCarry(server.log[|old(server.log)|..], headers, accessToken)
    ensures HasIdempotencyKey(headers) ==>
      OnceMore(old(server.state), server.state, KeyOf(headers)) && SuccessIsStored(server.state, KeyOf(headers), r, outside)
    ensures r == Outcome(server.log[|server.log| - 1].reply, outside)
  {
    hide Requested, AllCarry, SentUnderKey, DelaysOk, MaxAttempts, Outcome, HasIdempotencyKey, KeyOf, WithAuthorizationHeader;
    ghost var start := server.log;
    var sent := WithAuthorizationHeader(headers, accessToken);
    AuthorizationKeepsKey(headers, accessToken);
    r, sleeps := Request(server, sent, retry, fates, outside);
    RequestedUnderKey(start, server.log, headers, accessToken, retry, sleeps, r, outside);
  }

  lemma TokenIsCarried(headers: Headers, accessToken: Option<string>)
    ensures Carries(WithAuthorizationHeader(headers, accessToken), headers, accessToken)
  {
  }

  /** The same, said of the caller's headers. */
  lemma RequestedUnderKey(before: seq<Attempt>, after: seq<Attempt>, headers: Headers, accessToken: Option<string>,
                          retry: Option<RetryOptions>, sleeps: seq<Sleep>, r: Result<Value, Failure>, outside: Outside)
    requires Requested(before, after, WithAuthorizationHeader(headers, accessToken), retry, sleeps, r, outside)
    ensures SentUnderKey(before, after, headers, MaxAttempts(headers, retry))
    ensures AllCarry(after[|before|..], headers, accessToken)
    ensures DelaysOk(sleeps, headers, retry) && r == Outcome(after[|after| - 1].reply, outside)
  {
    hide Outcome, RetryDelay, HasIdempotencyKey, KeyOf, WithAuthorizationHeader, Carries;
    AuthorizationKeepsKey(headers, accessToken);
    TokenIsCarried(headers, accessToken);
    var attempts := after[|before|..];
    if retry.Some? {
      SleepsBounded(attempts, sleeps, retry.value, outside);
    }
    forall k | |before| <= k < |after| ensures KeyOf(after[k].headers) == KeyOf(headers) {
      assert after[k] == attempts[k - |before|];
    }
  }

  lemma TwiceIsOnceMore(a: ServerState, b: ServerState, c: ServerState, key: set<string>)
    requires OnceMore(a, b, key) && OnceMore(b, c, key)
    ensures OnceMore(a, c, key)
  {
  }

  /** The server refused the call's token, and there is a new session's to go on with. */
  ghost predicate GoesOn(log: seq<Attempt>, auth: Auth, outside: Outside, isAuthProblem: string -> bool)
    requires log != []
  {
    && auth.Stored? && auth.afterRefused.NewSession?
    && var first := Outcome(log[|log| - 1].reply, outside); first.Err? && AuthenticationRequired(first.error, isAuthProblem)
  }

  lemma OneCall(start: seq<Attempt>, called: seq<Attempt>, headers: Headers, auth: Auth, outside: Outside,
                isAuthProblem: string -> bool, most: nat)
    requires SentUnderKey(start, called, headers, most) && AllCarry(called[|start|..], headers, AccessTokenFor(auth))
    ensures called != [] && SentUnderKey(start, called, headers, 2 * most)
    ensures !GoesOn(called, auth, outside, isAuthProblem) ==> SentInTurn(start, called, |called|, headers, auth, outside, isAuthProblem)
  {
    hide AllCarry, Outcome;
    assert called[|start|..|called|] == called[|start|..];
  }

  lemma TwoCalls(start: seq<Attempt>, called: seq<Attempt>, log: seq<Attempt>, headers: Headers, auth: Auth, outside: Outside,
                 isAuthProblem: string -> bool, most: nat)
    requires SentUnderKey(start, called, headers, most) && AllCarry(called[|start|..], headers, AccessTokenFor(auth))
    requires SentUnderKey(called, log, headers, most) && called != [] && GoesOn(called, auth, outside, isAuthProblem)
    requires AllCarry(log[|called|..], headers, Some(auth.afterRefused.accessToken))
    ensures SentUnderKey(start, log, headers, 2 * most)
    ensures SentInTurn(start, log, |called|, headers, auth, outside, isAuthProblem)
  {
    hide AllCarry, Outcome, KeyOf;
    assert log[|start|..|called|] == called[|start|..];
    assert log[|called| - 1] == called[|called| - 1];
    forall k | |start| <= k < |log| ensures KeyOf(log[k].headers) == KeyOf(headers) {
      if k < |called| {
        assert log[k] == called[k];
      }
    }
  }

  /** However requests and replies are lost, turned away or refused on the way: the keyed
      mutation runs at most once, at most twice the allowed attempts go out, all under one
      key, and a success is the response of its one execution. A second call is made only
      for a stored login that the server refused and that could be refreshed. */
  method AuthenticatedRequest(server: Server, headers: Headers, auth: Auth, retry: Option<RetryOptions>,
                              fates: nat -> Fate, laterFates: nat -> Fate, outside: Outside, isAuthProblem: string -> bool)
    returns (r: Result<Value, AuthFailure>, first: seq<Sleep>, second: seq<Sleep>)
    requires HasIdempotencyKey(headers) ==> AtMostOnce(server.state)
    modifies server
    ensures SentUnderKey(old(server.log), server.log, headers, 2 * MaxAttempts(headers, retry))
    ensures !(auth.Stored? && auth.afterRefused.NewSession?) ==>
      SentUnderKey(old(server.log), server.log, headers, MaxAttempts(headers, retry)) && second == []
    ensures DelaysOk(first, headers, retry) && DelaysOk(second, headers, retry)
    ensures exists middle: nat :: SentInTurn(old(server.log), server.log, middle, headers, auth, outside, isAuthProblem)
    ensures HasIdempotencyKey(headers) ==> OnceMore(old(server.state), server.state, KeyOf(headers))
    ensures HasIdempotencyKey(headers) && r.Ok? ==> SuccessIsStored(server.state, KeyOf(headers), Ok(r.value), outside)
    ensures r.Err? ==>
      var last := Outcome(server.log[|server.log| - 1].reply, outside);
      last.Err? &&
        if auth.Stored? && !auth.afterRefused.NewSession? && AuthenticationRequired(last.error, isAuthProblem)
        then r.error == (if auth.afterRefused.Rejected? then SignInAgain else Plain(auth.afterRefused.failure))
        else r.error == Plain(last.error)
  {
    hide SentUnderKey, AllCarry, SentInTurn, MaxAttempts, Outcome, AuthenticationRequired, HasIdempotencyKey, KeyOf;
    second := [];
    ghost var before := server.state;
    var result;
    ghost var start := server.log;
    result, first := PerformAuthenticatedRequest(server, headers, AccessTokenFor(auth), retry, fates, outside);
    ghost var called := server.log;
    OneCall(start, called, headers, auth, outside, isAuthProblem, MaxAttempts(headers, retry));
    if result.Ok? {
      r := Ok(result.value);
    } else if !auth.Stored? || !AuthenticationRequired(result.error, isAuthProblem) {
      r := Err(Plain(result.error));
    } else if auth.afterRefused.Rejected? {
      r := Err(SignInAgain);
    } else if auth.afterRefused.RefreshFailed? {
      r := Err(Plain(auth.afterRefused.failure));
    } else {
      ghost var middle := server.state;
      result, second := PerformAuthenticatedRequest(server, headers, Some(auth.afterRefused.accessToken), retry, laterFates, outside);
      if HasIdempotencyKey(headers) {
        TwiceIsOnceMore(before, middle, server.state, KeyOf(headers));
      }
      r := if result.Ok? then Ok(result.value) else Err(Plain(result.error));
      TwoCalls(start, called, server.log, headers, auth, outside, isAuthProblem, MaxAttempts(headers, retry));
    }
  }
}
