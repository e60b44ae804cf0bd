/** The n8n API client (client.go): construction, request building and the
    `DoRequest` retry state machine, as pure functions over a script of server
    responses. */
module Client {
  import opened Optional
  import opened Strings
  import opened StrConv
  import opened Errors

  /** Retries allowed after the first send, for rate-limited responses only. */
  const MaxRetries: nat := 3
  /** The most sends one call can make. */
  const MaxAttempts: nat := MaxRetries + 1
  /** The build-time version string when no override is supplied. */
  const DefaultVersion: string := "dev"

  const StatusNoContent: int := 204
  const StatusTooManyRequests: int := 429
  /** Statuses at or above this one are errors. */
  const FirstErrorStatus: int := 300

  const HeaderUserAgent: string := "User-Agent"
  const HeaderContentType: string := "Content-Type"
  const HeaderAPIKey: string := "X-N8N-API-KEY"
  const UserAgentPrefix: string := "n8n-go/"
  const ContentTypeJSON: string := "application/json"

  /** The client configuration. The HTTP transport and its timeout are not
      part of the model. */
  datatype Client = Client(apiKey: string, baseURL: string)

  /** `NewClient`: keeps the key and stores the base URL with every trailing
      slash removed. */
  function NewClient(apiKey: string, baseURL: string): (c: Client)
    ensures c.apiKey == apiKey
    ensures |c.baseURL| == 0 || c.baseURL[|c.baseURL| - 1] != '/'
    ensures |c.baseURL| <= |baseURL| && c.baseURL == baseURL[..|c.baseURL|]
    ensures forall i :: |c.baseURL| <= i < |baseURL| ==> baseURL[i] == '/'
  {
    Client(apiKey, TrimRight(baseURL, {'/'}))
  }

  /** Request headers, one value per name, as `Header.Set` leaves them. */
  type Header = map<string, string>

  /** The headers `DoRequest` sets: the user agent, the JSON content type
      when a body is supplied, and the API key. */
  function RequestHeader(apiKey: string, version: string, hasBody: bool): (h: Header)
    ensures h.Keys == {HeaderUserAgent, HeaderAPIKey} + (if hasBody then {HeaderContentType} else {})
    ensures h[HeaderAPIKey] == apiKey
    ensures h[HeaderUserAgent] == UserAgentPrefix + version
    ensures hasBody ==> h[HeaderContentType] == ContentTypeJSON
  {
    var h := map[HeaderUserAgent := UserAgentPrefix + version];
    var h := if hasBody then h[HeaderContentType := ContentTypeJSON] else h;
    h[HeaderAPIKey := apiKey]
  }

  /** The request `DoRequest` builds once and sends on every attempt. */
  datatype Request = Request(verb: string, url: string, header: Header, hasBody: bool)

  /** The request for `endpoint`: its URL is the base URL followed by the
      endpoint, with nothing inserted or removed. */
  function NewRequest(c: Client, version: string, verb: string, endpoint: string, hasBody: bool): (r: Request)
    ensures |r.url| == |c.baseURL| + |endpoint|
    ensures r.url[..|c.baseURL|] == c.baseURL && r.url[|c.baseURL|..] == endpoint
    ensures r.verb == verb && r.hasBody == hasBody
  {
    Request(verb, c.baseURL + endpoint, RequestHeader(c.apiKey, version, hasBody), hasBody)
  }

  /** The fields that decoding an error body wrote under its `"error"` key:
      `None` where the body has no such field (or is not JSON at all). */
  datatype Envelope = Envelope(code: Option<string>, message: Option<string>)

  /** One server reply to one send, as the client observes it. The transport,
      the JSON decoder and the backoff timer are oracles:
      - transportOk: `http.Client.Do` returned a response;
      - readOk: the body was read in full;
      - retryAfter: the `Retry-After` header value, "" when absent;
      - envelope: what decoding the error envelope wrote;
      - decodeOk: the body decodes into the caller's target;
      - cancelledDuringBackoff: the context was done before the retry delay elapsed. */
  datatype Response = Response(
    transportOk: bool,
    readOk: bool,
    status: int,
    retryAfter: string,
    body: seq<byte>,
    envelope: Envelope,
    decodeOk: bool,
    cancelledDuringBackoff: bool)

  /** The delay, in seconds, before retrying a 429: the header's integer value
      when it is positive, else one second (the `Retry-After` field of section
      10.2.3 of RFC 9110, whose HTTP-date form is not understood here). */
  function RetryDelay(header: string): (secs: nat)
    ensures secs >= 1
  {
    match Atoi(header)
    case Some(n) => if n > 0 then n else 1
    case None => 1
  }

  const NanosPerSecond: int := 1_000_000_000

  /** Two's-complement wrap-around of a product into the signed 64-bit range
      of `time.Duration`. */
  function WrapInt64(x: int): (r: int)
    ensures MinInt64 <= r <= MaxInt64
    ensures (r - x) % 0x1_0000_0000_0000_0000 == 0
    ensures MinInt64 <= x <= MaxInt64 ==> r == x
  {
    if MinInt64 <= x <= MaxInt64 then x
    else (x - MinInt64) % 0x1_0000_0000_0000_0000 + MinInt64
  }

  /** The delay as the source computes it, in nanoseconds:
      `time.Duration(secs) * time.Second`, which wraps around for more than
      about 292 years of seconds. It agrees with `RetryDelay` whenever the
      product fits. */
  function RetryAfterAsWritten(header: string): (d: int)
    ensures MinInt64 <= d <= MaxInt64
    ensures RetryDelay(header) * NanosPerSecond <= MaxInt64 ==> d == RetryDelay(header) * NanosPerSecond
  {
    match Atoi(header)
    case Some(n) => if n > 0 then WrapInt64(n * NanosPerSecond) else NanosPerSecond
    case None => NanosPerSecond
  }

  /** An envelope field as the decoder leaves it: its text, or "" when the
      body did not carry it. */
  function FieldText(f: Option<string>): string {
    match f
    case Some(text) => text
    case None => ""
  }

  /** The error built from an error response before the retry check:
      status and raw body always, code and message only from the envelope. */
  function ResponseError(resp: Response): (e: APIError)
    ensures e.statusCode == resp.status && e.rawMessage == resp.body
    ensures e.code == (if resp.envelope.code.Some? then resp.envelope.code.value else "")
    ensures e.message == (if resp.envelope.message.Some? then resp.envelope.message.value else "")
    ensures e.retryAfter == 0
  {
    APIError(FieldText(resp.envelope.code), FieldText(resp.envelope.message), resp.status, resp.body, 0)
  }

  /** A response after which the loop waits and sends again: a fully read 429
      with attempts to spare whose backoff is not cancelled. The source's
      further condition, a positive delay, always holds by `RetryDelay`. */
  predicate Retries(resp: Response, attempt: nat)
    ensures Retries(resp, attempt) ==> resp.status == StatusTooManyRequests && attempt < MaxRetries
  {
    && resp.transportOk
    && resp.readOk
    && resp.status == StatusTooManyRequests
    && attempt < MaxRetries
    && !resp.cancelledDuringBackoff
  }

  /** The retry condition as the source writes it, on the wrapped nanosecond
      duration. It agrees with `Retries` whenever the delay fits the duration. */
  predicate RetriesAsWritten(resp: Response, attempt: nat)
    ensures RetryDelay(resp.retryAfter) * NanosPerSecond <= MaxInt64 ==>
      (RetriesAsWritten(resp, attempt) <==> Retries(resp, attempt))
  {
    && resp.transportOk
    && resp.readOk
    && resp.status == StatusTooManyRequests
    && RetryAfterAsWritten(resp.retryAfter) > 0
    && attempt < MaxRetries
    && !resp.cancelledDuringBackoff
  }

  /** What one pass of the loop body decides: return an error (or nil), or
      wait `delay` seconds and send again. */
  datatype Step = Return(err: Option<Error>) | Retry(delay: nat)

  /** One pass of the loop body for the given zero-based attempt. It yields
      `Retry` only when another attempt remains, so the loop never runs out
      of attempts without returning. */
  function Evaluate(resp: Response, attempt: nat, hasTarget: bool, errorOnNoContent: bool): (s: Step)
    ensures s.Retry? ==> attempt < MaxRetries
    ensures s.Retry? <==> Retries(resp, attempt)
    ensures s.Retry? ==> s.delay >= 1 && s.delay == RetryDelay(resp.retryAfter)
  {
    if !resp.transportOk then Return(Some(TransportErr))
    else if !resp.readOk then Return(Some(ReadErr))
    else if resp.status >= FirstErrorStatus then
      var apiErr := ResponseError(resp);
      var apiErr := if resp.status == StatusTooManyRequests
        then apiErr.(retryAfter := RetryDelay(resp.retryAfter)) else apiErr;
      if apiErr.statusCode == StatusTooManyRequests && apiErr.retryAfter > 0 && attempt < MaxRetries then
        if resp.cancelledDuringBackoff then Return(Some(Cancelled)) else Retry(apiErr.retryAfter)
      else Return(Some(ApiErr(apiErr)))
    else if resp.status == StatusNoContent then
      if errorOnNoContent then Return(Some(ApiErr(NoContentError))) else Return(None)
    else if hasTarget && !resp.decodeOk then Return(Some(DecodeErr(resp.body)))
    else Return(None)
  }

  /** The result of a call: the request it sends on every attempt (`None`
      when it could not be built), the error (`None` for nil), how many sends
      it made, and every backoff delay it waited out in full, in seconds. */
  datatype Outcome = Outcome(request: Option<Request>, err: Option<Error>, sends: nat, waits: seq<nat>)

  /** The loop from the given zero-based attempt on, with `server[k]` the
      reply to the k-th send of the call: it sends at least once and never
      more often than the attempts left, waiting once between two sends. */
  function Run(req: Request, server: seq<Response>, attempt: nat, hasTarget: bool, errorOnNoContent: bool): (o: Outcome)
    requires attempt <= MaxRetries && |server| >= MaxAttempts
    ensures 1 <= o.sends <= MaxAttempts - attempt
    ensures |o.waits| == o.sends - 1
    ensures o.request == Some(req)
    decreases MaxRetries - attempt
  {
    match Evaluate(server[attempt], attempt, hasTarget, errorOnNoContent)
    case Return(err) => Outcome(Some(req), err, 1, [])
    case Retry(delay) =>
      var rest := Run(req, server, attempt + 1, hasTarget, errorOnNoContent);
      rest.(sends := rest.sends + 1, waits := [delay] + rest.waits)
  }

  /** A final reply ends the loop at this send. */
  lemma RunFinalUnfold(req: Request, server: seq<Response>, attempt: nat, hasTarget: bool, errorOnNoContent: bool)
    requires attempt <= MaxRetries && |server| >= MaxAttempts
    requires Evaluate(server[attempt], attempt, hasTarget, errorOnNoContent).Return?
    ensures Run(req, server, attempt, hasTarget, errorOnNoContent)
         == Outcome(Some(req), Evaluate(server[attempt], attempt, hasTarget, errorOnNoContent).err, 1, [])
  {
  }

  /** A retried reply is followed by its delay and the rest of the loop. */
  lemma RunRetryUnfold(req: Request, server: seq<Response>, attempt: nat, hasTarget: bool, errorOnNoContent: bool)
    requires attempt <= MaxRetries && |server| >= MaxAttempts
    requires Evaluate(server[attempt], attempt, hasTarget, errorOnNoContent).Retry?
    ensures attempt < MaxRetries
    ensures var rest := Run(req, server, attempt + 1, hasTarget, errorOnNoContent);
      var delay := Evaluate(server[attempt], attempt, hasTarget, errorOnNoContent).delay;
      Run(req, server, attempt, hasTarget, errorOnNoContent)
        == Outcome(Some(req), rest.err, rest.sends + 1, [delay] + rest.waits)
  {
  }

  /** The reply to send `k` is retried after `delay` seconds. */
  predicate RetriedAfter(server: seq<Response>, k: nat, delay: nat)
    requires k < |server|
  {
    Retries(server[k], k) && delay == RetryDelay(server[k].retryAfter)
  }

  /** Each delay in `waits` follows a retryable reply, from `attempt` on. */
  ghost predicate WaitsFollowRetries(waits: seq<nat>, server: seq<Response>, attempt: nat)
    requires attempt + |waits| <= |server|
  {
    forall i :: 0 <= i < |waits| ==> RetriedAfter(server, attempt + i, waits[i])
  }

  lemma WaitsFollowRetriesCons(delay: nat, waits: seq<nat>, server: seq<Response>, attempt: nat)
    requires attempt + 1 + |waits| <= |server|
    requires RetriedAfter(server, attempt, delay)
    requires WaitsFollowRetries(waits, server, attempt + 1)
    ensures WaitsFollowRetries([delay] + waits, server, attempt)
  {
    var w := [delay] + waits;
    forall i | 0 <= i < |w|
      ensures RetriedAfter(server, attempt + i, w[i])
    {
      if i > 0 {
        assert w[i] == waits[i - 1];
        assert RetriedAfter(server, (attempt + 1) + (i - 1), waits[i - 1]);
      }
    }
  }

  /** What `RunShape` states of the loop from `attempt` on. */
  ghost predicate Shaped(o: Outcome, server: seq<Response>, attempt: nat, hasTarget: bool, errorOnNoContent: bool)
    requires |o.waits| + 1 == o.sends && attempt + o.sends <= |server|
  {
    && WaitsFollowRetries(o.waits, server, attempt)
    && Evaluate(server[attempt + o.sends - 1], attempt + o.sends - 1, hasTarget, errorOnNoContent) == Return(o.err)
  }

  lemma ShapedAfterRetry(rest: Outcome, server: seq<Response>, attempt: nat, delay: nat, hasTarget: bool, errorOnNoContent: bool)
    requires |rest.waits| + 1 == rest.sends && attempt + 1 + rest.sends <= |server|
    requires Shaped(rest, server, attempt + 1, hasTarget, errorOnNoContent)
    requires RetriedAfter(server, attempt, delay)
    ensures Shaped(rest.(sends := rest.sends + 1, waits := [delay] + rest.waits), server, attempt, hasTarget, errorOnNoContent)
  {
    WaitsFollowRetriesCons(delay, rest.waits, server, attempt);
    assert attempt + (rest.sends + 1) - 1 == attempt + 1 + rest.sends - 1;
  }

  /** Every send but the last was answered by a retryable 429 and followed by
      its delay; the last reply decides the result. */
  lemma {:induction false} RunShape(req: Request, server: seq<Response>, attempt: nat, hasTarget: bool, errorOnNoContent: bool)
    requires attempt <= MaxRetries && |server| >= MaxAttempts
    ensures Shaped(Run(req, server, attempt, hasTarget, errorOnNoContent), server, attempt, hasTarget, errorOnNoContent)
    decreases MaxRetries - attempt
  {
    var step := Evaluate(server[attempt], attempt, hasTarget, errorOnNoContent);
    if step.Return? {
      RunFinalUnfold(req, server, attempt, hasTarget, errorOnNoContent);
    } else {
      RunRetryUnfold(req, server, attempt, hasTarget, errorOnNoContent);
      RunShape(req, server, attempt + 1, hasTarget, errorOnNoContent);
      ShapedAfterRetry(Run(req, server, attempt + 1, hasTarget, errorOnNoContent), server, attempt, step.delay,
                       hasTarget, errorOnNoContent);
    }
  }

  /** `DoRequest`. `buildOk` says whether the request could be built (an
      invalid verb or URL makes it fail); `server` holds a reply for every
      send the call may make. The request is built once and sent unchanged
      on every attempt. */
  function DoRequest(c: Client, version: string, verb: string, endpoint: string,
                     hasBody: bool, hasTarget: bool, errorOnNoContent: bool,
                     buildOk: bool, server: seq<Response>): (o: Outcome)
    requires |server| >= MaxAttempts
    ensures o.sends <= MaxAttempts
    ensures !buildOk ==> o.err == Some(BuildErr) && o.sends == 0 && o.request == None
    ensures buildOk ==> o.sends >= 1 && o.request == Some(NewRequest(c, version, verb, endpoint, hasBody))
  {
    if !buildOk then Outcome(None, Some(BuildErr), 0, [])
    else Run(NewRequest(c, version, verb, endpoint, hasBody), server, 0, hasTarget, errorOnNoContent)
  }
}
