/** Properties of the client: construction, request building, the retry
    delay, and the outcome of `DoRequest` against any script of replies. */
module ClientProperties {
  import opened Optional
  import opened Strings
  import opened StrConv
  import opened Errors
  import opened Client

  /* ---------------- Construction and request building ---------------- */

  /** The stored base URL has no trailing slash, the raw input is the base URL
      followed only by slashes, and normalising again changes nothing. */
  lemma BaseURLNormalised(apiKey: string, raw: string)
    ensures var c := NewClient(apiKey, raw);
      && TrimRight(c.baseURL, {'/'}) == c.baseURL
      && NewClient(apiKey, c.baseURL) == c
      && raw == c.baseURL + raw[|c.baseURL|..]
      && (forall i :: |c.baseURL| <= i < |raw| ==> raw[i] == '/')
  {
    TrimRightIdempotent(raw, {'/'});
  }

  /** The two base URLs of the construction test. */
  lemma BaseURLExamples()
    ensures NewClient("my-apikey", "https://api.n8n.io/").baseURL == "https://api.n8n.io"
    ensures NewClient("my-apikey", "https://example.com").baseURL == "https://example.com"
  {
    TrimRightUnique("https://api.n8n.io/", {'/'}, "https://api.n8n.io", "/");
    TrimRightUnique("https://example.com", {'/'}, "https://example.com", "");
  }

  /** Whatever run of slashes ends the raw base URL, an endpoint starting with
      one slash is joined to it by exactly that slash. */
  lemma URLJoinsWithOneSlash(apiKey: string, raw: string, version: string, verb: string,
                             endpoint: string, hasBody: bool)
    requires |endpoint| > 0 && endpoint[0] == '/'
    ensures var c := NewClient(apiKey, raw);
      var url := NewRequest(c, version, verb, endpoint, hasBody).url;
      && url == c.baseURL + endpoint
      && url[|c.baseURL|] == '/'
      && (|c.baseURL| == 0 || url[|c.baseURL| - 1] != '/')
  {
  }

  /** A doubled separator in the base URL does not survive: base "https://x//"
      with endpoint "/y" gives "https://x/y". */
  lemma URLExample()
    ensures NewRequest(NewClient("key", "https://x//"), DefaultVersion, "GET", "/y", false).url == "https://x/y"
  {
    TrimRightUnique("https://x//", {'/'}, "https://x", "//");
  }

  /** Every request carries the API key and a non-empty user agent naming the
      client and its version, and the JSON content type exactly when it has a body. */
  lemma HeadersOnEveryRequest(c: Client, version: string, verb: string, endpoint: string, hasBody: bool)
    ensures var h := NewRequest(c, version, verb, endpoint, hasBody).header;
      && HeaderAPIKey in h && h[HeaderAPIKey] == c.apiKey
      && HeaderUserAgent in h && h[HeaderUserAgent] == "n8n-go/" + version
      && |h[HeaderUserAgent]| > 0
      && (HeaderContentType in h <==> hasBody)
      && (HeaderContentType in h ==> h[HeaderContentType] == "application/json")
  {
  }

  /* ---------------- Retry delay ---------------- */

  /** A header that `Atoi` reads as a positive number of seconds is the
      delay, exactly; with or without a `+`, with or without leading zeros. */
  lemma RetryDelayHonoursHeader(h: string)
    ensures IsIntSyntax(h) && 0 < SignedValue(h) <= MaxInt64 ==> RetryDelay(h) == SignedValue(h)
  {
    AtoiValue(h);
  }

  /** Every other header gives one second: an absent one, a non-numeric one
      (an HTTP-date among them), zero, a negative number, and a number beyond
      the 64-bit range. */
  lemma RetryDelayDefaults(h: string)
    ensures !(IsIntSyntax(h) && 0 < SignedValue(h) <= MaxInt64) ==> RetryDelay(h) == 1
  {
    AtoiValue(h);
  }

  /** The canonical rendering of any positive 64-bit number of seconds. */
  lemma RetryDelayOfItoa(secs: int)
    requires 0 < secs <= MaxInt64
    ensures RetryDelay(Itoa(secs)) == secs
  {
    AtoiItoa(secs);
  }

  /** Sample headers: signs and leading zeros are accepted, and an absent,
      zero, negative, textual or HTTP-date header gives one second. */
  lemma RetryDelayExamples()
    ensures RetryDelay("+5") == 5
    ensures RetryDelay("05") == 5
    ensures RetryDelay("") == 1
    ensures RetryDelay("0") == 1
    ensures RetryDelay("-5") == 1
    ensures RetryDelay("soon") == 1
    ensures RetryDelay("Wed, 21 Oct 2015 07:28:00 GMT") == 1
  {
    assert !IsDigit("soon"[0]);
    assert !IsDigit("Wed, 21 Oct 2015 07:28:00 GMT"[0]);
    assert DigitsValue("0") == 0;
    assert DigitsValue("5") == 5;
    assert "+5"[1..] == "5";
    assert "05"[..1] == "0";
    assert DigitsValue("05") == 5;
  }

  /** The wrap-around subtracts 2^64 once from a product between 2^63 and 2^64. */
  lemma WrapOnce(x: int)
    requires MaxInt64 < x < 0x1_0000_0000_0000_0000
    ensures WrapInt64(x) == x - 0x1_0000_0000_0000_0000
  {
    var y := x - MinInt64;
    assert 0x1_0000_0000_0000_0000 <= y < 2 * 0x1_0000_0000_0000_0000;
    assert y % 0x1_0000_0000_0000_0000 == y - 0x1_0000_0000_0000_0000;
  }

  /** Every `Retry-After` from 9223372037 to 18446744073 seconds overflows the
      duration into a negative one, so the source's retry condition fails and
      a fully read 429 on the first attempt is returned instead of retried;
      the model waits the seconds the header names. */
  lemma RetryAfterOverflow(secs: int)
    requires 9_223_372_037 <= secs <= 18_446_744_073
    ensures RetryAfterAsWritten(Itoa(secs)) < 0
    ensures RetryDelay(Itoa(secs)) == secs
    ensures var r := Reply(429, Itoa(secs)); Retries(r, 0) && !RetriesAsWritten(r, 0)
  {
    AtoiItoa(secs);
    WrapOnce(secs * NanosPerSecond);
  }

  /** A duration of a whole number of 2^64 nanoseconds wraps to exactly 0. */
  lemma WrapMultiple(m: nat)
    ensures WrapInt64(m * 0x1_0000_0000_0000_0000) == 0
  {
  }

  /** A `Retry-After` that is a multiple of 2^55 seconds overflows the
      duration to exactly zero nanoseconds (2^55 * 10^9 = 5^9 * 2^64), so
      again the source returns a first-attempt 429 while the model waits. */
  lemma RetryAfterWrapsToZero(k: nat)
    requires 1 <= k <= 255
    ensures var secs := k * 0x80_0000_0000_0000;
      && RetryAfterAsWritten(Itoa(secs)) == 0
      && RetryDelay(Itoa(secs)) == secs
      && var r := Reply(429, Itoa(secs)); Retries(r, 0) && !RetriesAsWritten(r, 0)
  {
    var secs := k * 0x80_0000_0000_0000;
    AtoiItoa(secs);
    assert secs * NanosPerSecond == (k * 1_953_125) * 0x1_0000_0000_0000_0000;
    WrapMultiple(k * 1_953_125);
  }

  /* ---------------- The retry loop as an explicit state machine ---------------- */

  /** The phases of one call: about to send, judging a reply, waiting out a
      backoff delay, finished with nil, finished with an error. */
  datatype Phase = Sending | Evaluating(resp: Response) | Backoff(delay: nat) | Done | Failed(err: Error)

  /** A machine state; `attempt` also indexes the reply the next send receives. */
  datatype State = State(phase: Phase, attempt: nat, sends: nat, waits: seq<nat>)

  function Finished(err: Option<Error>): Phase {
    if err.None? then Done else Failed(err.value)
  }

  /** One transition. A finished state (or one with no scripted reply left) stays put. */
  function Next(s: State, server: seq<Response>, hasTarget: bool, errorOnNoContent: bool): State {
    match s.phase
    case Sending =>
      if s.attempt < |server| then s.(phase := Evaluating(server[s.attempt]), sends := s.sends + 1)
      else s
    case Evaluating(resp) =>
      (match Evaluate(resp, s.attempt, hasTarget, errorOnNoContent)
       case Return(err) => s.(phase := Finished(err))
       case Retry(delay) => s.(phase := Backoff(delay)))
    case Backoff(delay) => State(Sending, s.attempt + 1, s.sends, s.waits + [delay])
    case Done => s
    case Failed(_) => s
  }

  function Iterate(s: State, n: nat, server: seq<Response>, hasTarget: bool, errorOnNoContent: bool): State
    decreases n
  {
    if n == 0 then s else Iterate(Next(s, server, hasTarget, errorOnNoContent), n - 1, server, hasTarget, errorOnNoContent)
  }

  lemma {:induction false} IterateSplit(s: State, m: nat, n: nat, server: seq<Response>, hasTarget: bool, errorOnNoContent: bool)
    ensures Iterate(s, m + n, server, hasTarget, errorOnNoContent)
         == Iterate(Iterate(s, m, server, hasTarget, errorOnNoContent), n, server, hasTarget, errorOnNoContent)
    decreases m
  {
    if m > 0 {
      IterateSplit(Next(s, server, hasTarget, errorOnNoContent), m - 1, n, server, hasTarget, errorOnNoContent);
    }
  }

  lemma {:induction false} FinishedStays(s: State, n: nat, server: seq<Response>, hasTarget: bool, errorOnNoContent: bool)
    requires s.phase.Done? || s.phase.Failed?
    ensures Iterate(s, n, server, hasTarget, errorOnNoContent) == s
    decreases n
  {
    if n > 0 {
      FinishedStays(s, n - 1, server, hasTarget, errorOnNoContent);
    }
  }

  /** A send judged final takes two steps to a finished state. */
  lemma MachineFinalSend(server: seq<Response>, a: nat, sends: nat, waits: seq<nat>, hasTarget: bool, errorOnNoContent: bool)
    requires a < |server|
    requires Evaluate(server[a], a, hasTarget, errorOnNoContent).Return?
    ensures Iterate(State(Sending, a, sends, waits), 2, server, hasTarget, errorOnNoContent)
         == State(Finished(Evaluate(server[a], a, hasTarget, errorOnNoContent).err), a, sends + 1, waits)
  {
    var s1 := State(Evaluating(server[a]), a, sends + 1, waits);
    assert Next(State(Sending, a, sends, waits), server, hasTarget, errorOnNoContent) == s1;
  }

  /** A retried send takes three steps back to sending, one attempt later. */
  lemma MachineRetriedSend(server: seq<Response>, a: nat, sends: nat, waits: seq<nat>, hasTarget: bool, errorOnNoContent: bool)
    requires a < |server|
    requires Evaluate(server[a], a, hasTarget, errorOnNoContent).Retry?
    ensures Iterate(State(Sending, a, sends, waits), 3, server, hasTarget, errorOnNoContent)
         == State(Sending, a + 1, sends + 1, waits + [Evaluate(server[a], a, hasTarget, errorOnNoContent).delay])
  {
    var delay := Evaluate(server[a], a, hasTarget, errorOnNoContent).delay;
    var s1 := State(Evaluating(server[a]), a, sends + 1, waits);
    var s2 := State(Backoff(delay), a, sends + 1, waits);
    assert Next(State(Sending, a, sends, waits), server, hasTarget, errorOnNoContent) == s1;
    assert Next(s1, server, hasTarget, errorOnNoContent) == s2;
  }

  /** The machine, started at attempt `a` with `sends` and `waits` so far,
      finishes in the state that the loop outcome `o` describes. */
  ghost predicate MachineReaches(o: Outcome, server: seq<Response>, a: nat, sends: nat, waits: seq<nat>,
                                 hasTarget: bool, errorOnNoContent: bool)
    requires o.sends >= 1
  {
    Iterate(State(Sending, a, sends, waits), 3 * o.sends - 1, server, hasTarget, errorOnNoContent)
      == State(Finished(o.err), a + o.sends - 1, sends + o.sends, waits + o.waits)
  }

  /** Three steps to the next send, then the rest of the run. */
  lemma MachineAfterRetry(rest: Outcome, server: seq<Response>, a: nat, sends: nat, waits: seq<nat>, delay: nat,
                          hasTarget: bool, errorOnNoContent: bool)
    requires rest.sends >= 1
    requires Iterate(State(Sending, a, sends, waits), 3, server, hasTarget, errorOnNoContent)
          == State(Sending, a + 1, sends + 1, waits + [delay])
    requires MachineReaches(rest, server, a + 1, sends + 1, waits + [delay], hasTarget, errorOnNoContent)
    ensures MachineReaches(rest.(sends := rest.sends + 1, waits := [delay] + rest.waits), server, a, sends, waits,
                           hasTarget, errorOnNoContent)
  {
    IterateSplit(State(Sending, a, sends, waits), 3, 3 * rest.sends - 1, server, hasTarget, errorOnNoContent);
    assert 3 * (rest.sends + 1) - 1 == 3 + (3 * rest.sends - 1);
    assert waits + [delay] + rest.waits == waits + ([delay] + rest.waits);
  }

  /** From a sending state at attempt `a`, the machine finishes after three
      steps per retried send and two for the last, in the state `Run` describes. */
  lemma {:induction false} MachineFollowsRun(req: Request, server: seq<Response>, a: nat, sends: nat, waits: seq<nat>,
                                            hasTarget: bool, errorOnNoContent: bool)
    requires a <= MaxRetries && |server| >= MaxAttempts
    ensures MachineReaches(Run(req, server, a, hasTarget, errorOnNoContent), server, a, sends, waits, hasTarget, errorOnNoContent)
    decreases MaxRetries - a
  {
    var step := Evaluate(server[a], a, hasTarget, errorOnNoContent);
    if step.Return? {
      RunFinalUnfold(req, server, a, hasTarget, errorOnNoContent);
      MachineFinalSend(server, a, sends, waits, hasTarget, errorOnNoContent);
      assert waits + [] == waits;
    } else {
      RunRetryUnfold(req, server, a, hasTarget, errorOnNoContent);
      MachineRetriedSend(server, a, sends, waits, hasTarget, errorOnNoContent);
      MachineFollowsRun(req, server, a + 1, sends + 1, waits + [step.delay], hasTarget, errorOnNoContent);
      MachineAfterRetry(Run(req, server, a + 1, hasTarget, errorOnNoContent), server, a, sends, waits, step.delay,
                        hasTarget, errorOnNoContent);
    }
  }

  /** Once finished, further steps change nothing. */
  lemma FinishedAfter(s: State, n: nat, steps: nat, server: seq<Response>, hasTarget: bool, errorOnNoContent: bool)
    requires n <= steps
    requires Iterate(s, n, server, hasTarget, errorOnNoContent).phase.Done?
          || Iterate(s, n, server, hasTarget, errorOnNoContent).phase.Failed?
    ensures Iterate(s, steps, server, hasTarget, errorOnNoContent) == Iterate(s, n, server, hasTarget, errorOnNoContent)
  {
    IterateSplit(s, n, steps - n, server, hasTarget, errorOnNoContent);
    FinishedStays(Iterate(s, n, server, hasTarget, errorOnNoContent), steps - n, server, hasTarget, errorOnNoContent);
  }

  /** A machine that reaches the state of `o` from the first send is still
      there after any larger number of steps. */
  lemma MachineStopsThere(o: Outcome, server: seq<Response>, hasTarget: bool, errorOnNoContent: bool, steps: nat)
    requires 1 <= o.sends && 3 * o.sends - 1 <= steps
    requires MachineReaches(o, server, 0, 0, [], hasTarget, errorOnNoContent)
    ensures var s := Iterate(State(Sending, 0, 0, []), steps, server, hasTarget, errorOnNoContent);
      s.phase == Finished(o.err) && s.sends == o.sends && s.waits == o.waits
  {
    FinishedAfter(State(Sending, 0, 0, []), 3 * o.sends - 1, steps, server, hasTarget, errorOnNoContent);
    assert [] + o.waits == o.waits;
  }

  /** Run for any number of steps that allows every attempt, the machine
      started at the first send has finished as the loop does. */
  lemma RunIsStateMachine(req: Request, server: seq<Response>, hasTarget: bool, errorOnNoContent: bool, steps: nat)
    requires |server| >= MaxAttempts && steps >= 3 * MaxAttempts
    ensures var o := Run(req, server, 0, hasTarget, errorOnNoContent);
      var s := Iterate(State(Sending, 0, 0, []), steps, server, hasTarget, errorOnNoContent);
      s.phase == Finished(o.err) && s.sends == o.sends && s.waits == o.waits
  {
    MachineFollowsRun(req, server, 0, 0, [], hasTarget, errorOnNoContent);
    MachineStopsThere(Run(req, server, 0, hasTarget, errorOnNoContent), server, hasTarget, errorOnNoContent, steps);
  }

  /** `DoRequest` is the state machine run to completion: after 3 * MaxAttempts
      steps from the first send it has finished with the same result, the same
      number of sends and the same delays waited. */
  lemma DoRequestIsStateMachine(c: Client, version: string, verb: string, endpoint: string,
                                hasBody: bool, hasTarget: bool, errorOnNoContent: bool, server: seq<Response>)
    requires |server| >= MaxAttempts
    ensures var o := DoRequest(c, version, verb, endpoint, hasBody, hasTarget, errorOnNoContent, true, server);
      var s := Iterate(State(Sending, 0, 0, []), 3 * MaxAttempts, server, hasTarget, errorOnNoContent);
      s.phase == Finished(o.err) && s.sends == o.sends && s.waits == o.waits
  {
    RunIsStateMachine(NewRequest(c, version, verb, endpoint, hasBody), server, hasTarget, errorOnNoContent, 3 * MaxAttempts);
  }

  /* ---------------- Sends and retries ---------------- */

  /** The loop sends again exactly after a fully read 429 that arrived with
      attempts to spare and whose backoff was not cancelled; so at most
      MaxAttempts sends are made, and every wait lasts at least a second. */
  ghost predicate RetriedOnlyAfterRateLimit(o: Outcome, server: seq<Response>)
    requires |server| >= MaxAttempts
  {
    && 1 <= o.sends <= MaxAttempts
    && |o.waits| == o.sends - 1
    && (forall i :: 0 <= i < o.sends ==> (i < o.sends - 1 <==> Retries(server[i], i)))
    && (forall i :: 0 <= i < o.sends - 1 ==> server[i].status == 429 && o.waits[i] >= 1)
  }

  lemma RunRetriesOnlyAfterRateLimit(req: Request, server: seq<Response>, hasTarget: bool, errorOnNoContent: bool)
    requires |server| >= MaxAttempts
    ensures RetriedOnlyAfterRateLimit(Run(req, server, 0, hasTarget, errorOnNoContent), server)
  {
    var o := Run(req, server, 0, hasTarget, errorOnNoContent);
    RunShape(req, server, 0, hasTarget, errorOnNoContent);
    forall i | 0 <= i < o.sends
      ensures (i < o.sends - 1 <==> Retries(server[i], i))
      ensures i < o.sends - 1 ==> server[i].status == 429 && o.waits[i] >= 1
    {
      if i < o.sends - 1 {
        assert RetriedAfter(server, 0 + i, o.waits[i]);
      } else {
        assert Evaluate(server[0 + i], 0 + i, hasTarget, errorOnNoContent) == Return(o.err);
      }
    }
  }

  /** For a whole call, as `RetriedOnlyAfterRateLimit` states. */
  lemma SendsAgainOnlyAfterRateLimit(c: Client, version: string, verb: string, endpoint: string,
                                     hasBody: bool, hasTarget: bool, errorOnNoContent: bool,
                                     server: seq<Response>)
    requires |server| >= MaxAttempts
    ensures RetriedOnlyAfterRateLimit(DoRequest(c, version, verb, endpoint, hasBody, hasTarget, errorOnNoContent, true, server), server)
  {
    RunRetriesOnlyAfterRateLimit(NewRequest(c, version, verb, endpoint, hasBody), server, hasTarget, errorOnNoContent);
  }

  /** The replies `server` makes the loop receive from `attempt` on are also
      those of `other`. */
  ghost predicate SameReceived(req: Request, server: seq<Response>, other: seq<Response>,
                               attempt: nat, hasTarget: bool, errorOnNoContent: bool)
    requires attempt <= MaxRetries && |server| >= MaxAttempts
  {
    var n := attempt + Run(req, server, attempt, hasTarget, errorOnNoContent).sends;
    n <= |other| && server[..n] == other[..n]
  }

  lemma SameReceivedCurrent(req: Request, server: seq<Response>, other: seq<Response>,
                            attempt: nat, hasTarget: bool, errorOnNoContent: bool)
    requires attempt <= MaxRetries && |server| >= MaxAttempts
    requires SameReceived(req, server, other, attempt, hasTarget, errorOnNoContent)
    ensures server[attempt] == other[attempt]
  {
    var n := attempt + Run(req, server, attempt, hasTarget, errorOnNoContent).sends;
    assert server[attempt] == server[..n][attempt];
    assert other[attempt] == other[..n][attempt];
  }

  lemma SameReceivedNext(req: Request, server: seq<Response>, other: seq<Response>,
                         attempt: nat, hasTarget: bool, errorOnNoContent: bool)
    requires attempt <= MaxRetries && |server| >= MaxAttempts
    requires SameReceived(req, server, other, attempt, hasTarget, errorOnNoContent)
    requires Evaluate(server[attempt], attempt, hasTarget, errorOnNoContent).Retry?
    ensures attempt < MaxRetries
    ensures SameReceived(req, server, other, attempt + 1, hasTarget, errorOnNoContent)
  {
    RunRetryUnfold(req, server, attempt, hasTarget, errorOnNoContent);
    var n := attempt + Run(req, server, attempt, hasTarget, errorOnNoContent).sends;
    assert n == attempt + 1 + Run(req, server, attempt + 1, hasTarget, errorOnNoContent).sends;
  }

  /** Two scripts with the same reply at `attempt` run alike from there when
      they run alike after a retry. */
  lemma RunsAgreeAt(req: Request, server: seq<Response>, other: seq<Response>,
                    attempt: nat, hasTarget: bool, errorOnNoContent: bool)
    requires attempt <= MaxRetries && |server| >= MaxAttempts && |other| >= MaxAttempts
    requires server[attempt] == other[attempt]
    requires Evaluate(server[attempt], attempt, hasTarget, errorOnNoContent).Retry? ==>
      Run(req, other, attempt + 1, hasTarget, errorOnNoContent) == Run(req, server, attempt + 1, hasTarget, errorOnNoContent)
    ensures Run(req, other, attempt, hasTarget, errorOnNoContent) == Run(req, server, attempt, hasTarget, errorOnNoContent)
  {
    if Evaluate(server[attempt], attempt, hasTarget, errorOnNoContent).Return? {
      RunFinalUnfold(req, server, attempt, hasTarget, errorOnNoContent);
      RunFinalUnfold(req, other, attempt, hasTarget, errorOnNoContent);
    } else {
      RunRetryUnfold(req, server, attempt, hasTarget, errorOnNoContent);
      RunRetryUnfold(req, other, attempt, hasTarget, errorOnNoContent);
    }
  }

  /** Replies after the last send are never consulted: two scripts that agree
      on the replies actually received give the same outcome. */
  lemma {:induction false} OnlyReceivedRepliesMatter(req: Request, server: seq<Response>, other: seq<Response>,
                                                     attempt: nat, hasTarget: bool, errorOnNoContent: bool)
    requires attempt <= MaxRetries && |server| >= MaxAttempts && |other| >= MaxAttempts
    requires SameReceived(req, server, other, attempt, hasTarget, errorOnNoContent)
    ensures Run(req, other, attempt, hasTarget, errorOnNoContent) == Run(req, server, attempt, hasTarget, errorOnNoContent)
    decreases MaxRetries - attempt
  {
    SameReceivedCurrent(req, server, other, attempt, hasTarget, errorOnNoContent);
    if Evaluate(server[attempt], attempt, hasTarget, errorOnNoContent).Retry? {
      SameReceivedNext(req, server, other, attempt, hasTarget, errorOnNoContent);
      OnlyReceivedRepliesMatter(req, server, other, attempt + 1, hasTarget, errorOnNoContent);
    }
    RunsAgreeAt(req, server, other, attempt, hasTarget, errorOnNoContent);
  }

  /** For a whole call: a script that agrees with `server` on the replies to
      the sends actually made produces the same outcome. */
  lemma DoRequestReadsOnlyReceived(c: Client, version: string, verb: string, endpoint: string,
                                   hasBody: bool, hasTarget: bool, errorOnNoContent: bool,
                                   server: seq<Response>, other: seq<Response>)
    requires |server| >= MaxAttempts && |other| >= MaxAttempts
    requires var n := DoRequest(c, version, verb, endpoint, hasBody, hasTarget, errorOnNoContent, true, server).sends;
      server[..n] == other[..n]
    ensures DoRequest(c, version, verb, endpoint, hasBody, hasTarget, errorOnNoContent, true, other)
         == DoRequest(c, version, verb, endpoint, hasBody, hasTarget, errorOnNoContent, true, server)
  {
    var req := NewRequest(c, version, verb, endpoint, hasBody);
    OnlyReceivedRepliesMatter(req, server, other, 0, hasTarget, errorOnNoContent);
  }

  /* ---------------- The final reply decides the result ---------------- */

  /** How a reply that ends the loop at zero-based attempt `n` determines
      the result `err`: a transport or read failure; an APIError with the
      reply's status and body for any error status not retried (a 429 on the
      last attempt included, carrying its delay); cancellation when a
      retryable 429's backoff was cancelled; the 204 rule; and decoding for
      the other success statuses. */
  predicate FinalReply(r: Response, n: nat, hasTarget: bool, errorOnNoContent: bool, err: Option<Error>)
    ensures FinalReply(r, n, hasTarget, errorOnNoContent, err) && r.transportOk && r.readOk && r.status == 404 ==>
      NotFound(err)
  {
    && (!r.transportOk ==> err == Some(TransportErr))
    && (r.transportOk && !r.readOk ==> err == Some(ReadErr))
    && (r.transportOk && r.readOk && r.status >= 300 && r.status != 429 ==>
          err == Some(ApiErr(APIError(FieldText(r.envelope.code), FieldText(r.envelope.message), r.status, r.body, 0))))
    && (r.transportOk && r.readOk && r.status == 429 && n == MaxRetries ==>
          err == Some(ApiErr(APIError(FieldText(r.envelope.code), FieldText(r.envelope.message), 429, r.body, RetryDelay(r.retryAfter)))))
    && (r.transportOk && r.readOk && r.status == 429 && n < MaxRetries ==>
          r.cancelledDuringBackoff && err == Some(Cancelled))
    && (r.transportOk && r.readOk && r.status == 204 ==>
          err == (if errorOnNoContent then Some(ApiErr(NoContentError)) else None))
    && (r.transportOk && r.readOk && r.status < 300 && r.status != 204 ==>
          err == (if hasTarget && !r.decodeOk then Some(DecodeErr(r.body)) else None))
  }

  /** The table leaves no choice: at any attempt the loop makes, for any
      reply but a retryable 429, at most one result fits it. */
  lemma FinalReplyDeterminesResult(r: Response, n: nat, hasTarget: bool, errorOnNoContent: bool,
                                   err: Option<Error>, err': Option<Error>)
    requires n <= MaxRetries
    requires FinalReply(r, n, hasTarget, errorOnNoContent, err)
    requires FinalReply(r, n, hasTarget, errorOnNoContent, err')
    requires !(r.transportOk && r.readOk && r.status == 429 && n < MaxRetries && !r.cancelledDuringBackoff)
    ensures err == err'
  {
  }

  /** A pass of the loop body that returns does so as `FinalReply` describes. */
  lemma ReturnIsFinalReply(r: Response, n: nat, hasTarget: bool, errorOnNoContent: bool)
    requires n <= MaxRetries
    requires Evaluate(r, n, hasTarget, errorOnNoContent).Return?
    ensures FinalReply(r, n, hasTarget, errorOnNoContent, Evaluate(r, n, hasTarget, errorOnNoContent).err)
  {
  }

  /** The result of a built request is read off the last reply received. */
  lemma FinalReplyDecides(c: Client, version: string, verb: string, endpoint: string,
                          hasBody: bool, hasTarget: bool, errorOnNoContent: bool, server: seq<Response>)
    requires |server| >= MaxAttempts
    ensures var o := DoRequest(c, version, verb, endpoint, hasBody, hasTarget, errorOnNoContent, true, server);
      FinalReply(server[o.sends - 1], o.sends - 1, hasTarget, errorOnNoContent, o.err)
  {
    var req := NewRequest(c, version, verb, endpoint, hasBody);
    var o := Run(req, server, 0, hasTarget, errorOnNoContent);
    RunShape(req, server, 0, hasTarget, errorOnNoContent);
    ReturnIsFinalReply(server[o.sends - 1], o.sends - 1, hasTarget, errorOnNoContent);
  }

  /** `NotFound` holds of the result exactly when the last reply was a fully
      read 404, and `NoContent` exactly when it was a fully read 204 and the
      caller asked for content; no result satisfies both. */
  lemma PredicatesOnResult(c: Client, version: string, verb: string, endpoint: string,
                           hasBody: bool, hasTarget: bool, errorOnNoContent: bool, server: seq<Response>)
    requires |server| >= MaxAttempts
    ensures var o := DoRequest(c, version, verb, endpoint, hasBody, hasTarget, errorOnNoContent, true, server);
      var r := server[o.sends - 1];
      && (NotFound(o.err) <==> r.transportOk && r.readOk && r.status == 404)
      && (NoContent(o.err) <==> r.transportOk && r.readOk && r.status == 204 && errorOnNoContent)
      && !(NotFound(o.err) && NoContent(o.err))
  {
    FinalReplyDecides(c, version, verb, endpoint, hasBody, hasTarget, errorOnNoContent, server);
  }

  /** Every error `DoRequest` returns is an APIError or a locally raised error,
      and a locally raised one satisfies neither predicate. */
  lemma ErrorsAreApiOrLocal(c: Client, version: string, verb: string, endpoint: string,
                            hasBody: bool, hasTarget: bool, errorOnNoContent: bool,
                            buildOk: bool, server: seq<Response>)
    requires |server| >= MaxAttempts
    ensures var o := DoRequest(c, version, verb, endpoint, hasBody, hasTarget, errorOnNoContent, buildOk, server);
      o.err.Some? && !o.err.value.ApiErr? ==>
        IsLocal(o.err.value) && !NotFound(o.err) && !NoContent(o.err)
  {
    var o := DoRequest(c, version, verb, endpoint, hasBody, hasTarget, errorOnNoContent, buildOk, server);
    if buildOk {
      FinalReplyDecides(c, version, verb, endpoint, hasBody, hasTarget, errorOnNoContent, server);
    }
    if o.err.Some? && !o.err.value.ApiErr? {
      LocalErrorsMatchNeither(o.err.value);
    }
  }

  /* ---------------- Scenarios ---------------- */

  /** A reply that arrived and was read in full, with no envelope, that
      decodes, and whose backoff (if any) is not cancelled. */
  function Reply(status: int, retryAfter: string): Response {
    Response(true, true, status, retryAfter, [], Envelope(None, None), true, false)
  }

  /** The rate-limit test: two 429s with `Retry-After: 1`, then a 204, succeed
      after exactly three sends and two one-second waits. */
  lemma RateLimitThenNoContent(c: Client, extra: Response)
    ensures var server := [Reply(429, "1"), Reply(429, "1"), Reply(204, ""), extra];
      var o := DoRequest(c, DefaultVersion, "GET", "/", false, false, false, true, server);
      o.err == None && o.sends == 3 && o.waits == [1, 1]
  {
    var server := [Reply(429, "1"), Reply(429, "1"), Reply(204, ""), extra];
    assert DigitsValue("1") == 1;
    assert RetryDelay("1") == 1;
    var req := NewRequest(c, DefaultVersion, "GET", "/", false);
    RunFinalUnfold(req, server, 2, false, false);
    RunRetryUnfold(req, server, 1, false, false);
    RunRetryUnfold(req, server, 0, false, false);
  }

  /** A 429 without `Retry-After` is still retried, after one second. */
  lemma RateLimitWithoutHeaderRetries(c: Client, rest: seq<Response>)
    requires |rest| >= MaxRetries
    ensures var server := [Reply(429, "")] + rest;
      var o := DoRequest(c, DefaultVersion, "GET", "/", false, false, false, true, server);
      o.sends >= 2 && o.waits[0] == 1
  {
    var server := [Reply(429, "")] + rest;
    assert Retries(server[0], 0);
    SendsAgainOnlyAfterRateLimit(c, DefaultVersion, "GET", "/", false, false, false, server);
    RetryDelayDefaults("");
  }

  /** A server that keeps answering 429 gets exactly MaxAttempts sends, three
      waits, and then the last 429 as an APIError carrying its delay. */
  lemma PersistentRateLimit(c: Client, verb: string, endpoint: string, server: seq<Response>)
    requires |server| >= MaxAttempts
    requires forall i :: 0 <= i < MaxAttempts ==>
      server[i].transportOk && server[i].readOk && server[i].status == 429 && !server[i].cancelledDuringBackoff
    ensures var o := DoRequest(c, DefaultVersion, verb, endpoint, false, false, false, true, server);
      && o.sends == MaxAttempts
      && |o.waits| == MaxRetries
      && o.err.Some? && o.err.value.ApiErr?
      && o.err.value.api.statusCode == 429
      && o.err.value.api.retryAfter == RetryDelay(server[MaxRetries].retryAfter) >= 1
  {
    var o := DoRequest(c, DefaultVersion, verb, endpoint, false, false, false, true, server);
    SendsAgainOnlyAfterRateLimit(c, DefaultVersion, verb, endpoint, false, false, false, server);
    var n := o.sends - 1;
    assert Retries(server[n], n) == (n < MaxRetries);
    FinalReplyDecides(c, DefaultVersion, verb, endpoint, false, false, false, server);
  }

  /** A 404 is not retried: one send, an APIError with that status and body,
      which `NotFound` recognises. */
  lemma NotFoundIsNotRetried(c: Client, verb: string, endpoint: string, server: seq<Response>)
    requires |server| >= MaxAttempts
    requires server[0].transportOk && server[0].readOk && server[0].status == 404
    ensures var o := DoRequest(c, DefaultVersion, verb, endpoint, false, true, false, true, server);
      && o.sends == 1 && o.waits == []
      && o.err.Some? && o.err.value.ApiErr?
      && o.err.value.api.statusCode == 404 && o.err.value.api.rawMessage == server[0].body
      && NotFound(o.err)
  {
    SendsAgainOnlyAfterRateLimit(c, DefaultVersion, verb, endpoint, false, true, false, server);
    FinalReplyDecides(c, DefaultVersion, verb, endpoint, false, true, false, server);
  }

  /** Cancelling the context during the first backoff returns the
      cancellation at once: one send, no completed wait. */
  lemma CancelDuringBackoffStops(c: Client, verb: string, endpoint: string, server: seq<Response>)
    requires |server| >= MaxAttempts
    requires server[0].transportOk && server[0].readOk && server[0].status == 429
    requires server[0].cancelledDuringBackoff
    ensures var o := DoRequest(c, DefaultVersion, verb, endpoint, false, false, false, true, server);
      o.sends == 1 && o.waits == [] && o.err == Some(Cancelled) && !NotFound(o.err) && !NoContent(o.err)
  {
    SendsAgainOnlyAfterRateLimit(c, DefaultVersion, verb, endpoint, false, false, false, server);
    FinalReplyDecides(c, DefaultVersion, verb, endpoint, false, false, false, server);
    LocalErrorsMatchNeither(Cancelled);
  }

  /** A body that does not decode into the caller's target is a decode error
      carrying the raw body; without a target the same reply is a success. */
  lemma DecodeFailureKeepsBody(c: Client, verb: string, endpoint: string, server: seq<Response>)
    requires |server| >= MaxAttempts
    requires server[0].transportOk && server[0].readOk && server[0].status == 200 && !server[0].decodeOk
    ensures DoRequest(c, DefaultVersion, verb, endpoint, false, true, false, true, server).err
         == Some(DecodeErr(server[0].body))
    ensures DoRequest(c, DefaultVersion, verb, endpoint, false, false, false, true, server).err == None
  {
    SendsAgainOnlyAfterRateLimit(c, DefaultVersion, verb, endpoint, false, true, false, server);
    SendsAgainOnlyAfterRateLimit(c, DefaultVersion, verb, endpoint, false, false, false, server);
    FinalReplyDecides(c, DefaultVersion, verb, endpoint, false, true, false, server);
    FinalReplyDecides(c, DefaultVersion, verb, endpoint, false, false, false, server);
  }
}
