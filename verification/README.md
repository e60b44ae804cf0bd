# n8n-go client core in Dafny

This project models the HTTP client at the heart of the n8n-go API wrapper:

- `NewClient`, which keeps the API key and trims every trailing `/` from the base URL.
- `DoRequest`, which builds one request and sends it. It retries only rate-limited (HTTP 429) replies, at most three times, waiting the `Retry-After` delay before each retry. It then turns the last reply into `nil`, an `APIError`, or a locally raised error.
- The `APIError` type, its `Error()` rendering, and the `NotFound` / `noContent` predicates that callers use to classify returned errors.

There is no network in the model. A call of `DoRequest` is a pure function of a **script** of server replies: `server[k]` is what the k-th send observes. It says whether the transport returned a response, whether the body was read in full, the status, the `Retry-After` header, the raw body, what the JSON error envelope decoded to, whether the body decodes into the caller's target, and whether the context was cancelled during the backoff that follows. Go's `nil` error is `None`.

Modules, one per source concern:

| module | file | contents |
|---|---|---|
| `Optional` | optional.dfy | `Option`, standing for nil |
| `Strings` | strings.dfy | `strings.TrimRight` with a cut set |
| `StrConv` | strconv.dfy | `strconv.Atoi` (64-bit range check included) and `strconv.Itoa` |
| `Errors` | errors.dfy | `APIError`, the tagged error values, `errors.As` along a wrap chain, `NotFound`, `noContent` |
| `Client` | client.dfy | client construction, headers, request building, the retry delay, one pass of the loop (`Evaluate`), the loop (`Run`), `DoRequest` |
| `ClientProperties` | client_properties.dfy | properties of whole calls, the loop recast as an explicit state machine, and the scenarios of the test file |

The retry loop of client.go:67-127 appears twice:

- `Client.Run` is the loop itself. It is a recursion over the zero-based attempt, and each pass is decided by `Client.Evaluate`.
- `ClientProperties.Next` / `Iterate` is a small-step machine with the phases sending, evaluating a reply, backing off, done and failed. It keeps the attempt count, the sends and the waits itself. To classify a single reply, however, it calls the same `Client.Evaluate`, and it also relies on it for the loop bound: `Next` never compares the attempt with the maximum, and the machine stops after the last attempt only because `Evaluate` retries only when `attempt < MaxRetries`.
- `ClientProperties.DoRequestIsStateMachine` proves that the two agree on the result, the number of sends and the delays waited. This checks the loop control, not the classification of replies.
- The classification of a reply is checked separately. `ClientProperties.FinalReply` is a case table written independently of `Evaluate`, and `ClientProperties.ReturnIsFinalReply` proves that `Evaluate` follows it.

## Model

| member | source | states |
|---|---|---|
| Strings.TrimRight | client.go:37 | the trimmed URL is a prefix of the input, everything removed is a slash, and it does not itself end in a slash |
| Strings.TrimRightUnique | client.go:37 | those three facts determine the trimmed string: any split of the input into a slash-free-ending prefix and a run of slashes gives that prefix |
| Strings.TrimRightIdempotent | client.go:37 | trimming an already trimmed URL changes nothing |
| Strings.TrimRightAbsorbsSuffix | client.go:37 | appending slashes to a base URL does not change the stored base URL |
| Client.NewClient | client.go:34-44 | the client keeps the API key; its base URL is the raw base URL without its trailing run of slashes |
| ClientProperties.BaseURLNormalised | client.go:37 | the stored base URL has no trailing slash, constructing again from it gives the same client, and the raw input is the base URL followed only by slashes |
| ClientProperties.BaseURLExamples | client_test.go:24-36 | "https://api.n8n.io/" is stored as "https://api.n8n.io", and "https://example.com" is kept as is |
| Client.RequestHeader | client.go:60-64 | the headers are exactly User-Agent "n8n-go/" + version and X-N8N-API-KEY holding the key, plus Content-Type application/json exactly when a body is supplied |
| Client.NewRequest | client.go:54-55 | the request URL is the base URL followed by the endpoint, with nothing inserted or removed; the verb is passed on as given |
| ClientProperties.URLJoinsWithOneSlash | client.go:37-54 | for an endpoint starting with "/", exactly one slash separates base and endpoint, however many slashes ended the raw base URL |
| ClientProperties.URLExample | client.go:54 | base "https://x//" with endpoint "/y" gives "https://x/y" |
| ClientProperties.HeadersOnEveryRequest | client_test.go:76-80 | every request carries the API key and a user agent naming "n8n-go/" and the version, and has the JSON content type exactly when it has a body |
| StrConv.Atoi | client.go:91 | a parsed header value always lies in the 64-bit range |
| StrConv.Itoa | client.go:91 | the decimal rendering is non-empty and starts with '-' exactly for a negative number |
| StrConv.AtoiValue | client.go:91 | `Atoi` exactly, for every string: a well-formed string (optional sign, one or more digits, leading zeros allowed) whose value fits in 64 bits gives that value, and every other string is an error |
| StrConv.ParseDigitsValue | client.go:91 | the digit scan accepts exactly the non-empty all-digit strings and yields their decimal value |
| StrConv.AtoiOnlySyntax | client.go:91 | `Atoi` succeeds only on an optional sign followed by at least one digit |
| StrConv.AtoiAcceptsShort | client.go:91 | every such string of at most 18 characters is accepted |
| StrConv.AtoiItoa | client.go:91 | parsing the decimal rendering of any 64-bit integer gives that integer back |
| StrConv.AtoiRejectsEmptyAndSignOnly | client.go:91 | an absent header (""), "+" and "-" are rejected |
| Client.RetryDelay | client.go:89-96 | the delay before retrying a 429 is always at least one second |
| ClientProperties.RetryDelayHonoursHeader | client.go:91-92 | every header that `Atoi` reads as a positive number of seconds is the delay, exactly, whatever its sign or leading zeros |
| ClientProperties.RetryDelayDefaults | client.go:93-95 | every other header gives one second: an absent, non-numeric, zero, negative or out-of-range header |
| ClientProperties.RetryDelayOfItoa | client.go:91-92 | the canonical decimal rendering of any positive 64-bit number of seconds is that delay |
| ClientProperties.RetryDelayExamples | client.go:89-96 | "+5" and "05" give five seconds; "", "0", "-5", "soon" and an HTTP-date give one second |
| Client.RetryAfterAsWritten | client.go:91-95 | the delay as a 64-bit nanosecond duration; it equals the modelled delay in nanoseconds whenever that fits |
| Client.RetriesAsWritten | client.go:89-99 | the source's retry condition on the wrapped duration; it agrees with `Retries` whenever the delay fits the duration |
| ClientProperties.RetryAfterOverflow | client.go:92-99 | a header from 9223372037 to 18446744073 seconds yields a negative duration as written, so a fully read 429 on the first attempt fails the source's retry condition, while the modelled delay is the header value and the model retries |
| ClientProperties.RetryAfterWrapsToZero | client.go:92-99 | a header of k × 2^55 seconds (k from 1 to 255) yields a duration of exactly zero as written, so a fully read 429 on the first attempt fails the source's retry condition, while the model waits the header's seconds and retries |
| Client.ResponseError | client.go:81-86 | the error for a non-2xx reply carries the reply's status and raw body; code and message come from the envelope when present, else are empty (the envelope's other fields are not modelled, see Left out) |
| Client.Retries | client.go:99 | only a 429 arriving with attempts to spare is ever retried (the positive-delay half of the condition always holds, by `Client.RetryDelay`) |
| Client.Evaluate | client.go:68-126 | one pass of the loop retries exactly when the reply is a fully read 429 with attempts to spare and no cancellation, and then with the header's delay |
| Client.Run | client.go:67-128 | the loop sends at least once and never more often than the attempts left, waits once between two sends, and sends the same request each time |
| Client.RunShape | client.go:67-110 | every send but the last was answered by a retryable 429 followed by its delay, and the last reply alone decides the result |
| Client.DoRequest | client.go:53-58 | a request that cannot be built fails with a build error before any send; otherwise between one and four sends of the built request |
| ClientProperties.MachineFollowsRun | client.go:67-107 | from any attempt, the state machine finishes after three steps per retried send and two for the last, in the state the loop describes |
| ClientProperties.RunIsStateMachine | client.go:67-127 | after any number of steps allowing every attempt, the machine has the loop's result, send count and delays |
| ClientProperties.DoRequestIsStateMachine | client.go:53-128 | a whole call equals the state machine run for 3 × 4 steps |
| ClientProperties.RunRetriesOnlyAfterRateLimit | client.go:99-107 | the loop sends again exactly after a fully read, uncancelled 429 with attempts to spare; every wait is at least a second |
| ClientProperties.SendsAgainOnlyAfterRateLimit | client.go:99-107 | the same for a whole call: at most four sends, and only 429s are retried |
| ClientProperties.OnlyReceivedRepliesMatter | client.go:67-127 | two scripts that agree on the replies actually received give the same loop outcome |
| ClientProperties.DoRequestReadsOnlyReceived | client.go:53-127 | the same for a whole call |
| ClientProperties.ReturnIsFinalReply | client.go:68-126 | a pass that returns gives: transport or read failure; an APIError for any non-429 error status; a 429 on the last attempt as an APIError carrying its delay; cancellation; the 204 rule; decoding |
| ClientProperties.FinalReply | client.go:68-126 | the table itself: for each kind of last reply, the result the source returns; a fully read 404 always gives a not-found error |
| ClientProperties.FinalReplyDeterminesResult | client.go:68-126 | the table covers every reply except a retryable 429 and allows one result for each |
| ClientProperties.FinalReplyDecides | client.go:68-126 | the result of a call is read off its last received reply by that table |
| ClientProperties.PredicatesOnResult | errors.go:23-31 | `NotFound` holds of a call's result exactly when its last reply was a fully read 404; `noContent` exactly when it was a fully read 204 with `errorOnNoContent` (for envelopes and causes the model covers, see Left out) |
| ClientProperties.ErrorsAreApiOrLocal | client.go:55-126 | every error returned is an APIError or a locally raised one, and a local one satisfies neither predicate, as long as the cause it wraps is not an `APIError` (see Left out) |
| ClientProperties.RateLimitThenNoContent | client_test.go:96-115 | two 429s with `Retry-After: 1`, then a 204, succeed after exactly three sends and two one-second waits |
| ClientProperties.RateLimitWithoutHeaderRetries | client.go:93-99 | a 429 without `Retry-After` is retried after one second |
| ClientProperties.PersistentRateLimit | client.go:99-109 | a server that keeps answering 429 gets exactly four sends and three waits, then the last 429 as an APIError carrying its delay |
| ClientProperties.NotFoundIsNotRetried | client.go:99-109 | a 404 is returned after one send as an APIError with that status and body, which `NotFound` recognises |
| ClientProperties.CancelDuringBackoffStops | client.go:101-106 | cancellation during a backoff returns the context error at once, and it satisfies neither predicate |
| ClientProperties.DecodeFailureKeepsBody | client.go:120-126 | a success body that does not decode into the target is a decode error carrying the raw body; without a target it is a success |
| Errors.APIError.Error | errors.go:19-21 | the rendering is the code, then " - ", then the message |
| Errors.ErrorShowsCodeAndMessage | errors.go:19-21 | for equal codes, two errors render alike exactly when their messages agree, whatever their status, body and delay |
| Errors.AsAPIError | errors.go:25 | `errors.As` finds an APIError exactly when the error is not a locally raised one, and a bare APIError is found as itself |
| Errors.NotFound | errors.go:23-26 | only a non-nil error that is not locally raised can be not-found |
| Errors.NoContent | errors.go:28-31 | only a non-nil error that is not locally raised can be no-content |
| Errors.AsAPIErrorFound | errors.go:25 | an `APIError` that `errors.As` finds lies on the wrap chain |
| Errors.ChainAtFound | errors.go:25 | `errors.As` finds the `APIError` at the first position it occupies on the chain |
| Errors.PredicatesFollowChain | errors.go:23-31 | `NotFound` holds exactly for a non-nil error that is or wraps an APIError with status 404, `noContent` likewise for 204 |
| Errors.PredicatesExclusive | errors.go:23-31 | the two predicates never hold together and are false for nil |
| Errors.LocalErrorsMatchNeither | errors.go:23-31 | no locally raised error, however often wrapped, satisfies either predicate, as long as the cause it wraps is not an `APIError` (see Left out) |
| Errors.NoContentErrorClassified | client.go:115 | the no-content error satisfies `noContent` but not `NotFound`, also when wrapped, and renders as "no_content - no content" |

## Left out

- The HTTP transport (`http.Client.Do`), its five-minute timeout, `WithHTTPClient` and `resp.Body.Close` are not modelled. Each reply is an entry of the script.
- Client.NewClient: the options passed to `NewClient` (client.go:40-42) are not modelled, beyond the transport override. An option runs after the trimming and may set any exported field, so it can put a trailing slash back on `BaseURL` or change `APIKey`. The same holds for a caller assigning those fields later.
- JSON decoding is not modelled. The envelope of an error body and the success of decoding into the caller's target are oracle fields of a reply. Go's case-insensitive field matching is therefore not modelled either.
- Client.ResponseError: the envelope carries only `code` and `message`. In the source, `json.Unmarshal` at client.go:86 decodes into the whole `APIError`. Its untagged exported fields `StatusCode`, `RawMessage` and `RetryAfter` (errors.go:13-15) can therefore be overwritten by an envelope such as `{"error":{"StatusCode":200}}`. The model always keeps the reply's status and body. An overwritten `StatusCode` also changes the retry condition at client.go:99, and `RetryAfter` for non-429 statuses; neither is modelled.
- ClientProperties.PredicatesOnResult: its "exactly when" holds for envelopes that set only `code` and `message`, and for transport, read and decode errors whose wrapped cause is not an `APIError`. An envelope that overwrites `StatusCode` (see the line above) can make a 404 reply fail `NotFound`, or make another reply satisfy it. A caller's transport, body or target that returns an `APIError` (see the `Errors.LocalErrorsMatchNeither` line) can make `NotFound` or `noContent` hold for a transport, read or decode error, even when no 404 or 204 was received. The model covers neither case.
- The timer and the context in the backoff `select` are not modelled. A reply carries the fact that the context was done before its delay elapsed.
- Logging (`slog.Warn`) is left out, because it does not affect the result.
- The request body is left out. Only its presence (`hasBody`) is kept. That a body reader is drained by the first send and empty on a retry is not modelled.
- The version string is a parameter, because its value is set at link time. `DefaultVersion` is "dev".
- `http.NewRequestWithContext` is not modelled. Whether it succeeds is the flag `buildOk`, and its validation of the verb and URL is left out. So is its replacement of an empty method by "GET": `Client.NewRequest` keeps the verb as given.
- Header names are stored as written; their canonicalisation by `Header.Set` is left out.
- The HTTP-date form of `Retry-After` is not understood by the source either; it falls back to one second, as modelled.
- Errors that the source builds with `fmt.Errorf` carry only their kind. The cause they wrap with `%w` and the message text are left out. `Wrapped` stands for a caller wrapping an error again. With the default transport, an ordinary response body and a target without its own `UnmarshalJSON`, that cause is never an `APIError`.
- Errors.LocalErrorsMatchNeither: it holds only when the cause wrapped by a transport, read or decode error is not an `APIError`. In the source a caller can break this. A transport installed with `WithHTTPClient` can return an `APIError` from `RoundTrip`, which `http.Client.Do` wraps in a `*url.Error` and client.go:70 wraps again. A custom response body can return one from `Read` (client.go:76). A target with its own `UnmarshalJSON` can return one, which `json.Unmarshal` passes on and client.go:123 wraps. In each case `errors.As` at errors.go:25 and errors.go:30 finds that `APIError`, and `NotFound` or `noContent` can hold.
- ClientProperties.ErrorsAreApiOrLocal: its "a local one satisfies neither predicate" depends on the same condition. A transport, read or decode error that wraps a caller's `APIError` is not covered.
- The script must hold a reply for every send a call can make (`|server| >= 4`). Replies beyond those actually received have no effect (`ClientProperties.OnlyReceivedRepliesMatter`).
- `return lastErr` after the loop (client.go:128) is left out because it cannot be reached: a pass retries only when `attempt < maxRetries`, so the last pass always returns. `lastErr` is also never assigned, so it would be `nil`, not the last error seen.
- Client.RetryDelay: the delay is whole seconds with no upper bound, not the source's 64-bit `time.Duration`. `Client.RetryAfterAsWritten` models the source's wrap-around, and the Findings row explains the difference.

## Findings

| source | as written | input that shows it | evidently intended | confidence | as-written member | corrected member |
|---|---|---|---|---|---|---|
| client.go:91-99 | `time.Duration(secs) * time.Second` wraps around in 64 bits, and the retry guard then requires `RetryAfter > 0` | a 429 with `Retry-After: 9223372037`: the duration wraps to -9223372036709551616 ns, so the 429 is returned at once instead of being retried; `Retry-After: 36028797018963968` (2^55) wraps to exactly 0 ns with the same effect | every positive `Retry-After` gives a positive wait, so a 429 with attempts to spare is always retried | medium; not executed | Client.RetryAfterAsWritten, Client.RetriesAsWritten, ClientProperties.RetryAfterOverflow, ClientProperties.RetryAfterWrapsToZero | Client.RetryDelay, Client.Retries, Client.Evaluate |
