/** The error values the client returns (errors.go) and the predicates callers
    use to classify them. Go's dynamic `errors.As` type test becomes a search
    along the wrap chain of a tagged error for its `ApiErr` variant. */
module Errors {
  import opened Optional

  newtype byte = x: int | 0 <= x < 256

  /** An error reported by the service: the best-effort code and message from
      the error envelope, the HTTP status, the raw response body and the
      suggested retry delay in whole seconds (0 when there is none). */
  datatype APIError = APIError(code: string, message: string, statusCode: int,
                               rawMessage: seq<byte>, retryAfter: nat)
  {
    /** The user-facing rendering: code, then " - ", then message. */
    function Error(): (s: string)
      ensures |s| == |code| + 3 + |message|
      ensures s[..|code|] == code
      ensures s[|code|..|code| + 3] == " - "
      ensures s[|code| + 3..] == message
    {
      code + " - " + message
    }
  }

  /** The rendering shows only code and message: for equal codes, two errors
      render alike exactly when their messages agree, whatever their status,
      body and delay. */
  lemma ErrorShowsCodeAndMessage(a: APIError, b: APIError)
    requires a.code == b.code
    ensures a.Error() == b.Error() <==> a.message == b.message
  {
    if a.Error() == b.Error() {
      assert a.message == a.Error()[|a.code| + 3..];
    }
  }

  /** The error returned for a 204 response when the caller asked for content. */
  const NoContentError: APIError := APIError("no_content", "no content", 204, [], 0)

  /** Every error value the client produces, plus `Wrapped` for an error that
      a caller has wrapped again with `%w`. The local kinds stand for Go errors
      that wrap a cause the model does not track. With the default transport,
      an ordinary response body and a target without its own `UnmarshalJSON`,
      that cause is never an `APIError`; the model treats it as never one. */
  datatype Error =
    | ApiErr(api: APIError)
    | BuildErr
    | TransportErr
    | ReadErr
    | DecodeErr(raw: seq<byte>)
    | Cancelled
    | Wrapped(context: string, inner: Error)

  /** `errors.Unwrap`, restricted to the wrapping the model can see. */
  function Unwrap(e: Error): Option<Error> {
    match e
    case Wrapped(_, inner) => Some(inner)
    case _ => None
  }

  /** The k-th error along the wrap chain of `e`, if the chain is that long. */
  function ChainAt(e: Error, k: nat): Option<Error>
    decreases k
  {
    if k == 0 then Some(e)
    else match Unwrap(e)
      case None => None
      case Some(inner) => ChainAt(inner, k - 1)
  }

  /** `errors.As(err, &apiErr)`: the first `APIError` along the wrap chain. */
  function AsAPIError(e: Error): (r: Option<APIError>)
    ensures r.Some? <==> !IsLocal(e)
    ensures e.ApiErr? ==> r == Some(e.api)
  {
    match e
    case ApiErr(a) => Some(a)
    case Wrapped(_, inner) => AsAPIError(inner)
    case _ => None
  }

  /** The status-code accessor of the tagged error. */
  function StatusCode(e: Error): Option<int> {
    match AsAPIError(e)
    case Some(a) => Some(a.statusCode)
    case None => None
  }

  /** `NotFound(err)`; `None` stands for Go's nil error. Only a non-nil error
      that is not locally raised can match. */
  predicate NotFound(err: Option<Error>)
    ensures NotFound(err) ==> err.Some? && !IsLocal(err.value)
  {
    err.Some? && StatusCode(err.value) == Some(404)
  }

  /** `noContent(err)`. Only a non-nil error that is not locally raised can
      match. */
  predicate NoContent(err: Option<Error>)
    ensures NoContent(err) ==> err.Some? && !IsLocal(err.value)
  {
    err.Some? && StatusCode(err.value) == Some(204)
  }

  /** The errors raised locally rather than reported by the service, however
      often they have been wrapped. */
  predicate IsLocal(e: Error) {
    match e
    case ApiErr(_) => false
    case Wrapped(_, inner) => IsLocal(inner)
    case _ => true
  }

  lemma {:induction false} AsAPIErrorFound(e: Error)
    requires AsAPIError(e).Some?
    ensures exists k: nat :: ChainAt(e, k) == Some(ApiErr(AsAPIError(e).value))
  {
    match e
    case ApiErr(a) =>
      assert ChainAt(e, 0) == Some(ApiErr(a));
    case Wrapped(_, inner) =>
      AsAPIErrorFound(inner);
      var k: nat :| ChainAt(inner, k) == Some(ApiErr(AsAPIError(inner).value));
      assert ChainAt(e, k + 1) == ChainAt(inner, k);
  }

  lemma {:induction false} ChainAtFound(e: Error, k: nat, a: APIError)
    requires ChainAt(e, k) == Some(ApiErr(a))
    ensures AsAPIError(e) == Some(a)
    decreases k
  {
    if k > 0 {
      match e
      case Wrapped(_, inner) =>
        ChainAtFound(inner, k - 1, a);
    }
  }

  /** `errors.As` finds an `APIError` exactly when one lies on the wrap chain,
      so `NotFound` holds exactly for a non-nil error that is, or wraps, an
      `APIError` with status 404, and `NoContent` likewise for 204. */
  lemma PredicatesFollowChain(err: Option<Error>)
    ensures NotFound(err) <==>
      err.Some? && exists k: nat, a :: ChainAt(err.value, k) == Some(ApiErr(a)) && a.statusCode == 404
    ensures NoContent(err) <==>
      err.Some? && exists k: nat, a :: ChainAt(err.value, k) == Some(ApiErr(a)) && a.statusCode == 204
  {
    if err.Some? {
      var e := err.value;
      if AsAPIError(e).Some? {
        AsAPIErrorFound(e);
      }
      forall k: nat, a | ChainAt(e, k) == Some(ApiErr(a))
        ensures AsAPIError(e) == Some(a)
      {
        ChainAtFound(e, k, a);
      }
    }
  }

  /** The two predicates never hold together, and both are false for nil. */
  lemma PredicatesExclusive(err: Option<Error>)
    ensures !(NotFound(err) && NoContent(err))
    ensures err.None? ==> !NotFound(err) && !NoContent(err)
  {
  }

  /** No locally raised error, wrapped or not, satisfies either predicate,
      given that its untracked cause is not an `APIError`. */
  lemma {:induction false} LocalErrorsMatchNeither(e: Error)
    requires IsLocal(e)
    ensures AsAPIError(e).None?
    ensures !NotFound(Some(e)) && !NoContent(Some(e))
  {
    match e
    case Wrapped(_, inner) =>
      LocalErrorsMatchNeither(inner);
    case _ =>
  }

  /** The no-content error satisfies `NoContent` and not `NotFound`, also
      behind a wrapper, and renders as "no_content - no content". */
  lemma NoContentErrorClassified(context: string)
    ensures NoContent(Some(ApiErr(NoContentError))) && !NotFound(Some(ApiErr(NoContentError)))
    ensures NoContent(Some(Wrapped(context, ApiErr(NoContentError))))
    ensures !NotFound(Some(Wrapped(context, ApiErr(NoContentError))))
    ensures NoContentError.Error() == "no_content - no content"
  {
  }
}
