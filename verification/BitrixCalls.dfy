/**
 One call to the Bitrix24 portal: how a reply becomes an error, and which
 failed writes are ambiguous, that is, may have taken effect.

 A remote error is normalized through a constructor that can refuse its
 metadata. The callers ignore that refusal and return the nil pointer, which as
 an `error` value is not nil; asking such an error for its category crashes.
 */
module BitrixCalls {
  import opened Text

  datatype Category = InvalidRequest | Unauthorized | Forbidden | NotFound | Conflict | RateLimited | Transient | Unavailable

  /** `NilRemote` is the typed nil pointer described above. */
  datatype CallError = InvalidResponse | Remote(category: Category) | NilRemote

  /** `error` is the body's error text in upper case, "" when there is none. */
  datatype Body = NotJson | Json(error: string)

  datatype Reply =
    | TransportFailure
    | Reply(status: int, oversized: bool, retryAfterMS: int, requestIDValid: bool, body: Body)

  const NANOS_PER_MS := 1_000_000
  const DAY_MS := 86_400_000

  /** Signed 64-bit wrap-around of a product. */
  function Wrap64(n: int): int {
    (n + 0x8000_0000_0000_0000) % 0x1_0000_0000_0000_0000 - 0x8000_0000_0000_0000
  }

  function RetryNanos(retryAfterMS: int): int { Wrap64(retryAfterMS * NANOS_PER_MS) }

  predicate MayRetry(c: Category) { c.RateLimited? || c.Unavailable? || c.Transient? }

  /** `NewRemoteError` with its refusal ignored. */
  function NewRemoteError(c: Category, requestIDValid: bool, retryNanos: int): CallError {
    if retryNanos < 0 || retryNanos > DAY_MS * NANOS_PER_MS then NilRemote
    else if !requestIDValid then NilRemote
    else if retryNanos / NANOS_PER_MS > 0 && !MayRetry(c) then NilRemote
    else Remote(c)
  }

  function StatusCategory(status: int): Category {
    if status in {400, 405, 406, 415, 422} then InvalidRequest
    else if status == 401 then Unauthorized
    else if status == 403 then Forbidden
    else if status == 404 then NotFound
    else if status == 409 then Conflict
    else if status == 429 then RateLimited
    else if status in {500, 502, 503, 504} then Unavailable
    else Transient
  }

  function BodyCategory(error: string): Category {
    if Contains(error, "EXPIRED_TOKEN") || Contains(error, "INVALID_TOKEN") || Contains(error, "NO_AUTH") then Unauthorized
    else if Contains(error, "ACCESS_DENIED") || Contains(error, "INSUFFICIENT_SCOPE") || Contains(error, "FORBIDDEN") then Forbidden
    else if Contains(error, "QUERY_LIMIT") || Contains(error, "TOO_MANY") then RateLimited
    else if Contains(error, "NOT_FOUND") then NotFound
    else InvalidRequest
  }

  function NormalizeHTTP(r: Reply): Option<CallError>
    requires r.Reply?
  {
    if r.oversized || r.retryAfterMS < 0 then Some(InvalidResponse)
    else if 200 <= r.status < 300 then None
    else
      var c := StatusCategory(r.status);
      Some(NewRemoteError(c, r.requestIDValid, if MayRetry(c) then RetryNanos(r.retryAfterMS) else 0))
  }

  function NormalizeAPIError(r: Reply): Option<CallError>
    requires r.Reply?
  {
    match r.body
    case NotJson => Some(InvalidResponse)
    case Json(error) =>
      if error == "" then None
      else Some(NewRemoteError(BodyCategory(error), r.requestIDValid, RetryNanos(r.retryAfterMS)))
  }

  /** The error a call returns; `None` when the body is handed to the caller. */
  function Call(r: Reply): Option<CallError> {
    match r
    case TransportFailure => Some(NewRemoteError(Unavailable, true, 0))
    case Reply(_, _, _, _, _) =>
      if NormalizeHTTP(r).Some? then NormalizeHTTP(r) else NormalizeAPIError(r)
  }

  datatype Ambiguity = Definite | Ambiguous | Crash

  function ClassifyWrite(e: CallError): Ambiguity {
    match e
    case InvalidResponse => Definite
    case Remote(c) => if MayRetry(c) then Ambiguous else Definite
    case NilRemote => Crash
  }

  // ---------- Which replies are which ----------

  predicate ErrorStatus(r: Reply) { r.Reply? && !r.oversized && r.retryAfterMS >= 0 && !(200 <= r.status < 300) }
  predicate ErrorBody(r: Reply) {
    r.Reply? && !r.oversized && r.retryAfterMS >= 0 && 200 <= r.status < 300 && r.body.Json? && r.body.error != ""
  }

  /** The error text is about credentials or permissions. */
  predicate AboutAccess(error: string) {
    || Contains(error, "EXPIRED_TOKEN") || Contains(error, "INVALID_TOKEN") || Contains(error, "NO_AUTH")
    || Contains(error, "ACCESS_DENIED") || Contains(error, "INSUFFICIENT_SCOPE") || Contains(error, "FORBIDDEN")
  }

  /** Worth retrying: every error status but those of a refused, unauthorized, unknown or conflicting request, and the limits named in a body. */
  predicate Retryable(r: Reply)
    requires ErrorStatus(r) || ErrorBody(r)
  {
    if ErrorStatus(r) then r.status !in {400, 401, 403, 404, 405, 406, 409, 415, 422}
    else !AboutAccess(r.body.error) && (Contains(r.body.error, "QUERY_LIMIT") || Contains(r.body.error, "TOO_MANY"))
  }

  /** The request id is unusable, or the retry delay is (as a duration) negative or above a day. */
  predicate MetadataRefused(r: Reply)
    requires ErrorStatus(r) || ErrorBody(r)
  {
    || !r.requestIDValid
    || (Retryable(r) && !(0 <= RetryNanos(r.retryAfterMS) <= DAY_MS * NANOS_PER_MS))
    || (!Retryable(r) && ErrorBody(r) && !(0 <= RetryNanos(r.retryAfterMS) < NANOS_PER_MS))
  }

  predicate Succeeds(r: Reply) {
    r.Reply? && !r.oversized && r.retryAfterMS >= 0 && 200 <= r.status < 300 && r.body == Json("")
  }

  predicate Crashing(r: Reply) { (ErrorStatus(r) || ErrorBody(r)) && MetadataRefused(r) }

  predicate AmbiguousReply(r: Reply) {
    r.TransportFailure? || ((ErrorStatus(r) || ErrorBody(r)) && !MetadataRefused(r) && Retryable(r))
  }

  lemma StatusRetryableIff(status: int)
    ensures MayRetry(StatusCategory(status)) <==> status !in {400, 401, 403, 404, 405, 406, 409, 415, 422}
  {
  }

  lemma BodyRetryableIff(error: string)
    ensures MayRetry(BodyCategory(error)) <==> !AboutAccess(error) && (Contains(error, "QUERY_LIMIT") || Contains(error, "TOO_MANY"))
  {
  }

  lemma RefusedMetadataIff(c: Category, valid: bool, nanos: int)
    ensures NewRemoteError(c, valid, nanos) == NilRemote <==>
              !valid || nanos < 0 || (if MayRetry(c) then nanos > DAY_MS * NANOS_PER_MS else nanos >= NANOS_PER_MS)
    ensures NewRemoteError(c, valid, nanos) == NilRemote || NewRemoteError(c, valid, nanos) == Remote(c)
  {
    assert nanos >= 0 ==> (nanos / NANOS_PER_MS > 0 <==> nanos >= NANOS_PER_MS);
  }

  /** A call hands its body to the caller exactly for a 2xx reply of bounded size without an error text. */
  lemma SuccessIff(r: Reply)
    ensures Call(r).None? <==> Succeeds(r)
  {
  }

  /** Classifying a failed write crashes exactly on error replies whose metadata is refused. */
  lemma CrashIff(r: Reply)
    ensures (Call(r).Some? && ClassifyWrite(Call(r).value) == Crash) <==> Crashing(r)
  {
    if ErrorStatus(r) {
      StatusRetryableIff(r.status);
      var c := StatusCategory(r.status);
      RefusedMetadataIff(c, r.requestIDValid, if MayRetry(c) then RetryNanos(r.retryAfterMS) else 0);
    } else if ErrorBody(r) {
      BodyRetryableIff(r.body.error);
      RefusedMetadataIff(BodyCategory(r.body.error), r.requestIDValid, RetryNanos(r.retryAfterMS));
    }
  }

  /** A rate-limited reply with an unusable request id: retrying would be right, but classifying it crashes. */
  lemma CrashExample() returns (r: Reply)
    ensures ErrorStatus(r) && Retryable(r)
    ensures Call(r).Some? && ClassifyWrite(Call(r).value) == Crash
  {
    r := Reply(429, false, 0, false, Json(""));
    CrashIff(r);
  }

  /**
   Ambiguous are: no reply at all, and retryable error replies with acceptable
   metadata. In particular an unreadable 2xx body, a refused request and a
   conflict are definite, although the first may have landed.
   */
  lemma AmbiguousIff(r: Reply)
    ensures (Call(r).Some? && ClassifyWrite(Call(r).value) == Ambiguous) <==> AmbiguousReply(r)
  {
    CrashIff(r);
    if ErrorStatus(r) {
      StatusRetryableIff(r.status);
    } else if ErrorBody(r) {
      BodyRetryableIff(r.body.error);
    }
  }

  /** For delays that fit a duration, the refusal is about the reported milliseconds. */
  lemma DelayWithoutOverflow(ms: int)
    requires 0 <= ms <= 0x7FFF_FFFF_FFFF_FFFF / NANOS_PER_MS
    ensures 0 <= RetryNanos(ms) <= DAY_MS * NANOS_PER_MS <==> ms <= DAY_MS
    ensures 0 <= RetryNanos(ms) < NANOS_PER_MS <==> ms == 0
  {
    assert RetryNanos(ms) == ms * NANOS_PER_MS;
  }
}
