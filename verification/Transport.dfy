/**
 The one function every call to the private service goes through. It turns whatever happens on the wire
 into a result, and decides whether to send again.
 */
module Transport {
  import opened Wrappers
  import Decimal

  const MAX_RETRY_AFTER_FOR_RETRY_SECONDS := 1

  datatype Problem = Problem(code: string, fieldErrors: seq<(string, string)>)

  /** A response with its parsed body; `error` is the body when it is a well-formed problem. */
  datatype Raw<T> = Raw(
    status: int, data: Option<T>, error: Option<Problem>, etag: Option<string>, retryAfter: Option<string>,
    replayed: Option<string>)

  datatype Failure = TimeoutError | AbortError | SyntaxError | OtherError

  /** What one send comes to. */
  datatype Sent<T> = Answered(raw: Raw<T>) | Threw(failure: Failure)

  datatype Reason = Timeout | Network | MalformedResponse | Aborted

  datatype ApiResult<T> =
    | Ok(status: int, data: Option<T>, etag: Option<string>, replayed: bool)
    | NotModified(etag: Option<string>)
    | Refused(status: int, problem: Problem, retryAfterSeconds: Option<nat>)
    | Unavailable(reason: Reason)

  /** `etag` is the caller's earlier entity tag. */
  datatype Policy = Policy(retry: bool, etag: Option<string>)

  function ParseRetryAfter(header: Option<string>): Option<nat> {
    if header.Some? && Decimal.IsDecimal(header.value, 6) then Some(Decimal.Value(header.value)) else None
  }

  predicate Success(status: int) {
    200 <= status <= 299
  }

  predicate IsTransient<T>(raw: Raw<T>) {
    && raw.status == 503
    && var after := ParseRetryAfter(raw.retryAfter);
    after.None? || after.value <= MAX_RETRY_AFTER_FOR_RETRY_SECONDS
  }

  // ---- What the result should be ----

  /** Outcomes after which a read is sent again: a transient 503, or a failure that is no abort, timeout or bad body. */
  predicate WorthRetrying<T>(sent: Sent<T>) {
    match sent
    case Threw(failure) => failure.OtherError?
    case Answered(raw) => IsTransient(raw)
  }

  /** The result an outcome has when it is the last one. */
  function Settled<T>(sent: Sent<T>, etag: Option<string>): ApiResult<T> {
    match sent
    case Threw(TimeoutError) => Unavailable(Timeout)
    case Threw(AbortError) => Unavailable(Aborted)
    case Threw(SyntaxError) => Unavailable(MalformedResponse)
    case Threw(OtherError) => Unavailable(Network)
    case Answered(raw) =>
      if raw.status == 304 then NotModified(if raw.etag.Some? then raw.etag else etag)
      else if Success(raw.status) then
        if raw.data.Some? || raw.status == 204 then Ok(raw.status, raw.data, raw.etag, raw.replayed == Some("true"))
        else Unavailable(MalformedResponse)
      else if raw.error.Some? then Refused(raw.status, raw.error.value, ParseRetryAfter(raw.retryAfter))
      else Unavailable(MalformedResponse)
  }

  // ---- What happens to a send ----

  /**
   A send and what becomes of it: the service's answer comes back, or nothing does, or something in between
   answers in its stead. `effect` says whether this very send changed anything on the service.
   */
  datatype Fate<T> =
    | Answer(effect: bool, raw: Raw<T>)
    | Lost(effect: bool, failure: Failure)
    | Replaced(effect: bool, raw: Raw<T>)

  function Seen<T>(fate: Fate<T>): Sent<T> {
    match fate
    case Answer(_, raw) => Answered(raw)
    case Lost(_, failure) => Threw(failure)
    case Replaced(_, raw) => Answered(raw)
  }

  /** A response whose body tells nothing that its status calls for. */
  predicate Unreadable<T>(raw: Raw<T>) {
    && raw.status != 304
    && if Success(raw.status) then raw.data.None? && raw.status != 204 else raw.error.None?
  }

  /**
   The service answers a mutation with success after it has committed it, or replays an earlier success, and
   with anything else after it has rolled it back. What is lost or replaced may have been handled or not; what
   replaces an answer is not readable as one.
   */
  predicate Possible<T>(fate: Fate<T>) {
    match fate
    case Answer(effect, raw) => effect <==> Success(raw.status) && raw.replayed != Some("true")
    case Lost(_, _) => true
    case Replaced(_, raw) => Unreadable(raw)
  }

  // ---- The loop ----

  /** The wire: what will become of each send in turn, how many were made and had an effect, how often we slept. */
  class Wire<T(==)> {
    const script: nat -> Fate<T>
    var sends: nat
    var effects: nat
    var sleeps: nat

    constructor (script: nat -> Fate<T>)
      ensures this.script == script && sends == 0 && effects == 0 && sleeps == 0
    {
      this.script := script;
      sends, effects, sleeps := 0, 0, 0;
    }

    method Send() returns (sent: Sent<T>)
      modifies this`sends, this`effects
      ensures sends == old(sends) + 1 && sent == Seen(script(old(sends)))
      ensures effects == old(effects) + if script(old(sends)).effect then 1 else 0
    {
      sent := Seen(script(sends));
      effects := effects + if script(sends).effect then 1 else 0;
      sends := sends + 1;
    }

    /**
     A mutation is sent exactly once, whatever happens. A read is sent at most twice: again exactly when the
     first outcome was worth retrying, and then its result is what the second outcome alone would give.
     */
    method Execute(policy: Policy) returns (result: ApiResult<T>)
      modifies this
      ensures var again := policy.retry && WorthRetrying(Seen(script(old(sends))));
              && sends == old(sends) + (if again then 2 else 1)
              && sleeps == old(sleeps) + (if again then 1 else 0)
              && result == Settled(Seen(script(sends - 1)), policy.etag)
      ensures !policy.retry ==> effects == old(effects) + if script(old(sends)).effect then 1 else 0
    {
      var attempts := if policy.retry then 2 else 1;
      for attempt := 0 to attempts
        invariant sends == old(sends) + attempt && sleeps == old(sleeps) + attempt
        invariant attempt > 0 ==> policy.retry && WorthRetrying(Seen(script(old(sends))))
        invariant attempt == 0 ==> effects == old(effects)
        invariant attempt < attempts
      {
        var sent := Send();
        if sent.Threw? {
          match sent.failure {
            case TimeoutError => return Unavailable(Timeout);
            case AbortError => return Unavailable(Aborted);
            case SyntaxError => return Unavailable(MalformedResponse);
            case OtherError =>
          }
          if attempt + 1 < attempts {
            sleeps := sleeps + 1;
            continue;
          }
          return Unavailable(Network);
        }
        var raw := sent.raw;
        if raw.status == 304 {
          return NotModified(if raw.etag.Some? then raw.etag else policy.etag);
        }
        if Success(raw.status) && (raw.data.Some? || raw.status == 204) {
          return Ok(raw.status, raw.data, raw.etag, raw.replayed == Some("true"));
        }
        if attempt + 1 < attempts && IsTransient(raw) {
          sleeps := sleeps + 1;
          continue;
        }
        if Success(raw.status) || raw.error.None? {
          return Unavailable(MalformedResponse);
        }
        return Refused(raw.status, raw.error.value, ParseRetryAfter(raw.retryAfter));
      }
      assert false;
    }

    /**
     A mutation has at most one effect. It had that effect if the result is a success that is no replay, and
     none if it is any other answer of the service.
     */
    method Mutate() returns (result: ApiResult<T>)
      requires Possible(script(sends))
      modifies this
      ensures sends == old(sends) + 1 && sleeps == old(sleeps)
      ensures result == Settled(Seen(script(old(sends))), None)
      ensures old(effects) <= effects <= old(effects) + 1
      ensures !result.Unavailable? ==> (effects == old(effects) + 1 <==> result.Ok? && !result.replayed)
    {
      result := Execute(Policy(false, None));
    }
  }

  // ---- What callers may conclude ----

  /**
   The caller of a mutation cannot tell whether it had its effect exactly when the result is unavailable: then
   what it saw is what it would have seen either way. Every other result decides it.
   */
  lemma UnavailableIffUndecided<T(!new)>(sent: Sent<T>, etag: Option<string>)
    ensures Settled(sent, etag).Unavailable? <==>
              && (exists done: Fate<T> :: Possible(done) && Seen(done) == sent && done.effect)
              && (exists undone: Fate<T> :: Possible(undone) && Seen(undone) == sent && !undone.effect)
  {
    if Settled(sent, etag).Unavailable? {
      var done := if sent.Threw? then Lost(true, sent.failure) else Replaced(true, sent.raw);
      var undone := if sent.Threw? then Lost(false, sent.failure) else Replaced(false, sent.raw);
      assert Possible(done) && Seen(done) == sent && Possible(undone) && Seen(undone) == sent;
    }
  }

  // ---- "Only for a transient 503" ----

  /** A service that says in any number of digits how long to wait. */
  predicate NamesWait<T>(raw: Raw<T>, header: string) {
    raw.status == 503 && raw.retryAfter == Some(header) && header != "" && forall i :: 0 <= i < |header| ==>
      Decimal.IsDigit(header[i])
  }

  /**
   A wait is respected only if it is written in at most six digits: a read is sent again at once exactly when
   the wait is zero or one second, or has seven digits or more and so is not read at all.
   */
  lemma WaitsAreReadUpToSixDigits<T>(raw: Raw<T>, header: string)
    requires NamesWait(raw, header)
    ensures WorthRetrying(Answered(raw)) <==> Decimal.Value(header) <= 1 || |header| > 6
  {
  }

  /** In seconds: waits of 1,000,000 and more are not respected. */
  lemma LongWaitsAreIgnored<T>(raw: Raw<T>, seconds: nat)
    requires raw.status == 503 && raw.retryAfter == Some(Decimal.Digits(seconds))
    ensures WorthRetrying(Answered(raw)) <==> seconds <= 1 || seconds >= 1_000_000
  {
    Decimal.ValueOfDigits(seconds);
    Decimal.LengthOfDigits(seconds, 6);
    Decimal.PowersOfTen();
    WaitsAreReadUpToSixDigits(raw, Decimal.Digits(seconds));
  }

  /** Nor is any wait given in another form, such as a date, however far ahead it lies. */
  lemma OtherFormsAreIgnored<T>(raw: Raw<T>, header: string, i: nat)
    requires raw.status == 503 && raw.retryAfter == Some(header) && i < |header| && !Decimal.IsDigit(header[i])
    ensures WorthRetrying(Answered(raw))
  {
    assert !Decimal.IsDecimal(header, 6);
  }

  /** Both kinds of failing input: eleven and a half days, and a date. */
  lemma RetriedAtOnce<T>(raw: Raw<T>)
    requires raw.status == 503
    ensures WorthRetrying(Answered(raw.(retryAfter := Some("1000000"))))
    ensures WorthRetrying(Answered(raw.(retryAfter := Some("Fri, 31 Dec 2099 23:59:59 GMT"))))
  {
    var days, date := "1000000", "Fri, 31 Dec 2099 23:59:59 GMT";
    WaitsAreReadUpToSixDigits(raw.(retryAfter := Some(days)), days);
    assert !Decimal.IsDigit(date[0]);
    OtherFormsAreIgnored(raw.(retryAfter := Some(date)), date, 0);
  }
}
