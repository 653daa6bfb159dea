/**
 * The retrying transport of the DriftQ client: which requests may be
 * retried, which statuses are transient, how long to wait between attempts,
 * the attempt loop of `request_json`, the decoding of a final response, and
 * the line filter of the streaming read. The network is an abstract sequence
 * of attempt outcomes; `random.random()`, the wall clock and HTTP-date
 * parsing are parameters.
 */
module HttpClient {
  import opened Common
  import opened Json

  // ---------------------------------------------------------------------
  // Retry configuration
  // ---------------------------------------------------------------------

  /** Transport retry policy; delays in seconds. */
  datatype RetryConfig = RetryConfig(maxAttempts: int, baseDelay: real, maxDelay: real)

  const DefaultRetry := RetryConfig(3, 0.1, 2.0)

  /** A configuration the attempt loop can use as it is. */
  predicate Usable(c: RetryConfig) {
    c.maxAttempts >= 1 && c.baseDelay > 0.0 && c.maxDelay > 0.0
  }

  /** `RetryConfig.normalized`: a non-positive attempt count becomes 1 and a
      non-positive delay its default. */
  function Normalized(c: RetryConfig): (r: RetryConfig)
    ensures Usable(r)
    ensures c.maxAttempts > 0 ==> r.maxAttempts == c.maxAttempts
    ensures c.maxAttempts <= 0 ==> r.maxAttempts == 1
    ensures c.baseDelay > 0.0 ==> r.baseDelay == c.baseDelay
    ensures c.baseDelay <= 0.0 ==> r.baseDelay == DefaultRetry.baseDelay
    ensures c.maxDelay > 0.0 ==> r.maxDelay == c.maxDelay
    ensures c.maxDelay <= 0.0 ==> r.maxDelay == DefaultRetry.maxDelay
  {
    var ma := if c.maxAttempts <= 0 then 1 else c.maxAttempts;
    var bd := if c.baseDelay > 0.0 then c.baseDelay else 0.1;
    var md := if c.maxDelay > 0.0 then c.maxDelay else 2.0;
    RetryConfig(ma, bd, md)
  }

  /** Normalising is idempotent, and it leaves exactly the usable configurations unchanged. */
  lemma NormalizedFixedPoints(c: RetryConfig)
    ensures Normalized(Normalized(c)) == Normalized(c)
    ensures Normalized(c) == c <==> Usable(c)
  {
  }

  // ---------------------------------------------------------------------
  // Retry eligibility
  // ---------------------------------------------------------------------

  /** The methods RFC 9110 section 9.2.1 calls safe, as the client names them. */
  const SafeMethods: set<string> := {"GET", "HEAD", "OPTIONS"}

  /** `str.upper()` on one character, as far as membership in the safe
      methods can tell: `a`-`z`, U+0131 (dotless i, upper-cases to `I`) and
      U+017F (long s, upper-cases to `S`) are the only characters whose upper
      case is a single ASCII capital they are not already. Characters whose
      upper case is longer (U+00DF to "SS", the ligatures U+FB00-U+FB06 to
      "FF", "FI", "FL", "FFI", "FFL", "ST") are kept as they are: none of
      those strings occurs in GET, HEAD or OPTIONS, so either way the method
      is not safe. */
  function FoldChar(c: char): char {
    if 'a' <= c <= 'z' then (c as int - 32) as char
    else if c == '\U{131}' then 'I'
    else if c == '\U{17F}' then 'S'
    else c
  }

  function Fold(m: string): (r: string)
    ensures |r| == |m| && forall i :: 0 <= i < |m| ==> r[i] == FoldChar(m[i])
  {
    if m == [] then [] else [FoldChar(m[0])] + Fold(m[1..])
  }

  /** `_is_safe_method`: `method.upper() in ("GET", "HEAD", "OPTIONS")`. */
  predicate IsSafeMethod(m: string) {
    Fold(m) in SafeMethods
  }

  /** The characters whose upper case is the ASCII capital `u`. */
  predicate SpellsCapital(c: char, u: char)
    requires 'A' <= u <= 'Z'
  {
    || c == u
    || c as int == u as int + 32
    || (u == 'I' && c == '\U{131}')
    || (u == 'S' && c == '\U{17F}')
  }

  /** `m` is `w` written in any mix of cases. */
  predicate IsCaseVariant(m: string, w: string)
    requires forall i :: 0 <= i < |w| ==> 'A' <= w[i] <= 'Z'
  {
    |m| == |w| && forall i :: 0 <= i < |m| ==> SpellsCapital(m[i], w[i])
  }

  lemma FoldCharSpells(c: char, u: char)
    requires 'A' <= u <= 'Z'
    ensures FoldChar(c) == u <==> SpellsCapital(c, u)
  {
  }

  lemma FoldMatches(m: string, w: string)
    requires forall i :: 0 <= i < |w| ==> 'A' <= w[i] <= 'Z'
    ensures Fold(m) == w <==> IsCaseVariant(m, w)
  {
    if |m| == |w| {
      forall i | 0 <= i < |m| ensures FoldChar(m[i]) == w[i] <==> SpellsCapital(m[i], w[i]) {
        FoldCharSpells(m[i], w[i]);
      }
      if IsCaseVariant(m, w) {
        assert Fold(m) == w;
      }
    }
  }

  /** A method is safe exactly when it spells GET, HEAD or OPTIONS in any mix of cases. */
  lemma SafeMethodIsCaseVariant(m: string)
    ensures IsSafeMethod(m) <==>
      IsCaseVariant(m, "GET") || IsCaseVariant(m, "HEAD") || IsCaseVariant(m, "OPTIONS")
  {
    FoldMatches(m, "GET");
    FoldMatches(m, "HEAD");
    FoldMatches(m, "OPTIONS");
  }

  /** `_retryable_status`: rate limiting (RFC 6585 section 4) and transient server errors. */
  predicate IsRetryableStatus(status: int) {
    status in {429, 500, 502, 503, 504}
  }

  const IdempotencyKeyHeader := "Idempotency-Key"

  /** `_can_retry`: safe methods always; others only with a non-empty `Idempotency-Key`. */
  predicate CanRetry(m: string, headers: map<string, string>) {
    IsSafeMethod(m) || (IdempotencyKeyHeader in headers && headers[IdempotencyKeyHeader] != "")
  }

  /** The headers of a request: the client's defaults, overridden by the caller's. */
  function RequestHeaders(userAgent: string, headers: map<string, string>): (h: map<string, string>)
    ensures h.Keys == headers.Keys + {"Accept", "User-Agent"}
    ensures forall k :: k in headers ==> h[k] == headers[k]
    ensures "Accept" !in headers ==> h["Accept"] == "application/json"
    ensures "User-Agent" !in headers ==> h["User-Agent"] == userAgent
  {
    map["Accept" := "application/json", "User-Agent" := userAgent] + headers
  }

  /** An unsafe method is retried only with a non-empty idempotency key from
      the caller; the client's default headers never supply one. */
  lemma CanRetryUnsafe(m: string, userAgent: string, headers: map<string, string>)
    requires !IsSafeMethod(m)
    ensures CanRetry(m, RequestHeaders(userAgent, headers)) <==>
      IdempotencyKeyHeader in headers && headers[IdempotencyKeyHeader] != ""
  {
  }

  // ---------------------------------------------------------------------
  // Waiting between attempts
  // ---------------------------------------------------------------------

  /** `_parse_retry_after` (RFC 9110 section 10.2.3): integer seconds, else an
      HTTP-date (RFC 9110 section 5.6.7) measured from `now`; never negative.
      `parseDate` is `parsedate_to_datetime` read as seconds since the epoch
      (`None` where it raises). */
  function ParseRetryAfter(h: string, now: real, parseDate: string -> Option<real>): (r: Option<real>)
    ensures h == "" ==> r == None
    ensures r.Some? ==> r.value >= 0.0
  {
    if h == "" then None
    else match ParseInt(h)
      case Some(secs) => Some(if secs as real > 0.0 then secs as real else 0.0)
      case None =>
        match parseDate(h)
        case Some(t) => Some(if t - now > 0.0 then t - now else 0.0)
        case None => None
  }

  /** A header holding the decimal text of `n` seconds asks for exactly `max(0, n)`. */
  lemma RetryAfterSeconds(n: int, now: real, parseDate: string -> Option<real>)
    ensures ParseRetryAfter(DecimalText(n), now, parseDate) == Some(if n > 0 then n as real else 0.0)
  {
    ParseIntOfDecimalText(n);
    assert DecimalText(n) != "";
  }

  /** A header that is not an integer is read as an HTTP-date: a date gives
      the time left until it, never negative, and an unparseable one nothing. */
  lemma RetryAfterDate(h: string, now: real, parseDate: string -> Option<real>)
    requires h != "" && ParseInt(h) == None
    ensures parseDate(h).Some? ==>
      var t := parseDate(h).value;
      ParseRetryAfter(h, now, parseDate) == Some(if t - now > 0.0 then t - now else 0.0)
    ensures parseDate(h).None? ==> ParseRetryAfter(h, now, parseDate) == None
  {
  }

  /** `2 ** k` as Python computes it for an `int` exponent. */
  function Pow2(k: int): (r: real)
    ensures r > 0.0
    decreases if k >= 0 then k else -k
  {
    if k == 0 then 1.0 else if k > 0 then 2.0 * Pow2(k - 1) else Pow2(k + 1) / 2.0
  }

  lemma {:induction false} Pow2Monotone(j: int, k: int)
    requires j <= k
    ensures Pow2(j) <= Pow2(k)
    decreases k - j
  {
    if j < k {
      Pow2Monotone(j, k - 1);
      assert Pow2(k - 1) <= Pow2(k) by {
        if k > 0 {
        } else {
          assert Pow2(k - 1) == Pow2(k) / 2.0;
        }
      }
    }
  }

  /** The un-jittered delay before retry number `attempt`: `min(cap, base * 2 ** (attempt - 1))`. */
  function CappedDelay(base: real, cap: real, attempt: int): real {
    var raw := base * Pow2(attempt - 1);
    if cap < raw then cap else raw
  }

  /** `_backoff_s`, with `r` standing for `random.random()`. */
  function Backoff(base: real, cap: real, attempt: int, r: real): real {
    CappedDelay(base, cap, attempt) * (0.8 + 0.4 * r)
  }

  /** The jittered delay lies in `[0.8 d, 1.2 d)` around the capped delay `d`,
      and never exceeds `1.2 * cap`. */
  lemma BackoffBounds(base: real, cap: real, attempt: int, r: real)
    requires base > 0.0 && cap > 0.0 && 0.0 <= r < 1.0
    ensures var d := CappedDelay(base, cap, attempt);
      && 0.0 < d <= cap
      && 0.8 * d <= Backoff(base, cap, attempt, r) < 1.2 * d
      && Backoff(base, cap, attempt, r) < 1.2 * cap
  {
    var raw := base * Pow2(attempt - 1);
    assert raw > 0.0 by { MulPositive(base, Pow2(attempt - 1)); }
    var d := CappedDelay(base, cap, attempt);
    var j := 0.8 + 0.4 * r;
    assert 0.8 <= j < 1.2;
    MulBounds(d, 0.8, j, 1.2);
    assert Backoff(base, cap, attempt, r) == d * j;
    assert d * 1.2 == 1.2 * d && d * 0.8 == 0.8 * d;
  }

  lemma MulPositive(x: real, y: real)
    requires x > 0.0 && y > 0.0
    ensures x * y > 0.0
  {
  }

  lemma MulBounds(d: real, lo: real, j: real, hi: real)
    requires d > 0.0 && lo <= j < hi
    ensures d * lo <= d * j < d * hi
  {
  }

  /** The lower bound `0.8 * base * 2 ** (attempt - 1)` holds only while the
      cap does not bind: with base 1 s, cap 1 s and the lowest jitter, the
      third retry waits 0.8 s, below 0.8 * 4 s. */
  lemma CappedBackoffBelowUncappedFloor()
    ensures Backoff(1.0, 1.0, 3, 0.0) == 0.8
    ensures Backoff(1.0, 1.0, 3, 0.0) < 0.8 * 1.0 * Pow2(3 - 1)
  {
    assert Pow2(2) == 4.0;
  }

  /** Later retries never wait less before jitter. */
  lemma CappedDelayMonotone(base: real, cap: real, a: int, b: int)
    requires base >= 0.0 && a <= b
    ensures CappedDelay(base, cap, a) <= CappedDelay(base, cap, b)
  {
    Pow2Monotone(a - 1, b - 1);
    var rawA, rawB := base * Pow2(a - 1), base * Pow2(b - 1);
    MulMonotone(base, Pow2(a - 1), Pow2(b - 1));
    assert rawA <= rawB;
    assert CappedDelay(base, cap, a) == (if cap < rawA then cap else rawA);
    assert CappedDelay(base, cap, b) == (if cap < rawB then cap else rawB);
  }

  lemma MulMonotone(x: real, y: real, z: real)
    requires x >= 0.0 && y <= z
    ensures x * y <= x * z
  {
  }

  // ---------------------------------------------------------------------
  // Responses and their decoding
  // ---------------------------------------------------------------------

  /** An HTTP response: its status, its body read as JSON (`None` when
      `resp.json()` raises: the body is not JSON, or is a stream never read)
      and its `Retry-After` header (`""` when absent). */
  datatype Response = Response(status: int, body: Option<Json>, retryAfter: string)

  datatype ClientError =
    | ApiError(status: int, code: string, message: string)  // status >= 400
    | InvalidJson                                            // `resp.json()` raised on a success
    | Transport(reason: string)                              // httpx.TransportError
    | Unrendered(status: int)                                // error body field whose str() the model omits

  /** `str(data.get(k, ""))` on an error body. */
  function ErrorField(data: Dict, k: string): Result<string, CoerceError> {
    PyStr(Get(data, k, JStr("")))
  }

  /** `_decode_or_raise`. */
  function DecodeOrRaise(resp: Response): (r: Result<Json, ClientError>)
    ensures resp.status >= 400 ==> r.Err? && (r.error.ApiError? || r.error.Unrendered?)
    ensures resp.status >= 400 ==> r.error.status == resp.status
    ensures resp.status >= 400 && !(resp.body.Some? && resp.body.value.JObj?) ==>
      r == Err(ApiError(resp.status, "", ""))
    ensures resp.status == 204 ==> r == Ok(JNull)
    ensures resp.status < 400 && resp.status != 204 ==>
      r == (if resp.body.Some? then Ok(resp.body.value) else Err(InvalidJson))
  {
    if resp.status >= 400 then
      match resp.body
      case Some(JObj(data)) =>
        (match (ErrorField(data, "error"), ErrorField(data, "message"))
         case (Ok(code), Ok(msg)) => Err(ApiError(resp.status, code, msg))
         case _ => Err(Unrendered(resp.status)))
      case _ => Err(ApiError(resp.status, "", ""))
    else if resp.status == 204 then Ok(JNull)
    else match resp.body
      case Some(j) => Ok(j)
      case None => Err(InvalidJson)
  }

  /** Every retryable status is an error status, so a retryable response on
      the last attempt raises `APIError`. */
  lemma RetryableStatusRaises(resp: Response)
    requires IsRetryableStatus(resp.status)
    ensures DecodeOrRaise(resp).Err? && DecodeOrRaise(resp).error.status == resp.status
  {
  }

  /** An error body that is an object whose `error` and `message` are strings
      (or missing) raises `APIError` with exactly those strings ("" when missing). */
  lemma ErrorBodyFields(status: int, data: Dict, retryAfter: string)
    requires status >= 400
    requires "error" !in data || data["error"].JStr?
    requires "message" !in data || data["message"].JStr?
    ensures DecodeOrRaise(Response(status, Some(JObj(data)), retryAfter))
         == Err(ApiError(status, if "error" in data then data["error"].s else "",
                                 if "message" in data then data["message"].s else ""))
  {
  }

  /** An error body's field is rendered by `str()` unless it is a list or an
      object, whose `repr` the model does not compute. */
  lemma ErrorBodyUnrendered(status: int, data: Dict, retryAfter: string)
    requires status >= 400
    ensures DecodeOrRaise(Response(status, Some(JObj(data)), retryAfter)).error.Unrendered?
        <==> || ("error" in data && (data["error"].JList? || data["error"].JObj?))
             || ("message" in data && (data["message"].JList? || data["message"].JObj?))
  {
  }

  // ---------------------------------------------------------------------
  // The attempt loop of request_json
  // ---------------------------------------------------------------------

  /** What the network did with one request. */
  datatype Attempt = Answered(resp: Response) | TransportFailed(reason: string)

  /** The client as far as requests depend on it. */
  datatype Client = Client(retry: RetryConfig, userAgent: string)

  /** `HttpClient.__init__`: the retry policy is normalised (the default one when none is given). */
  function NewClient(retry: Option<RetryConfig>, userAgent: string): (c: Client)
    ensures Usable(c.retry) && c.userAgent == userAgent
    ensures c.retry == Normalized(if retry.Some? then retry.value else DefaultRetry)
    ensures retry.None? ==> c.retry == DefaultRetry
    ensures retry.Some? && Usable(retry.value) ==> c.retry == retry.value
  {
    Client(Normalized(match retry case Some(r) => r case None => DefaultRetry), userAgent)
  }

  /** May the loop go on after this outcome (if attempts remain)? */
  predicate Transient(o: Attempt) {
    o.TransportFailed? || IsRetryableStatus(o.resp.status)
  }

  /** The value returned, or the error raised, when the loop stops at `o`. */
  function Settle(o: Attempt): Result<Json, ClientError> {
    match o
    case Answered(resp) => DecodeOrRaise(resp)
    case TransportFailed(e) => Err(Transport(e))
  }

  /** The sleep after a transient outcome of attempt number `attempt`: the
      server's Retry-After when it parses, else the jittered backoff. */
  function WaitAfter(o: Attempt, cfg: RetryConfig, attempt: int, r: real, now: real,
                     parseDate: string -> Option<real>): real
  {
    var backoff := Backoff(cfg.baseDelay, cfg.maxDelay, attempt, r);
    match o
    case Answered(resp) =>
      (match ParseRetryAfter(resp.retryAfter, now, parseDate)
       case Some(w) => w
       case None => backoff)
    case TransportFailed(_) => backoff
  }

  /** A Retry-After that parses is the sleep exactly; otherwise, and always
      after a transport error, the sleep is the backoff. Every sleep is
      non-negative, and a backoff sleep is below `1.2 * max_delay`. */
  lemma WaitAfterBounds(o: Attempt, cfg: RetryConfig, attempt: int, r: real, now: real,
                        parseDate: string -> Option<real>)
    requires Usable(cfg) && 0.0 <= r < 1.0
    ensures o.Answered? && ParseRetryAfter(o.resp.retryAfter, now, parseDate).Some? ==>
      WaitAfter(o, cfg, attempt, r, now, parseDate) == ParseRetryAfter(o.resp.retryAfter, now, parseDate).value
    ensures o.TransportFailed? || ParseRetryAfter(o.resp.retryAfter, now, parseDate).None? ==>
      WaitAfter(o, cfg, attempt, r, now, parseDate) == Backoff(cfg.baseDelay, cfg.maxDelay, attempt, r)
    ensures WaitAfter(o, cfg, attempt, r, now, parseDate) >= 0.0
    ensures o.TransportFailed? || ParseRetryAfter(o.resp.retryAfter, now, parseDate).None? ==>
      WaitAfter(o, cfg, attempt, r, now, parseDate) < 1.2 * cfg.maxDelay
  {
    BackoffBounds(cfg.baseDelay, cfg.maxDelay, attempt, r);
  }

  /**
   * `request_json` over the network outcomes `attempts`: `jitter[i]` is the
   * `random.random()` drawn and `clock[i]` the time read after attempt `i + 1`.
   * Returns the decoded result (or the error raised), how many requests were
   * issued, and the sleeps between them.
   */
  method RequestJson(client: Client, m: string, headers: map<string, string>,
                     attempts: seq<Attempt>, jitter: seq<real>, clock: seq<real>,
                     parseDate: string -> Option<real>)
    returns (result: Result<Json, ClientError>, issued: nat, sleeps: seq<real>)
    requires Usable(client.retry)
    requires |attempts| >= client.retry.maxAttempts
    requires |jitter| >= client.retry.maxAttempts && |clock| >= client.retry.maxAttempts
    requires forall i :: 0 <= i < |jitter| ==> 0.0 <= jitter[i] < 1.0
    ensures 1 <= issued <= client.retry.maxAttempts
    ensures result == Settle(attempts[issued - 1])
    ensures |sleeps| == issued - 1
    ensures forall i :: 0 <= i < issued - 1 ==>
      Transient(attempts[i]) &&
      sleeps[i] == WaitAfter(attempts[i], client.retry, i + 1, jitter[i], clock[i], parseDate)
    ensures client.retry.maxAttempts <= 1 || !CanRetry(m, RequestHeaders(client.userAgent, headers)) ==>
      issued == 1
    ensures issued < client.retry.maxAttempts ==>
      !Transient(attempts[issued - 1]) || !CanRetry(m, RequestHeaders(client.userAgent, headers))
  {
    var cfg := client.retry;
    var hdrs := RequestHeaders(client.userAgent, headers);
    if cfg.maxAttempts <= 1 || !CanRetry(m, hdrs) {
      result := Settle(attempts[0]);
      issued := 1;
      sleeps := [];
      return;
    }
    result, issued, sleeps := RetryLoop(cfg, attempts, jitter, clock, parseDate);
  }

  /**
   * The `for attempt in range(1, max_attempts + 1)` loop of `request_json`:
   * it stops at the first outcome that is not transient, or at the last
   * attempt, sleeping `WaitAfter` between attempts.
   */
  method RetryLoop(cfg: RetryConfig, attempts: seq<Attempt>, jitter: seq<real>, clock: seq<real>,
                   parseDate: string -> Option<real>)
    returns (result: Result<Json, ClientError>, issued: nat, sleeps: seq<real>)
    requires cfg.maxAttempts >= 1
    requires |attempts| >= cfg.maxAttempts
    requires |jitter| >= cfg.maxAttempts && |clock| >= cfg.maxAttempts
    ensures 1 <= issued <= cfg.maxAttempts
    ensures result == Settle(attempts[issued - 1])
    ensures |sleeps| == issued - 1
    ensures forall i :: 0 <= i < issued - 1 ==>
      Transient(attempts[i]) &&
      sleeps[i] == WaitAfter(attempts[i], cfg, i + 1, jitter[i], clock[i], parseDate)
    ensures issued < cfg.maxAttempts ==> !Transient(attempts[issued - 1])
  {
    sleeps := [];
    var attempt := 1;
    while attempt <= cfg.maxAttempts
      invariant 1 <= attempt <= cfg.maxAttempts
      invariant |sleeps| == attempt - 1
      invariant forall i :: 0 <= i < attempt - 1 ==>
        Transient(attempts[i]) &&
        sleeps[i] == WaitAfter(attempts[i], cfg, i + 1, jitter[i], clock[i], parseDate)
      decreases cfg.maxAttempts - attempt
    {
      match attempts[attempt - 1] {
        case Answered(resp) =>
          if !IsRetryableStatus(resp.status) {
            result, issued := DecodeOrRaise(resp), attempt;
            return;
          }
          if attempt == cfg.maxAttempts {
            result, issued := DecodeOrRaise(resp), attempt;
            return;
          }
          var wait := ParseRetryAfter(resp.retryAfter, clock[attempt - 1], parseDate);
          if wait.None? {
            wait := Some(Backoff(cfg.baseDelay, cfg.maxDelay, attempt, jitter[attempt - 1]));
          }
          SleptOneMore(cfg, attempts, jitter, clock, parseDate, sleeps, wait.value);
          sleeps := sleeps + [wait.value];
        case TransportFailed(e) =>
          if attempt == cfg.maxAttempts {
            result, issued := Err(Transport(e)), attempt;
            return;
          }
          var wait := Backoff(cfg.baseDelay, cfg.maxDelay, attempt, jitter[attempt - 1]);
          SleptOneMore(cfg, attempts, jitter, clock, parseDate, sleeps, wait);
          sleeps := sleeps + [wait];
      }
      attempt := attempt + 1;
    }
  }

  /** One more transient attempt and the sleep after it extend the sleeps
      `RetryLoop` has recorded. */
  lemma SleptOneMore(cfg: RetryConfig, attempts: seq<Attempt>, jitter: seq<real>, clock: seq<real>,
                     parseDate: string -> Option<real>, sleeps: seq<real>, wait: real)
    requires |sleeps| < |attempts| && |sleeps| < |jitter| && |sleeps| < |clock|
    requires forall i :: 0 <= i < |sleeps| ==>
      Transient(attempts[i]) &&
      sleeps[i] == WaitAfter(attempts[i], cfg, i + 1, jitter[i], clock[i], parseDate)
    requires Transient(attempts[|sleeps|])
    requires wait == WaitAfter(attempts[|sleeps|], cfg, |sleeps| + 1, jitter[|sleeps|], clock[|sleeps|], parseDate)
    ensures forall i :: 0 <= i < |sleeps| + 1 ==>
      Transient(attempts[i]) &&
      (sleeps + [wait])[i] == WaitAfter(attempts[i], cfg, i + 1, jitter[i], clock[i], parseDate)
  {
  }

  // ---------------------------------------------------------------------
  // The streaming read
  // ---------------------------------------------------------------------

  /** The lines `stream_lines` yields: the non-empty ones, in order. */
  function NonEmptyLines(lines: seq<string>): seq<string> {
    if lines == [] then []
    else (if lines[0] != "" then [lines[0]] else []) + NonEmptyLines(lines[1..])
  }

  lemma {:induction false} NonEmptyLinesAppend(a: seq<string>, b: seq<string>)
    ensures NonEmptyLines(a + b) == NonEmptyLines(a) + NonEmptyLines(b)
  {
    if a == [] {
      assert a + b == b;
    } else {
      assert (a + b)[1..] == a[1..] + b;
      NonEmptyLinesAppend(a[1..], b);
    }
  }

  /** The filter keeps exactly the non-empty lines. */
  lemma {:induction false} NonEmptyLinesMembers(lines: seq<string>)
    ensures forall l :: l in NonEmptyLines(lines) <==> l in lines && l != ""
  {
    if lines != [] {
      NonEmptyLinesMembers(lines[1..]);
      assert lines == [lines[0]] + lines[1..];
    }
  }

  /** `stream_lines` over the lines of a response: an error status raises
      before any line is yielded; otherwise every non-empty line is yielded in
      order. A streamed body is never read, so `resp.json()` in the decoding
      step raises and is swallowed: the error never carries a code or a
      message, whatever the body holds. */
  method StreamLines(status: int, lines: seq<string>)
    returns (r: Result<seq<string>, ClientError>)
    ensures status >= 400 ==> r == Err(ApiError(status, "", ""))
    ensures status < 400 ==> r == Ok(NonEmptyLines(lines))
  {
    if status >= 400 {
      var failure := DecodeOrRaise(Response(status, None, ""));
      r := Err(failure.error);
      return;
    }
    var out: seq<string> := [];
    var i := 0;
    while i < |lines|
      invariant 0 <= i <= |lines|
      invariant out == NonEmptyLines(lines[..i])
    {
      if lines[i] != "" {
        out := out + [lines[i]];
      }
      assert lines[..i + 1] == lines[..i] + [lines[i]];
      NonEmptyLinesAppend(lines[..i], [lines[i]]);
      i := i + 1;
    }
    assert lines[..i] == lines;
    r := Ok(out);
  }
}
