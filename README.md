# DriftQ Python client: retrying transport, wire types and worker, in Dafny

This project models the three parts of the DriftQ Python client that hold
real logic, and proves what they promise.

- **Retrying transport** (`HttpClient`, from `src/driftq/http_client.py`):
  - retry-policy normalisation;
  - which methods may be retried: the safe methods of section 9.2.1 of
    RFC 9110, or any method with a non-empty `Idempotency-Key`;
  - the retryable statuses: 429 (section 4 of RFC 6585), 500, 502, 503 and
    504;
  - `Retry-After` parsing (section 10.2.3 of RFC 9110);
  - the jittered, capped exponential backoff;
  - the attempt loop of `request_json`;
  - response decoding;
  - the line filter of `stream_lines`.
- **Wire types** (`Types`, from `src/driftq/types.py`): `RetryPolicy` and
  `Envelope` to and from JSON objects, and `Routing` and `ConsumeMessage`
  from JSON objects.
- **Worker** (`Workers`, from `src/driftq/worker.py`):
  - configuration checks;
  - the delivery-deadline pre-check;
  - resolution of each delivery into an ack or a nack;
  - nack-reason formatting with a UTF-8 byte cap;
  - error reporting;
  - the run loop.

Three support modules serve them:
- `Common`: `Option` and `Result`.
- `Json`:
  - decoded JSON values;
  - Python's `int()`, `str()` and truthiness on them;
  - decimal text, with the proof that `int(str(n)) == n`.
- `Utf8`: UTF-8 encoding (RFC 3629); decoding with `errors="ignore"`; the
  proof that cutting an encoding to a byte budget and decoding it gives the
  longest whole-character prefix that fits.

The environment enters the model as parameters:
- **network**: each request's outcome is given as data (a response, or a
  transport failure);
- **randomness**: `random.random()` is a jitter sequence in `[0, 1)`;
- **clock**: readings are `now` values;
- **date parsing**: the HTTP-date parser is a function parameter;
- **deadline text**: the ISO-8601 text of deadlines is a codec parameter
  (`IsoCodec`). The envelope round trip assumes only that the codec gives
  back the envelope's own deadline (`RoundTripsAt`). `MicrosCodec`, which
  keeps whole microseconds as Python's codec does, meets that exactly for
  whole-microsecond instants;
- **the user's handler**: what it would do (return or raise, after how
  long) is given per delivery;
- **ack/nack calls**: whether each one goes through or raises is given per
  delivery.

Delays and instants are `real`.

The worker's run loop is modelled with one delivery in flight at a time
(concurrency 1). `Workers.Consumer` plays the broker's consumer. It keeps
the successful `ack` and `nack` calls as
`(owner, partition, offset[, reason])` lists. `Workers.Ledger` is what the
broker and `on_error` have seen.

Three behaviours of the code are modelled as written:
- **Ack failures.** The ack call sits inside the handler's `try`, so an ack
  that raises gets the delivery nacked.
- **Nack failures.** A nack that raises goes to `on_error`, when one is
  configured, and is never re-raised.
- **Formatter failures.** A custom nack-reason formatter that raises leaves
  the delivery with no nack at all (`Resolution.Abandoned`,
  `FormatterRaisesAbandons`). The exception escapes `_handle_one` and ends
  its task; `run` never re-raises it.

The backoff before retry `a` is `min(cap, base·2^(a-1))·(0.8 + 0.4·r)`.
The jitter is applied to the capped delay `d`, so the sleep lies in
`[0.8·d, 1.2·d)`. The uncapped floor `0.8·base·2^(a-1)` is not a bound:
it fails once the cap binds (`CappedBackoffBelowUncappedFloor`).

## Model

| member | source | states |
|---|---|---|
| HttpClient.Normalized | src/driftq/http_client.py:27-33 | the attempt count becomes at least 1 and both delays positive; a positive field is kept, a non-positive one becomes 1, 0.1 or 2.0 |
| HttpClient.NormalizedFixedPoints | src/driftq/http_client.py:27-33 | normalising twice equals normalising once, and a configuration is left unchanged exactly when it is already usable |
| HttpClient.NewClient | src/driftq/http_client.py:116 | the client keeps its user agent; its retry policy is the given one normalised, or the default (3, 0.1 s, 2.0 s) when none is given; a usable given policy is kept as it is, and the policy is always usable |
| HttpClient.Fold | src/driftq/http_client.py:55 | a per-character fold that decides membership in GET/HEAD/OPTIONS exactly as `upper()` does: characters whose upper case is several letters (ß, the ligatures U+FB00-FB06) are kept, since no such upper case occurs in a safe method |
| HttpClient.IsSafeMethod | src/driftq/http_client.py:54-56 | `_is_safe_method`; `SafeMethodIsCaseVariant` proves it holds exactly for the case variants of GET, HEAD and OPTIONS |
| HttpClient.SafeMethodIsCaseVariant | src/driftq/http_client.py:54-56 | a method is safe exactly when it spells GET, HEAD or OPTIONS in any mix of cases (including the two non-ASCII characters that upper-case to I and S) |
| HttpClient.RequestHeaders | src/driftq/http_client.py:138-140 | the headers are the caller's keys plus Accept and User-Agent; every caller header keeps the caller's value, and a default the caller does not set is application/json or the client's user agent |
| HttpClient.IsRetryableStatus | src/driftq/http_client.py:59-60 | `_retryable_status`: exactly 429, 500, 502, 503 and 504; `RetryableStatusRaises` proves each is an error status |
| HttpClient.CanRetry | src/driftq/http_client.py:63-67 | `_can_retry`: a safe method, or a non-empty Idempotency-Key; `CanRetryUnsafe` proves the caller alone supplies the key |
| HttpClient.CanRetryUnsafe | src/driftq/http_client.py:63-67 | an unsafe method may be retried exactly when the caller supplies a non-empty Idempotency-Key |
| HttpClient.ParseRetryAfter | src/driftq/http_client.py:70-86 | an empty header gives no value, and every value given is non-negative |
| HttpClient.RetryAfterSeconds | src/driftq/http_client.py:74-76 | a header holding the integer n asks for exactly max(0, n) seconds |
| HttpClient.RetryAfterDate | src/driftq/http_client.py:80-86 | a non-empty header that is not an integer is read as an HTTP-date: a date gives max(0, date - now) seconds, and an unparseable one gives no value |
| HttpClient.Backoff | src/driftq/http_client.py:89-93 | `_backoff_s` with the random draw as a parameter; its bounds are `BackoffBounds` and `CappedDelayMonotone` |
| HttpClient.BackoffBounds | src/driftq/http_client.py:89-93 | the capped delay d lies in (0, cap]; the jittered delay lies in [0.8·d, 1.2·d) and below 1.2·cap |
| HttpClient.CappedDelayMonotone | src/driftq/http_client.py:91 | a later attempt never has a smaller capped delay |
| HttpClient.Pow2Monotone | src/driftq/http_client.py:91 | the exponential factor grows with the exponent |
| HttpClient.CappedBackoffBelowUncappedFloor | src/driftq/http_client.py:89-93 | once the cap binds, the delay can fall below 0.8·base·2^(attempt-1) |
| HttpClient.DecodeOrRaise | src/driftq/http_client.py:243-262 | status ≥ 400 raises an error carrying that status, with empty code and message unless the body is an object; 204 gives null; any other status gives the body, or raises when it is not JSON |
| HttpClient.ErrorBodyFields | src/driftq/http_client.py:245-255 | an error body that is an object with string or missing `error` and `message` raises APIError with exactly those strings, "" for a missing one |
| HttpClient.ErrorBodyUnrendered | src/driftq/http_client.py:251-252 | an object error body goes unrendered exactly when its `error` or `message` is a list or an object |
| HttpClient.RetryableStatusRaises | src/driftq/http_client.py:59-60 | every retryable status is an error status, so a retryable last response raises with its status |
| HttpClient.WaitAfterBounds | src/driftq/http_client.py:181-187 | a Retry-After that parses is the sleep exactly; without one, and after any transport error, the sleep is the backoff; every sleep is ≥ 0, and a backoff sleep is below 1.2·max_delay |
| HttpClient.Settle | src/driftq/http_client.py:161-192 | the value returned or the error raised where the loop stops: the decoded response, or the transport error re-raised; `RequestJson` proves its result is the settled last outcome |
| HttpClient.RequestJson | src/driftq/http_client.py:138-198 | between 1 and max_attempts requests are issued; the result is the settled outcome of the last one; each sleep follows a transient outcome and equals its wait; without retry permission exactly one request is made; stopping early means a non-transient outcome |
| HttpClient.RetryLoop | src/driftq/http_client.py:163-198 | the loop stops at the first non-transient outcome or at the last attempt, and the result is that outcome settled; every sleep follows a transient outcome and equals the Retry-After or backoff wait after it |
| HttpClient.NonEmptyLinesMembers | src/driftq/http_client.py:239-241 | the lines yielded are exactly the non-empty ones |
| HttpClient.NonEmptyLinesAppend | src/driftq/http_client.py:239-241 | the filter keeps stream order across any split of the lines |
| HttpClient.StreamLines | src/driftq/http_client.py:237-241 | status ≥ 400 raises APIError(status, "", "") before any line, since a streamed body is never read; otherwise every non-empty line is yielded, in order |
| Json.ParseInt | src/driftq/http_client.py:75 | Python's `int(str)` over ASCII text; a parse means the trimmed text is non-empty, and `ParseIntOfDecimalText` proves it reads decimal text back |
| Json.ParseIntOfDecimalText | src/driftq/http_client.py:75 | Python's `int()` reads the decimal text of every integer back as that integer |
| Json.PyInt | src/driftq/types.py:97 | `int()` keeps an integer and raises TypeError on null, lists and objects |
| Json.IntField | src/driftq/types.py:32-34 | `int(d.get(k, 0) or 0)` is 0 for a missing key and the integer itself for an integer value |
| Json.StrField | src/driftq/types.py:100-105 | `str(d.get(k, "") or "")` is "" for a missing key and the string itself for a string value |
| Types.PolicyToDict | src/driftq/types.py:19-27 | the object holds a key exactly when that field is non-zero, and is empty exactly for the all-zero policy |
| Types.PolicyFromDict | src/driftq/types.py:29-35 | `RetryPolicy.from_dict`; `PolicyRoundTrip` proves it inverts `to_dict` |
| Types.PolicyRoundTrip | src/driftq/types.py:19-35 | `from_dict(to_dict(p)) == p` for every policy |
| Types.EnvelopeToDict | src/driftq/types.py:50-79 | the loop over the string fields, followed by the optional fields, builds exactly the envelope's object |
| Types.EnvelopeDictLookups | src/driftq/types.py:53-77 | each string field is present exactly when non-empty; the deadline appears whenever it is set; partition_override appears whenever it is not None, 0 included; retry_policy appears only when not all zero |
| Types.EnvelopeFromDict | src/driftq/types.py:81-109 | `Envelope.from_dict`; `EnvelopeRoundTrip` proves it inverts `to_dict` up to an all-zero policy, and `DeadlineAbsentWhenUnreadable` covers a deadline it cannot read |
| Types.EnvelopeRoundTrip | src/driftq/types.py:50-109 | `from_dict(to_dict(e))` gives back e, with an all-zero retry policy turned into None, whenever the codec gives back e's deadline |
| Types.EnvelopeRoundTripNeedsDeadline | src/driftq/types.py:64-91 | a deadline the codec does not give back breaks the round trip |
| Types.MicrosCodecRoundTrips | src/driftq/types.py:68 | a codec keeping whole microseconds, as `isoformat`/`fromisoformat` do, gives back exactly the instants that are whole microseconds |
| Types.EnvelopeRoundTripExact | src/driftq/types.py:74-77 | when the codec gives back the deadline, the round trip is exact precisely when the retry policy is not all zero |
| Types.DeadlineFromJson | src/driftq/types.py:83-85 | a deadline that is not a string, or is empty, reads as None |
| Types.DeadlineAbsentWhenUnreadable | src/driftq/types.py:83-91 | a missing, non-string, empty or unparseable deadline gives an envelope without a deadline |
| Types.RoutingFromDict | src/driftq/types.py:125-130 | `Routing.from_dict`; `RoutingFields` and `RoutingOfObjects` state what it reads |
| Types.RoutingFields | src/driftq/types.py:125-130 | for any routing that decodes: a missing or falsy label gives "", a string label is kept; a missing or falsy meta gives an empty map, an object meta is kept |
| Types.RoutingOfObjects | src/driftq/types.py:125-130 | a label that is a string or missing, with a meta that is an object or missing, always decodes, to exactly those values |
| Types.MessageFromDict | src/driftq/types.py:144-158 | `ConsumeMessage.from_dict`; `MessageFields`, `MessageDefaults`, `MessageNestedParsed` and `NullPartitionRejected` state what it reads |
| Types.MessageFields | src/driftq/types.py:149-155 | for any message that decodes: a missing partition, offset or attempts gives 0 and a missing key, value or last_error gives ""; an integer or a string present is kept |
| Types.MessageDefaults | src/driftq/types.py:145-158 | an object with no fields but a non-object routing or envelope decodes to zeros, empty strings and no routing or envelope |
| Types.MessageNestedParsed | src/driftq/types.py:146-147 | a message has a routing (an envelope) exactly when the input's value is an object, and it is that object parsed |
| Types.NullPartitionRejected | src/driftq/types.py:150 | a null partition always makes decoding fail, and with TypeError whenever the nested routing and envelope decode |
| Utf8.Encode | src/driftq/worker.py:115 | `str.encode("utf-8")`: one to four bytes per character; `DecodeEncode` proves decoding inverts it |
| Utf8.AsciiEncodeLength | src/driftq/worker.py:115-116 | an ASCII string encodes to exactly one byte per character |
| Utf8.DecodeIgnore | src/driftq/worker.py:118 | `bytes.decode("utf-8", errors="ignore")`; `DecodeEncode` and `DecodeCutEncoding` state what it gives back |
| Utf8.DecodeEncode | src/driftq/worker.py:115-118 | decoding an encoding gives the string back |
| Utf8.DecodeCutEncoding | src/driftq/worker.py:118 | decoding the first k bytes of an encoding, ignoring errors, gives the longest whole-character prefix whose encoding fits in k bytes |
| Utf8.FittingPrefixIsLongest | src/driftq/worker.py:118 | that prefix fits in the budget, and the next character would not fit |
| Workers.ConfigProblem | src/driftq/worker.py:40-45 | the configuration is accepted exactly when there is a client, topic, group and owner are non-empty and lease_ms ≥ 0; otherwise the error message is the first failing check's |
| Workers.EffectiveConcurrency | src/driftq/worker.py:46-47 | the concurrency is at least 1: a positive value is kept and any other value becomes exactly 1 |
| Workers.NewWorker | src/driftq/worker.py:39-51 | a rejected configuration gives its error and is left unchanged; an accepted one gives a new worker over it with no errors reported, its concurrency normalised in place and every other field unchanged |
| Workers.RunWithDeadline | src/driftq/worker.py:85-100 | without a deadline the handler's own outcome is the result |
| Workers.ExpiredDeadlineSkipsHandler | src/driftq/worker.py:90-96 | when the deadline has passed, the delivery fails with "message deadline exceeded" whatever the handler would do, so the handler is never run |
| Workers.LiveDeadlineBoundsHandler | src/driftq/worker.py:94-98 | under a live deadline the handler's outcome stands if it finishes in time, and otherwise the delivery times out |
| Workers.ReasonText | src/driftq/worker.py:103-110 | the reason is the formatter's text, or without a formatter the error's text; an empty text becomes the class name; a formatter that raises gives its error |
| Workers.SliceEnd | src/driftq/worker.py:118 | Python's `b[:cap]` end index stays within the bytes and is cap itself when 0 ≤ cap ≤ length |
| Workers.CapReason | src/driftq/worker.py:112-118 | the byte cap on a reason; `CapReasonFits`, `CapReasonTruncates`, `CapReasonNegative` and `CapReasonNonEmpty` state what it keeps |
| Workers.CapReasonFits | src/driftq/worker.py:115-117 | a reason whose encoding fits in the cap is returned unchanged |
| Workers.CapReasonTruncates | src/driftq/worker.py:115-118 | over a non-negative cap the reason becomes a proper prefix whose encoding is within the cap and which the next character would overflow: the longest whole-character prefix that fits |
| Workers.CapReasonNegative | src/driftq/worker.py:118 | a negative cap slices from the end, keeping the longest prefix within length + cap bytes |
| Workers.CapReasonNonEmpty | src/driftq/worker.py:112-118 | a cap of at least 4 bytes keeps a non-empty reason non-empty |
| Workers.CapReasonIsFittingPrefix | src/driftq/worker.py:115-118 | over any non-negative cap the reason is the longest whole-character prefix that fits, whether or not it was cut |
| Workers.OverrunTimesOut | src/driftq/worker.py:94-98 | a handler needing at least the time left before a live deadline times out |
| Workers.TimeoutReason | src/driftq/worker.py:106-117 | under any cap of at least 12 bytes, the timeout raised by `wait_for`, whose text is empty, is nacked with its class name "TimeoutError" |
| Workers.FormatReason | src/driftq/worker.py:102-118 | `_format_reason`: the reason text, capped; `FormatterReasonFits`, `ReasonIsErrorText`, `ReasonNonEmpty` and `TimeoutReason` state its results |
| Workers.FormatterReasonFits | src/driftq/worker.py:103-117 | a custom formatter's text is the reason when it fits the cap, and an empty text gives the class name |
| Workers.ReasonIsErrorText | src/driftq/worker.py:102-117 | without a formatter, an error whose text fits the cap gives exactly that text as the reason |
| Workers.ReasonNonEmpty | src/driftq/worker.py:102-118 | without a formatter, a cap of at least 4 bytes gives every error with a class name a non-empty reason |
| Workers.Resolve | src/driftq/worker.py:71-83 | how `_handle_one` ends for a delivery: acked, nacked with the formatted reason, nack lost, or abandoned when the formatter raises; `FailedAckIsNacked`, `ResolveWithoutFormatter`, `FormatterRaisesAbandons` and `AtMostOneRecord` state its cases |
| Workers.FailedAckIsNacked | src/driftq/worker.py:75-81 | a handler success whose ack raises fails with the ack's error and is not acked |
| Workers.ResolveWithoutFormatter | src/driftq/worker.py:75-83 | without a formatter every delivery reaches an ack or a nack call, and it is acked exactly when the handler and the ack both succeed |
| Workers.FormatterRaisesAbandons | src/driftq/worker.py:78-79 | a formatter that raises on a failed delivery abandons it: no nack, nothing reported, the ledger unchanged |
| Workers.Consumer.Ack | src/driftq/worker.py:77 | a successful ack records (owner, partition, offset); a failed one records nothing and returns its error |
| Workers.Consumer.Nack | src/driftq/worker.py:81 | a successful nack records (owner, partition, offset, reason); a failed one records nothing and returns its error |
| Workers.AtMostOneRecord | src/driftq/worker.py:71-83 | each delivery adds at most one ack or nack, and exactly one unless its nack call failed or its formatter raised |
| Workers.Worker.Report | src/driftq/worker.py:120-122 | the error goes to `on_error` exactly when one is configured |
| Workers.Worker.HandleOne | src/driftq/worker.py:71-83 | the delivery resolves as `Resolve` says, and the ledger grows by exactly that resolution's record |
| Workers.Worker.Run | src/driftq/worker.py:53-69 | each delivery is handled once, in stream order; the outcomes and the final ledger are the replay of the whole stream |
| Workers.ReplayCount | src/driftq/worker.py:53-83 | over a run, acks plus nacks added plus lost or abandoned deliveries equal the number of deliveries |
| Workers.ReplayAppend | src/driftq/worker.py:59-60 | replaying a stream in two parts equals replaying it whole, so records keep stream order |
| Workers.SuccessScenario | tests/test_worker.py:35-52 | a returning handler on (0, 1) gives the single ack (owner, 0, 1) and no nack |
| Workers.FailureScenario | tests/test_worker.py:54-74 | a handler raising "boom" on (2, 99) gives no ack and the single nack (owner, 2, 99, "boom") |
| Workers.DeadlineScenario | tests/test_worker.py:76-104 | a handler needing 0.2 s under a deadline 0.1 s away gives no ack and one nack whose reason is the non-empty "TimeoutError", for any cap of at least 12 bytes |
| Workers.LostNackReported | src/driftq/worker.py:80-83 | a nack that raises is handed to `on_error` and leaves no record; the run goes on |

## Left out

- Network I/O is left out: httpx, `aclose` and `resp.json()` body parsing. A response is its status, its decoded body (or none when it is not JSON) and its Retry-After header.
- OpenTelemetry header injection is left out: it is an optional foreign hook.
- The per-request timeout and the `params` and `json` arguments are left out: they are passed through to httpx unchanged.
- `asyncio.sleep`, the semaphore, `create_task`, `gather` and `wait_for` cancellation are left out. Sleeps are returned as values. The run loop has one delivery in flight, and an overrunning handler is a handler outcome.
- Randomness, the wall clock and `parsedate_to_datetime` are parameters.
- Float rounding and float overflow are not modelled: delays and instants are `real`, and a huge integer Retry-After is a huge `real`, not an overflow.
- The ISO-8601 text of deadlines, and naive versus aware datetimes, are not modelled. The codec is a parameter. A deadline is an absolute UTC instant.
- EnvelopeFromDict: `EnvelopeRoundTrip` holds only for envelopes whose deadline the codec gives back. A deadline finer than a microsecond does not survive Python's `isoformat`/`fromisoformat`, and then the round trip fails (`EnvelopeRoundTripNeedsDeadline`).
- Python's `str()` of a list or dict is not modelled, because the model does not render Python `repr` text. Such a field gives `NotModelled`, or `Unrendered` in an error body. `dict()` of a non-empty list (key/value pairs) also gives `NotModelled`.
- Json.ParseInt follows Python's `int()` for ASCII input only:
  - optional sign;
  - ASCII whitespace;
  - single underscores between digits.
  Non-ASCII digits and whitespace are not modelled.
- JSON floats are not modelled. `ConsumeMessage.value` is a string, and bytes values are left out.
- Surrogate code points are not modelled: Dafny characters are Unicode scalar values, so lone surrogates cannot occur.
- `Worker.run`'s stream errors and cancellation are not modelled: deliveries are a finite sequence that ends normally.
- An `on_error` that raises is not modelled. Its exception would end the delivery's task and never be re-raised by `run`.
- Workers.RunWithDeadline: a handler that finishes exactly when its deadline runs out counts as timed out.
- A formatter returning a non-string is not modelled. A formatter returning `None` is one returning "".
- `src/driftq/client.py`, `producer.py`, `admin.py`, `consumer.py` and `__init__.py` are not part of this model. They are constant stubs and forwarding wrappers.
