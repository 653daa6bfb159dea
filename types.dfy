/**
 * The wire records of the DriftQ client (`RetryPolicy`, `Envelope`,
 * `Routing`, `ConsumeMessage`) and their conversion to and from decoded
 * JSON objects: `to_dict` omits empty and zero fields, `from_dict` fills
 * missing fields with `""`, `0` or `None`.
 */
module Types {
  import opened Common
  import opened Json

  // ---------------------------------------------------------------------
  // RetryPolicy
  // ---------------------------------------------------------------------

  /** Broker-side retry hints; zero means "unset". */
  datatype RetryPolicy = RetryPolicy(maxAttempts: int, backoffMs: int, maxBackoffMs: int)

  const PolicyKeys: seq<string> := ["max_attempts", "backoff_ms", "max_backoff_ms"]

  /** The policy field that serialises under key `k`. */
  function PolicyField(p: RetryPolicy, k: string): int {
    if k == "max_attempts" then p.maxAttempts
    else if k == "backoff_ms" then p.backoffMs
    else if k == "max_backoff_ms" then p.maxBackoffMs
    else 0
  }

  /** The object `to_dict` produces: one entry per non-zero field. */
  function PolicyDict(p: RetryPolicy): Dict {
    map k | k in PolicyKeys && PolicyField(p, k) != 0 :: JInt(PolicyField(p, k))
  }

  predicate IsZeroPolicy(p: RetryPolicy) {
    p.maxAttempts == 0 && p.backoffMs == 0 && p.maxBackoffMs == 0
  }

  /** `RetryPolicy.to_dict`: inserts each non-zero field in turn. */
  method PolicyToDict(p: RetryPolicy) returns (out: Dict)
    ensures out == PolicyDict(p)
    ensures forall k :: k in out <==> k in PolicyKeys && PolicyField(p, k) != 0
    ensures out == map[] <==> IsZeroPolicy(p)
  {
    out := map[];
    if p.maxAttempts != 0 {
      out := out["max_attempts" := JInt(p.maxAttempts)];
    }
    if p.backoffMs != 0 {
      out := out["backoff_ms" := JInt(p.backoffMs)];
    }
    if p.maxBackoffMs != 0 {
      out := out["max_backoff_ms" := JInt(p.maxBackoffMs)];
    }
    assert "max_attempts" in PolicyKeys && "backoff_ms" in PolicyKeys && "max_backoff_ms" in PolicyKeys;
    if !IsZeroPolicy(p) {
      var k :| k in PolicyKeys && PolicyField(p, k) != 0;
      assert out == PolicyDict(p);
      assert k in PolicyDict(p);
    }
  }

  /** `RetryPolicy.from_dict`: `int(d.get(k, 0) or 0)` for each field. */
  function PolicyFromDict(d: Dict): Result<RetryPolicy, CoerceError> {
    var ma :- IntField(d, "max_attempts");
    var bo :- IntField(d, "backoff_ms");
    var mb :- IntField(d, "max_backoff_ms");
    Ok(RetryPolicy(ma, bo, mb))
  }

  /** Every policy survives `from_dict(to_dict(p))`. */
  lemma PolicyRoundTrip(p: RetryPolicy)
    ensures PolicyFromDict(PolicyDict(p)) == Ok(p)
  {
    var d := PolicyDict(p);
    assert "max_attempts" in PolicyKeys && "backoff_ms" in PolicyKeys && "max_backoff_ms" in PolicyKeys;
    assert IntField(d, "max_attempts") == Ok(p.maxAttempts);
    assert IntField(d, "backoff_ms") == Ok(p.backoffMs);
    assert IntField(d, "max_backoff_ms") == Ok(p.maxBackoffMs);
  }

  // ---------------------------------------------------------------------
  // Envelope
  // ---------------------------------------------------------------------

  /** An absolute UTC instant, in seconds since the epoch. */
  type Instant = real

  /** ISO-8601 text of instants: `isoformat` and `fromisoformat` (the latter
      `None` where it raises). The model does not define the text format. */
  datatype IsoCodec = IsoCodec(format: Instant -> string, parse: string -> Option<Instant>)

  /** Does the codec give back the instant `t` from its own text? Python's
      codec does for every instant it can hold (whole microseconds). */
  predicate RoundTripsAt(codec: IsoCodec, t: Instant) {
    codec.format(t) != "" && codec.parse(codec.format(t)) == Some(t)
  }

  /** A codec that, like Python's, keeps whole microseconds: the text is the
      decimal count of microseconds, rounded down. */
  function MicrosCodec(): IsoCodec {
    IsoCodec(MicrosText, MicrosParse)
  }

  function MicrosText(t: Instant): string {
    DecimalText((t * 1000000.0).Floor)
  }

  function MicrosParse(s: string): Option<Instant> {
    match ParseInt(s)
    case Some(n) => Some(n as real / 1000000.0)
    case None => None
  }

  /** The microsecond codec reproduces exactly the instants that are whole
      microseconds. */
  lemma MicrosCodecRoundTrips(t: Instant)
    ensures RoundTripsAt(MicrosCodec(), t) <==> ((t * 1000000.0).Floor as real == t * 1000000.0)
  {
    var n := (t * 1000000.0).Floor;
    MicrosParseText(n);
    RoundTripsAtValue(MicrosCodec(), t, n as real / 1000000.0);
    MicrosScale(n, t);
  }

  /** The microsecond codec reads the text of `n` microseconds back as `n` microseconds. */
  lemma MicrosParseText(n: int)
    ensures DecimalText(n) != ""
    ensures MicrosParse(DecimalText(n)) == Some(n as real / 1000000.0)
  {
    var s := DecimalText(n);
    ParseIntOfDecimalText(n);
    MicrosParseOf(s, n);
  }

  lemma MicrosParseOf(s: string, n: int)
    requires ParseInt(s) == Some(n)
    ensures s != "" && MicrosParse(s) == Some(n as real / 1000000.0)
  {
    assert TrimEnd(TrimStart(s)) != [];
  }

  /** A codec that reads its text for `t` back as `v` round-trips at `t` exactly when `v == t`. */
  lemma RoundTripsAtValue(c: IsoCodec, t: Instant, v: Instant)
    requires c.format(t) != "" && c.parse(c.format(t)) == Some(v)
    ensures RoundTripsAt(c, t) <==> v == t
  {
  }

  lemma MicrosScale(n: int, t: real)
    ensures (n as real / 1000000.0 == t) <==> (n as real == t * 1000000.0)
  {
  }

  datatype Envelope = Envelope(
    runId: string,
    stepId: string,
    parentStepId: string,
    tenantId: string,
    idempotencyKey: string,
    targetTopic: string,
    deadline: Option<Instant>,
    partitionOverride: Option<int>,
    retryPolicy: Option<RetryPolicy>)

  /** The six string fields, in the order `to_dict` visits them. */
  const EnvelopeStringKeys: seq<string> :=
    ["run_id", "step_id", "parent_step_id", "tenant_id", "idempotency_key", "target_topic"]

  /** `getattr(e, k)` for the string fields. */
  function StringField(e: Envelope, k: string): string {
    if k == "run_id" then e.runId
    else if k == "step_id" then e.stepId
    else if k == "parent_step_id" then e.parentStepId
    else if k == "tenant_id" then e.tenantId
    else if k == "idempotency_key" then e.idempotencyKey
    else if k == "target_topic" then e.targetTopic
    else ""
  }

  /** The entries `to_dict` produces for the string fields: the non-empty ones. */
  function StringEntries(e: Envelope, keys: seq<string>): Dict {
    map k | k in keys && StringField(e, k) != "" :: JStr(StringField(e, k))
  }

  /** The object `Envelope.to_dict` produces. */
  function EnvelopeDict(e: Envelope, codec: IsoCodec): Dict {
    var strings := StringEntries(e, EnvelopeStringKeys);
    var withDeadline :=
      if e.deadline.Some? then strings["deadline" := JStr(codec.format(e.deadline.value))] else strings;
    var withOverride :=
      if e.partitionOverride.Some? then withDeadline["partition_override" := JInt(e.partitionOverride.value)]
      else withDeadline;
    if e.retryPolicy.Some? && !IsZeroPolicy(e.retryPolicy.value) then
      withOverride["retry_policy" := JObj(PolicyDict(e.retryPolicy.value))]
    else withOverride
  }

  /** `Envelope.to_dict`: a loop over the string fields, then the optional ones. */
  method EnvelopeToDict(e: Envelope, codec: IsoCodec) returns (out: Dict)
    ensures out == EnvelopeDict(e, codec)
  {
    out := map[];
    var i := 0;
    while i < |EnvelopeStringKeys|
      invariant 0 <= i <= |EnvelopeStringKeys|
      invariant out == StringEntries(e, EnvelopeStringKeys[..i])
    {
      var k := EnvelopeStringKeys[i];
      var v := StringField(e, k);
      StringEntriesSnoc(e, EnvelopeStringKeys[..i], k);
      if v != "" {
        out := out[k := JStr(v)];
      }
      assert EnvelopeStringKeys[..i + 1] == EnvelopeStringKeys[..i] + [k];
      i := i + 1;
    }
    assert EnvelopeStringKeys[..i] == EnvelopeStringKeys;
    if e.deadline.Some? {
      out := out["deadline" := JStr(codec.format(e.deadline.value))];
    }
    if e.partitionOverride.Some? {
      out := out["partition_override" := JInt(e.partitionOverride.value)];
    }
    if e.retryPolicy.Some? {
      var rp := PolicyToDict(e.retryPolicy.value);
      if rp != map[] {
        out := out["retry_policy" := JObj(rp)];
      }
    }
  }

  /** Visiting one more key adds its entry exactly when the field is non-empty. */
  lemma StringEntriesSnoc(e: Envelope, keys: seq<string>, k: string)
    ensures StringEntries(e, keys + [k])
         == if StringField(e, k) != "" then StringEntries(e, keys)[k := JStr(StringField(e, k))]
            else StringEntries(e, keys)
  {
  }

  /** `deadline` as `from_dict` reads it: a non-empty string that parses, else `None`. */
  function DeadlineFromJson(v: Json, codec: IsoCodec): (r: Option<Instant>)
    ensures !v.JStr? || v.s == "" ==> r == None
  {
    match v
    case JStr(s) => if s != "" then codec.parse(s) else None
    case _ => None
  }

  /** `retry_policy` as `from_dict` reads it: parsed only when it is an object. */
  function PolicyFromJson(v: Json): Result<Option<RetryPolicy>, CoerceError> {
    match v
    case JObj(m) => (var p :- PolicyFromDict(m); Ok(Some(p)))
    case _ => Ok(None)
  }

  /** `partition_override` as `from_dict` reads it: `int(v)` unless absent or null. */
  function OverrideFromJson(v: Json): Result<Option<int>, CoerceError> {
    if v != JNull then (var n :- PyInt(v); Ok(Some(n))) else Ok(None)
  }

  /** `Envelope.from_dict`. */
  function EnvelopeFromDict(d: Dict, codec: IsoCodec): Result<Envelope, CoerceError> {
    var deadline := DeadlineFromJson(Get(d, "deadline", JNull), codec);
    var retryPolicy :- PolicyFromJson(Get(d, "retry_policy", JNull));
    var partitionOverride :- OverrideFromJson(Get(d, "partition_override", JNull));
    var runId :- StrField(d, "run_id");
    var stepId :- StrField(d, "step_id");
    var parentStepId :- StrField(d, "parent_step_id");
    var tenantId :- StrField(d, "tenant_id");
    var idempotencyKey :- StrField(d, "idempotency_key");
    var targetTopic :- StrField(d, "target_topic");
    Ok(Envelope(runId, stepId, parentStepId, tenantId, idempotencyKey, targetTopic,
                deadline, partitionOverride, retryPolicy))
  }

  /** What survives a round trip: an all-zero retry policy is dropped. */
  function WireView(e: Envelope): Envelope {
    if e.retryPolicy.Some? && IsZeroPolicy(e.retryPolicy.value) then e.(retryPolicy := None) else e
  }

  lemma StringEntryAt(e: Envelope, k: string)
    requires k in EnvelopeStringKeys
    ensures StringField(e, k) != "" ==> StringEntries(e, EnvelopeStringKeys)[k] == JStr(StringField(e, k))
    ensures StringField(e, k) == "" ==> k !in StringEntries(e, EnvelopeStringKeys)
  {
  }

  /** The keys `Envelope.to_dict` can produce besides the string fields. */
  lemma EnvelopeDictLookups(e: Envelope, codec: IsoCodec)
    ensures var d := EnvelopeDict(e, codec);
      && (forall k :: k in EnvelopeStringKeys ==>
            (k in d <==> StringField(e, k) != "") && (k in d ==> d[k] == JStr(StringField(e, k))))
      && ("deadline" in d <==> e.deadline.Some?)
      && (e.deadline.Some? ==> d["deadline"] == JStr(codec.format(e.deadline.value)))
      && ("partition_override" in d <==> e.partitionOverride.Some?)
      && (e.partitionOverride.Some? ==> d["partition_override"] == JInt(e.partitionOverride.value))
      && ("retry_policy" in d <==> e.retryPolicy.Some? && !IsZeroPolicy(e.retryPolicy.value))
      && ("retry_policy" in d ==> d["retry_policy"] == JObj(PolicyDict(e.retryPolicy.value)))
  {
    forall k | k in EnvelopeStringKeys {
      StringEntryAt(e, k);
    }
    OtherKeyAbsent(e, "deadline");
    OtherKeyAbsent(e, "partition_override");
    OtherKeyAbsent(e, "retry_policy");
  }

  /** A key outside the string fields has no string entry. */
  lemma OtherKeyAbsent(e: Envelope, k: string)
    requires k !in EnvelopeStringKeys
    ensures k !in StringEntries(e, EnvelopeStringKeys)
  {
  }

  /**
   * `Envelope.from_dict(e.to_dict())` gives back `e`, except that an all-zero
   * retry policy comes back as `None`, whenever the codec reproduces the
   * envelope's deadline.
   */
  lemma EnvelopeRoundTrip(e: Envelope, codec: IsoCodec)
    requires e.deadline.Some? ==> RoundTripsAt(codec, e.deadline.value)
    ensures EnvelopeFromDict(EnvelopeDict(e, codec), codec) == Ok(WireView(e))
  {
    var d := EnvelopeDict(e, codec);
    EnvelopeDictLookups(e, codec);
    assert DeadlineFromJson(Get(d, "deadline", JNull), codec) == e.deadline;
    assert PolicyFromJson(Get(d, "retry_policy", JNull)) == Ok(WireView(e).retryPolicy) by {
      if e.retryPolicy.Some? && !IsZeroPolicy(e.retryPolicy.value) {
        PolicyRoundTrip(e.retryPolicy.value);
      }
    }
    assert OverrideFromJson(Get(d, "partition_override", JNull)) == Ok(e.partitionOverride);
    StringsRoundTrip(e, d);
  }

  lemma StringsRoundTrip(e: Envelope, d: Dict)
    requires forall k :: k in EnvelopeStringKeys ==>
      (k in d <==> StringField(e, k) != "") && (k in d ==> d[k] == JStr(StringField(e, k)))
    ensures StrField(d, "run_id") == Ok(e.runId)
    ensures StrField(d, "step_id") == Ok(e.stepId)
    ensures StrField(d, "parent_step_id") == Ok(e.parentStepId)
    ensures StrField(d, "tenant_id") == Ok(e.tenantId)
    ensures StrField(d, "idempotency_key") == Ok(e.idempotencyKey)
    ensures StrField(d, "target_topic") == Ok(e.targetTopic)
  {
    assert "run_id" in EnvelopeStringKeys && "step_id" in EnvelopeStringKeys;
    assert "parent_step_id" in EnvelopeStringKeys && "tenant_id" in EnvelopeStringKeys;
    assert "idempotency_key" in EnvelopeStringKeys && "target_topic" in EnvelopeStringKeys;
  }

  /** A deadline the codec does not reproduce breaks the round trip: the
      envelope read back has another deadline, or does not decode. */
  lemma EnvelopeRoundTripNeedsDeadline(e: Envelope, codec: IsoCodec)
    requires e.deadline.Some? && !RoundTripsAt(codec, e.deadline.value)
    ensures EnvelopeFromDict(EnvelopeDict(e, codec), codec) != Ok(WireView(e))
  {
    var d := EnvelopeDict(e, codec);
    EnvelopeDictLookups(e, codec);
    assert DeadlineFromJson(Get(d, "deadline", JNull), codec) != e.deadline;
  }

  /** The round trip is exact precisely when the retry policy is not all zero. */
  lemma EnvelopeRoundTripExact(e: Envelope, codec: IsoCodec)
    requires e.deadline.Some? ==> RoundTripsAt(codec, e.deadline.value)
    ensures EnvelopeFromDict(EnvelopeDict(e, codec), codec) == Ok(e)
        <==> !(e.retryPolicy.Some? && IsZeroPolicy(e.retryPolicy.value))
  {
    EnvelopeRoundTrip(e, codec);
  }

  /** A deadline that is absent, not a string, empty or unparseable reads as `None`. */
  lemma DeadlineAbsentWhenUnreadable(d: Dict, codec: IsoCodec)
    requires EnvelopeFromDict(d, codec).Ok?
    requires || "deadline" !in d
             || !d["deadline"].JStr?
             || d["deadline"].s == ""
             || codec.parse(d["deadline"].s) == None
    ensures EnvelopeFromDict(d, codec).value.deadline == None
  {
  }

  // ---------------------------------------------------------------------
  // Routing and ConsumeMessage
  // ---------------------------------------------------------------------

  datatype Routing = Routing(routeLabel: string, meta: map<string, Json>)

  /** `dict(v or {})`; a non-empty list would be read as key/value pairs,
      which the model does not follow. */
  function DictOf(v: Json): Result<map<string, Json>, CoerceError> {
    if !Truthy(v) then Ok(map[])
    else match v
      case JObj(m) => Ok(m)
      case JStr(_) => Err(ValueError)
      case JList(_) => Err(NotModelled)
      case _ => Err(TypeError)
  }

  /** `Routing.from_dict`. */
  function RoutingFromDict(d: Dict): Result<Routing, CoerceError> {
    var routeLabel :- StrField(d, "label");
    var meta :- DictOf(Get(d, "meta", JObj(map[])));
    Ok(Routing(routeLabel, meta))
  }

  /** A missing or falsy label reads as "", a missing or falsy meta as an
      empty map; a string label and an object meta are kept. */
  lemma RoutingFields(d: Dict)
    requires RoutingFromDict(d).Ok?
    ensures var r := RoutingFromDict(d).value;
      && ("label" !in d || !Truthy(d["label"]) ==> r.routeLabel == "")
      && ("label" in d && d["label"].JStr? ==> r.routeLabel == d["label"].s)
      && ("meta" !in d || !Truthy(d["meta"]) ==> r.meta == map[])
      && ("meta" in d && d["meta"].JObj? ==> r.meta == d["meta"].fields)
  {
  }

  /** A routing object whose label is a string (or missing) and whose meta is
      an object (or missing) always parses. */
  lemma RoutingOfObjects(d: Dict)
    requires "label" !in d || d["label"].JStr?
    requires "meta" !in d || d["meta"].JObj?
    ensures RoutingFromDict(d)
         == Ok(Routing(if "label" in d then d["label"].s else "", if "meta" in d then d["meta"].fields else map[]))
  {
  }

  /** One delivery as the consume stream hands it over. */
  datatype ConsumeMessage = ConsumeMessage(
    partition: int,
    offset: int,
    attempts: int,
    key: string,
    value: string,
    lastError: string,
    routing: Option<Routing>,
    envelope: Option<Envelope>)

  /** `int(d.get(k, 0))`: unlike `IntField`, a JSON `null` raises. */
  function IntOrZero(d: Dict, k: string): Result<int, CoerceError> {
    PyInt(Get(d, k, JInt(0)))
  }

  /** `ConsumeMessage.from_dict`: routing and envelope are parsed only when
      they are objects. */
  function MessageFromDict(d: Dict, codec: IsoCodec): Result<ConsumeMessage, CoerceError> {
    var routing :- match Get(d, "routing", JNull)
      case JObj(m) => (var r :- RoutingFromDict(m); Ok(Some(r)))
      case _ => Ok(None);
    var envelope :- match Get(d, "envelope", JNull)
      case JObj(m) => (var e :- EnvelopeFromDict(m, codec); Ok(Some(e)))
      case _ => Ok(None);
    var partition :- IntOrZero(d, "partition");
    var offset :- IntOrZero(d, "offset");
    var attempts :- IntOrZero(d, "attempts");
    var key :- StrField(d, "key");
    var value :- StrField(d, "value");
    var lastError :- StrField(d, "last_error");
    Ok(ConsumeMessage(partition, offset, attempts, key, value, lastError, routing, envelope))
  }

  /** Missing numbers read as 0, missing strings as "", and a routing or
      envelope that is not an object as `None`. */
  lemma MessageDefaults(d: Dict, codec: IsoCodec)
    requires forall k :: k in d ==> k == "routing" || k == "envelope"
    requires "routing" in d ==> !d["routing"].JObj?
    requires "envelope" in d ==> !d["envelope"].JObj?
    ensures MessageFromDict(d, codec) == Ok(ConsumeMessage(0, 0, 0, "", "", "", None, None))
  {
    assert "partition" !in d && "offset" !in d && "attempts" !in d;
    assert "key" !in d && "value" !in d && "last_error" !in d;
  }

  /** Field by field, for any message that decodes: a missing number reads as
      0 and a missing string as ""; an integer or a string present is kept. */
  lemma MessageFields(d: Dict, codec: IsoCodec)
    requires MessageFromDict(d, codec).Ok?
    ensures var m := MessageFromDict(d, codec).value;
      && ("partition" !in d ==> m.partition == 0)
      && ("offset" !in d ==> m.offset == 0)
      && ("attempts" !in d ==> m.attempts == 0)
      && ("key" !in d ==> m.key == "")
      && ("value" !in d ==> m.value == "")
      && ("last_error" !in d ==> m.lastError == "")
      && ("partition" in d && d["partition"].JInt? ==> m.partition == d["partition"].i)
      && ("offset" in d && d["offset"].JInt? ==> m.offset == d["offset"].i)
      && ("attempts" in d && d["attempts"].JInt? ==> m.attempts == d["attempts"].i)
      && ("key" in d && d["key"].JStr? ==> m.key == d["key"].s)
      && ("value" in d && d["value"].JStr? ==> m.value == d["value"].s)
      && ("last_error" in d && d["last_error"].JStr? ==> m.lastError == d["last_error"].s)
  {
    MessageScalars(d, codec);
  }

  /** The scalar fields of a decoded message are the field readers' results. */
  lemma MessageScalars(d: Dict, codec: IsoCodec)
    requires MessageFromDict(d, codec).Ok?
    ensures var m := MessageFromDict(d, codec).value;
      && IntOrZero(d, "partition") == Ok(m.partition)
      && IntOrZero(d, "offset") == Ok(m.offset)
      && IntOrZero(d, "attempts") == Ok(m.attempts)
      && StrField(d, "key") == Ok(m.key)
      && StrField(d, "value") == Ok(m.value)
      && StrField(d, "last_error") == Ok(m.lastError)
  {
  }

  /** A `null` partition is rejected: Python's `int(None)` raises TypeError,
      unless a nested routing or envelope has already raised. */
  lemma NullPartitionRejected(d: Dict, codec: IsoCodec)
    requires "partition" in d && d["partition"] == JNull
    ensures MessageFromDict(d, codec).Err?
    ensures NestedDecode(d, codec) ==> MessageFromDict(d, codec) == Err(TypeError)
  {
  }

  /** Do the nested routing and envelope, where they are objects, decode? */
  predicate NestedDecode(d: Dict, codec: IsoCodec) {
    && ("routing" in d && d["routing"].JObj? ==> RoutingFromDict(d["routing"].fields).Ok?)
    && ("envelope" in d && d["envelope"].JObj? ==> EnvelopeFromDict(d["envelope"].fields, codec).Ok?)
  }

  /** A decoded message has a routing exactly when the input's `routing` is
      an object, and then it is that object parsed; likewise the envelope. */
  lemma MessageNestedParsed(d: Dict, codec: IsoCodec)
    requires MessageFromDict(d, codec).Ok?
    ensures var m := MessageFromDict(d, codec).value;
      && (m.routing.Some? <==> "routing" in d && d["routing"].JObj?)
      && (m.routing.Some? ==> RoutingFromDict(d["routing"].fields) == Ok(m.routing.value))
      && (m.envelope.Some? <==> "envelope" in d && d["envelope"].JObj?)
      && (m.envelope.Some? ==> EnvelopeFromDict(d["envelope"].fields, codec) == Ok(m.envelope.value))
  {
  }
}
