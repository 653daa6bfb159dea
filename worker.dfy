/**
 * The DriftQ worker: validates its configuration, and resolves every
 * streamed delivery to an ack or a nack after running the user handler
 * under the delivery's deadline. The run loop is modelled sequentially
 * (effective concurrency 1); the handler's outcome, the clock reading at
 * dispatch and the outcome of each ack/nack RPC are data of the delivery.
 */
module Workers {
  import opened Common
  import opened Types
  import opened Utf8

  // ---------------------------------------------------------------------
  // Errors, handler outcomes, deliveries
  // ---------------------------------------------------------------------

  /** A raised exception: its class name and its `str()`. */
  datatype Error = Error(kind: string, text: string)

  /** Raised by the deadline pre-check. */
  const DeadlineExceeded := Error("TimeoutError", "message deadline exceeded")

  /** Raised by `asyncio.wait_for` when the handler overruns; it stringifies empty. */
  const HandlerTimedOut := Error("TimeoutError", "")

  /** What the user handler does if left to run: return, or raise, after `elapsed` seconds. */
  datatype HandlerOutcome = Returned(elapsed: real) | Raised(err: Error, elapsed: real)

  /** How the network answers one ack or nack call. */
  datatype Rpc = RpcOk | RpcFailed(err: Error)

  /** One streamed delivery, the clock at its dispatch, and what its handler
      and its ack and nack calls would do. */
  datatype Delivery = Delivery(msg: ConsumeMessage, now: Instant, handler: HandlerOutcome, ackRpc: Rpc, nackRpc: Rpc)

  /** A custom nack-reason formatter; `Err` when it raises. A formatter that
      returns `None` is one that returns `Ok("")`. */
  type Formatter = (ConsumeMessage, Error) -> Result<string, Error>

  // ---------------------------------------------------------------------
  // Configuration
  // ---------------------------------------------------------------------

  /** `WorkerConfig`: a mutable record the constructor normalises in place. */
  class WorkerConfig {
    var hasClient: bool
    var topic: string
    var group: string
    var owner: string
    var leaseMs: int
    var concurrency: int
    var hasOnError: bool
    var nackReason: Option<Formatter>
    var maxNackReasonBytes: int

    constructor (hasClient: bool, topic: string, group: string, owner: string, leaseMs: int,
                 concurrency: int, hasOnError: bool, nackReason: Option<Formatter>, maxNackReasonBytes: int)
      ensures this.hasClient == hasClient && this.topic == topic && this.group == group
      ensures this.owner == owner && this.leaseMs == leaseMs && this.concurrency == concurrency
      ensures this.hasOnError == hasOnError && this.nackReason == nackReason
      ensures this.maxNackReasonBytes == maxNackReasonBytes
    {
      this.hasClient := hasClient;
      this.topic := topic;
      this.group := group;
      this.owner := owner;
      this.leaseMs := leaseMs;
      this.concurrency := concurrency;
      this.hasOnError := hasOnError;
      this.nackReason := nackReason;
      this.maxNackReasonBytes := maxNackReasonBytes;
    }
  }

  /** The `ValueError` message `Worker.__init__` raises, checks in order; `None` when all pass. */
  function ConfigProblem(hasClient: bool, topic: string, group: string, owner: string, leaseMs: int): (r: Option<string>)
    ensures r == None <==> hasClient && topic != "" && group != "" && owner != "" && leaseMs >= 0
    ensures !hasClient ==> r == Some("client is required")
    ensures hasClient && (topic == "" || group == "" || owner == "") ==> r == Some("topic, group, owner are required")
    ensures hasClient && topic != "" && group != "" && owner != "" && leaseMs < 0 ==> r == Some("lease_ms must be >= 0")
  {
    if !hasClient then Some("client is required")
    else if topic == "" || group == "" || owner == "" then Some("topic, group, owner are required")
    else if leaseMs < 0 then Some("lease_ms must be >= 0")
    else None
  }

  /** The concurrency the constructor leaves in the configuration. */
  function EffectiveConcurrency(c: int): (r: int)
    ensures r >= 1
    ensures c >= 1 ==> r == c
    ensures c <= 0 ==> r == 1
  {
    if c <= 0 then 1 else c
  }

  // ---------------------------------------------------------------------
  // Per-delivery logic
  // ---------------------------------------------------------------------

  function DeadlineOf(msg: ConsumeMessage): Option<Instant> {
    if msg.envelope.Some? then msg.envelope.value.deadline else None
  }

  /** The handler's own result: `None` when it returns. */
  function HandlerResult(h: HandlerOutcome): Option<Error> {
    match h
    case Returned(_) => None
    case Raised(e, _) => Some(e)
  }

  /** `_run_with_deadline`: `None` on success, else the exception raised. */
  function RunWithDeadline(msg: ConsumeMessage, now: Instant, h: HandlerOutcome): (r: Option<Error>)
    ensures DeadlineOf(msg).None? ==> r == HandlerResult(h)
  {
    match DeadlineOf(msg)
    case None => HandlerResult(h)
    case Some(dl) =>
      var remaining := dl - now;
      if remaining <= 0.0 then Some(DeadlineExceeded)
      else if h.elapsed < remaining then HandlerResult(h)
      else Some(HandlerTimedOut)
  }

  /** A delivery whose deadline has passed fails with a timeout whatever its
      handler would do: the handler is never run. */
  lemma ExpiredDeadlineSkipsHandler(msg: ConsumeMessage, now: Instant, h1: HandlerOutcome, h2: HandlerOutcome)
    requires DeadlineOf(msg).Some? && DeadlineOf(msg).value - now <= 0.0
    ensures RunWithDeadline(msg, now, h1) == RunWithDeadline(msg, now, h2) == Some(DeadlineExceeded)
  {
  }

  /** Within a live deadline the handler's result stands if it finishes in
      time, and otherwise the delivery times out. */
  lemma LiveDeadlineBoundsHandler(msg: ConsumeMessage, now: Instant, h: HandlerOutcome)
    requires DeadlineOf(msg).Some? && DeadlineOf(msg).value - now > 0.0
    ensures h.elapsed < DeadlineOf(msg).value - now ==> RunWithDeadline(msg, now, h) == HandlerResult(h)
    ensures h.elapsed >= DeadlineOf(msg).value - now ==> RunWithDeadline(msg, now, h) == Some(HandlerTimedOut)
  {
  }

  /** The untruncated reason: the formatter's text, else `str(err)`; an empty
      text falls back to the class name. */
  function ReasonText(formatter: Option<Formatter>, msg: ConsumeMessage, err: Error): (r: Result<string, Error>)
    ensures formatter.None? ==> r == Ok(if err.text != "" then err.text else err.kind)
    ensures formatter.Some? && formatter.value(msg, err).Ok? ==>
      var s := formatter.value(msg, err).value;
      r == Ok(if s != "" then s else err.kind)
    ensures formatter.Some? && formatter.value(msg, err).Err? ==> r == Err(formatter.value(msg, err).error)
  {
    var s :- match formatter
      case Some(f) => f(msg, err)
      case None => Ok(err.text);
    Ok(if s == "" then err.kind else s)
  }

  /** Python's end index for `b[:stop]` on `n` bytes. */
  function SliceEnd(n: nat, stop: int): (k: nat)
    ensures k <= n
    ensures 0 <= stop <= n ==> k == stop
  {
    if stop >= 0 then (if stop < n then stop else n)
    else if n + stop > 0 then n + stop else 0
  }

  /** The byte cap of `_format_reason`: unchanged when the UTF-8 encoding
      fits, else the encoding cut to `cap` bytes decoded with errors ignored. */
  function CapReason(s: string, cap: int): string {
    if s == [] then []
    else
      var b := Encode(s);
      if |b| <= cap then s else DecodeIgnore(b[..SliceEnd(|b|, cap)])
  }

  /** A reason that fits in the cap is kept as it is. */
  lemma CapReasonFits(s: string, cap: int)
    requires |Encode(s)| <= cap
    ensures CapReason(s, cap) == s
  {
  }

  /** A reason over a non-negative cap becomes its longest whole-character
      prefix whose encoding fits in the cap. */
  lemma CapReasonTruncates(s: string, cap: int)
    requires 0 <= cap < |Encode(s)|
    ensures var r := CapReason(s, cap);
      && r == FittingPrefix(s, cap)
      && r == s[..|r|] && |r| < |s|
      && |Encode(r)| <= cap
      && |Encode(r)| + WidthOf(s[|r|]) > cap
  {
    DecodeCutEncoding(s, cap);
    FittingPrefixIsLongest(s, cap);
  }

  /** A negative cap slices from the end, as Python does: the reason loses at
      least `-cap` bytes, keeping whole characters. */
  lemma CapReasonNegative(s: string, cap: int)
    requires cap < 0 && s != []
    ensures CapReason(s, cap) == FittingPrefix(s, |Encode(s)| + cap)
  {
    var n := |Encode(s)|;
    if n + cap > 0 {
      DecodeCutEncoding(s, n + cap);
    } else {
      DecodeCutEncoding(s, 0);
      assert FittingPrefix(s, n + cap) == [] by {
        assert WidthOf(s[0]) >= 1;
      }
      assert FittingPrefix(s, 0) == [] by {
        assert WidthOf(s[0]) >= 1;
      }
    }
  }

  /** Any cap of at least four bytes keeps a non-empty reason non-empty. */
  lemma CapReasonNonEmpty(s: string, cap: int)
    requires s != [] && cap >= 4
    ensures CapReason(s, cap) != []
  {
    if |Encode(s)| > cap {
      CapReasonTruncates(s, cap);
      assert WidthOf(s[0]) <= 4;
    }
  }

  /** Over a non-negative cap the reason is always the longest whole-character
      prefix that fits, whether or not it had to be cut. */
  lemma CapReasonIsFittingPrefix(s: string, cap: int)
    requires cap >= 0
    ensures CapReason(s, cap) == FittingPrefix(s, cap)
  {
    if |Encode(s)| <= cap {
      FittingPrefixWhole(s, cap);
    } else {
      CapReasonTruncates(s, cap);
    }
  }

  /** `_format_reason`. */
  function FormatReason(formatter: Option<Formatter>, cap: int, msg: ConsumeMessage, err: Error): Result<string, Error> {
    var s :- ReasonText(formatter, msg, err);
    Ok(CapReason(s, cap))
  }

  /** Without a formatter, an error whose text fits the cap is the reason verbatim. */
  lemma ReasonIsErrorText(cap: int, msg: ConsumeMessage, err: Error)
    requires err.text != "" && |Encode(err.text)| <= cap
    ensures FormatReason(None, cap, msg, err) == Ok(err.text)
  {
  }

  /** Without a formatter, a cap of at least four bytes and an error with a
      class name always give a non-empty reason (a timed-out handler's empty
      text becomes "TimeoutError"). */
  lemma ReasonNonEmpty(cap: int, msg: ConsumeMessage, err: Error)
    requires err.kind != "" && cap >= 4
    ensures FormatReason(None, cap, msg, err).Ok?
    ensures FormatReason(None, cap, msg, err).value != ""
  {
    CapReasonNonEmpty(if err.text != "" then err.text else err.kind, cap);
  }

  /** A custom formatter's text is the reason when it fits the cap; an empty
      text falls back to the error's class name. */
  lemma FormatterReasonFits(f: Formatter, cap: int, msg: ConsumeMessage, err: Error, s: string)
    requires f(msg, err) == Ok(s)
    requires |Encode(if s != "" then s else err.kind)| <= cap
    ensures FormatReason(Some(f), cap, msg, err) == Ok(if s != "" then s else err.kind)
  {
    CapReasonFits(if s != "" then s else err.kind, cap);
  }

  /** How one delivery ends. */
  datatype Resolution =
    | Acked                                 // handler and ack succeeded
    | Nacked(reason: string)                // nack sent
    | NackLost(reason: string, err: Error)  // the nack call raised; reported
    | Abandoned(err: Error)                 // the formatter raised: no nack is sent

  /** The error that makes a delivery fail: from the deadline, the handler, or the ack call. */
  function FailureOf(d: Delivery): Option<Error> {
    match RunWithDeadline(d.msg, d.now, d.handler)
    case Some(e) => Some(e)
    case None => (match d.ackRpc case RpcOk => None case RpcFailed(e) => Some(e))
  }

  /** `_handle_one` as a value: which terminal outcome a delivery reaches. */
  function Resolve(formatter: Option<Formatter>, cap: int, d: Delivery): Resolution {
    match FailureOf(d)
    case None => Acked
    case Some(e) =>
      match FormatReason(formatter, cap, d.msg, e)
      case Err(fe) => Abandoned(fe)
      case Ok(reason) =>
        match d.nackRpc
        case RpcOk => Nacked(reason)
        case RpcFailed(ne) => NackLost(reason, ne)
  }

  /** A handler success whose ack call raises is nacked, with the ack's error as the cause. */
  lemma FailedAckIsNacked(formatter: Option<Formatter>, cap: int, d: Delivery)
    requires RunWithDeadline(d.msg, d.now, d.handler).None? && d.ackRpc.RpcFailed?
    ensures FailureOf(d) == Some(d.ackRpc.err)
    ensures Resolve(formatter, cap, d) != Acked
  {
  }

  /** A formatter that raises on a failed delivery abandons it: no nack is
      sent, nothing is reported, and the ledger is left as it was. */
  lemma FormatterRaisesAbandons(l: Ledger, owner: string, hasOnError: bool, f: Formatter, cap: int, d: Delivery)
    requires FailureOf(d).Some? && f(d.msg, FailureOf(d).value).Err?
    ensures Resolve(Some(f), cap, d) == Abandoned(f(d.msg, FailureOf(d).value).error)
    ensures Record(l, owner, hasOnError, d, Resolve(Some(f), cap, d)) == l
  {
  }

  /** Without a formatter every delivery ends in an ack or a nack attempt, and
      it is acked exactly when the handler and the ack call both succeed. */
  lemma ResolveWithoutFormatter(cap: int, d: Delivery)
    ensures !Resolve(None, cap, d).Abandoned?
    ensures Resolve(None, cap, d) == Acked <==>
      RunWithDeadline(d.msg, d.now, d.handler).None? && d.ackRpc == RpcOk
  {
  }

  // ---------------------------------------------------------------------
  // The broker calls the worker makes
  // ---------------------------------------------------------------------

  /** The consumer as the worker uses it: it records the ack and nack calls
      that went through, as `(owner, partition, offset[, reason])`. */
  class Consumer {
    var acked: seq<(string, int, int)>
    var nacked: seq<(string, int, int, string)>

    constructor ()
      ensures acked == [] && nacked == []
    {
      acked := [];
      nacked := [];
    }

    /** `ack(owner, msg)`; `rpc` is how the network answers it. */
    method Ack(owner: string, msg: ConsumeMessage, rpc: Rpc) returns (err: Option<Error>)
      modifies this
      ensures err == (match rpc case RpcOk => None case RpcFailed(e) => Some(e))
      ensures acked == old(acked) + (if rpc == RpcOk then [(owner, msg.partition, msg.offset)] else [])
      ensures nacked == old(nacked)
    {
      match rpc {
        case RpcOk =>
          acked := acked + [(owner, msg.partition, msg.offset)];
          err := None;
        case RpcFailed(e) =>
          err := Some(e);
      }
    }

    /** `nack(owner, msg, reason)`; `rpc` is how the network answers it. */
    method Nack(owner: string, msg: ConsumeMessage, reason: string, rpc: Rpc) returns (err: Option<Error>)
      modifies this
      ensures err == (match rpc case RpcOk => None case RpcFailed(e) => Some(e))
      ensures nacked == old(nacked) + (if rpc == RpcOk then [(owner, msg.partition, msg.offset, reason)] else [])
      ensures acked == old(acked)
    {
      match rpc {
        case RpcOk =>
          nacked := nacked + [(owner, msg.partition, msg.offset, reason)];
          err := None;
        case RpcFailed(e) =>
          err := Some(e);
      }
    }
  }

  /** What the broker and `on_error` have seen: successful acks and nacks as
      `(owner, partition, offset[, reason])`, and the reported errors. */
  datatype Ledger = Ledger(acked: seq<(string, int, int)>, nacked: seq<(string, int, int, string)>, reported: seq<Error>)

  /** The ledger after one delivery resolves as `res`. */
  function Record(l: Ledger, owner: string, hasOnError: bool, d: Delivery, res: Resolution): Ledger {
    Ledger(
      l.acked + (if res.Acked? then [(owner, d.msg.partition, d.msg.offset)] else []),
      l.nacked + (if res.Nacked? then [(owner, d.msg.partition, d.msg.offset, res.reason)] else []),
      l.reported + (if hasOnError && res.NackLost? then [res.err] else []))
  }

  /** Each delivery adds at most one ack or nack to the ledger, and exactly one
      unless its nack call failed or its formatter raised. */
  lemma AtMostOneRecord(l: Ledger, owner: string, hasOnError: bool, formatter: Option<Formatter>, cap: int, d: Delivery)
    ensures var res := Resolve(formatter, cap, d);
      var l' := Record(l, owner, hasOnError, d, res);
      |l'.acked| + |l'.nacked| == |l.acked| + |l.nacked| + (if res.NackLost? || res.Abandoned? then 0 else 1)
  {
  }

  // ---------------------------------------------------------------------
  // The worker
  // ---------------------------------------------------------------------

  class Worker {
    const cfg: WorkerConfig
    /** The errors passed to `on_error`, in order. */
    var reported: seq<Error>

    constructor (cfg: WorkerConfig)
      requires ConfigProblem(cfg.hasClient, cfg.topic, cfg.group, cfg.owner, cfg.leaseMs) == None
      modifies cfg
      ensures this.cfg == cfg && reported == []
      ensures cfg.concurrency == EffectiveConcurrency(old(cfg.concurrency))
      ensures cfg.hasClient == old(cfg.hasClient) && cfg.topic == old(cfg.topic) && cfg.group == old(cfg.group)
      ensures cfg.owner == old(cfg.owner) && cfg.leaseMs == old(cfg.leaseMs) && cfg.hasOnError == old(cfg.hasOnError)
      ensures cfg.nackReason == old(cfg.nackReason) && cfg.maxNackReasonBytes == old(cfg.maxNackReasonBytes)
    {
      if cfg.concurrency <= 0 {
        cfg.concurrency := 1;
      }
      this.cfg := cfg;
      reported := [];
    }

    /** `_report`: hands the error to `on_error` when one is configured. */
    method Report(err: Error)
      modifies this
      ensures reported == old(reported) + (if cfg.hasOnError then [err] else [])
    {
      if cfg.hasOnError {
        reported := reported + [err];
      }
    }

    /** `_handle_one`: run the handler under the deadline and ack, or nack with a
        formatted reason; a failing nack is reported, never raised. */
    method HandleOne(cons: Consumer, d: Delivery) returns (res: Resolution)
      modifies this, cons
      ensures res == Resolve(cfg.nackReason, cfg.maxNackReasonBytes, d)
      ensures Ledger(cons.acked, cons.nacked, reported)
           == Record(Ledger(old(cons.acked), old(cons.nacked), old(reported)), cfg.owner, cfg.hasOnError, d, res)
    {
      var failure := RunWithDeadline(d.msg, d.now, d.handler);
      if failure.None? {
        failure := cons.Ack(cfg.owner, d.msg, d.ackRpc);
      }
      if failure.None? {
        return Acked;
      }
      var reason := FormatReason(cfg.nackReason, cfg.maxNackReasonBytes, d.msg, failure.value);
      if reason.Err? {
        return Abandoned(reason.error);
      }
      var nackErr := cons.Nack(cfg.owner, d.msg, reason.value, d.nackRpc);
      if nackErr.Some? {
        Report(nackErr.value);
        return NackLost(reason.value, nackErr.value);
      }
      return Nacked(reason.value);
    }

    /** `run` with concurrency 1: one `_handle_one` per streamed delivery, in
        stream order, each finished before the next starts. */
    method Run(cons: Consumer, deliveries: seq<Delivery>) returns (outcomes: seq<Resolution>)
      modifies this, cons
      ensures outcomes == Resolutions(cfg.nackReason, cfg.maxNackReasonBytes, deliveries)
      ensures Ledger(cons.acked, cons.nacked, reported)
           == Replay(Ledger(old(cons.acked), old(cons.nacked), old(reported)),
                     cfg.owner, cfg.hasOnError, cfg.nackReason, cfg.maxNackReasonBytes, deliveries)
    {
      var owner, fmt, cap, onError := cfg.owner, cfg.nackReason, cfg.maxNackReasonBytes, cfg.hasOnError;
      ghost var start := Ledger(cons.acked, cons.nacked, reported);
      outcomes := [];
      var i := 0;
      while i < |deliveries|
        invariant 0 <= i <= |deliveries|
        invariant outcomes == Resolutions(fmt, cap, deliveries[..i])
        invariant Ledger(cons.acked, cons.nacked, reported) == Replay(start, owner, onError, fmt, cap, deliveries[..i])
      {
        var d := deliveries[i];
        var res := HandleOne(cons, d);
        ReplayStep(start, owner, onError, fmt, cap, deliveries, i);
        outcomes := outcomes + [res];
        i := i + 1;
      }
      assert deliveries[..i] == deliveries;
    }
  }

  /** `Worker(cfg, handler)`: the `ValueError` message when the configuration
      is rejected (the configuration is then left as it was), else a worker
      over `cfg`, whose concurrency is raised to at least one in place. */
  method NewWorker(cfg: WorkerConfig) returns (r: Result<Worker, string>)
    modifies cfg
    ensures ConfigProblem(old(cfg.hasClient), old(cfg.topic), old(cfg.group), old(cfg.owner), old(cfg.leaseMs)).Some? ==>
      && r == Err(ConfigProblem(old(cfg.hasClient), old(cfg.topic), old(cfg.group), old(cfg.owner), old(cfg.leaseMs)).value)
      && unchanged(cfg)
    ensures ConfigProblem(old(cfg.hasClient), old(cfg.topic), old(cfg.group), old(cfg.owner), old(cfg.leaseMs)).None? ==>
      && r.Ok? && fresh(r.value) && r.value.cfg == cfg && r.value.reported == []
      && cfg.concurrency == EffectiveConcurrency(old(cfg.concurrency))
      && cfg.topic == old(cfg.topic) && cfg.group == old(cfg.group) && cfg.owner == old(cfg.owner)
      && cfg.leaseMs == old(cfg.leaseMs) && cfg.maxNackReasonBytes == old(cfg.maxNackReasonBytes)
      && cfg.hasClient == old(cfg.hasClient) && cfg.hasOnError == old(cfg.hasOnError)
      && cfg.nackReason == old(cfg.nackReason)
  {
    var problem := ConfigProblem(cfg.hasClient, cfg.topic, cfg.group, cfg.owner, cfg.leaseMs);
    if problem.Some? {
      return Err(problem.value);
    }
    var w := new Worker(cfg);
    return Ok(w);
  }

  // ---------------------------------------------------------------------
  // The run loop as a value
  // ---------------------------------------------------------------------

  /** The resolution of each delivery, in stream order. */
  function Resolutions(formatter: Option<Formatter>, cap: int, ds: seq<Delivery>): (rs: seq<Resolution>)
    ensures |rs| == |ds|
  {
    if ds == [] then [] else Resolutions(formatter, cap, ds[..|ds| - 1]) + [Resolve(formatter, cap, ds[|ds| - 1])]
  }

  /** The ledger after every delivery of `ds` has resolved, in stream order. */
  function Replay(l: Ledger, owner: string, hasOnError: bool, formatter: Option<Formatter>, cap: int, ds: seq<Delivery>): Ledger {
    if ds == [] then l
    else
      var d := ds[|ds| - 1];
      Record(Replay(l, owner, hasOnError, formatter, cap, ds[..|ds| - 1]), owner, hasOnError, d, Resolve(formatter, cap, d))
  }

  /** One more delivery extends the resolutions and the ledger by its own. */
  lemma ReplayStep(l: Ledger, owner: string, hasOnError: bool, formatter: Option<Formatter>, cap: int, ds: seq<Delivery>, i: nat)
    requires i < |ds|
    ensures Resolutions(formatter, cap, ds[..i + 1]) == Resolutions(formatter, cap, ds[..i]) + [Resolve(formatter, cap, ds[i])]
    ensures Replay(l, owner, hasOnError, formatter, cap, ds[..i + 1])
         == Record(Replay(l, owner, hasOnError, formatter, cap, ds[..i]), owner, hasOnError, ds[i], Resolve(formatter, cap, ds[i]))
  {
    assert ds[..i + 1][..i] == ds[..i];
  }

  /** The resolutions that left no record with the broker. */
  function Unresolved(rs: seq<Resolution>): seq<Resolution> {
    if rs == [] then []
    else Unresolved(rs[..|rs| - 1]) + (if rs[|rs| - 1].NackLost? || rs[|rs| - 1].Abandoned? then [rs[|rs| - 1]] else [])
  }

  /** Over a whole run, the acks and nacks added number the deliveries minus
      those whose nack was lost or abandoned: no delivery is recorded twice. */
  lemma {:induction false} ReplayCount(l: Ledger, owner: string, hasOnError: bool, formatter: Option<Formatter>, cap: int, ds: seq<Delivery>)
    ensures var l' := Replay(l, owner, hasOnError, formatter, cap, ds);
      |l'.acked| + |l'.nacked| + |Unresolved(Resolutions(formatter, cap, ds))| == |l.acked| + |l.nacked| + |ds|
  {
    if ds != [] {
      var init := ds[..|ds| - 1];
      var rs := Resolutions(formatter, cap, ds);
      ReplayCount(l, owner, hasOnError, formatter, cap, init);
      assert rs[..|rs| - 1] == Resolutions(formatter, cap, init);
      AtMostOneRecord(Replay(l, owner, hasOnError, formatter, cap, init), owner, hasOnError, formatter, cap, ds[|ds| - 1]);
    }
  }

  /** Replaying a stream in two parts is replaying it whole: records keep
      stream order. */
  lemma {:induction false} ReplayAppend(l: Ledger, owner: string, hasOnError: bool, formatter: Option<Formatter>, cap: int, xs: seq<Delivery>, ys: seq<Delivery>)
    ensures Replay(l, owner, hasOnError, formatter, cap, xs + ys)
         == Replay(Replay(l, owner, hasOnError, formatter, cap, xs), owner, hasOnError, formatter, cap, ys)
  {
    if ys == [] {
      assert xs + ys == xs;
    } else {
      var ys' := ys[..|ys| - 1];
      ReplayAppend(l, owner, hasOnError, formatter, cap, xs, ys');
      assert (xs + ys)[..|xs + ys| - 1] == xs + ys';
    }
  }

  /** The worker's tests: a handler that returns for (partition 0, offset 1)
      gives exactly one ack `(owner, 0, 1)` and no nack. */
  lemma SuccessScenario(owner: string, hasOnError: bool, cap: int, msg: ConsumeMessage, now: Instant, nackRpc: Rpc)
    requires msg.partition == 0 && msg.offset == 1 && msg.envelope == None
    ensures var d := Delivery(msg, now, Returned(0.0), RpcOk, nackRpc);
      Replay(Ledger([], [], []), owner, hasOnError, None, cap, [d]) == Ledger([(owner, 0, 1)], [], [])
  {
    var d := Delivery(msg, now, Returned(0.0), RpcOk, nackRpc);
    assert [d][..0] == [];
  }

  /** A handler raising "boom" for (partition 2, offset 99) gives exactly one
      nack for `(owner, 2, 99)` whose reason is "boom", and no ack. */
  lemma FailureScenario(owner: string, hasOnError: bool, msg: ConsumeMessage, now: Instant, ackRpc: Rpc)
    requires msg.partition == 2 && msg.offset == 99 && msg.envelope == None
    ensures var d := Delivery(msg, now, Raised(Error("ValueError", "boom"), 0.0), ackRpc, RpcOk);
      Replay(Ledger([], [], []), owner, hasOnError, None, 1024, [d]) == Ledger([], [(owner, 2, 99, "boom")], [])
  {
    var d := Delivery(msg, now, Raised(Error("ValueError", "boom"), 0.0), ackRpc, RpcOk);
    assert [d][..0] == [];
    ReasonIsErrorText(1024, msg, Error("ValueError", "boom"));
  }

  /** A handler that needs 0.2 s under a deadline 0.1 s away times out: one
      nack, no ack, and the reason is the class name "TimeoutError" (for the
      default cap of 1024 bytes, or any cap of at least its 12 bytes). */
  lemma DeadlineScenario(owner: string, hasOnError: bool, cap: int, msg: ConsumeMessage, now: Instant, ackRpc: Rpc)
    requires cap >= 12
    requires msg.envelope.Some? && msg.envelope.value.deadline == Some(now + 0.1)
    ensures var d := Delivery(msg, now, Returned(0.2), ackRpc, RpcOk);
      Replay(Ledger([], [], []), owner, hasOnError, None, cap, [d])
        == Ledger([], [(owner, msg.partition, msg.offset, HandlerTimedOut.kind)], [])
  {
    var d := Delivery(msg, now, Returned(0.2), ackRpc, RpcOk);
    OverrunTimesOut(msg, now, 0.1, 0.2);
    TimeoutReason(cap, msg);
    ResolveNacked(None, cap, d, HandlerTimedOut, HandlerTimedOut.kind);
    NackedAlone(owner, hasOnError, None, cap, d, HandlerTimedOut.kind);
  }

  /** A stream of one delivery that resolves as a nack records just that nack. */
  lemma NackedAlone(owner: string, hasOnError: bool, formatter: Option<Formatter>, cap: int, d: Delivery, reason: string)
    requires Resolve(formatter, cap, d) == Nacked(reason)
    ensures Replay(Ledger([], [], []), owner, hasOnError, formatter, cap, [d])
         == Ledger([], [(owner, d.msg.partition, d.msg.offset, reason)], [])
  {
    ReplaySingle(Ledger([], [], []), owner, hasOnError, formatter, cap, d);
  }

  /** A failed delivery whose reason formats and whose nack goes through is nacked with that reason. */
  lemma ResolveNacked(formatter: Option<Formatter>, cap: int, d: Delivery, e: Error, reason: string)
    requires RunWithDeadline(d.msg, d.now, d.handler) == Some(e)
    requires FormatReason(formatter, cap, d.msg, e) == Ok(reason) && d.nackRpc == RpcOk
    ensures Resolve(formatter, cap, d) == Nacked(reason)
  {
  }

  /** A handler that needs longer than the time left times out. */
  lemma OverrunTimesOut(msg: ConsumeMessage, now: Instant, left: real, elapsed: real)
    requires msg.envelope.Some? && msg.envelope.value.deadline == Some(now + left)
    requires 0.0 < left <= elapsed
    ensures RunWithDeadline(msg, now, Returned(elapsed)) == Some(HandlerTimedOut)
  {
    assert DeadlineOf(msg) == Some(now + left);
  }

  /** A timed-out handler's nack reason is its class name, under any cap
      that holds its 12 bytes. */
  lemma TimeoutReason(cap: int, msg: ConsumeMessage)
    requires cap >= 12
    ensures FormatReason(None, cap, msg, HandlerTimedOut) == Ok("TimeoutError")
  {
    assert ReasonText(None, msg, HandlerTimedOut) == Ok("TimeoutError");
    AsciiEncodeLength("TimeoutError");
    CapReasonFits("TimeoutError", cap);
  }

  /** Replaying one delivery records its resolution. */
  lemma ReplaySingle(l: Ledger, owner: string, hasOnError: bool, formatter: Option<Formatter>, cap: int, d: Delivery)
    ensures Replay(l, owner, hasOnError, formatter, cap, [d]) == Record(l, owner, hasOnError, d, Resolve(formatter, cap, d))
  {
    assert [d][..0] == [];
  }

  /** A nack call that raises is handed to `on_error` and leaves no record. */
  lemma LostNackReported(owner: string, cap: int, d: Delivery, l: Ledger)
    requires FailureOf(d).Some? && d.nackRpc.RpcFailed?
    ensures Replay(l, owner, true, None, cap, [d]) == Ledger(l.acked, l.nacked, l.reported + [d.nackRpc.err])
  {
    assert [d][..0] == [];
  }
}
