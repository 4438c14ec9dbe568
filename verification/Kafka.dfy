/**
 * Kafka envelopes as headers and payload (rb-kafka: envelope.rs, producer.rs, consumer.rs, retry.rs).
 * The UUID text form and the protobuf codec are parameters; times are nanoseconds since 1970.
 */
module Kafka {
  import opened Prelude
  import opened Decimal

  type Uuid = int
  type Bytes = seq<bv8>

  /** The header names of the wire format, `x-rb-tenant-id` and so on; `OTHER` is none of them. */
  datatype HeaderKey =
    | TENANT_ID | EVENT_ID | SCHEMA_VERSION | BLOB_REF | ATTEMPT | TRACEPARENT | TRACESTATE
    | PROCESS_AFTER_MS | CREATED_AT_MS | DLQ_REASON | DLQ_AT | OTHER(name: string)

  datatype Header = Header(key: HeaderKey, value: string)

  datatype SchemaVersion = V1

  datatype TraceContext = TraceContext(traceparent: string, tracestate: string)

  datatype Meta = Meta(topic: string, partition: int, offset: int, attempt: nat)

  datatype Envelope<P> = Envelope(
    tenantId: Uuid, eventId: Uuid, schemaVersion: SchemaVersion, traceContext: Option<TraceContext>,
    blobRef: Option<string>, createdAt: int, payload: P, meta: Meta)

  datatype Error =
    | MissingHeader(key: HeaderKey)
    | InvalidHeaderUuid(key: HeaderKey)
    | SchemaMismatch(found: string)
    | NotYetEligible
    | Deserialization
    | MaxRetriesExceeded

  datatype Codec<!P> = Codec(showId: Uuid -> string, readId: string -> Option<Uuid>, encode: P -> Bytes,
                             decode: Bytes -> Option<P>)

  /** What the UUID and protobuf libraries promise. */
  ghost predicate IsInverse<P(!new)>(codec: Codec<P>) {
    && (forall id: Uuid :: codec.readId(codec.showId(id)) == Some(id))
    && (forall p: P :: codec.decode(codec.encode(p)) == Some(p))
  }

  // Numbers and times

  function ShowInt(n: int): string {
    if n < 0 then "-" + Dec(-n) else Dec(n)
  }

  /** `str::parse` on an unsigned type: an optional plus sign, then digits. */
  function ReadUnsigned(s: string, max: nat): Option<nat> {
    var digits := if s != "" && s[0] == '+' then s[1..] else s;
    if digits != "" && AllDigits(digits) && Num(digits) <= max then Some(Num(digits)) else None
  }

  function ReadSigned(s: string): Option<int> {
    if s != "" && s[0] == '-' then
      if s[1..] != "" && AllDigits(s[1..]) && 0 - Num(s[1..]) >= I64_MIN then Some(0 - Num(s[1..])) else None
    else ReadUnsigned(s, I64_MAX)
  }

  const NANOS_PER_MS := 1_000_000
  // The instants chrono can hold: years -262143 to 262142.
  const MIN_MS := -8_334_601_228_800_000
  const MAX_MS := 8_210_266_876_799_999

  /** Rounded down, also before 1970. */
  function TimestampMillis(createdAt: int): int {
    createdAt / NANOS_PER_MS
  }

  function FromTimestampMillis(ms: int): Option<int> {
    if MIN_MS <= ms <= MAX_MS then Some(ms * NANOS_PER_MS) else None
  }

  predicate IsInstant(createdAt: int) {
    MIN_MS <= TimestampMillis(createdAt) <= MAX_MS
  }

  // Schema version

  const V1_STR := "rust_brain.v1"

  function ShowVersion(v: SchemaVersion): string {
    match v case V1 => V1_STR
  }

  function ReadVersion(s: string): Option<SchemaVersion> {
    if s == V1_STR then Some(V1) else None
  }

  // ---------------------------------------------------------------------------------------------
  // Headers
  // ---------------------------------------------------------------------------------------------

  function BaseHeaders<P>(codec: Codec<P>, e: Envelope<P>): seq<Header> {
    [Header(TENANT_ID, codec.showId(e.tenantId)), Header(EVENT_ID, codec.showId(e.eventId)),
     Header(SCHEMA_VERSION, ShowVersion(e.schemaVersion)), Header(ATTEMPT, ShowInt(e.meta.attempt)),
     Header(CREATED_AT_MS, ShowInt(TimestampMillis(e.createdAt)))]
  }

  function BlobHeaders(blobRef: Option<string>): seq<Header> {
    if blobRef.Some? then [Header(BLOB_REF, blobRef.value)] else []
  }

  /** An explicit context wins over what the tracing library would inject. */
  function TraceHeaders(trace: Option<TraceContext>, injected: seq<Header>): seq<Header> {
    if trace.None? then injected
    else
      (if trace.value.traceparent != "" then [Header(TRACEPARENT, trace.value.traceparent)] else []) +
      (if trace.value.tracestate != "" then [Header(TRACESTATE, trace.value.tracestate)] else [])
  }

  function HeadersOf<P>(codec: Codec<P>, e: Envelope<P>, injected: seq<Header>): seq<Header> {
    BaseHeaders(codec, e) + BlobHeaders(e.blobRef) + TraceHeaders(e.traceContext, injected)
  }

  method BuildHeaders<P>(codec: Codec<P>, e: Envelope<P>, injected: seq<Header>) returns (h: seq<Header>)
    ensures h == HeadersOf(codec, e, injected)
  {
    h := [];
    h := h + [Header(TENANT_ID, codec.showId(e.tenantId))];
    h := h + [Header(EVENT_ID, codec.showId(e.eventId))];
    h := h + [Header(SCHEMA_VERSION, ShowVersion(e.schemaVersion))];
    h := h + [Header(ATTEMPT, ShowInt(e.meta.attempt))];
    h := h + [Header(CREATED_AT_MS, ShowInt(TimestampMillis(e.createdAt)))];
    assert h == BaseHeaders(codec, e);
    if e.blobRef.Some? {
      h := h + [Header(BLOB_REF, e.blobRef.value)];
    }
    assert h == BaseHeaders(codec, e) + BlobHeaders(e.blobRef);
    match e.traceContext
    case Some(tc) =>
      if tc.traceparent != "" {
        h := h + [Header(TRACEPARENT, tc.traceparent)];
      }
      if tc.tracestate != "" {
        h := h + [Header(TRACESTATE, tc.tracestate)];
      }
    case None =>
      h := h + injected;
  }

  function DueHeaders(dueMs: Option<nat>): seq<Header> {
    if dueMs.Some? then [Header(PROCESS_AFTER_MS, ShowInt(dueMs.value))] else []
  }

  method BuildHeadersWithRetry<P>(codec: Codec<P>, e: Envelope<P>, dueMs: Option<nat>, injected: seq<Header>)
    returns (h: seq<Header>)
    ensures h == HeadersOf(codec, e, injected) + DueHeaders(dueMs)
  {
    h := BuildHeaders(codec, e, injected);
    if dueMs.Some? {
      h := h + [Header(PROCESS_AFTER_MS, ShowInt(dueMs.value))];
    }
  }

  /** The headers of a dead letter; `at` is its time in milliseconds. */
  method DlqHeaders<P>(codec: Codec<P>, e: Envelope<P>, reason: string, at: int) returns (h: seq<Header>)
    ensures h == HeadersOf(codec, e, []) + [Header(DLQ_REASON, reason), Header(DLQ_AT, ShowInt(at))]
  {
    h := [Header(TENANT_ID, codec.showId(e.tenantId))] + [Header(EVENT_ID, codec.showId(e.eventId))]
    + [Header(SCHEMA_VERSION, ShowVersion(e.schemaVersion))] + [Header(ATTEMPT, ShowInt(e.meta.attempt))]
    + [Header(CREATED_AT_MS, ShowInt(TimestampMillis(e.createdAt)))];
    assert h == BaseHeaders(codec, e);
    if e.blobRef.Some? {
      h := h + [Header(BLOB_REF, e.blobRef.value)];
    }
    assert h == BaseHeaders(codec, e) + BlobHeaders(e.blobRef);
    ghost var front := h;
    if e.traceContext.Some? {
      var tc := e.traceContext.value;
      if tc.traceparent != "" {
        h := h + [Header(TRACEPARENT, tc.traceparent)];
      }
      if tc.tracestate != "" {
        h := h + [Header(TRACESTATE, tc.tracestate)];
      }
    }
    assert h == front + TraceHeaders(e.traceContext, []);
    h := h + [Header(DLQ_REASON, reason)] + [Header(DLQ_AT, ShowInt(at))];
  }

  // ---------------------------------------------------------------------------------------------
  // Decoding
  // ---------------------------------------------------------------------------------------------

  /** The first header of that key wins. */
  function Get(headers: seq<Header>, key: HeaderKey): Option<string> {
    if headers == [] then None
    else if headers[0].key == key then Some(headers[0].value)
    else Get(headers[1..], key)
  }

  function OrEmpty(s: Option<string>): string {
    if s.Some? then s.value else ""
  }

  function DecodeId<P>(codec: Codec<P>, headers: seq<Header>, key: HeaderKey): Result<Uuid, Error> {
    var text := Get(headers, key);
    if text.None? then Err(MissingHeader(key))
    else if codec.readId(text.value).None? then Err(InvalidHeaderUuid(key))
    else Ok(codec.readId(text.value).value)
  }

  function DecodeVersion(headers: seq<Header>): Result<SchemaVersion, Error> {
    var text := Get(headers, SCHEMA_VERSION);
    if text.None? then Err(MissingHeader(SCHEMA_VERSION))
    else if ReadVersion(text.value).None? then Err(SchemaMismatch(text.value))
    else Ok(ReadVersion(text.value).value)
  }

  function DecodeTrace(headers: seq<Header>): Option<TraceContext> {
    var traceparent := OrEmpty(Get(headers, TRACEPARENT));
    if traceparent == "" then None else Some(TraceContext(traceparent, OrEmpty(Get(headers, TRACESTATE))))
  }

  function DecodeAttempt(headers: seq<Header>): nat {
    var text := Get(headers, ATTEMPT);
    if text.Some? && ReadUnsigned(text.value, U32_MAX).Some? then ReadUnsigned(text.value, U32_MAX).value else 0
  }

  /** `now` in milliseconds; a gate that does not parse is open. */
  predicate IsEligible(headers: seq<Header>, nowMs: nat) {
    var text := Get(headers, PROCESS_AFTER_MS);
    text.Some? && ReadUnsigned(text.value, U64_MAX).Some? ==> ReadUnsigned(text.value, U64_MAX).value <= nowMs
  }

  function DecodeCreatedAt(headers: seq<Header>, now: int): int {
    var text := Get(headers, CREATED_AT_MS);
    var ms := if text.Some? then ReadSigned(text.value) else None;
    if ms.Some? && FromTimestampMillis(ms.value).Some? then FromTimestampMillis(ms.value).value else now
  }

  /** Where and when a message was read. */
  datatype Place = Place(topic: string, partition: int, offset: int, nowMs: nat, now: int)

  function DecodeEnvelope<P>(codec: Codec<P>, payload: Bytes, headers: seq<Header>,
                             at: Place): Result<Envelope<P>, Error> {
    var tenantId := DecodeId(codec, headers, TENANT_ID);
    if tenantId.Err? then Err(tenantId.error)
    else
      var eventId := DecodeId(codec, headers, EVENT_ID);
      if eventId.Err? then Err(eventId.error)
      else
        var version := DecodeVersion(headers);
        if version.Err? then Err(version.error)
        else if !IsEligible(headers, at.nowMs) then Err(NotYetEligible)
        else if codec.decode(payload).None? then Err(Deserialization)
        else Ok(Envelope(
          tenantId.value, eventId.value, version.value, DecodeTrace(headers), Get(headers, BLOB_REF),
          DecodeCreatedAt(headers, at.now), codec.decode(payload).value,
          Meta(at.topic, at.partition, at.offset, DecodeAttempt(headers))))
  }

  // ---------------------------------------------------------------------------------------------
  // Retries
  // ---------------------------------------------------------------------------------------------

  const MAX_ATTEMPTS := 3
  const BACKOFF_SCHEDULE := [30_000, 120_000, 600_000]

  datatype RetryPolicy = RetryPolicy(maxAttempts: nat) {
    predicate IsTerminal(attempt: nat) {
      attempt >= maxAttempts
    }

    /** In milliseconds; the index saturates at both ends of the schedule. */
    function NextDelay(attempt: nat): Option<nat> {
      if attempt >= maxAttempts then None
      else
        var index := if attempt == 0 then 0 else attempt - 1;
        Some(BACKOFF_SCHEDULE[if index < |BACKOFF_SCHEDULE| - 1 then index else |BACKOFF_SCHEDULE| - 1])
    }

    function ProcessAfterMs(attempt: nat, nowMs: nat): Option<nat> {
      if NextDelay(attempt).None? then None else Some((nowMs + NextDelay(attempt).value) % (U64_MAX + 1))
    }
  }

  datatype Message = Message(headers: seq<Header>, payload: Bytes)

  /** The message put on the retry topic, or the refusal. */
  function Retried<P>(codec: Codec<P>, e: Envelope<P>, policy: RetryPolicy, nowMs: nat, injected: seq<Header>)
    : Result<Message, Error>
  {
    var next := e.meta.attempt + 1;
    if policy.IsTerminal(next) then Err(MaxRetriesExceeded)
    else Ok(Message(HeadersOf(codec, e.(meta := e.meta.(attempt := next)), injected) +
                    DueHeaders(policy.ProcessAfterMs(next, nowMs)),
                    codec.encode(e.payload)))
  }

  /** `attempt + 1` must fit a `u32`. */
  method PublishRetry<P>(codec: Codec<P>, envelope: Envelope<P>, policy: RetryPolicy, nowMs: nat, injected: seq<Header>)
    returns (r: Result<Message, Error>)
    requires envelope.meta.attempt < U32_MAX
    ensures r == Retried(codec, envelope, policy, nowMs, injected)
  {
    var nextAttempt := envelope.meta.attempt + 1;
    var e := envelope.(meta := envelope.meta.(attempt := nextAttempt));
    if policy.IsTerminal(nextAttempt) {
      return Err(MaxRetriesExceeded);
    }
    var dueMs := policy.ProcessAfterMs(nextAttempt, nowMs);
    var headers := BuildHeadersWithRetry(codec, e, dueMs, injected);
    return Ok(Message(headers, codec.encode(e.payload)));
  }
}
