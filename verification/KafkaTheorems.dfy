/**
 * Envelopes survive their headers on every path, and a message is retried a bounded number of times.
 */
module KafkaTheorems {
  import opened Prelude
  import opened Decimal
  import opened Kafka

  // ---------------------------------------------------------------------------------------------
  // Looking headers up
  // ---------------------------------------------------------------------------------------------

  lemma {:induction false} GetAppend(a: seq<Header>, b: seq<Header>, key: HeaderKey)
    ensures Get(a + b, key) == if Get(a, key).Some? then Get(a, key) else Get(b, key)
  {
    if a == [] {
      assert a + b == b;
    } else {
      assert (a + b)[1..] == a[1..] + b;
      GetAppend(a[1..], b, key);
    }
  }

  predicate Lacks(headers: seq<Header>, key: HeaderKey) {
    forall i | 0 <= i < |headers| :: headers[i].key != key
  }

  lemma {:induction false} GetNone(headers: seq<Header>, key: HeaderKey)
    requires Lacks(headers, key)
    ensures Get(headers, key) == None
  {
    if headers == [] {
    } else {
      GetNone(headers[1..], key);
    }
  }

  lemma {:induction false} GetFirst(headers: seq<Header>, i: nat)
    requires i < |headers| && Lacks(headers[..i], headers[i].key)
    ensures Get(headers, headers[i].key) == Some(headers[i].value)
  {
    if i > 0 {
      assert headers[..i][0] == headers[0] && headers[..i][1..] == headers[1..][..i - 1];
      GetFirst(headers[1..], i - 1);
    }
  }

  /** What a tracing library may add: none of the envelope's own keys. */
  predicate IsForeign(injected: seq<Header>) {
    forall i | 0 <= i < |injected| :: injected[i].key in {TRACEPARENT, TRACESTATE} || injected[i].key.OTHER?
  }

  /** What the retry and dead-letter paths append. */
  predicate IsTrailer(extra: seq<Header>) {
    forall i | 0 <= i < |extra| :: extra[i].key in {PROCESS_AFTER_MS, DLQ_REASON, DLQ_AT}
  }

  lemma {:induction false} GetBase<P>(codec: Codec<P>, e: Envelope<P>)
    ensures var h := BaseHeaders(codec, e);
      && Get(h, TENANT_ID) == Some(codec.showId(e.tenantId)) && Get(h, EVENT_ID) == Some(codec.showId(e.eventId))
      && Get(h, SCHEMA_VERSION) == Some(ShowVersion(e.schemaVersion))
      && Get(h, ATTEMPT) == Some(ShowInt(e.meta.attempt))
      && Get(h, CREATED_AT_MS) == Some(ShowInt(TimestampMillis(e.createdAt)))
  {
    var h := BaseHeaders(codec, e);
    GetFirst(h, 0);
    GetFirst(h, 1);
    GetFirst(h, 2);
    GetFirst(h, 3);
    GetFirst(h, 4);
  }

  lemma {:induction false} GetFromBase<P>(codec: Codec<P>, e: Envelope<P>, rest: seq<Header>, key: HeaderKey)
    requires Get(BaseHeaders(codec, e), key).Some?
    ensures Get(BaseHeaders(codec, e) + rest, key) == Get(BaseHeaders(codec, e), key)
  {
    GetAppend(BaseHeaders(codec, e), rest, key);
  }

  lemma {:induction false} GetPastBase<P>(codec: Codec<P>, e: Envelope<P>, rest: seq<Header>, key: HeaderKey)
    requires Lacks(BaseHeaders(codec, e), key)
    ensures Get(BaseHeaders(codec, e) + rest, key) == Get(rest, key)
  {
    GetNone(BaseHeaders(codec, e), key);
    GetAppend(BaseHeaders(codec, e), rest, key);
  }

  lemma {:induction false} GetBlob(blobRef: Option<string>, trace: seq<Header>, extra: seq<Header>)
    requires Lacks(trace, BLOB_REF) && IsTrailer(extra)
    ensures Get(BlobHeaders(blobRef) + (trace + extra), BLOB_REF) == blobRef
  {
    GetAppend(BlobHeaders(blobRef), trace + extra, BLOB_REF);
    if blobRef.Some? {
      GetFirst(BlobHeaders(blobRef), 0);
    } else {
      GetNone(BlobHeaders(blobRef), BLOB_REF);
      GetNone(trace + extra, BLOB_REF);
    }
  }

  lemma {:induction false} GetPastBlob(blobRef: Option<string>, rest: seq<Header>, key: HeaderKey)
    requires !key.BLOB_REF?
    ensures Get(BlobHeaders(blobRef) + rest, key) == Get(rest, key)
  {
    GetNone(BlobHeaders(blobRef), key);
    GetAppend(BlobHeaders(blobRef), rest, key);
  }

  lemma {:induction false} GetBeforeTrailer(trace: seq<Header>, extra: seq<Header>, key: HeaderKey)
    requires IsTrailer(extra) && key in {TRACEPARENT, TRACESTATE}
    ensures Get(trace + extra, key) == Get(trace, key)
  {
    GetNone(extra, key);
    GetAppend(trace, extra, key);
  }

  lemma {:induction false} GetInTrailer(trace: seq<Header>, extra: seq<Header>)
    requires Lacks(trace, PROCESS_AFTER_MS)
    ensures Get(trace + extra, PROCESS_AFTER_MS) == Get(extra, PROCESS_AFTER_MS)
  {
    GetNone(trace, PROCESS_AFTER_MS);
    GetAppend(trace, extra, PROCESS_AFTER_MS);
  }

  /** What a reader makes of the trace headers: a context without a parent is dropped. */
  function KeptTrace(trace: Option<TraceContext>, injected: seq<Header>): Option<TraceContext> {
    if trace.None? then DecodeTrace(injected)
    else if trace.value.traceparent == "" then None
    else trace
  }

  lemma {:induction false} TraceDecodes(trace: Option<TraceContext>, injected: seq<Header>)
    ensures DecodeTrace(TraceHeaders(trace, injected)) == KeptTrace(trace, injected)
  {
    if trace.Some? {
      var tc := trace.value;
      var parent := if tc.traceparent != "" then [Header(TRACEPARENT, tc.traceparent)] else [];
      var state := if tc.tracestate != "" then [Header(TRACESTATE, tc.tracestate)] else [];
      GetAppend(parent, state, TRACEPARENT);
      GetAppend(parent, state, TRACESTATE);
      GetNone(state, TRACEPARENT);
      GetNone(parent, TRACESTATE);
    }
  }

  // ---------------------------------------------------------------------------------------------
  // Numbers
  // ---------------------------------------------------------------------------------------------

  lemma {:induction false} UnsignedRoundTrip(n: nat, max: nat)
    requires n <= max
    ensures ReadUnsigned(ShowInt(n), max) == Some(n)
  {
    NumDec(n);
    assert Dec(n)[0] != '+';
  }

  lemma {:induction false} NegativeRoundTrip(n: nat)
    requires 0 < n && I64_MIN <= 0 - n
    ensures ReadSigned("-" + Dec(n)) == Some(0 - n)
  {
    NumDec(n);
    assert ("-" + Dec(n))[1..] == Dec(n);
  }

  lemma {:induction false} SignedRoundTrip(n: int)
    requires I64_MIN <= n <= I64_MAX
    ensures ReadSigned(ShowInt(n)) == Some(n)
  {
    if n < 0 {
      NegativeRoundTrip(-n);
    } else {
      UnsignedRoundTrip(n, I64_MAX);
      assert Dec(n)[0] != '-';
    }
  }

  // ---------------------------------------------------------------------------------------------
  // The round trip
  // ---------------------------------------------------------------------------------------------

  /** The envelope as its reader gets it: to the millisecond, with the reader's own place. */
  function AsRead<P>(e: Envelope<P>, injected: seq<Header>, at: Place): Envelope<P> {
    e.(traceContext := KeptTrace(e.traceContext, injected),
       createdAt := TimestampMillis(e.createdAt) * NANOS_PER_MS,
       meta := Meta(at.topic, at.partition, at.offset, e.meta.attempt))
  }

  predicate CanTravel<P>(e: Envelope<P>) {
    e.meta.attempt <= U32_MAX && IsInstant(e.createdAt)
  }

  lemma {:induction false} Arrange<P>(codec: Codec<P>, e: Envelope<P>, injected: seq<Header>, extra: seq<Header>)
    ensures HeadersOf(codec, e, injected) + extra ==
      BaseHeaders(codec, e) + (BlobHeaders(e.blobRef) + (TraceHeaders(e.traceContext, injected) + extra))
  {
  }

  lemma {:induction false} IdsDecode<P(!new)>(codec: Codec<P>, e: Envelope<P>, rest: seq<Header>)
    requires IsInverse(codec)
    ensures var h := BaseHeaders(codec, e) + rest;
      && DecodeId(codec, h, TENANT_ID) == Ok(e.tenantId) && DecodeId(codec, h, EVENT_ID) == Ok(e.eventId)
      && DecodeVersion(h) == Ok(e.schemaVersion)
  {
    GetBase(codec, e);
    GetFromBase(codec, e, rest, TENANT_ID);
    GetFromBase(codec, e, rest, EVENT_ID);
    GetFromBase(codec, e, rest, SCHEMA_VERSION);
    VersionRoundTrip(e.schemaVersion);
  }

  lemma {:induction false} VersionRoundTrip(v: SchemaVersion)
    ensures ReadVersion(ShowVersion(v)) == Some(v)
  {
  }

  lemma {:induction false} NumbersDecode<P>(codec: Codec<P>, e: Envelope<P>, rest: seq<Header>, now: int)
    requires CanTravel(e)
    ensures var h := BaseHeaders(codec, e) + rest;
      DecodeAttempt(h) == e.meta.attempt && DecodeCreatedAt(h, now) == TimestampMillis(e.createdAt) * NANOS_PER_MS
  {
    GetBase(codec, e);
    GetFromBase(codec, e, rest, ATTEMPT);
    GetFromBase(codec, e, rest, CREATED_AT_MS);
    UnsignedRoundTrip(e.meta.attempt, U32_MAX);
    SignedRoundTrip(TimestampMillis(e.createdAt));
  }

  lemma {:induction false} TraceLacks(trace: Option<TraceContext>, injected: seq<Header>)
    requires IsForeign(injected)
    ensures Lacks(TraceHeaders(trace, injected), BLOB_REF) && Lacks(TraceHeaders(trace, injected), PROCESS_AFTER_MS)
  {
  }

  lemma {:induction false} GetTrace<P>(codec: Codec<P>, e: Envelope<P>, trace: seq<Header>, extra: seq<Header>,
                                       key: HeaderKey)
    requires IsTrailer(extra) && key in {TRACEPARENT, TRACESTATE}
    ensures Get(BaseHeaders(codec, e) + (BlobHeaders(e.blobRef) + (trace + extra)), key) == Get(trace, key)
  {
    GetPastBase(codec, e, BlobHeaders(e.blobRef) + (trace + extra), key);
    GetPastBlob(e.blobRef, trace + extra, key);
    GetBeforeTrailer(trace, extra, key);
  }

  lemma {:induction false} OptionalsDecode<P>(codec: Codec<P>, e: Envelope<P>, injected: seq<Header>,
                                              extra: seq<Header>)
    requires IsForeign(injected) && IsTrailer(extra)
    ensures
      var h := BaseHeaders(codec, e) + (BlobHeaders(e.blobRef) + (TraceHeaders(e.traceContext, injected) + extra));
      && Get(h, BLOB_REF) == e.blobRef && Get(h, PROCESS_AFTER_MS) == Get(extra, PROCESS_AFTER_MS)
      && DecodeTrace(h) == KeptTrace(e.traceContext, injected)
  {
    var trace := TraceHeaders(e.traceContext, injected);
    var rest := BlobHeaders(e.blobRef) + (trace + extra);
    TraceLacks(e.traceContext, injected);
    TraceDecodes(e.traceContext, injected);
    GetPastBase(codec, e, rest, BLOB_REF);
    GetBlob(e.blobRef, trace, extra);
    GetPastBase(codec, e, rest, PROCESS_AFTER_MS);
    GetPastBlob(e.blobRef, trace + extra, PROCESS_AFTER_MS);
    GetInTrailer(trace, extra);
    GetTrace(codec, e, trace, extra, TRACEPARENT);
    GetTrace(codec, e, trace, extra, TRACESTATE);
  }

  /** Headers built for an envelope, whatever follows them, decode to the envelope once it is due. */
  lemma {:induction false} DecodesBack<P(!new)>(codec: Codec<P>, e: Envelope<P>, injected: seq<Header>,
                                         extra: seq<Header>, at: Place)
    requires IsInverse(codec) && CanTravel(e) && IsForeign(injected) && IsTrailer(extra)
    ensures DecodeEnvelope(codec, codec.encode(e.payload), HeadersOf(codec, e, injected) + extra, at) ==
      if IsEligible(extra, at.nowMs) then Ok(AsRead(e, injected, at)) else Err(NotYetEligible)
  {
    var rest := BlobHeaders(e.blobRef) + (TraceHeaders(e.traceContext, injected) + extra);
    Arrange(codec, e, injected, extra);
    IdsDecode(codec, e, rest);
    NumbersDecode(codec, e, rest, at.now);
    OptionalsDecode(codec, e, injected, extra);
  }

  /** On the normal path. */
  lemma {:induction false} NormalPath<P(!new)>(codec: Codec<P>, e: Envelope<P>, injected: seq<Header>, at: Place)
    requires IsInverse(codec) && CanTravel(e) && IsForeign(injected)
    ensures DecodeEnvelope(codec, codec.encode(e.payload), HeadersOf(codec, e, injected), at) ==
      Ok(AsRead(e, injected, at))
  {
    DecodesBack(codec, e, injected, [], at);
    assert HeadersOf(codec, e, injected) + [] == HeadersOf(codec, e, injected);
  }

  /** From the dead-letter queue. */
  lemma {:induction false} DeadLetterPath<P(!new)>(codec: Codec<P>, e: Envelope<P>, reason: string, diedAt: int,
                                            at: Place)
    requires IsInverse(codec) && CanTravel(e)
    ensures
      var h := HeadersOf(codec, e, []) + [Header(DLQ_REASON, reason), Header(DLQ_AT, ShowInt(diedAt))];
      DecodeEnvelope(codec, codec.encode(e.payload), h, at) == Ok(AsRead(e, [], at))
  {
    var extra := [Header(DLQ_REASON, reason), Header(DLQ_AT, ShowInt(diedAt))];
    GetNone(extra, PROCESS_AFTER_MS);
    DecodesBack(codec, e, [], extra, at);
  }

  // ---------------------------------------------------------------------------------------------
  // The retry chain
  // ---------------------------------------------------------------------------------------------

  lemma {:induction false} DueIsRead(policy: RetryPolicy, attempt: nat, publishedMs: nat, nowMs: nat)
    requires !policy.IsTerminal(attempt) && publishedMs + 600_000 <= U64_MAX
    ensures IsEligible(DueHeaders(policy.ProcessAfterMs(attempt, publishedMs)), nowMs) <==>
      publishedMs + policy.NextDelay(attempt).value <= nowMs
  {
    var due := publishedMs + policy.NextDelay(attempt).value;
    assert policy.ProcessAfterMs(attempt, publishedMs) == Some(due);
    UnsignedRoundTrip(due, U64_MAX);
    GetFirst(DueHeaders(Some(due)), 0);
  }

  /**
   * One round: refused when terminal, unreadable before its delay has passed, else the same envelope one
   * attempt on.
   */
  lemma {:induction false} RetryPath<P(!new)>(codec: Codec<P>, e: Envelope<P>, policy: RetryPolicy, publishedMs: nat,
                                              injected: seq<Header>, at: Place)
    requires IsInverse(codec) && IsInstant(e.createdAt) && e.meta.attempt < U32_MAX && IsForeign(injected)
    requires publishedMs + 600_000 <= U64_MAX
    ensures var next := e.meta.attempt + 1;
      var sent := Retried(codec, e, policy, publishedMs, injected);
      if policy.IsTerminal(next) then sent == Err(MaxRetriesExceeded)
      else
        && sent.Ok?
        && DecodeEnvelope(codec, sent.value.payload, sent.value.headers, at) ==
          if publishedMs + policy.NextDelay(next).value <= at.nowMs
          then Ok(AsRead(e.(meta := e.meta.(attempt := next)), injected, at))
          else Err(NotYetEligible)
  {
    var next := e.meta.attempt + 1;
    if !policy.IsTerminal(next) {
      DueIsRead(policy, next, publishedMs, at.nowMs);
      DecodesBack(codec, e.(meta := e.meta.(attempt := next)), injected,
                  DueHeaders(policy.ProcessAfterMs(next, publishedMs)), at);
    }
  }

  datatype Round = Round(publishedMs: nat, injected: seq<Header>, at: Place)

  predicate IsRound(r: Round) {
    r.publishedMs + 600_000 <= U64_MAX && IsForeign(r.injected)
  }

  /** The envelope after rounds of retry and successful decode; an error once a round fails. */
  function Chain<P>(codec: Codec<P>, e: Envelope<P>, policy: RetryPolicy,
                    rounds: seq<Round>): Result<Envelope<P>, Error> {
    if rounds == [] then Ok(e)
    else
      var before := Chain(codec, e, policy, rounds[..|rounds| - 1]);
      if before.Err? then before
      else
        var round := rounds[|rounds| - 1];
        var sent := Retried(codec, before.value, policy, round.publishedMs, round.injected);
        if sent.Err? then Err(sent.error)
        else DecodeEnvelope(codec, sent.value.payload, sent.value.headers, round.at)
  }

  predicate SameMessage<P(==)>(a: Envelope<P>, b: Envelope<P>) {
    && a.tenantId == b.tenantId && a.eventId == b.eventId && a.schemaVersion == b.schemaVersion
    && a.blobRef == b.blobRef && a.payload == b.payload
    && TimestampMillis(a.createdAt) == TimestampMillis(b.createdAt)
    && (a.traceContext.Some? && a.traceContext.value.traceparent != "" ==> b.traceContext == a.traceContext)
  }

  predicate WaitedLongEnough(policy: RetryPolicy, attempt: nat, round: Round) {
    policy.NextDelay(attempt).Some? && round.publishedMs + policy.NextDelay(attempt).value <= round.at.nowMs
  }

  predicate AllWaited(policy: RetryPolicy, rounds: seq<Round>) {
    forall i | 0 <= i < |rounds| :: WaitedLongEnough(policy, i + 1, rounds[i])
  }

  lemma {:induction false} AllWaitedStep(policy: RetryPolicy, rounds: seq<Round>)
    requires rounds != []
    ensures AllWaited(policy, rounds) <==>
      AllWaited(policy, rounds[..|rounds| - 1]) && WaitedLongEnough(policy, |rounds|, rounds[|rounds| - 1])
  {
  }

  lemma {:induction false} SameAfterRound<P>(e: Envelope<P>, b: Envelope<P>, attempt: nat, round: Round)
    requires SameMessage(e, b) && IsInstant(b.createdAt)
    ensures var after := AsRead(b.(meta := b.meta.(attempt := attempt)), round.injected, round.at);
      SameMessage(e, after) && IsInstant(after.createdAt) && after.meta.attempt == attempt
  {
  }

  /**
   * A fresh message survives a chain of rounds exactly when there are fewer rounds than the policy's
   * attempts and each was read no sooner than its delay; then it is the same message, its attempt counted.
   */
  lemma {:induction false} ChainIsBounded<P(!new)>(codec: Codec<P>, e: Envelope<P>, policy: RetryPolicy,
                                            rounds: seq<Round>)
    requires IsInverse(codec) && IsInstant(e.createdAt) && e.meta.attempt == 0 && policy.maxAttempts <= U32_MAX
    requires forall i | 0 <= i < |rounds| :: IsRound(rounds[i])
    ensures Chain(codec, e, policy, rounds).Ok? <==>
      (rounds == [] || |rounds| < policy.maxAttempts) && AllWaited(policy, rounds)
    ensures Chain(codec, e, policy, rounds).Ok? ==>
      var last := Chain(codec, e, policy, rounds).value;
      last.meta.attempt == |rounds| && IsInstant(last.createdAt) && SameMessage(e, last)
    decreases |rounds|
  {
    if rounds == [] {
    } else {
      var before, round := rounds[..|rounds| - 1], rounds[|rounds| - 1];
      ChainIsBounded(codec, e, policy, before);
      AllWaitedStep(policy, rounds);
      if Chain(codec, e, policy, before).Ok? {
        var b := Chain(codec, e, policy, before).value;
        RetryPath(codec, b, policy, round.publishedMs, round.injected, round.at);
        SameAfterRound(e, b, |rounds|, round);
      }
    }
  }

  /** Delays never shrink from one attempt to the next. */
  lemma {:induction false} DelaysGrow(policy: RetryPolicy, a: nat, b: nat)
    requires a <= b < policy.maxAttempts
    ensures policy.NextDelay(a).value <= policy.NextDelay(b).value
  {
  }

  /** Under the default policy a message goes round at most twice, and never waits the schedule's ten minutes. */
  lemma {:induction false} DefaultPolicy(attempt: nat)
    ensures var policy := RetryPolicy(MAX_ATTEMPTS);
      policy.NextDelay(attempt).Some? <==> attempt <= 2
    ensures var delay := RetryPolicy(MAX_ATTEMPTS).NextDelay(attempt);
      delay.Some? ==> delay.value in {30_000, 120_000}
  {
  }
}
