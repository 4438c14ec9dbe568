/**
 * What a reader makes of arbitrary headers (rb-kafka, producer.rs): which envelopes it refuses and with what
 * error, and what the others say; and how long each retry waits (retry.rs).
 */
module KafkaRefusals {
  import opened Prelude
  import opened Decimal
  import opened Kafka
  import opened KafkaTheorems
  import Calendar

  /** The first header of that key has that value. */
  ghost predicate IsFirst(headers: seq<Header>, key: HeaderKey, value: string) {
    exists i :: 0 <= i < |headers| && headers[i] == Header(key, value) && Lacks(headers[..i], key)
  }

  lemma {:induction false} GetIsNone(headers: seq<Header>, key: HeaderKey)
    ensures Get(headers, key).None? <==> Lacks(headers, key)
  {
    if headers == [] {
    } else {
      GetIsNone(headers[1..], key);
      if Lacks(headers[1..], key) && headers[0].key != key {
        assert forall i | 0 < i < |headers| :: headers[i] == headers[1..][i - 1];
      }
    }
  }

  lemma {:induction false} FirstLater(headers: seq<Header>, key: HeaderKey, value: string, i: nat)
    requires headers != [] && headers[0].key != key && i < |headers[1..]|
    requires headers[1..][i] == Header(key, value) && Lacks(headers[1..][..i], key)
    ensures headers[i + 1] == Header(key, value) && Lacks(headers[..i + 1], key)
  {
    forall j | 0 <= j < i + 1 ensures headers[j].key != key {
      assert j > 0 ==> headers[j] == headers[1..][..i][j - 1];
    }
  }

  lemma {:induction false} GetSome(headers: seq<Header>, key: HeaderKey)
    requires Get(headers, key).Some?
    ensures IsFirst(headers, key, Get(headers, key).value)
  {
    if headers[0].key == key {
      assert headers[0] == Header(key, headers[0].value) && headers[..0] == [];
    } else {
      var value := Get(headers, key).value;
      GetSome(headers[1..], key);
      var i :| 0 <= i < |headers[1..]| && headers[1..][i] == Header(key, value) && Lacks(headers[1..][..i], key);
      FirstLater(headers, key, value, i);
    }
  }

  lemma {:induction false} GetIsFirst(headers: seq<Header>, key: HeaderKey, value: string)
    ensures Get(headers, key) == Some(value) <==> IsFirst(headers, key, value)
  {
    if Get(headers, key).Some? {
      GetSome(headers, key);
    }
    if IsFirst(headers, key, value) {
      var i :| 0 <= i < |headers| && headers[i] == Header(key, value) && Lacks(headers[..i], key);
      GetFirst(headers, i);
    }
  }

  // The order in which headers are written

  function KeysOf(headers: seq<Header>): (keys: seq<HeaderKey>)
    ensures |keys| == |headers| && forall i | 0 <= i < |headers| :: keys[i] == headers[i].key
  {
    seq(|headers|, i requires 0 <= i < |headers| => headers[i].key)
  }

  /** Five headers always, the blob reference when there is one, then the trace. */
  lemma {:induction false} KeyOrder<P>(codec: Codec<P>, e: Envelope<P>, injected: seq<Header>)
    ensures var keys := KeysOf(HeadersOf(codec, e, injected));
      && |keys| >= 5 && keys[..5] == [TENANT_ID, EVENT_ID, SCHEMA_VERSION, ATTEMPT, CREATED_AT_MS]
      && keys[5..] == (if e.blobRef.Some? then [BLOB_REF] else []) +
           if e.traceContext.None? then KeysOf(injected)
           else (if e.traceContext.value.traceparent != "" then [TRACEPARENT] else []) +
                if e.traceContext.value.tracestate != "" then [TRACESTATE] else []
  {
  }

  // Numbers as text

  lemma {:induction false} DigitsArePadded(s: string)
    requires s != "" && AllDigits(s)
    ensures s == Padded(Num(s), |s|)
  {
    if |s| == 1 {
      assert s[..0] == "" && Zeros(0) == "";
      assert Dec(Num(s)) == [DigitChar(Num(s))] == s;
    } else {
      var front, last := s[..|s| - 1], s[|s| - 1];
      DigitsArePadded(front);
      PaddedMore(Num(front), |front|, last);
      assert s == front + [last];
    }
  }

  lemma {:induction false} PaddedMore(n: nat, width: nat, last: char)
    requires width > 0 && IsDigit(last) && |Dec(n)| <= width
    ensures Padded(n, width) + [last] == Padded(10 * n + Value(last), width + 1)
  {
    var more := 10 * n + Value(last);
    assert more / 10 == n && more % 10 == Value(last) && DigitChar(Value(last)) == last;
    if n == 0 {
      assert Dec(more) == [last] && Dec(0) == "0";
      assert Zeros(width) == Zeros(width - 1) + "0";
    } else {
      assert Dec(more) == Dec(n) + [last];
    }
  }

  /** The digits of `n`, with any zeros in front. */
  ghost predicate IsNumeral(s: string, n: nat) {
    exists width: nat :: width > 0 && s == Padded(n, width)
  }

  lemma {:induction false} NumeralIs(s: string, n: nat)
    ensures IsNumeral(s, n) <==> s != "" && AllDigits(s) && Num(s) == n
  {
    if s != "" && AllDigits(s) {
      DigitsArePadded(s);
    }
    if width: nat :| width > 0 && s == Padded(n, width) {
      NumPadded(n, width);
    }
  }

  /** An unsigned number is read exactly from its digits, with or without a plus sign. */
  lemma {:induction false} UnsignedExactly(s: string, max: nat, n: nat)
    ensures ReadUnsigned(s, max) == Some(n) <==>
      n <= max && (IsNumeral(s, n) || (s != "" && s[0] == '+' && IsNumeral(s[1..], n)))
  {
    NumeralIs(s, n);
    if s != "" {
      NumeralIs(s[1..], n);
    }
  }

  /** A signed one from its digits behind a minus sign, or else like an unsigned one. */
  lemma {:induction false} SignedExactly(s: string, n: int)
    ensures ReadSigned(s) == Some(n) <==>
      if s != "" && s[0] == '-' then -0x8000_0000_0000_0000 <= n <= 0 && IsNumeral(s[1..], -n)
      else 0 <= n <= 0x7fff_ffff_ffff_ffff && (IsNumeral(s, n) || (s != "" && s[0] == '+' && IsNumeral(s[1..], n)))
  {
    if s != "" && s[0] == '-' {
      if n <= 0 {
        NumeralIs(s[1..], -n);
      }
    } else if n >= 0 {
      UnsignedExactly(s, I64_MAX, n);
    }
  }

  // What is refused

  ghost predicate HasId<P>(codec: Codec<P>, headers: seq<Header>, key: HeaderKey) {
    exists text :: IsFirst(headers, key, text) && codec.readId(text).Some?
  }

  /** A due time that can be read, and has not come. */
  ghost predicate IsEarly(headers: seq<Header>, nowMs: nat) {
    exists text, due ::
      IsFirst(headers, PROCESS_AFTER_MS, text) && ReadUnsigned(text, 0xffff_ffff_ffff_ffff) == Some(due) && nowMs < due
  }

  lemma {:induction false} IdIs<P>(codec: Codec<P>, headers: seq<Header>, key: HeaderKey)
    ensures var r := DecodeId(codec, headers, key);
      && (r == Err(MissingHeader(key)) <==> Lacks(headers, key))
      && (r == Err(InvalidHeaderUuid(key)) <==> !Lacks(headers, key) && !HasId(codec, headers, key))
      && (r.Ok? <==> HasId(codec, headers, key))
      && (r.Ok? ==> forall text | IsFirst(headers, key, text) :: codec.readId(text) == Some(r.value))
  {
    GetIsNone(headers, key);
    forall text ensures IsFirst(headers, key, text) <==> Get(headers, key) == Some(text) {
      GetIsFirst(headers, key, text);
    }
    if Get(headers, key).Some? {
      assert IsFirst(headers, key, Get(headers, key).value);
    }
  }

  lemma {:induction false} VersionIs(headers: seq<Header>)
    ensures var r := DecodeVersion(headers);
      && (r == Err(MissingHeader(SCHEMA_VERSION)) <==> Lacks(headers, SCHEMA_VERSION))
      && (r.Ok? <==> IsFirst(headers, SCHEMA_VERSION, "rust_brain.v1"))
      && forall text :: r == Err(SchemaMismatch(text)) <==>
           IsFirst(headers, SCHEMA_VERSION, text) && text != "rust_brain.v1"
  {
    GetIsNone(headers, SCHEMA_VERSION);
    forall text ensures IsFirst(headers, SCHEMA_VERSION, text) <==> Get(headers, SCHEMA_VERSION) == Some(text) {
      GetIsFirst(headers, SCHEMA_VERSION, text);
    }
  }

  lemma {:induction false} EarlyIs(headers: seq<Header>, nowMs: nat)
    ensures IsEarly(headers, nowMs) <==> !IsEligible(headers, nowMs)
  {
    forall text ensures IsFirst(headers, PROCESS_AFTER_MS, text) <==> Get(headers, PROCESS_AFTER_MS) == Some(text) {
      GetIsFirst(headers, PROCESS_AFTER_MS, text);
    }
    if !IsEligible(headers, nowMs) {
      var text := Get(headers, PROCESS_AFTER_MS).value;
      assert IsFirst(headers, PROCESS_AFTER_MS, text);
    }
  }

  /**
   * Every message: the first check that fails gives the error, in the order tenant, event, schema version,
   * due time, payload; with none of them it is an envelope.
   */
  lemma {:induction false} RefusedExactly<P>(codec: Codec<P>, payload: Bytes, headers: seq<Header>, at: Place)
    ensures var r := DecodeEnvelope(codec, payload, headers, at);
      var tenant := HasId(codec, headers, TENANT_ID);
      var ids := tenant && HasId(codec, headers, EVENT_ID);
      var ready := ids && IsFirst(headers, SCHEMA_VERSION, "rust_brain.v1");
      var early := IsEarly(headers, at.nowMs);
      && (r == Err(MissingHeader(TENANT_ID)) <==> Lacks(headers, TENANT_ID))
      && (r == Err(InvalidHeaderUuid(TENANT_ID)) <==> !Lacks(headers, TENANT_ID) && !tenant)
      && (r == Err(MissingHeader(EVENT_ID)) <==> tenant && Lacks(headers, EVENT_ID))
      && (r == Err(InvalidHeaderUuid(EVENT_ID)) <==> tenant && !Lacks(headers, EVENT_ID) && !ids)
      && (r == Err(MissingHeader(SCHEMA_VERSION)) <==> ids && Lacks(headers, SCHEMA_VERSION))
      && (forall text :: r == Err(SchemaMismatch(text)) <==>
           ids && IsFirst(headers, SCHEMA_VERSION, text) && text != "rust_brain.v1")
      && (r == Err(NotYetEligible) <==> ready && early)
      && (r == Err(Deserialization) <==> ready && !early && codec.decode(payload).None?)
      && (r.Ok? <==> ready && !early && codec.decode(payload).Some?)
  {
    IdIs(codec, headers, TENANT_ID);
    IdIs(codec, headers, EVENT_ID);
    VersionIs(headers);
    EarlyIs(headers, at.nowMs);
  }

  /** What a readable envelope says; only the identifiers, the version and the due time can refuse it. */
  lemma {:induction false} ReadsHeaders<P>(codec: Codec<P>, payload: Bytes, headers: seq<Header>, at: Place,
                                           text: string)
    requires DecodeEnvelope(codec, payload, headers, at).Ok?
    ensures var e := DecodeEnvelope(codec, payload, headers, at).value;
      && (IsFirst(headers, TENANT_ID, text) ==> codec.readId(text) == Some(e.tenantId))
      && (IsFirst(headers, EVENT_ID, text) ==> codec.readId(text) == Some(e.eventId))
      && codec.decode(payload) == Some(e.payload)
      && (e.blobRef == Some(text) <==> IsFirst(headers, BLOB_REF, text))
      && (e.traceContext.Some? && e.traceContext.value.traceparent == text <==>
           IsFirst(headers, TRACEPARENT, text) && text != "")
      && (e.traceContext.Some? && IsFirst(headers, TRACESTATE, text) ==> e.traceContext.value.tracestate == text)
      && (e.traceContext.Some? && Lacks(headers, TRACESTATE) ==> e.traceContext.value.tracestate == "")
      && e.meta.topic == at.topic && e.meta.partition == at.partition && e.meta.offset == at.offset
  {
    IdIs(codec, headers, TENANT_ID);
    IdIs(codec, headers, EVENT_ID);
    GetIsFirst(headers, BLOB_REF, text);
    GetIsFirst(headers, TRACEPARENT, text);
    GetIsFirst(headers, TRACESTATE, text);
    GetIsNone(headers, TRACESTATE);
  }

  /** A count or a time that is missing or cannot be read is zero, or now; a time outside chrono's years is now. */
  lemma {:induction false} ReadsNumbers<P>(codec: Codec<P>, payload: Bytes, headers: seq<Header>, at: Place,
                                           text: string)
    requires DecodeEnvelope(codec, payload, headers, at).Ok?
    ensures var e := DecodeEnvelope(codec, payload, headers, at).value;
      && (Lacks(headers, ATTEMPT) ==> e.meta.attempt == 0)
      && (IsFirst(headers, ATTEMPT, text) ==>
           match ReadUnsigned(text, 0xffff_ffff) case Some(n) => e.meta.attempt == n case None => e.meta.attempt == 0)
      && (Lacks(headers, CREATED_AT_MS) ==> e.createdAt == at.now)
      && (IsFirst(headers, CREATED_AT_MS, text) ==>
           match ReadSigned(text)
           case Some(ms) => e.createdAt == if FromTimestampMillis(ms).Some? then ms * 1_000_000 else at.now
           case None => e.createdAt == at.now)
  {
    GetIsNone(headers, ATTEMPT);
    GetIsFirst(headers, ATTEMPT, text);
    GetIsNone(headers, CREATED_AT_MS);
    GetIsFirst(headers, CREATED_AT_MS, text);
  }

  lemma {:induction false} FirstDays(first: int, last: int)
    requires first == -262_143 && last == 262_142
    ensures Calendar.YearStart(first) == -96_465_292 && Calendar.YearStart(last + 1) == 95_026_237
  {
    Calendar.YearStartIs(first);
    Calendar.YearStartIs(last + 1);
  }

  /** The instants that are accepted are the milliseconds of the years `first` to `last`. */
  lemma {:induction false} ChronoYears(first: int, last: int, ms: int)
    requires first == -262_143 && last == 262_142
    ensures FromTimestampMillis(ms).Some? <==>
      Calendar.YearStart(first) * 86_400_000 <= ms < Calendar.YearStart(last + 1) * 86_400_000
  {
    FirstDays(first, last);
  }

  // Delays

  /** Half a minute, two minutes, then ten; none once the attempts are used up. */
  lemma {:induction false} DelayIs(policy: RetryPolicy, attempt: nat)
    ensures policy.NextDelay(attempt) ==
      if attempt >= policy.maxAttempts then None
      else if attempt <= 1 then Some(30 * 1000)
      else if attempt == 2 then Some(2 * 60 * 1000)
      else Some(10 * 60 * 1000)
    ensures policy.IsTerminal(attempt) <==> policy.NextDelay(attempt).None?
  {
  }
}
