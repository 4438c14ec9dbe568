/**
 * The per-tenant replay buffer (rb-sse, broadcaster.rs): bounded, and expiring from the front.
 *
 * Times are milliseconds. `session` is what the event's JSON payload gives as its session id.
 */
module Ring {
  import opened Prelude

  datatype Envelope = Envelope(id: string, createdAt: int, session: Option<string>)

  function Evicted(buf: seq<Envelope>, cutoff: int): (r: seq<Envelope>)
    ensures |r| <= |buf|
    ensures r != [] ==> r[0].createdAt >= cutoff
  {
    if buf == [] || buf[0].createdAt >= cutoff then buf else Evicted(buf[1..], cutoff)
  }

  function Pushed(cap: nat, buf: seq<Envelope>, env: Envelope): seq<Envelope> {
    (if |buf| >= cap && buf != [] then buf[1..] else buf) + [env]
  }

  function PositionOf(buf: seq<Envelope>, id: string): (p: Option<nat>)
    ensures p.Some? ==> p.value < |buf| && buf[p.value].id == id && forall i | 0 <= i < p.value :: buf[i].id != id
    ensures p.None? ==> forall i | 0 <= i < |buf| :: buf[i].id != id
  {
    if buf == [] then None
    else if buf[0].id == id then Some(0)
    else var p := PositionOf(buf[1..], id); if p.None? then None else Some(p.value + 1)
  }

  function ReplayIn(buf: seq<Envelope>, id: string): Option<seq<Envelope>> {
    var p := PositionOf(buf, id);
    if p.None? then None else Some(buf[p.value + 1..])
  }

  lemma {:induction false} ReplayIs(buf: seq<Envelope>, id: string, i: nat)
    requires i <= |buf| && (forall k | 0 <= k < i :: buf[k].id != id) && (i < |buf| ==> buf[i].id == id)
    ensures ReplayIn(buf, id) == if i == |buf| then None else Some(buf[i + 1..])
  {
  }

  class RingBuffer {
    const cap: nat
    const ttl: nat
    var buf: seq<Envelope>

    constructor (cap: nat, ttl: nat)
      ensures this.cap == cap && this.ttl == ttl && buf == []
    {
      this.cap := cap;
      this.ttl := ttl;
      buf := [];
    }

    method EvictExpired(now: int)
      modifies this
      ensures buf == Evicted(old(buf), now - ttl)
    {
      var cutoff := now - ttl;
      while buf != [] && buf[0].createdAt < cutoff
        invariant Evicted(buf, cutoff) == Evicted(old(buf), cutoff)
        decreases |buf|
      {
        buf := buf[1..];
      }
    }

    method Push(env: Envelope, now: int)
      modifies this
      ensures buf == Pushed(cap, Evicted(old(buf), now - ttl), env)
    {
      EvictExpired(now);
      if |buf| >= cap && buf != [] {
        buf := buf[1..];
      }
      buf := buf + [env];
    }

    method ReplayAfter(lastId: string, now: int) returns (events: Option<seq<Envelope>>)
      modifies this
      ensures buf == Evicted(old(buf), now - ttl)
      ensures events == ReplayIn(buf, lastId)
    {
      EvictExpired(now);
      var i := 0;
      while i < |buf| && buf[i].id != lastId
        invariant 0 <= i <= |buf|
        invariant forall k | 0 <= k < i :: buf[k].id != lastId
      {
        i := i + 1;
      }
      ReplayIs(buf, lastId, i);
      return if i == |buf| then None else Some(buf[i + 1..]);
    }
  }

  // ---------------------------------------------------------------------------------------------
  // Any run of pushes and replays, at any clock readings
  // ---------------------------------------------------------------------------------------------

  datatype Op = DoPush(env: Envelope, now: int) | DoReplay(lastId: string, now: int)

  function BufStep(cap: nat, ttl: nat, buf: seq<Envelope>, op: Op): seq<Envelope> {
    match op
    case DoPush(env, now) => Pushed(cap, Evicted(buf, now - ttl), env)
    case DoReplay(_, now) => Evicted(buf, now - ttl)
  }

  function LogStep(log: seq<Envelope>, op: Op): seq<Envelope> {
    match op case DoPush(env, _) => log + [env] case DoReplay(_, _) => log
  }

  function BufAfter(cap: nat, ttl: nat, ops: seq<Op>): seq<Envelope> {
    if ops == [] then [] else BufStep(cap, ttl, BufAfter(cap, ttl, ops[..|ops| - 1]), ops[|ops| - 1])
  }

  /** Everything ever pushed, in order. */
  function LogOf(ops: seq<Op>): seq<Envelope> {
    if ops == [] then [] else LogStep(LogOf(ops[..|ops| - 1]), ops[|ops| - 1])
  }

  predicate IsSuffix(a: seq<Envelope>, b: seq<Envelope>) {
    |a| <= |b| && a == b[|b| - |a|..]
  }

  lemma {:induction false} EvictedIsSuffix(buf: seq<Envelope>, log: seq<Envelope>, cutoff: int)
    requires IsSuffix(buf, log)
    ensures IsSuffix(Evicted(buf, cutoff), log)
  {
    if buf != [] && buf[0].createdAt < cutoff {
      assert buf[1..] == log[|log| - |buf| + 1..];
      EvictedIsSuffix(buf[1..], log, cutoff);
    }
  }

  lemma {:induction false} PushedIsSuffix(cap: nat, buf: seq<Envelope>, log: seq<Envelope>, env: Envelope)
    requires IsSuffix(buf, log)
    ensures IsSuffix(Pushed(cap, buf, env), log + [env])
  {
  }

  lemma {:induction false} PushStepIsSuffix(cap: nat, buf: seq<Envelope>, log: seq<Envelope>, env: Envelope,
                                            cutoff: int)
    requires IsSuffix(buf, log)
    ensures IsSuffix(Pushed(cap, Evicted(buf, cutoff), env), log + [env])
  {
    EvictedIsSuffix(buf, log, cutoff);
    PushedIsSuffix(cap, Evicted(buf, cutoff), log, env);
  }

  lemma {:induction false} StepIsSuffix(cap: nat, ttl: nat, buf: seq<Envelope>, log: seq<Envelope>, op: Op)
    requires IsSuffix(buf, log)
    ensures IsSuffix(BufStep(cap, ttl, buf, op), LogStep(log, op))
  {
    match op
    case DoPush(env, now) =>
      PushStepIsSuffix(cap, buf, log, env, now - ttl);
    case DoReplay(_, now) =>
      EvictedIsSuffix(buf, log, now - ttl);
  }

  function Bound(cap: nat): nat {
    if cap == 0 then 1 else cap
  }

  lemma {:induction false} StepSize(cap: nat, ttl: nat, buf: seq<Envelope>, op: Op)
    requires |buf| <= Bound(cap)
    ensures |BufStep(cap, ttl, buf, op)| <= Bound(cap)
  {
  }

  /** The buffer holds the most recent events, at most `cap` of them, or one if `cap` is zero. */
  lemma {:induction false} BufferIsRecentLog(cap: nat, ttl: nat, ops: seq<Op>)
    ensures IsSuffix(BufAfter(cap, ttl, ops), LogOf(ops))
    ensures |BufAfter(cap, ttl, ops)| <= Bound(cap)
    decreases |ops|
  {
    if ops == [] {
    } else {
      var prefix := ops[..|ops| - 1];
      BufferIsRecentLog(cap, ttl, prefix);
      StepIsSuffix(cap, ttl, BufAfter(cap, ttl, prefix), LogOf(prefix), ops[|ops| - 1]);
      StepSize(cap, ttl, BufAfter(cap, ttl, prefix), ops[|ops| - 1]);
    }
  }

  /** Eviction drops the longest expired front, and nothing else. */
  lemma {:induction false} EvictedExactly(buf: seq<Envelope>, cutoff: int)
    ensures var r := Evicted(buf, cutoff);
      var n := |buf| - |r|;
      && r == buf[n..] && (forall i | 0 <= i < n :: buf[i].createdAt < cutoff)
      && (r != [] ==> r[0].createdAt >= cutoff)
  {
    if buf != [] && buf[0].createdAt < cutoff {
      EvictedExactly(buf[1..], cutoff);
    }
  }

  predicate InTimeOrder(log: seq<Envelope>) {
    forall i, j | 0 <= i < j < |log| :: log[i].createdAt <= log[j].createdAt
  }

  lemma {:induction false} OrderedIsFresh(buf: seq<Envelope>, log: seq<Envelope>, cutoff: int)
    requires IsSuffix(buf, log) && InTimeOrder(log)
    ensures forall e | e in Evicted(buf, cutoff) :: e.createdAt >= cutoff
  {
    EvictedExactly(buf, cutoff);
  }

  lemma {:induction false} OrderedBefore(log: seq<Envelope>, op: Op)
    requires InTimeOrder(LogStep(log, op))
    ensures InTimeOrder(log)
  {
    assert LogStep(log, op)[..|log|] == log;
    assert forall i | 0 <= i < |log| :: LogStep(log, op)[i] == log[i];
  }

  lemma {:induction false} StepIsFresh(cap: nat, ttl: nat, buf: seq<Envelope>, op: Op, i: nat)
    requires forall e | e in Evicted(buf, op.now - ttl) :: e.createdAt >= op.now - ttl
    requires i < |BufStep(cap, ttl, buf, op)|
    ensures var r := BufStep(cap, ttl, buf, op);
      r[i].createdAt >= op.now - ttl || (op.DoPush? && i == |r| - 1 && r[i] == op.env)
  {
  }

  /**
   * With events in the order of their times, no operation leaves anything expired, the event just pushed
   * aside.
   */
  lemma {:induction false} NothingExpired(cap: nat, ttl: nat, ops: seq<Op>, i: nat)
    requires ops != [] && InTimeOrder(LogOf(ops)) && i < |BufAfter(cap, ttl, ops)|
    ensures var op, buf := ops[|ops| - 1], BufAfter(cap, ttl, ops);
      buf[i].createdAt >= op.now - ttl || (op.DoPush? && i == |buf| - 1 && buf[i] == op.env)
  {
    var before, op := ops[..|ops| - 1], ops[|ops| - 1];
    BufferIsRecentLog(cap, ttl, before);
    OrderedBefore(LogOf(before), op);
    OrderedIsFresh(BufAfter(cap, ttl, before), LogOf(before), op.now - ttl);
    StepIsFresh(cap, ttl, BufAfter(cap, ttl, before), op, i);
  }

  predicate DistinctIds(log: seq<Envelope>) {
    forall i, j | 0 <= i < j < |log| :: log[i].id != log[j].id
  }

  lemma {:induction false} ReplayFromId(buf: seq<Envelope>, log: seq<Envelope>, id: string, p: nat)
    requires IsSuffix(buf, log) && DistinctIds(log) && p < |log| && log[p].id == id && ReplayIn(buf, id).Some?
    ensures ReplayIn(buf, id) == Some(log[p + 1..])
  {
  }

  /** A replay answer is exactly everything pushed after that id, whatever was evicted meanwhile. */
  lemma {:induction false} ReplayIsEverythingAfter(cap: nat, ttl: nat, ops: seq<Op>, id: string, now: int, p: nat)
    requires DistinctIds(LogOf(ops)) && p < |LogOf(ops)| && LogOf(ops)[p].id == id
    ensures var answer := ReplayIn(BufStep(cap, ttl, BufAfter(cap, ttl, ops), DoReplay(id, now)), id);
      answer.Some? ==> answer.value == LogOf(ops)[p + 1..]
  {
    var buf := BufAfter(cap, ttl, ops);
    BufferIsRecentLog(cap, ttl, ops);
    StepIsSuffix(cap, ttl, buf, LogOf(ops), DoReplay(id, now));
    if ReplayIn(BufStep(cap, ttl, buf, DoReplay(id, now)), id).Some? {
      ReplayFromId(BufStep(cap, ttl, buf, DoReplay(id, now)), LogOf(ops), id, p);
    }
  }

  // What is sure to be found

  /** None of the readings of the clock in the run was late enough for an event of that age. */
  predicate NeverExpired(createdAt: int, ttl: nat, ops: seq<Op>) {
    forall k | 0 <= k < |ops| :: ops[k].now - ttl <= createdAt
  }

  lemma {:induction false} EvictedKeeps(buf: seq<Envelope>, cutoff: int, n: nat)
    requires n <= |buf| && forall i | |buf| - n <= i < |buf| :: buf[i].createdAt >= cutoff
    ensures |Evicted(buf, cutoff)| >= n
    decreases |buf|
  {
    if buf != [] && buf[0].createdAt < cutoff {
      EvictedKeeps(buf[1..], cutoff, n);
    }
  }

  lemma {:induction false} StepKeeps(cap: nat, ttl: nat, buf: seq<Envelope>, op: Op, n: nat)
    requires n <= |buf| && TailAbove(buf, n, op.now - ttl)
    ensures |BufStep(cap, ttl, buf, op)| >= if op.DoPush? && n < cap then n + 1 else n
  {
    EvictedKeeps(buf, op.now - ttl, n);
  }

  lemma {:induction false} PrefixNeverExpired(createdAt: int, ttl: nat, ops: seq<Op>)
    requires ops != [] && NeverExpired(createdAt, ttl, ops)
    ensures NeverExpired(createdAt, ttl, ops[..|ops| - 1]) && createdAt >= ops[|ops| - 1].now - ttl
  {
  }

  /** None of the last `n` events had expired at any reading of the clock. */
  predicate TailFresh(log: seq<Envelope>, n: nat, ttl: nat, ops: seq<Op>)
    requires n <= |log|
  {
    forall i | |log| - n <= i < |log| :: NeverExpired(log[i].createdAt, ttl, ops)
  }

  predicate TailAbove(log: seq<Envelope>, n: nat, cutoff: int)
    requires n <= |log|
  {
    forall i | |log| - n <= i < |log| :: log[i].createdAt >= cutoff
  }

  lemma {:induction false} TailFreshBefore(ops: seq<Op>, log: seq<Envelope>, n: nat, ttl: nat)
    requires ops != [] && n <= |LogStep(log, ops[|ops| - 1])|
    requires TailFresh(LogStep(log, ops[|ops| - 1]), n, ttl, ops)
    ensures var m := if ops[|ops| - 1].DoPush? && n > 0 then n - 1 else n;
      ops[|ops| - 1].DoReplay? || n > 0 ==>
        TailFresh(log, m, ttl, ops[..|ops| - 1]) && TailAbove(log, m, ops[|ops| - 1].now - ttl)
  {
    var op := ops[|ops| - 1];
    var m := if op.DoPush? && n > 0 then n - 1 else n;
    forall i | |log| - m <= i < |log| && (op.DoReplay? || n > 0)
      ensures NeverExpired(log[i].createdAt, ttl, ops[..|ops| - 1]) && log[i].createdAt >= op.now - ttl
    {
      assert LogStep(log, op)[i] == log[i];
      PrefixNeverExpired(log[i].createdAt, ttl, ops);
    }
  }

  lemma {:induction false} SuffixTail(buf: seq<Envelope>, log: seq<Envelope>, n: nat, cutoff: int)
    requires IsSuffix(buf, log) && n <= |buf| && TailAbove(log, n, cutoff)
    ensures TailAbove(buf, n, cutoff)
  {
  }

  /** The last `n <= cap` events, if none of them had expired at any reading, are all in the buffer. */
  lemma {:induction false} RecentIsRetained(cap: nat, ttl: nat, ops: seq<Op>, n: nat)
    requires n <= cap && n <= |LogOf(ops)| && TailFresh(LogOf(ops), n, ttl, ops)
    ensures |BufAfter(cap, ttl, ops)| >= n
    decreases |ops|
  {
    if n > 0 {
      var prefix, op := ops[..|ops| - 1], ops[|ops| - 1];
      var m := if op.DoPush? then n - 1 else n;
      TailFreshBefore(ops, LogOf(prefix), n, ttl);
      RecentIsRetained(cap, ttl, prefix, m);
      BufferIsRecentLog(cap, ttl, prefix);
      SuffixTail(BufAfter(cap, ttl, prefix), LogOf(prefix), m, op.now - ttl);
      StepKeeps(cap, ttl, BufAfter(cap, ttl, prefix), op, m);
    }
  }
}
