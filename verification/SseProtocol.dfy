/**
 * One tenant's publishers and subscribers (rb-sse, broadcaster.rs) as interleaved steps. A publish
 * is a push into the replay buffer and, later, a send on the channel; a subscription takes its place
 * on the channel and, later, reads the buffer. Events are named by their index in the push log.
 */
module SseProtocol {
  import opened Prelude
  import opened Ring

  /** `channel` is how many events a receiver may fall behind before it lags. */
  datatype Config = Config(cap: nat, ttl: nat, channel: nat)

  /**
   * `start`: place on the channel; `joinedAt`, `readAt`: length of the log then; `found`: the last id
   * was in the buffer; `pos`: next channel slot to receive.
   */
  datatype Client =
    | Joining(lastId: Option<string>, start: nat, joinedAt: nat)
    | Reading(lastId: Option<string>, start: nat, joinedAt: nat, found: bool, replay: seq<Envelope>, readAt: nat,
              pos: nat, lagged: Option<nat>)

  /** `log`: every event pushed; `sent`: what went on the channel; `inFlight`: pushed, not yet sent. */
  datatype Tenant = Tenant(log: seq<Envelope>, ring: seq<Envelope>, sent: seq<nat>, inFlight: map<nat, nat>,
                           clients: map<nat, Client>)

  datatype Step =
    | PushStep(publisher: nat, env: Envelope, now: int)
    | SendStep(publisher: nat)
    | Subscribe(client: nat, lastId: Option<string>)
    | ReadRing(client: nat, now: int)
    | Receive(client: nat)
    | Lag(client: nat)
    | Leave(client: nat)

  const EMPTY := Tenant([], [], [], map[], map[])

  predicate IsReading(s: Tenant, c: nat) {
    c in s.clients && s.clients[c].Reading?
  }

  predicate Enabled(cfg: Config, s: Tenant, step: Step) {
    match step
    case PushStep(p, _, _) => p !in s.inFlight
    case SendStep(p) => p in s.inFlight
    case Subscribe(c, _) => c !in s.clients
    case ReadRing(c, _) => c in s.clients && s.clients[c].Joining?
    case Receive(c) =>
      IsReading(s, c) && s.clients[c].lagged.None? && s.clients[c].pos < |s.sent| <= s.clients[c].pos + cfg.channel
    case Lag(c) => IsReading(s, c) && s.clients[c].lagged.None? && |s.sent| > s.clients[c].pos + cfg.channel
    case Leave(c) => c in s.clients
  }

  function RingAtRead(cfg: Config, s: Tenant, lastId: Option<string>, now: int): seq<Envelope> {
    if lastId.None? then s.ring else Evicted(s.ring, now - cfg.ttl)
  }

  function AfterRead(cfg: Config, s: Tenant, c: Client, now: int): Client
    requires c.Joining?
  {
    var replay := if c.lastId.None? then None else ReplayIn(RingAtRead(cfg, s, c.lastId, now), c.lastId.value);
    Reading(c.lastId, c.start, c.joinedAt,
            replay.Some?, if replay.Some? then replay.value else [], |s.log|, c.start, None)
  }

  function Apply(cfg: Config, s: Tenant, step: Step): Tenant
    requires Enabled(cfg, s, step)
  {
    match step
    case PushStep(p, env, now) =>
      s.(log := s.log + [env], ring := Pushed(cfg.cap, Evicted(s.ring, now - cfg.ttl), env),
         inFlight := s.inFlight[p := |s.log|])
    case SendStep(p) => s.(sent := s.sent + [s.inFlight[p]], inFlight := s.inFlight - {p})
    case Subscribe(c, lastId) => s.(clients := s.clients[c := Joining(lastId, |s.sent|, |s.log|)])
    case ReadRing(c, now) =>
      s.(ring := RingAtRead(cfg, s, s.clients[c].lastId, now),
         clients := s.clients[c := AfterRead(cfg, s, s.clients[c], now)])
    case Receive(c) => s.(clients := s.clients[c := s.clients[c].(pos := s.clients[c].pos + 1)])
    case Lag(c) =>
      s.(clients := s.clients[c := s.clients[c].(lagged := Some(|s.sent| - s.clients[c].pos - cfg.channel))])
    case Leave(c) => s.(clients := s.clients - {c})
  }

  /** Any interleaving: a step that is not enabled is skipped. */
  function Run(cfg: Config, steps: seq<Step>): Tenant {
    if steps == [] then EMPTY
    else
      var s := Run(cfg, steps[..|steps| - 1]);
      var step := steps[|steps| - 1];
      if Enabled(cfg, s, step) then Apply(cfg, s, step) else s
  }

  // ---------------------------------------------------------------------------------------------
  // What every step keeps
  // ---------------------------------------------------------------------------------------------

  /** Each pushed event is sent once, or on its way. */
  predicate Routed(n: nat, sent: seq<nat>, inFlight: map<nat, nat>) {
    && (forall k | 0 <= k < |sent| :: sent[k] < n)
    && (forall j, k | 0 <= j < k < |sent| :: sent[j] != sent[k])
    && (forall p | p in inFlight :: inFlight[p] < n && inFlight[p] !in sent)
    && (forall p, q | p in inFlight && q in inFlight && p != q :: inFlight[p] != inFlight[q])
    && (forall i | 0 <= i < n :: i in sent || OnItsWay(inFlight, i))
  }

  predicate OnItsWay(inFlight: map<nat, nat>, i: nat) {
    exists p :: p in inFlight && inFlight[p] == i
  }

  /** The first event after the last id, when the buffer found it. */
  function Since(c: Client): int
    requires c.Reading?
  {
    c.readAt - |c.replay|
  }

  /** `replay` is the end of `log`, right after an event called `id`. */
  predicate IsTail(log: seq<Envelope>, id: string, replay: seq<Envelope>) {
    var since := |log| - |replay|;
    && 0 < since && log[since - 1].id == id
    && forall k | since <= k < |log| :: log[k] == replay[k - since]
  }

  predicate ReplayOk(log: seq<Envelope>, c: Client)
    requires c.Reading? && c.readAt <= |log|
  {
    if c.found then
      c.lastId.Some? && IsTail(log[..c.readAt], c.lastId.value, c.replay)
    else c.replay == []
  }

  predicate ClientOk(log: seq<Envelope>, sent: seq<nat>, c: Client) {
    && c.start <= |sent| && c.joinedAt <= |log|
    && (forall k | 0 <= k < c.start :: sent[k] < c.joinedAt)
    && (c.Reading? ==>
          && c.start <= c.pos <= |sent| && (c.lagged.Some? ==> c.pos < |sent|)
          && c.joinedAt <= c.readAt <= |log| && ReplayOk(log, c))
  }

  predicate ClientsOk(log: seq<Envelope>, sent: seq<nat>, clients: map<nat, Client>) {
    forall c | c in clients :: ClientOk(log, sent, clients[c])
  }

  predicate Inv(s: Tenant) {
    IsSuffix(s.ring, s.log) && Routed(|s.log|, s.sent, s.inFlight) && ClientsOk(s.log, s.sent, s.clients)
  }

  lemma {:induction false} PushRouted(n: nat, sent: seq<nat>, inFlight: map<nat, nat>, p: nat)
    requires Routed(n, sent, inFlight) && p !in inFlight
    ensures Routed(n + 1, sent, inFlight[p := n])
  {
    var now := inFlight[p := n];
    forall i | 0 <= i < n + 1 ensures i in sent || OnItsWay(now, i) {
      if i == n {
        assert now[p] == i;
      } else if OnItsWay(inFlight, i) {
        var q :| q in inFlight && inFlight[q] == i;
        assert q in now && now[q] == i;
      }
    }
  }

  lemma {:induction false} SendRouted(n: nat, sent: seq<nat>, inFlight: map<nat, nat>, p: nat)
    requires Routed(n, sent, inFlight) && p in inFlight
    ensures Routed(n, sent + [inFlight[p]], inFlight - {p})
  {
    var after := sent + [inFlight[p]];
    forall i | 0 <= i < n ensures i in after || OnItsWay(inFlight - {p}, i) {
      if i == inFlight[p] {
        assert after[|sent|] == i;
      } else if OnItsWay(inFlight, i) {
        var q :| q in inFlight && inFlight[q] == i;
        assert q in inFlight - {p} && (inFlight - {p})[q] == i;
      }
    }
  }

  lemma {:induction false} MoreLog(log: seq<Envelope>, env: Envelope, sent: seq<nat>, clients: map<nat, Client>)
    requires ClientsOk(log, sent, clients)
    ensures ClientsOk(log + [env], sent, clients)
  {
    forall c | c in clients ensures ClientOk(log + [env], sent, clients[c]) {
      assert ClientOk(log, sent, clients[c]);
      if clients[c].Reading? {
        assert (log + [env])[..clients[c].readAt] == log[..clients[c].readAt];
      }
    }
  }

  lemma {:induction false} MoreSent(log: seq<Envelope>, sent: seq<nat>, i: nat, clients: map<nat, Client>)
    requires ClientsOk(log, sent, clients)
    ensures ClientsOk(log, sent + [i], clients)
  {
  }

  lemma {:induction false} ReplayIsTail(ring: seq<Envelope>, log: seq<Envelope>, id: string)
    requires IsSuffix(ring, log)
    ensures ReplayIn(ring, id).Some? ==> IsTail(log, id, ReplayIn(ring, id).value)
  {
  }

  lemma {:induction false} ReadClientOk(cfg: Config, s: Tenant, c: Client, now: int)
    requires IsSuffix(s.ring, s.log) && c.Joining? && ClientOk(s.log, s.sent, c)
    ensures ClientOk(s.log, s.sent, AfterRead(cfg, s, c, now))
  {
    if c.lastId.Some? {
      var ring := RingAtRead(cfg, s, c.lastId, now);
      EvictedIsSuffix(s.ring, s.log, now - cfg.ttl);
      ReplayIsTail(ring, s.log, c.lastId.value);
      assert s.log[..|s.log|] == s.log;
    }
  }

  lemma {:induction false} ReadKeeps(cfg: Config, s: Tenant, c: nat, now: int)
    requires Inv(s) && c in s.clients && s.clients[c].Joining?
    ensures Inv(Apply(cfg, s, ReadRing(c, now)))
  {
    EvictedIsSuffix(s.ring, s.log, now - cfg.ttl);
    ReadClientOk(cfg, s, s.clients[c], now);
  }

  /** No step, whatever its interleaving, breaks the invariant. */
  lemma {:induction false} StepKeepsInv(cfg: Config, s: Tenant, step: Step)
    requires Inv(s) && Enabled(cfg, s, step)
    ensures Inv(Apply(cfg, s, step))
  {
    match step
    case PushStep(p, env, now) =>
      PushStepIsSuffix(cfg.cap, s.ring, s.log, env, now - cfg.ttl);
      PushRouted(|s.log|, s.sent, s.inFlight, p);
      MoreLog(s.log, env, s.sent, s.clients);
    case SendStep(p) =>
      SendRouted(|s.log|, s.sent, s.inFlight, p);
      MoreSent(s.log, s.sent, s.inFlight[p], s.clients);
    case ReadRing(c, now) =>
      ReadKeeps(cfg, s, c, now);
    case Subscribe(_, _) =>
    case Receive(_) =>
    case Lag(_) =>
    case Leave(_) =>
  }

  lemma {:induction false} RunKeepsInv(cfg: Config, steps: seq<Step>)
    ensures Inv(Run(cfg, steps))
    decreases |steps|
  {
    if steps == [] {
    } else {
      RunKeepsInv(cfg, steps[..|steps| - 1]);
      var s := Run(cfg, steps[..|steps| - 1]);
      if Enabled(cfg, s, steps[|steps| - 1]) {
        StepKeepsInv(cfg, s, steps[|steps| - 1]);
      }
    }
  }

  // ---------------------------------------------------------------------------------------------
  // The buffer is the replay buffer
  // ---------------------------------------------------------------------------------------------

  /** The operation on the buffer that a step is, if it is one. */
  function RingOp(s: Tenant, step: Step): seq<Op>
    requires step.ReadRing? ==> step.client in s.clients
  {
    match step
    case PushStep(_, env, now) => [DoPush(env, now)]
    case ReadRing(c, now) =>
      if s.clients[c].lastId.Some? then [DoReplay(s.clients[c].lastId.value, now)] else []
    case _ => []
  }

  function RingOps(cfg: Config, steps: seq<Step>): seq<Op> {
    if steps == [] then []
    else
      var before, step := steps[..|steps| - 1], steps[|steps| - 1];
      var s := Run(cfg, before);
      RingOps(cfg, before) + if Enabled(cfg, s, step) then RingOp(s, step) else []
  }

  lemma {:induction false} OneOp(cap: nat, ttl: nat, ops: seq<Op>, op: Op)
    ensures BufAfter(cap, ttl, ops + [op]) == BufStep(cap, ttl, BufAfter(cap, ttl, ops), op)
    ensures LogOf(ops + [op]) == LogStep(LogOf(ops), op)
  {
    assert (ops + [op])[..|ops|] == ops;
  }

  lemma {:induction false} StepOnRing(cfg: Config, s: Tenant, step: Step)
    requires Enabled(cfg, s, step)
    ensures var r, ops := Apply(cfg, s, step), RingOp(s, step);
      if ops == [] then r.ring == s.ring && r.log == s.log
      else ops == [ops[0]] && r.ring == BufStep(cfg.cap, cfg.ttl, s.ring, ops[0]) && r.log == LogStep(s.log, ops[0])
  {
  }

  lemma {:induction false} StepIsOp(cfg: Config, s: Tenant, step: Step, ops: seq<Op>, more: seq<Op>)
    requires Enabled(cfg, s, step) && more == ops + RingOp(s, step)
    requires s.ring == BufAfter(cfg.cap, cfg.ttl, ops) && s.log == LogOf(ops)
    ensures Apply(cfg, s, step).ring == BufAfter(cfg.cap, cfg.ttl, more) && Apply(cfg, s, step).log == LogOf(more)
  {
    StepOnRing(cfg, s, step);
    if RingOp(s, step) == [] {
      assert more == ops;
    } else {
      OneOp(cfg.cap, cfg.ttl, ops, RingOp(s, step)[0]);
    }
  }

  /** In every interleaving the buffer holds what the pushes and replays so far have made of it. */
  lemma {:induction false} RingIsBuffer(cfg: Config, steps: seq<Step>)
    ensures var s, ops := Run(cfg, steps), RingOps(cfg, steps);
      s.ring == BufAfter(cfg.cap, cfg.ttl, ops) && s.log == LogOf(ops)
    decreases |steps|
  {
    if steps == [] {
    } else {
      var before, step := steps[..|steps| - 1], steps[|steps| - 1];
      RingIsBuffer(cfg, before);
      if Enabled(cfg, Run(cfg, before), step) {
        StepIsOp(cfg, Run(cfg, before), step, RingOps(cfg, before), RingOps(cfg, steps));
      } else {
        assert RingOps(cfg, before) + [] == RingOps(cfg, before);
      }
    }
  }

  /** And what a client reads is what the buffer answers at that moment, what has expired by then left out. */
  lemma {:induction false} ReadIsReplay(cfg: Config, steps: seq<Step>, c: nat, now: int, id: string)
    requires Enabled(cfg, Run(cfg, steps), ReadRing(c, now)) && Run(cfg, steps).clients[c].lastId == Some(id)
    ensures var r := Apply(cfg, Run(cfg, steps), ReadRing(c, now)).clients[c];
      var answer := ReplayIn(BufAfter(cfg.cap, cfg.ttl, RingOps(cfg, steps) + [DoReplay(id, now)]), id);
      && r.Reading? && (r.found <==> answer.Some?) && r.replay == if answer.Some? then answer.value else []
  {
    RingIsBuffer(cfg, steps);
    OneOp(cfg.cap, cfg.ttl, RingOps(cfg, steps), DoReplay(id, now));
  }
}
