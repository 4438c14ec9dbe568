/**
 * A client that comes back with the id of an event it has seen. The replay starts behind that event in
 * the order of the pushes, while the client heard events in the order of the sends.
 */
module SseReconnect {
  import opened Prelude
  import opened Ring
  import opened SseProtocol
  import opened SseTheorems

  /** What both visits share: the second one sees longer logs, and took its place on the channel later. */
  predicate IsLater(s1: Tenant, s: Tenant, id: nat) {
    s1.log <= s.log && s1.sent <= s.sent && (id in s.clients ==> |s1.sent| <= s.clients[id].start)
  }

  lemma {:induction false} StepIsLater(cfg: Config, s1: Tenant, s: Tenant, step: Step, id: nat)
    requires IsLater(s1, s, id) && Enabled(cfg, s, step)
    ensures IsLater(s1, Apply(cfg, s, step), id)
  {
  }

  lemma {:induction false} RunIsLater(cfg: Config, before: seq<Step>, after: seq<Step>, id: nat)
    requires id in Run(cfg, before).clients
    ensures IsLater(Run(cfg, before), Run(cfg, before + [Leave(id)] + after), id)
    decreases |after|
  {
    var steps := before + [Leave(id)] + after;
    var last := |steps| - 1;
    if after == [] {
      assert steps[..last] == before;
    } else {
      assert steps[..last] == before + [Leave(id)] + after[..|after| - 1];
      RunIsLater(cfg, before, after[..|after| - 1], id);
      var s := Run(cfg, steps[..last]);
      if Enabled(cfg, s, steps[last]) {
        StepIsLater(cfg, Run(cfg, before), s, steps[last], id);
      }
    }
  }

  /** The client got the event in this visit. */
  predicate Got(s: Tenant, c: Client, i: nat)
    requires c.Reading? && c.start <= c.pos <= |s.sent|
  {
    Replayed(c, i) || Heard(s, c, i)
  }

  /** It left in state `s1`, and is back in `s2` with the id of event `h`, which the buffer found. */
  predicate IsBack(s1: Tenant, c1: Client, s2: Tenant, c2: Client, h: nat) {
    && Inv(s1) && Inv(s2) && s1.log <= s2.log && s1.sent <= s2.sent
    && ClientOk(s1.log, s1.sent, c1) && ClientOk(s2.log, s2.sent, c2) && c1.Reading? && |s1.sent| <= c2.start
    && IsSettled(s2, c2) && DistinctIds(s2.log) && h < |s2.log| && c2.found && c2.lastId == Some(s2.log[h].id)
  }

  /** Sent after the client stopped listening and before it listened again. */
  predicate SentBetween(s2: Tenant, c1: Client, c2: Client, i: nat)
    requires c1.Reading? && c1.pos <= c2.start <= |s2.sent|
  {
    i in s2.sent[c1.pos..c2.start]
  }

  lemma {:induction false} BackBehind(s1: Tenant, c1: Client, s2: Tenant, c2: Client, h: nat)
    requires IsBack(s1, c1, s2, c2, h)
    ensures Since(c2) == h + 1 <= c2.readAt
  {
    var log := s2.log[..c2.readAt];
    assert log[Since(c2) - 1] == s2.log[Since(c2) - 1];
  }

  lemma {:induction false} HeardOrBetween(sent: seq<nat>, start: nat, pos: nat, start': nat, i: nat)
    requires start <= pos <= start' <= |sent| && i in sent
    ensures i in sent[..start] || i in sent[start..pos] || i in sent[pos..start'] || i in sent[start'..]
  {
  }

  lemma {:induction false} Apart(sent: seq<nat>, a: nat, b: nat, c: nat, d: nat, i: nat)
    requires a <= b <= c <= d <= |sent| && i in sent[a..b]
    requires forall j, k | 0 <= j < k < |sent| :: sent[j] != sent[k]
    ensures i !in sent[c..d]
  {
  }

  /** What was sent before the first visit began, and is owed to it, was in its replay. */
  lemma {:induction false} OwedPast(s: Tenant, c: Client, i: nat)
    requires c.Reading? && ClientOk(s.log, s.sent, c) && Owed(s, c, i) && i in s.sent[..c.start]
    ensures Replayed(c, i)
  {
  }

  lemma {:induction false} FirstVisit(s1: Tenant, s2: Tenant, c1: Client, i: nat)
    requires ClientOk(s1.log, s1.sent, c1) && c1.Reading? && s1.sent <= s2.sent
    ensures Heard(s1, c1, i) <==> i in s2.sent[c1.start..c1.pos]
    ensures s1.sent[..c1.start] == s2.sent[..c1.start]
  {
    assert s1.sent[c1.start..c1.pos] == s2.sent[c1.start..c1.pos];
  }

  lemma {:induction false} IsSent(s: Tenant, i: nat)
    requires Inv(s) && s.inFlight == map[] && i < |s.log|
    ensures i in s.sent
  {
    assert !OnItsWay(s.inFlight, i);
  }

  /** The two visits, as states. */
  lemma {:induction false} BackMissesExactly(s1: Tenant, c1: Client, s2: Tenant, c2: Client, h: nat, i: nat)
    requires IsBack(s1, c1, s2, c2, h) && Owed(s2, c1, i)
    ensures Got(s1, c1, i) || Got(s2, c2, i) <==> !(i <= h && !Replayed(c1, i) && SentBetween(s2, c1, c2, i))
  {
    BackBehind(s1, c1, s2, c2, h);
    FirstVisit(s1, s2, c1, i);
    IsSent(s2, i);
    HeardOrBetween(s2.sent, c1.start, c1.pos, c2.start, i);
    if i in s2.sent[..c1.start] && !Replayed(c1, i) {
      OwedPast(s1.(log := s2.log), c1, i);
    }
    if SentBetween(s2, c1, c2, i) {
      if i in s2.sent[c1.start..c1.pos] {
        Apart(s2.sent, c1.start, c1.pos, c1.pos, c2.start, i);
      }
      Apart(s2.sent, c1.pos, c2.start, c2.start, |s2.sent|, i);
    }
  }

  /**
   * A client leaves, and comes back with the id of event `h`, which the buffer still has. Of the events
   * that were owed to it, it misses exactly those pushed no later than `h` that were sent while it was away
   * and that no replay had given it before.
   */
  lemma {:induction false} ReconnectMissesExactly(cfg: Config, before: seq<Step>, after: seq<Step>, id: nat, h: nat,
                                                  i: nat)
    requires IsReading(Run(cfg, before), id) && IsReading(Run(cfg, before + [Leave(id)] + after), id)
    requires var s1, s2 := Run(cfg, before), Run(cfg, before + [Leave(id)] + after);
      var c1, c2 := s1.clients[id], s2.clients[id];
      && IsSettled(s2, c2) && DistinctIds(s2.log) && h < |s2.log| && c2.found && c2.lastId == Some(s2.log[h].id)
      && Owed(s2, c1, i)
    ensures var s1, s2 := Run(cfg, before), Run(cfg, before + [Leave(id)] + after);
      var c1, c2 := s1.clients[id], s2.clients[id];
      && IsBack(s1, c1, s2, c2, h)
      && (Got(s1, c1, i) || Got(s2, c2, i) <==> !(i <= h && !Replayed(c1, i) && SentBetween(s2, c1, c2, i)))
  {
    var s1, s2 := Run(cfg, before), Run(cfg, before + [Leave(id)] + after);
    RunKeepsInv(cfg, before);
    RunKeepsInv(cfg, before + [Leave(id)] + after);
    RunIsLater(cfg, before, after, id);
    assert ClientOk(s1.log, s1.sent, s1.clients[id]) && ClientOk(s2.log, s2.sent, s2.clients[id]);
    BackMissesExactly(s1, s1.clients[id], s2, s2.clients[id], h, i);
  }

  /** Sends in the order of the pushes. */
  predicate InPushOrder(sent: seq<nat>) {
    forall j, k | 0 <= j < k < |sent| :: sent[j] < sent[k]
  }

  lemma {:induction false} SentLater(sent: seq<nat>, a: nat, b: nat, c: nat, h: nat, i: nat)
    requires InPushOrder(sent) && a <= b <= c <= |sent| && h in sent[a..b] && i in sent[b..c]
    ensures h < i
  {
    var j :| a <= j < b && sent[j] == h;
    var k :| b <= k < c && sent[k] == i;
  }

  /** Then nothing is missed by a client that comes back with the id of an event it got. */
  lemma {:induction false} OrderedMissesNothing(s1: Tenant, c1: Client, s2: Tenant, c2: Client, h: nat, i: nat)
    requires IsBack(s1, c1, s2, c2, h) && Owed(s2, c1, i) && Got(s1, c1, h) && InPushOrder(s2.sent)
    ensures Got(s1, c1, i) || Got(s2, c2, i)
  {
    BackMissesExactly(s1, c1, s2, c2, h, i);
    if SentBetween(s2, c1, c2, i) && Heard(s1, c1, h) {
      FirstVisit(s1, s2, c1, h);
      SentLater(s2.sent, c1.start, c1.pos, c2.start, h, i);
    }
  }

  // ---------------------------------------------------------------------------------------------
  // It happens when a send overtakes another
  // ---------------------------------------------------------------------------------------------

  lemma {:induction false} RunMore(cfg: Config, steps: seq<Step>, s: Tenant, step: Step, s': Tenant)
    requires Run(cfg, steps) == s && Enabled(cfg, s, step) && Apply(cfg, s, step) == s'
    ensures Run(cfg, steps + [step]) == s'
  {
    assert (steps + [step])[..|steps + [step]| - 1] == steps;
  }

  lemma {:induction false} TwoInRing(cfg: Config, a: Envelope, b: Envelope, now: int)
    requires cfg.cap >= 2 && a.createdAt == b.createdAt == now && a.id != b.id
    ensures Pushed(cfg.cap, Evicted([], now - cfg.ttl), a) == [a]
    ensures Pushed(cfg.cap, Evicted([a], now - cfg.ttl), b) == [a] + [b]
    ensures Evicted([a] + [b], now - cfg.ttl) == [a] + [b] && ReplayIn([a] + [b], b.id) == Some([])
  {
    ReplayIs([a] + [b], b.id, 1);
    assert ([a] + [b])[2..] == [];
  }

  /** A client without a last id that has received `pos` events. */
  function Visitor(pos: nat): Client {
    Reading(None, 0, 0, false, [], 0, pos, None)
  }

  /** One client; `a` and `b` are pushed, and `b` is sent first. */
  lemma {:induction false} BothPushed(cfg: Config, a: Envelope, b: Envelope, now: int) returns (steps: seq<Step>)
    requires cfg.cap >= 2 && a.createdAt == b.createdAt == now && a.id != b.id
    ensures Run(cfg, steps) == Tenant([a] + [b], [a] + [b], [], map[0 := 0, 1 := 1], map[0 := Visitor(0)])
  {
    TwoInRing(cfg, a, b, now);
    var clients := map[0 := Visitor(0)];
    RunMore(cfg, [], EMPTY, Subscribe(0, None), EMPTY.(clients := map[0 := Joining(None, 0, 0)]));
    steps := [] + [Subscribe(0, None)];
    RunMore(cfg, steps, EMPTY.(clients := map[0 := Joining(None, 0, 0)]), ReadRing(0, now), EMPTY.(clients := clients));
    steps := steps + [ReadRing(0, now)];
    RunMore(cfg, steps, EMPTY.(clients := clients), PushStep(0, a, now), Tenant([a], [a], [], map[0 := 0], clients));
    steps := steps + [PushStep(0, a, now)];
    RunMore(cfg, steps, Tenant([a], [a], [], map[0 := 0], clients), PushStep(1, b, now),
            Tenant([a] + [b], [a] + [b], [], map[0 := 0, 1 := 1], clients));
    steps := steps + [PushStep(1, b, now)];
  }

  lemma {:induction false} ReturnTooLate(cfg: Config, a: Envelope, b: Envelope, now: int, s: Tenant, before: seq<Step>)
      returns (after: seq<Step>, s': Tenant)
    requires cfg.cap >= 2 && a.createdAt == b.createdAt == now && a.id != b.id
    requires s == Tenant([a] + [b], [a] + [b], [1], map[0 := 0], map[0 := Visitor(1)])
    requires Run(cfg, before) == s
    ensures s'.log == s'.ring == [a] + [b] && s'.sent == [1] + [0] && s'.inFlight == map[]
    ensures s'.clients == map[0 := Reading(Some(b.id), 2, 2, true, [], 2, 2, None)]
    ensures Run(cfg, before + [Leave(0)] + after) == s'
  {
    TwoInRing(cfg, a, b, now);
    var gone := s.(clients := map[]);
    assert s.clients - {0} == map[];
    RunMore(cfg, before, s, Leave(0), gone);
    var sent := gone.(sent := [1] + [0], inFlight := map[]);
    assert gone.inFlight - {0} == map[];
    RunMore(cfg, before + [Leave(0)], gone, SendStep(0), sent);
    var steps := before + [Leave(0)] + [SendStep(0)];
    var joining := sent.(clients := map[0 := Joining(Some(b.id), 2, 2)]);
    RunMore(cfg, steps, sent, Subscribe(0, Some(b.id)), joining);
    steps := steps + [Subscribe(0, Some(b.id))];
    s' := joining.(clients := map[0 := Reading(Some(b.id), 2, 2, true, [], 2, 2, None)]);
    RunMore(cfg, steps, joining, ReadRing(0, now), s');
    after := [SendStep(0)] + [Subscribe(0, Some(b.id))] + [ReadRing(0, now)];
    assert before + [Leave(0)] + after == steps + [ReadRing(0, now)];
  }

  /** It hears `b`, leaves, and is back after `a` was sent. */
  lemma {:induction false} BackAgain(cfg: Config, a: Envelope, b: Envelope, now: int, s: Tenant, steps: seq<Step>)
      returns (before: seq<Step>, after: seq<Step>, s': Tenant)
    requires cfg.cap >= 2 && cfg.channel >= 1 && a.createdAt == b.createdAt == now && a.id != b.id
    requires s == Tenant([a] + [b], [a] + [b], [], map[0 := 0, 1 := 1], map[0 := Visitor(0)])
    requires Run(cfg, steps) == s
    ensures Run(cfg, before) == s.(sent := [1], inFlight := map[0 := 0], clients := map[0 := Visitor(1)])
    ensures s'.log == s'.ring == [a] + [b] && s'.sent == [1] + [0] && s'.inFlight == map[]
    ensures s'.clients == map[0 := Reading(Some(b.id), 2, 2, true, [], 2, 2, None)]
    ensures Run(cfg, before + [Leave(0)] + after) == s'
  {
    TwoInRing(cfg, a, b, now);
    var sent := s.(sent := [1], inFlight := map[0 := 0]);
    assert [] + [1] == [1] && s.inFlight - {1} == map[0 := 0];
    RunMore(cfg, steps, s, SendStep(1), sent);
    before := steps + [SendStep(1)];
    var heard := sent.(clients := map[0 := Visitor(1)]);
    RunMore(cfg, before, sent, Receive(0), heard);
    before := before + [Receive(0)];
    after, s' := ReturnTooLate(cfg, a, b, now, heard, before);
  }

  /**
   * With `b` sent before `a`, a client that heard `b` and comes back with its id never gets `a`: the
   * buffer still has both, and nothing tells the client.
   */
  lemma {:induction false} OvertakenIsMissed(cfg: Config, a: Envelope, b: Envelope, now: int)
      returns (before: seq<Step>, after: seq<Step>)
    requires cfg.cap >= 2 && cfg.channel >= 1 && a.createdAt == b.createdAt == now && a.id != b.id
    ensures var s1, s2 := Run(cfg, before), Run(cfg, before + [Leave(0)] + after);
      && IsReading(s1, 0) && IsReading(s2, 0)
      && var c1, c2 := s1.clients[0], s2.clients[0];
      && IsBack(s1, c1, s2, c2, 1) && s2.log == s2.ring == [a] + [b]
      && Got(s1, c1, 1) && Owed(s2, c1, 0) && !Got(s1, c1, 0) && !Got(s2, c2, 0) && c2.lagged.None?
  {
    var steps := BothPushed(cfg, a, b, now);
    var s2;
    before, after, s2 := BackAgain(cfg, a, b, now, Run(cfg, steps), steps);
    var s1 := Run(cfg, before);
    RunKeepsInv(cfg, before);
    RunKeepsInv(cfg, before + [Leave(0)] + after);
    assert ClientOk(s1.log, s1.sent, s1.clients[0]) && ClientOk(s2.log, s2.sent, s2.clients[0]);
    assert s1.sent[0..1] == [1] && s2.sent[2..2] == [];
  }
}
