/**
 * What reaches a subscriber in any interleaving of publishes, subscriptions, reads and receives.
 */
module SseTheorems {
  import opened Prelude
  import opened Ring
  import opened SseStream
  import opened SseProtocol

  predicate Replayed(c: Client, i: nat)
    requires c.Reading?
  {
    c.found && Since(c) <= i < c.readAt
  }

  predicate Heard(s: Tenant, c: Client, i: nat)
    requires c.Reading? && c.start <= c.pos <= |s.sent|
  {
    i in s.sent[c.start..c.pos]
  }

  /** The channel has dropped events that the client had not taken: a reset is all it still gets. */
  predicate IsCutOff(cfg: Config, s: Tenant, c: Client)
    requires c.Reading?
  {
    c.lagged.Some? || |s.sent| > c.pos + cfg.channel
  }

  /** On the channel, to be received. */
  predicate Waiting(cfg: Config, s: Tenant, c: Client, i: nat)
    requires c.Reading? && c.pos <= |s.sent|
  {
    !IsCutOff(cfg, s, c) && i in s.sent[c.pos..]
  }

  /** Owed to the client: after its last id if the buffer found it, else pushed since it subscribed. */
  predicate Owed(s: Tenant, c: Client, i: nat)
    requires c.Reading?
  {
    i < |s.log| && if c.found then Since(c) <= i else c.joinedAt <= i
  }

  lemma {:induction false} SentAfterJoining(sent: seq<nat>, start: nat, pos: nat, joinedAt: nat, i: nat)
    requires start <= pos <= |sent| && i in sent && joinedAt <= i
    requires forall k | 0 <= k < start :: sent[k] < joinedAt
    ensures i in sent[start..pos] || i in sent[pos..]
  {
  }

  /** The last id really is the event before the replay, and the replay is the log from there. */
  lemma {:induction false} ReplayStartsAfterLastId(cfg: Config, steps: seq<Step>, id: nat, i: nat)
    requires IsReading(Run(cfg, steps), id)
    requires Run(cfg, steps).clients[id].found && Replayed(Run(cfg, steps).clients[id], i)
    ensures var s := Run(cfg, steps);
      var c := s.clients[id];
      && c.lastId.Some? && 0 < Since(c) <= i < |s.log| && s.log[Since(c) - 1].id == c.lastId.value
      && c.replay[i - Since(c)] == s.log[i]
  {
    RunKeepsInv(cfg, steps);
    var s := Run(cfg, steps);
    var c := s.clients[id];
    assert ClientOk(s.log, s.sent, c);
    assert s.log[..c.readAt][i] == s.log[i] && s.log[..c.readAt][Since(c) - 1] == s.log[Since(c) - 1];
  }

  /** No publish is under way, and the client has taken all there is on its channel. */
  predicate IsSettled(s: Tenant, c: Client) {
    s.inFlight == map[] && c.Reading? && c.pos == |s.sent|
  }

  /**
   * No interleaving loses an event silently: it was replayed, or heard, or is still on the channel or on
   * its way there, or the client has fallen behind, and is told so.
   */
  lemma {:induction false} NoLostEvent(cfg: Config, steps: seq<Step>, id: nat, i: nat)
    requires IsReading(Run(cfg, steps), id) && Owed(Run(cfg, steps), Run(cfg, steps).clients[id], i)
    ensures var s := Run(cfg, steps);
      var c := s.clients[id];
      && c.start <= c.pos <= |s.sent|
      && (Replayed(c, i) || Heard(s, c, i) || Waiting(cfg, s, c, i) || OnItsWay(s.inFlight, i) || IsCutOff(cfg, s, c))
      && (IsCutOff(cfg, s, c) ==> c.lagged.Some? || Enabled(cfg, s, Lag(id)))
  {
    RunKeepsInv(cfg, steps);
    var s := Run(cfg, steps);
    var c := s.clients[id];
    assert ClientOk(s.log, s.sent, c);
    if !Replayed(c, i) && !OnItsWay(s.inFlight, i) {
      SentAfterJoining(s.sent, c.start, c.pos, c.joinedAt, i);
    }
  }

  /** On a channel, no event comes twice. */
  lemma {:induction false} HeardOnce(cfg: Config, steps: seq<Step>, j: nat, k: nat)
    requires j < k < |Run(cfg, steps).sent|
    ensures Run(cfg, steps).sent[j] != Run(cfg, steps).sent[k]
  {
    RunKeepsInv(cfg, steps);
  }

  lemma {:induction false} SentSplits(sent: seq<nat>, start: nat, i: nat)
    requires start <= |sent| && i in sent && forall j, k | 0 <= j < k < |sent| :: sent[j] != sent[k]
    ensures i in sent[start..] <==> i !in sent[..start]
  {
  }

  /**
   * A client that has caught up got an event twice, in the replay and on the channel, exactly when it was
   * replayed and had not been sent yet when the client subscribed.
   */
  lemma {:induction false} GotTwiceExactly(cfg: Config, steps: seq<Step>, id: nat, i: nat)
    requires IsReading(Run(cfg, steps), id) && IsSettled(Run(cfg, steps), Run(cfg, steps).clients[id])
    ensures var s := Run(cfg, steps);
      var c := s.clients[id];
      && c.start <= c.pos <= |s.sent|
      && (Replayed(c, i) && Heard(s, c, i) <==> Replayed(c, i) && i !in s.sent[..c.start])
  {
    RunKeepsInv(cfg, steps);
    var s := Run(cfg, steps);
    var c := s.clients[id];
    assert ClientOk(s.log, s.sent, c);
    assert s.sent[c.start..c.pos] == s.sent[c.start..];
    if Replayed(c, i) {
      assert !OnItsWay(s.inFlight, i);
      SentSplits(s.sent, c.start, i);
    }
  }

  /**
   * When the buffer did not find the last id, the client gets nothing of the past, and no reset tells it
   * so: it has missed nothing after position `p` exactly when nothing later was sent before it subscribed.
   */
  lemma {:induction false} UnknownIdMissesExactly(cfg: Config, steps: seq<Step>, id: nat, p: nat)
    requires IsReading(Run(cfg, steps), id)
    requires var s := Run(cfg, steps); IsSettled(s, s.clients[id]) && !s.clients[id].found
    ensures var s := Run(cfg, steps);
      var c := s.clients[id];
      && c.start <= c.pos <= |s.sent| && c.replay == []
      && ((forall i: nat | p < i < |s.log| :: Heard(s, c, i)) <==> forall k | 0 <= k < c.start :: s.sent[k] <= p)
  {
    RunKeepsInv(cfg, steps);
    var s := Run(cfg, steps);
    var c := s.clients[id];
    assert ClientOk(s.log, s.sent, c);
    if forall k | 0 <= k < c.start :: s.sent[k] <= p {
      forall i: nat | p < i < |s.log| ensures Heard(s, c, i) {
        assert !OnItsWay(s.inFlight, i);
        SentAfterJoining(s.sent, c.start, c.pos, p + 1, i);
      }
    } else {
      var k :| 0 <= k < c.start && s.sent[k] > p;
      SentBeforeIsNotHeard(s.sent, k, c.start, c.pos);
      assert !Heard(s, c, s.sent[k]);
    }
  }

  lemma {:induction false} SentBeforeIsNotHeard(sent: seq<nat>, k: nat, start: nat, pos: nat)
    requires k < start <= pos <= |sent|
    requires forall i, j | 0 <= i < j < |sent| :: sent[i] != sent[j]
    ensures sent[k] !in sent[start..pos]
  {
  }

  // ---------------------------------------------------------------------------------------------
  // Through the client's stream
  // ---------------------------------------------------------------------------------------------

  function LiveEvents(log: seq<Envelope>, ids: seq<nat>): (r: seq<Received>)
    requires forall k | 0 <= k < |ids| :: ids[k] < |log|
    ensures |r| == |ids| && forall k | 0 <= k < |ids| :: r[k] == Live(log[ids[k]])
  {
    if ids == [] then [] else [Live(log[ids[0]])] + LiveEvents(log, ids[1..])
  }

  function Inbox(s: Tenant, c: Client): seq<Received>
    requires c.Reading? && c.start <= c.pos <= |s.sent| && forall k | 0 <= k < |s.sent| :: s.sent[k] < |s.log|
  {
    LiveEvents(s.log, s.sent[c.start..c.pos]) + (if c.lagged.Some? then [Lagged(c.lagged.value)] else [])
  }

  lemma {:induction false} InboxStops(live: seq<Received>, lag: Option<nat>)
    requires forall k | 0 <= k < |live| :: live[k].Live?
    ensures var inbox := live + (if lag.Some? then [Lagged(lag.value)] else []);
      && |BeforeStop(inbox)| == |live| && (forall k | 0 <= k < |live| :: BeforeStop(inbox)[k] == live[k].env)
      && Stop(inbox) == if lag.Some? then Some(Lagged(lag.value)) else None
    decreases |live|
  {
    var stop := if lag.Some? then [Lagged(lag.value)] else [];
    if live == [] {
      assert live + stop == stop;
    } else {
      InboxStops(live[1..], lag);
      assert (live + stop)[1..] == live[1..] + stop;
    }
  }

  lemma {:induction false} IsEmitted(replay: seq<Envelope>, inbox: seq<Received>, session: Option<string>,
                                     env: Envelope)
    requires env in replay || env in BeforeStop(inbox)
    requires session.None? || env.session == session
    ensures Event(env) in Emitted(replay, inbox, session)
  {
    StreamShape(replay, inbox, session);
  }

  /** The whole path: once settled, every owed event of the client's session has been emitted to it. */
  lemma {:induction false} OwedIsEmitted(cfg: Config, steps: seq<Step>, id: nat, i: nat, session: Option<string>)
    requires IsReading(Run(cfg, steps), id)
    requires var s := Run(cfg, steps); IsSettled(s, s.clients[id]) && Owed(s, s.clients[id], i)
    ensures var s := Run(cfg, steps);
      var c := s.clients[id];
      && Inv(s) && ClientOk(s.log, s.sent, c)
      && (session.None? || s.log[i].session == session ==>
            Event(s.log[i]) in Emitted(c.replay, Inbox(s, c), session))
  {
    RunKeepsInv(cfg, steps);
    NoLostEvent(cfg, steps, id, i);
    var s := Run(cfg, steps);
    var c := s.clients[id];
    assert ClientOk(s.log, s.sent, c);
    var heard := s.sent[c.start..c.pos];
    InboxStops(LiveEvents(s.log, heard), c.lagged);
    if Replayed(c, i) {
      ReplayStartsAfterLastId(cfg, steps, id, i);
    } else {
      var k :| 0 <= k < |heard| && heard[k] == i;
      assert BeforeStop(Inbox(s, c))[k] == s.log[i];
    }
    if session.None? || s.log[i].session == session {
      IsEmitted(c.replay, Inbox(s, c), session, s.log[i]);
    }
  }

  /** A reset is emitted exactly on lag, once, as the last item. */
  lemma {:induction false} ResetIsLag(cfg: Config, steps: seq<Step>, id: nat, session: Option<string>)
    requires IsReading(Run(cfg, steps), id)
    ensures var s := Run(cfg, steps);
      var c := s.clients[id];
      && Inv(s) && ClientOk(s.log, s.sent, c)
      && var items := Emitted(c.replay, Inbox(s, c), session);
        && (Reset in items <==> c.lagged.Some?)
        && forall k | 0 <= k < |items| && items[k] == Reset :: k == |items| - 1
  {
    RunKeepsInv(cfg, steps);
    var s := Run(cfg, steps);
    var c := s.clients[id];
    assert ClientOk(s.log, s.sent, c);
    InboxStops(LiveEvents(s.log, s.sent[c.start..c.pos]), c.lagged);
    StreamShape(c.replay, Inbox(s, c), session);
  }
}
