/**
 * The stream one client reads (rb-sse, stream.rs): first the replay, then the live channel, and on
 * lag a single `stream-reset` before the end. `inbox` is what the channel's receiver will answer.
 */
module SseStream {
  import opened Prelude
  import opened Ring

  datatype Received = Live(env: Envelope) | Lagged(skipped: nat) | Closed

  datatype Item = Event(env: Envelope) | Reset

  /** `Pending`: the channel has nothing for the client yet. */
  datatype Polled = Ready(item: Item) | End | Pending

  predicate Matches(env: Envelope, session: Option<string>) {
    session.None? || env.session == session
  }

  function EventsOf(envs: seq<Envelope>, session: Option<string>): (r: seq<Item>)
    ensures |r| <= |envs| && Reset !in r
    ensures forall env :: Event(env) in r <==> env in envs && Matches(env, session)
  {
    if envs == [] then []
    else (if Matches(envs[0], session) then [Event(envs[0])] else []) + EventsOf(envs[1..], session)
  }

  function FromChannel(inbox: seq<Received>, session: Option<string>): seq<Item> {
    if inbox == [] then []
    else match inbox[0]
      case Live(env) => (if Matches(env, session) then [Event(env)] else []) + FromChannel(inbox[1..], session)
      case Lagged(_) => [Reset]
      case Closed => []
  }

  /** All the items a stream in this state has still to give. */
  function Emitted(replay: seq<Envelope>, inbox: seq<Received>, session: Option<string>): seq<Item> {
    EventsOf(replay, session) + FromChannel(inbox, session)
  }

  lemma {:induction false} EmittedStep(replay: seq<Envelope>, inbox: seq<Received>, session: Option<string>)
    requires replay != []
    ensures Emitted(replay, inbox, session) ==
      (if Matches(replay[0], session) then [Event(replay[0])] else []) + Emitted(replay[1..], inbox, session)
  {
  }

  class EventStream {
    var replay: seq<Envelope>
    var inbox: seq<Received>
    const session: Option<string>
    var done: bool

    constructor (replay: seq<Envelope>, inbox: seq<Received>, session: Option<string>)
      ensures this.session == session && Future() == Emitted(replay, inbox, session)
    {
      this.replay := replay;
      this.inbox := inbox;
      this.session := session;
      done := false;
    }

    function Future(): seq<Item>
      reads this
    {
      if done then [] else Emitted(replay, inbox, session)
    }

    /** The first phase: the next event of the replay that matches, if any is left. */
    method NextReplayed() returns (r: Option<Item>)
      requires !done
      modifies this`replay
      ensures r.Some? ==> old(Future()) == [r.value] + Future() && r.value.Event?
      ensures r.None? ==> Future() == old(Future()) && replay == []
    {
      while replay != []
        invariant Future() == old(Future())
        decreases |replay|
      {
        EmittedStep(replay, inbox, session);
        var env := replay[0];
        replay := replay[1..];
        if Matches(env, session) {
          return Some(Event(env));
        }
      }
      return None;
    }

    /** One poll gives the next item of the stream's future, and takes nothing else out of it. */
    method Next() returns (r: Polled)
      modifies this
      ensures r.Ready? ==> old(Future()) == [r.item] + Future()
      ensures !r.Ready? ==> old(Future()) == [] && Future() == []
      ensures r == Ready(Reset) ==> Future() == []
      ensures old(done) ==> r.End?
      ensures r.End? ==> done || (replay == [] && inbox != [] && inbox[0].Closed?)
      ensures r.Pending? ==> !done && replay == [] && inbox == []
    {
      if done {
        return End;
      }
      var replayed := NextReplayed();
      if replayed.Some? {
        return Ready(replayed.value);
      }
      while inbox != []
        invariant !done && replay == [] && Future() == old(Future())
        decreases |inbox|
      {
        match inbox[0]
        case Live(env) =>
          inbox := inbox[1..];
          if Matches(env, session) {
            return Ready(Event(env));
          }
        case Lagged(_) =>
          inbox := inbox[1..];
          done := true;
          return Ready(Reset);
        case Closed =>
          return End;
      }
      return Pending;
    }
  }

  // ---------------------------------------------------------------------------------------------
  // The shape of every stream
  // ---------------------------------------------------------------------------------------------

  /** The events received before the first lag or close. */
  function BeforeStop(inbox: seq<Received>): seq<Envelope> {
    if inbox == [] || !inbox[0].Live? then [] else [inbox[0].env] + BeforeStop(inbox[1..])
  }

  /** The first lag or close. */
  function Stop(inbox: seq<Received>): Option<Received> {
    if inbox == [] then None else if inbox[0].Live? then Stop(inbox[1..]) else Some(inbox[0])
  }

  lemma {:induction false} ChannelShape(inbox: seq<Received>, session: Option<string>)
    ensures FromChannel(inbox, session) ==
      EventsOf(BeforeStop(inbox), session) + (if Stop(inbox).Some? && Stop(inbox).value.Lagged? then [Reset] else [])
  {
    if inbox != [] && inbox[0].Live? {
      ChannelShape(inbox[1..], session);
      var live := BeforeStop(inbox);
      assert live[0] == inbox[0].env && live[1..] == BeforeStop(inbox[1..]);
    }
  }

  /** Matching replay, then matching live events up to the first stop, then a reset exactly on lag. */
  lemma {:induction false} StreamShape(replay: seq<Envelope>, inbox: seq<Received>, session: Option<string>)
    ensures var lag := Stop(inbox).Some? && Stop(inbox).value.Lagged?;
      var events := EventsOf(replay, session) + EventsOf(BeforeStop(inbox), session);
      && Emitted(replay, inbox, session) == events + (if lag then [Reset] else [])
      && Reset !in events
  {
    ChannelShape(inbox, session);
  }

  // ---------------------------------------------------------------------------------------------
  // Which events those are
  // ---------------------------------------------------------------------------------------------

  /** `at`: ascending positions, all those of events of the session; with no session, all positions. */
  predicate ArePositions(envs: seq<Envelope>, session: Option<string>, at: seq<nat>) {
    && (forall j | 0 <= j < |at| :: at[j] < |envs|)
    && (forall j, k | 0 <= j < k < |at| :: at[j] < at[k])
    && (forall i: nat | i < |envs| :: i in at <==> session.None? || envs[i].session == session)
  }

  /** The events are those at these positions, in that order. */
  predicate AreEventsAt(items: seq<Item>, envs: seq<Envelope>, at: seq<nat>) {
    |items| == |at| && forall j | 0 <= j < |at| :: at[j] < |envs| && items[j] == Event(envs[at[j]])
  }

  lemma {:induction false} PositionsMore(envs: seq<Envelope>, session: Option<string>, at: seq<nat>, more: seq<nat>)
    requires envs != [] && ArePositions(envs[..|envs| - 1], session, at)
    requires more == if session.None? || envs[|envs| - 1].session == session then at + [|envs| - 1] else at
    ensures ArePositions(envs, session, more)
  {
    var n := |envs| - 1;
    forall i: nat | i < |envs| ensures i in more <==> session.None? || envs[i].session == session {
      if i < n {
        assert envs[..n][i] == envs[i];
      } else {
        assert n !in at;
      }
    }
  }

  lemma {:induction false} EventsConcat(a: seq<Envelope>, b: seq<Envelope>, session: Option<string>)
    ensures EventsOf(a + b, session) == EventsOf(a, session) + EventsOf(b, session)
  {
    if a == [] {
      assert a + b == b;
    } else {
      assert (a + b)[1..] == a[1..] + b;
      EventsConcat(a[1..], b, session);
    }
  }

  lemma {:induction false} EventsOfOne(env: Envelope, session: Option<string>)
    ensures EventsOf([env], session) == if Matches(env, session) then [Event(env)] else []
  {
    assert [env][1..] == [];
  }

  lemma {:induction false} EventsAtMore(items: seq<Item>, envs: seq<Envelope>, at: seq<nat>, more: seq<Item>,
                                        place: seq<nat>)
    requires envs != [] && AreEventsAt(items, envs[..|envs| - 1], at) && |more| == |place| <= 1
    requires more != [] ==> place[0] == |envs| - 1 && more[0] == Event(envs[|envs| - 1])
    ensures AreEventsAt(items + more, envs, at + place)
  {
    forall j | 0 <= j < |at| ensures items[j] == Event(envs[at[j]]) {
      assert envs[..|envs| - 1][at[j]] == envs[at[j]];
    }
  }

  lemma {:induction false} OneMore(before: seq<Envelope>, env: Envelope, session: Option<string>, at: seq<nat>,
                                   envs: seq<Envelope>)
    returns (more: seq<nat>)
    requires ArePositions(before, session, at) && AreEventsAt(EventsOf(before, session), before, at)
    requires envs == before + [env]
    ensures ArePositions(envs, session, more) && AreEventsAt(EventsOf(envs, session), envs, more)
  {
    var place := if session.None? || env.session == session then [|before|] else [];
    more := at + place;
    assert envs[..|before|] == before && (place == [] ==> more == at);
    PositionsMore(envs, session, at, more);
    EventsConcat(before, [env], session);
    EventsOfOne(env, session);
    EventsAtMore(EventsOf(before, session), envs, at, EventsOf([env], session), place);
  }

  /** In order, and exactly the events of the session. */
  lemma {:induction false} EventsInOrder(envs: seq<Envelope>, session: Option<string>) returns (at: seq<nat>)
    ensures ArePositions(envs, session, at) && AreEventsAt(EventsOf(envs, session), envs, at)
    decreases |envs|
  {
    if envs == [] {
      at := [];
    } else {
      var n := |envs| - 1;
      var before := EventsInOrder(envs[..n], session);
      at := OneMore(envs[..n], envs[n], session, before, envs);
    }
  }

  /**
   * What a stream emits: of the replay and of what was received before the first lag or close, exactly the
   * events of the client's session, in order, or all of them if it named none; then a reset exactly on lag.
   */
  lemma {:induction false} EmittedExactly(replay: seq<Envelope>, inbox: seq<Received>, session: Option<string>)
    returns (at: seq<nat>)
    ensures var envs, items := replay + BeforeStop(inbox), Emitted(replay, inbox, session);
      && ArePositions(envs, session, at) && |at| <= |items| <= |at| + 1 && AreEventsAt(items[..|at|], envs, at)
      && items[|at|..] == if Stop(inbox).Some? && Stop(inbox).value.Lagged? then [Reset] else []
  {
    StreamShape(replay, inbox, session);
    EventsConcat(replay, BeforeStop(inbox), session);
    at := EventsInOrder(replay + BeforeStop(inbox), session);
  }

  /** No event of another session gets through. */
  lemma {:induction false} OnlyOwnSession(replay: seq<Envelope>, inbox: seq<Received>, id: string, env: Envelope)
    ensures Event(env) in Emitted(replay, inbox, Some(id)) <==>
      env in replay + BeforeStop(inbox) && env.session == Some(id)
  {
    StreamShape(replay, inbox, Some(id));
  }
}
