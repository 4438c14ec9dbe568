/**
 * Single flight and the safety margin, in every interleaving of the token cache's steps.
 */
module TokenTheorems {
  import opened TokenCache

  lemma {:induction false} TickKeeps(s: State, elapsed: nat)
    requires Inv(s)
    ensures Inv(Apply(s, Tick(elapsed)))
  {
  }

  /** Steps that leave minted tokens, the cache and the clock alone keep every token where it was. */
  lemma {:induction false} KeptStays(s: State, r: State)
    requires Kept(s) && r.mints == s.mints && r.inner == s.inner && r.clock == s.clock
    requires forall t | t in s.tasks && s.tasks[t].Minted? :: t in r.tasks && r.tasks[t] == s.tasks[t]
    ensures Kept(r)
  {
  }

  lemma {:induction false} PendingStays(before: map<nat, Task>, after: map<nat, Task>, m: Mint)
    requires IsPending(before, m)
    requires forall t | t in before && before[t].Minted? :: t in after && after[t] == before[t]
    ensures IsPending(after, m)
  {
  }

  lemma {:induction false} ServeKeeps(s: State, id: Installation)
    requires Inv(s) && IsFresh(s.inner, id, s.clock)
    ensures ServedOk(s.mints, s.served + [Served(id, s.inner[id], s.clock)])
  {
  }

  lemma {:induction false} CallKeeps(s: State, t: nat, id: Installation)
    requires Inv(s) && t !in s.tasks
    ensures Inv(Apply(s, Call(t, id)))
  {
    if IsFresh(s.inner, id, s.clock) {
      ServeKeeps(s, id);
    }
    KeptStays(s, Apply(s, Call(t, id)));
  }

  lemma {:induction false} AcquireKeeps(s: State, t: nat)
    requires Inv(s) && Enabled(s, Acquire(t))
    ensures Inv(Apply(s, Acquire(t)))
  {
    KeptStays(s, Apply(s, Acquire(t)));
  }

  lemma {:induction false} RemoveKeeps(s: State, t: nat)
    requires Inv(s) && t in s.tasks && !s.tasks[t].Minted?
    ensures Inv(s.(tasks := s.tasks - {t}))
  {
    KeptStays(s, s.(tasks := s.tasks - {t}));
  }

  /** Under the lock, nothing can be pending: a token that is not fresh in the cache is spent. */
  lemma {:induction false} StaleMeansSpent(s: State, t: nat)
    requires Inv(s) && t in s.tasks && s.tasks[t].Holding? && !IsFresh(s.inner, s.tasks[t].id, s.clock)
    ensures AllSpent(s.mints, s.tasks[t].id, s.clock)
  {
  }

  lemma {:induction false} RecheckKeeps(s: State, t: nat)
    requires Inv(s) && Enabled(s, Recheck(t))
    ensures Inv(Apply(s, Recheck(t)))
  {
    KeptStays(s, Apply(s, Recheck(t)));
    if IsFresh(s.inner, s.tasks[t].id, s.clock) {
      ServeKeeps(s, s.tasks[t].id);
    } else {
      StaleMeansSpent(s, t);
    }
  }

  lemma {:induction false} MoreMints(s: State, m: Mint)
    requires FromMinter(s) && ServedOk(s.mints, s.served)
    ensures FromMinter(s.(mints := s.mints + [m])) && ServedOk(s.mints + [m], s.served)
    ensures WasMinted(s.mints + [m], m.id, m.token)
  {
    var mints := s.mints + [m];
    assert mints[|s.mints|] == m;
    forall id, token | WasMinted(s.mints, id, token) ensures WasMinted(mints, id, token) {
      var k :| 0 <= k < |s.mints| && s.mints[k].id == id && s.mints[k].token == token;
      assert mints[k] == s.mints[k];
    }
  }

  lemma {:induction false} MintOkKept(s: State, t: nat, token: Token)
    requires Inv(s) && Enabled(s, MintOk(t, token))
    ensures Kept(Apply(s, MintOk(t, token)))
  {
    var r := Apply(s, MintOk(t, token));
    forall k | 0 <= k < |r.mints|
      ensures IsSpent(r.mints[k], r.clock) || IsCached(r.inner, r.mints[k]) || IsPending(r.tasks, r.mints[k])
    {
      if k == |s.mints| {
        assert r.tasks[t].token == r.mints[k].token;
      } else {
        assert r.mints[k] == s.mints[k];
        if IsPending(s.tasks, s.mints[k]) {
          PendingStays(s.tasks, r.tasks, s.mints[k]);
        }
      }
    }
  }

  lemma {:induction false} MintOkTasks(s: State, t: nat, token: Token)
    requires Inv(s) && Enabled(s, MintOk(t, token))
    ensures TasksOk(Apply(s, MintOk(t, token))) && SpacedOut(Apply(s, MintOk(t, token)).mints)
  {
    var r := Apply(s, MintOk(t, token));
    assert TaskOk(s.mints, s.clock, s.tasks[t]);
    forall u | u in r.tasks ensures TaskOk(r.mints, r.clock, r.tasks[u]) {
      assert TaskOk(s.mints, s.clock, s.tasks[u]);
    }
  }

  lemma {:induction false} MintOkKeeps(s: State, t: nat, token: Token)
    requires Inv(s) && Enabled(s, MintOk(t, token))
    ensures Inv(Apply(s, MintOk(t, token)))
  {
    MintOkKept(s, t, token);
    MintOkTasks(s, t, token);
    MoreMints(s, Mint(s.tasks[t].id, token, s.tasks[t].recheckAt));
  }

  lemma {:induction false} InsertKept(s: State, t: nat)
    requires Inv(s) && Enabled(s, Insert(t))
    ensures Kept(Apply(s, Insert(t)))
  {
    var r := Apply(s, Insert(t));
    assert TaskOk(s.mints, s.clock, s.tasks[t]);
    forall k | 0 <= k < |s.mints|
      ensures IsSpent(s.mints[k], r.clock) || IsCached(r.inner, s.mints[k]) || IsPending(r.tasks, s.mints[k])
    {
      if s.mints[k].id != s.tasks[t].id && IsPending(s.tasks, s.mints[k]) {
        var u :| u in s.tasks && s.tasks[u].Minted? && s.tasks[u].id == s.mints[k].id &&
                 s.tasks[u].token == s.mints[k].token;
        assert u in r.tasks && r.tasks[u] == s.tasks[u];
      }
    }
  }

  lemma {:induction false} InsertKeeps(s: State, t: nat)
    requires Inv(s) && Enabled(s, Insert(t))
    ensures Inv(Apply(s, Insert(t)))
  {
    InsertKept(s, t);
  }

  lemma {:induction false} EvictKeeps(s: State, id: Installation)
    requires Inv(s) && Enabled(s, Evict(id))
    ensures Inv(Apply(s, Evict(id)))
  {
  }

  lemma {:induction false} StepKeeps(s: State, step: Step)
    requires Inv(s) && Enabled(s, step)
    ensures Inv(Apply(s, step))
  {
    match step
    case Tick(elapsed) => TickKeeps(s, elapsed);
    case Call(t, id) => CallKeeps(s, t, id);
    case Acquire(t) => AcquireKeeps(s, t);
    case Recheck(t) => RecheckKeeps(s, t);
    case MintOk(t, token) => MintOkKeeps(s, t, token);
    case MintErr(t) => RemoveKeeps(s, t);
    case Insert(t) => InsertKeeps(s, t);
    case Cancel(t) => RemoveKeeps(s, t);
    case Evict(id) => EvictKeeps(s, id);
  }

  lemma {:induction false} RunKeeps(start: int, steps: seq<Step>)
    ensures Inv(Run(start, steps))
    decreases |steps|
  {
    if steps == [] {
    } else {
      var s := Run(start, steps[..|steps| - 1]);
      RunKeeps(start, steps[..|steps| - 1]);
      if Enabled(s, steps[|steps| - 1]) {
        StepKeeps(s, steps[|steps| - 1]);
      }
    }
  }

  // ---------------------------------------------------------------------------------------------
  // Over whole runs
  // ---------------------------------------------------------------------------------------------

  /** At most one mint of an installation is under way, and it found every earlier token spent. */
  lemma {:induction false} SingleFlight(start: int, steps: seq<Step>, t: nat)
    requires t in Run(start, steps).tasks && Run(start, steps).tasks[t].Minting?
    ensures var s := Run(start, steps);
      && (forall u | u in s.tasks && u != t && s.tasks[u].Minting? :: s.tasks[u].id != s.tasks[t].id)
      && (forall k | 0 <= k < |s.mints| && s.mints[k].id == s.tasks[t].id ::
            s.mints[k].token.expiresAt - s.tasks[t].recheckAt <= MARGIN)
  {
    RunKeeps(start, steps);
    var s := Run(start, steps);
    assert TaskOk(s.mints, s.clock, s.tasks[t]);
    assert forall k | 0 <= k < |s.mints| && s.mints[k].id == s.tasks[t].id :: IsSpent(s.mints[k], s.tasks[t].recheckAt);
  }

  /** Of two successful mints, the earlier token had at most the margin left at the later task's check. */
  lemma {:induction false} MintsAreSpacedOut(start: int, steps: seq<Step>, j: nat, k: nat)
    requires j < k < |Run(start, steps).mints|
    requires Run(start, steps).mints[j].id == Run(start, steps).mints[k].id
    ensures Run(start, steps).mints[j].token.expiresAt - Run(start, steps).mints[k].recheckAt <= MARGIN
  {
    RunKeeps(start, steps);
    assert IsSpent(Run(start, steps).mints[j], Run(start, steps).mints[k].recheckAt);
  }

  /** A cached answer was minted for that very installation and had more than the margin left. */
  lemma {:induction false} ServedIsGenuine(start: int, steps: seq<Step>, k: nat)
    requires k < |Run(start, steps).served|
    ensures var s := Run(start, steps);
      && s.served[k].token.expiresAt - s.served[k].at > MARGIN
      && WasMinted(s.mints, s.served[k].id, s.served[k].token)
  {
    RunKeeps(start, steps);
  }

  /** Spelled out: more than ten minutes were left, and no two tokens are minted until only ten minutes are. */
  lemma {:induction false} TenMinutes(start: int, steps: seq<Step>)
    ensures var s := Run(start, steps);
      && (forall k | 0 <= k < |s.served| :: s.served[k].token.expiresAt - s.served[k].at > 600_000_000_000)
      && forall j, k | 0 <= j < k < |s.mints| && s.mints[j].id == s.mints[k].id ::
           s.mints[j].token.expiresAt - s.mints[k].recheckAt <= 600_000_000_000
  {
    RunKeeps(start, steps);
    assert forall j, k | 0 <= j < k < |Run(start, steps).mints|
      && Run(start, steps).mints[j].id == Run(start, steps).mints[k].id ::
      IsSpent(Run(start, steps).mints[j], Run(start, steps).mints[k].recheckAt);
  }

  // Eviction

  /** No step takes away a token before it expires; only a newer one for the installation replaces it. */
  lemma {:induction false} UnexpiredStays(s: State, step: Step, id: Installation)
    requires Enabled(s, step) && id in s.inner && s.inner[id].expiresAt > s.clock
    ensures var r := Apply(s, step);
      id in r.inner && (r.inner[id] == s.inner[id] || (step.Insert? && s.tasks[step.task].id == id))
  {
  }

  function WithoutEvictions(steps: seq<Step>): seq<Step> {
    if steps == [] then []
    else
      var before := WithoutEvictions(steps[..|steps| - 1]);
      if steps[|steps| - 1].Evict? then before else before + [steps[|steps| - 1]]
  }

  /** The same but for evicted entries, which have expired. */
  predicate SameButEvicted(s: State, r: State) {
    && s.(inner := r.inner) == r
    && (forall id | id in s.inner :: id in r.inner && r.inner[id] == s.inner[id])
    && (forall id | id in r.inner && id !in s.inner :: r.inner[id].expiresAt <= s.clock)
  }

  lemma {:induction false} SameDecisions(s: State, r: State, id: Installation)
    requires SameButEvicted(s, r)
    ensures IsFresh(s.inner, id, s.clock) == IsFresh(r.inner, id, r.clock)
    ensures IsFresh(s.inner, id, s.clock) ==> s.inner[id] == r.inner[id]
  {
  }

  lemma {:induction false} SameStep(s: State, r: State, step: Step)
    requires SameButEvicted(s, r) && !step.Evict?
    ensures Enabled(s, step) == Enabled(r, step)
    ensures Enabled(s, step) ==> SameButEvicted(Apply(s, step), Apply(r, step))
  {
    match step
    case Call(_, id) => SameDecisions(s, r, id);
    case Recheck(t) =>
      if Enabled(s, step) {
        SameDecisions(s, r, s.tasks[t].id);
      }
    case Tick(_) =>
    case Acquire(_) =>
    case MintOk(_, _) =>
    case MintErr(_) =>
    case Insert(_) =>
    case Cancel(_) =>
  }

  /** Sweeping never costs a mint: with or without it the tasks, the mints and the answers are the same. */
  lemma {:induction false} EvictionIsInvisible(start: int, steps: seq<Step>)
    ensures SameButEvicted(Run(start, steps), Run(start, WithoutEvictions(steps)))
    decreases |steps|
  {
    if steps != [] {
      var prefix, step := steps[..|steps| - 1], steps[|steps| - 1];
      EvictionIsInvisible(start, prefix);
      if !step.Evict? {
        SameStep(Run(start, prefix), Run(start, WithoutEvictions(prefix)), step);
        assert WithoutEvictions(steps)[..|WithoutEvictions(steps)| - 1] == WithoutEvictions(prefix);
      }
    }
  }
}
