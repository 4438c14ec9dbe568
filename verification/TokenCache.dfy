/**
 * The installation-token cache (rb-github, token_cache.rs): any number of tasks check, queue for the
 * installation's lock, check again, mint and insert, while a sweep evicts and the clock moves on.
 * Times are nanoseconds; what the minter answers, and when, is arbitrary.
 */
module TokenCache {
  import opened Prelude

  const SECOND := 1_000_000_000
  const MARGIN := 10 * 60 * SECOND

  type Installation = int

  datatype Token = Token(secret: string, expiresAt: int)

  type Entries = map<Installation, Token>

  predicate IsFresh(inner: Entries, id: Installation, now: int) {
    id in inner && inner[id].expiresAt - now > MARGIN
  }

  /** What one sweep may drop: entries past expiry at its reading of the clock. */
  function Swept(inner: Entries, now: int): Entries {
    map id | id in inner && inner[id].expiresAt > now :: inner[id]
  }

  // ---------------------------------------------------------------------------------------------
  // One call at a time
  // ---------------------------------------------------------------------------------------------

  class Cache {
    var inner: Entries

    constructor ()
      ensures inner == map[]
    {
      inner := map[];
    }

    method ReadFresh(id: Installation, now: int) returns (r: Option<string>)
      ensures r == if IsFresh(inner, id, now) then Some(inner[id].secret) else None
    {
      if id !in inner {
        return None;
      }
      var remaining := inner[id].expiresAt - now;
      return if remaining > MARGIN then Some(inner[id].secret) else None;
    }

    method EvictExpired(now: int)
      modifies this
      ensures inner == Swept(old(inner), now)
      ensures forall id :: id in inner <==> id in old(inner) && old(inner)[id].expiresAt > now
      ensures forall id | id in inner :: inner[id] == old(inner)[id]
      ensures forall id, later | later >= now :: IsFresh(inner, id, later) == IsFresh(old(inner), id, later)
    {
      inner := Swept(inner, now);
    }

    /** `first`, `second`: the clock at the two checks; `answer`: what the minter would say. */
    method GetOrMint(id: Installation, first: int, second: int, answer: Result<Token, string>)
      returns (r: Result<string, string>, minted: bool)
      modifies this
      ensures minted <==> !IsFresh(old(inner), id, first) && !IsFresh(old(inner), id, second)
      ensures !minted ==> inner == old(inner) && id in inner && r == Ok(inner[id].secret)
      ensures minted && answer.Ok? ==> inner == old(inner)[id := answer.value] && r == Ok(answer.value.secret)
      ensures minted && answer.Err? ==> inner == old(inner) && r == Err(answer.error)
    {
      var cached := ReadFresh(id, first);
      if cached.Some? {
        return Ok(cached.value), false;
      }
      cached := ReadFresh(id, second);
      if cached.Some? {
        return Ok(cached.value), false;
      }
      match answer
      case Ok(token) =>
        inner := inner[id := token];
        return Ok(token.secret), true;
      case Err(e) =>
        return Err(e), true;
    }
  }

  // ---------------------------------------------------------------------------------------------
  // All interleavings
  // ---------------------------------------------------------------------------------------------

  /** A task inside a call. `recheckAt`: the clock at its check under the lock. */
  datatype Task =
    | Queued(id: Installation)
    | Holding(id: Installation)
    | Minting(id: Installation, recheckAt: int)
    | Minted(id: Installation, recheckAt: int, token: Token)

  datatype Mint = Mint(id: Installation, token: Token, recheckAt: int)

  /** An answer given without minting. */
  datatype Served = Served(id: Installation, token: Token, at: int)

  datatype State = State(clock: int, inner: Entries, tasks: map<nat, Task>, mints: seq<Mint>, served: seq<Served>)

  datatype Step =
    | Tick(elapsed: nat)
    | Call(task: nat, id: Installation)
    | Acquire(task: nat)
    | Recheck(task: nat)
    | MintOk(task: nat, token: Token)
    | MintErr(task: nat)
    | Insert(task: nat)
    | Cancel(task: nat)
    | Evict(id: Installation)

  predicate Owns(tasks: map<nat, Task>, t: nat, id: Installation) {
    t in tasks && !tasks[t].Queued? && tasks[t].id == id
  }

  predicate IsFree(tasks: map<nat, Task>, id: Installation) {
    forall t | t in tasks :: !Owns(tasks, t, id)
  }

  predicate Enabled(s: State, step: Step) {
    match step
    case Tick(_) => true
    case Call(t, _) => t !in s.tasks
    case Acquire(t) => t in s.tasks && s.tasks[t].Queued? && IsFree(s.tasks, s.tasks[t].id)
    case Recheck(t) => t in s.tasks && s.tasks[t].Holding?
    case MintOk(t, _) => t in s.tasks && s.tasks[t].Minting?
    case MintErr(t) => t in s.tasks && s.tasks[t].Minting?
    case Insert(t) => t in s.tasks && s.tasks[t].Minted?
    // Between the minter's answer and the insert there is no await, so no cancellation.
    case Cancel(t) => t in s.tasks && !s.tasks[t].Minted?
    // A sweep compares with a reading of the clock that may be old by now.
    case Evict(id) => id in s.inner && s.inner[id].expiresAt <= s.clock
  }

  function Apply(s: State, step: Step): State
    requires Enabled(s, step)
  {
    match step
    case Tick(elapsed) => s.(clock := s.clock + elapsed)
    case Call(t, id) =>
      if IsFresh(s.inner, id, s.clock) then s.(served := s.served + [Served(id, s.inner[id], s.clock)])
      else s.(tasks := s.tasks[t := Queued(id)])
    case Acquire(t) => s.(tasks := s.tasks[t := Holding(s.tasks[t].id)])
    case Recheck(t) =>
      var id := s.tasks[t].id;
      if IsFresh(s.inner, id, s.clock) then
        s.(tasks := s.tasks - {t}, served := s.served + [Served(id, s.inner[id], s.clock)])
      else s.(tasks := s.tasks[t := Minting(id, s.clock)])
    case MintOk(t, token) =>
      var task := s.tasks[t];
      s.(tasks := s.tasks[t := Minted(task.id, task.recheckAt, token)],
         mints := s.mints + [Mint(task.id, token, task.recheckAt)])
    case MintErr(t) => s.(tasks := s.tasks - {t})
    case Insert(t) => s.(inner := s.inner[s.tasks[t].id := s.tasks[t].token], tasks := s.tasks - {t})
    case Cancel(t) => s.(tasks := s.tasks - {t})
    case Evict(id) => s.(inner := s.inner - {id})
  }

  /** Any interleaving from an empty cache: a step that is not enabled is skipped. */
  function Run(start: int, steps: seq<Step>): State {
    if steps == [] then State(start, map[], map[], [], [])
    else
      var s := Run(start, steps[..|steps| - 1]);
      var step := steps[|steps| - 1];
      if Enabled(s, step) then Apply(s, step) else s
  }

  // ---------------------------------------------------------------------------------------------
  // What every step keeps
  // ---------------------------------------------------------------------------------------------

  predicate IsSpent(m: Mint, time: int) {
    m.token.expiresAt - time <= MARGIN
  }

  predicate Exclusive(tasks: map<nat, Task>) {
    forall t, u | t in tasks && u in tasks && t != u && !tasks[t].Queued? && !tasks[u].Queued? ::
      tasks[t].id != tasks[u].id
  }

  predicate AllSpent(mints: seq<Mint>, id: Installation, time: int) {
    forall k | 0 <= k < |mints| && mints[k].id == id :: IsSpent(mints[k], time)
  }

  /** A minting task found every earlier token of its installation spent. */
  predicate TaskOk(mints: seq<Mint>, clock: int, task: Task) {
    match task
    case Minting(id, at) => at <= clock && AllSpent(mints, id, at)
    case Minted(id, at, token) =>
      at <= clock && forall k | 0 <= k < |mints| && mints[k].id == id ::
        mints[k].token == token || IsSpent(mints[k], at)
    case Queued(_) => true
    case Holding(_) => true
  }

  predicate IsPending(tasks: map<nat, Task>, m: Mint) {
    exists t :: t in tasks && tasks[t].Minted? && tasks[t].id == m.id && tasks[t].token == m.token
  }

  predicate IsCached(inner: Entries, m: Mint) {
    m.id in inner && inner[m.id] == m.token
  }

  /** Every minted token is spent, or cached, or about to be. */
  predicate Kept(s: State) {
    forall k | 0 <= k < |s.mints| ::
      IsSpent(s.mints[k], s.clock) || IsCached(s.inner, s.mints[k]) || IsPending(s.tasks, s.mints[k])
  }

  predicate TasksOk(s: State) {
    forall t | t in s.tasks :: TaskOk(s.mints, s.clock, s.tasks[t])
  }

  predicate SpacedOut(mints: seq<Mint>) {
    forall j, k | 0 <= j < k < |mints| && mints[j].id == mints[k].id :: IsSpent(mints[j], mints[k].recheckAt)
  }

  predicate WasMinted(mints: seq<Mint>, id: Installation, token: Token) {
    exists k :: 0 <= k < |mints| && mints[k].id == id && mints[k].token == token
  }

  predicate FromMinter(s: State) {
    && (forall id | id in s.inner :: WasMinted(s.mints, id, s.inner[id]))
    && (forall t | t in s.tasks && s.tasks[t].Minted? :: WasMinted(s.mints, s.tasks[t].id, s.tasks[t].token))
  }

  predicate ServedOk(mints: seq<Mint>, served: seq<Served>) {
    forall k | 0 <= k < |served| ::
      served[k].token.expiresAt - served[k].at > MARGIN && WasMinted(mints, served[k].id, served[k].token)
  }

  predicate Inv(s: State) {
    && Exclusive(s.tasks) && Kept(s) && TasksOk(s) && SpacedOut(s.mints) && FromMinter(s) && ServedOk(s.mints, s.served)
  }
}
