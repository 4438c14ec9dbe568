/**
 * The Kafka consumer watchdog (rb-kafka-health, watcher.rs). What the clock, the inner consumer and
 * the factory answer in each turn of the loop is an observation, and arbitrary.
 */
module Watchdog {
  import opened Prelude

  /** `maxErrorStreak` zero switches the error check off. */
  datatype Config = Config(stallTimeout: nat, maxErrorStreak: nat)

  /** The answer of a poll: a message or an error by name, or the end of the stream. */
  type Answer = Option<Result<string, string>>

  datatype Poll = Answered(answer: Answer) | TimedOut

  /** `now`: the clock at the top of the turn; `later`: at its end; `created`: the consumer the factory would make. */
  datatype Observation = Observation(now: int, poll: Poll, lag: nat, partitions: nat, created: Option<int>, later: int)

  datatype Dog = Dog(inner: int, lastRecv: int, recreateCount: nat, hadAssignment: bool, consecutiveErrors: nat)

  /** What one turn of the loop amounts to. */
  datatype Mark = Delivered | ErrorOut | EndOut | Created | CreateFailed | Quiet

  function SaturatingAdd(n: nat): nat {
    if n < U32_MAX then n + 1 else n
  }

  /** Time passed, never negative. */
  function Elapsed(since: int, now: int): nat {
    if now >= since then now - since else 0
  }

  /** The poll happens only while some of the stall timeout is left. */
  predicate IsPolled(cfg: Config, dog: Dog, o: Observation) {
    Elapsed(dog.lastRecv, o.now) < cfg.stallTimeout && o.poll.Answered?
  }

  predicate IsCascade(cfg: Config, errors: nat) {
    cfg.maxErrorStreak > 0 && errors >= cfg.maxErrorStreak
  }

  function Recreated(dog: Dog, o: Observation): (Dog, Mark) {
    if o.created.Some? then (Dog(o.created.value, o.later, dog.recreateCount + 1, false, 0), Created)
    else (dog, CreateFailed)
  }

  function Turn(cfg: Config, dog: Dog, o: Observation): (Dog, Mark) {
    if IsPolled(cfg, dog, o) then
      match o.poll.answer
      case None => (dog, EndOut)
      case Some(Ok(_)) => (dog.(lastRecv := o.later, consecutiveErrors := 0, hadAssignment := true), Delivered)
      case Some(Err(_)) =>
        var counted := dog.(consecutiveErrors := SaturatingAdd(dog.consecutiveErrors));
        if IsCascade(cfg, counted.consecutiveErrors) then Recreated(counted, o) else (counted, ErrorOut)
    else if o.lag > 0 || (dog.hadAssignment && o.partitions == 0) then Recreated(dog, o)
    else (dog.(lastRecv := o.later), Quiet)
  }

  function Fresh(inner: int, now: int): Dog {
    Dog(inner, now, 0, false, 0)
  }

  function After(cfg: Config, dog: Dog, os: seq<Observation>): Dog {
    if os == [] then dog else Turn(cfg, After(cfg, dog, os[..|os| - 1]), os[|os| - 1]).0
  }

  function Trace(cfg: Config, dog: Dog, os: seq<Observation>): (t: seq<Mark>)
    ensures |t| == |os|
  {
    if os == [] then []
    else Trace(cfg, dog, os[..|os| - 1]) + [Turn(cfg, After(cfg, dog, os[..|os| - 1]), os[|os| - 1]).1]
  }

  predicate Returns(m: Mark) {
    m.Delivered? || m.ErrorOut? || m.EndOut?
  }

  class HealthyConsumer {
    const config: Config
    var inner: int
    var lastRecv: int
    var recreateCount: nat
    var hadAssignment: bool
    var consecutiveErrors: nat

    function State(): Dog
      reads this
    {
      Dog(inner, lastRecv, recreateCount, hadAssignment, consecutiveErrors)
    }

    constructor (inner: int, config: Config, now: int)
      ensures this.config == config && State() == Fresh(inner, now)
    {
      this.inner, this.config, lastRecv := inner, config, now;
      recreateCount, hadAssignment, consecutiveErrors := 0, false, 0;
    }

    method DoRecreate(o: Observation) returns (ghost mark: Mark)
      modifies this
      ensures (State(), mark) == Recreated(old(State()), o)
    {
      match o.created
      case Some(newInner) =>
        inner := newInner;
        recreateCount := recreateCount + 1;
        lastRecv := o.later;
        hadAssignment := false;
        consecutiveErrors := 0;
        mark := Created;
      case None =>
        mark := CreateFailed;
    }

    /** One turn; `returned` when it ends the call, with the inner consumer's own answer. */
    method Once(o: Observation) returns (returned: bool, answer: Answer, ghost mark: Mark)
      modifies this
      ensures (State(), mark) == Turn(config, old(State()), o)
      ensures returned <==> Returns(mark)
      ensures returned ==> o.poll == Answered(answer)
    {
      answer := None;
      var elapsed := if o.now >= lastRecv then o.now - lastRecv else 0;
      if elapsed < config.stallTimeout && o.poll.Answered? {
        answer := o.poll.answer;
        if answer.Some? && answer.value.Ok? {
          lastRecv := o.later;
          consecutiveErrors := 0;
          hadAssignment := true;
          return true, answer, Delivered;
        }
        if answer.Some? {
          consecutiveErrors := SaturatingAdd(consecutiveErrors);
          if config.maxErrorStreak > 0 && consecutiveErrors >= config.maxErrorStreak {
            mark := DoRecreate(o);
            return false, answer, mark;
          }
          return true, answer, ErrorOut;
        }
        return true, answer, EndOut;
      }
      if o.lag > 0 {
        mark := DoRecreate(o);
      } else if hadAssignment {
        if o.partitions == 0 {
          mark := DoRecreate(o);
        } else {
          lastRecv := o.later;
          mark := Quiet;
        }
      } else {
        lastRecv := o.later;
        mark := Quiet;
      }
      return false, answer, mark;
    }

    /** The loop, over the observations to come: it stops at the first turn that answers, if any. */
    method Next(os: seq<Observation>) returns (answered: bool, answer: Answer, used: nat)
      modifies this
      ensures used <= |os| && State() == After(config, old(State()), os[..used])
      ensures var marks := Trace(config, old(State()), os[..used]);
        && (forall i | 0 <= i < used :: Returns(marks[i]) <==> answered && i == used - 1)
        && (answered ==> used > 0 && os[used - 1].poll == Answered(answer))
        && (!answered ==> used == |os|)
    {
      used, answered, answer := 0, false, None;
      assert os[..0] == [];
      while used < |os|
        invariant used <= |os| && State() == After(config, old(State()), os[..used])
        invariant forall i | 0 <= i < used :: !Returns(Trace(config, old(State()), os[..used])[i])
      {
        assert os[..used + 1][..used] == os[..used];
        ghost var mark;
        var returned, a;
        returned, a, mark := Once(os[used]);
        assert Trace(config, old(State()), os[..used + 1]) == Trace(config, old(State()), os[..used]) + [mark];
        used := used + 1;
        if returned {
          return true, a, used;
        }
      }
    }
  }

  // ---------------------------------------------------------------------------------------------
  // Over whole runs
  // ---------------------------------------------------------------------------------------------

  predicate IsReset(m: Mark) {
    m.Delivered? || m.Created?
  }

  function ErrorsIn(marks: seq<Mark>): nat {
    if marks == [] then 0
    else ErrorsIn(marks[..|marks| - 1]) + if marks[|marks| - 1].ErrorOut? then 1 else 0
  }

  function ErrorsSinceReset(marks: seq<Mark>): nat {
    if marks == [] || IsReset(marks[|marks| - 1]) then 0
    else ErrorsSinceReset(marks[..|marks| - 1]) + if marks[|marks| - 1].ErrorOut? then 1 else 0
  }

  lemma {:induction false} TracePrefix(cfg: Config, dog: Dog, os: seq<Observation>, k: nat)
    requires k <= |os|
    ensures Trace(cfg, dog, os)[..k] == Trace(cfg, dog, os[..k])
    decreases |os|
  {
    if k == |os| {
      assert os[..k] == os;
    } else {
      TracePrefix(cfg, dog, os[..|os| - 1], k);
      assert os[..|os| - 1][..k] == os[..k];
    }
  }

  lemma {:induction false} StreakIsShort(cfg: Config, inner: int, start: int, os: seq<Observation>)
    requires 0 < cfg.maxErrorStreak <= U32_MAX
    ensures var errors := ErrorsSinceReset(Trace(cfg, Fresh(inner, start), os));
      errors < cfg.maxErrorStreak && errors <= After(cfg, Fresh(inner, start), os).consecutiveErrors <= U32_MAX
    decreases |os|
  {
    if os != [] {
      StreakIsShort(cfg, inner, start, os[..|os| - 1]);
      var t := Trace(cfg, Fresh(inner, start), os);
      assert t[..|t| - 1] == Trace(cfg, Fresh(inner, start), os[..|os| - 1]);
    }
  }

  lemma {:induction false} WindowIsSinceReset(marks: seq<Mark>, i: nat)
    requires i <= |marks| && forall k | i <= k < |marks| :: !IsReset(marks[k])
    ensures ErrorsIn(marks[i..]) <= ErrorsSinceReset(marks)
    decreases |marks|
  {
    if i < |marks| {
      WindowIsSinceReset(marks[..|marks| - 1], i);
      assert marks[i..][..|marks| - i - 1] == marks[..|marks| - 1][i..];
    }
  }

  /** In any stretch of a run without a message or a new consumer, fewer errors than the limit reach the caller. */
  lemma {:induction false} FewErrorsBetweenResets(cfg: Config, inner: int, start: int, os: seq<Observation>, i: nat,
                                                  j: nat)
    requires 0 < cfg.maxErrorStreak <= U32_MAX && i <= j <= |os|
    requires forall k | i <= k < j :: !IsReset(Trace(cfg, Fresh(inner, start), os)[k])
    ensures ErrorsIn(Trace(cfg, Fresh(inner, start), os)[i..j]) < cfg.maxErrorStreak
  {
    var t := Trace(cfg, Fresh(inner, start), os);
    TracePrefix(cfg, Fresh(inner, start), os, j);
    StreakIsShort(cfg, inner, start, os[..j]);
    WindowIsSinceReset(t[..j], i);
    assert t[..j][i..] == t[i..j];
  }

  /** Before the first message, with no lag and no errors, the watchdog leaves the consumer alone. */
  lemma {:induction false} StartupIsLeftAlone(cfg: Config, inner: int, start: int, os: seq<Observation>)
    requires forall k | 0 <= k < |os| :: os[k].lag == 0 && (os[k].poll.TimedOut? || os[k].poll.answer.None?)
    ensures forall m | m in Trace(cfg, Fresh(inner, start), os) :: m.Quiet? || m.EndOut?
    ensures After(cfg, Fresh(inner, start), os).inner == inner && !After(cfg, Fresh(inner, start), os).hadAssignment
    decreases |os|
  {
    if os == [] {
    } else {
      StartupIsLeftAlone(cfg, inner, start, os[..|os| - 1]);
    }
  }

  function CountCreated(marks: seq<Mark>): nat {
    if marks == [] then 0
    else CountCreated(marks[..|marks| - 1]) + if marks[|marks| - 1].Created? then 1 else 0
  }

  /** A message was delivered since the last new consumer. */
  predicate HasDelivered(marks: seq<Mark>) {
    marks != [] && !marks[|marks| - 1].Created? && (marks[|marks| - 1].Delivered? || HasDelivered(marks[..|marks| - 1]))
  }

  /** The consumer in use: the last one the factory made. */
  function CurrentInner(inner: int, os: seq<Observation>, marks: seq<Mark>): int
    requires |marks| == |os|
  {
    if os == [] then inner
    else if marks[|os| - 1].Created? && os[|os| - 1].created.Some? then os[|os| - 1].created.value
    else CurrentInner(inner, os[..|os| - 1], marks[..|os| - 1])
  }

  lemma {:induction false} CounterIsRight(cfg: Config, inner: int, start: int, os: seq<Observation>)
    ensures After(cfg, Fresh(inner, start), os).recreateCount == CountCreated(Trace(cfg, Fresh(inner, start), os))
    decreases |os|
  {
    if os == [] {
    } else {
      CounterIsRight(cfg, inner, start, os[..|os| - 1]);
      var t := Trace(cfg, Fresh(inner, start), os);
      assert t[..|t| - 1] == Trace(cfg, Fresh(inner, start), os[..|os| - 1]);
    }
  }

  lemma {:induction false} FlagIsRight(cfg: Config, inner: int, start: int, os: seq<Observation>)
    ensures After(cfg, Fresh(inner, start), os).hadAssignment <==> HasDelivered(Trace(cfg, Fresh(inner, start), os))
    decreases |os|
  {
    if os == [] {
    } else {
      FlagIsRight(cfg, inner, start, os[..|os| - 1]);
      var t := Trace(cfg, Fresh(inner, start), os);
      assert t[..|t| - 1] == Trace(cfg, Fresh(inner, start), os[..|os| - 1]);
    }
  }

  lemma {:induction false} TurnSetsInner(cfg: Config, dog: Dog, o: Observation)
    ensures Turn(cfg, dog, o).0.inner ==
      if Turn(cfg, dog, o).1.Created? && o.created.Some? then o.created.value else dog.inner
    ensures Turn(cfg, dog, o).1.Created? ==> o.created.Some?
  {
  }

  lemma {:induction false} InnerIsRight(cfg: Config, inner: int, start: int, os: seq<Observation>)
    ensures After(cfg, Fresh(inner, start), os).inner == CurrentInner(inner, os, Trace(cfg, Fresh(inner, start), os))
    decreases |os|
  {
    if os == [] {
    } else {
      var before := os[..|os| - 1];
      InnerIsRight(cfg, inner, start, before);
      TurnSetsInner(cfg, After(cfg, Fresh(inner, start), before), os[|os| - 1]);
      var t := Trace(cfg, Fresh(inner, start), os);
      assert t[..|t| - 1] == Trace(cfg, Fresh(inner, start), before);
    }
  }

  /** The counter is the number of consumers made, and the flag says whether the one in use has delivered. */
  lemma {:induction false} BookkeepingIsRight(cfg: Config, inner: int, start: int, os: seq<Observation>)
    ensures var t := Trace(cfg, Fresh(inner, start), os);
      var dog := After(cfg, Fresh(inner, start), os);
      && dog.recreateCount == CountCreated(t)
      && (dog.hadAssignment <==> HasDelivered(t))
      && dog.inner == CurrentInner(inner, os, t)
  {
    CounterIsRight(cfg, inner, start, os);
    FlagIsRight(cfg, inner, start, os);
    InnerIsRight(cfg, inner, start, os);
  }

  predicate SetsClock(m: Mark) {
    m.Delivered? || m.Created? || m.Quiet?
  }

  /** When the stall clock was last set: by a message, a new consumer or a quiet check. */
  function LastProgress(start: int, os: seq<Observation>, marks: seq<Mark>): int
    requires |marks| == |os|
  {
    if os == [] then start
    else if SetsClock(marks[|os| - 1]) then os[|os| - 1].later
    else LastProgress(start, os[..|os| - 1], marks[..|os| - 1])
  }

  lemma {:induction false} TurnSetsClock(cfg: Config, dog: Dog, o: Observation)
    ensures Turn(cfg, dog, o).0.lastRecv == if SetsClock(Turn(cfg, dog, o).1) then o.later else dog.lastRecv
  {
  }

  lemma {:induction false} ClockIsLastProgress(cfg: Config, inner: int, start: int, os: seq<Observation>)
    ensures After(cfg, Fresh(inner, start), os).lastRecv == LastProgress(start, os, Trace(cfg, Fresh(inner, start), os))
    decreases |os|
  {
    if os == [] {
    } else {
      var before := os[..|os| - 1];
      ClockIsLastProgress(cfg, inner, start, before);
      TurnSetsClock(cfg, After(cfg, Fresh(inner, start), before), os[|os| - 1]);
      var t := Trace(cfg, Fresh(inner, start), os);
      assert t[..|t| - 1] == Trace(cfg, Fresh(inner, start), before);
    }
  }

  /** The streak counts the errors since the last reset; the one that reaches the limit does not reach the caller. */
  predicate IsCounted(cfg: Config, streak: nat, marks: seq<Mark>)
    requires cfg.maxErrorStreak > 0
  {
    streak <= U32_MAX &&
    ErrorsSinceReset(marks) == if streak < cfg.maxErrorStreak then streak else cfg.maxErrorStreak - 1
  }

  lemma {:induction false} TurnCounts(cfg: Config, dog: Dog, o: Observation, marks: seq<Mark>)
    requires 0 < cfg.maxErrorStreak <= U32_MAX && IsCounted(cfg, dog.consecutiveErrors, marks)
    ensures IsCounted(cfg, Turn(cfg, dog, o).0.consecutiveErrors, marks + [Turn(cfg, dog, o).1])
  {
    assert (marks + [Turn(cfg, dog, o).1])[..|marks|] == marks;
  }

  lemma {:induction false} StreakIsCounted(cfg: Config, inner: int, start: int, os: seq<Observation>)
    requires 0 < cfg.maxErrorStreak <= U32_MAX
    ensures IsCounted(cfg, After(cfg, Fresh(inner, start), os).consecutiveErrors, Trace(cfg, Fresh(inner, start), os))
    decreases |os|
  {
    if os == [] {
    } else {
      var before := os[..|os| - 1];
      StreakIsCounted(cfg, inner, start, before);
      TurnCounts(cfg, After(cfg, Fresh(inner, start), before), os[|os| - 1], Trace(cfg, Fresh(inner, start), before));
    }
  }

  predicate IsError(o: Observation) {
    o.poll.Answered? && o.poll.answer.Some? && o.poll.answer.value.Err?
  }

  /** Nothing came for the whole stall timeout, by the history alone. */
  predicate IsStalled(cfg: Config, start: int, os: seq<Observation>, marks: seq<Mark>, o: Observation)
    requires |marks| == |os|
  {
    o.poll.TimedOut? || Elapsed(LastProgress(start, os, marks), o.now) >= cfg.stallTimeout
  }

  /**
   * A turn tries to recreate the consumer exactly for one of the three causes: one more error would
   * reach the limit, or a stall with lag, or a stall of a consumer that has delivered and lost its
   * partitions. A limit of zero is never reached.
   */
  lemma {:induction false} RecreatesExactly(cfg: Config, inner: int, start: int, os: seq<Observation>, o: Observation)
    requires cfg.maxErrorStreak <= U32_MAX
    ensures var t := Trace(cfg, Fresh(inner, start), os);
      var m := Turn(cfg, After(cfg, Fresh(inner, start), os), o).1;
      (m.Created? || m.CreateFailed?) <==>
        if IsStalled(cfg, start, os, t, o) then o.lag > 0 || (HasDelivered(t) && o.partitions == 0)
        else IsError(o) && ErrorsSinceReset(t) == cfg.maxErrorStreak - 1
  {
    ClockIsLastProgress(cfg, inner, start, os);
    if cfg.maxErrorStreak > 0 {
      StreakIsCounted(cfg, inner, start, os);
    }
    BookkeepingIsRight(cfg, inner, start, os);
  }

  // ---------------------------------------------------------------------------------------------
  // What the caller gets
  // ---------------------------------------------------------------------------------------------

  /** After this history the next turn ends the call: the poll came in time, and brought no error at the limit. */
  predicate IsAnswered(cfg: Config, start: int, os: seq<Observation>, marks: seq<Mark>, o: Observation)
    requires |marks| == |os|
  {
    !IsStalled(cfg, start, os, marks, o) && (IsError(o) ==> ErrorsSinceReset(marks) != cfg.maxErrorStreak - 1)
  }

  /**
   * What each turn amounts to, by the history: a message in time is delivered, and nothing else is; the end
   * of the stream is passed on; an error is, unless it reaches the limit; a stall never is.
   */
  lemma {:induction false} TurnsAreRight(cfg: Config, inner: int, start: int, os: seq<Observation>, o: Observation)
    requires cfg.maxErrorStreak <= U32_MAX
    ensures var t := Trace(cfg, Fresh(inner, start), os);
      var m := Turn(cfg, After(cfg, Fresh(inner, start), os), o).1;
      var inTime := !IsStalled(cfg, start, os, t, o);
      && (m.Delivered? <==> inTime && o.poll.answer.Some? && o.poll.answer.value.Ok?)
      && (m.EndOut? <==> inTime && o.poll.answer.None?)
      && (m.ErrorOut? <==> inTime && IsError(o) && ErrorsSinceReset(t) != cfg.maxErrorStreak - 1)
      && (Returns(m) <==> IsAnswered(cfg, start, os, t, o))
  {
    ClockIsLastProgress(cfg, inner, start, os);
    if cfg.maxErrorStreak > 0 {
      StreakIsCounted(cfg, inner, start, os);
    }
    MarkOf(cfg, After(cfg, Fresh(inner, start), os), o);
  }

  lemma {:induction false} MarkOf(cfg: Config, dog: Dog, o: Observation)
    ensures var m, polled := Turn(cfg, dog, o).1, IsPolled(cfg, dog, o);
      && (m.Delivered? <==> polled && o.poll.answer.Some? && o.poll.answer.value.Ok?)
      && (m.EndOut? <==> polled && o.poll.answer.None?)
      && (m.ErrorOut? <==> polled && IsError(o) && !IsCascade(cfg, SaturatingAdd(dog.consecutiveErrors)))
  {
  }

  lemma {:induction false} AfterConcat(cfg: Config, dog: Dog, a: seq<Observation>, b: seq<Observation>)
    ensures After(cfg, dog, a + b) == After(cfg, After(cfg, dog, a), b)
    ensures Trace(cfg, dog, a + b) == Trace(cfg, dog, a) + Trace(cfg, After(cfg, dog, a), b)
    decreases |b|
  {
    if b == [] {
      assert a + b == a;
    } else {
      assert (a + b)[..|a + b| - 1] == a + b[..|b| - 1];
      AfterConcat(cfg, dog, a, b[..|b| - 1]);
    }
  }

  /**
   * A call behind any history answers at the first observation that the history calls answered, with what
   * that one brought: `used` and `answered` as `Next` ensures them.
   */
  lemma {:induction false} NextAnswersFirst(cfg: Config, inner: int, start: int, before: seq<Observation>,
                                            os: seq<Observation>, used: nat, answered: bool, i: nat)
    requires cfg.maxErrorStreak <= U32_MAX && i < used <= |os| && (!answered ==> used == |os|)
    requires var marks := Trace(cfg, After(cfg, Fresh(inner, start), before), os[..used]);
      forall k | 0 <= k < used :: Returns(marks[k]) <==> answered && k == used - 1
    ensures var history := before + os[..i];
      IsAnswered(cfg, start, history, Trace(cfg, Fresh(inner, start), history), os[i]) <==> answered && i == used - 1
  {
    var dog, history := Fresh(inner, start), before + os[..i];
    TurnsAreRight(cfg, inner, start, history, os[i]);
    AfterConcat(cfg, dog, before, os[..i]);
    TracePrefix(cfg, After(cfg, dog, before), os[..used], i + 1);
    assert os[..used][..i + 1] == os[..i + 1];
    MarkAt(cfg, After(cfg, dog, before), os, i);
  }

  lemma {:induction false} MarkAt(cfg: Config, dog: Dog, os: seq<Observation>, i: nat)
    requires i < |os|
    ensures Trace(cfg, dog, os[..i + 1])[i] == Turn(cfg, After(cfg, dog, os[..i]), os[i]).1
  {
    assert os[..i + 1][..i] == os[..i];
  }
}
