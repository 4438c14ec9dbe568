/**
 * The errors that gets answer, in any interleaving (rb-blob, filesystem.rs). A get reads the blob in one
 * step and lists the markers in a later one; what happens in between decides whether its answer is right.
 */
module BlobAnswers {
  import opened Prelude
  import opened BlobPaths
  import opened BlobStore
  import opened BlobCrash
  import opened BlobReports

  /** The gets that missed the blob of `key`. */
  function MissedBy(tasks: map<nat, Task>, key: Key): set<nat> {
    set t | t in tasks && tasks[t] == Missed(key)
  }

  /** How a step changes the set of gets that missed, and for whose blob a put has completed since. */
  function Overtaken(s: State, late: set<nat>, step: Step): set<nat> {
    match step
    case Rename(t) => if t in s.tasks then late + MissedBy(s.tasks, s.tasks[t].key) else late
    case RemoveBlob(t) => if t in s.tasks then late - MissedBy(s.tasks, s.tasks[t].key) else late
    case ListMarkers(t) => late - {t}
    case Fail(t) => late - {t}
    case Crash => {}
    case _ => late
  }

  /** Gets that missed, and for whose blob a put has completed since, with no delete after it. */
  function PutSince(cfg: Config, steps: seq<Step>): set<nat> {
    if steps == [] then {}
    else
      var before, step := steps[..|steps| - 1], steps[|steps| - 1];
      if Enabled(cfg, Run(cfg, before), step) then Overtaken(Run(cfg, before), PutSince(cfg, before), step)
      else PutSince(cfg, before)
  }

  ghost predicate IsPutSince(s: State, late: set<nat>) {
    forall t :: t in late <==> t in s.tasks && s.tasks[t].Missed? && s.tasks[t].key in s.blobs
  }

  lemma {:induction false} PutSinceStep(cfg: Config, s: State, late: set<nat>, step: Step)
    requires Enabled(cfg, s, step) && IsPutSince(s, late)
    ensures IsPutSince(Apply(cfg, s, step), Overtaken(s, late, step))
  {
  }

  lemma {:induction false} PutSinceIs(cfg: Config, steps: seq<Step>)
    ensures IsPutSince(Run(cfg, steps), PutSince(cfg, steps))
    decreases |steps|
  {
    if steps == [] {
    } else {
      var before, step := steps[..|steps| - 1], steps[|steps| - 1];
      PutSinceIs(cfg, before);
      if Enabled(cfg, Run(cfg, before), step) {
        PutSinceStep(cfg, Run(cfg, before), PutSince(cfg, before), step);
      }
    }
  }

  /** The tenant has no such blob, and another one has exactly when the answer says so. */
  predicate IsRightAnswer(s: State, asked: Key, error: Error) {
    asked !in s.blobs && (error == TenantMismatch <==> OtherOwner(s.blobs.Keys, asked))
  }

  /**
   * The error that a get answers is right exactly when no put of its own blob came in between, and another
   * tenant has the content or none has it half.
   */
  lemma {:induction false} AnswerIsRightExactly(cfg: Config, steps: seq<Step>, t: nat)
    requires IsExclusive(cfg) && Enabled(cfg, Run(cfg, steps), ListMarkers(t))
    ensures var s := Run(cfg, steps);
      var r, asked, error := Apply(cfg, s, ListMarkers(t)), s.tasks[t].key, Missing(s.markers, s.tasks[t].key);
      && r.answers == s.answers + [Answer(asked, Err(error))]
      && (IsRightAnswer(r, asked, error) <==>
           t !in PutSince(cfg, steps) &&
           (OtherOwner(s.blobs.Keys, asked) || !HalfOwned(s, Abandoned(cfg, steps), asked)))
  {
    PutSinceIs(cfg, steps);
    ReportIsRightExactly(cfg, steps, Run(cfg, steps).tasks[t].key);
  }

  lemma {:induction false} AnswerAdded(cfg: Config, s: State, step: Step)
    requires Enabled(cfg, s, step)
    ensures var answers := Apply(cfg, s, step).answers;
      && s.answers <= answers && |answers| <= |s.answers| + 1
      && (|answers| > |s.answers| && answers[|s.answers|].result.Err? ==> step.ListMarkers?)
  {
  }

  lemma {:induction false} LastAnswer(cfg: Config, steps: seq<Step>, before: seq<Step>, step: Step)
    requires steps != [] && before == steps[..|steps| - 1] && step == steps[|steps| - 1]
    ensures var was, now := Run(cfg, before).answers, Run(cfg, steps).answers;
      && was <= now && |now| <= |was| + 1
      && (|now| > |was| ==> Enabled(cfg, Run(cfg, before), step) && (now[|was|].result.Err? ==> step.ListMarkers?))
  {
    if Enabled(cfg, Run(cfg, before), step) {
      AnswerAdded(cfg, Run(cfg, before), step);
    }
  }

  lemma {:induction false} SamePrefix(a: seq<Answer>, b: seq<Answer>, c: seq<Answer>, n: nat)
    requires b <= c && n <= |a| && n <= |b| && a[..n] == b[..n]
    ensures a[..n] == c[..n]
  {
    assert b[..n] == c[..n];
  }

  /** Every recorded error was answered by such a step. */
  lemma {:induction false} ErrorsAreListed(cfg: Config, steps: seq<Step>, i: nat) returns (n: nat)
    requires i < |Run(cfg, steps).answers| && Run(cfg, steps).answers[i].result.Err?
    ensures n < |steps| && steps[n].ListMarkers? && Enabled(cfg, Run(cfg, steps[..n]), steps[n])
    ensures |Run(cfg, steps[..n]).answers| == i && |Run(cfg, steps[..n + 1]).answers| == i + 1
    ensures Run(cfg, steps[..n + 1]).answers[..i + 1] == Run(cfg, steps).answers[..i + 1]
    decreases |steps|
  {
    assert steps != [];
    var before, step := steps[..|steps| - 1], steps[|steps| - 1];
    LastAnswer(cfg, steps, before, step);
    if i < |Run(cfg, before).answers| {
      n := ErrorsAreListed(cfg, before, i);
      assert before[..n] == steps[..n] && before[..n + 1] == steps[..n + 1];
      SamePrefix(Run(cfg, steps[..n + 1]).answers, Run(cfg, before).answers, Run(cfg, steps).answers, i + 1);
    } else {
      n := |steps| - 1;
      assert steps[..n + 1] == steps;
    }
  }

  /** Somewhere in `between`, a put of `key` completes. */
  predicate PutCompletes(cfg: Config, before: seq<Step>, between: seq<Step>, key: Key) {
    exists i :: 0 <= i < |between| && IsCompletion(cfg, before + between[..i], between[i], key)
  }

  predicate IsCompletion(cfg: Config, steps: seq<Step>, step: Step, key: Key) {
    step.Rename? && Enabled(cfg, Run(cfg, steps), step) && Run(cfg, steps).tasks[step.task].key == key
  }

  lemma {:induction false} NotCompleted(cfg: Config, before: seq<Step>, between: seq<Step>, less: seq<Step>, step: Step,
                                        key: Key)
    requires between == less + [step] && !PutCompletes(cfg, before, between, key)
    ensures !PutCompletes(cfg, before, less, key) && !IsCompletion(cfg, before + less, step, key)
  {
    assert between[..|less|] == less && between[|less|] == step;
    forall i | 0 <= i < |less| ensures !IsCompletion(cfg, before + less[..i], less[i], key) {
      assert less[..i] == between[..i] && between[i] == less[i];
    }
  }

  predicate IsLeftAlone(t: nat, steps: seq<Step>) {
    forall i | 0 <= i < |steps| :: steps[i] != Fail(t) && steps[i] != Crash && steps[i] != ListMarkers(t)
  }

  lemma {:induction false} LeftAloneParts(t: nat, less: seq<Step>, step: Step)
    requires IsLeftAlone(t, less + [step])
    ensures IsLeftAlone(t, less) && IsLeftAlone(t, [step])
  {
    assert (less + [step])[|less|] == step;
    assert forall i | 0 <= i < |less| :: (less + [step])[i] == less[i];
  }

  lemma {:induction false} MissedStays(cfg: Config, steps: seq<Step>, step: Step, t: nat)
    requires t in Run(cfg, steps).tasks && Run(cfg, steps).tasks[t].Missed? && IsLeftAlone(t, [step])
    ensures var s, r := Run(cfg, steps), Run(cfg, steps + [step]); t in r.tasks && r.tasks[t] == s.tasks[t]
    ensures t !in PutSince(cfg, steps) && !IsCompletion(cfg, steps, step, Run(cfg, steps).tasks[t].key) ==>
      t !in PutSince(cfg, steps + [step])
  {
    assert [step][0] == step;
    assert (steps + [step])[..|steps|] == steps;
  }

  /** A get that has just missed, and is not overtaken by a put of its own blob, finds it still missing at the end. */
  lemma {:induction false} NotOvertaken(cfg: Config, before: seq<Step>, between: seq<Step>, t: nat)
    requires t in Run(cfg, before).tasks && Run(cfg, before).tasks[t].Missed? && t !in PutSince(cfg, before)
    requires IsLeftAlone(t, between) && !PutCompletes(cfg, before, between, Run(cfg, before).tasks[t].key)
    ensures var r := Run(cfg, before + between); t in r.tasks && r.tasks[t] == Run(cfg, before).tasks[t]
    ensures t !in PutSince(cfg, before + between)
    decreases |between|
  {
    if between == [] {
      assert before + between == before;
    } else {
      var less, step := between[..|between| - 1], between[|between| - 1];
      var key := Run(cfg, before).tasks[t].key;
      assert between == less + [step];
      NotCompleted(cfg, before, between, less, step, key);
      LeftAloneParts(t, less, step);
      NotOvertaken(cfg, before, less, t);
      assert Run(cfg, before + less).tasks[t].key == key;
      MissedStays(cfg, before + less, step, t);
      assert (before + less) + [step] == before + between;
    }
  }

  // ---------------------------------------------------------------------------------------------
  // It happens
  // ---------------------------------------------------------------------------------------------

  predicate IsHeld(s: State, sha256: string) {
    exists k :: k in s.blobs && k.sha256 == sha256
  }

  /** In every state from `before` on, some tenant has the content. */
  predicate IsHeldThroughout(cfg: Config, before: seq<Step>, call: seq<Step>, sha256: string) {
    OwnSteps(before + call) && forall n | 0 <= n <= |call| :: IsHeld(Run(cfg, before + call[..n]), sha256)
  }

  lemma {:induction false} CallMore(cfg: Config, before: seq<Step>, call: seq<Step>, s: State, step: Step, r: State,
                                    owner: Key)
    requires Run(cfg, before + call) == s && IsOwnStep(step) && Enabled(cfg, s, step) && Apply(cfg, s, step) == r
    requires IsHeldThroughout(cfg, before, call, owner.sha256) && owner in r.blobs
    ensures Run(cfg, before + (call + [step])) == r
    ensures IsHeldThroughout(cfg, before, call + [step], owner.sha256)
  {
    var more := call + [step];
    assert before + more == (before + call) + [step];
    assert (before + more)[..|before + call|] == before + call;
    forall n | 0 <= n <= |more| ensures IsHeld(Run(cfg, before + more[..n]), owner.sha256) {
      if n <= |call| {
        assert more[..n] == call[..n];
      } else {
        assert more[..n] == more;
      }
    }
  }

  lemma {:induction false} CallStarts(cfg: Config, before: seq<Step>, s: State, owner: Key)
    requires OwnSteps(before) && Run(cfg, before) == s && owner in s.blobs
    ensures Run(cfg, before + []) == s && IsHeldThroughout(cfg, before, [], owner.sha256)
  {
    var none: seq<Step> := [];
    assert before + none == before && none[..0] == none;
  }

  /** A put of the asked blob, up to its marker. */
  lemma {:induction false} OwnMarker(cfg: Config, before: seq<Step>, call: seq<Step>, asked: Key, owner: Key, s: State)
      returns (more: seq<Step>, r: State)
    requires cfg.sha([]) == asked.sha256 && asked != owner
    requires s == EMPTY.(blobs := map[owner := []], markers := {owner}, tasks := map[0 := Missed(asked)])
    requires Run(cfg, before + call) == s && IsHeldThroughout(cfg, before, call, owner.sha256)
    ensures r == s.(markers := {owner} + {asked}, tasks := map[0 := Missed(asked), 1 := Marked(asked, [])])
    ensures Run(cfg, before + more) == r && IsHeldThroughout(cfg, before, more, owner.sha256)
  {
    var s1 := s.(tasks := map[0 := Missed(asked), 1 := Putting(asked, [])]);
    CallMore(cfg, before, call, s, StartPut(1, Ref(asked, 0), []), s1, owner);
    more := call + [StartPut(1, Ref(asked, 0), [])];
    r := s.(markers := {owner} + {asked}, tasks := map[0 := Missed(asked), 1 := Marked(asked, [])]);
    CallMore(cfg, before, more, s1, CreateMarker(1), r, owner);
    more := more + [CreateMarker(1)];
  }

  /** And to its end. */
  lemma {:induction false} OwnBlob(cfg: Config, before: seq<Step>, call: seq<Step>, asked: Key, owner: Key, s: State)
      returns (more: seq<Step>, r: State)
    requires asked != owner && Run(cfg, before + call) == s && IsHeldThroughout(cfg, before, call, owner.sha256)
    requires s == EMPTY.(blobs := map[owner := []], markers := {owner} + {asked},
                         tasks := map[0 := Missed(asked), 1 := Marked(asked, [])])
    ensures r == s.(blobs := map[owner := []][asked := []], tasks := map[0 := Missed(asked)])
    ensures Run(cfg, before + more) == r && IsHeldThroughout(cfg, before, more, owner.sha256)
  {
    var s1 := s.(tasks := map[0 := Missed(asked), 1 := Writing(asked, [], 0)], temps := map[asked := []]);
    CallMore(cfg, before, call, s, CreateTemp(1), s1, owner);
    more := call + [CreateTemp(1)];
    r := s.(blobs := map[owner := []][asked := []], tasks := map[0 := Missed(asked)]);
    assert s1.tasks - {1} == map[0 := Missed(asked)] && s1.temps - {asked} == map[];
    CallMore(cfg, before, more, s1, Rename(1), r, owner);
    more := more + [Rename(1)];
  }

  /** The asked tenant's get misses the blob, and then its own put completes. */
  lemma {:induction false} MissThenPut(cfg: Config, before: seq<Step>, asked: Key, owner: Key, s: State)
      returns (call: seq<Step>, r: State)
    requires cfg.sha([]) == asked.sha256 == owner.sha256 && asked.tenant != owner.tenant && IsOwnName(asked.sha256)
    requires OwnSteps(before)
    requires s == EMPTY.(blobs := map[owner := []], markers := {owner}) && Run(cfg, before) == s
    ensures r == s.(blobs := map[owner := []][asked := []], markers := {owner} + {asked},
      tasks := map[0 := Missed(asked)])
    ensures Run(cfg, before + call) == r && IsHeldThroughout(cfg, before, call, owner.sha256)
  {
    CallStarts(cfg, before, s, owner);
    var s1 := s.(tasks := map[0 := Getting(asked)]);
    CallMore(cfg, before, [], s, StartGet(0, asked), s1, owner);
    var s2 := s.(tasks := map[0 := Missed(asked)]);
    call := [] + [StartGet(0, asked)];
    CallMore(cfg, before, call, s1, ReadBlob(0), s2, owner);
    call := call + [ReadBlob(0)];
    call, r := OwnMarker(cfg, before, call, asked, owner, s2);
    call, r := OwnBlob(cfg, before, call, asked, owner, r);
  }

  /** The other tenant's delete completes. */
  lemma {:induction false} OtherDelete(cfg: Config, before: seq<Step>, call: seq<Step>, asked: Key, owner: Key,
                                       s: State)
      returns (more: seq<Step>, r: State)
    requires asked != owner && Run(cfg, before + call) == s && IsHeldThroughout(cfg, before, call, asked.sha256)
    requires s == EMPTY.(blobs := map[owner := []][asked := []], markers := {owner} + {asked},
                         tasks := map[0 := Missed(asked)])
    requires CanDelete(cfg, s.tasks, owner) && IsOwnName(owner.sha256)
    ensures r == EMPTY.(blobs := map[asked := []], markers := {asked}, tasks := map[0 := Missed(asked)])
    ensures Run(cfg, before + more) == r && IsHeldThroughout(cfg, before, more, asked.sha256)
  {
    var s1 := s.(tasks := map[0 := Missed(asked), 2 := Deleting(owner)]);
    CallMore(cfg, before, call, s, StartDelete(2, owner), s1, asked);
    more := call + [StartDelete(2, owner)];
    var s2 := s.(blobs := map[asked := []], tasks := map[0 := Missed(asked), 2 := Unmarking(owner)]);
    assert s1.blobs - {owner} == map[asked := []];
    CallMore(cfg, before, more, s1, RemoveBlob(2), s2, asked);
    more := more + [RemoveBlob(2)];
    r := EMPTY.(blobs := map[asked := []], markers := {asked}, tasks := map[0 := Missed(asked)]);
    assert s2.markers - {owner} == {asked} && s2.tasks - {2} == map[0 := Missed(asked)];
    CallMore(cfg, before, more, s2, RemoveMarker(2), r, asked);
    more := more + [RemoveMarker(2)];
  }

  lemma {:induction false} ListOwn(cfg: Config, before: seq<Step>, call: seq<Step>, asked: Key, s: State)
      returns (more: seq<Step>)
    requires s == EMPTY.(blobs := map[asked := []], markers := {asked}, tasks := map[0 := Missed(asked)])
    requires Run(cfg, before + call) == s && IsHeldThroughout(cfg, before, call, asked.sha256)
    ensures Run(cfg, before + more) ==
      s.(tasks := map[], answers := [Answer(asked, Err(NotFound(asked.tenant, asked.sha256)))])
    ensures IsHeldThroughout(cfg, before, more, asked.sha256)
  {
    var r := s.(tasks := map[], answers := [Answer(asked, Err(NotFound(asked.tenant, asked.sha256)))]);
    assert s.tasks - {0} == map[] && s.answers + [r.answers[0]] == r.answers;
    CallMore(cfg, before, call, s, ListMarkers(0), r, asked);
    more := call + [ListMarkers(0)];
  }

  /**
   * Not found can be wrong: the content was there at every moment of the call, and the tenant has it when
   * the answer comes. Only its own put and another tenant's delete ran in between.
   */
  lemma {:induction false} NotFoundMisleads(cfg: Config, asked: Key, owner: Key)
    returns (before: seq<Step>, call: seq<Step>)
    requires cfg.sha([]) == asked.sha256 == owner.sha256 && asked.tenant != owner.tenant && IsOwnName(asked.sha256)
    ensures IsHeldThroughout(cfg, before, call, asked.sha256) && Run(cfg, before).tasks == map[]
    ensures var r := Run(cfg, before + call);
      r.answers == [Answer(asked, Err(NotFound(asked.tenant, asked.sha256)))] && asked in r.blobs
  {
    StoredBlob(cfg, owner, []);
    var s := EMPTY.(blobs := map[owner := []], markers := {owner});
    before :| OwnSteps(before) && Run(cfg, before) == s;
    var r;
    call, r := MissThenPut(cfg, before, asked, owner, s);
    call, r := OtherDelete(cfg, before, call, asked, owner, r);
    call := ListOwn(cfg, before, call, asked, r);
  }
}
