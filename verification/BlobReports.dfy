/**
 * What a get or a delete of a missing blob is told, in every reachable state of the store, crashed or
 * not (rb-blob, filesystem.rs). A marker without a blob belongs to a put or a delete still at work, or
 * to one that a crash or a failure cut short.
 */
module BlobReports {
  import opened Prelude
  import opened BlobPaths
  import opened BlobStore
  import opened BlobCrash

  /** Between its marker and its blob: a put that has created the one, a delete that has removed the other. */
  predicate IsAtWork(task: Task) {
    task.Marked? || task.Writing? || task.Unmarking?
  }

  predicate AtWork(tasks: map<nat, Task>, key: Key) {
    exists t :: t in tasks && IsAtWork(tasks[t]) && tasks[t].key == key
  }

  /** Blobs whose marker `step` leaves alone, by cutting short what was at work on them. */
  function CutShort(s: State, step: Step): set<Key> {
    match step
    case Crash => set t | t in s.tasks && IsAtWork(s.tasks[t]) && s.tasks[t].key !in s.blobs :: s.tasks[t].key
    case Fail(t) => if t in s.tasks && IsAtWork(s.tasks[t]) && s.tasks[t].key !in s.blobs then {s.tasks[t].key} else {}
    case _ => {}
  }

  /** Blobs for which `step` completes a put or a delete. */
  function Completed(s: State, step: Step): set<Key> {
    if (step.Rename? || step.RemoveMarker?) && step.task in s.tasks then {s.tasks[step.task].key} else {}
  }

  /** Blobs that a crash or a failure left marked but missing, and that no put or delete has completed since. */
  function Abandoned(cfg: Config, steps: seq<Step>): set<Key> {
    if steps == [] then {}
    else
      var before, step := steps[..|steps| - 1], steps[|steps| - 1];
      var s := Run(cfg, before);
      if Enabled(cfg, s, step) then Abandoned(cfg, before) + CutShort(s, step) - Completed(s, step)
      else Abandoned(cfg, before)
  }

  /** The markers without a blob, accounted for. */
  predicate Accounted(s: State, abandoned: set<Key>) {
    && (forall k | k in abandoned :: k !in s.blobs && k in s.markers)
    && (forall k | k in s.markers && k !in s.blobs :: AtWork(s.tasks, k) || k in abandoned)
  }

  lemma {:induction false} StillAtWork(before: map<nat, Task>, after: map<nat, Task>, key: Key)
    requires AtWork(before, key)
    requires forall t | t in before && before[t].key == key && IsAtWork(before[t]) ::
      t in after && after[t].key == key && IsAtWork(after[t])
    ensures AtWork(after, key)
  {
    var t :| t in before && IsAtWork(before[t]) && before[t].key == key;
    assert t in after;
  }

  /** A step that makes neither a marker nor a gap: what was accounted for stays so. */
  lemma {:induction false} OthersAccounted(cfg: Config, s: State, abandoned: set<Key>, step: Step, k: Key)
    requires Inv(cfg, s) && Enabled(cfg, s, step) && !step.CreateMarker? && !step.RemoveBlob?
    requires AtWork(s.tasks, k) || k in abandoned
    requires var r := Apply(cfg, s, step); k in r.markers && k !in r.blobs && k !in s.blobs
    ensures AtWork(Apply(cfg, s, step).tasks, k) || k in abandoned + CutShort(s, step) - Completed(s, step)
  {
    if k !in abandoned && k !in CutShort(s, step) {
      StillAtWork(s.tasks, Apply(cfg, s, step).tasks, k);
    }
  }

  lemma {:induction false} MarkerAccounted(cfg: Config, s: State, abandoned: set<Key>, t: nat, k: Key)
    requires Inv(cfg, s) && Enabled(cfg, s, CreateMarker(t)) && k !in s.blobs
    requires s.tasks[t].key == k || AtWork(s.tasks, k) || k in abandoned
    ensures AtWork(Apply(cfg, s, CreateMarker(t)).tasks, k) || k in abandoned
  {
    var r := Apply(cfg, s, CreateMarker(t));
    if s.tasks[t].key == k {
      assert r.tasks[t].Marked?;
    } else if k !in abandoned {
      StillAtWork(s.tasks, r.tasks, k);
    }
  }

  lemma {:induction false} RemovalAccounted(cfg: Config, s: State, abandoned: set<Key>, t: nat, k: Key)
    requires Inv(cfg, s) && Enabled(cfg, s, RemoveBlob(t)) && k !in Apply(cfg, s, RemoveBlob(t)).blobs
    requires k in s.blobs || AtWork(s.tasks, k) || k in abandoned
    ensures AtWork(Apply(cfg, s, RemoveBlob(t)).tasks, k) || k in abandoned
  {
    var r := Apply(cfg, s, RemoveBlob(t));
    if k in s.blobs {
      assert r.tasks[t].Unmarking?;
    } else if k !in abandoned {
      StillAtWork(s.tasks, r.tasks, k);
    }
  }

  lemma {:induction false} MarkersAccounted(cfg: Config, s: State, abandoned: set<Key>, step: Step, k: Key)
    requires Inv(cfg, s) && Enabled(cfg, s, step) && Accounted(s, abandoned)
    requires var r := Apply(cfg, s, step); k in r.markers && k !in r.blobs
    ensures AtWork(Apply(cfg, s, step).tasks, k) || k in abandoned + CutShort(s, step) - Completed(s, step)
  {
    if step.CreateMarker? {
      MarkerAccounted(cfg, s, abandoned, step.task, k);
    } else if step.RemoveBlob? {
      RemovalAccounted(cfg, s, abandoned, step.task, k);
    } else {
      OthersAccounted(cfg, s, abandoned, step, k);
    }
  }

  lemma {:induction false} AbandonedStay(cfg: Config, s: State, abandoned: set<Key>, step: Step, k: Key)
    requires Inv(cfg, s) && Enabled(cfg, s, step) && Accounted(s, abandoned)
    requires k in abandoned + CutShort(s, step) - Completed(s, step)
    ensures var r := Apply(cfg, s, step); k !in r.blobs && k in r.markers
  {
    if step.Fail? {
      assert TaskOk(cfg, s, s.tasks[step.task]);
    } else if step.Crash? {
      assert forall t | t in s.tasks :: TaskOk(cfg, s, s.tasks[t]);
    }
  }

  lemma {:induction false} StepAccounted(cfg: Config, s: State, abandoned: set<Key>, step: Step)
    requires Inv(cfg, s) && Enabled(cfg, s, step) && Accounted(s, abandoned)
    ensures Accounted(Apply(cfg, s, step), abandoned + CutShort(s, step) - Completed(s, step))
  {
    var r, after := Apply(cfg, s, step), abandoned + CutShort(s, step) - Completed(s, step);
    forall k | k in after ensures k !in r.blobs && k in r.markers {
      AbandonedStay(cfg, s, abandoned, step, k);
    }
    forall k | k in r.markers && k !in r.blobs ensures AtWork(r.tasks, k) || k in after {
      MarkersAccounted(cfg, s, abandoned, step, k);
    }
  }

  lemma {:induction false} RunAccounted(cfg: Config, steps: seq<Step>)
    requires IsExclusive(cfg)
    ensures Accounted(Run(cfg, steps), Abandoned(cfg, steps))
    decreases |steps|
  {
    if steps == [] {
    } else {
      var before, step := steps[..|steps| - 1], steps[|steps| - 1];
      RunAccounted(cfg, before);
      AlwaysSound(cfg, before);
      if Enabled(cfg, Run(cfg, before), step) {
        StepAccounted(cfg, Run(cfg, before), Abandoned(cfg, before), step);
      }
    }
  }

  /** In every reachable state a blob is marked but missing exactly when something is at work on it, or abandoned it. */
  lemma {:induction false} StaleMarkers(cfg: Config, steps: seq<Step>, k: Key)
    requires IsExclusive(cfg)
    ensures var s := Run(cfg, steps);
      k in s.markers && k !in s.blobs <==> k !in s.blobs && (AtWork(s.tasks, k) || k in Abandoned(cfg, steps))
  {
    RunAccounted(cfg, steps);
    AlwaysSound(cfg, steps);
    var s := Run(cfg, steps);
    if AtWork(s.tasks, k) {
      var t :| t in s.tasks && IsAtWork(s.tasks[t]) && s.tasks[t].key == k;
      assert TaskOk(cfg, s, s.tasks[t]);
    }
  }

  /** The report says that another tenant has the content exactly when one has. */
  predicate IsRight(s: State, asked: Key) {
    Missing(s.markers, asked) == TenantMismatch <==> OtherOwner(s.blobs.Keys, asked)
  }

  /** Another tenant's blob of that content is missing, and half put, half deleted, or was left so. */
  ghost predicate HalfOwned(s: State, abandoned: set<Key>, asked: Key) {
    exists k: Key :: k.sha256 == asked.sha256 && k.tenant != asked.tenant && k !in s.blobs
                     && (AtWork(s.tasks, k) || k in abandoned)
  }

  /** At one moment, not found is never wrong: an owner is always reported, whatever crashed before. */
  lemma {:induction false} OwnersAreReported(cfg: Config, steps: seq<Step>, asked: Key)
    requires IsExclusive(cfg) && OtherOwner(Run(cfg, steps).blobs.Keys, asked)
    ensures Missing(Run(cfg, steps).markers, asked) == TenantMismatch
  {
    AlwaysSound(cfg, steps);
    var s := Run(cfg, steps);
    var k :| k in s.blobs.Keys && k.sha256 == asked.sha256 && k.tenant != asked.tenant;
    assert k in s.markers;
  }

  /**
   * In every reachable state, a listing of the markers gives the right report exactly when another tenant
   * has the content, or none has it half: no put or delete of another tenant's blob of it is at work, or
   * was cut short by a crash or a failure and not made up for since.
   */
  lemma {:induction false} ReportIsRightExactly(cfg: Config, steps: seq<Step>, asked: Key)
    requires IsExclusive(cfg)
    ensures var s := Run(cfg, steps);
      IsRight(s, asked) <==> OtherOwner(s.blobs.Keys, asked) || !HalfOwned(s, Abandoned(cfg, steps), asked)
  {
    var s := Run(cfg, steps);
    if OtherOwner(s.blobs.Keys, asked) {
      OwnersAreReported(cfg, steps, asked);
    } else if OtherOwner(s.markers, asked) {
      var k :| k in s.markers && k.sha256 == asked.sha256 && k.tenant != asked.tenant;
      assert k !in s.blobs.Keys;
      StaleMarkers(cfg, steps, k);
      assert HalfOwned(s, Abandoned(cfg, steps), asked);
    } else if HalfOwned(s, Abandoned(cfg, steps), asked) {
      var k: Key :| k.sha256 == asked.sha256 && k.tenant != asked.tenant && k !in s.blobs
                    && (AtWork(s.tasks, k) || k in Abandoned(cfg, steps));
      StaleMarkers(cfg, steps, k);
    }
  }

  predicate IsCalm(step: Step) {
    !step.Crash? && !step.Fail?
  }

  lemma {:induction false} NothingAbandoned(cfg: Config, steps: seq<Step>)
    requires forall i | 0 <= i < |steps| :: IsCalm(steps[i])
    ensures Abandoned(cfg, steps) == {}
    decreases |steps|
  {
    if steps == [] {
    } else {
      NothingAbandoned(cfg, steps[..|steps| - 1]);
    }
  }

  /** So with no crash and no failure ever, and nothing at work, the report is right, and the markers are the owners. */
  lemma {:induction false} CalmReportIsRight(cfg: Config, steps: seq<Step>, asked: Key)
    requires IsExclusive(cfg) && forall i | 0 <= i < |steps| :: IsCalm(steps[i])
    requires forall t | t in Run(cfg, steps).tasks :: !IsAtWork(Run(cfg, steps).tasks[t])
    ensures var s := Run(cfg, steps); IsRight(s, asked) && s.markers == s.blobs.Keys
  {
    var s := Run(cfg, steps);
    NothingAbandoned(cfg, steps);
    AlwaysSound(cfg, steps);
    forall k | k in s.markers ensures k in s.blobs {
      StaleMarkers(cfg, steps, k);
    }
    assert s.markers == s.blobs.Keys;
  }

  // A state in which the report is wrong: reached by a crash, or by a mere failure.

  lemma {:induction false} CutPut(cfg: Config, key: Key, cut: Step)
    requires cfg.sha([]) == key.sha256 && (cut == Crash || cut == Fail(0))
    ensures Reachable(cfg, EMPTY.(markers := {key}))
  {
    PutMarked(cfg, key, []);
    ReachNext(cfg, EMPTY.(markers := {key}, tasks := map[0 := Marked(key, [])]), cut, EMPTY.(markers := {key}));
  }

  lemma {:induction false} OnlyMarker(key: Key, asked: Key)
    requires asked.sha256 == key.sha256 && asked.tenant != key.tenant
    ensures Missing({key}, asked) == TenantMismatch
  {
    assert key in {key};
  }

  /** A put cut short after its marker makes another tenant's get report an owner, though nobody owns anything. */
  lemma {:induction false} StaleMarkerMisleads(cfg: Config, key: Key, asked: Key, cut: Step)
    requires asked.sha256 == key.sha256 && asked.tenant != key.tenant && cfg.sha([]) == key.sha256
    requires IsOwnName(key.sha256)
    requires cut == Crash || cut == Fail(0)
    ensures Reachable(cfg, EMPTY.(markers := {key}, answers := [Answer(asked, Err(TenantMismatch))]))
  {
    CutPut(cfg, key, cut);
    var s := EMPTY.(markers := {key});
    var s1 := s.(tasks := map[0 := Getting(asked)]);
    ReachNext(cfg, s, StartGet(0, asked), s1);
    var s2 := s.(tasks := map[0 := Missed(asked)]);
    ReachNext(cfg, s1, ReadBlob(0), s2);
    OnlyMarker(key, asked);
    ReachNext(cfg, s2, ListMarkers(0), s.(answers := [Answer(asked, Err(TenantMismatch))]));
  }
}
