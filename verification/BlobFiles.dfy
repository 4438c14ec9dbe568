/**
 * The file-system steps of many tasks again, now on the files themselves (rb-blob, filesystem.rs). Over
 * names of their own the files follow the keys of `BlobCrash` step by step, crashes included, and with
 * them everything that is proved there.
 */
module BlobFiles {
  import opened Prelude
  import opened BlobPaths
  import opened BlobStore
  import opened BlobRuns
  import opened BlobCrash

  /** What is on the disk, instead of what the keys say. */
  datatype FileState = FileState(files: Files, tasks: map<nat, Task>, answers: seq<Answer>)

  predicate CanStep(cfg: Config, l: Layout, s: FileState, step: Step) {
    match step
    case StartPut(t, ref, data) => t !in s.tasks && CanPut(cfg, s.tasks, ref.key) && Refusal(cfg.sha, ref, data).None?
    case StartDelete(t, key) => t !in s.tasks && CanDelete(cfg, s.tasks, key)
    case StartGet(t, _) => t !in s.tasks
    case CreateMarker(t) => t in s.tasks && s.tasks[t].Putting?
    case CreateTemp(t) => t in s.tasks && s.tasks[t].Marked?
    case Write(t, more) =>
      && t in s.tasks && s.tasks[t].Writing? && s.tasks[t].written + more <= |s.tasks[t].data|
      && TempPath(l, s.tasks[t].key) in s.files
    case Rename(t) =>
      && t in s.tasks && s.tasks[t].Writing? && s.tasks[t].written == |s.tasks[t].data|
      && TempPath(l, s.tasks[t].key) in s.files
    case RemoveBlob(t) => t in s.tasks && s.tasks[t].Deleting?
    case RemoveMarker(t) => t in s.tasks && s.tasks[t].Unmarking?
    case ReadBlob(t) => t in s.tasks && s.tasks[t].Getting?
    case ListMarkers(t) => t in s.tasks && s.tasks[t].Missed?
    case Fail(t) => t in s.tasks
    case Crash => true
  }

  function Stepped(cfg: Config, l: Layout, s: FileState, step: Step): FileState
    requires CanStep(cfg, l, s, step)
  {
    match step
    case StartPut(t, ref, data) => s.(tasks := s.tasks[t := Putting(ref.key, data)])
    case StartDelete(t, key) => s.(tasks := s.tasks[t := Deleting(key)])
    case StartGet(t, key) => s.(tasks := s.tasks[t := Getting(key)])
    case CreateMarker(t) =>
      var task := s.tasks[t];
      s.(files := s.files[MarkerPath(l, task.key) := []], tasks := s.tasks[t := Marked(task.key, task.data)])
    case CreateTemp(t) =>
      var task := s.tasks[t];
      s.(files := s.files[TempPath(l, task.key) := []], tasks := s.tasks[t := Writing(task.key, task.data, 0)])
    case Write(t, more) =>
      var task := s.tasks[t];
      var p, written := TempPath(l, task.key), task.written + more;
      s.(files := s.files[p := WriteAt(s.files[p], task.written, task.data[task.written..written])],
         tasks := s.tasks[t := task.(written := written)])
    case Rename(t) =>
      var key := s.tasks[t].key;
      var p := TempPath(l, key);
      s.(files := (s.files - {p})[BlobPath(l, key) := s.files[p]], tasks := s.tasks - {t})
    case RemoveBlob(t) =>
      var key := s.tasks[t].key;
      if BlobPath(l, key) in s.files then
        s.(files := s.files - {BlobPath(l, key)}, tasks := s.tasks[t := Unmarking(key)])
      else s.(tasks := s.tasks - {t})
    case RemoveMarker(t) => s.(files := s.files - {MarkerPath(l, s.tasks[t].key)}, tasks := s.tasks - {t})
    case ReadBlob(t) =>
      var key := s.tasks[t].key;
      (match Look(s.files, BlobPath(l, key))
       case Found(data) => s.(tasks := s.tasks - {t}, answers := s.answers + [Answer(key, Ok(data))])
       case Nothing => s.(tasks := s.tasks[t := Missed(key)])
       case Blocked => s.(tasks := s.tasks - {t}, answers := s.answers + [Answer(key, Err(Io))]))
    case ListMarkers(t) =>
      var key := s.tasks[t].key;
      s.(tasks := s.tasks - {t}, answers := s.answers + [Answer(key, Err(Report(l, s.files, key)))])
    case Fail(t) => s.(tasks := s.tasks - {t})
    case Crash => s.(tasks := map[])
  }

  function FileRun(cfg: Config, l: Layout, start: Files, steps: seq<Step>): FileState {
    if steps == [] then FileState(start, map[], [])
    else
      var s := FileRun(cfg, l, start, steps[..|steps| - 1]);
      if CanStep(cfg, l, s, steps[|steps| - 1]) then Stepped(cfg, l, s, steps[|steps| - 1]) else s
  }

  // ---------------------------------------------------------------------------------------------
  // The files follow the keys
  // ---------------------------------------------------------------------------------------------

  function DiskOf(s: State): Disk {
    Disk(s.blobs, s.markers, s.temps)
  }

  /** Puts are at work on digests, gets and deletes on names of their own. */
  predicate TaskHasName(task: Task) {
    if IsPut(task) then IsDigest(task.key.sha256) else IsOwnName(task.key.sha256)
  }

  ghost predicate Follows(l: Layout, f: FileState, s: State) {
    && IsImage(l, f.files, DiskOf(s)) && f.tasks == s.tasks && f.answers == s.answers
    && forall t | t in s.tasks :: TaskHasName(s.tasks[t])
  }

  /** The tasks and the answers of a step, with its files and keys, follow. */
  lemma {:induction false} FilesStep(l: Layout, f: FileState, s: State, f': FileState, s': State)
    requires Follows(l, f, s) && IsImage(l, f'.files, DiskOf(s')) && f'.tasks == s'.tasks && f'.answers == s'.answers
    requires forall t | t in s'.tasks :: (t in s.tasks && s'.tasks[t] == s.tasks[t]) || TaskHasName(s'.tasks[t])
    ensures Follows(l, f', s')
  {
  }

  /** The step can be taken on both sides, or on neither, and then they still agree. */
  ghost predicate StepFollows(cfg: Config, l: Layout, f: FileState, s: State, step: Step) {
    && (CanStep(cfg, l, f, step) <==> Enabled(cfg, s, step))
    && (Enabled(cfg, s, step) ==> Follows(l, Stepped(cfg, l, f, step), Apply(cfg, s, step)))
  }

  lemma {:induction false} StartFollows(cfg: Config, l: Layout, f: FileState, s: State, step: Step)
    requires IsLayout(l) && PrintsDigests(cfg.sha) && Follows(l, f, s) && IsOwnStep(step)
    requires step.StartPut? || step.StartDelete? || step.StartGet?
    ensures StepFollows(cfg, l, f, s, step)
  {
  }

  lemma {:induction false} CreateMarkerFollows(cfg: Config, l: Layout, f: FileState, s: State, t: nat)
    requires IsLayout(l) && Follows(l, f, s)
    ensures StepFollows(cfg, l, f, s, CreateMarker(t))
  {
    var step := CreateMarker(t);
    if Enabled(cfg, s, step) {
      MarkerFollows(l, f.files, DiskOf(s), s.tasks[t].key);
      FilesStep(l, f, s, Stepped(cfg, l, f, step), Apply(cfg, s, step));
    }
  }

  lemma {:induction false} CreateTempFollows(cfg: Config, l: Layout, f: FileState, s: State, t: nat)
    requires IsLayout(l) && Follows(l, f, s)
    ensures StepFollows(cfg, l, f, s, CreateTemp(t))
  {
    var step := CreateTemp(t);
    if Enabled(cfg, s, step) {
      TempFollows(l, f.files, DiskOf(s), s.tasks[t].key, []);
      FilesStep(l, f, s, Stepped(cfg, l, f, step), Apply(cfg, s, step));
    }
  }

  lemma {:induction false} SameTemp(l: Layout, f: FileState, s: State, t: nat)
    requires IsLayout(l) && Follows(l, f, s) && t in s.tasks && s.tasks[t].Writing?
    ensures var key := s.tasks[t].key;
      && (TempPath(l, key) in f.files <==> key in s.temps)
      && (key in s.temps ==> f.files[TempPath(l, key)] == s.temps[key])
  {
    TempFound(l, f.files, DiskOf(s), s.tasks[t].key);
  }

  lemma {:induction false} Written(cfg: Config, l: Layout, f: FileState, s: State, t: nat, more: nat, key: Key,
                                   data: Bytes)
    requires IsLayout(l) && Follows(l, f, s) && Enabled(cfg, s, Write(t, more)) && CanStep(cfg, l, f, Write(t, more))
    requires key == s.tasks[t].key && f.files[TempPath(l, key)] == s.temps[key]
    requires data == Apply(cfg, s, Write(t, more)).temps[key]
    ensures Stepped(cfg, l, f, Write(t, more)).files == f.files[TempPath(l, key) := data]
    ensures DiskOf(Apply(cfg, s, Write(t, more))) == DiskOf(s).(temps := s.temps[key := data])
  {
  }

  lemma {:induction false} WriteFollows(cfg: Config, l: Layout, f: FileState, s: State, t: nat, more: nat)
    requires IsLayout(l) && Follows(l, f, s)
    ensures StepFollows(cfg, l, f, s, Write(t, more))
  {
    var step := Write(t, more);
    if t in s.tasks && s.tasks[t].Writing? {
      SameTemp(l, f, s, t);
      if Enabled(cfg, s, step) {
        var key := s.tasks[t].key;
        var data := Apply(cfg, s, step).temps[key];
        Written(cfg, l, f, s, t, more, key, data);
        TempFollows(l, f.files, DiskOf(s), key, data);
        FilesStep(l, f, s, Stepped(cfg, l, f, step), Apply(cfg, s, step));
      }
    }
  }

  lemma {:induction false} RenameStepFollows(cfg: Config, l: Layout, f: FileState, s: State, t: nat)
    requires IsLayout(l) && Follows(l, f, s)
    ensures StepFollows(cfg, l, f, s, Rename(t))
  {
    var step := Rename(t);
    if t in s.tasks && s.tasks[t].Writing? {
      SameTemp(l, f, s, t);
      if Enabled(cfg, s, step) {
        RenameFollows(l, f.files, DiskOf(s), s.tasks[t].key, s.temps[s.tasks[t].key]);
        FilesStep(l, f, s, Stepped(cfg, l, f, step), Apply(cfg, s, step));
      }
    }
  }

  lemma {:induction false} RemoveBlobFollows(cfg: Config, l: Layout, f: FileState, s: State, t: nat)
    requires IsLayout(l) && Follows(l, f, s)
    ensures StepFollows(cfg, l, f, s, RemoveBlob(t))
  {
    var step := RemoveBlob(t);
    if Enabled(cfg, s, step) {
      var key := s.tasks[t].key;
      LookOwn(l, f.files, DiskOf(s), key);
      BlobGone(l, f.files, DiskOf(s), key);
      FilesStep(l, f, s, Stepped(cfg, l, f, step), Apply(cfg, s, step));
    }
  }

  lemma {:induction false} RemoveMarkerFollows(cfg: Config, l: Layout, f: FileState, s: State, t: nat)
    requires IsLayout(l) && Follows(l, f, s)
    ensures StepFollows(cfg, l, f, s, RemoveMarker(t))
  {
    var step := RemoveMarker(t);
    if Enabled(cfg, s, step) {
      MarkerGone(l, f.files, DiskOf(s), s.tasks[t].key);
      FilesStep(l, f, s, Stepped(cfg, l, f, step), Apply(cfg, s, step));
    }
  }

  lemma {:induction false} GetStepFollows(cfg: Config, l: Layout, f: FileState, s: State, step: Step)
    requires IsLayout(l) && Follows(l, f, s) && (step.ReadBlob? || step.ListMarkers?)
    ensures StepFollows(cfg, l, f, s, step)
  {
    if Enabled(cfg, s, step) {
      var key := s.tasks[step.task].key;
      LookOwn(l, f.files, DiskOf(s), key);
      ReportOwn(l, f.files, DiskOf(s), key);
      FilesStep(l, f, s, Stepped(cfg, l, f, step), Apply(cfg, s, step));
    }
  }

  lemma {:induction false} AnyStepFollows(cfg: Config, l: Layout, f: FileState, s: State, step: Step)
    requires IsLayout(l) && PrintsDigests(cfg.sha) && Follows(l, f, s) && IsOwnStep(step)
    ensures StepFollows(cfg, l, f, s, step)
  {
    match step
    case StartPut(_, _, _) => StartFollows(cfg, l, f, s, step);
    case StartDelete(_, _) => StartFollows(cfg, l, f, s, step);
    case StartGet(_, _) => StartFollows(cfg, l, f, s, step);
    case CreateMarker(t) => CreateMarkerFollows(cfg, l, f, s, t);
    case CreateTemp(t) => CreateTempFollows(cfg, l, f, s, t);
    case Write(t, more) => WriteFollows(cfg, l, f, s, t, more);
    case Rename(t) => RenameStepFollows(cfg, l, f, s, t);
    case RemoveBlob(t) => RemoveBlobFollows(cfg, l, f, s, t);
    case RemoveMarker(t) => RemoveMarkerFollows(cfg, l, f, s, t);
    case ReadBlob(_) => GetStepFollows(cfg, l, f, s, step);
    case ListMarkers(_) => GetStepFollows(cfg, l, f, s, step);
    case Fail(_) =>
    case Crash =>
  }

  /** Every run over names of their own, crashes included: files, tasks and answers are what the keys say. */
  lemma {:induction false} RunFollows(cfg: Config, l: Layout, start: Files, steps: seq<Step>)
    requires IsLayout(l) && PrintsDigests(cfg.sha) && IsBare(l, start) && OwnSteps(steps)
    ensures Follows(l, FileRun(cfg, l, start, steps), Run(cfg, steps))
    decreases |steps|
  {
    if steps == [] {
      assert DiskOf(EMPTY) == BLANK;
    } else {
      var before, step := steps[..|steps| - 1], steps[|steps| - 1];
      RunFollows(cfg, l, start, before);
      AnyStepFollows(cfg, l, FileRun(cfg, l, start, before), Run(cfg, before), step);
    }
  }

  // ---------------------------------------------------------------------------------------------
  // Soundness on the disk
  // ---------------------------------------------------------------------------------------------

  lemma {:induction false} SoundFollows(l: Layout, sha: Bytes -> string, files: Files, d: Disk)
    requires IsLayout(l) && IsImage(l, files, d)
    ensures AreSound(l, sha, files) <==> IsSound(sha, d.blobs, d.markers)
  {
    forall k | k in d.blobs || IsDigest(k.sha256)
      ensures IsDigest(k.sha256) && (Place(l, BlobFile(k)) in files <==> k in d.blobs)
      ensures Place(l, MarkerFile(k)) in files <==> k in d.markers
      ensures k in d.blobs ==> files[Place(l, BlobFile(k))] == d.blobs[k]
    {
      assert k in d.blobs ==> Holds(d, BlobFile(k)) && IsStored(BlobFile(k));
      DigestIsOwn(k.sha256);
      HoldsExactly(l, files, d, BlobFile(k));
      HoldsExactly(l, files, d, MarkerFile(k));
    }
  }

  /** After any steps and crashes, each blob at its final path has its marker and hashes to its name. */
  lemma {:induction false} AlwaysSoundOnDisk(cfg: Config, l: Layout, start: Files, steps: seq<Step>)
    requires IsLayout(l) && PrintsDigests(cfg.sha) && IsBare(l, start) && OwnSteps(steps) && IsExclusive(cfg)
    ensures AreSound(l, cfg.sha, FileRun(cfg, l, start, steps).files)
  {
    RunFollows(cfg, l, start, steps);
    AlwaysSound(cfg, steps);
    SoundFollows(l, cfg.sha, FileRun(cfg, l, start, steps).files, DiskOf(Run(cfg, steps)));
  }

  /** Whether every run is sound; `anyName`: gets and deletes may be given names that lead elsewhere. */
  ghost predicate IsSoundOnDisk(cfg: Config, l: Layout, start: Files, anyName: bool) {
    forall steps | anyName || OwnSteps(steps) :: AreSound(l, cfg.sha, FileRun(cfg, l, start, steps).files)
  }

  lemma {:induction false} UnsoundRun(cfg: Config, l: Layout, start: Files, s: State)
    requires IsLayout(l) && PrintsDigests(cfg.sha) && IsBare(l, start)
    requires Reachable(cfg, s) && !IsSound(cfg.sha, s.blobs, s.markers)
    ensures !IsSoundOnDisk(cfg, l, start, false)
  {
    var steps :| OwnSteps(steps) && Run(cfg, steps) == s;
    RunFollows(cfg, l, start, steps);
    SoundFollows(l, cfg.sha, FileRun(cfg, l, start, steps).files, DiskOf(s));
  }

  lemma {:induction false} FileMore(cfg: Config, l: Layout, start: Files, steps: seq<Step>, step: Step)
    requires CanStep(cfg, l, FileRun(cfg, l, start, steps), step)
    ensures FileRun(cfg, l, start, steps + [step]) == Stepped(cfg, l, FileRun(cfg, l, start, steps), step)
  {
    assert (steps + [step])[..|steps|] == steps;
  }

  /** A blob is stored, and another tenant deletes its marker under a name that leads into the index. */
  lemma {:induction false} MarkerIsLost(cfg: Config, l: Layout, start: Files, steps: seq<Step>, t: Tenant, other: Key,
                                        name: string) returns (more: seq<Step>)
    requires IsLayout(l) && IsDigest(other.sha256)
      && name == Beside("_index", other.sha256 + "/" + l.show(other.tenant))
    requires var f := FileRun(cfg, l, start, steps);
      f.tasks == map[] && Place(l, BlobFile(other)) in f.files && Place(l, MarkerFile(other)) in f.files
    ensures !AreSound(l, cfg.sha, FileRun(cfg, l, start, more).files)
  {
    var key, f := Key(t, name), FileRun(cfg, l, start, steps);
    DigestIsOwn(other.sha256);
    MarkerName(l, t, other, "_index");
    FileMore(cfg, l, start, steps, StartDelete(0, key));
    more := steps + [StartDelete(0, key)];
    FileMore(cfg, l, start, more, RemoveBlob(0));
    more := more + [RemoveBlob(0)];
    Apart(l, BlobFile(other), MarkerFile(other));
    var files' := FileRun(cfg, l, start, more).files;
    assert Place(l, BlobFile(other)) in files' && Place(l, MarkerFile(other)) !in files';
  }

  lemma {:induction false} AnyNameIsUnsound(cfg: Config, l: Layout, start: Files)
    requires IsLayout(l) && PrintsDigests(cfg.sha) && IsBare(l, start)
    ensures !IsSoundOnDisk(cfg, l, start, true)
  {
    var other := Key(0, cfg.sha([]));
    StoredBlob(cfg, other, []);
    var s := EMPTY.(blobs := map[other := []], markers := {other});
    var steps :| OwnSteps(steps) && Run(cfg, steps) == s;
    RunFollows(cfg, l, start, steps);
    assert Holds(DiskOf(s), BlobFile(other)) && Holds(DiskOf(s), MarkerFile(other));
    var more := MarkerIsLost(cfg, l, start, steps, 1, other,
      Beside("_index", other.sha256 + "/" + l.show(other.tenant)));
  }

  /**
   * Whatever the steps and crashes, each blob has its marker and hashes to its name, exactly when no put
   * overlaps another put or a delete of its blob, and no get or delete is given a name that leads elsewhere.
   */
  lemma {:induction false} SoundOnDiskExactly(cfg: Config, l: Layout, start: Files, anyName: bool, data: Bytes)
    requires IsLayout(l) && PrintsDigests(cfg.sha) && IsBare(l, start) && cfg.sha(data) != cfg.sha([])
    ensures IsSoundOnDisk(cfg, l, start, anyName) <==> IsExclusive(cfg) && !anyName
  {
    if anyName {
      AnyNameIsUnsound(cfg, l, start);
    } else if IsExclusive(cfg) {
      forall steps | OwnSteps(steps) ensures AreSound(l, cfg.sha, FileRun(cfg, l, start, steps).files) {
        AlwaysSoundOnDisk(cfg, l, start, steps);
      }
    } else {
      SoundExactly(cfg, data);
      var s :| Reachable(cfg, s) && !IsSound(cfg.sha, s.blobs, s.markers);
      UnsoundRun(cfg, l, start, s);
    }
  }
}
