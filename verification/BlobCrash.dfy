/**
 * The same store as file-system steps of many tasks (rb-blob, filesystem.rs), with a crash possible
 * after any of them. A put creates its marker, writes its `.tmp` file piece by piece and renames it; a
 * delete removes the blob, then the marker. Deletes may always overlap; the configuration says whether
 * a put may overlap another put (`twoPuts`), or a delete (`putAndDelete`), of the same blob. The state is
 * kept by keys; `BlobFiles` says when the files follow it.
 */
module BlobCrash {
  import opened Prelude
  import opened BlobPaths
  import opened BlobStore

  datatype Config = Config(sha: Bytes -> string, twoPuts: bool, putAndDelete: bool)

  predicate IsExclusive(cfg: Config) {
    !cfg.twoPuts && !cfg.putAndDelete
  }

  datatype Task =
    | Putting(key: Key, data: Bytes)
    | Marked(key: Key, data: Bytes)
    | Writing(key: Key, data: Bytes, written: nat)
    | Deleting(key: Key)
    | Unmarking(key: Key)
    | Getting(key: Key)
    | Missed(key: Key)

  /** What a get answered. */
  datatype Answer = Answer(key: Key, result: Result<Bytes, Error>)

  datatype State = State(blobs: map<Key, Bytes>, markers: set<Key>, temps: map<Key, Bytes>, tasks: map<nat, Task>,
                         answers: seq<Answer>)

  const EMPTY := State(map[], {}, map[], map[], [])

  datatype Step =
    | StartPut(task: nat, ref: Ref, data: Bytes)
    | StartDelete(task: nat, key: Key)
    | StartGet(task: nat, key: Key)
    | CreateMarker(task: nat)
    | CreateTemp(task: nat)
    | Write(task: nat, more: nat)
    | Rename(task: nat)
    | RemoveBlob(task: nat)
    | RemoveMarker(task: nat)
    | ReadBlob(task: nat)
    | ListMarkers(task: nat)
    | Fail(task: nat)
    | Crash

  predicate IsPut(task: Task) {
    task.Putting? || task.Marked? || task.Writing?
  }

  predicate IsDelete(task: Task) {
    task.Deleting? || task.Unmarking?
  }

  predicate HasNoPut(tasks: map<nat, Task>, key: Key) {
    forall t | t in tasks && IsPut(tasks[t]) :: tasks[t].key != key
  }

  predicate HasNoDelete(tasks: map<nat, Task>, key: Key) {
    forall t | t in tasks && IsDelete(tasks[t]) :: tasks[t].key != key
  }

  predicate CanPut(cfg: Config, tasks: map<nat, Task>, key: Key) {
    (cfg.twoPuts || HasNoPut(tasks, key)) && (cfg.putAndDelete || HasNoDelete(tasks, key))
  }

  predicate CanDelete(cfg: Config, tasks: map<nat, Task>, key: Key) {
    cfg.putAndDelete || HasNoPut(tasks, key)
  }

  /** The file after `chunk` is written at offset `at`; a gap reads as zeros. */
  function WriteAt(file: Bytes, at: nat, chunk: Bytes): Bytes {
    (if |file| < at then file + seq(at - |file|, _ => 0) else file[..at]) + chunk +
    (if at + |chunk| < |file| then file[at + |chunk|..] else [])
  }

  predicate Enabled(cfg: Config, s: State, step: Step) {
    match step
    case StartPut(t, ref, data) => t !in s.tasks && CanPut(cfg, s.tasks, ref.key) && Refusal(cfg.sha, ref, data).None?
    case StartDelete(t, key) => t !in s.tasks && CanDelete(cfg, s.tasks, key)
    case StartGet(t, _) => t !in s.tasks
    case CreateMarker(t) => t in s.tasks && s.tasks[t].Putting?
    case CreateTemp(t) => t in s.tasks && s.tasks[t].Marked?
    case Write(t, more) =>
      && t in s.tasks && s.tasks[t].Writing? && s.tasks[t].written + more <= |s.tasks[t].data|
      && s.tasks[t].key in s.temps
    case Rename(t) =>
      t in s.tasks && s.tasks[t].Writing? && s.tasks[t].written == |s.tasks[t].data| && s.tasks[t].key in s.temps
    case RemoveBlob(t) => t in s.tasks && s.tasks[t].Deleting?
    case RemoveMarker(t) => t in s.tasks && s.tasks[t].Unmarking?
    case ReadBlob(t) => t in s.tasks && s.tasks[t].Getting?
    case ListMarkers(t) => t in s.tasks && s.tasks[t].Missed?
    case Fail(t) => t in s.tasks
    case Crash => true
  }

  function Apply(cfg: Config, s: State, step: Step): State
    requires Enabled(cfg, s, step)
  {
    match step
    case StartPut(t, ref, data) => s.(tasks := s.tasks[t := Putting(ref.key, data)])
    case StartDelete(t, key) => s.(tasks := s.tasks[t := Deleting(key)])
    case StartGet(t, key) => s.(tasks := s.tasks[t := Getting(key)])
    case CreateMarker(t) =>
      var task := s.tasks[t];
      s.(markers := s.markers + {task.key}, tasks := s.tasks[t := Marked(task.key, task.data)])
    case CreateTemp(t) =>
      var task := s.tasks[t];
      s.(temps := s.temps[task.key := []], tasks := s.tasks[t := Writing(task.key, task.data, 0)])
    case Write(t, more) =>
      var task := s.tasks[t];
      var written := task.written + more;
      s.(temps := s.temps[task.key := WriteAt(s.temps[task.key], task.written, task.data[task.written..written])],
         tasks := s.tasks[t := task.(written := written)])
    case Rename(t) =>
      var key := s.tasks[t].key;
      s.(blobs := s.blobs[key := s.temps[key]], temps := s.temps - {key}, tasks := s.tasks - {t})
    case RemoveBlob(t) =>
      var key := s.tasks[t].key;
      if key in s.blobs then s.(blobs := s.blobs - {key}, tasks := s.tasks[t := Unmarking(key)])
      else s.(tasks := s.tasks - {t})
    case RemoveMarker(t) => s.(markers := s.markers - {s.tasks[t].key}, tasks := s.tasks - {t})
    case ReadBlob(t) =>
      var key := s.tasks[t].key;
      if key in s.blobs then s.(tasks := s.tasks - {t}, answers := s.answers + [Answer(key, Ok(s.blobs[key]))])
      else s.(tasks := s.tasks[t := Missed(key)])
    case ListMarkers(t) =>
      var key := s.tasks[t].key;
      s.(tasks := s.tasks - {t}, answers := s.answers + [Answer(key, Err(Missing(s.markers, key)))])
    case Fail(t) => s.(tasks := s.tasks - {t})
    case Crash => s.(tasks := map[])
  }

  /** Any interleaving: a step that is not enabled is skipped. */
  function Run(cfg: Config, steps: seq<Step>): State {
    if steps == [] then EMPTY
    else
      var s := Run(cfg, steps[..|steps| - 1]);
      if Enabled(cfg, s, steps[|steps| - 1]) then Apply(cfg, s, steps[|steps| - 1]) else s
  }

  // ---------------------------------------------------------------------------------------------
  // What every step keeps
  // ---------------------------------------------------------------------------------------------

  /** Two tasks that write one blob are deletes, and only one of them has removed it. */
  predicate Exclusive(tasks: map<nat, Task>) {
    forall t, u | t in tasks && u in tasks && t != u && tasks[t].key == tasks[u].key ::
      (IsPut(tasks[t]) ==> !IsPut(tasks[u]) && !IsDelete(tasks[u])) && !(tasks[t].Unmarking? && tasks[u].Unmarking?)
  }

  predicate TaskOk(cfg: Config, s: State, task: Task) {
    match task
    case Putting(key, data) => cfg.sha(data) == key.sha256
    case Marked(key, data) => cfg.sha(data) == key.sha256 && key in s.markers
    case Writing(key, data, written) =>
      && cfg.sha(data) == key.sha256 && key in s.markers && written <= |data|
      && key in s.temps && s.temps[key] == data[..written]
    case Unmarking(key) => key !in s.blobs && key in s.markers
    case Deleting(_) => true
    case Getting(_) => true
    case Missed(_) => true
  }

  predicate TasksOk(cfg: Config, s: State) {
    forall t | t in s.tasks :: TaskOk(cfg, s, s.tasks[t])
  }

  predicate AnswersOk(cfg: Config, answers: seq<Answer>) {
    forall i | 0 <= i < |answers| && answers[i].result.Ok? :: cfg.sha(answers[i].result.value) == answers[i].key.sha256
  }

  predicate Inv(cfg: Config, s: State) {
    IsSound(cfg.sha, s.blobs, s.markers) && Exclusive(s.tasks) && TasksOk(cfg, s) && AnswersOk(cfg, s.answers)
  }

  lemma {:induction false} RenameKeeps(cfg: Config, s: State, t: nat)
    requires Inv(cfg, s) && Enabled(cfg, s, Rename(t))
    ensures Inv(cfg, Apply(cfg, s, Rename(t)))
  {
    var task := s.tasks[t];
    assert TaskOk(cfg, s, task);
    assert task.data[..task.written] == task.data;
    var r := Apply(cfg, s, Rename(t));
    forall u | u in r.tasks ensures TaskOk(cfg, r, r.tasks[u]) {
      assert TaskOk(cfg, s, s.tasks[u]);
    }
  }

  /** Pieces written one behind the other make up a prefix of the data. */
  lemma {:induction false} WriteExtends(data: Bytes, written: nat, more: nat)
    requires written + more <= |data|
    ensures WriteAt(data[..written], written, data[written..written + more]) == data[..written + more]
  {
  }

  lemma {:induction false} WriteKeeps(cfg: Config, s: State, t: nat, more: nat)
    requires Inv(cfg, s) && Enabled(cfg, s, Write(t, more))
    ensures Inv(cfg, Apply(cfg, s, Write(t, more)))
  {
    assert TaskOk(cfg, s, s.tasks[t]);
    WriteExtends(s.tasks[t].data, s.tasks[t].written, more);
    var r := Apply(cfg, s, Write(t, more));
    forall u | u in r.tasks ensures TaskOk(cfg, r, r.tasks[u]) {
      assert u != t ==> TaskOk(cfg, s, s.tasks[u]);
    }
  }

  lemma {:induction false} StartKeeps(cfg: Config, s: State, t: nat, task: Task)
    requires Inv(cfg, s) && t !in s.tasks && TaskOk(cfg, s, task) && !task.Unmarking?
    requires IsPut(task) ==> HasNoPut(s.tasks, task.key) && HasNoDelete(s.tasks, task.key)
    requires IsDelete(task) ==> HasNoPut(s.tasks, task.key)
    ensures Inv(cfg, s.(tasks := s.tasks[t := task]))
  {
    var r := s.(tasks := s.tasks[t := task]);
    forall u | u in r.tasks ensures TaskOk(cfg, r, r.tasks[u]) {
      assert u != t ==> TaskOk(cfg, s, s.tasks[u]);
    }
  }

  lemma {:induction false} EndKeeps(cfg: Config, s: State, t: nat)
    requires Inv(cfg, s)
    ensures Inv(cfg, s.(tasks := s.tasks - {t}))
  {
    var r := s.(tasks := s.tasks - {t});
    forall u | u in r.tasks ensures TaskOk(cfg, r, r.tasks[u]) {
      assert TaskOk(cfg, s, s.tasks[u]);
    }
  }

  lemma {:induction false} CreateMarkerKeeps(cfg: Config, s: State, t: nat)
    requires Inv(cfg, s) && Enabled(cfg, s, CreateMarker(t))
    ensures Inv(cfg, Apply(cfg, s, CreateMarker(t)))
  {
    assert TaskOk(cfg, s, s.tasks[t]);
    var r := Apply(cfg, s, CreateMarker(t));
    forall u | u in r.tasks ensures TaskOk(cfg, r, r.tasks[u]) {
      assert u != t ==> TaskOk(cfg, s, s.tasks[u]);
    }
  }

  lemma {:induction false} CreateTempKeeps(cfg: Config, s: State, t: nat)
    requires Inv(cfg, s) && Enabled(cfg, s, CreateTemp(t))
    ensures Inv(cfg, Apply(cfg, s, CreateTemp(t)))
  {
    assert TaskOk(cfg, s, s.tasks[t]);
    var r := Apply(cfg, s, CreateTemp(t));
    forall u | u in r.tasks ensures TaskOk(cfg, r, r.tasks[u]) {
      assert u != t ==> TaskOk(cfg, s, s.tasks[u]);
    }
  }

  lemma {:induction false} RemoveBlobKeeps(cfg: Config, s: State, t: nat)
    requires Inv(cfg, s) && Enabled(cfg, s, RemoveBlob(t))
    ensures Inv(cfg, Apply(cfg, s, RemoveBlob(t)))
  {
    assert forall u | u in s.tasks && s.tasks[u].Unmarking? :: TaskOk(cfg, s, s.tasks[u]);
    var r := Apply(cfg, s, RemoveBlob(t));
    forall u | u in r.tasks ensures TaskOk(cfg, r, r.tasks[u]) {
      assert u != t ==> TaskOk(cfg, s, s.tasks[u]);
    }
  }

  lemma {:induction false} RemoveMarkerKeeps(cfg: Config, s: State, t: nat)
    requires Inv(cfg, s) && Enabled(cfg, s, RemoveMarker(t))
    ensures Inv(cfg, Apply(cfg, s, RemoveMarker(t)))
  {
    assert TaskOk(cfg, s, s.tasks[t]);
    var r := Apply(cfg, s, RemoveMarker(t));
    forall u | u in r.tasks ensures TaskOk(cfg, r, r.tasks[u]) {
      assert TaskOk(cfg, s, s.tasks[u]);
    }
  }

  lemma {:induction false} GetKeeps(cfg: Config, s: State, step: Step)
    requires Inv(cfg, s) && (step.ReadBlob? || step.ListMarkers?) && Enabled(cfg, s, step)
    ensures Inv(cfg, Apply(cfg, s, step))
  {
    var r := Apply(cfg, s, step);
    forall u | u in r.tasks ensures TaskOk(cfg, r, r.tasks[u]) {
      assert u != step.task ==> TaskOk(cfg, s, s.tasks[u]);
    }
  }

  lemma {:induction false} StepKeeps(cfg: Config, s: State, step: Step)
    requires IsExclusive(cfg) && Inv(cfg, s) && Enabled(cfg, s, step)
    ensures Inv(cfg, Apply(cfg, s, step))
  {
    match step
    case StartPut(t, ref, data) => StartKeeps(cfg, s, t, Putting(ref.key, data));
    case StartDelete(t, key) => StartKeeps(cfg, s, t, Deleting(key));
    case StartGet(t, key) => StartKeeps(cfg, s, t, Getting(key));
    case CreateMarker(t) => CreateMarkerKeeps(cfg, s, t);
    case CreateTemp(t) => CreateTempKeeps(cfg, s, t);
    case Write(t, more) => WriteKeeps(cfg, s, t, more);
    case Rename(t) => RenameKeeps(cfg, s, t);
    case RemoveBlob(t) => RemoveBlobKeeps(cfg, s, t);
    case RemoveMarker(t) => RemoveMarkerKeeps(cfg, s, t);
    case ReadBlob(_) => GetKeeps(cfg, s, step);
    case ListMarkers(_) => GetKeeps(cfg, s, step);
    case Fail(t) => EndKeeps(cfg, s, t);
    case Crash =>
  }

  /** After any steps and any crashes, each blob at its final path has its marker and hashes to its name. */
  lemma {:induction false} AlwaysSound(cfg: Config, steps: seq<Step>)
    requires IsExclusive(cfg)
    ensures Inv(cfg, Run(cfg, steps))
    decreases |steps|
  {
    if steps == [] {
    } else {
      AlwaysSound(cfg, steps[..|steps| - 1]);
      var s := Run(cfg, steps[..|steps| - 1]);
      if Enabled(cfg, s, steps[|steps| - 1]) {
        StepKeeps(cfg, s, steps[|steps| - 1]);
      }
    }
  }

  // ---------------------------------------------------------------------------------------------
  // What overlapping writers can do
  // ---------------------------------------------------------------------------------------------

  /** A get or a delete under a name of its own; a put under another one is refused. */
  predicate IsOwnStep(step: Step) {
    match step
    case StartDelete(_, key) => IsOwnName(key.sha256)
    case StartGet(_, key) => IsOwnName(key.sha256)
    case _ => true
  }

  predicate OwnSteps(steps: seq<Step>) {
    forall i | 0 <= i < |steps| :: IsOwnStep(steps[i])
  }

  ghost predicate Reachable(cfg: Config, s: State) {
    exists steps :: OwnSteps(steps) && Run(cfg, steps) == s
  }

  lemma {:induction false} ReachEmpty(cfg: Config)
    ensures Reachable(cfg, EMPTY)
  {
    assert Run(cfg, []) == EMPTY;
  }

  lemma {:induction false} ReachNext(cfg: Config, s: State, step: Step, r: State)
    requires Reachable(cfg, s) && IsOwnStep(step) && Enabled(cfg, s, step) && Apply(cfg, s, step) == r
    ensures Reachable(cfg, r)
  {
    var steps :| OwnSteps(steps) && Run(cfg, steps) == s;
    assert (steps + [step])[..|steps|] == steps;
    assert Run(cfg, steps + [step]) == r;
  }

  lemma {:induction false} PutMarked(cfg: Config, key: Key, data: Bytes)
    requires cfg.sha(data) == key.sha256
    ensures Reachable(cfg, EMPTY.(markers := {key}, tasks := map[0 := Marked(key, data)]))
  {
    ReachEmpty(cfg);
    var s := EMPTY.(tasks := map[0 := Putting(key, data)]);
    ReachNext(cfg, EMPTY, StartPut(0, Ref(key, |data|), data), s);
    ReachNext(cfg, s, CreateMarker(0), EMPTY.(markers := {key}, tasks := map[0 := Marked(key, data)]));
  }

  /** A first put that has written all its data but not yet renamed. */
  lemma {:induction false} PutWritten(cfg: Config, key: Key, data: Bytes)
    requires cfg.sha(data) == key.sha256
    ensures Reachable(cfg, EMPTY.(markers := {key}, temps := map[key := data],
                                  tasks := map[0 := Writing(key, data, |data|)]))
  {
    PutMarked(cfg, key, data);
    var marked := EMPTY.(markers := {key}, tasks := map[0 := Marked(key, data)]);
    var s := EMPTY.(markers := {key}, temps := map[key := []], tasks := map[0 := Writing(key, data, 0)]);
    ReachNext(cfg, marked, CreateTemp(0), s);
    WriteExtends(data, 0, |data|);
    assert data[..0] == [] && data[0..|data|] == data[..|data|] == data;
    ReachNext(cfg, s, Write(0, |data|), s.(temps := map[key := data], tasks := map[0 := Writing(key, data, |data|)]));
  }

  lemma {:induction false} StoredBlob(cfg: Config, key: Key, data: Bytes)
    requires cfg.sha(data) == key.sha256
    ensures Reachable(cfg, EMPTY.(blobs := map[key := data], markers := {key}))
  {
    PutWritten(cfg, key, data);
    var s := EMPTY.(markers := {key}, temps := map[key := data], tasks := map[0 := Writing(key, data, |data|)]);
    ReachNext(cfg, s, Rename(0), EMPTY.(blobs := map[key := data], markers := {key}));
  }

  lemma {:induction false} SecondPutMarked(cfg: Config, key: Key, data: Bytes, first: Task, s: State)
    requires cfg.sha(data) == key.sha256 && cfg.twoPuts && Reachable(cfg, s) && first == Writing(key, data, |data|)
    requires s == EMPTY.(markers := {key}, temps := map[key := data], tasks := map[0 := first])
    ensures Reachable(cfg, s.(tasks := map[0 := first, 1 := Marked(key, data)]))
  {
    var s1 := s.(tasks := map[0 := first, 1 := Putting(key, data)]);
    ReachNext(cfg, s, StartPut(1, Ref(key, |data|), data), s1);
    ReachNext(cfg, s1, CreateMarker(1), s.(tasks := map[0 := first, 1 := Marked(key, data)]));
  }

  lemma {:induction false} FirstPutRenames(cfg: Config, key: Key, data: Bytes, first: Task, s: State)
    requires Reachable(cfg, s) && first == Writing(key, data, |data|)
    requires s == EMPTY.(markers := {key}, temps := map[key := data], tasks := map[0 := first, 1 := Marked(key, data)])
    ensures Reachable(cfg, EMPTY.(blobs := map[key := []], markers := {key}, tasks := map[1 := Writing(key, data, 0)]))
  {
    var s1 := s.(temps := map[key := []], tasks := map[0 := first, 1 := Writing(key, data, 0)]);
    ReachNext(cfg, s, CreateTemp(1), s1);
    ReachNext(cfg, s1, Rename(0),
              EMPTY.(blobs := map[key := []], markers := {key}, tasks := map[1 := Writing(key, data, 0)]));
  }

  /** A second put creates the shared `.tmp` anew just before the first one renames it: the blob is cut to nothing. */
  lemma {:induction false} TwoPutsTruncate(cfg: Config, key: Key, data: Bytes)
    requires cfg.sha(data) == key.sha256 && cfg.twoPuts
    ensures Reachable(cfg, EMPTY.(blobs := map[key := []], markers := {key}, tasks := map[1 := Writing(key, data, 0)]))
  {
    var first := Writing(key, data, |data|);
    var s := EMPTY.(markers := {key}, temps := map[key := data], tasks := map[0 := first]);
    PutWritten(cfg, key, data);
    SecondPutMarked(cfg, key, data, first, s);
    FirstPutRenames(cfg, key, data, first, s.(tasks := map[0 := first, 1 := Marked(key, data)]));
  }

  lemma {:induction false} MarkWhileUnmarking(cfg: Config, key: Key, s: State)
    requires cfg.sha([]) == key.sha256 && cfg.putAndDelete && Reachable(cfg, s)
    requires s == EMPTY.(markers := {key}, tasks := map[1 := Unmarking(key)])
    ensures Reachable(cfg, s.(tasks := map[1 := Unmarking(key), 2 := Marked(key, [])]))
  {
    var s1 := s.(tasks := map[1 := Unmarking(key), 2 := Putting(key, [])]);
    ReachNext(cfg, s, StartPut(2, Ref(key, 0), []), s1);
    ReachNext(cfg, s1, CreateMarker(2), s.(tasks := map[1 := Unmarking(key), 2 := Marked(key, [])]));
  }

  lemma {:induction false} RenameWhileUnmarking(cfg: Config, key: Key, s: State)
    requires Reachable(cfg, s)
    requires s == EMPTY.(markers := {key}, tasks := map[1 := Unmarking(key), 2 := Marked(key, [])])
    ensures Reachable(cfg, s.(blobs := map[key := []], tasks := map[1 := Unmarking(key)]))
  {
    var s1 := s.(tasks := map[1 := Unmarking(key), 2 := Writing(key, [], 0)], temps := map[key := []]);
    ReachNext(cfg, s, CreateTemp(2), s1);
    ReachNext(cfg, s1, Rename(2), s.(blobs := map[key := []], tasks := map[1 := Unmarking(key)]));
  }

  /** A put runs to its end between the two steps of a delete: the blob is left without its marker. */
  lemma {:induction false} PutAndDeleteUnmark(cfg: Config, key: Key)
    requires cfg.sha([]) == key.sha256 && cfg.putAndDelete && IsOwnName(key.sha256)
    ensures Reachable(cfg, EMPTY.(blobs := map[key := []]))
  {
    StoredBlob(cfg, key, []);
    var s := EMPTY.(blobs := map[key := []], markers := {key});
    var s1 := s.(tasks := map[1 := Deleting(key)]);
    ReachNext(cfg, s, StartDelete(1, key), s1);
    var s2 := EMPTY.(markers := {key}, tasks := map[1 := Unmarking(key)]);
    ReachNext(cfg, s1, RemoveBlob(1), s2);
    MarkWhileUnmarking(cfg, key, s2);
    RenameWhileUnmarking(cfg, key, s2.(tasks := map[1 := Unmarking(key), 2 := Marked(key, [])]));
    ReachNext(cfg, s2.(blobs := map[key := []]), RemoveMarker(1), EMPTY.(blobs := map[key := []]));
  }

  ghost predicate IsAlwaysSound(cfg: Config) {
    forall s | Reachable(cfg, s) :: IsSound(cfg.sha, s.blobs, s.markers)
  }

  /**
   * Whatever the steps and crashes, each blob at its final path has its marker and hashes to its name,
   * exactly when no put overlaps another put or a delete of its blob.
   */
  lemma {:induction false} SoundExactly(cfg: Config, data: Bytes)
    requires PrintsDigests(cfg.sha) && cfg.sha(data) != cfg.sha([])
    ensures IsAlwaysSound(cfg) <==> IsExclusive(cfg)
  {
    if IsExclusive(cfg) {
      forall s | Reachable(cfg, s) ensures IsSound(cfg.sha, s.blobs, s.markers) {
        var steps :| OwnSteps(steps) && Run(cfg, steps) == s;
        AlwaysSound(cfg, steps);
      }
    } else if cfg.putAndDelete {
      var key := Key(0, cfg.sha([]));
      DigestIsOwn(key.sha256);
      var s := EMPTY.(blobs := map[key := []]);
      PutAndDeleteUnmark(cfg, key);
      assert key in s.blobs && key !in s.markers;
    } else {
      var key := Key(0, cfg.sha(data));
      var s := EMPTY.(blobs := map[key := []], markers := {key}, tasks := map[1 := Writing(key, data, 0)]);
      TwoPutsTruncate(cfg, key, data);
      assert key in s.blobs && s.blobs[key] == [];
    }
  }
}
