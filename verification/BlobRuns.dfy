/**
 * Whole runs of the filesystem store (rb-blob, filesystem.rs), one operation after another: with names of
 * their own the operations make up a map from (tenant, sha256) to bytes. Other names lead elsewhere.
 */
module BlobRuns {
  import opened Prelude
  import opened BlobPaths
  import opened BlobStore

  // ---------------------------------------------------------------------------------------------
  // On keys
  // ---------------------------------------------------------------------------------------------

  function DiskAfter(sha: Bytes -> string, ops: seq<Op>): Disk {
    if ops == [] then BLANK else DiskStep(sha, DiskAfter(sha, ops[..|ops| - 1]), ops[|ops| - 1])
  }

  function OpKey(op: Op): Key {
    match op case DoPut(ref, _) => ref.key case DoDelete(k) => k
  }

  /** The last operation on `key` decides what the store holds for it; other operations cannot. */
  function Expected(sha: Bytes -> string, ops: seq<Op>, key: Key): Option<Bytes> {
    if ops == [] then None
    else
      var op, before := ops[|ops| - 1], ops[..|ops| - 1];
      if OpKey(op) != key || (op.DoPut? && Refusal(sha, op.ref, op.data).Some?) then Expected(sha, before, key)
      else if op.DoPut? then Some(op.data) else None
  }

  function HeldIn(d: Disk, key: Key): Option<Bytes> {
    if key in d.blobs then Some(d.blobs[key]) else None
  }

  lemma {:induction false} DiskHoldsTheLast(sha: Bytes -> string, ops: seq<Op>, key: Key)
    ensures HeldIn(DiskAfter(sha, ops), key) == Expected(sha, ops, key)
    decreases |ops|
  {
    if ops == [] {
    } else {
      DiskHoldsTheLast(sha, ops[..|ops| - 1], key);
    }
  }

  lemma {:induction false} DiskIsOwned(sha: Bytes -> string, ops: seq<Op>)
    ensures var d := DiskAfter(sha, ops); d.markers == d.blobs.Keys && IsSound(sha, d.blobs, d.markers)
    decreases |ops|
  {
    if ops == [] {
    } else {
      DiskIsOwned(sha, ops[..|ops| - 1]);
    }
  }

  // ---------------------------------------------------------------------------------------------
  // On files
  // ---------------------------------------------------------------------------------------------

  function FilesAfter(l: Layout, sha: Bytes -> string, start: Files, ops: seq<Op>): Files {
    if ops == [] then start else FileStep(l, sha, FilesAfter(l, sha, start, ops[..|ops| - 1]), ops[|ops| - 1])
  }

  /** No delete is given a name that leads elsewhere; a put is refused one. */
  predicate OwnNames(ops: seq<Op>) {
    forall i | 0 <= i < |ops| && ops[i].DoDelete? :: IsOwnName(ops[i].key.sha256)
  }

  /** A store with nothing in it; outside its base directory there may be anything. */
  ghost predicate IsBare(l: Layout, files: Files) {
    IsImage(l, files, BLANK)
  }

  lemma {:induction false} FilesFollowKeys(l: Layout, sha: Bytes -> string, start: Files, ops: seq<Op>)
    requires IsLayout(l) && PrintsDigests(sha) && IsBare(l, start) && OwnNames(ops)
    ensures IsImage(l, FilesAfter(l, sha, start, ops), DiskAfter(sha, ops))
    decreases |ops|
  {
    if ops == [] {
    } else {
      var before, op := ops[..|ops| - 1], ops[|ops| - 1];
      FilesFollowKeys(l, sha, start, before);
      var files, d := FilesAfter(l, sha, start, before), DiskAfter(sha, before);
      match op
      case DoPut(ref, data) =>
        if Refusal(sha, ref, data).None? {
          PutFollows(l, sha, files, d, ref, data);
        }
      case DoDelete(key) =>
        DeleteFollows(l, sha, files, d, key);
    }
  }

  function Answered(held: Option<Bytes>): Seen {
    if held.Some? then Found(held.value) else Nothing
  }

  /** After any run over names of their own, a blob is what the last operation on it left. */
  lemma {:induction false} HoldsTheLastPut(l: Layout, sha: Bytes -> string, start: Files, ops: seq<Op>, key: Key)
    requires IsLayout(l) && PrintsDigests(sha) && IsBare(l, start) && OwnNames(ops) && IsOwnName(key.sha256)
    ensures Look(FilesAfter(l, sha, start, ops), BlobPath(l, key)) == Answered(Expected(sha, ops, key))
  {
    FilesFollowKeys(l, sha, start, ops);
    LookOwn(l, FilesAfter(l, sha, start, ops), DiskAfter(sha, ops), key);
    DiskHoldsTheLast(sha, ops, key);
  }

  lemma {:induction false} HoldsExactly(l: Layout, files: Files, d: Disk, f: File)
    requires IsLayout(l) && IsImage(l, files, d) && CanTouch(f)
    ensures Place(l, f) in files <==> Holds(d, f)
  {
    if Place(l, f) in files {
      PlaceIsUnder(l, f);
      var g :| Holds(d, g) && Place(l, g) == Place(l, f);
      PlacesDiffer(l, f, g);
    }
  }

  /** Markers are exactly the blobs owned, and content hashes to its name. */
  lemma {:induction false} MarkersAreOwnership(l: Layout, sha: Bytes -> string, start: Files, ops: seq<Op>, key: Key)
    requires IsLayout(l) && PrintsDigests(sha) && IsBare(l, start) && OwnNames(ops) && IsOwnName(key.sha256)
    ensures var files := FilesAfter(l, sha, start, ops);
      && (MarkerPath(l, key) in files <==> BlobPath(l, key) in files)
      && (BlobPath(l, key) in files ==> sha(files[BlobPath(l, key)]) == key.sha256)
  {
    var files, d := FilesAfter(l, sha, start, ops), DiskAfter(sha, ops);
    FilesFollowKeys(l, sha, start, ops);
    DiskIsOwned(sha, ops);
    OwnPlaces(l, key);
    HoldsExactly(l, files, d, MarkerFile(key));
    HoldsExactly(l, files, d, BlobFile(key));
    LookOwn(l, files, d, key);
  }

  /** So a tenant without the content is told of a mismatch exactly when another one has it. */
  lemma {:induction false} MismatchIsOwnership(l: Layout, sha: Bytes -> string, start: Files, ops: seq<Op>, key: Key)
    requires IsLayout(l) && PrintsDigests(sha) && IsBare(l, start) && OwnNames(ops) && IsOwnName(key.sha256)
    ensures var files := FilesAfter(l, sha, start, ops);
      GetAnswer(l, files, key) == Err(TenantMismatch) <==>
        BlobPath(l, key) !in files && exists t :: t != key.tenant && BlobPath(l, Key(t, key.sha256)) in files
  {
    var files, d := FilesAfter(l, sha, start, ops), DiskAfter(sha, ops);
    FilesFollowKeys(l, sha, start, ops);
    DiskIsOwned(sha, ops);
    AnswersFollow(l, files, d, key);
    LookOwn(l, files, d, key);
    forall t ensures BlobPath(l, Key(t, key.sha256)) in files <==> Key(t, key.sha256) in d.blobs {
      LookOwn(l, files, d, Key(t, key.sha256));
    }
    if OtherOwner(d.markers, key) {
      var k :| k in d.markers && k.sha256 == key.sha256 && k.tenant != key.tenant;
      assert k == Key(k.tenant, key.sha256);
    }
  }

  function OpsOn(ops: seq<Op>, key: Key): seq<Op> {
    if ops == [] then []
    else
      var mine := OpsOn(ops[..|ops| - 1], key);
      if OpKey(ops[|ops| - 1]) == key then mine + [ops[|ops| - 1]] else mine
  }

  lemma {:induction false} OwnOpsDecide(sha: Bytes -> string, ops: seq<Op>, key: Key)
    ensures Expected(sha, ops, key) == Expected(sha, OpsOn(ops, key), key)
    ensures OwnNames(ops) ==> OwnNames(OpsOn(ops, key))
    decreases |ops|
  {
    if ops == [] {
    } else {
      OwnOpsDecide(sha, ops[..|ops| - 1], key);
      var mine := OpsOn(ops, key);
      if OpKey(ops[|ops| - 1]) == key {
        assert mine[..|mine| - 1] == OpsOn(ops[..|ops| - 1], key);
      }
    }
  }

  /** Isolation: a blob is what it would be had there been no operation on any other key. */
  lemma {:induction false} OthersDoNotMatter(l: Layout, sha: Bytes -> string, start: Files, ops: seq<Op>, key: Key)
    requires IsLayout(l) && PrintsDigests(sha) && IsBare(l, start) && OwnNames(ops) && IsOwnName(key.sha256)
    ensures Look(FilesAfter(l, sha, start, ops), BlobPath(l, key)) ==
      Look(FilesAfter(l, sha, start, OpsOn(ops, key)), BlobPath(l, key))
  {
    OwnOpsDecide(sha, ops, key);
    HoldsTheLastPut(l, sha, start, ops, key);
    HoldsTheLastPut(l, sha, start, OpsOn(ops, key), key);
  }

  // ---------------------------------------------------------------------------------------------
  // Names that lead elsewhere
  // ---------------------------------------------------------------------------------------------

  ghost predicate SparesOthers(l: Layout, sha: Bytes -> string, key: Key) {
    forall files: Files, p: Path | p in files && p != Place(l, BlobFile(key)) && p != Place(l, MarkerFile(key)) ::
      p in FileStep(l, sha, files, DoDelete(key))
  }

  /** A delete removes nothing but its own key's files, whatever is on the disk, exactly when the name is plain. */
  lemma {:induction false} SparesOthersExactly(l: Layout, sha: Bytes -> string, key: Key)
    requires IsLayout(l)
    ensures SparesOthers(l, sha, key) <==> IsPlain(key.sha256)
  {
    if IsPlain(key.sha256) {
      OwnPlaces(l, key);
    } else {
      var p := BlobPath(l, key);
      ElsewhereIsNotOwn(l, key);
      var files: Files := map[p := []];
      assert p in files && p !in FileStep(l, sha, files, DoDelete(key));
    }
  }

  lemma {:induction false} ElsewhereIsNotOwn(l: Layout, key: Key)
    requires IsLayout(l) && !IsPlain(key.sha256)
    ensures BlobPath(l, key) != Place(l, BlobFile(key)) && BlobPath(l, key) != Place(l, MarkerFile(key))
  {
    var dir := l.base + [l.show(key.tenant)];
    assert forall c | c in dir :: c in l.base || c == l.show(key.tenant);
    WalkIsPath(if key.sha256 != "" && key.sha256[0] == '/' then [] else dir, Components(key.sha256));
    assert key.sha256 in Place(l, BlobFile(key)) by {
      assert Place(l, BlobFile(key))[|l.base| + 1] == key.sha256;
    }
    assert key.sha256 in Place(l, MarkerFile(key)) by {
      assert Place(l, MarkerFile(key))[|l.base| + 1] == key.sha256;
    }
  }

  /** A name that goes up and down again reads another tenant's blob, and deletes it. */
  lemma {:induction false} SiblingIsReached(l: Layout, sha: Bytes -> string, files: Files, t: Tenant, other: Key)
    requires IsLayout(l) && IsPlain(other.sha256) && Place(l, BlobFile(other)) in files
    ensures var key := Key(t, Beside(l.show(other.tenant), other.sha256));
      && GetAnswer(l, files, key) == Ok(files[Place(l, BlobFile(other))])
      && Place(l, BlobFile(other)) !in FileStep(l, sha, files, DoDelete(key))
  {
    SiblingName(l, t, other);
  }

  lemma {:induction false} MarkerNameMarker(l: Layout, t: Tenant, other: Key, index: string)
    requires IsLayout(l) && IsPlain(other.sha256) && index == "_index"
    ensures |MarkerPath(l, Key(t, Beside(index, other.sha256 + "/" + l.show(other.tenant))))| == |l.base| + 4
  {
    var dir := l.base + [index];
    assert dir[..|dir| - 1] == l.base;
    BesideWalks(dir, index, other.sha256 + "/" + l.show(other.tenant));
    ThreeSteps(l.base, index, other.sha256, l.show(other.tenant));
    JoinPlain(l.base + [index, other.sha256, l.show(other.tenant)], l.show(t));
  }

  /** One that goes into the index deletes another tenant's marker, and leaves the blob without it. */
  lemma {:induction false} MarkerIsReached(l: Layout, sha: Bytes -> string, files: Files, t: Tenant, other: Key,
                                           index: string)
    requires IsLayout(l) && IsDigest(other.sha256) && index == "_index"
    requires Place(l, BlobFile(other)) in files && Place(l, MarkerFile(other)) in files
    ensures var key := Key(t, Beside(index, other.sha256 + "/" + l.show(other.tenant)));
      !AreSound(l, sha, FileStep(l, sha, files, DoDelete(key)))
  {
    var key := Key(t, Beside(index, other.sha256 + "/" + l.show(other.tenant)));
    DigestIsOwn(other.sha256);
    MarkerName(l, t, other, index);
    MarkerNameMarker(l, t, other, index);
    Apart(l, BlobFile(other), MarkerFile(other));
    var files' := FileStep(l, sha, files, DoDelete(key));
    assert Place(l, BlobFile(other)) in files' && Place(l, MarkerFile(other)) !in files';
  }

  /** And the name of a temporary file reads a put that is only half way. */
  lemma {:induction false} TempIsReached(l: Layout, files: Files, key: Key)
    requires IsLayout(l) && IsDigest(key.sha256) && Place(l, TempFile(key)) in files
    ensures GetAnswer(l, files, Key(key.tenant, key.sha256 + ".tmp")) == Ok(files[Place(l, TempFile(key))])
  {
    TempPlace(l, key);
  }
}
