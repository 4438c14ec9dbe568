/**
 * The filesystem blob store (rb-blob, filesystem.rs), one operation after another. The store is a map from
 * paths to contents; names are joined and resolved as in `BlobPaths`. As long as they are names of their
 * own, the store is a map from (tenant, sha256) to bytes.
 */
module BlobStore {
  import opened Prelude
  import opened BlobPaths

  type Bytes = seq<bv8>

  type Files = map<Path, Bytes>

  datatype Ref = Ref(key: Key, size: nat)

  datatype Error =
    | NotFound(tenant: Tenant, sha256: string)
    | TenantMismatch
    | Sha256Mismatch(expected: string, got: string)
    | SizeMismatch(wanted: nat, actual: nat)
    | Io

  /** Why a put is refused before anything is written. */
  function Refusal(sha: Bytes -> string, ref: Ref, data: Bytes): Option<Error> {
    if |data| != ref.size then Some(SizeMismatch(ref.size, |data|))
    else if sha(data) != ref.key.sha256 then Some(Sha256Mismatch(ref.key.sha256, sha(data)))
    else None
  }

  // ---------------------------------------------------------------------------------------------
  // On paths
  // ---------------------------------------------------------------------------------------------

  /** `Blocked`: a directory, or a file on the way. */
  datatype Seen = Found(data: Bytes) | Nothing | Blocked

  /** `p` is a directory, or a file stands where a directory on the way should be. */
  predicate IsInTheWay(files: Files, p: Path) {
    exists q :: q in files && (p < q || q < p)
  }

  function Look(files: Files, p: Path): Seen {
    if p in files then Found(files[p])
    else if IsInTheWay(files, p) then Blocked
    else Nothing
  }

  /** Something in the directory of markers is not named like the tenant. */
  predicate HasOtherEntry(l: Layout, files: Files, key: Key) {
    var dir := IndexDir(l, key.sha256);
    exists p :: p in files && dir < p && p[|dir|] != l.show(key.tenant)
  }

  /** What a get or a delete of a missing blob reports. */
  function Report(l: Layout, files: Files, key: Key): Error {
    if HasOtherEntry(l, files, key) then TenantMismatch else NotFound(key.tenant, key.sha256)
  }

  datatype Op = DoPut(ref: Ref, data: Bytes) | DoDelete(key: Key)

  /** What one operation does to the files. */
  function FileStep(l: Layout, sha: Bytes -> string, files: Files, op: Op): Files {
    match op
    case DoPut(ref, data) =>
      if Refusal(sha, ref, data).Some? then files
      else
        var written := files[MarkerPath(l, ref.key) := []][TempPath(l, ref.key) := data];
        (written - {TempPath(l, ref.key)})[BlobPath(l, ref.key) := data]
    case DoDelete(key) =>
      if BlobPath(l, key) in files then files - {BlobPath(l, key)} - {MarkerPath(l, key)} else files
  }

  /** Under the base directory there are only the store's own files, and it is no file itself. */
  ghost predicate IsTidy(l: Layout, files: Files) {
    forall p | p in files :: !(p <= l.base) && (l.base <= p ==> exists f :: IsStored(f) && Place(l, f) == p)
  }

  /** Each blob has its marker, and its content hashes to its name. */
  ghost predicate AreSound(l: Layout, sha: Bytes -> string, files: Files) {
    forall k: Key | IsDigest(k.sha256) && Place(l, BlobFile(k)) in files ::
      Place(l, MarkerFile(k)) in files && sha(files[Place(l, BlobFile(k))]) == k.sha256
  }

  ghost predicate PrintsDigests(sha: Bytes -> string) {
    forall data: Bytes :: IsDigest(sha(data))
  }

  // ---------------------------------------------------------------------------------------------
  // On keys
  // ---------------------------------------------------------------------------------------------

  predicate OtherOwner(keys: set<Key>, key: Key) {
    exists k :: k in keys && k.sha256 == key.sha256 && k.tenant != key.tenant
  }

  /** The report, when these are the owners. */
  function Missing(owners: set<Key>, key: Key): Error {
    if OtherOwner(owners, key) then TenantMismatch else NotFound(key.tenant, key.sha256)
  }

  predicate IsSound(sha: Bytes -> string, blobs: map<Key, Bytes>, markers: set<Key>) {
    forall k | k in blobs :: k in markers && sha(blobs[k]) == k.sha256
  }

  datatype Disk = Disk(blobs: map<Key, Bytes>, markers: set<Key>, temps: map<Key, Bytes>)

  const BLANK := Disk(map[], {}, map[])

  predicate Holds(d: Disk, f: File) {
    match f
    case BlobFile(k) => k in d.blobs
    case TempFile(k) => k in d.temps
    case MarkerFile(k) => k in d.markers
  }

  function ContentOf(d: Disk, f: File): Bytes
    requires Holds(d, f)
  {
    match f
    case BlobFile(k) => d.blobs[k]
    case TempFile(k) => d.temps[k]
    case MarkerFile(k) => []
  }

  function DiskStep(sha: Bytes -> string, d: Disk, op: Op): Disk {
    match op
    case DoPut(ref, data) =>
      if Refusal(sha, ref, data).Some? then d
      else Disk(d.blobs[ref.key := data], d.markers + {ref.key}, d.temps - {ref.key})
    case DoDelete(key) => if key in d.blobs then d.(blobs := d.blobs - {key}, markers := d.markers - {key}) else d
  }

  /** The file of the disk that belongs at `p`. */
  ghost predicate IsPlaceOf(l: Layout, d: Disk, p: Path) {
    exists f :: Holds(d, f) && Place(l, f) == p
  }

  /** Under the base directory, the files are those that the keys say. */
  ghost predicate IsImage(l: Layout, files: Files, d: Disk) {
    && (forall f | Holds(d, f) :: IsStored(f) && Place(l, f) in files && files[Place(l, f)] == ContentOf(d, f))
    && forall p | p in files :: !(p <= l.base) && (l.base <= p ==> IsPlaceOf(l, d, p))
  }

  /** `d'` is `d` with `f` written. */
  ghost predicate IsWith(d: Disk, f: File, data: Bytes, d': Disk) {
    && (forall g :: Holds(d', g) <==> Holds(d, g) || g == f)
    && forall g | Holds(d', g) :: ContentOf(d', g) == if g == f then data else ContentOf(d, g)
  }

  /** `d'` is `d` with `f` removed. */
  ghost predicate IsWithout(d: Disk, f: File, d': Disk) {
    && (forall g :: Holds(d', g) <==> Holds(d, g) && g != f)
    && forall g | Holds(d', g) :: ContentOf(d', g) == ContentOf(d, g)
  }

  lemma {:induction false} PlaceIsUnder(l: Layout, f: File)
    ensures l.base < Place(l, f)
  {
  }

  lemma {:induction false} StaysPlace(l: Layout, d: Disk, d': Disk, p: Path, f: File)
    requires IsPlaceOf(l, d, p) && p != Place(l, f) && forall g | Holds(d, g) && g != f :: Holds(d', g)
    ensures IsPlaceOf(l, d', p)
  {
    var g :| Holds(d, g) && Place(l, g) == p;
    assert Holds(d', g);
  }

  predicate CanTouch(f: File) {
    if f.TempFile? then IsDigest(f.key.sha256) else IsOwnName(f.key.sha256)
  }

  lemma {:induction false} OnlyAt(l: Layout, files: Files, d: Disk, f: File, g: File)
    requires IsLayout(l) && IsImage(l, files, d) && CanTouch(f) && Holds(d, g) && g != f
    ensures Place(l, g) != Place(l, f)
  {
    if Place(l, g) == Place(l, f) {
      PlacesDiffer(l, f, g);
    }
  }

  lemma {:induction false} AddFile(l: Layout, files: Files, d: Disk, f: File, data: Bytes, d': Disk)
    requires IsLayout(l) && IsImage(l, files, d) && IsStored(f) && CanTouch(f) && IsWith(d, f, data, d')
    ensures IsImage(l, files[Place(l, f) := data], d')
  {
    var files' := files[Place(l, f) := data];
    forall g | Holds(d', g) ensures IsStored(g) && Place(l, g) in files' && files'[Place(l, g)] == ContentOf(d', g) {
      if g != f {
        OnlyAt(l, files, d, f, g);
      }
    }
    PlaceIsUnder(l, f);
    assert Holds(d', f);
    forall p | p in files' ensures !(p <= l.base) && (l.base <= p ==> IsPlaceOf(l, d', p)) {
      if p != Place(l, f) && l.base <= p {
        StaysPlace(l, d, d', p, f);
      }
    }
  }

  lemma {:induction false} DropFile(l: Layout, files: Files, d: Disk, f: File, d': Disk)
    requires IsLayout(l) && IsImage(l, files, d) && CanTouch(f) && IsWithout(d, f, d')
    ensures IsImage(l, files - {Place(l, f)}, d')
  {
    var files' := files - {Place(l, f)};
    forall g | Holds(d', g) ensures IsStored(g) && Place(l, g) in files' && files'[Place(l, g)] == ContentOf(d', g) {
      OnlyAt(l, files, d, f, g);
    }
    forall p | p in files' ensures !(p <= l.base) && (l.base <= p ==> IsPlaceOf(l, d', p)) {
      if l.base <= p {
        StaysPlace(l, d, d', p, f);
      }
    }
  }

  lemma {:induction false} NothingInTheWay(l: Layout, files: Files, d: Disk, key: Key, q: Path)
    requires IsLayout(l) && IsImage(l, files, d) && q in files
    ensures var p := Place(l, BlobFile(key)); !(p < q) && !(q < p)
  {
    var p := Place(l, BlobFile(key));
    if l.base <= q {
      var g :| Holds(d, g) && Place(l, g) == q;
      assert p[|l.base|] == l.show(key.tenant);
      assert g.MarkerFile? ==> q[|l.base|] == "_index";
    }
  }

  lemma {:induction false} NoSuchFile(l: Layout, files: Files, d: Disk, key: Key)
    requires IsLayout(l) && IsImage(l, files, d) && IsOwnName(key.sha256) && key !in d.blobs
    ensures Place(l, BlobFile(key)) !in files
  {
    var p := Place(l, BlobFile(key));
    if p in files {
      PlaceIsUnder(l, BlobFile(key));
      var g :| Holds(d, g) && Place(l, g) == p;
      PlacesDiffer(l, BlobFile(key), g);
    }
  }

  /** With a name of its own, a key finds its blob or nothing. */
  lemma {:induction false} LookOwn(l: Layout, files: Files, d: Disk, key: Key)
    requires IsLayout(l) && IsImage(l, files, d) && IsOwnName(key.sha256)
    ensures Look(files, BlobPath(l, key)) == if key in d.blobs then Found(d.blobs[key]) else Nothing
  {
    var p := BlobPath(l, key);
    OwnPlaces(l, key);
    if key in d.blobs {
      assert Holds(d, BlobFile(key));
    } else {
      NoSuchFile(l, files, d, key);
      forall q | q in files ensures !(p < q) && !(q < p) {
        NothingInTheWay(l, files, d, key, q);
      }
    }
  }

  lemma {:induction false} EntryIsMarker(l: Layout, files: Files, d: Disk, key: Key, dir: Path, p: Path)
    requires IsLayout(l) && IsImage(l, files, d) && p in files && dir == l.base + ["_index", key.sha256]
    requires dir < p && p[|dir|] != l.show(key.tenant)
    ensures OtherOwner(d.markers, key)
  {
    assert l.base <= dir && l.base <= p;
    var g :| Holds(d, g) && Place(l, g) == p;
    assert p[|l.base|] == dir[|l.base|] == "_index" && p[|l.base| + 1] == dir[|l.base| + 1] == key.sha256;
    assert g.MarkerFile?;
    assert g.key in d.markers;
  }

  lemma {:induction false} MarkerIsEntry(l: Layout, files: Files, d: Disk, key: Key, dir: Path, k: Key)
    requires IsLayout(l) && IsImage(l, files, d) && dir == l.base + ["_index", key.sha256] == IndexDir(l, key.sha256)
    requires k in d.markers && k.sha256 == key.sha256 && k.tenant != key.tenant
    ensures HasOtherEntry(l, files, key)
  {
    var p := Place(l, MarkerFile(k));
    assert Holds(d, MarkerFile(k)) && p == dir + [l.show(k.tenant)];
    assert p in files && dir < p && p[|dir|] == l.show(k.tenant);
  }

  lemma {:induction false} ReportOwn(l: Layout, files: Files, d: Disk, key: Key)
    requires IsLayout(l) && IsImage(l, files, d) && IsOwnName(key.sha256)
    ensures HasOtherEntry(l, files, key) <==> OtherOwner(d.markers, key)
    ensures Report(l, files, key) == Missing(d.markers, key)
  {
    var dir := IndexDir(l, key.sha256);
    OwnPlaces(l, key);
    if HasOtherEntry(l, files, key) {
      var p :| p in files && dir < p && p[|dir|] != l.show(key.tenant);
      EntryIsMarker(l, files, d, key, dir, p);
    }
    if OtherOwner(d.markers, key) {
      var k :| k in d.markers && k.sha256 == key.sha256 && k.tenant != key.tenant;
      MarkerIsEntry(l, files, d, key, dir, k);
    }
  }

  // ---------------------------------------------------------------------------------------------
  // The operations follow the keys
  // ---------------------------------------------------------------------------------------------

  function GetAnswer(l: Layout, files: Files, key: Key): Result<Bytes, Error> {
    match Look(files, BlobPath(l, key))
    case Found(data) => Ok(data)
    case Nothing => Err(Report(l, files, key))
    case Blocked => Err(Io)
  }

  function DeleteAnswer(l: Layout, files: Files, key: Key): Option<Error> {
    match Look(files, BlobPath(l, key))
    case Found(_) => None
    case Nothing => if HasOtherEntry(l, files, key) then Some(TenantMismatch) else None
    case Blocked => Some(Io)
  }

  lemma {:induction false} PutPlaces(l: Layout, key: Key)
    requires IsLayout(l) && IsDigest(key.sha256)
    ensures MarkerPath(l, key) == Place(l, MarkerFile(key)) && TempPath(l, key) == Place(l, TempFile(key))
    ensures BlobPath(l, key) == Place(l, BlobFile(key))
    ensures CanTouch(MarkerFile(key)) && CanTouch(TempFile(key)) && CanTouch(BlobFile(key))
  {
    DigestIsOwn(key.sha256);
    OwnPlaces(l, key);
    TempPlace(l, key);
  }

  // One file of a put or a delete at a time

  lemma {:induction false} MarkerFollows(l: Layout, files: Files, d: Disk, key: Key)
    requires IsLayout(l) && IsImage(l, files, d) && IsDigest(key.sha256)
    ensures IsImage(l, files[MarkerPath(l, key) := []], d.(markers := d.markers + {key}))
  {
    PutPlaces(l, key);
    AddFile(l, files, d, MarkerFile(key), [], d.(markers := d.markers + {key}));
  }

  lemma {:induction false} TempFollows(l: Layout, files: Files, d: Disk, key: Key, data: Bytes)
    requires IsLayout(l) && IsImage(l, files, d) && IsDigest(key.sha256)
    ensures IsImage(l, files[TempPath(l, key) := data], d.(temps := d.temps[key := data]))
  {
    PutPlaces(l, key);
    AddFile(l, files, d, TempFile(key), data, d.(temps := d.temps[key := data]));
  }

  lemma {:induction false} TempGone(l: Layout, files: Files, d: Disk, key: Key)
    requires IsLayout(l) && IsImage(l, files, d) && IsDigest(key.sha256)
    ensures IsImage(l, files - {TempPath(l, key)}, d.(temps := d.temps - {key}))
  {
    PutPlaces(l, key);
    DropFile(l, files, d, TempFile(key), d.(temps := d.temps - {key}));
  }

  lemma {:induction false} BlobFollows(l: Layout, files: Files, d: Disk, key: Key, data: Bytes)
    requires IsLayout(l) && IsImage(l, files, d) && IsDigest(key.sha256)
    ensures IsImage(l, files[BlobPath(l, key) := data], d.(blobs := d.blobs[key := data]))
  {
    PutPlaces(l, key);
    AddFile(l, files, d, BlobFile(key), data, d.(blobs := d.blobs[key := data]));
  }

  /** The rename that ends a put. */
  lemma {:induction false} RenameFollows(l: Layout, files: Files, d: Disk, key: Key, data: Bytes)
    requires IsLayout(l) && IsImage(l, files, d) && IsDigest(key.sha256)
    ensures IsImage(l, (files - {TempPath(l, key)})[BlobPath(l, key) := data],
                    d.(blobs := d.blobs[key := data], temps := d.temps - {key}))
  {
    TempGone(l, files, d, key);
    BlobFollows(l, files - {TempPath(l, key)}, d.(temps := d.temps - {key}), key, data);
  }

  lemma {:induction false} BlobGone(l: Layout, files: Files, d: Disk, key: Key)
    requires IsLayout(l) && IsImage(l, files, d) && IsOwnName(key.sha256)
    ensures IsImage(l, files - {BlobPath(l, key)}, d.(blobs := d.blobs - {key}))
  {
    OwnPlaces(l, key);
    DropFile(l, files, d, BlobFile(key), d.(blobs := d.blobs - {key}));
  }

  lemma {:induction false} MarkerGone(l: Layout, files: Files, d: Disk, key: Key)
    requires IsLayout(l) && IsImage(l, files, d) && IsOwnName(key.sha256)
    ensures IsImage(l, files - {MarkerPath(l, key)}, d.(markers := d.markers - {key}))
  {
    OwnPlaces(l, key);
    DropFile(l, files, d, MarkerFile(key), d.(markers := d.markers - {key}));
  }

  lemma {:induction false} TempFound(l: Layout, files: Files, d: Disk, key: Key)
    requires IsLayout(l) && IsImage(l, files, d) && IsDigest(key.sha256)
    ensures key in d.temps <==> TempPath(l, key) in files
    ensures key in d.temps ==> files[TempPath(l, key)] == d.temps[key]
  {
    PutPlaces(l, key);
    if key in d.temps {
      assert Holds(d, TempFile(key));
    } else if TempPath(l, key) in files {
      PlaceIsUnder(l, TempFile(key));
      var g :| Holds(d, g) && Place(l, g) == TempPath(l, key);
      PlacesDiffer(l, TempFile(key), g);
    }
  }

  lemma {:induction false} PutFollows(l: Layout, sha: Bytes -> string, files: Files, d: Disk, ref: Ref, data: Bytes)
    requires IsLayout(l) && PrintsDigests(sha) && IsImage(l, files, d) && Refusal(sha, ref, data).None?
    ensures IsImage(l, FileStep(l, sha, files, DoPut(ref, data)), DiskStep(sha, d, DoPut(ref, data)))
  {
    var key := ref.key;
    MarkerFollows(l, files, d, key);
    var files1, d1 := files[MarkerPath(l, key) := []], d.(markers := d.markers + {key});
    TempFollows(l, files1, d1, key, data);
    var files2, d2 := files1[TempPath(l, key) := data], d1.(temps := d1.temps[key := data]);
    RenameFollows(l, files2, d2, key, data);
    assert d2.temps - {key} == d.temps - {key};
  }

  lemma {:induction false} DeleteFollows(l: Layout, sha: Bytes -> string, files: Files, d: Disk, key: Key)
    requires IsLayout(l) && IsImage(l, files, d) && IsOwnName(key.sha256)
    ensures IsImage(l, FileStep(l, sha, files, DoDelete(key)), DiskStep(sha, d, DoDelete(key)))
  {
    LookOwn(l, files, d, key);
    if key in d.blobs {
      BlobGone(l, files, d, key);
      MarkerGone(l, files - {BlobPath(l, key)}, d.(blobs := d.blobs - {key}), key);
    }
  }

  lemma {:induction false} AnswersFollow(l: Layout, files: Files, d: Disk, key: Key)
    requires IsLayout(l) && IsImage(l, files, d) && IsOwnName(key.sha256)
    ensures GetAnswer(l, files, key) == if key in d.blobs then Ok(d.blobs[key]) else Err(Missing(d.markers, key))
    ensures DeleteAnswer(l, files, key) ==
      if key !in d.blobs && OtherOwner(d.markers, key) then Some(TenantMismatch) else None
  {
    LookOwn(l, files, d, key);
    ReportOwn(l, files, d, key);
  }

  // ---------------------------------------------------------------------------------------------
  // What the operations keep
  // ---------------------------------------------------------------------------------------------

  lemma {:induction false} StoredIsTidy(l: Layout, files: Files, f: File, data: Bytes)
    requires IsTidy(l, files) && IsStored(f)
    ensures IsTidy(l, files[Place(l, f) := data])
  {
    PlaceIsUnder(l, f);
  }

  lemma {:induction false} SoundAfterPut(l: Layout, sha: Bytes -> string, files: Files, files': Files, key: Key,
                                         data: Bytes)
    requires IsLayout(l) && AreSound(l, sha, files) && IsDigest(key.sha256) && sha(data) == key.sha256
    requires forall p | p in files && p != Place(l, TempFile(key)) :: p in files'
    requires forall p | p in files' && p != Place(l, MarkerFile(key)) && p != Place(l, BlobFile(key)) ::
      p in files && files'[p] == files[p]
    requires Place(l, MarkerFile(key)) in files' && Place(l, BlobFile(key)) in files'
    requires files'[Place(l, BlobFile(key))] == data
    ensures AreSound(l, sha, files')
  {
    forall k: Key | IsDigest(k.sha256) && Place(l, BlobFile(k)) in files'
      ensures Place(l, MarkerFile(k)) in files' && sha(files'[Place(l, BlobFile(k))]) == k.sha256
    {
      DigestIsOwn(k.sha256);
      if k != key {
        Apart(l, BlobFile(k), BlobFile(key));
        Apart(l, BlobFile(k), MarkerFile(key));
        Apart(l, MarkerFile(k), TempFile(key));
      }
    }
  }

  lemma {:induction false} Apart(l: Layout, f: File, g: File)
    requires IsLayout(l) && CanTouch(f) && IsStored(g) && f != g
    ensures Place(l, f) != Place(l, g)
  {
    if Place(l, f) == Place(l, g) {
      PlacesDiffer(l, f, g);
    }
  }

  lemma {:induction false} PutKeeps(l: Layout, sha: Bytes -> string, files: Files, ref: Ref, data: Bytes)
    requires IsLayout(l) && PrintsDigests(sha) && IsTidy(l, files) && Refusal(sha, ref, data).None?
    ensures var files' := FileStep(l, sha, files, DoPut(ref, data));
      IsTidy(l, files') && (AreSound(l, sha, files) ==> AreSound(l, sha, files'))
  {
    var key := ref.key;
    PutPlaces(l, key);
    var files1 := files[MarkerPath(l, key) := []];
    StoredIsTidy(l, files, MarkerFile(key), []);
    StoredIsTidy(l, files1, TempFile(key), data);
    var files2 := files1[TempPath(l, key) := data] - {TempPath(l, key)};
    StoredIsTidy(l, files2, BlobFile(key), data);
    Apart(l, MarkerFile(key), TempFile(key));
    Apart(l, MarkerFile(key), BlobFile(key));
    Apart(l, BlobFile(key), TempFile(key));
    if AreSound(l, sha, files) {
      SoundAfterPut(l, sha, files, FileStep(l, sha, files, DoPut(ref, data)), key, data);
    }
  }

  lemma {:induction false} SoundAfterDelete(l: Layout, sha: Bytes -> string, files: Files, files': Files, key: Key)
    requires IsLayout(l) && AreSound(l, sha, files) && IsOwnName(key.sha256)
    requires files' == files - {Place(l, BlobFile(key))} - {Place(l, MarkerFile(key))}
    ensures AreSound(l, sha, files')
  {
    forall k: Key | IsDigest(k.sha256) && Place(l, BlobFile(k)) in files'
      ensures Place(l, MarkerFile(k)) in files' && sha(files'[Place(l, BlobFile(k))]) == k.sha256
    {
      assert k != key;
      Apart(l, BlobFile(key), MarkerFile(k));
      Apart(l, MarkerFile(key), MarkerFile(k));
    }
  }

  lemma {:induction false} DeleteKeeps(l: Layout, sha: Bytes -> string, files: Files, key: Key)
    requires IsLayout(l) && IsTidy(l, files)
    ensures var files' := FileStep(l, sha, files, DoDelete(key));
      IsTidy(l, files') && (AreSound(l, sha, files) && IsOwnName(key.sha256) ==> AreSound(l, sha, files'))
  {
    if AreSound(l, sha, files) && IsOwnName(key.sha256) && BlobPath(l, key) in files {
      OwnPlaces(l, key);
      SoundAfterDelete(l, sha, files, FileStep(l, sha, files, DoDelete(key)), key);
    }
  }

  /** A blob under a name of its own is one that a put has stored. */
  lemma {:induction false} OwnIsSound(l: Layout, sha: Bytes -> string, files: Files, key: Key)
    requires IsLayout(l) && IsTidy(l, files)
    ensures AreSound(l, sha, files) && IsOwnName(key.sha256) && BlobPath(l, key) in files ==>
      sha(files[BlobPath(l, key)]) == key.sha256
  {
    if IsOwnName(key.sha256) && BlobPath(l, key) in files {
      OwnPlaces(l, key);
      PlaceIsUnder(l, BlobFile(key));
      var f :| IsStored(f) && Place(l, f) == BlobPath(l, key);
      PlacesDiffer(l, BlobFile(key), f);
    }
  }

  // ---------------------------------------------------------------------------------------------
  // The store
  // ---------------------------------------------------------------------------------------------

  class FilesystemStore {
    const layout: Layout
    const sha: Bytes -> string
    var files: Files

    ghost predicate Valid()
      reads this
    {
      IsLayout(layout) && PrintsDigests(sha) && IsTidy(layout, files)
    }

    constructor (layout: Layout, sha: Bytes -> string, files: Files)
      requires IsLayout(layout) && PrintsDigests(sha) && IsTidy(layout, files)
      ensures Valid() && this.layout == layout && this.sha == sha && this.files == files
    {
      this.layout, this.sha, this.files := layout, sha, files;
    }

    /** Walks the entries of `_index/<sha256>/`, in whatever order the directory gives them. */
    method Sha256ExistsOtherTenant(key: Key) returns (found: bool)
      ensures found == HasOtherEntry(layout, files, key)
    {
      var dir := IndexDir(layout, key.sha256);
      var entries := set p | p in files && dir < p :: p[|dir|];
      while entries != {}
        invariant forall p | p in files && dir < p && p[|dir|] !in entries :: p[|dir|] == layout.show(key.tenant)
        invariant forall e | e in entries :: exists p :: p in files && dir < p && p[|dir|] == e
        decreases |entries|
      {
        var entry :| entry in entries;
        if entry != layout.show(key.tenant) {
          return true;
        }
        entries := entries - {entry};
      }
      return false;
    }

    method Put(ref: Ref, data: Bytes) returns (r: Option<Error>)
      requires Valid()
      modifies this
      ensures Valid() && (old(AreSound(layout, sha, files)) ==> AreSound(layout, sha, files))
      ensures r == Refusal(sha, ref, data) && (r.Some? ==> files == old(files))
      ensures |data| != ref.size ==> r == Some(SizeMismatch(ref.size, |data|))
      ensures |data| == ref.size && sha(data) != ref.key.sha256 ==> r == Some(Sha256Mismatch(ref.key.sha256, sha(data)))
      ensures |data| == ref.size && sha(data) == ref.key.sha256 ==> r == None
      ensures files == FileStep(layout, sha, old(files), DoPut(ref, data))
    {
      if |data| != ref.size {
        return Some(SizeMismatch(ref.size, |data|));
      }
      var actual := sha(data);
      if actual != ref.key.sha256 {
        return Some(Sha256Mismatch(ref.key.sha256, actual));
      }
      PutKeeps(layout, sha, files, ref, data);
      files := files[MarkerPath(layout, ref.key) := []];
      var temp := TempPath(layout, ref.key);
      files := files[temp := data];
      files := (files - {temp})[BlobPath(layout, ref.key) := files[temp]];
      return None;
    }

    method Get(key: Key) returns (r: Result<Bytes, Error>)
      requires Valid()
      ensures r == GetAnswer(layout, files, key)
      ensures var p := BlobPath(layout, key);
        && (p in files ==> r == Ok(files[p]))
        && (p !in files && IsInTheWay(files, p) ==> r == Err(Io))
        && (p !in files && !IsInTheWay(files, p) ==>
              r == Err(if HasOtherEntry(layout, files, key) then TenantMismatch else NotFound(key.tenant, key.sha256)))
      ensures AreSound(layout, sha, files) && IsOwnName(key.sha256) && r.Ok? ==> sha(r.value) == key.sha256
    {
      OwnIsSound(layout, sha, files, key);
      match Look(files, BlobPath(layout, key))
      case Found(data) =>
        return Ok(data);
      case Nothing =>
        var other := Sha256ExistsOtherTenant(key);
        return Err(if other then TenantMismatch else NotFound(key.tenant, key.sha256));
      case Blocked =>
        return Err(Io);
    }

    method Delete(key: Key) returns (r: Option<Error>)
      requires Valid()
      modifies this
      ensures Valid() && (old(AreSound(layout, sha, files)) && IsOwnName(key.sha256) ==> AreSound(layout, sha, files))
      ensures files == FileStep(layout, sha, old(files), DoDelete(key)) && r == DeleteAnswer(layout, old(files), key)
      ensures var p := BlobPath(layout, key);
        && (p in old(files) ==> files == old(files) - {p} - {MarkerPath(layout, key)} && r == None)
        && (p !in old(files) ==> files == old(files))
        && (p !in old(files) && IsInTheWay(old(files), p) ==> r == Some(Io))
        && (p !in old(files) && !IsInTheWay(old(files), p) ==>
              r == if HasOtherEntry(layout, old(files), key) then Some(TenantMismatch) else None)
    {
      DeleteKeeps(layout, sha, files, key);
      match Look(files, BlobPath(layout, key))
      case Found(_) =>
        files := files - {BlobPath(layout, key)};
        files := files - {MarkerPath(layout, key)};
        return None;
      case Nothing =>
        var other := Sha256ExistsOtherTenant(key);
        return if other then Some(TenantMismatch) else None;
      case Blocked =>
        return Some(Io);
    }
  }
}
