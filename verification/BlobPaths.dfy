/**
 * Where the filesystem store keeps its files (rb-blob, filesystem.rs), and where a name leads. A tenant's
 * blob lives at `<tenant>/<sha256>`, its marker at `_index/<sha256>/<tenant>`; the names of a get or a
 * delete are joined to those directories as they come, and the operating system resolves them.
 */
module BlobPaths {
  /** An absolute path, resolved: the names of its directories and of the file. */
  type Path = seq<string>

  type Tenant = int

  datatype Key = Key(tenant: Tenant, sha256: string)

  // ---------------------------------------------------------------------------------------------
  // Joining and resolving
  // ---------------------------------------------------------------------------------------------

  /** Length of the first component of a path text. */
  function FirstLen(s: string): (n: nat)
    ensures n <= |s| && '/' !in s[..n] && (n < |s| ==> s[n] == '/')
    ensures '/' !in s ==> n == |s|
  {
    if s == "" || s[0] == '/' then 0
    else
      assert forall n | 0 < n <= |s| :: s[..n] == [s[0]] + s[1..][..n - 1];
      1 + FirstLen(s[1..])
  }

  /** What stands between the slashes. */
  function Components(s: string): (cs: seq<string>)
    ensures forall c | c in cs :: '/' !in c
    ensures '/' !in s ==> cs == [s]
    decreases s
  {
    var n := FirstLen(s);
    if n == |s| then assert s[..n] == s; [s] else [s[..n]] + Components(s[n + 1..])
  }

  function Enter(dir: Path, c: string): Path {
    if c == "" || c == "." then dir
    else if c == ".." then if dir == [] then [] else dir[..|dir| - 1]
    else dir + [c]
  }

  function Walk(dir: Path, cs: seq<string>): Path
    decreases |cs|
  {
    if cs == [] then dir else Walk(Enter(dir, cs[0]), cs[1..])
  }

  /** `Path::join`, resolved: an absolute name replaces the directory. */
  function Join(dir: Path, name: string): Path {
    Walk(if name != "" && name[0] == '/' then [] else dir, Components(name))
  }

  /** A single component that names a file of its own. */
  predicate IsPlain(c: string) {
    c != "" && c != "." && c != ".." && '/' !in c
  }

  predicate IsPath(p: Path) {
    forall c | c in p :: IsPlain(c)
  }

  lemma {:induction false} EnterIsPath(dir: Path, c: string)
    requires IsPath(dir) && '/' !in c
    ensures IsPath(Enter(dir, c))
  {
  }

  lemma {:induction false} WalkIsPath(dir: Path, cs: seq<string>)
    requires IsPath(dir) && forall c | c in cs :: '/' !in c
    ensures IsPath(Walk(dir, cs))
    decreases |cs|
  {
    if cs == [] {
    } else {
      EnterIsPath(dir, cs[0]);
      WalkIsPath(Enter(dir, cs[0]), cs[1..]);
    }
  }

  lemma {:induction false} WalkPlain(dir: Path, c: string, cs: seq<string>)
    requires IsPlain(c)
    ensures Walk(dir, [c] + cs) == Walk(dir + [c], cs)
  {
    assert ([c] + cs)[1..] == cs;
  }

  lemma {:induction false} WalkOne(dir: Path, c: string)
    requires IsPlain(c)
    ensures Walk(dir, [c]) == dir + [c]
  {
    assert [c] == [c] + [];
    WalkPlain(dir, c, []);
  }

  lemma {:induction false} JoinPlain(dir: Path, name: string)
    requires IsPlain(name)
    ensures Join(dir, name) == dir + [name]
  {
    assert Components(name) == [name];
    WalkOne(dir, name);
  }

  /** A name stands for the file of that name in the directory exactly when it is a plain component. */
  lemma {:induction false} JoinPlainExactly(dir: Path, name: string)
    requires IsPath(dir)
    ensures Join(dir, name) == dir + [name] <==> IsPlain(name)
  {
    if IsPlain(name) {
      JoinPlain(dir, name);
    } else {
      WalkIsPath(if name != "" && name[0] == '/' then [] else dir, Components(name));
      assert name in dir + [name];
    }
  }

  // ---------------------------------------------------------------------------------------------
  // The store's files
  // ---------------------------------------------------------------------------------------------

  /** `show`: the text form of a tenant's UUID. */
  datatype Layout = Layout(base: Path, show: Tenant -> string)

  ghost predicate IsLayout(l: Layout) {
    && IsPath(l.base)
    && (forall t: Tenant :: IsPlain(l.show(t)) && l.show(t) != "_index")
    && forall t: Tenant, u: Tenant :: l.show(t) == l.show(u) ==> t == u
  }

  function BlobPath(l: Layout, key: Key): Path {
    Join(l.base + [l.show(key.tenant)], key.sha256)
  }

  function IndexDir(l: Layout, sha256: string): Path {
    Join(l.base + ["_index"], sha256)
  }

  function MarkerPath(l: Layout, key: Key): Path {
    Join(IndexDir(l, key.sha256), l.show(key.tenant))
  }

  /** What `compute_sha256` prints. */
  predicate IsDigest(s: string) {
    |s| == 64 && forall i | 0 <= i < 64 :: '0' <= s[i] <= '9' || 'a' <= s[i] <= 'f'
  }

  const TMP := ".tmp"

  /** The name of the temporary file of a put. */
  predicate IsTemp(name: string) {
    |name| == 68 && IsDigest(name[..64]) && name[64..] == TMP
  }

  /** `with_extension("tmp")`, of a name without a dot. */
  function TempPath(l: Layout, key: Key): Path {
    BlobPath(l, Key(key.tenant, key.sha256 + TMP))
  }

  datatype File = BlobFile(key: Key) | TempFile(key: Key) | MarkerFile(key: Key)

  /** Where a file of the store belongs. */
  function Place(l: Layout, f: File): Path {
    match f
    case BlobFile(k) => l.base + [l.show(k.tenant), k.sha256]
    case TempFile(k) => l.base + [l.show(k.tenant), k.sha256 + TMP]
    case MarkerFile(k) => l.base + ["_index", k.sha256, l.show(k.tenant)]
  }

  /** A plain component, and not the name of a temporary file. */
  predicate IsOwnName(name: string) {
    IsPlain(name) && !IsTemp(name)
  }

  lemma {:induction false} DigestIsOwn(s: string)
    requires IsDigest(s)
    ensures IsOwnName(s)
  {
    assert s != "" && s != "." && s != "..";
  }

  lemma {:induction false} DigestTemp(s: string)
    requires IsDigest(s)
    ensures IsTemp(s + TMP) && IsPlain(s + TMP)
  {
    DigestIsOwn(s);
    assert (s + TMP)[..64] == s && (s + TMP)[64..] == TMP;
    assert '/' !in TMP;
  }

  lemma {:induction false} SameTwo(base: Path, a: string, b: string, c: string, d: string)
    requires base + [a, b] == base + [c, d]
    ensures a == c && b == d
  {
    assert (base + [a, b])[|base|] == a && (base + [a, b])[|base| + 1] == b;
    assert (base + [c, d])[|base|] == c && (base + [c, d])[|base| + 1] == d;
  }

  lemma {:induction false} SameThree(base: Path, a: string, b: string, c: string, d: string, e: string, f: string)
    requires base + [a, b, c] == base + [d, e, f]
    ensures a == d && b == e && c == f
  {
    assert (base + [a, b, c])[|base|] == a && (base + [a, b, c])[|base| + 1] == b
      && (base + [a, b, c])[|base| + 2] == c;
    assert (base + [d, e, f])[|base|] == d && (base + [d, e, f])[|base| + 1] == e
      && (base + [d, e, f])[|base| + 2] == f;
  }

  lemma {:induction false} SameName(a: string, b: string)
    requires a + TMP == b + TMP
    ensures a == b
  {
    assert |a| == |b| && a == (a + TMP)[..|a|] && b == (b + TMP)[..|b|];
  }

  predicate IsStored(f: File) {
    IsDigest(f.key.sha256)
  }

  /** A name of its own leads to no file of another key, nor to another kind of file. */
  lemma {:induction false} PlacesDiffer(l: Layout, f: File, g: File)
    requires IsLayout(l) && IsStored(g) && Place(l, f) == Place(l, g)
    requires if f.TempFile? then IsDigest(f.key.sha256) else IsOwnName(f.key.sha256)
    ensures f == g
  {
    assert |Place(l, f)| == |Place(l, g)|;
    var k, m := f.key, g.key;
    DigestTemp(m.sha256);
    if f.MarkerFile? {
      SameThree(l.base, "_index", k.sha256, l.show(k.tenant), "_index", m.sha256, l.show(m.tenant));
    } else {
      var a := if f.BlobFile? then k.sha256 else k.sha256 + TMP;
      var b := if g.BlobFile? then m.sha256 else m.sha256 + TMP;
      SameTwo(l.base, l.show(k.tenant), a, l.show(m.tenant), b);
      if f.TempFile? {
        DigestTemp(k.sha256);
        DigestIsOwn(m.sha256);
        if g.TempFile? {
          SameName(k.sha256, m.sha256);
        }
      }
    }
  }

  lemma {:induction false} OwnPlaces(l: Layout, key: Key)
    requires IsLayout(l) && IsPlain(key.sha256)
    ensures BlobPath(l, key) == Place(l, BlobFile(key)) && MarkerPath(l, key) == Place(l, MarkerFile(key))
    ensures IndexDir(l, key.sha256) == l.base + ["_index", key.sha256]
  {
    JoinPlain(l.base + [l.show(key.tenant)], key.sha256);
    JoinPlain(l.base + ["_index"], key.sha256);
    JoinPlain(IndexDir(l, key.sha256), l.show(key.tenant));
  }

  lemma {:induction false} TempPlace(l: Layout, key: Key)
    requires IsLayout(l) && IsDigest(key.sha256)
    ensures TempPath(l, key) == Place(l, TempFile(key))
  {
    DigestTemp(key.sha256);
    OwnPlaces(l, Key(key.tenant, key.sha256 + TMP));
  }

  /** The paths of an operation are those of its own key, and belong to no other file of the store. */
  ghost predicate TouchesOwnOnly(l: Layout, key: Key) {
    && BlobPath(l, key) == Place(l, BlobFile(key)) && MarkerPath(l, key) == Place(l, MarkerFile(key))
    && IndexDir(l, key.sha256) == l.base + ["_index", key.sha256]
    && forall f | IsStored(f) && Place(l, f) in {BlobPath(l, key), MarkerPath(l, key)} :: f.key == key && !f.TempFile?
  }

  lemma {:induction false} TempIsForeign(l: Layout, key: Key)
    requires IsLayout(l) && IsTemp(key.sha256)
    ensures !TouchesOwnOnly(l, key)
  {
    var f := TempFile(Key(key.tenant, key.sha256[..64]));
    assert key.sha256[..64] + TMP == key.sha256;
    TempPlace(l, f.key);
    assert IsStored(f) && Place(l, f) == BlobPath(l, key);
  }

  /**
   * An operation touches only its own key's files exactly when the name it is given is a single plain
   * component, and not that of a temporary file.
   */
  lemma {:induction false} TouchesOwnOnlyExactly(l: Layout, key: Key)
    requires IsLayout(l)
    ensures TouchesOwnOnly(l, key) <==> IsOwnName(key.sha256)
  {
    if IsOwnName(key.sha256) {
      OwnPlaces(l, key);
      forall f | IsStored(f) && Place(l, f) in {BlobPath(l, key), MarkerPath(l, key)}
        ensures f.key == key && !f.TempFile?
      {
        if Place(l, f) == Place(l, BlobFile(key)) {
          PlacesDiffer(l, BlobFile(key), f);
        } else {
          PlacesDiffer(l, MarkerFile(key), f);
        }
      }
    } else if IsPlain(key.sha256) {
      TempIsForeign(l, key);
    } else {
      var dir := l.base + [l.show(key.tenant)];
      assert forall c | c in dir :: c in l.base || c == l.show(key.tenant);
      JoinPlainExactly(dir, key.sha256);
      assert l.base + [l.show(key.tenant), key.sha256] == dir + [key.sha256];
    }
  }

  // ---------------------------------------------------------------------------------------------
  // Names that lead elsewhere
  // ---------------------------------------------------------------------------------------------

  lemma {:induction false} FirstLenIs(c: string, rest: string)
    requires '/' !in c
    ensures FirstLen(c + "/" + rest) == |c|
    decreases c
  {
    var s := c + "/" + rest;
    if c == "" {
    } else {
      assert s[1..] == c[1..] + "/" + rest;
      FirstLenIs(c[1..], rest);
    }
  }

  lemma {:induction false} ComponentsCons(c: string, rest: string)
    requires '/' !in c
    ensures Components(c + "/" + rest) == [c] + Components(rest)
  {
    var s := c + "/" + rest;
    FirstLenIs(c, rest);
    assert s[..|c|] == c && s[|c| + 1..] == rest;
  }

  /** `../c/rest`, from the directory of a tenant. */
  function Beside(c: string, rest: string): string {
    "../" + (c + "/" + rest)
  }

  lemma {:induction false} BesideWalks(dir: Path, c: string, rest: string)
    requires dir != [] && IsPlain(c)
    ensures Join(dir, Beside(c, rest)) == Walk(dir[..|dir| - 1] + [c], Components(rest))
  {
    var up, cs := "..", Components(c + "/" + rest);
    assert Beside(c, rest) == up + "/" + (c + "/" + rest);
    ComponentsCons(up, c + "/" + rest);
    ComponentsCons(c, rest);
    assert ([up] + cs)[1..] == cs;
    WalkPlain(dir[..|dir| - 1], c, Components(rest));
  }

  /** Up from the tenant's directory and down into another one. */
  lemma {:induction false} UpAndDown(l: Layout, t: Tenant, c: string, rest: string)
    requires IsPlain(c)
    ensures BlobPath(l, Key(t, Beside(c, rest))) == Walk(l.base + [c], Components(rest))
  {
    var dir := l.base + [l.show(t)];
    assert dir[..|dir| - 1] == l.base;
    BesideWalks(dir, c, rest);
  }

  /** One tenant's name for another tenant's blob. */
  lemma {:induction false} SiblingName(l: Layout, t: Tenant, other: Key)
    requires IsLayout(l) && IsPlain(other.sha256)
    ensures BlobPath(l, Key(t, Beside(l.show(other.tenant), other.sha256))) == Place(l, BlobFile(other))
  {
    UpAndDown(l, t, l.show(other.tenant), other.sha256);
    WalkOne(l.base + [l.show(other.tenant)], other.sha256);
  }

  lemma {:induction false} ThreeSteps(base: Path, index: string, sha256: string, tenant: string)
    requires IsPlain(sha256) && IsPlain(tenant)
    ensures Walk(base + [index], Components(sha256 + "/" + tenant)) == base + [index, sha256, tenant]
  {
    ComponentsCons(sha256, tenant);
    WalkPlain(base + [index], sha256, [tenant]);
    WalkOne(base + [index] + [sha256], tenant);
  }

  /** And for its marker. */
  lemma {:induction false} MarkerName(l: Layout, t: Tenant, other: Key, index: string)
    requires IsLayout(l) && IsPlain(other.sha256) && index == "_index"
    ensures BlobPath(l, Key(t, Beside(index, other.sha256 + "/" + l.show(other.tenant)))) == Place(l, MarkerFile(other))
  {
    UpAndDown(l, t, index, other.sha256 + "/" + l.show(other.tenant));
    ThreeSteps(l.base, index, other.sha256, l.show(other.tenant));
  }

  /** A name that begins with a slash has nothing to do with the store. */
  lemma {:induction false} AbsoluteName(l: Layout, t: Tenant, c: string)
    requires IsPlain(c)
    ensures BlobPath(l, Key(t, "/" + c)) == [c]
  {
    var none, name := "", "/" + c;
    assert name == none + "/" + c;
    ComponentsCons(none, c);
    assert ([none] + [c])[1..] == [c];
    WalkOne([], c);
  }
}
