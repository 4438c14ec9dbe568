/**
 * The step after fusion (rb-query, hybrid.rs): scores scaled to [0, 1], locations attached, and names
 * without a source path dropped. `backfilled` is what the database answered for the names that only
 * the dense list has.
 */
module RrfHits {
  import opened Prelude
  import opened Rrf

  datatype HybridHit = HybridHit(fqn: string, repoId: string, meta: Meta, score: real)

  /** The best score, or zero. */
  function MaxScore(fused: seq<Fused>): (m: real)
    ensures m >= 0.0 && (forall i | 0 <= i < |fused| :: fused[i].score <= m)
    ensures m == 0.0 || exists i :: 0 <= i < |fused| && fused[i].score == m
  {
    if fused == [] then 0.0
    else
      var before := MaxScore(fused[..|fused| - 1]);
      if fused[|fused| - 1].score > before then fused[|fused| - 1].score else before
  }

  /** A later sparse hit of the same name replaces an earlier one. */
  function SparseMeta(sparse: seq<SparseHit>, name: string): Option<Meta> {
    if sparse == [] then None
    else if sparse[|sparse| - 1].fqn == name then Some(sparse[|sparse| - 1].meta)
    else SparseMeta(sparse[..|sparse| - 1], name)
  }

  function MetaOf(sparse: seq<SparseHit>, backfilled: map<string, Meta>, name: string): Meta {
    if SparseMeta(sparse, name).Some? then SparseMeta(sparse, name).value
    else if name in backfilled then backfilled[name]
    else Meta(None, None, None)
  }

  /** The characters `str::trim` removes. */
  predicate IsWhitespace(c: char) {
    var n := c as int;
    || 9 <= n <= 13 || n == 0x20 || n == 0x85 || n == 0xA0 || n == 0x1680 || 0x2000 <= n <= 0x200A
    || n == 0x2028 || n == 0x2029 || n == 0x202F || n == 0x205F || n == 0x3000
  }

  /** Something is left of the path after trimming. */
  predicate HasPath(m: Meta) {
    m.sourcePath.Some? && exists i :: 0 <= i < |m.sourcePath.value| && !IsWhitespace(m.sourcePath.value[i])
  }

  function Scaled(score: real, max: real): real {
    if max > 0.0 then score / max else 0.0
  }

  function HitOf(f: Fused, max: real, sparse: seq<SparseHit>, backfilled: map<string, Meta>): HybridHit {
    HybridHit(f.fqn, f.repoId, MetaOf(sparse, backfilled, f.fqn), Scaled(f.score, max))
  }

  function HitsOf(fused: seq<Fused>, max: real, sparse: seq<SparseHit>, backfilled: map<string, Meta>): seq<HybridHit> {
    if fused == [] then []
    else
      var hit := HitOf(fused[0], max, sparse, backfilled);
      (if HasPath(hit.meta) then [hit] else []) + HitsOf(fused[1..], max, sparse, backfilled)
  }

  function BuildAnnotatedHits(fused: seq<Fused>, sparse: seq<SparseHit>,
                              backfilled: map<string, Meta>): seq<HybridHit> {
    HitsOf(fused, MaxScore(fused), sparse, backfilled)
  }

  // ---------------------------------------------------------------------------------------------
  // Order and range
  // ---------------------------------------------------------------------------------------------

  lemma {:induction false} ScaledInRange(score: real, max: real)
    requires 0.0 <= score <= max
    ensures 0.0 <= Scaled(score, max) <= 1.0 && (score == max > 0.0 ==> Scaled(score, max) == 1.0)
  {
  }

  lemma {:induction false} ScaledKeepsOrder(a: real, b: real, max: real)
    requires a >= b
    ensures Scaled(a, max) >= Scaled(b, max)
  {
  }

  /** A hit comes from a fused name with a path, and each such name has its hit. */
  lemma {:induction false} HitsAreTheCited(fused: seq<Fused>, max: real, sparse: seq<SparseHit>,
                                           backfilled: map<string, Meta>, hit: HybridHit)
    ensures hit in HitsOf(fused, max, sparse, backfilled) <==>
      HasPath(hit.meta) && exists i :: 0 <= i < |fused| && HitOf(fused[i], max, sparse, backfilled) == hit
  {
    if fused == [] {
    } else {
      HitsAreTheCited(fused[1..], max, sparse, backfilled, hit);
      if i :| 0 <= i < |fused| && HitOf(fused[i], max, sparse, backfilled) == hit {
        assert i > 0 ==> fused[1..][i - 1] == fused[i];
      }
    }
  }

  predicate IsAhead(hit: HybridHit, later: HybridHit) {
    hit.score >= later.score && hit.fqn != later.fqn
  }

  predicate IsOrdered(hits: seq<HybridHit>) {
    forall i, j | 0 <= i < j < |hits| :: IsAhead(hits[i], hits[j])
  }

  lemma {:induction false} OrderedCons(hit: HybridHit, hits: seq<HybridHit>)
    requires IsOrdered(hits) && forall j | 0 <= j < |hits| :: IsAhead(hit, hits[j])
    ensures IsOrdered([hit] + hits)
  {
  }

  lemma {:induction false} FirstIsAhead(fused: seq<Fused>, max: real, sparse: seq<SparseHit>,
                                        backfilled: map<string, Meta>, later: HybridHit)
    requires fused != [] && IsDescending(fused) && IsDistinct(fused)
    requires later in HitsOf(fused[1..], max, sparse, backfilled)
    ensures IsAhead(HitOf(fused[0], max, sparse, backfilled), later)
  {
    HitsAreTheCited(fused[1..], max, sparse, backfilled, later);
    var i :| 0 <= i < |fused[1..]| && HitOf(fused[1..][i], max, sparse, backfilled) == later;
    assert fused[1..][i] == fused[i + 1];
    ScaledKeepsOrder(fused[0].score, fused[i + 1].score, max);
  }

  lemma {:induction false} HitsAreOrdered(fused: seq<Fused>, max: real, sparse: seq<SparseHit>,
                                          backfilled: map<string, Meta>)
    requires IsDescending(fused) && IsDistinct(fused)
    ensures IsOrdered(HitsOf(fused, max, sparse, backfilled))
  {
    if fused == [] {
    } else {
      var hit, rest := HitOf(fused[0], max, sparse, backfilled), HitsOf(fused[1..], max, sparse, backfilled);
      HitsAreOrdered(fused[1..], max, sparse, backfilled);
      forall j | 0 <= j < |rest| ensures IsAhead(hit, rest[j]) {
        FirstIsAhead(fused, max, sparse, backfilled, rest[j]);
      }
      OrderedCons(hit, rest);
      assert [] + rest == rest;
    }
  }

  lemma {:induction false} FusedScoresArePositive(dense: seq<DenseHit>, sparse: seq<SparseHit>, k: real, limit: nat,
                                                  fused: seq<Fused>, i: nat)
    requires k >= 0.0 && IsFusion(dense, sparse, k, limit, fused) && i < |fused|
    ensures fused[i].score > 0.0
  {
  }

  /** After fusion the hits have scores in [0, 1], best first, no name twice; a cited top name scores exactly one. */
  lemma {:induction false} AnnotatedHits(dense: seq<DenseHit>, sparse: seq<SparseHit>, k: real, limit: nat,
                                         fused: seq<Fused>, backfilled: map<string, Meta>)
    requires k >= 0.0 && IsFusion(dense, sparse, k, limit, fused)
    ensures var hits := BuildAnnotatedHits(fused, sparse, backfilled);
      && IsOrdered(hits)
      && (forall hit | hit in hits :: 0.0 <= hit.score <= 1.0 && HasPath(hit.meta))
      && (fused != [] && HasPath(MetaOf(sparse, backfilled, fused[0].fqn)) ==>
           hits != [] && hits[0].fqn == fused[0].fqn && hits[0].score == 1.0)
  {
    var max := MaxScore(fused);
    var hits := BuildAnnotatedHits(fused, sparse, backfilled);
    HitsAreOrdered(fused, max, sparse, backfilled);
    forall hit | hit in hits ensures 0.0 <= hit.score <= 1.0 && HasPath(hit.meta) {
      HitsAreTheCited(fused, max, sparse, backfilled, hit);
      var i :| 0 <= i < |fused| && HitOf(fused[i], max, sparse, backfilled) == hit;
      FusedScoresArePositive(dense, sparse, k, limit, fused, i);
      ScaledInRange(fused[i].score, max);
    }
    if fused != [] {
      FusedScoresArePositive(dense, sparse, k, limit, fused, 0);
      ScaledInRange(fused[0].score, max);
    }
  }

  // ---------------------------------------------------------------------------------------------
  // What a hit says
  // ---------------------------------------------------------------------------------------------

  /** The code points with the Unicode property White_Space. */
  const WHITE_SPACE := [0x9, 0xA, 0xB, 0xC, 0xD, 0x20, 0x85, 0xA0, 0x1680,
                        0x2000, 0x2001, 0x2002, 0x2003, 0x2004, 0x2005, 0x2006, 0x2007, 0x2008, 0x2009,
                        0x200A, 0x2028, 0x2029, 0x202F, 0x205F, 0x3000]

  lemma {:induction false} WhitespaceTable(c: char)
    ensures IsWhitespace(c) <==> c as int in WHITE_SPACE
  {
    var n := c as int;
    if 9 <= n <= 13 {
      assert WHITE_SPACE[n - 9] == n;
    } else if 0x2000 <= n <= 0x200A {
      assert WHITE_SPACE[9 + n - 0x2000] == n;
    } else if IsWhitespace(c) {
      assert n in [WHITE_SPACE[5], WHITE_SPACE[6], WHITE_SPACE[7], WHITE_SPACE[8], WHITE_SPACE[20], WHITE_SPACE[21],
                   WHITE_SPACE[22], WHITE_SPACE[23], WHITE_SPACE[24]];
    }
  }

  /** A name is cited when it has a path with a character that is no white space. */
  lemma {:induction false} PathExactly(m: Meta)
    ensures HasPath(m) <==>
      && m.sourcePath.Some?
      && exists i :: 0 <= i < |m.sourcePath.value| && m.sourcePath.value[i] as int !in WHITE_SPACE
  {
    if m.sourcePath.Some? {
      var path := m.sourcePath.value;
      forall i | 0 <= i < |path| ensures IsWhitespace(path[i]) <==> path[i] as int in WHITE_SPACE {
        WhitespaceTable(path[i]);
      }
    }
  }

  /** The last sparse hit of a name gives its location. */
  lemma {:induction false} LastSparseCounts(sparse: seq<SparseHit>, name: string)
    ensures SparseMeta(sparse, name).None? <==> forall i | 0 <= i < |sparse| :: sparse[i].fqn != name
    ensures SparseMeta(sparse, name).Some? ==>
      exists i :: 0 <= i < |sparse| && sparse[i].fqn == name && sparse[i].meta == SparseMeta(sparse, name).value
                  && forall j | i < j < |sparse| :: sparse[j].fqn != name
    decreases |sparse|
  {
    if sparse == [] {
    } else if sparse[|sparse| - 1].fqn != name {
      var front := sparse[..|sparse| - 1];
      LastSparseCounts(front, name);
      assert forall i | 0 <= i < |front| :: front[i] == sparse[i];
    }
  }

  /** The hit is of that fused name, with its share of the best score. */
  predicate IsShare(f: Fused, max: real, hit: HybridHit) {
    && f.fqn == hit.fqn && f.repoId == hit.repoId
    && hit.score == if max > 0.0 then f.score / max else 0.0
  }

  /** Every hit has the score of its fused name as a share of the best one. */
  lemma {:induction false} HitsAreShares(fused: seq<Fused>, sparse: seq<SparseHit>, backfilled: map<string, Meta>,
                                         hit: HybridHit)
    requires hit in BuildAnnotatedHits(fused, sparse, backfilled)
    ensures exists i :: 0 <= i < |fused| && IsShare(fused[i], MaxScore(fused), hit)
  {
    var max := MaxScore(fused);
    HitsAreTheCited(fused, max, sparse, backfilled, hit);
    var i :| 0 <= i < |fused| && HitOf(fused[i], max, sparse, backfilled) == hit;
  }

  lemma {:induction false} MetaIs(sparse: seq<SparseHit>, backfilled: map<string, Meta>, name: string)
    ensures (forall i | 0 <= i < |sparse| :: sparse[i].fqn != name) ==>
      MetaOf(sparse, backfilled, name) == if name in backfilled then backfilled[name] else Meta(None, None, None)
    ensures forall i | 0 <= i < |sparse| && sparse[i].fqn == name
      && (forall j | i < j < |sparse| :: sparse[j].fqn != name) :: MetaOf(sparse, backfilled, name) == sparse[i].meta
  {
    LastSparseCounts(sparse, name);
  }

  /** And the location of the last sparse hit of its name, else what the database answered for it, else none. */
  lemma {:induction false} HitsAreLocated(fused: seq<Fused>, sparse: seq<SparseHit>, backfilled: map<string, Meta>,
                                          hit: HybridHit)
    requires hit in BuildAnnotatedHits(fused, sparse, backfilled)
    ensures (forall i | 0 <= i < |sparse| :: sparse[i].fqn != hit.fqn) ==>
      hit.meta == if hit.fqn in backfilled then backfilled[hit.fqn] else Meta(None, None, None)
    ensures forall i | 0 <= i < |sparse| && sparse[i].fqn == hit.fqn
      && (forall j | i < j < |sparse| :: sparse[j].fqn != hit.fqn) :: hit.meta == sparse[i].meta
  {
    HitsAreTheCited(fused, MaxScore(fused), sparse, backfilled, hit);
    MetaIs(sparse, backfilled, hit.fqn);
  }
}
