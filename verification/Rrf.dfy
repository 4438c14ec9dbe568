/**
 * Reciprocal rank fusion of two ranked lists (rb-query, hybrid.rs), over exact reals. Names of equal
 * score may come in any order.
 */
module Rrf {
  import opened Prelude

  datatype DenseHit = DenseHit(fqn: string, repoId: string)

  datatype Meta = Meta(sourcePath: Option<string>, lineStart: Option<int>, lineEnd: Option<int>)

  datatype SparseHit = SparseHit(fqn: string, repoId: string, meta: Meta)

  datatype Fused = Fused(fqn: string, repoId: string, score: real)

  /** A list of names, best first. */
  type Ranking = seq<string>

  function DenseNames(dense: seq<DenseHit>): (r: Ranking)
    ensures |r| == |dense| && forall i | 0 <= i < |r| :: r[i] == dense[i].fqn
  {
    seq(|dense|, i requires 0 <= i < |dense| => dense[i].fqn)
  }

  function SparseNames(sparse: seq<SparseHit>): (r: Ranking)
    ensures |r| == |sparse| && forall i | 0 <= i < |r| :: r[i] == sparse[i].fqn
  {
    seq(|sparse|, i requires 0 <= i < |sparse| => sparse[i].fqn)
  }

  // ---------------------------------------------------------------------------------------------
  // The scores
  // ---------------------------------------------------------------------------------------------

  /** What rank `i`, counted from zero, is worth. */
  function Weight(k: real, i: nat): (w: real)
    requires k >= 0.0
    ensures w > 0.0
  {
    1.0 / (k + (i + 1) as real)
  }

  /** The sum over all positions of `name`. */
  function Points(ranking: Ranking, k: real, name: string): (p: real)
    requires k >= 0.0
    ensures p >= 0.0 && (p > 0.0 <==> name in ranking)
  {
    if ranking == [] then 0.0
    else
      Points(ranking[..|ranking| - 1], k, name) +
      if ranking[|ranking| - 1] == name then Weight(k, |ranking| - 1) else 0.0
  }

  /** In a list without repeats, the rank counted from one decides. */
  lemma {:induction false} PointsOfRank(ranking: Ranking, k: real, rank: nat)
    requires k >= 0.0 && 1 <= rank <= |ranking| && forall i, j | 0 <= i < j < |ranking| :: ranking[i] != ranking[j]
    ensures Points(ranking, k, ranking[rank - 1]) == 1.0 / (k + rank as real)
    decreases |ranking|
  {
    var front, name := ranking[..|ranking| - 1], ranking[rank - 1];
    if rank < |ranking| {
      PointsOfRank(front, k, rank);
    } else {
      assert name !in front;
      assert Points(front, k, name) == 0.0;
    }
  }

  function Score(dense: Ranking, sparse: Ranking, k: real, name: string): real
    requires k >= 0.0
  {
    Points(dense, k, name) + Points(sparse, k, name)
  }

  /** The score of a name with one rank in each list, and in one list only. */
  lemma {:induction false} ScoreOfRanks(dense: Ranking, sparse: Ranking, k: real, a: nat, b: nat)
    requires k >= 0.0 && 1 <= a <= |dense| && (forall i, j | 0 <= i < j < |dense| :: dense[i] != dense[j])
    requires 1 <= b <= |sparse| && (forall i, j | 0 <= i < j < |sparse| :: sparse[i] != sparse[j])
    ensures dense[a - 1] == sparse[b - 1] ==>
      Score(dense, sparse, k, dense[a - 1]) == 1.0 / (k + a as real) + 1.0 / (k + b as real)
    ensures dense[a - 1] !in sparse ==> Score(dense, sparse, k, dense[a - 1]) == 1.0 / (k + a as real)
    ensures sparse[b - 1] !in dense ==> Score(dense, sparse, k, sparse[b - 1]) == 1.0 / (k + b as real)
  {
    PointsOfRank(dense, k, a);
    PointsOfRank(sparse, k, b);
  }

  function Names(dense: Ranking, sparse: Ranking): set<string> {
    set n | n in dense + sparse
  }

  /** The repository of the first dense hit of that name, else of the first sparse one. */
  function RepoOf(dense: seq<DenseHit>, sparse: seq<SparseHit>, name: string): Option<string> {
    if dense != [] then if dense[0].fqn == name then Some(dense[0].repoId) else RepoOf(dense[1..], sparse, name)
    else if sparse != [] then if sparse[0].fqn == name then Some(sparse[0].repoId) else RepoOf(dense, sparse[1..], name)
    else None
  }

  // ---------------------------------------------------------------------------------------------
  // What a fusion is
  // ---------------------------------------------------------------------------------------------

  predicate IsDescending(r: seq<Fused>) {
    forall i, j | 0 <= i < j < |r| :: r[i].score >= r[j].score
  }

  predicate IsDistinct(r: seq<Fused>) {
    forall i, j | 0 <= i < j < |r| :: r[i].fqn != r[j].fqn
  }

  predicate IsKept(r: seq<Fused>, name: string) {
    exists i :: 0 <= i < |r| && r[i].fqn == name
  }

  predicate IsFusion(dense: seq<DenseHit>, sparse: seq<SparseHit>, k: real, limit: nat, r: seq<Fused>)
    requires k >= 0.0
  {
    var d, s := DenseNames(dense), SparseNames(sparse);
    && |r| == (if |Names(d, s)| < limit then |Names(d, s)| else limit)
    && IsDistinct(r) && IsDescending(r)
    && (forall i | 0 <= i < |r| :: r[i].fqn in Names(d, s) && r[i].score == Score(d, s, k, r[i].fqn))
    && (forall i | 0 <= i < |r| :: RepoOf(dense, sparse, r[i].fqn) == Some(r[i].repoId))
    && (forall n | n in Names(d, s) && !IsKept(r, n) :: forall i | 0 <= i < |r| :: Score(d, s, k, n) <= r[i].score)
  }

  // ---------------------------------------------------------------------------------------------
  // The computation
  // ---------------------------------------------------------------------------------------------

  type Scores = map<string, real>

  predicate Tallies(scores: Scores, d: Ranking, s: Ranking, k: real)
    requires k >= 0.0
  {
    scores.Keys == Names(d, s) && forall n | n in scores :: scores[n] == Score(d, s, k, n)
  }

  function Credit(scores: Scores, name: string, points: real): Scores {
    scores[name := (if name in scores then scores[name] else 0.0) + points]
  }

  lemma {:induction false} PointsOneMore(ranking: Ranking, k: real, i: nat, name: string)
    requires k >= 0.0 && i < |ranking|
    ensures Points(ranking[..i + 1], k, name) ==
      Points(ranking[..i], k, name) + if ranking[i] == name then Weight(k, i) else 0.0
  {
    assert ranking[..i + 1][..i] == ranking[..i];
  }

  lemma {:induction false} NamesOneMoreDense(d: Ranking, i: nat)
    requires i < |d|
    ensures Names(d[..i + 1], []) == Names(d[..i], []) + {d[i]}
  {
  }

  lemma {:induction false} NamesOneMoreSparse(d: Ranking, s: Ranking, i: nat)
    requires i < |s|
    ensures Names(d, s[..i + 1]) == Names(d, s[..i]) + {s[i]}
  {
  }

  lemma {:induction false} CreditDense(scores: Scores, d: Ranking, k: real, i: nat)
    requires k >= 0.0 && i < |d| && Tallies(scores, d[..i], [], k)
    ensures Tallies(Credit(scores, d[i], Weight(k, i)), d[..i + 1], [], k)
  {
    NamesOneMoreDense(d, i);
    forall n | n in Names(d[..i + 1], []) ensures Credit(scores, d[i], Weight(k, i))[n] == Score(d[..i + 1], [], k, n) {
      PointsOneMore(d, k, i, n);
    }
  }

  lemma {:induction false} CreditSparse(scores: Scores, d: Ranking, s: Ranking, k: real, i: nat)
    requires k >= 0.0 && i < |s| && Tallies(scores, d, s[..i], k)
    ensures Tallies(Credit(scores, s[i], Weight(k, i)), d, s[..i + 1], k)
  {
    NamesOneMoreSparse(d, s, i);
    forall n | n in Names(d, s[..i + 1]) ensures Credit(scores, s[i], Weight(k, i))[n] == Score(d, s[..i + 1], k, n) {
      PointsOneMore(s, k, i, n);
    }
  }

  method TallyScores(dense: seq<DenseHit>, sparse: seq<SparseHit>, k: real) returns (scores: Scores)
    requires k >= 0.0
    ensures Tallies(scores, DenseNames(dense), SparseNames(sparse), k)
  {
    scores := map[];
    ghost var d, s := DenseNames(dense), SparseNames(sparse);
    for i := 0 to |dense|
      invariant Tallies(scores, d[..i], [], k)
    {
      CreditDense(scores, d, k, i);
      scores := Credit(scores, dense[i].fqn, 1.0 / (k + (i + 1) as real));
    }
    assert d[..|d|] == d && s[..0] == [];
    for i := 0 to |sparse|
      invariant Tallies(scores, d, s[..i], k)
    {
      CreditSparse(scores, d, s, k, i);
      scores := Credit(scores, sparse[i].fqn, 1.0 / (k + (i + 1) as real));
    }
    assert s[..|s|] == s;
  }

  predicate RepoFits(repos: map<string, string>, all: Option<string>, rest: Option<string>, name: string) {
    all == if name in repos then Some(repos[name]) else rest
  }

  /** The first entry for a name stays. */
  method FirstRepos(dense: seq<DenseHit>, sparse: seq<SparseHit>) returns (repos: map<string, string>)
    ensures forall n :: RepoOf(dense, sparse, n) == if n in repos then Some(repos[n]) else None
  {
    repos := map[];
    for i := 0 to |dense|
      invariant forall n :: RepoFits(repos, RepoOf(dense, sparse, n), RepoOf(dense[i..], sparse, n), n)
    {
      if dense[i].fqn !in repos {
        repos := repos[dense[i].fqn := dense[i].repoId];
      }
    }
    assert dense[|dense|..] == [];
    for i := 0 to |sparse|
      invariant forall n :: RepoFits(repos, RepoOf(dense, sparse, n), RepoOf([], sparse[i..], n), n)
    {
      if sparse[i].fqn !in repos {
        repos := repos[sparse[i].fqn := sparse[i].repoId];
      }
    }
  }

  // Sorting and truncating

  datatype Entry = Entry(fqn: string, score: real)

  predicate IsSorted(r: seq<Entry>) {
    forall i, j | 0 <= i < j < |r| :: r[i].score >= r[j].score
  }

  predicate HasNoRepeats(r: seq<Entry>) {
    forall i, j | 0 <= i < j < |r| :: r[i].fqn != r[j].fqn
  }

  /** Each name of the map once, with its score. */
  predicate Lists(r: seq<Entry>, scores: Scores) {
    && HasNoRepeats(r) && |r| == |scores.Keys|
    && (forall x | x in r :: x.fqn in scores && scores[x.fqn] == x.score)
    && (forall n | n in scores :: Entry(n, scores[n]) in r)
  }

  function PlaceOf(r: seq<Entry>, score: real): (p: nat)
    ensures p <= |r| && (forall i | 0 <= i < p :: r[i].score >= score) && (p < |r| ==> r[p].score < score)
  {
    if r == [] || r[0].score < score then 0 else 1 + PlaceOf(r[1..], score)
  }

  function Inserted(r: seq<Entry>, p: nat, e: Entry): (t: seq<Entry>)
    requires p <= |r|
    ensures |t| == |r| + 1 && t[p] == e
    ensures (forall i | 0 <= i < p :: t[i] == r[i]) && (forall i | p <= i < |r| :: t[i + 1] == r[i])
    ensures forall i | p < i <= |r| :: t[i] == r[i - 1]
  {
    r[..p] + [e] + r[p..]
  }

  lemma {:induction false} InsertSorted(r: seq<Entry>, e: Entry)
    requires IsSorted(r)
    ensures IsSorted(Inserted(r, PlaceOf(r, e.score), e))
  {
    var p := PlaceOf(r, e.score);
    var t := Inserted(r, p, e);
    forall i, j | 0 <= i < j < |t| ensures t[i].score >= t[j].score {
      if p < j {
        assert t[j] == r[j - 1] && e.score >= r[j - 1].score;
      }
    }
  }

  lemma {:induction false} InsertedElements(r: seq<Entry>, p: nat, e: Entry)
    requires p <= |r|
    ensures forall x :: x in Inserted(r, p, e) <==> x in r || x == e
  {
  }

  lemma {:induction false} InsertDistinct(r: seq<Entry>, p: nat, e: Entry)
    requires p <= |r| && HasNoRepeats(r) && forall x | x in r :: x.fqn != e.fqn
    ensures HasNoRepeats(Inserted(r, p, e))
  {
  }

  lemma {:induction false} OneMoreKey(scores: Scores, e: Entry)
    requires e.fqn !in scores
    ensures |scores[e.fqn := e.score].Keys| == |scores.Keys| + 1
  {
  }

  lemma {:induction false} InsertCovers(r: seq<Entry>, scores: Scores, t: seq<Entry>, e: Entry)
    requires e.fqn !in scores && forall x :: x in t <==> x in r || x == e
    requires forall x | x in r :: x.fqn in scores && scores[x.fqn] == x.score
    requires forall n | n in scores :: Entry(n, scores[n]) in r
    ensures var more := scores[e.fqn := e.score];
      && (forall x | x in t :: x.fqn in more && more[x.fqn] == x.score)
      && forall n | n in more :: Entry(n, more[n]) in t
  {
  }

  lemma {:induction false} InsertLists(r: seq<Entry>, scores: Scores, p: nat, e: Entry)
    requires Lists(r, scores) && p <= |r| && e.fqn !in scores
    ensures Lists(Inserted(r, p, e), scores[e.fqn := e.score])
  {
    OneMoreKey(scores, e);
    InsertedElements(r, p, e);
    InsertCovers(r, scores, Inserted(r, p, e), e);
    InsertDistinct(r, p, e);
  }

  /** All entries, best first, in any order among equals. */
  method RankAll(scores: Scores) returns (r: seq<Entry>)
    ensures Lists(r, scores) && IsSorted(r)
  {
    r := [];
    var todo := scores.Keys;
    ghost var done: Scores := map[];
    while todo != {}
      invariant todo <= scores.Keys && done == scores - todo
      invariant Lists(r, done) && IsSorted(r)
      decreases |todo|
    {
      var n :| n in todo;
      var e := Entry(n, scores[n]);
      var p := PlaceOf(r, e.score);
      InsertSorted(r, e);
      InsertLists(r, done, p, e);
      OneMoreDone(scores, todo, n);
      r := Inserted(r, p, e);
      done := done[n := scores[n]];
      todo := todo - {n};
    }
    assert scores - {} == scores;
  }

  lemma {:induction false} OneMoreDone(scores: Scores, todo: set<string>, n: string)
    requires todo <= scores.Keys && n in todo
    ensures (scores - todo)[n := scores[n]] == scores - (todo - {n})
  {
  }

  /** The entries with their repositories. */
  method WithRepos(top: seq<Entry>, repos: map<string, string>) returns (r: seq<Fused>)
    requires forall i | 0 <= i < |top| :: top[i].fqn in repos
    ensures |r| == |top|
    ensures forall i | 0 <= i < |r| :: r[i] == Fused(top[i].fqn, repos[top[i].fqn], top[i].score)
  {
    r := [];
    for i := 0 to |top|
      invariant |r| == i
      invariant forall j | 0 <= j < i :: r[j] == Fused(top[j].fqn, repos[top[j].fqn], top[j].score)
    {
      r := r + [Fused(top[i].fqn, repos[top[i].fqn], top[i].score)];
    }
  }

  method RrfFuse(dense: seq<DenseHit>, sparse: seq<SparseHit>, k: real, limit: nat) returns (r: seq<Fused>)
    requires k >= 0.0
    ensures IsFusion(dense, sparse, k, limit, r)
  {
    var scores := TallyScores(dense, sparse, k);
    var repos := FirstRepos(dense, sparse);
    var ranked := RankAll(scores);
    var top := if |ranked| < limit then ranked else ranked[..limit];
    forall i | 0 <= i < |top| ensures top[i].fqn in repos {
      assert top[i] == ranked[i];
      NameHasRepo(dense, sparse, top[i].fqn);
    }
    r := WithRepos(top, repos);
    TopIsFusion(dense, sparse, k, limit, scores, ranked, top, r);
  }

  lemma {:induction false} TopIsFusion(dense: seq<DenseHit>, sparse: seq<SparseHit>, k: real, limit: nat,
                                       scores: Scores, ranked: seq<Entry>, top: seq<Entry>, r: seq<Fused>)
    requires k >= 0.0 && Tallies(scores, DenseNames(dense), SparseNames(sparse), k)
    requires Lists(ranked, scores) && IsSorted(ranked) && |top| <= |ranked| && top == ranked[..|top|]
    requires |top| == if |ranked| < limit then |ranked| else limit
    requires |r| == |top| && forall j | 0 <= j < |r| :: r[j].fqn == top[j].fqn && r[j].score == top[j].score
    requires forall i | 0 <= i < |r| :: RepoOf(dense, sparse, r[i].fqn) == Some(r[i].repoId)
    ensures IsFusion(dense, sparse, k, limit, r)
  {
    DroppedAreLower(scores, ranked, top, r);
    forall j | 0 <= j < |r| ensures r[j].fqn == ranked[j].fqn && r[j].score == ranked[j].score {
      assert top[j] == ranked[j];
    }
  }

  lemma {:induction false} NameHasRepo(dense: seq<DenseHit>, sparse: seq<SparseHit>, n: string)
    requires n in Names(DenseNames(dense), SparseNames(sparse))
    ensures RepoOf(dense, sparse, n).Some?
    decreases |dense| + |sparse|
  {
    var d, s := DenseNames(dense), SparseNames(sparse);
    if dense != [] {
      if dense[0].fqn != n {
        assert d + s == [d[0]] + (DenseNames(dense[1..]) + s);
        NameHasRepo(dense[1..], sparse, n);
      }
    } else if sparse != [] && sparse[0].fqn != n {
      assert d + s == [s[0]] + (d + SparseNames(sparse[1..]));
      NameHasRepo(dense, sparse[1..], n);
    }
  }

  lemma {:induction false} RepoInSparse(sparse: seq<SparseHit>, n: string, i: nat)
    requires i < |sparse| && sparse[i].fqn == n && forall j | 0 <= j < i :: sparse[j].fqn != n
    ensures RepoOf([], sparse, n) == Some(sparse[i].repoId)
    decreases i
  {
    if i > 0 {
      RepoInSparse(sparse[1..], n, i - 1);
    }
  }

  /** The first dense hit of a name gives its repository. */
  lemma {:induction false} RepoInDense(dense: seq<DenseHit>, sparse: seq<SparseHit>, n: string, i: nat)
    requires i < |dense| && dense[i].fqn == n && forall j | 0 <= j < i :: dense[j].fqn != n
    ensures RepoOf(dense, sparse, n) == Some(dense[i].repoId)
    decreases i
  {
    if i > 0 {
      RepoInDense(dense[1..], sparse, n, i - 1);
    }
  }

  /** Without a dense hit, the first sparse one. */
  lemma {:induction false} NotInDense(dense: seq<DenseHit>, sparse: seq<SparseHit>, n: string, i: nat)
    requires (forall j | 0 <= j < |dense| :: dense[j].fqn != n)
    requires i < |sparse| && sparse[i].fqn == n && forall j | 0 <= j < i :: sparse[j].fqn != n
    ensures RepoOf(dense, sparse, n) == Some(sparse[i].repoId)
    decreases |dense|
  {
    if dense == [] {
      RepoInSparse(sparse, n, i);
    } else {
      NotInDense(dense[1..], sparse, n, i);
    }
  }

  lemma {:induction false} DroppedAreLower(scores: Scores, ranked: seq<Entry>, top: seq<Entry>, r: seq<Fused>)
    requires Lists(ranked, scores) && IsSorted(ranked) && |top| <= |ranked| && top == ranked[..|top|] && |r| == |top|
    requires forall j | 0 <= j < |r| :: r[j].fqn == top[j].fqn && r[j].score == top[j].score
    ensures forall n | n in scores && !IsKept(r, n) :: forall i | 0 <= i < |r| :: scores[n] <= r[i].score
  {
    forall n, i | n in scores && !IsKept(r, n) && 0 <= i < |r| ensures scores[n] <= r[i].score {
      var j :| 0 <= j < |ranked| && ranked[j] == Entry(n, scores[n]);
      assert forall q | 0 <= q < |top| :: r[q].fqn != n && top[q].fqn != n && top[q] == ranked[q];
    }
  }

  // ---------------------------------------------------------------------------------------------
  // What does not depend on how ties fall
  // ---------------------------------------------------------------------------------------------

  function FirstNames(r: seq<Fused>, n: nat): set<string>
    requires n <= |r|
  {
    if n == 0 then {} else FirstNames(r, n - 1) + {r[n - 1].fqn}
  }

  lemma {:induction false} InFirstNames(r: seq<Fused>, n: nat, name: string)
    requires n <= |r|
    ensures name in FirstNames(r, n) <==> exists i :: 0 <= i < n && r[i].fqn == name
  {
    if n > 0 {
      InFirstNames(r, n - 1, name);
    }
  }

  lemma {:induction false} FirstNamesSize(r: seq<Fused>, n: nat)
    requires n <= |r| && IsDistinct(r)
    ensures |FirstNames(r, n)| == n
  {
    if n > 0 {
      FirstNamesSize(r, n - 1);
      InFirstNames(r, n - 1, r[n - 1].fqn);
    }
  }

  /** A name that scores above place `i` of a fusion is in that fusion. */
  lemma {:induction false} HigherIsKept(dense: seq<DenseHit>, sparse: seq<SparseHit>, k: real, limit: nat,
                                        r: seq<Fused>, i: nat, name: string)
    requires k >= 0.0 && IsFusion(dense, sparse, k, limit, r) && i < |r|
    requires name in Names(DenseNames(dense), SparseNames(sparse))
    requires Score(DenseNames(dense), SparseNames(sparse), k, name) > r[i].score
    ensures exists j :: 0 <= j < |r| && r[j].fqn == name && r[j].score > r[i].score
  {
    assert IsKept(r, name);
  }

  lemma {:induction false} HigherIsEarlier(r: seq<Fused>, i: nat, j: nat)
    requires IsDescending(r) && i < |r| && j < |r| && r[j].score > r[i].score
    ensures r[j].fqn in FirstNames(r, i)
  {
    assert j < i;
    InFirstNames(r, i, r[j].fqn);
  }

  lemma {:induction false} IsBefore(dense: seq<DenseHit>, sparse: seq<SparseHit>, k: real, limit: nat, a: seq<Fused>,
                                    b: seq<Fused>, i: nat, j: nat)
    requires k >= 0.0 && IsFusion(dense, sparse, k, limit, a) && IsFusion(dense, sparse, k, limit, b)
    requires j <= i < |a| == |b| && a[i].score > b[i].score
    ensures a[j].fqn in FirstNames(b, i)
  {
    assert j < i ==> a[j].score >= a[i].score;
    HigherIsKept(dense, sparse, k, limit, b, i, a[j].fqn);
    var m :| 0 <= m < |b| && b[m].fqn == a[j].fqn && b[m].score > b[i].score;
    HigherIsEarlier(b, i, m);
  }

  lemma {:induction false} NamesAreIn(r: seq<Fused>, n: nat, names: set<string>)
    requires n <= |r| && forall j | 0 <= j < n :: r[j].fqn in names
    ensures FirstNames(r, n) <= names
  {
    if n > 0 {
      NamesAreIn(r, n - 1, names);
    }
  }

  lemma {:induction false} TooManyNames(a: seq<Fused>, b: seq<Fused>, i: nat)
    requires i < |a| == |b| && IsDistinct(a) && IsDistinct(b)
    ensures exists j :: 0 <= j <= i && a[j].fqn !in FirstNames(b, i)
  {
    if forall j | 0 <= j < i + 1 :: a[j].fqn in FirstNames(b, i) {
      NamesAreIn(a, i + 1, FirstNames(b, i));
      FirstNamesSize(a, i + 1);
      FirstNamesSize(b, i);
      SubsetSize(FirstNames(a, i + 1), FirstNames(b, i));
      assert false;
    }
  }

  lemma {:induction false} NotHigher(dense: seq<DenseHit>, sparse: seq<SparseHit>, k: real, limit: nat, a: seq<Fused>,
                                     b: seq<Fused>, i: nat)
    requires k >= 0.0 && IsFusion(dense, sparse, k, limit, a) && IsFusion(dense, sparse, k, limit, b) && i < |a|
    ensures a[i].score <= b[i].score
  {
    TooManyNames(a, b, i);
    var j :| 0 <= j <= i && a[j].fqn !in FirstNames(b, i);
    if a[i].score > b[i].score {
      IsBefore(dense, sparse, k, limit, a, b, i, j);
    }
  }

  /** Any two fusions of the same lists have the same scores, place by place. */
  lemma {:induction false} ScoresAreDetermined(dense: seq<DenseHit>, sparse: seq<SparseHit>, k: real, limit: nat,
                                               a: seq<Fused>, b: seq<Fused>)
    requires k >= 0.0 && IsFusion(dense, sparse, k, limit, a) && IsFusion(dense, sparse, k, limit, b)
    ensures |a| == |b| && forall i | 0 <= i < |a| :: a[i].score == b[i].score
  {
    forall i | 0 <= i < |a| ensures a[i].score == b[i].score {
      NotHigher(dense, sparse, k, limit, a, b, i);
      NotHigher(dense, sparse, k, limit, b, a, i);
    }
  }
}
