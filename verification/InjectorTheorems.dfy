/**
 * What the rewriter promises: the write check gives the same answer before and after, deleting the
 * spliced labels gives the query back, and every node pattern of the output is accounted for.
 */
module InjectorTheorems {
  import opened Prelude
  import opened Detector
  import opened Injector

  // ---------------------------------------------------------------------------------------------
  // Tokens of a query
  // ---------------------------------------------------------------------------------------------

  /** Only the last token can be a bracket that never closes. */
  predicate UnclosedOnlyLast(ts: seq<Token>) {
    forall i | 0 <= i < |ts| - 1 :: !IsUnclosed(ts[i])
  }

  lemma {:induction false} ScanCons(c: Context, t: Token, c': Context, rest: string, s: string)
    requires s != "" && Next(c, s) == Take(t, c') && s[|Source(t)|..] == rest && Scan(c', rest).Ok?
    ensures Scan(c, s) == Ok([t] + Scan(c', rest).value)
  {
  }

  lemma {:induction false} ShapeCons(t: Token, ts: seq<Token>)
    requires UnclosedOnlyLast(ts) && (IsUnclosed(t) ==> ts == [])
    ensures Sources([t] + ts) == Source(t) + Sources(ts) && UnclosedOnlyLast([t] + ts)
  {
  }

  lemma {:induction false} ScanParts(c: Context, s: string, t: Token, c': Context, rest: string)
    requires s != "" && Scan(c, s).Ok? && Next(c, s) == Take(t, c') && rest == s[|Source(t)|..]
    ensures Scan(c', rest).Ok? && Scan(c, s).value == [t] + Scan(c', rest).value
    ensures |rest| < |s| && Source(t) + rest == s && (IsUnclosed(t) ==> rest == "")
  {
  }

  lemma {:induction false} ScanShape(c: Context, s: string)
    requires Scan(c, s).Ok?
    ensures Sources(Scan(c, s).value) == s && UnclosedOnlyLast(Scan(c, s).value)
    decreases s
  {
    if s == "" {
    } else {
      var t, c' := Next(c, s).token, Next(c, s).next;
      var rest := s[|Source(t)|..];
      ScanParts(c, s, t, c', rest);
      ScanShape(c', rest);
      ShapeCons(t, Scan(c', rest).value);
    }
  }

  // ---------------------------------------------------------------------------------------------
  // The write check answers the same
  // ---------------------------------------------------------------------------------------------

  predicate IsLabel(tag: string) {
    forall i | 0 <= i < |tag| :: IsIdent(tag[i])
  }

  /** The word the detector sees in a label: it skips leading digits. */
  function LabelWord(tag: string): string {
    tag[PrefixLen(tag, Digit)..]
  }

  lemma {:induction false} WordGrows(w: string, s: string)
    requires IsLabel(s)
    ensures Run(Word(w), s) == Word(w + s)
    decreases s
  {
    if s == "" {
      assert w + s == w;
    } else {
      WordGrows(w + [s[0]], s[1..]);
      assert w + [s[0]] + s[1..] == w + s;
    }
  }

  lemma {:induction false} LabelRuns(tag: string)
    requires IsLabel(tag)
    ensures Run(Plain, tag) == if LabelWord(tag) == "" then Plain else Word(LabelWord(tag))
    decreases tag
  {
    if tag == "" {
    } else {
      if IsDigit(tag[0]) {
        LabelRuns(tag[1..]);
        assert LabelWord(tag) == LabelWord(tag[1..]);
      } else {
        WordGrows([tag[0]], tag[1..]);
        assert [tag[0]] + tag[1..] == tag;
      }
    }
  }

  /** Modes in which no two-character token is half read. */
  predicate Settled(m: Mode) {
    !m.Slash? && m != Single(true) && m != Double(true) && m != Block(true)
  }

  lemma {:induction false} SettledRun(m: Mode, s: string)
    requires Settled(m) && forall i | 0 <= i < |s| :: IsSpace(s[i]) || IsVarChar(s[i])
    ensures Settled(Run(m, s))
    decreases s
  {
    if s == "" {
    } else {
      SettledRun(Read(m, s[0]), s[1..]);
    }
  }

  lemma {:induction false} InertRun(m: Mode, s: string)
    requires m in {Single(false), Double(false), Backtick, Line, Block(false), Found}
    requires forall i | 0 <= i < |s| :: IsIdent(s[i]) || s[i] == ':'
    ensures Run(m, s) == m
    decreases s
  {
    if s == "" {
    } else {
      InertRun(m, s[1..]);
    }
  }

  lemma {:induction false} LabelInCode(m: Mode, tag: string, c: char)
    requires (m.Plain? || (m.Word? && !IsWriteKeyword(m.word))) && !IsIdent(c)
    requires IsLabel(tag) && !IsWriteKeyword(LabelWord(tag))
    ensures Read(Run(m, ":" + tag), c) == Read(m, c)
  {
    assert (":" + tag)[1..] == tag;
    LabelRuns(tag);
  }

  lemma {:induction false} LabelAfterWrite(m: Mode, tag: string, c: char)
    requires m.Word? && IsWriteKeyword(m.word) && !IsIdent(c)
    ensures Read(Run(m, ":" + tag), c) == Read(m, c)
  {
    assert (":" + tag)[1..] == tag;
    FoundStays(tag);
  }

  lemma {:induction false} LabelHarmless(m: Mode, tag: string, c: char)
    requires Settled(m) && IsLabel(tag) && !IsWriteKeyword(LabelWord(tag)) && !IsIdent(c)
    ensures Read(Run(m, ":" + tag), c) == Read(m, c)
  {
    match m
    case Plain => LabelInCode(m, tag, c);
    case Word(w) =>
      if IsWriteKeyword(w) {
        LabelAfterWrite(m, tag, c);
      } else {
        LabelInCode(m, tag, c);
      }
    case _ => InertRun(m, ":" + tag);
  }

  /** The variable and the white space before it end no two-character token. */
  lemma {:induction false} SettledAfterVar(m: Mode, inner: string)
    ensures Settled(Run(m, "(" + inner[..VarEnd(inner)]))
  {
    var head := inner[..VarEnd(inner)];
    assert ("(" + head)[1..] == head;
    forall i | 0 <= i < |head| ensures IsSpace(head[i]) || IsVarChar(head[i]) {
      if VarStart(inner) <= i {
        assert head[i] == inner[VarStart(inner)..][i - VarStart(inner)];
      }
    }
    SettledRun(Read(m, '('), head);
  }

  /** A piece after which the next character is read as if it had not been there. */
  lemma {:induction false} PieceHarmless(m: Mode, a: string, piece: string, b: string)
    requires b != "" && Read(Run(Run(m, a), piece), b[0]) == Read(Run(m, a), b[0])
    ensures Run(m, a + (piece + b)) == Run(m, a + b)
  {
    RunConcat(m, a, piece + b);
    RunConcat(Run(m, a), piece, b);
    RunConcat(m, a, b);
  }

  lemma {:induction false} SpliceText(inner: string, tag: string)
    ensures var head, tail := "(" + inner[..VarEnd(inner)], AfterVar(inner) + ")";
      && "(" + inner + ")" == head + tail
      && "(" + SpliceLabel(inner, tag) + ")" == head + ((":" + tag) + tail)
      && !IsIdent(tail[0])
  {
  }

  lemma {:induction false} SpliceHarmless(m: Mode, inner: string, tag: string)
    requires IsLabel(tag) && !IsWriteKeyword(LabelWord(tag))
    ensures Run(m, "(" + SpliceLabel(inner, tag) + ")") == Run(m, "(" + inner + ")")
  {
    var head, tail := "(" + inner[..VarEnd(inner)], AfterVar(inner) + ")";
    SettledAfterVar(m, inner);
    SpliceText(inner, tag);
    LabelHarmless(Run(m, head), tag, tail[0]);
    PieceHarmless(m, head, ":" + tag, tail);
  }

  lemma {:induction false} ClosingHarmless(m: Mode, s: string)
    ensures Detects(Run(m, s + "]")) == Detects(Run(m, s))
  {
    RunConcat(m, s, "]");
    RunOne(Run(m, s), ']');
  }

  lemma {:induction false} TargetRuns(m: Mode, t: Token, tag: string)
    requires IsLabel(tag) && !IsWriteKeyword(LabelWord(tag)) && !IsUnclosed(t)
    ensures Run(m, Target(t, tag)) == Run(m, Source(t))
  {
    if t.Node? && t.splice {
      SpliceHarmless(m, t.inner, tag);
    }
  }

  lemma {:induction false} LastTokenDetects(m: Mode, t: Token, tag: string)
    requires IsUnclosed(t)
    ensures Detects(Run(m, Target(t, tag))) == Detects(Run(m, Source(t)))
  {
    ClosingHarmless(m, Source(t));
    assert Target(t, tag) == Source(t) + "]";
  }

  lemma {:induction false} TargetsDetectSame(m: Mode, ts: seq<Token>, tag: string)
    requires IsLabel(tag) && !IsWriteKeyword(LabelWord(tag)) && UnclosedOnlyLast(ts)
    ensures Detects(Run(m, Targets(ts, tag))) == Detects(Run(m, Sources(ts)))
    decreases |ts|
  {
    if ts == [] {
    } else {
      var t, rest := ts[0], ts[1..];
      if IsUnclosed(t) {
        assert rest == [];
        assert Source(t) + "" == Source(t) && Target(t, tag) + "" == Target(t, tag);
        LastTokenDetects(m, t, tag);
      } else {
        RunConcat(m, Target(t, tag), Targets(rest, tag));
        RunConcat(m, Source(t), Sources(rest));
        TargetRuns(m, t, tag);
        TargetsDetectSame(Run(m, Source(t)), rest, tag);
      }
    }
  }

  /** For every query: the rewriting does not change what the write check answers. */
  lemma {:induction false} WriteAnswerKept(cypher: string, tag: string)
    requires IsLabel(tag) && !IsWriteKeyword(LabelWord(tag))
    requires Inject(cypher, tag).Ok?
    ensures HasWrite(Inject(cypher, tag).value) == HasWrite(cypher)
  {
    ScanShape(START, cypher);
    TargetsDetectSame(Plain, Scan(START, cypher).value, tag);
  }

  lemma {:induction false} ScanStep(c: Context, s: string, t: Token, c': Context, rest: string, ts: seq<Token>)
    requires s != "" && Next(c, s) == Take(t, c') && s == Source(t) + rest && Scan(c', rest) == Ok(ts)
    ensures Scan(c, s) == Ok([t] + ts)
  {
  }

  lemma {:induction false} ScanOne(c: Context, s: string, t: Token, c': Context)
    requires s != "" && Next(c, s) == Take(t, c') && s == Source(t)
    ensures Scan(c, s) == Ok([t])
  {
    assert s == Source(t) + "" && [t] + [] == [t];
    ScanStep(c, s, t, c', "", []);
  }

  lemma {:induction false} TakeClause(c: Context, word: string, rest: string, clause: Clause)
    requires c.lex == Normal && word != "" && IsLabel(word) && PathStart(Upper(word)) == Some(clause)
    requires rest == "" || !IsIdent(rest[0])
    ensures Next(c, word + rest) == Take(Raw(word), c.(clause := Some(clause), lastIdent := false))
  {
    var s := word + rest;
    assert s[..|word|] == word;
    PrefixLenIs(s, Ident, |word|);
    assert s[0] == word[0];
  }

  lemma {:induction false} EnclosedRun(m: Mode, open: char, inner: string, close: char)
    ensures Run(m, [open] + inner + [close]) == Read(Run(Read(m, open), inner), close)
  {
    assert ([open] + inner + [close])[1..] == inner + [close];
    RunConcat(Read(m, open), inner, [close]);
    RunOne(Run(Read(m, open), inner), close);
  }

  lemma {:induction false} MatchClause(word: string)
    requires word == "MATCH"
    ensures IsLabel(word) && PathStart(Upper(word)) == Some(Match)
  {
    assert Upper(word) == word;
  }

  lemma {:induction false} NoMerge(word: string)
    requires |word| == 5 && ToUpper(word[1]) != 'E'
    ensures !IsWriteKeyword(word)
  {
    assert "MERGE"[1] == 'E';
  }

  lemma {:induction false} LetterRuns(word: string)
    requires IsLabel(word) && word != "" && !IsDigit(word[0])
    ensures Run(Plain, word) == Word(word)
  {
    LabelRuns(word);
    assert word[0..] == word;
  }

  lemma {:induction false} MatchRuns(word: string)
    requires word == "MATCH"
    ensures Run(Plain, word) == Word(word) && !IsWriteKeyword(word)
  {
    MatchClause(word);
    LetterRuns(word);
    NoMerge(word);
  }

  lemma {:induction false} TakeEmptyNode(c: Context, s: string, t: Token)
    requires c.lex == Normal && c.clause == Some(Match) && !c.lastIdent && s == "()" && t == Node("", Match, true)
    ensures Next(c, s) == Take(t, c) && Source(t) == s
  {
    assert s[1..] == ")" && s[1..1] == "";
  }

  lemma {:induction false} ScanSmallest(word: string, node: string, t: Token)
    requires word == "MATCH" && node == "()" && t == Node("", Match, true)
    ensures Scan(START, word + node) == Ok([Raw(word)] + [t])
  {
    var c := START.(clause := Some(Match));
    MatchClause(word);
    TakeEmptyNode(c, node, t);
    ScanOne(c, node, t, c);
    TakeClause(START, word, node, Match);
    ScanStep(START, word + node, Raw(word), c, node, [t]);
  }

  lemma {:induction false} TargetsPair(t: Token, u: Token, tag: string)
    ensures Targets([t] + [u], tag) == Target(t, tag) + Target(u, tag)
  {
    assert ([t] + [u])[1..] == [u] && [u][1..] == [];
    assert Target(u, tag) + "" == Target(u, tag);
    assert Targets([u], tag) == Target(u, tag) + Targets([], tag);
  }

  lemma {:induction false} EmptySplice(inner: string, tag: string)
    requires inner == ""
    ensures SpliceLabel(inner, tag) == ":" + tag
  {
  }

  lemma {:induction false} SmallestTargets(word: string, t: Token, tag: string)
    requires t == Node("", Match, true)
    ensures Targets([Raw(word)] + [t], tag) == word + ("(" + (":" + tag) + ")")
  {
    TargetsPair(Raw(word), t, tag);
    EmptySplice("", tag);
  }

  lemma {:induction false} InjectIs(q: string, ts: seq<Token>, tag: string)
    requires Scan(START, q) == Ok(ts)
    ensures Inject(q, tag) == Ok(Targets(ts, tag))
  {
  }

  /** The shortest query with a node pattern, and what becomes of it. */
  lemma {:induction false} SmallestQuery(word: string, node: string, tag: string)
    requires word == "MATCH" && node == "()"
    ensures Inject(word + node, tag) == Ok(word + ("(" + (":" + tag) + ")"))
  {
    var t := Node("", Match, true);
    ScanSmallest(word, node, t);
    SmallestTargets(word, t, tag);
    InjectIs(word + node, [Raw(word)] + [t], tag);
  }

  lemma {:induction false} LabelDetected(word: string, tag: string)
    requires IsLabel(tag) && IsWriteKeyword(LabelWord(tag)) && !IsWriteKeyword(word)
    ensures Run(Word(word), ['('] + (":" + tag) + [')']) == Found
  {
    EnclosedRun(Word(word), '(', ":" + tag, ')');
    assert (":" + tag)[1..] == tag;
    LabelRuns(tag);
  }

  lemma {:induction false} SmallestQueryDetected(word: string, tag: string)
    requires word == "MATCH" && IsLabel(tag) && IsWriteKeyword(LabelWord(tag))
    ensures HasWrite(word + ("(" + (":" + tag) + ")"))
  {
    MatchRuns(word);
    RunConcat(Plain, word, "(" + (":" + tag) + ")");
    LabelDetected(word, tag);
  }

  lemma {:induction false} SmallestQueryReadsOnly(word: string, node: string)
    requires word == "MATCH" && node == "()"
    ensures !HasWrite(word + node)
  {
    MatchRuns(word);
    RunConcat(Plain, word, node);
    TwoSteps(Word(word), node);
    assert node[2..] == "";
  }

  /** A label that is itself a write word makes the check see a write that the query has not. */
  lemma {:induction false} WriteAnswerChanges(tag: string) returns (q: string)
    requires IsLabel(tag) && IsWriteKeyword(LabelWord(tag))
    ensures Inject(q, tag).Ok? && HasWrite(Inject(q, tag).value) && !HasWrite(q)
  {
    var word, node := "MATCH", "()";
    q := word + node;
    SmallestQuery(word, node, tag);
    SmallestQueryDetected(word, tag);
    SmallestQueryReadsOnly(word, node);
  }

  ghost predicate IsAnswerKept(tag: string) {
    forall q | Inject(q, tag).Ok? :: HasWrite(Inject(q, tag).value) == HasWrite(q)
  }

  /** The condition on the label is exact: any label that is itself a write word breaks the promise. */
  lemma {:induction false} WriteAnswerKeptExactly(tag: string)
    requires IsLabel(tag)
    ensures IsAnswerKept(tag) <==> !IsWriteKeyword(LabelWord(tag))
  {
    if IsWriteKeyword(LabelWord(tag)) {
      var q := WriteAnswerChanges(tag);
    } else {
      forall q | Inject(q, tag).Ok? ensures HasWrite(Inject(q, tag).value) == HasWrite(q) {
        WriteAnswerKept(q, tag);
      }
    }
  }

  // ---------------------------------------------------------------------------------------------
  // Erasure
  // ---------------------------------------------------------------------------------------------

  /** The chunks in a row, `sep` between neighbours. */
  function Join(chunks: seq<string>, sep: string): string
    requires chunks != []
  {
    if |chunks| == 1 then chunks[0] else chunks[0] + sep + Join(chunks[1..], sep)
  }

  function Glue(text: string, chunks: seq<string>): (r: seq<string>)
    requires chunks != []
    ensures r != []
  {
    [text + chunks[0]] + chunks[1..]
  }

  lemma {:induction false} JoinGlue(text: string, chunks: seq<string>, sep: string)
    requires chunks != []
    ensures Join(Glue(text, chunks), sep) == text + Join(chunks, sep)
  {
  }

  lemma {:induction false} JoinCons(chunk: string, chunks: seq<string>, sep: string)
    requires chunks != []
    ensures Join([chunk] + chunks, sep) == chunk + sep + Join(chunks, sep)
  {
  }

  lemma {:induction false} JoinLength(chunks: seq<string>, sep: string)
    requires chunks != []
    ensures |Join(chunks, sep)| == |Join(chunks, "")| + (|chunks| - 1) * |sep|
    decreases |chunks|
  {
    if |chunks| > 1 {
      JoinLength(chunks[1..], sep);
      assert (|chunks| - 1) * |sep| == (|chunks[1..]| - 1) * |sep| + |sep|;
    }
  }

  /** What a token's own text is, an unclosed bracket getting the `]` the rewriter supplies. */
  function Restored(t: Token): string {
    Source(t) + if IsUnclosed(t) then "]" else ""
  }

  predicate IsSpliced(t: Token) {
    t.Node? && t.splice
  }

  function ChunkOf(t: Token, later: seq<string>): (chunks: seq<string>)
    requires later != []
    ensures chunks != []
  {
    if IsSpliced(t) then ["(" + t.inner[..VarEnd(t.inner)]] + Glue(AfterVar(t.inner) + ")", later)
    else Glue(Restored(t), later)
  }

  /** The query, cut just after the optional variable of each pattern that is patched. */
  function Chunks(ts: seq<Token>): (chunks: seq<string>)
    ensures chunks != []
  {
    if ts == [] then [""] else ChunkOf(ts[0], Chunks(ts[1..]))
  }

  function SplicedCount(ts: seq<Token>): nat {
    if ts == [] then 0 else (if IsSpliced(ts[0]) then 1 else 0) + SplicedCount(ts[1..])
  }

  lemma {:induction false} PatchedChunks(inner: string, later: seq<string>, sep: string)
    requires later != []
    ensures Join(["(" + inner[..VarEnd(inner)]] + Glue(AfterVar(inner) + ")", later), sep)
            == "(" + (inner[..VarEnd(inner)] + sep + AfterVar(inner)) + ")" + Join(later, sep)
  {
    var head, tail := "(" + inner[..VarEnd(inner)], AfterVar(inner) + ")";
    JoinCons(head, Glue(tail, later), sep);
    JoinGlue(tail, later, sep);
    assert head + sep + (tail + Join(later, sep))
        == "(" + (inner[..VarEnd(inner)] + sep + AfterVar(inner)) + ")" + Join(later, sep);
  }

  lemma {:induction false} PatchedText(inner: string, tag: string)
    ensures inner[..VarEnd(inner)] + "" + AfterVar(inner) == inner
    ensures inner[..VarEnd(inner)] + (":" + tag) + AfterVar(inner) == SpliceLabel(inner, tag)
  {
  }

  lemma {:induction false} GluedStep(t: Token, later: seq<string>, tag: string)
    requires later != [] && !IsSpliced(t)
    ensures Join(Glue(Restored(t), later), ":" + tag) == Target(t, tag) + Join(later, ":" + tag)
    ensures Join(Glue(Restored(t), later), "") == Restored(t) + Join(later, "")
  {
    assert Target(t, tag) == Restored(t);
    JoinGlue(Restored(t), later, "");
    JoinGlue(Restored(t), later, ":" + tag);
  }

  lemma {:induction false} PatchedStep(t: Token, later: seq<string>, tag: string)
    requires later != [] && IsSpliced(t)
    ensures Join(ChunkOf(t, later), ":" + tag) == Target(t, tag) + Join(later, ":" + tag)
    ensures Join(ChunkOf(t, later), "") == Restored(t) + Join(later, "")
  {
    PatchedChunks(t.inner, later, "");
    PatchedChunks(t.inner, later, ":" + tag);
    PatchedText(t.inner, tag);
    assert Restored(t) == "(" + t.inner + ")";
  }

  lemma {:induction false} ChunkStep(t: Token, later: seq<string>, tag: string)
    requires later != []
    ensures Join(ChunkOf(t, later), ":" + tag) == Target(t, tag) + Join(later, ":" + tag)
    ensures Join(ChunkOf(t, later), "") == Restored(t) + Join(later, "")
    ensures |ChunkOf(t, later)| == |later| + if IsSpliced(t) then 1 else 0
  {
    if IsSpliced(t) {
      PatchedStep(t, later, tag);
    } else {
      GluedStep(t, later, tag);
    }
  }

  function Closing(ts: seq<Token>): string {
    if ts != [] && IsUnclosed(ts[|ts| - 1]) then "]" else ""
  }

  lemma {:induction false} RestoredStep(ts: seq<Token>)
    requires ts != [] && UnclosedOnlyLast(ts)
    ensures UnclosedOnlyLast(ts[1..])
    ensures Sources(ts) + Closing(ts) == Restored(ts[0]) + (Sources(ts[1..]) + Closing(ts[1..]))
  {
    if |ts| > 1 {
      assert !IsUnclosed(ts[0]);
      assert ts[1..][|ts| - 2] == ts[|ts| - 1];
    }
  }

  lemma {:induction false} ChunksOf(ts: seq<Token>, tag: string)
    requires UnclosedOnlyLast(ts)
    ensures Join(Chunks(ts), ":" + tag) == Targets(ts, tag)
    ensures Join(Chunks(ts), "") == Sources(ts) + Closing(ts)
    ensures |Chunks(ts)| == SplicedCount(ts) + 1
    decreases |ts|
  {
    if ts == [] {
    } else {
      RestoredStep(ts);
      ChunksOf(ts[1..], tag);
      ChunkStep(ts[0], Chunks(ts[1..]), tag);
    }
  }

  /**
   * Deleting the spliced `:label` pieces, one per patched pattern, gives the query back byte for
   * byte; an unclosed bracket comes back with the `]` it lacked.
   */
  lemma {:induction false} Erasure(cypher: string, tag: string)
    requires Inject(cypher, tag).Ok?
    ensures var ts := Scan(START, cypher).value;
      var chunks, closing := Chunks(ts), Closing(ts);
      && Join(chunks, ":" + tag) == Inject(cypher, tag).value
      && Join(chunks, "") == cypher + closing
      && |chunks| == SplicedCount(ts) + 1
      && |Inject(cypher, tag).value| == |cypher| + |closing| + SplicedCount(ts) * (|tag| + 1)
  {
    ScanShape(START, cypher);
    ChunksOf(Scan(START, cypher).value, tag);
    JoinLength(Chunks(Scan(START, cypher).value), ":" + tag);
  }
}
