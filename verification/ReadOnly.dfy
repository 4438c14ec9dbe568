/**
 * The two scanners side by side. A plain query that the write check lets through has no pattern that the
 * rewriter takes and leaves without the label, as a reference to a bound variable.
 */
module ReadOnly {
  import opened Prelude
  import opened Detector
  import opened Injector
  import opened InjectorTheorems
  import opened Provenance
  import opened CodeView

  /** The write check has seen a write, or is in the state of the reader. */
  predicate Agrees(m: Mode, v: View) {
    m.Found? || ((if m.Word? then Plain else m) == v.mode && (m.Word? ==> v.word != ""))
  }

  lemma {:induction false} AgreesOn(m: Mode, v: View, c: char)
    requires Agrees(m, v)
    ensures Agrees(Read(m, c), See(v, c))
  {
  }

  lemma {:induction false} AgreesAll(m: Mode, v: View, s: string)
    requires Agrees(m, v)
    ensures Agrees(Run(m, s), SeeAll(v, s))
    decreases s
  {
    if s == "" {
    } else {
      AgreesOn(m, v, s[0]);
      AgreesAll(Read(m, s[0]), See(v, s[0]), s[1..]);
    }
  }

  lemma {:induction false} WritePathWord(word: string)
    requires word != "" && PathStart(Upper(word)) == Some(CreateOrMerge)
    ensures IsWriteKeyword(word) && !IsDigit(word[0]) && LabelWord(word) == word
  {
    var u := Upper(word);
    assert forall i | 0 <= i < |word| :: ToUpper(word[i]) == u[i];
    assert u[0] == 'C' || u[0] == 'M';
  }

  lemma {:induction false} WordRuns(m: Mode, word: string)
    requires word != "" && IsLabel(word) && (m.Plain? || m.Slash?)
    ensures Run(m, word) == if LabelWord(word) == "" then Plain else Word(LabelWord(word))
  {
    assert Run(m, word) == Run(Plain, word);
    LabelRuns(word);
  }

  lemma {:induction false} WordDetected(m: Mode, word: string)
    requires word != "" && IsLabel(word) && (m.Plain? || m.Slash? || m.Found?)
    requires PathStart(Upper(word)) == Some(CreateOrMerge)
    ensures Detects(Run(m, word))
  {
    if m.Found? {
      FoundStays(word);
    } else {
      WordRuns(m, word);
      WritePathWord(word);
    }
  }

  /** A MERGE or CREATE clause begins with a word that the write check knows. */
  lemma {:induction false} ClauseDetected(c: Context, s: string, r: Step, m: Mode, v: View)
    requires s != "" && Aligned(c, v, s) && Agrees(m, v) && r == Next(c, s) && r.Take?
    requires r.next.clause == Some(CreateOrMerge) && c.clause != Some(CreateOrMerge)
    ensures Detects(Run(m, Source(r.token)))
  {
    assert c.lex == Normal && IsIdent(s[0]);
    WordDetected(m, s[..PrefixLen(s, Ident)]);
  }

  lemma {:induction false} DetectsStays(m: Mode, s: string)
    requires Detects(m) && (s != "" && m.Word? ==> !IsIdent(s[0]))
    ensures Detects(Run(m, s))
  {
    FoundStays(s);
    if s != "" {
      FoundStays(s[1..]);
    }
  }

  predicate AllMatch(nodes: seq<Token>) {
    forall n | n in nodes :: n.Node? && n.clause == Match
  }

  lemma {:induction false} PlainCons(t: Token, ts: seq<Token>)
    requires AllPlain([t] + ts)
    ensures IsPlain(t) && AllPlain(ts)
  {
    assert t in [t] + ts && forall u | u in ts :: u in [t] + ts;
  }

  lemma {:induction false} MatchCons(t: Token, nodes: seq<Token>)
    requires AllMatch(nodes) && (t.Node? ==> t.clause == Match)
    ensures AllMatch((if t.Node? then [t] else []) + nodes)
  {
  }

  lemma {:induction false} MatchOnlyStep(c: Context, s: string, r: Step, m: Mode, v: View)
    requires s != "" && Aligned(c, v, s) && Agrees(m, v) && r == Next(c, s) && r.Take?
    requires !IsUnclosed(r.token) && IsPlain(r.token) && c.clause != Some(CreateOrMerge)
    ensures StaysAligned(s, r, v) && Agrees(Run(m, Source(r.token)), SeeAll(v, Source(r.token)))
    ensures r.next.clause == Some(CreateOrMerge) ==> Detects(Run(m, Source(r.token)))
    ensures r.token.Node? ==> r.token.clause == Match
  {
    TokenAligned(c, s, r, v);
    AgreesAll(m, v, Source(r.token));
    if r.next.clause == Some(CreateOrMerge) {
      ClauseDetected(c, s, r, m, v);
    }
  }

  lemma {:induction false} MatchOnlyUnlessWrite(c: Context, s: string, m: Mode, v: View)
    requires Scan(c, s).Ok? && Aligned(c, v, s) && Agrees(m, v) && AllPlain(Scan(c, s).value)
    requires c.clause == Some(CreateOrMerge) ==> Detects(m)
    ensures Detects(Run(m, s)) || AllMatch(NodesOf(Scan(c, s).value))
    decreases s
  {
    if Detects(m) {
      DetectsStays(m, s);
    } else if s != "" {
      var r := Next(c, s);
      var t, rest := r.token, s[|Source(r.token)|..];
      ScanNodes(c, t, r.next, rest, s);
      var ts := Scan(r.next, rest).value;
      PlainCons(t, ts);
      if IsUnclosed(t) {
        assert rest == "" && ts == [];
      } else {
        MatchOnlyStep(c, s, r, m, v);
        MatchOnlyUnlessWrite(r.next, rest, Run(m, Source(t)), SeeAll(v, Source(t)));
        RunConcat(m, Source(t), rest);
        assert Source(t) + rest == s;
        if AllMatch(NodesOf(ts)) {
          MatchCons(t, NodesOf(ts));
        }
      }
    }
  }

  lemma {:induction false} MatchesAreNoReferences(nodes: seq<Token>)
    requires AllMatch(nodes)
    ensures (forall i | 0 <= i < |nodes| :: nodes[i].Node?) && NoBoundReference(nodes)
  {
    assert forall i | 0 <= i < |nodes| :: nodes[i] in nodes;
  }

  /** In a plain query that is called read-only, no pattern is a bare reference to a bound variable. */
  lemma {:induction false} ReadOnlyHasNoReference(cypher: string)
    requires PlainQuery(cypher) && !HasWrite(cypher)
    ensures NoBoundReference(NodesOf(Scan(START, cypher).value))
  {
    MatchOnlyUnlessWrite(START, cypher, Plain, BEGIN);
    MatchesAreNoReferences(NodesOf(Scan(START, cypher).value));
  }

  // The condition is needed: a comment opener inside a bracket is text for one scanner only.

  const MIXED := "MATCH" + ("(n)" + ("[/*]" + ("MERGE" + "(n)")))

  lemma {:induction false} TakeNodeN(c: Context, node: string, rest: string)
    requires c.lex == Normal && c.clause.Some? && !c.lastIdent && node == "(n)"
    ensures Next(c, node + rest) == NodeTake(c, "n")
  {
    var s := node + rest;
    assert s[1..] == "n)" + rest && ("n)" + rest)[1..] == ")" + rest;
    assert Inside(INTERIOR, 'n') == INTERIOR;
    assert NodeLen(INTERIOR, ")" + rest) == Some(0);
    assert NodeLen(INTERIOR, "n)" + rest) == Some(1);
    assert s[1..2] == "n";
  }

  lemma {:induction false} NameOfN(n: string)
    requires n == "n"
    ensures VarName(n) == n && AfterVar(n) == "" && IsBareReference(n)
  {
    PrefixLenIs(n, Space, 0);
    assert n[0..] == n;
    PrefixLenIs(n, VarChar, 1);
  }

  lemma {:induction false} MixedBracketLen(rest: string)
    ensures BracketLen(Outside, 1, "/*]" + rest) == 2
  {
    assert ("/*]" + rest)[1..] == "*]" + rest && ("*]" + rest)[1..] == "]" + rest;
    assert BracketLen(Outside, 1, "]" + rest) == 0;
    assert BracketLen(Outside, 1, "*]" + rest) == 1;
  }

  lemma {:induction false} TakeMixedBracket(c: Context, list: string, rest: string)
    requires c.lex == Normal && list == "[/*]"
    ensures NormalStep(c, list + rest) == Take(Bracket("/*", true), c.(lastIdent := false))
  {
    var s := list + rest;
    MixedBracketLen(rest);
    assert s[1..] == "/*]" + rest && s[1..3] == "/*";
  }

  lemma {:induction false} MergeWord(word: string)
    requires word == "MERGE"
    ensures IsLabel(word) && PathStart(Upper(word)) == Some(CreateOrMerge)
  {
    assert Upper(word) == word;
  }

  lemma {:induction false} MergeKeepsN(c: Context, n: string, t: Token)
    requires c.clause == Some(CreateOrMerge) && !c.lastIdent && n == "n" && n in c.bound
    requires t == Node(n, CreateOrMerge, false)
    ensures NodeTake(c, n) == Take(t, c)
  {
    NameOfN(n);
  }

  lemma {:induction false} MixedLast(c: Context, node: string, t: Token)
    requires c == Context(Normal, false, Some(CreateOrMerge), {"n"})
    requires node == "(n)" && t == Node("n", CreateOrMerge, false)
    ensures Scan(c, node) == Ok([t])
  {
    MergeKeepsN(c, "n", t);
    TakeNodeN(c, node, "");
    assert node + "" == node;
    ScanOne(c, node, t, c);
  }

  lemma {:induction false} MixedBack(c: Context, c': Context, word: string, node: string, t: Token)
    requires c == Context(Normal, false, Some(Match), {"n"}) && c' == c.(clause := Some(CreateOrMerge))
    requires word == "MERGE" && node == "(n)" && t == Node("n", CreateOrMerge, false)
    ensures Scan(c, word + node) == Ok([Raw(word)] + [t])
  {
    MixedLast(c', node, t);
    MergeWord(word);
    TakeClause(c, word, node, CreateOrMerge);
    ScanStep(c, word + node, Raw(word), c', node, [t]);
  }

  lemma {:induction false} MixedMiddle(c: Context, list: string, t: Token, rest: string, ts: seq<Token>)
    requires c == Context(Normal, false, Some(Match), {"n"}) && Scan(c, rest) == Ok(ts)
    requires list == "[/*]" && t == Bracket("/*", true)
    ensures Scan(c, list + rest) == Ok([t] + ts)
  {
    TakeMixedBracket(c, list, rest);
    assert Source(t) == list;
    ScanStep(c, list + rest, t, c, rest, ts);
  }

  lemma {:induction false} MatchTakesN(c: Context, c': Context, n: string, t: Token)
    requires c.clause == Some(Match) && !c.lastIdent && n == "n" && c' == c.(bound := c.bound + {n})
    requires t == Node(n, Match, true)
    ensures NodeTake(c, n) == Take(t, c')
  {
    NameOfN(n);
  }

  lemma {:induction false} MixedNode(c: Context, c': Context, node: string, t: Token, rest: string, ts: seq<Token>)
    requires c == START.(clause := Some(Match)) && c' == c.(bound := {"n"}) && Scan(c', rest) == Ok(ts)
    requires node == "(n)" && t == Node("n", Match, true)
    ensures Scan(c, node + rest) == Ok([t] + ts)
  {
    assert c.bound + {"n"} == {"n"};
    MatchTakesN(c, c', "n", t);
    TakeNodeN(c, node, rest);
    assert Source(t) == node;
    ScanStep(c, node + rest, t, c', rest, ts);
  }

  lemma {:induction false} MixedFront(c': Context, word: string, node: string, t: Token, rest: string, ts: seq<Token>)
    requires c' == Context(Normal, false, Some(Match), {"n"}) && Scan(c', rest) == Ok(ts)
    requires word == "MATCH" && node == "(n)" && t == Node("n", Match, true)
    ensures Scan(START, word + (node + rest)) == Ok([Raw(word)] + ([t] + ts))
  {
    var c := START.(clause := Some(Match));
    MixedNode(c, c', node, t, rest, ts);
    MatchClause(word);
    TakeClause(START, word, node + rest, Match);
    ScanStep(START, word + (node + rest), Raw(word), c, node + rest, [t] + ts);
  }

  lemma {:induction false} Five(a: Token, b: Token, c: Token, d: Token, e: Token)
    ensures var ts := [a] + ([b] + ([c] + ([d] + [e]))); |ts| == 5 && ts[2] == c && ts[4] == e
  {
  }

  lemma {:induction false} MixedScan()
    ensures Scan(START, MIXED).Ok? && |Scan(START, MIXED).value| == 5
    ensures Scan(START, MIXED).value[2] == Bracket("/*", true)
    ensures Scan(START, MIXED).value[4] == Node("n", CreateOrMerge, false)
  {
    var c := Context(Normal, false, Some(Match), {"n"});
    var word, word', node, list := "MATCH", "MERGE", "(n)", "[/*]";
    var t, u, v := Node("n", Match, true), Bracket("/*", true), Node("n", CreateOrMerge, false);
    MixedBack(c, c.(clause := Some(CreateOrMerge)), word', node, v);
    MixedMiddle(c, list, u, word' + node, [Raw(word')] + [v]);
    MixedFront(c, word, node, t, list + (word' + node), [u] + ([Raw(word')] + [v]));
    Five(Raw(word), t, u, Raw(word'), v);
  }

  lemma {:induction false} InertBlock(s: string)
    requires forall i | 0 <= i < |s| :: s[i] != '*'
    ensures Run(Block(false), s) == Block(false)
    decreases s
  {
    if s == "" {
    } else {
      InertBlock(s[1..]);
    }
  }

  lemma {:induction false} MixedPieces(word: string, node: string)
    requires word == "MATCH" && node == "(n)"
    ensures Run(Plain, word) == Word(word) && Run(Word(word), node) == Plain
  {
    MatchRuns(word);
    EnclosedRun(Word(word), '(', "n", ')');
    RunOne(Plain, 'n');
    assert node == ['('] + "n" + [')'];
  }

  lemma {:induction false} MixedComment(list: string)
    requires list == "[/*]"
    ensures Run(Plain, list) == Block(false)
  {
    EnclosedRun(Plain, '[', "/*", ']');
    assert "/*"[1..] == "*";
    RunOne(Slash, '*');
    assert list == ['['] + "/*" + [']'];
  }

  lemma {:induction false} MixedRun(word: string, node: string, list: string, back: string)
    requires word == "MATCH" && node == "(n)" && list == "[/*]" && forall i | 0 <= i < |back| :: back[i] != '*'
    ensures !HasWrite(word + (node + (list + back)))
  {
    MixedPieces(word, node);
    MixedComment(list);
    RunConcat(Plain, word, node + (list + back));
    RunConcat(Word(word), node, list + back);
    RunConcat(Plain, list, back);
    InertBlock(back);
  }

  lemma {:induction false} MixedReadsOnly()
    ensures !HasWrite(MIXED)
  {
    MixedRun("MATCH", "(n)", "[/*]", "MERGE" + "(n)");
  }

  /** Called read-only, and yet the last pattern is left without the label. */
  lemma {:induction false} MixedIsNotFullyLabelled()
    ensures !HasWrite(MIXED) && !PlainQuery(MIXED) && Scan(START, MIXED).Ok?
    ensures exists t | t in Scan(START, MIXED).value :: t.Node? && !t.splice
  {
    MixedReadsOnly();
    MixedScan();
    var ts := Scan(START, MIXED).value;
    assert OpensComment("/*") && !IsPlain(ts[2]) && ts[2] in ts;
    assert ts[4] in ts && ts[4].Node? && !ts[4].splice;
  }
}
