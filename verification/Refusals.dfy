/**
 * When the rewriter refuses a query (rb-storage-neo4j, injector.rs), by a reader that steps over brackets and
 * node patterns and otherwise knows only words, strings, quoted names and comments.
 */
module Refusals {
  import opened Prelude
  import opened Detector
  import opened Injector
  import opened InjectorTheorems
  import opened CodeView
  import opened Parentheses

  /** The reader, and the clause by the words that it has left behind. */
  datatype Stand = Stand(view: View, clause: Option<Clause>)

  const FIRST := Stand(BEGIN, None)

  /** The word just read counts as well. */
  function ClauseHere(p: Stand): Option<Clause> {
    ClauseAfter(p.clause, Raw(p.view.word))
  }

  predicate OpensList(p: Stand, c: char) {
    IsCode(p.view.mode) && c == '['
  }

  predicate OpensPattern(p: Stand, c: char) {
    IsCode(p.view.mode) && c == '(' && !IsName(PriorOf(p.view)) && ClauseHere(p).Some?
  }

  /** How far the next step goes: one character, or a bracket or pattern with its end, if it has one. */
  function StepLen(p: Stand, s: string): (n: Option<nat>)
    requires s != ""
    ensures n.Some? ==> 0 < n.value <= |s|
  {
    if OpensList(p, s[0]) then
      var n := BracketLen(Outside, 1, s[1..]);
      if n == |s| - 1 then None else Some(n + 2)
    else if OpensPattern(p, s[0]) then
      match NodeLen(INTERIOR, s[1..])
      case None => None
      case Some(n) => Some(n + 2)
    else Some(1)
  }

  function StepTo(p: Stand, c: char): Stand {
    if OpensList(p, c) || OpensPattern(p, c) then Stand(BEGIN, ClauseHere(p))
    else Stand(See(p.view, c), if IsIdent(c) then p.clause else ClauseHere(p))
  }

  /** Where the reader stands at `k`, unless that is inside a bracket or pattern, or behind an unclosed one. */
  function StandAt(p: Stand, s: string, k: nat): Option<Stand>
    decreases s
  {
    if k == 0 then Some(p)
    else if s == "" then None
    else match StepLen(p, s)
      case None => None
      case Some(n) => if k < n then None else StandAt(StepTo(p, s[0]), s[n..], k - n)
  }

  /** A `;` in code, outside brackets and patterns, and before the first unclosed one. */
  predicate StrayAt(p: Stand, s: string, k: nat) {
    k < |s| && s[k] == ';' && StandAt(p, s, k).Some? && IsCode(StandAt(p, s, k).value.view.mode)
  }

  /** A pattern without its end. */
  predicate UnclosedAt(p: Stand, s: string, k: nat) {
    && k < |s| && StandAt(p, s, k).Some? && OpensPattern(StandAt(p, s, k).value, s[k])
    && NodeLen(INTERIOR, s[k + 1..]).None?
  }

  /** The first of them. */
  function Verdict(p: Stand, s: string): Option<CypherError>
    decreases s
  {
    if s == "" then None
    else if IsCode(p.view.mode) && s[0] == ';' then Some(MultiStatement)
    else match StepLen(p, s)
      case None => if s[0] == '(' then Some(UnclosedNodePattern) else None
      case Some(n) => Verdict(StepTo(p, s[0]), s[n..])
  }

  // ---------------------------------------------------------------------------------------------
  // The verdict is about positions
  // ---------------------------------------------------------------------------------------------

  lemma {:induction false} StandLater(p: Stand, s: string, n: nat, k: nat)
    requires s != "" && StepLen(p, s) == Some(n) && n <= k
    ensures StandAt(p, s, k) == StandAt(StepTo(p, s[0]), s[n..], k - n)
  {
  }

  lemma {:induction false} FoundLater(p: Stand, s: string, n: nat, p': Stand, rest: string, k: nat)
    requires s != "" && StepLen(p, s) == Some(n) && p' == StepTo(p, s[0]) && rest == s[n..] && n <= k
    ensures StrayAt(p, s, k) <==> StrayAt(p', rest, k - n)
    ensures UnclosedAt(p, s, k) <==> UnclosedAt(p', rest, k - n)
  {
    StandLater(p, s, n, k);
    if k < |s| {
      assert s[k] == rest[k - n] && s[k + 1..] == rest[k - n + 1..];
    }
  }

  ghost predicate HasStray(p: Stand, s: string) {
    exists k: nat :: StrayAt(p, s, k)
  }

  ghost predicate HasUnclosed(p: Stand, s: string) {
    exists k: nat :: UnclosedAt(p, s, k)
  }

  lemma {:induction false} NothingSkipped(p: Stand, s: string, n: nat, k: nat)
    requires s != "" && StepLen(p, s) == Some(n) && k < n && !(IsCode(p.view.mode) && s[0] == ';')
    ensures !StrayAt(p, s, k) && !UnclosedAt(p, s, k)
  {
  }

  lemma {:induction false} BothMove(p: Stand, s: string, n: nat, p': Stand, rest: string)
    requires s != "" && StepLen(p, s) == Some(n) && p' == StepTo(p, s[0]) && rest == s[n..]
    requires !(IsCode(p.view.mode) && s[0] == ';')
    ensures HasStray(p, s) <==> HasStray(p', rest)
    ensures HasUnclosed(p, s) <==> HasUnclosed(p', rest)
  {
    forall k: nat
      ensures StrayAt(p, s, k) ==> k >= n && StrayAt(p', rest, k - n)
      ensures UnclosedAt(p, s, k) ==> k >= n && UnclosedAt(p', rest, k - n)
    {
      if k < n {
        NothingSkipped(p, s, n, k);
      } else {
        FoundLater(p, s, n, p', rest, k);
      }
    }
    forall k: nat
      ensures StrayAt(p', rest, k) ==> StrayAt(p, s, n + k)
      ensures UnclosedAt(p', rest, k) ==> UnclosedAt(p, s, n + k)
    {
      FoundLater(p, s, n, p', rest, n + k);
    }
  }

  lemma {:induction false} VerdictHere(p: Stand, s: string)
    requires s != "" && ((IsCode(p.view.mode) && s[0] == ';') || StepLen(p, s).None?)
    ensures Verdict(p, s) == Some(MultiStatement) <==> HasStray(p, s)
    ensures Verdict(p, s) == Some(UnclosedNodePattern) <==> HasUnclosed(p, s) && !HasStray(p, s)
  {
    if IsCode(p.view.mode) && s[0] == ';' {
      assert StrayAt(p, s, 0);
    } else if s[0] == '(' {
      assert UnclosedAt(p, s, 0);
    }
  }

  lemma {:induction false} VerdictIs(p: Stand, s: string)
    ensures Verdict(p, s) == Some(MultiStatement) <==> HasStray(p, s)
    ensures Verdict(p, s) == Some(UnclosedNodePattern) <==> HasUnclosed(p, s) && !HasStray(p, s)
    decreases s
  {
    if s == "" {
    } else if (IsCode(p.view.mode) && s[0] == ';') || StepLen(p, s).None? {
      VerdictHere(p, s);
    } else {
      var n := StepLen(p, s).value;
      VerdictIs(StepTo(p, s[0]), s[n..]);
      BothMove(p, s, n, StepTo(p, s[0]), s[n..]);
    }
  }

  // ---------------------------------------------------------------------------------------------
  // The rewriter gives that verdict
  // ---------------------------------------------------------------------------------------------

  /** The rewriter and the reader stand at the same place, in the same clause. */
  predicate InStep(c: Context, p: Stand, s: string) {
    Aligned(c, p.view, s) && c.clause == ClauseHere(p)
  }

  lemma {:induction false} NoWord(view: View, clause: Option<Clause>)
    requires view.word == ""
    ensures ClauseHere(Stand(view, clause)) == clause
  {
    ShortIsNoKeyword("");
  }

  /** Both take a parenthesis for the same thing. */
  lemma {:induction false} SamePattern(c: Context, p: Stand, s: string)
    requires s != "" && InStep(c, p, s)
    ensures c.lex == Normal <==> IsCode(p.view.mode)
    ensures c.lex == Normal && c.clause.Some? && !c.lastIdent && s[0] == '(' <==> OpensPattern(p, s[0])
  {
  }

  lemma {:induction false} SameRefusal(c: Context, p: Stand, s: string)
    requires s != "" && InStep(c, p, s) && Next(c, s).Reject?
    ensures Verdict(p, s) == Some(Next(c, s).error)
  {
    SamePattern(c, p, s);
  }

  lemma {:induction false} AfterJump(c: Context, clause: Option<Clause>, rest: string)
    requires c.lex == Normal && !c.lastIdent && c.clause == clause
    ensures InStep(c, Stand(BEGIN, clause), rest)
  {
    ClosedAligned(c, rest);
    NoWord(BEGIN, clause);
  }

  lemma {:induction false} JumpLen(c: Context, p: Stand, s: string, r: Step)
    requires s != "" && r == Next(c, s) && r.Take? && !r.token.Raw? && !IsUnclosed(r.token) && IsCode(p.view.mode)
    requires s[0] == '(' ==> OpensPattern(p, s[0])
    ensures StepLen(p, s) == Some(|Source(r.token)|) && StepTo(p, s[0]) == Stand(BEGIN, ClauseHere(p))
    ensures s[0] != ';' && r.next.lex.Normal? && !r.next.lastIdent && r.next.clause == c.clause
  {
  }

  /** A bracket or pattern, with its end. */
  lemma {:induction false} JumpInStep(c: Context, p: Stand, s: string, r: Step)
    requires s != "" && InStep(c, p, s) && r == Next(c, s) && r.Take? && !r.token.Raw? && !IsUnclosed(r.token)
    ensures StepLen(p, s) == Some(|Source(r.token)|)
    ensures var rest := s[|Source(r.token)|..];
      Verdict(p, s) == Verdict(StepTo(p, s[0]), rest) && InStep(r.next, StepTo(p, s[0]), rest)
  {
    SamePattern(c, p, s);
    JumpLen(c, p, s, r);
    AfterJump(r.next, ClauseHere(p), s[|Source(r.token)|..]);
  }

  lemma {:induction false} UnclosedListPasses(c: Context, p: Stand, s: string, r: Step)
    requires s != "" && InStep(c, p, s) && r == Next(c, s) && r.Take? && IsUnclosed(r.token)
    ensures Verdict(p, s).None?
  {
    SamePattern(c, p, s);
  }

  /** The next character is neither refused nor the start of a bracket or pattern. */
  predicate IsSingle(p: Stand, c: char) {
    !(IsCode(p.view.mode) && c == ';') && !OpensList(p, c) && !OpensPattern(p, c)
  }

  lemma {:induction false} OneStep(p: Stand, s: string)
    requires s != "" && IsSingle(p, s[0])
    ensures Verdict(p, s) == Verdict(StepTo(p, s[0]), s[1..])
    ensures StepTo(p, s[0]) == Stand(See(p.view, s[0]), if IsIdent(s[0]) then p.clause else ClauseHere(p))
  {
  }

  lemma {:induction false} WordSteps(p: Stand, w: string, rest: string)
    requires IsCode(p.view.mode) && IsLabel(w)
    ensures Verdict(p, w + rest) == Verdict(Stand(SeeAll(p.view, w), p.clause), rest)
    decreases w
  {
    if w == "" {
      assert w + rest == rest;
    } else {
      assert (w + rest)[1..] == w[1..] + rest;
      OneStep(p, w + rest);
      WordSteps(StepTo(p, w[0]), w[1..], rest);
    }
  }

  lemma {:induction false} WordInStep(c: Context, p: Stand, s: string, r: Step)
    requires s != "" && InStep(c, p, s) && c.lex == Normal && IsIdent(s[0]) && r == Next(c, s)
    ensures r.Take? && r.token.Raw?
    ensures var q, rest := Stand(SeeAll(p.view, r.token.text), p.clause), s[|r.token.text|..];
      Verdict(p, s) == Verdict(q, rest) && InStep(r.next, q, rest)
  {
    var w := r.token.text;
    assert s == w + s[|w|..];
    WordSteps(p, w, s[|w|..]);
    TokenAligned(c, s, r, p.view);
    NextClause(c, s, r);
    NoWord(p.view, p.clause);
    SeeWord(p.view, w);
    assert p.view.word + w == w;
  }

  lemma {:induction false} StepKeepsClause(p: Stand, c: char)
    requires IsSingle(p, c) && (IsCode(p.view.mode) ==> !IsIdent(c)) && (!IsCode(p.view.mode) ==> p.view.word == "")
    ensures StepTo(p, c).view == See(p.view, c) && StepTo(p, c).view.word == ""
    ensures ClauseHere(StepTo(p, c)) == ClauseHere(p)
  {
    NoWord(p.view.(word := ""), p.clause);
    NoWord(StepTo(p, c).view, StepTo(p, c).clause);
  }

  /** A token of one character. */
  lemma {:induction false} CharInStep(c: Context, p: Stand, s: string, r: Step)
    requires s != "" && InStep(c, p, s) && r == Next(c, s) && r.Take? && r.token == Raw([s[0]])
    requires c.lex == Normal ==> !IsIdent(s[0])
    ensures Verdict(p, s) == Verdict(StepTo(p, s[0]), s[1..]) && InStep(r.next, StepTo(p, s[0]), s[1..])
  {
    SamePattern(c, p, s);
    OneStep(p, s);
    StepKeepsClause(p, s[0]);
    TokenAligned(c, s, r, p.view);
    SeeOne(p.view, s[0]);
    NextClause(c, s, r);
    ShortIsNoKeyword([s[0]]);
  }

  /** An escape, or the start or end of a comment. */
  lemma {:induction false} PairInStep(c: Context, p: Stand, s: string, r: Step, q: Stand)
    requires |s| > 1 && InStep(c, p, s) && r == Next(c, s) && r.Take? && r.token == Raw(s[..2])
    requires !(c.lex == Normal && IsIdent(s[0])) && q == StepTo(StepTo(p, s[0]), s[1])
    ensures Verdict(p, s) == Verdict(q, s[2..]) && InStep(r.next, q, s[2..])
  {
    SamePattern(c, p, s);
    OneStep(p, s);
    StepKeepsClause(p, s[0]);
    OneStep(StepTo(p, s[0]), s[1..]);
    StepKeepsClause(StepTo(p, s[0]), s[1]);
    assert s[1..][1..] == s[2..];
    TokenAligned(c, s, r, p.view);
    SeeTwo(p.view, s);
    NextClause(c, s, r);
    ShortIsNoKeyword(s[..2]);
  }

  lemma {:induction false} RawInStep(c: Context, p: Stand, s: string, r: Step) returns (q: Stand)
    requires s != "" && InStep(c, p, s) && r == Next(c, s) && r.Take? && r.token.Raw?
    ensures Verdict(p, s) == Verdict(q, s[|r.token.text|..]) && InStep(r.next, q, s[|r.token.text|..])
  {
    if c.lex == Normal && IsIdent(s[0]) {
      WordInStep(c, p, s, r);
      q := Stand(SeeAll(p.view, r.token.text), p.clause);
    } else if |r.token.text| == 1 {
      assert r.token.text == [s[0]];
      CharInStep(c, p, s, r);
      q := StepTo(p, s[0]);
    } else {
      q := StepTo(StepTo(p, s[0]), s[1]);
      PairInStep(c, p, s, r, q);
    }
  }

  lemma {:induction false} ScanGivesVerdict(c: Context, p: Stand, s: string)
    requires InStep(c, p, s)
    ensures match Verdict(p, s) case Some(e) => Scan(c, s) == Err(e) case None => Scan(c, s).Ok?
    decreases s
  {
    if s == "" {
    } else {
      var r := Next(c, s);
      if r.Reject? {
        SameRefusal(c, p, s);
      } else {
        var rest := s[|Source(r.token)|..];
        if IsUnclosed(r.token) {
          UnclosedListPasses(c, p, s, r);
          assert rest == "";
        } else if r.token.Raw? {
          var q := RawInStep(c, p, s, r);
          ScanGivesVerdict(r.next, q, rest);
        } else {
          JumpInStep(c, p, s, r);
          ScanGivesVerdict(r.next, StepTo(p, s[0]), rest);
        }
      }
    }
  }

  /**
   * Every query: it is refused for a second statement exactly when a `;` stands in code, outside brackets
   * and patterns and before the first unclosed pattern or bracket; otherwise for an unclosed pattern exactly
   * when there is one. All others are rewritten.
   */
  lemma {:induction false} RefusedExactly(cypher: string, tag: string)
    ensures Inject(cypher, tag) == Err(MultiStatement) <==> HasStray(FIRST, cypher)
    ensures Inject(cypher, tag) == Err(UnclosedNodePattern) <==> HasUnclosed(FIRST, cypher) && !HasStray(FIRST, cypher)
    ensures Inject(cypher, tag).Ok? <==> !HasUnclosed(FIRST, cypher) && !HasStray(FIRST, cypher)
  {
    NoWord(BEGIN, None);
    ScanGivesVerdict(START, FIRST, cypher);
    VerdictIs(FIRST, cypher);
    if Verdict(FIRST, cypher).Some? {
      assert Verdict(FIRST, cypher).value.MultiStatement? || Verdict(FIRST, cypher).value.UnclosedNodePattern?;
    }
  }

  // ---------------------------------------------------------------------------------------------
  // Which words open and end a clause
  // ---------------------------------------------------------------------------------------------

  predicate OpensClause(word: string) {
    Upper(word) in {"MATCH", "CREATE", "MERGE"}
  }

  predicate EndsClause(word: string) {
    Upper(word) in {"WHERE", "WITH", "RETURN", "SET", "REMOVE", "DELETE", "DETACH", "ORDER", "SKIP", "LIMIT", "UNION",
                    "UNWIND", "CALL", "YIELD", "CASE", "WHEN", "THEN", "ELSE", "END"}
  }

  lemma {:induction false} StandBehindWord(p: Stand, w: string, rest: string, j: nat, k: nat)
    requires IsCode(p.view.mode) && IsLabel(w) && k == |w| + j
    ensures StandAt(p, w + rest, k) == StandAt(Stand(SeeAll(p.view, w), p.clause), rest, j)
    decreases w
  {
    if w == "" {
      assert w + rest == rest;
    } else {
      assert (w + rest)[1..] == w[1..] + rest;
      StandLater(p, w + rest, 1, k);
      StandBehindWord(StepTo(p, w[0]), w[1..], rest, j, k - 1);
    }
  }

  lemma {:induction false} StandOne(p: Stand, s: string)
    requires s != "" && StepLen(p, s) == Some(1)
    ensures StandAt(p, s, 1) == Some(StepTo(p, s[0]))
  {
    StandLater(p, s, 1, 1);
  }

  /**
   * Right behind a word a parenthesis opens a pattern exactly when the word opens a clause; behind any other
   * word it is a call or an expression.
   */
  lemma {:induction false} BehindWord(p: Stand, w: string, rest: string, k: nat)
    requires IsCode(p.view.mode) && p.view.word == "" && w != "" && IsLabel(w) && k == |w|
    ensures var q := StandAt(p, w + rest, k); q.Some? && (OpensPattern(q.value, '(') <==> OpensClause(w))
  {
    StandBehindWord(p, w, rest, 0, k);
    SeeWord(p.view, w);
    assert p.view.word + w == w;
  }

  /**
   * Behind a word and a symbol it opens one exactly when the word opens a clause, or a clause was open and the
   * word does not end it.
   */
  lemma {:induction false} BehindSymbol(p: Stand, w: string, c: char, rest: string, k: nat)
    requires IsCode(p.view.mode) && p.view.word == "" && w != "" && IsLabel(w) && k == |w|
    requires !IsIdent(c) && !IsAsciiSpace(c) && c !in {'\'', '"', '`', '/', ';', '[', '('}
    ensures var q := StandAt(p, w + ([c] + rest), k + 1);
      q.Some? && (OpensPattern(q.value, '(') <==> OpensClause(w) || (p.clause.Some? && !EndsClause(w)))
  {
    StandBehindWord(p, w, [c] + rest, 1, k + 1);
    SeeWord(p.view, w);
    assert p.view.word + w == w;
    var q := Stand(SeeAll(p.view, w), p.clause);
    StandOne(q, [c] + rest);
    assert StepTo(q, c) == Stand(View(Plain, "", NoName), ClauseHere(q));
    NoWord(StepTo(q, c).view, StepTo(q, c).clause);
  }

  // ---------------------------------------------------------------------------------------------
  // With plain interiors, the simple reader suffices
  // ---------------------------------------------------------------------------------------------

  /** The brackets and patterns that are stepped over hold nothing that only one of the scanners knows. */
  predicate PlainAhead(p: Stand, s: string)
    decreases s
  {
    s == "" || match StepLen(p, s)
      case None => true
      case Some(n) =>
        && (OpensList(p, s[0]) ==> PlainBracket(Outside, s[1..n - 1]))
        && (OpensPattern(p, s[0]) ==> PlainInterior(INTERIOR, s[1..n - 1]))
        && PlainAhead(StepTo(p, s[0]), s[n..])
  }

  lemma {:induction false} ListStepSeen(p: Stand, s: string, n: nat)
    requires s != "" && OpensList(p, s[0]) && StepLen(p, s) == Some(n) && PlainBracket(Outside, s[1..n - 1])
    ensures SeeAll(p.view, s[..n]) == BEGIN
  {
    ListSeen(p.view, s, n - 2);
    assert s[..n] == ['['] + s[1..n - 1] + [']'];
  }

  lemma {:induction false} PatternStepSeen(p: Stand, s: string, n: nat)
    requires s != "" && OpensPattern(p, s[0]) && StepLen(p, s) == Some(n) && PlainInterior(INTERIOR, s[1..n - 1])
    ensures SeeAll(p.view, s[..n]) == BEGIN
  {
    PatternSeen(p.view, s, n - 2);
    assert s[..n] == ['('] + s[1..n - 1] + [')'];
  }

  lemma {:induction false} StepSeen(p: Stand, s: string, n: nat)
    requires s != "" && PlainAhead(p, s) && StepLen(p, s) == Some(n)
    ensures SeeAll(p.view, s[..n]) == StepTo(p, s[0]).view
  {
    if OpensList(p, s[0]) {
      ListStepSeen(p, s, n);
    } else if OpensPattern(p, s[0]) {
      PatternStepSeen(p, s, n);
    } else {
      assert s[..1] == [s[0]];
      SeeOne(p.view, s[0]);
    }
  }

  lemma {:induction false} StandIsView(p: Stand, s: string, k: nat)
    requires PlainAhead(p, s) && k <= |s| && StandAt(p, s, k).Some?
    ensures StandAt(p, s, k).value.view == SeeAll(p.view, s[..k])
    decreases s
  {
    if k == 0 {
      assert s[..0] == "";
    } else {
      var n := StepLen(p, s).value;
      StepSeen(p, s, n);
      StandLater(p, s, n, k);
      StandIsView(StepTo(p, s[0]), s[n..], k - n);
      ViewLater(p.view, s, n, k);
    }
  }

  /** By the simple reader, outside brackets and patterns. */
  predicate IsSemicolon(s: string, k: nat) {
    k < |s| && s[k] == ';' && IsCode(SeeAll(BEGIN, s[..k]).mode) && StandAt(FIRST, s, k).Some?
  }

  /** The same for plain interiors: what stands in code is then what the simple reader says. */
  lemma {:induction false} SemicolonExactly(cypher: string, tag: string)
    requires PlainAhead(FIRST, cypher)
    ensures Inject(cypher, tag) == Err(MultiStatement) <==>
      exists k: nat :: IsSemicolon(cypher, k)
  {
    RefusedExactly(cypher, tag);
    forall k: nat ensures StrayAt(FIRST, cypher, k) <==> IsSemicolon(cypher, k) {
      if k < |cypher| && StandAt(FIRST, cypher, k).Some? {
        StandIsView(FIRST, cypher, k);
      }
    }
  }
}
