/**
 * A reader of Cypher that knows neither brackets nor patterns: one character at a time it keeps the lexical
 * state of the write check, the word it is in, and what last stood in code before it. As long as the inside
 * of brackets and node patterns holds nothing that only one of them understands, it agrees with the rewriter
 * at every token.
 */
module CodeView {
  import opened Prelude
  import opened Detector
  import opened Injector
  import opened InjectorTheorems
  import opened Provenance

  /** What last stood in code, white space and comments aside. */
  datatype Prior = NoName | QuotedName | LastWord(word: string)

  /** `mode`: as in the write check, words aside; `word`: the run of identifier characters being read. */
  datatype View = View(mode: Mode, word: string, prior: Prior)

  const BEGIN := View(Plain, "", NoName)

  predicate IsCode(m: Mode) {
    m.Plain? || m.Slash?
  }

  function Track(m: Mode, c: char): Mode {
    var next := Read(m, c);
    if next.Word? then Plain else next
  }

  /** A slash that opens no comment is no name. */
  function PriorOf(v: View): Prior {
    if v.mode.Slash? then NoName else if v.word != "" then LastWord(v.word) else v.prior
  }

  function See(v: View, c: char): View {
    var m := Track(v.mode, c);
    if !IsCode(v.mode) then View(m, "", if v.mode.Backtick? && c == '`' then QuotedName else v.prior)
    else if IsIdent(c) then View(m, v.word + [c], NoName)
    else if v.mode.Slash? && (c == '/' || c == '*') then View(m, "", v.prior)
    else if c == '/' || c == '`' || IsAsciiSpace(c) then View(m, "", PriorOf(v))
    else View(m, "", NoName)
  }

  function SeeAll(v: View, s: string): View
    decreases s
  {
    if s == "" then v else SeeAll(See(v, s[0]), s[1..])
  }

  /** A name: a quoted one, or a word that neither opens nor ends a path clause. */
  predicate IsName(p: Prior) {
    match p
    case NoName => false
    case QuotedName => true
    case LastWord(w) => PathStart(Upper(w)).None? && !IsPathEnd(Upper(w))
  }

  /** A `(` in code that does not follow a name: no call. */
  predicate IsParenthesis(s: string, k: nat) {
    k < |s| && s[k] == '(' && var v := SeeAll(BEGIN, s[..k]); IsCode(v.mode) && !IsName(PriorOf(v))
  }

  lemma {:induction false} SeeConcat(v: View, a: string, b: string)
    ensures SeeAll(v, a + b) == SeeAll(SeeAll(v, a), b)
    decreases a
  {
    if a == "" {
      assert a + b == b;
    } else {
      assert (a + b)[1..] == a[1..] + b;
      SeeConcat(See(v, a[0]), a[1..], b);
    }
  }

  lemma {:induction false} SeeOne(v: View, c: char)
    ensures SeeAll(v, [c]) == See(v, c)
  {
  }

  lemma {:induction false} SeeTwo(v: View, s: string)
    requires |s| > 1
    ensures SeeAll(v, s[..2]) == See(See(v, s[0]), s[1])
  {
    assert s[..2][1..] == [s[1]];
    SeeOne(See(v, s[0]), s[1]);
  }

  // ---------------------------------------------------------------------------------------------
  // Plain interiors
  // ---------------------------------------------------------------------------------------------

  predicate OpensComment(s: string) {
    |s| > 1 && s[0] == '/' && (s[1] == '/' || s[1] == '*')
  }

  /** No backtick and no comment start outside quotes: what the node-pattern scanner does not know. */
  predicate PlainInterior(q: Interior, s: string)
    decreases s
  {
    s == "" || ((q.quote == Outside ==> s[0] != '`' && !OpensComment(s)) && PlainInterior(Inside(q, s[0]), s[1..]))
  }

  /** The same for brackets, whose scanner does not know quote escapes either. */
  predicate PlainBracket(q: Quote, s: string)
    decreases s
  {
    s == "" || ((if q == Outside then s[0] != '`' && !OpensComment(s) else s[0] != '\\')
                && PlainBracket(Toggle(q, s[0]), s[1..]))
  }

  predicate IsPlain(t: Token) {
    match t
    case Raw(_) => true
    case Bracket(content, _) => PlainBracket(Outside, content)
    case Node(inner, _, _) => PlainInterior(INTERIOR, inner)
  }

  predicate AllPlain(ts: seq<Token>) {
    forall t | t in ts :: IsPlain(t)
  }

  /** A condition on the query alone: the interiors that the rewriter scans are plain. */
  predicate PlainQuery(cypher: string) {
    var r := Scan(START, cypher);
    r.Ok? && AllPlain(r.value)
  }

  // ---------------------------------------------------------------------------------------------
  // In step
  // ---------------------------------------------------------------------------------------------

  /** Where the rewriter stands, there the reader stands. */
  predicate SameState(lex: Lex, m: Mode) {
    match lex
    case Normal => IsCode(m)
    case SingleQuote => m.Single?
    case DoubleQuote => m.Double?
    case InBacktick => m.Backtick?
    case LineComment => m.Line?
    case BlockComment => m.Block?
  }

  predicate IsIdentPrior(p: Prior) {
    p.QuotedName? || (p.LastWord? && PathStart(Upper(p.word)).None?)
  }

  /** They stand at the same place, and `s` does not complete what the rewriter has already ended. */
  predicate Aligned(c: Context, v: View, s: string) {
    && SameState(c.lex, v.mode)
    && c.lastIdent == IsIdentPrior(PriorOf(v))
    && (PriorOf(v).LastWord? && IsPathEnd(Upper(PriorOf(v).word)) ==> c.clause.None?)
    && (v.mode.Single? || v.mode.Double? ==> v.prior.NoName?)
    && (s != "" ==>
          && (v.mode.Slash? ==> s[0] != '/' && s[0] != '*')
          && (v.mode == Block(true) ==> s[0] != '/') && v.mode != Single(true) && v.mode != Double(true)
          && (v.word != "" ==> IsCode(v.mode) && !IsIdent(s[0])))
  }

  predicate QuoteSeen(q: Quote, escaped: bool, m: Mode) {
    match q
    case Outside => !escaped && IsCode(m)
    case InSingle => m == Single(escaped)
    case InDouble => m == Double(escaped)
  }

  /** No comment is completed by what comes next. */
  predicate NoComment(m: Mode, s: string) {
    m.Slash? && s != "" ==> s[0] != '/' && s[0] != '*'
  }

  lemma {:induction false} InteriorChar(q: Interior, v: View, s: string)
    requires s != "" && QuoteSeen(q.quote, q.escaped, v.mode) && PlainInterior(q, s) && NoComment(v.mode, s)
    ensures var q', v' := Inside(q, s[0]), See(v, s[0]);
      QuoteSeen(q'.quote, q'.escaped, v'.mode) && PlainInterior(q', s[1..]) && NoComment(v'.mode, s[1..])
  {
  }

  lemma {:induction false} InteriorSeen(q: Interior, v: View, s: string, rest: string)
    requires QuoteSeen(q.quote, q.escaped, v.mode) && PlainInterior(q, s) && NoComment(v.mode, s)
    requires NodeLen(q, s + ")" + rest) == Some(|s|)
    ensures IsCode(SeeAll(v, s).mode)
    decreases s
  {
    if s == "" {
      assert s + ")" + rest == ")" + rest;
      assert Closes(q, ')') || NodeLen(q, ")" + rest) != Some(0);
    } else {
      assert (s + ")" + rest)[1..] == s[1..] + ")" + rest;
      InteriorChar(q, v, s);
      InteriorSeen(Inside(q, s[0]), See(v, s[0]), s[1..], rest);
    }
  }

  lemma {:induction false} BracketChar(q: Quote, v: View, s: string)
    requires s != "" && QuoteSeen(q, false, v.mode) && PlainBracket(q, s) && NoComment(v.mode, s)
    ensures var q', v' := Toggle(q, s[0]), See(v, s[0]);
      QuoteSeen(q', false, v'.mode) && PlainBracket(q', s[1..]) && NoComment(v'.mode, s[1..])
  {
  }

  lemma {:induction false} BracketSeen(q: Quote, depth: nat, v: View, s: string, rest: string)
    requires depth > 0 && QuoteSeen(q, false, v.mode) && PlainBracket(q, s) && NoComment(v.mode, s)
    requires BracketLen(q, depth, s + "]" + rest) == |s|
    ensures IsCode(SeeAll(v, s).mode)
    decreases s
  {
    if s == "" {
      assert s + "]" + rest == "]" + rest;
    } else {
      assert (s + "]" + rest)[1..] == s[1..] + "]" + rest;
      BracketChar(q, v, s);
      var deeper := if q != Outside || (s[0] != '[' && s[0] != ']') then depth
                    else if s[0] == '[' then depth + 1 else depth - 1;
      BracketSeen(Toggle(q, s[0]), deeper, See(v, s[0]), s[1..], rest);
    }
  }

  lemma {:induction false} EnclosedSeen(v: View, open: char, inner: string, close: char)
    ensures SeeAll(v, [open] + inner + [close]) == See(SeeAll(See(v, open), inner), close)
  {
    assert ([open] + inner + [close])[1..] == inner + [close];
    SeeConcat(See(v, open), inner, [close]);
    SeeOne(SeeAll(See(v, open), inner), close);
  }

  // One token of the rewriter

  predicate StaysAligned(s: string, r: Step, v: View)
    requires r.Take? && |Source(r.token)| <= |s|
  {
    Aligned(r.next, SeeAll(v, Source(r.token)), s[|Source(r.token)|..])
  }

  lemma {:induction false} QuotedAligned(c: Context, s: string, quote: char, r: Step, v: View)
    requires s != "" && ((quote == '\'' && c.lex == SingleQuote) || (quote == '"' && c.lex == DoubleQuote))
    requires Aligned(c, v, s) && r == QuotedStep(c, s, quote)
    ensures r.Take? && StaysAligned(s, r, v)
  {
    assert s[..1] == [s[0]];
    SeeOne(v, s[0]);
    if |s| > 1 {
      SeeTwo(v, s);
    }
  }

  lemma {:induction false} CommentAligned(c: Context, s: string, r: Step, v: View)
    requires s != "" && c.lex in {InBacktick, LineComment, BlockComment} && Aligned(c, v, s) && r == Next(c, s)
    ensures r.Take? && StaysAligned(s, r, v)
  {
    assert s[..1] == [s[0]];
    SeeOne(v, s[0]);
    if |s| > 1 {
      SeeTwo(v, s);
    }
  }

  lemma {:induction false} OpeningAligned(c: Context, s: string, r: Step, v: View)
    requires c.lex == Normal && Aligned(c, v, s) && OpensComment(s) && r == NormalStep(c, s)
    ensures r.Take? && StaysAligned(s, r, v)
  {
    SeeTwo(v, s);
  }

  lemma {:induction false} SymbolAligned(c: Context, s: string, r: Step, v: View)
    requires s != "" && c.lex == Normal && Aligned(c, v, s) && !IsIdent(s[0]) && s[0] != '['
    requires r == NormalStep(c, s) && r.Take? && r.token.Raw?
    ensures StaysAligned(s, r, v)
  {
    if OpensComment(s) {
      OpeningAligned(c, s, r, v);
    } else {
      assert s[..1] == [s[0]];
      SeeOne(v, s[0]);
    }
  }

  lemma {:induction false} SeeWord(v: View, w: string)
    requires IsCode(v.mode) && IsLabel(w)
    ensures var r := SeeAll(v, w); if w == "" then r == v else r.mode.Plain? && r.word == v.word + w
    decreases w
  {
    if w == "" {
    } else {
      SeeWord(See(v, w[0]), w[1..]);
      assert v.word + [w[0]] + w[1..] == v.word + w;
    }
  }

  lemma {:induction false} AfterWordAligned(c: Context, w: string, v: View, rest: string)
    requires c.lex == Normal && v.mode.Plain? && v.word == w && w != "" && (rest != "" ==> !IsIdent(rest[0]))
    ensures Aligned(WordTake(c, w).next, v, rest)
  {
  }

  lemma {:induction false} WordAligned(c: Context, s: string, r: Step, v: View)
    requires s != "" && c.lex == Normal && IsIdent(s[0]) && Aligned(c, v, s) && r == WordStep(c, s)
    ensures r.Take? && StaysAligned(s, r, v)
  {
    var w := s[..PrefixLen(s, Ident)];
    SeeWord(v, w);
    assert v.word + w == w;
    AfterWordAligned(c, w, SeeAll(v, w), s[|w|..]);
  }

  /** Behind a closing bracket or parenthesis everything is as at the beginning. */
  lemma {:induction false} CloseSeen(v: View, c: char)
    requires IsCode(v.mode) && (c == ')' || c == ']')
    ensures See(v, c) == BEGIN
  {
  }

  lemma {:induction false} ClosedAligned(c: Context, rest: string)
    requires c.lex == Normal && !c.lastIdent
    ensures Aligned(c, BEGIN, rest)
  {
  }

  lemma {:induction false} PatternSeen(v: View, s: string, n: nat)
    requires s != "" && s[0] == '(' && IsCode(v.mode) && NodeLen(INTERIOR, s[1..]) == Some(n)
    requires PlainInterior(INTERIOR, s[1..1 + n])
    ensures SeeAll(v, ['('] + s[1..1 + n] + [')']) == BEGIN
  {
    var inner := s[1..1 + n];
    EnclosedSeen(v, '(', inner, ')');
    assert s[1..] == inner + ")" + s[2 + n..];
    InteriorSeen(INTERIOR, See(v, '('), inner, s[2 + n..]);
    CloseSeen(SeeAll(See(v, '('), inner), ')');
  }

  lemma {:induction false} PatternAligned(c: Context, s: string, n: nat, r: Step, v: View)
    requires s != "" && s[0] == '(' && c.clause.Some? && c.lex == Normal && Aligned(c, v, s)
    requires NodeLen(INTERIOR, s[1..]) == Some(n) && r == NodeTake(c, s[1..1 + n]) && IsPlain(r.token)
    ensures |Source(r.token)| <= |s| && StaysAligned(s, r, v)
  {
    PatternSeen(v, s, n);
    assert Source(r.token) == ['('] + s[1..1 + n] + [')'];
    ClosedAligned(r.next, s[|Source(r.token)|..]);
  }

  lemma {:induction false} ListSeen(v: View, s: string, n: nat)
    requires s != "" && s[0] == '[' && IsCode(v.mode) && BracketLen(Outside, 1, s[1..]) == n < |s| - 1
    requires PlainBracket(Outside, s[1..1 + n])
    ensures SeeAll(v, ['['] + s[1..1 + n] + [']']) == BEGIN
  {
    var content := s[1..1 + n];
    EnclosedSeen(v, '[', content, ']');
    assert s[1..] == content + "]" + s[2 + n..];
    BracketSeen(Outside, 1, See(v, '['), content, s[2 + n..]);
    CloseSeen(SeeAll(See(v, '['), content), ']');
  }

  lemma {:induction false} ListAligned(c: Context, s: string, n: nat, r: Step, v: View)
    requires s != "" && s[0] == '[' && c.lex == Normal && Aligned(c, v, s)
      && BracketLen(Outside, 1, s[1..]) == n < |s| - 1
    requires r == Take(Bracket(s[1..1 + n], true), c.(lastIdent := false)) && IsPlain(r.token)
    ensures |Source(r.token)| <= |s| && StaysAligned(s, r, v)
  {
    ListSeen(v, s, n);
    assert Source(r.token) == ['['] + s[1..1 + n] + [']'];
    ClosedAligned(r.next, s[|Source(r.token)|..]);
  }

  lemma {:induction false} NormalAligned(c: Context, s: string, r: Step, v: View)
    requires s != "" && c.lex == Normal && Aligned(c, v, s) && !IsIdent(s[0])
    requires r == NormalStep(c, s) && r.Take? && !IsUnclosed(r.token) && IsPlain(r.token)
    ensures StaysAligned(s, r, v)
  {
    if s[0] == '[' {
      ListAligned(c, s, BracketLen(Outside, 1, s[1..]), r, v);
    } else if r.token.Node? {
      var n := NodeLen(INTERIOR, s[1..]).value;
      NodeStepIs(c, s, s[1..1 + n]);
      PatternAligned(c, s, n, r, v);
    } else {
      SymbolAligned(c, s, r, v);
    }
  }

  /** After every token with a plain interior the two stand at the same place again. */
  lemma {:induction false} TokenAligned(c: Context, s: string, r: Step, v: View)
    requires s != "" && Aligned(c, v, s) && r == Next(c, s) && r.Take?
    requires !IsUnclosed(r.token) && IsPlain(r.token)
    ensures StaysAligned(s, r, v)
  {
    if c.lex == Normal && IsIdent(s[0]) {
      WordAligned(c, s, r, v);
    } else {
      match c.lex
      case SingleQuote => QuotedAligned(c, s, '\'', r, v);
      case DoubleQuote => QuotedAligned(c, s, '"', r, v);
      case Normal => NormalAligned(c, s, r, v);
      case _ => CommentAligned(c, s, r, v);
    }
  }
}
