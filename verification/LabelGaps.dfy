/**
 * Patterns without the label, and labels in the wrong place: queries that the write check calls read-only,
 * whose patterns the rewriter does not take, and patterns whose variable it does not see.
 */
module LabelGaps {
  import opened Prelude
  import opened Detector
  import opened Injector
  import opened InjectorTheorems
  import opened Provenance
  import opened CodeView
  import opened Parentheses
  import opened ReadOnly

  // ---------------------------------------------------------------------------------------------
  // Patterns that are not taken
  // ---------------------------------------------------------------------------------------------

  /** A parenthesis that no call precedes, with no label behind it before or after the rewriting. */
  ghost predicate IsGap(cypher: string, tag: string, k: nat) {
    Inject(cypher, tag).Ok? && !HasWrite(cypher) && IsParenthesis(cypher, k) && !IsLabelledIn(cypher, tag, k)
  }

  lemma {:induction false} LeftIsGap(cypher: string, tag: string, ts: seq<Token>, k: nat)
    requires Scan(START, cypher) == Ok(ts) && IsLabel(tag) && AllPlain(ts) && !HasWrite(cypher)
      && IsParenthesis(cypher, k)
    requires FateAt(ts, k) in {Left, Inside} && !IsLabelled(cypher[k + 1..], tag)
    ensures IsGap(cypher, tag, k)
  {
    LabelledExactly(cypher, tag, k);
    ParenthesesAreAccounted(cypher, k);
  }

  lemma {:induction false} NameHasNoLabel(x: string, y: string, tag: string)
    requires IsLabel(tag) && IsStopper(y) && forall i | 0 <= i < |x| :: IsIdent(x[i])
    ensures !IsLabelled(x + y, tag)
  {
    LabelIsLocal(x, y, tag);
    PrefixLenIs(x, Space, 0);
    assert x[0..] == x;
    PrefixLenIs(x, VarChar, |x|);
  }

  /** Words and symbols, without quotes and slashes. */
  predicate IsSimple(s: string) {
    forall i | 0 <= i < |s| :: s[i] !in {'\'', '"', '`', '/'}
  }

  lemma {:induction false} SimpleIsCode(v: View, s: string)
    requires v.mode.Plain? && IsSimple(s)
    ensures SeeAll(v, s).mode.Plain?
    decreases s
  {
    if s == "" {
    } else {
      SimpleIsCode(See(v, s[0]), s[1..]);
    }
  }

  /** Behind a symbol, a parenthesis is no call. */
  lemma {:induction false} BehindSymbol(front: string, c: char, rest: string)
    requires IsSimple(front) && !IsIdent(c) && !IsAsciiSpace(c) && c !in {'/', '`'}
    requires c !in {'\'', '"'}
    ensures IsParenthesis(front + [c] + "(" + rest, |front| + 1)
  {
    var s := front + [c] + "(" + rest;
    assert s[..|front| + 1] == front + [c];
    SeeConcat(BEGIN, front, [c]);
    SimpleIsCode(BEGIN, front);
    SeeOne(SeeAll(BEGIN, front), c);
  }

  lemma {:induction false} TakeSymbol(c: Context, symbol: char, rest: string)
    requires c.lex == Normal && !IsIdent(symbol) && symbol !in {'\'', '"', '`', '/', ';', '['}
    requires symbol == '(' ==> c.clause.None?
    ensures Next(c, [symbol] + rest) == Take(Raw([symbol]), c.(lastIdent := c.lastIdent && IsAsciiSpace(symbol)))
  {
    assert ([symbol] + rest)[..1] == [symbol];
  }

  lemma {:induction false} TakeWord(c: Context, word: string, rest: string)
    requires c.lex == Normal && word != "" && IsLabel(word) && (rest == "" || !IsIdent(rest[0]))
    ensures Next(c, word + rest) == WordTake(c, word)
  {
    var s := word + rest;
    assert s[..|word|] == word;
    PrefixLenIs(s, Ident, |word|);
    assert s[0] == word[0];
  }

  predicate AllRaw(ts: seq<Token>) {
    forall t | t in ts :: t.Raw?
  }

  lemma {:induction false} RawIsLeft(ts: seq<Token>, k: nat)
    requires AllRaw(ts)
    ensures FateAt(ts, k) == Left
    decreases |ts|
  {
    if ts == [] {
    } else {
      assert ts[0] in ts && forall t | t in ts[1..] :: t in ts;
      if k >= |Source(ts[0])| {
        RawIsLeft(ts[1..], k - |Source(ts[0])|);
      }
    }
  }

  lemma {:induction false} RawIsCopied(ts: seq<Token>, tag: string)
    requires AllRaw(ts)
    ensures Targets(ts, tag) == Sources(ts)
    decreases |ts|
  {
    if ts == [] {
    } else {
      assert ts[0] in ts && forall t | t in ts[1..] :: t in ts;
      RawIsCopied(ts[1..], tag);
    }
  }

  /** A word that is no write keyword, and what ends it. */
  lemma {:induction false} WordPasses(word: string, rest: string)
    requires word != "" && IsLabel(word) && !IsDigit(word[0]) && !IsWriteKeyword(word)
      && (rest != "" ==> !IsIdent(rest[0]))
    ensures HasWrite(word + rest) <==> HasWrite(rest)
  {
    LetterRuns(word);
    RunConcat(Plain, word, rest);
    WordEnds(word, rest);
  }

  lemma {:induction false} SymbolPasses(c: char, rest: string)
    requires !IsIdent(c) && c !in {'\'', '"', '`', '/'}
    ensures HasWrite([c] + rest) <==> HasWrite(rest)
  {
    assert ([c] + rest)[1..] == rest;
  }

  // A path-end word that is used as a name closes the clause

  lemma {:induction false} ScanLast(c: Context, symbol: char)
    requires c.lex == Normal && !IsIdent(symbol) && symbol !in {'\'', '"', '`', '/', ';', '[', '('}
    ensures Scan(c, [symbol]) == Ok([Raw([symbol])])
  {
    assert [symbol] + "" == [symbol];
    TakeSymbol(c, symbol, "");
    ScanOne(c, [symbol], Raw([symbol]), c.(lastIdent := c.lastIdent && IsAsciiSpace(symbol)));
  }

  lemma {:induction false} ScanSymbol(c: Context, symbol: char, rest: string, ts: seq<Token>)
    requires c.lex == Normal && !IsIdent(symbol) && symbol !in {'\'', '"', '`', '/', ';', '['}
    requires symbol == '(' ==> c.clause.None?
    requires Scan(c.(lastIdent := c.lastIdent && IsAsciiSpace(symbol)), rest) == Ok(ts)
    ensures Scan(c, [symbol] + rest) == Ok([Raw([symbol])] + ts)
  {
    TakeSymbol(c, symbol, rest);
    ScanStep(c, [symbol] + rest, Raw([symbol]), c.(lastIdent := c.lastIdent && IsAsciiSpace(symbol)), rest, ts);
  }

  lemma {:induction false} ScanWord(c: Context, word: string, c': Context, rest: string, ts: seq<Token>)
    requires c.lex == Normal && word != "" && IsLabel(word) && (rest == "" || !IsIdent(rest[0]))
    requires WordTake(c, word) == Take(Raw(word), c') && Scan(c', rest) == Ok(ts)
    ensures Scan(c, word + rest) == Ok([Raw(word)] + ts)
  {
    TakeWord(c, word, rest);
    ScanStep(c, word + rest, Raw(word), c', rest, ts);
  }

  /** `(a)` with no clause open. */
  lemma {:induction false} ScanClosed(c: Context, name: string) returns (ts: seq<Token>)
    requires c.lex == Normal && c.clause.None? && name == "a"
    ensures Scan(c, ['('] + (name + [')'])) == Ok(ts) && AllRaw(ts)
  {
    var c1 := c.(lastIdent := false);
    ShortIsNoKeyword(name);
    var c2 := c1.(lastIdent := true);
    ScanLast(c2, ')');
    ScanWord(c1, name, c2, [')'], [Raw([')'])]);
    ScanSymbol(c, '(', name + [')'], [Raw(name)] + [Raw([')'])]);
    ts := [Raw(['('])] + ([Raw(name)] + [Raw([')'])]);
  }

  lemma {:induction false} EndWord(word: string)
    requires word == "end"
    ensures IsLabel(word) && PathStart(Upper(word)).None? && IsPathEnd(Upper(word)) && !IsWriteKeyword(word)
  {
    assert Upper(word) == "END";
    assert ToUpper(word[0]) == 'E' && "SET"[0] == 'S';
  }

  lemma {:induction false} ScanEnd(word: string, end: string, tail: string, ts: seq<Token>)
    requires word == "MATCH" && end == "end"
    requires Scan(START, tail) == Ok(ts) && AllRaw(ts)
    ensures Scan(START, word + ([' '] + (end + (['='] + tail)))) ==
      Ok([Raw(word)] + ([Raw([' '])] + ([Raw(end)] + ([Raw(['='])] + ts))))
  {
    MatchClause(word);
    EndWord(end);
    var c1 := START.(clause := Some(Match));
    var c2 := START.(lastIdent := true);
    ScanSymbol(c2, '=', tail, ts);
    ScanWord(c1, end, c2, ['='] + tail, [Raw(['='])] + ts);
    ScanSymbol(c1, ' ', end + (['='] + tail), [Raw(end)] + ([Raw(['='])] + ts));
    ScanWord(START, word, c1, [' '] + (end + (['='] + tail)), [Raw([' '])] + ([Raw(end)] + ([Raw(['='])] + ts)));
  }

  lemma {:induction false} PatternPasses(name: string, rest: string)
    requires name != "" && IsLabel(name) && !IsDigit(name[0]) && !IsWriteKeyword(name)
    ensures HasWrite(['('] + (name + ([')'] + rest))) <==> HasWrite(rest)
  {
    SymbolPasses('(', name + ([')'] + rest));
    WordPasses(name, [')'] + rest);
    SymbolPasses(')', rest);
  }

  lemma {:induction false} LastPatternPasses(name: string)
    requires name != "" && IsLabel(name) && !IsDigit(name[0]) && !IsWriteKeyword(name)
    ensures !HasWrite(['('] + (name + [')']))
  {
    PatternPasses(name, "");
    assert [')'] + "" == [')'];
  }

  /** The text behind the last parenthesis. */
  lemma {:induction false} LastText(front: string, name: string, q: string, tag: string)
    requires q == front + (['('] + (name + [')'])) && IsLabel(tag) && IsLabel(name)
    ensures !IsLabelled(q[|front| + 1..], tag)
  {
    assert q[|front| + 1..] == name + [')'];
    NameHasNoLabel(name, [')'], tag);
  }

  lemma {:induction false} EndReadsOnly(word: string, end: string, name: string)
    requires word == "MATCH" && end == "end" && name == "a"
    ensures !HasWrite(word + ([' '] + (end + (['='] + (['('] + (name + [')']))))))
  {
    var last := ['('] + (name + [')']);
    MatchRuns(word);
    MatchClause(word);
    EndWord(end);
    WordPasses(word, [' '] + (end + (['='] + last)));
    SymbolPasses(' ', end + (['='] + last));
    WordPasses(end, ['='] + last);
    SymbolPasses('=', last);
    LastPatternPasses(name);
  }

  lemma {:induction false} EndParenthesis(word: string, end: string, rest: string, q: string)
    requires word == "MATCH" && end == "end" && q == word + ([' '] + (end + (['='] + (['('] + rest))))
    ensures IsParenthesis(q, 10)
  {
    var front := word + [' '] + end;
    BehindSymbol(front, '=', rest);
    assert q == front + ['='] + "(" + rest;
  }

  lemma {:induction false} EndText(word: string, end: string, name: string, q: string, tag: string)
    requires word == "MATCH" && end == "end" && name == "a" && IsLabel(tag)
    requires q == word + ([' '] + (end + (['='] + (['('] + (name + [')'])))))
    ensures !IsLabelled(q[11..], tag)
  {
    var front := word + [' '] + end + ['='];
    assert q == front + (['('] + (name + [')']));
    LastText(front, name, q, tag);
  }

  lemma {:induction false} FifthIsRaw(a: string, b: string, c: string, d: string, ts: seq<Token>)
    requires AllRaw(ts)
    ensures AllRaw([Raw(a)] + ([Raw(b)] + ([Raw(c)] + ([Raw(d)] + ts))))
  {
  }

  lemma {:induction false} EndScan(word: string, end: string, name: string, q: string) returns (ts: seq<Token>)
    requires word == "MATCH" && end == "end" && name == "a"
    requires q == word + ([' '] + (end + (['='] + (['('] + (name + [')'])))))
    ensures Scan(START, q) == Ok(ts) && AllRaw(ts)
  {
    var closed := ScanClosed(START, name);
    ScanEnd(word, end, ['('] + (name + [')']), closed);
    FifthIsRaw(word, [' '], end, ['='], closed);
    ts := [Raw(word)] + ([Raw([' '])] + ([Raw(end)] + ([Raw(['='])] + closed)));
  }

  /** With no path clause open anywhere, the query comes out as it was. */
  lemma {:induction false} RawIsUnchanged(q: string, tag: string, ts: seq<Token>)
    requires Scan(START, q) == Ok(ts) && AllRaw(ts)
    ensures Inject(q, tag) == Ok(q)
  {
    RawIsCopied(ts, tag);
    ScanShape(START, q);
    InjectIs(q, ts, tag);
  }

  /** `MATCH end=(a)`: nothing is taken, and the query comes out as it was. */
  lemma {:induction false} EndIsGap(word: string, end: string, name: string, q: string, tag: string, k: nat)
    requires word == "MATCH" && end == "end" && name == "a" && IsLabel(tag) && k == 10
    requires q == word + ([' '] + (end + (['='] + (['('] + (name + [')'])))))
    ensures Inject(q, tag) == Ok(q) && IsGap(q, tag, k)
  {
    var ts := EndScan(word, end, name, q);
    RawIsUnchanged(q, tag, ts);
    EndReadsOnly(word, end, name);
    EndParenthesis(word, end, name + [')'], q);
    EndText(word, end, name, q, tag);
    RawIsLeft(ts, k);
    LeftIsGap(q, tag, ts, k);
  }

  // A pattern behind WHERE

  lemma {:induction false} WhereWord(word: string)
    requires word == "WHERE"
    ensures IsLabel(word) && PathStart(Upper(word)).None? && IsPathEnd(Upper(word)) && !IsWriteKeyword(word)
  {
    assert Upper(word) == word;
    NoMerge(word);
  }

  lemma {:induction false} ScanWhere(word: string, node: string, t: Token, where: string, tail: string, c: Context,
                                     ts: seq<Token>)
    requires word == "MATCH" && node == "(n)" && t == Node("n", Match, true) && where == "WHERE"
    requires c == START.(bound := {"n"}, lastIdent := true) && Scan(c, tail) == Ok(ts) && tail != "" && tail[0] == '('
    ensures Scan(START, word + (node + (where + tail))) == Ok([Raw(word)] + ([t] + ([Raw(where)] + ts)))
  {
    WhereWord(where);
    var c' := Context(Normal, false, Some(Match), {"n"});
    ScanWord(c', where, c, tail, ts);
    MixedFront(c', word, node, t, where + tail, [Raw(where)] + ts);
  }

  lemma {:induction false} WhereReadsOnly(word: string, n: string, where: string, name: string)
    requires word == "MATCH" && n == "n" && where == "WHERE" && name == "a"
    ensures !HasWrite(word + (['('] + (n + ([')'] + (where + (['('] + (name + [')'])))))))
  {
    var last := ['('] + (name + [')']);
    MatchRuns(word);
    MatchClause(word);
    WhereWord(where);
    WordPasses(word, ['('] + (n + ([')'] + (where + last))));
    PatternPasses(n, where + last);
    WordPasses(where, last);
    LastPatternPasses(name);
  }

  lemma {:induction false} AfterPattern(v: View, name: string)
    requires v.mode.Plain? && IsSimple(name)
    ensures SeeAll(v, ['('] + name + [')']) == BEGIN
  {
    EnclosedSeen(v, '(', name, ')');
    SimpleIsCode(See(v, '('), name);
    CloseSeen(SeeAll(See(v, '('), name), ')');
  }

  lemma {:induction false} BehindWhere(front: string, n: string, where: string, rest: string, q: string)
    requires IsSimple(front) && IsSimple(n) && where == "WHERE"
    requires q == front + (['('] + n + [')']) + where + (['('] + rest)
    ensures IsParenthesis(q, |front| + |n| + 7)
  {
    var pattern, k := ['('] + n + [')'], |front| + |n| + 7;
    assert q[..k] == (front + pattern) + where && q[k] == '(';
    SeeConcat(BEGIN, front + pattern, where);
    SeeConcat(BEGIN, front, pattern);
    SimpleIsCode(BEGIN, front);
    AfterPattern(SeeAll(BEGIN, front), n);
    WhereWord(where);
    SeeWord(BEGIN, where);
    assert "" + where == where;
  }

  lemma {:induction false} LaterIsLeft(t: Token, ts: seq<Token>, k: nat, j: nat)
    requires k == |Source(t)| + j && FateAt(ts, j) == Left
    ensures FateAt([t] + ts, k) == Left
  {
    FateLater(t, ts, None, k);
  }

  lemma {:induction false} ThirdIsLeft(a: Token, b: Token, c: Token, ts: seq<Token>, k: nat, i: nat, j: nat)
    requires AllRaw(ts) && k == |Source(a)| + i && i == |Source(b)| + j && j >= |Source(c)|
    ensures FateAt([a] + ([b] + ([c] + ts)), k) == Left
  {
    RawIsLeft(ts, j - |Source(c)|);
    LaterIsLeft(c, ts, j, j - |Source(c)|);
    LaterIsLeft(b, [c] + ts, i, j);
    LaterIsLeft(a, [b] + ([c] + ts), k, i);
  }

  lemma {:induction false} PlainN(word: string, t: Token, where: string, ts: seq<Token>)
    requires AllRaw(ts) && t == Node("n", Match, true)
    ensures AllPlain([Raw(word)] + ([t] + ([Raw(where)] + ts)))
  {
    assert "n"[1..] == "" && PlainInterior(INTERIOR, "n");
  }

  lemma {:induction false} WhereText(word: string, node: string, n: string, where: string, last: string, q: string)
    requires node == ['('] + n + [')'] && q == word + (node + (where + last))
    ensures q == word + (['('] + n + [')']) + where + last && q == word + (['('] + (n + ([')'] + (where + last))))
  {
  }

  lemma {:induction false} WhereParenthesis(word: string, node: string, n: string, where: string, name: string,
                                            q: string, k: nat, tag: string)
    requires word == "MATCH" && node == "(n)" && n == "n" && where == "WHERE" && name == "a" && IsLabel(tag)
    requires q == word + (node + (where + (['('] + (name + [')'])))) && k == 13
    ensures IsParenthesis(q, k) && !IsLabelled(q[k + 1..], tag) && !HasWrite(q)
  {
    WhereText(word, node, n, where, ['('] + (name + [')']), q);
    WhereReadsOnly(word, n, where, name);
    BehindWhere(word, n, where, name + [')'], q);
    LastText(word + (['('] + n + [')']) + where, name, q, tag);
  }

  /** `MATCH(n)WHERE(a)`: a pattern in a predicate is not taken. */
  lemma {:induction false} WhereIsGap(word: string, node: string, n: string, where: string, name: string, q: string,
                                      tag: string, k: nat)
    requires word == "MATCH" && node == "(n)" && n == "n" && where == "WHERE" && name == "a" && IsLabel(tag)
    requires q == word + (node + (where + (['('] + (name + [')'])))) && k == 13
    ensures IsGap(q, tag, k)
  {
    var t, c := Node("n", Match, true), START.(bound := {"n"}, lastIdent := true);
    var closed := ScanClosed(c, name);
    ScanWhere(word, node, t, where, ['('] + (name + [')']), c, closed);
    WhereParenthesis(word, node, n, where, name, q, k, tag);
    ThirdIsLeft(Raw(word), t, Raw(where), closed, k, 8, 5);
    PlainN(word, t, where, closed);
    LeftIsGap(q, tag, [Raw(word)] + ([t] + ([Raw(where)] + closed)), k);
  }

  // A pattern in brackets

  lemma {:induction false} ReturnWord(word: string)
    requires word == "RETURN"
    ensures IsLabel(word) && PathStart(Upper(word)).None? && IsPathEnd(Upper(word)) && !IsWriteKeyword(word)
  {
    assert Upper(word) == word;
    assert word[0] == 'R' && word[2] == 'T';
    assert "REMOVE"[2] == 'M' && "CREATE"[0] == 'C' && "DELETE"[0] == 'D' && "DETACH"[0] == 'D';
  }

  lemma {:induction false} SimpleList(content: string)
    requires forall i | 0 <= i < |content| :: content[i] !in {'\'', '"', '[', ']', '`', '/'}
    ensures BracketLen(Outside, 1, content + "]") == |content| && PlainBracket(Outside, content)
    decreases content
  {
    if content == "" {
      assert content + "]" == "]";
    } else {
      assert (content + "]")[1..] == content[1..] + "]";
      SimpleList(content[1..]);
    }
  }

  lemma {:induction false} ScanList(c: Context, content: string, s: string, t: Token)
    requires c.lex == Normal && s == "[" + (content + "]") && t == Bracket(content, true)
    requires forall i | 0 <= i < |content| :: content[i] !in {'\'', '"', '[', ']', '`', '/'}
    ensures Scan(c, s) == Ok([t])
  {
    SimpleList(content);
    assert s[1..] == content + "]" && s[1..1 + |content|] == content;
    assert Source(t) == "[" + content + "]" == s;
    ScanOne(c, s, t, c.(lastIdent := false));
  }

  lemma {:induction false} ListReadsOnly(word: string, name: string)
    requires word == "RETURN" && name == "x"
    ensures !HasWrite(word + (['['] + (['('] + (name + ([')'] + [']'])))))
  {
    ReturnWord(word);
    WordPasses(word, ['['] + (['('] + (name + ([')'] + [']']))));
    SymbolPasses('[', ['('] + (name + ([')'] + [']'])));
    PatternPasses(name, [']']);
    SymbolPasses(']', "");
    assert [']'] + "" == [']'];
  }

  lemma {:induction false} ListText(word: string, content: string, name: string, q: string)
    requires content == ['('] + (name + [')']) && q == word + ("[" + (content + "]"))
    ensures q == word + ['['] + "(" + (name + ([')'] + [']']))
      && q == word + (['['] + (['('] + (name + ([')'] + [']']))))
    ensures q[|word| + 2..] == name + ")]"
  {
  }

  lemma {:induction false} ListIsInside(word: string, t: Token, k: nat)
    requires t.Bracket? && k == |word| + 1 && |t.content| > 1
    ensures FateAt([Raw(word)] + [t], k) == Inside
  {
    FateLater(Raw(word), [t], None, k);
  }

  lemma {:induction false} ListParenthesis(word: string, content: string, name: string, q: string, k: nat, tag: string)
    requires word == "RETURN" && name == "x" && content == ['('] + (name + [')']) && q == word + ("[" + (content + "]"))
    requires IsLabel(tag) && k == 7
    ensures IsParenthesis(q, k) && !IsLabelled(q[k + 1..], tag)
  {
    ListText(word, content, name, q);
    BehindSymbol(word, '[', name + ([')'] + [']']));
    NameHasNoLabel(name, ")]", tag);
  }

  lemma {:induction false} ListScan(word: string, content: string, name: string, q: string, t: Token)
    requires word == "RETURN" && name == "x" && content == ['('] + (name + [')']) && q == word + ("[" + (content + "]"))
    requires t == Bracket(content, true)
    ensures Scan(START, q) == Ok([Raw(word)] + [t]) && AllPlain([Raw(word)] + [t])
  {
    ReturnWord(word);
    var c := START.(lastIdent := true);
    ScanList(c, content, "[" + (content + "]"), t);
    ScanWord(START, word, c, "[" + (content + "]"), [t]);
    SimpleList(content);
  }

  /** `RETURN[(x)]`: brackets are swallowed whole, and patterns in them. */
  lemma {:induction false} ListIsGap(word: string, content: string, name: string, q: string, tag: string, k: nat)
    requires word == "RETURN" && name == "x" && content == ['('] + (name + [')']) && q == word + ("[" + (content + "]"))
    requires IsLabel(tag) && k == 7
    ensures IsGap(q, tag, k)
  {
    var t := Bracket(content, true);
    ListScan(word, content, name, q, t);
    ListText(word, content, name, q);
    ListReadsOnly(word, name);
    ListParenthesis(word, content, name, q, k, tag);
    ListIsInside(word, t, k);
    LeftIsGap(q, tag, [Raw(word)] + [t], k);
  }

  // ---------------------------------------------------------------------------------------------
  // Variables that are not seen
  // ---------------------------------------------------------------------------------------------

  /** Behind `//`, up to the end of the line. */
  function LineLen(s: string): (n: nat)
    ensures n <= |s|
    decreases s
  {
    if s == "" then 0 else if s[0] == '\n' then 1 else 1 + LineLen(s[1..])
  }

  /** Behind `/` and `*`, up to the closing pair. */
  function BlockLen(s: string): (n: nat)
    ensures n <= |s|
    decreases s
  {
    if |s| < 2 then |s| else if s[0] == '*' && s[1] == '/' then 2 else 1 + BlockLen(s[1..])
  }

  /** White space and comments. */
  function LeadLen(s: string): (n: nat)
    ensures n <= |s|
    decreases |s|
  {
    if s == "" then 0
    else if IsSpace(s[0]) then 1 + LeadLen(s[1..])
    else if OpensComment(s) then
      var n := 2 + (if s[1] == '/' then LineLen(s[2..]) else BlockLen(s[2..]));
      n + LeadLen(s[n..])
    else 0
  }

  /** Behind a backtick, up to the closing one; a doubled one belongs to the name. */
  function QuotedLen(s: string): (n: Option<nat>)
    ensures n.Some? ==> n.value <= |s|
    decreases |s|
  {
    if s == "" then None
    else if s[0] != '`' then (var n := QuotedLen(s[1..]); if n.Some? then Some(1 + n.value) else None)
    else if |s| > 1 && s[1] == '`' then (var n := QuotedLen(s[2..]); if n.Some? then Some(2 + n.value) else None)
    else Some(1)
  }

  /** Where the variable of an interior ends in Cypher: a plain or quoted name behind white space and comments. */
  function VariableEnd(inner: string): (n: Option<nat>)
    ensures n.Some? ==> n.value <= |inner|
  {
    var a := LeadLen(inner);
    var s := inner[a..];
    if s == "" then None
    else if s[0] == '`' then (var n := QuotedLen(s[1..]); if n.Some? then Some(a + 1 + n.value) else None)
    else if IsVarChar(s[0]) then Some(a + PrefixLen(s, VarChar))
    else None
  }

  lemma {:induction false} LeadIsSpace(s: string)
    requires VarStart(s) < |s| ==> !OpensComment(s[VarStart(s)..])
    ensures LeadLen(s) == VarStart(s)
    decreases s
  {
    if s == "" {
    } else if IsSpace(s[0]) {
      assert s[1..][VarStart(s[1..])..] == s[VarStart(s)..];
      LeadIsSpace(s[1..]);
    } else {
      assert s[0..] == s;
    }
  }

  /** What stands behind the white space decides. */
  lemma {:induction false} VariableIs(inner: string, s: string)
    requires s == inner[VarStart(inner)..] && !OpensComment(s)
    ensures s != "" && IsVarChar(s[0]) ==> VariableEnd(inner) == Some(VarEnd(inner))
    ensures s == "" || (s[0] != '`' && !IsVarChar(s[0])) ==> VariableEnd(inner).None?
  {
    LeadIsSpace(inner);
  }

  /** The variable is still the variable, and the label stands right behind it. */
  predicate LabelFollows(inner: string, tag: string) {
    var e, out := VariableEnd(inner), SpliceLabel(inner, tag);
    e.Some? && VariableEnd(out) == e && out[..e.value] == inner[..e.value] && ":" + tag <= out[e.value..]
  }

  lemma {:induction false} VarCharStarts(inner: string, s: string, tag: string)
    requires s == inner[VarStart(inner)..] && s != "" && IsVarChar(s[0])
    ensures LabelFollows(inner, tag)
  {
    var e, out := VarEnd(inner), SpliceLabel(inner, tag);
    assert out[..e] == inner[..e] && out[e..] == ":" + tag + AfterVar(inner);
    assert out[e] == ':';
    SameVar(inner, out);
    assert out[VarStart(inner)] == s[0] && inner[VarStart(inner)] == s[0];
    VariableIs(inner, s);
    VariableIs(out, out[VarStart(inner)..]);
  }

  lemma {:induction false} OtherStarts(inner: string, s: string, tag: string)
    requires s == inner[VarStart(inner)..] && s != "" && !IsVarChar(s[0])
    ensures !LabelFollows(inner, tag) && SpliceLabel(inner, tag) == inner[..VarStart(inner)] + ":" + tag + s
  {
    var e, out := VarStart(inner), SpliceLabel(inner, tag);
    assert VarEnd(inner) == e;
    assert out[..e] == inner[..e] && out[e] == ':';
    SameVar(inner, out);
    VariableIs(out, out[e..]);
  }

  lemma {:induction false} CommentIsNoName(s: string)
    requires OpensComment(s)
    ensures !IsVarChar(s[0])
  {
  }

  lemma {:induction false} VariableStarts(inner: string, s: string)
    requires VariableEnd(inner).Some? && s == inner[VarStart(inner)..] && !OpensComment(s)
    ensures s != "" && (s[0] == '`' || IsVarChar(s[0]))
  {
    VariableIs(inner, s);
  }

  /**
   * A pattern with a variable gets the label behind the variable exactly when, white space aside, the interior
   * begins neither with a backtick nor with a comment. Otherwise the label comes first.
   */
  lemma {:induction false} LabelFollowsExactly(inner: string, s: string, tag: string)
    requires VariableEnd(inner).Some? && s == inner[VarStart(inner)..]
    ensures LabelFollows(inner, tag) <==> !("`" <= s) && !OpensComment(s)
    ensures !LabelFollows(inner, tag) ==> SpliceLabel(inner, tag) == inner[..VarStart(inner)] + ":" + tag + s
  {
    if OpensComment(s) {
      CommentIsNoName(s);
      OtherStarts(inner, s, tag);
    } else {
      VariableStarts(inner, s);
      if IsVarChar(s[0]) {
        VarCharStarts(inner, s, tag);
      } else {
        OtherStarts(inner, s, tag);
      }
    }
  }

  /** The label stands in front of a quoted name. */
  lemma {:induction false} QuotedNameIsMissed(name: string, tag: string)
    requires name == "`n`"
    ensures VariableEnd(name) == Some(3) && SpliceLabel(name, tag) == ":" + tag + name && !LabelFollows(name, tag)
  {
    assert name[0..] == name && name[1..] == "n`" && name[1..][1..] == "`";
    LeadIsSpace(name);
    assert QuotedLen("`") == Some(1) && QuotedLen(name[1..]) == Some(2);
    LabelFollowsExactly(name, name, tag);
  }
}
