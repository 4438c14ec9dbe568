/**
 * What the rewriter takes for the inside of a node pattern and of a bracket (rb-storage-neo4j, injector.rs), as a
 * grammar: characters and quoted strings in a row, with braces or brackets that match.
 */
module Interiors {
  import opened Prelude
  import opened Injector

  datatype Piece = Char(c: char) | Quoted(quote: char, body: string)

  predicate IsQuote(c: char) {
    c == '\'' || c == '"'
  }

  function PieceText(p: Piece): string {
    match p
    case Char(c) => [c]
    case Quoted(quote, body) => [quote] + (body + [quote])
  }

  function Text(ps: seq<Piece>): string {
    if ps == [] then "" else PieceText(ps[0]) + Text(ps[1..])
  }

  lemma {:induction false} TextCons(p: Piece, ps: seq<Piece>)
    ensures Text([p] + ps) == PieceText(p) + Text(ps)
  {
    assert ([p] + ps)[1..] == ps;
  }

  lemma {:induction false} PiecesJoin(p: Piece, more: seq<Piece>, s: string, k: nat, n: nat)
    requires k <= n <= |s| && PieceText(p) == s[..k] && Text(more) == s[k..][..n - k]
    ensures Text([p] + more) == s[..n] && ([p] + more)[1..] == more
  {
    TextCons(p, more);
  }

  function QuoteOf(quote: char): Quote
    requires IsQuote(quote)
  {
    if quote == '\'' then InSingle else InDouble
  }

  // ---------------------------------------------------------------------------------------------
  // Patterns
  // ---------------------------------------------------------------------------------------------

  /** Between quotes: a backslash takes the next character with it. */
  predicate IsEscapedBody(quote: char, body: string)
    decreases body
  {
    if body == "" then true
    else if body[0] == '\\' then |body| > 1 && IsEscapedBody(quote, body[2..])
    else body[0] != quote && IsEscapedBody(quote, body[1..])
  }

  /** With `depth` braces open: a closing parenthesis only inside braces. */
  predicate FitsPattern(depth: nat, p: Piece) {
    match p
    case Char(c) => !IsQuote(c) && (c == ')' ==> depth > 0)
    case Quoted(quote, body) => IsQuote(quote) && IsEscapedBody(quote, body)
  }

  /** A closing brace without its opening one counts for nothing. */
  function Braces(depth: nat, p: Piece): nat {
    if p == Char('{') then depth + 1 else if p == Char('}') && depth > 0 then depth - 1 else depth
  }

  predicate IsInterior(depth: nat, ps: seq<Piece>)
    decreases |ps|
  {
    if ps == [] then depth == 0 else FitsPattern(depth, ps[0]) && IsInterior(Braces(depth, ps[0]), ps[1..])
  }

  function Plus(n: Option<nat>, k: nat): Option<nat> {
    if n.Some? then Some(n.value + k) else None
  }

  /** The scanner outside quotes. */
  function At(depth: nat): Interior {
    Interior(Outside, false, depth)
  }

  function AtQuoted(quote: char, depth: nat): Interior
    requires IsQuote(quote)
  {
    Interior(QuoteOf(quote), false, depth)
  }

  lemma {:induction false} NodeLenStep(q: Interior, c: char, rest: string, s: string)
    requires !Closes(q, c) && s == [c] + rest
    ensures NodeLen(q, s) == Plus(NodeLen(Inside(q, c), rest), 1)
  {
    assert s[1..] == rest;
  }

  lemma {:induction false} EscapeStep(quote: char, depth: nat, c: char, rest: string, tail: string, s: string)
    requires IsQuote(quote) && tail == [c] + rest && s == ['\\'] + tail
    ensures NodeLen(AtQuoted(quote, depth), s) == Plus(NodeLen(AtQuoted(quote, depth), rest), 2)
  {
    var q := AtQuoted(quote, depth);
    NodeLenStep(q, '\\', tail, s);
    NodeLenStep(q.(escaped := true), c, rest, tail);
  }

  lemma {:induction false} BodySplits(body: string, k: nat, rest: string, tail: string, s: string)
    requires k <= |body| && s == body + rest && tail == body[k..] + rest
    ensures s == body[..k] + tail
  {
  }

  lemma {:induction false} BodyEscape(quote: char, body: string, depth: nat, tail: string, s: string)
    requires IsQuote(quote) && |body| > 1 && body[0] == '\\' && s == body[..2] + tail
    ensures NodeLen(AtQuoted(quote, depth), s) == Plus(NodeLen(AtQuoted(quote, depth), tail), 2)
  {
    assert body[..2] == ['\\'] + [body[1]];
    Assoc(['\\'], [body[1]], tail);
    EscapeStep(quote, depth, body[1], tail, [body[1]] + tail, s);
  }

  lemma {:induction false} BodyChar(quote: char, body: string, depth: nat, tail: string, s: string)
    requires IsQuote(quote) && body != "" && body[0] != '\\' && body[0] != quote && s == body[..1] + tail
    ensures NodeLen(AtQuoted(quote, depth), s) == Plus(NodeLen(AtQuoted(quote, depth), tail), 1)
  {
    assert body[..1] == [body[0]];
    NodeLenStep(AtQuoted(quote, depth), body[0], tail, s);
  }

  lemma {:induction false} BodyStep(quote: char, body: string, depth: nat, k: nat, n: Option<nat>, tail: string,
                                    s: string, m: nat)
    requires IsQuote(quote) && IsEscapedBody(quote, body) && body != "" && k == (if body[0] == '\\' then 2 else 1)
    requires s == body[..k] + tail && NodeLen(AtQuoted(quote, depth), tail) == Plus(n, m)
    ensures NodeLen(AtQuoted(quote, depth), s) == Plus(n, m + k)
  {
    if k == 2 {
      BodyEscape(quote, body, depth, tail, s);
    } else {
      BodyChar(quote, body, depth, tail, s);
    }
  }

  lemma {:induction false} NoBody(quote: char, depth: nat, rest: string, close: string, s: string)
    requires IsQuote(quote) && close == [quote] + rest && s == "" + close
    ensures NodeLen(AtQuoted(quote, depth), s) == Plus(NodeLen(At(depth), rest), 1)
  {
    assert s == close;
    NodeLenStep(AtQuoted(quote, depth), quote, rest, s);
  }

  lemma {:induction false} OverBody(quote: char, body: string, depth: nat, rest: string, close: string, s: string)
    requires IsQuote(quote) && IsEscapedBody(quote, body) && close == [quote] + rest && s == body + close
    ensures NodeLen(AtQuoted(quote, depth), s) == Plus(NodeLen(At(depth), rest), |body| + 1)
    decreases body
  {
    if body == "" {
      NoBody(quote, depth, rest, close, s);
    } else {
      var k := if body[0] == '\\' then 2 else 1;
      var tail := body[k..] + close;
      OverBody(quote, body[k..], depth, rest, close, tail);
      BodySplits(body, k, close, tail, s);
      BodyStep(quote, body, depth, k, NodeLen(At(depth), rest), tail, s, |body| - k + 1);
    }
  }

  lemma {:induction false} QuotedParts(quote: char, body: string, rest: string)
    ensures PieceText(Quoted(quote, body)) + rest == [quote] + (body + ([quote] + rest))
  {
  }

  lemma {:induction false} OverChar(depth: nat, c: char, rest: string, s: string)
    requires FitsPattern(depth, Char(c)) && s == [c] + rest
    ensures NodeLen(At(depth), s) == Plus(NodeLen(At(Braces(depth, Char(c))), rest), 1)
  {
    NodeLenStep(At(depth), c, rest, s);
  }

  lemma {:induction false} OverQuoted(depth: nat, quote: char, body: string, rest: string, close: string, tail: string,
                                      s: string)
    requires IsQuote(quote) && IsEscapedBody(quote, body)
    requires close == [quote] + rest && tail == body + close && s == [quote] + tail
    ensures NodeLen(At(depth), s) == Plus(NodeLen(At(depth), rest), |body| + 2)
  {
    NodeLenStep(At(depth), quote, tail, s);
    OverBody(quote, body, depth, rest, close, tail);
  }

  lemma {:induction false} OverPiece(depth: nat, p: Piece, rest: string, s: string)
    requires FitsPattern(depth, p) && s == PieceText(p) + rest
    ensures NodeLen(At(depth), s) == Plus(NodeLen(At(Braces(depth, p)), rest), |PieceText(p)|)
  {
    if p.Char? {
      OverChar(depth, p.c, rest, s);
    } else {
      QuotedParts(p.quote, p.body, rest);
      OverQuoted(depth, p.quote, p.body, rest, [p.quote] + rest, p.body + ([p.quote] + rest), s);
    }
  }

  lemma {:induction false} NoInterior(depth: nat, ps: seq<Piece>, rest: string, s: string)
    requires IsInterior(depth, ps) && ps == [] && rest != "" && rest[0] == ')' && s == Text(ps) + rest
    ensures NodeLen(At(depth), s) == Some(0)
  {
    assert s == rest;
  }

  lemma {:induction false} OnePieceMore(depth: nat, p: Piece, n: nat, tail: string, s: string, m: nat)
    requires FitsPattern(depth, p) && NodeLen(At(Braces(depth, p)), tail) == Some(n)
    requires s == PieceText(p) + tail && m == |PieceText(p)| + n
    ensures NodeLen(At(depth), s) == Some(m)
  {
    OverPiece(depth, p, tail, s);
  }

  lemma {:induction false} TextParts(ps: seq<Piece>, rest: string, tail: string, s: string)
    requires ps != [] && tail == Text(ps[1..]) + rest && s == Text(ps) + rest
    ensures s == PieceText(ps[0]) + tail && |Text(ps)| == |PieceText(ps[0])| + |Text(ps[1..])|
  {
    Assoc(PieceText(ps[0]), Text(ps[1..]), rest);
  }

  lemma {:induction false} InteriorIsTaken(depth: nat, ps: seq<Piece>, rest: string, s: string)
    requires IsInterior(depth, ps) && rest != "" && rest[0] == ')' && s == Text(ps) + rest
    ensures NodeLen(At(depth), s) == Some(|Text(ps)|)
    decreases |ps|
  {
    if ps == [] {
      NoInterior(depth, ps, rest, s);
    } else {
      var tail := Text(ps[1..]) + rest;
      InteriorIsTaken(Braces(depth, ps[0]), ps[1..], rest, tail);
      TextParts(ps, rest, tail, s);
      OnePieceMore(depth, ps[0], |Text(ps[1..])|, tail, s, |Text(ps)|);
    }
  }

  lemma {:induction false} BodyLonger(s: string, j: nat, k: nat, m: nat)
    requires j <= |s| && k < |s[j..]| && m == j + k
    ensures s[..m] == s[..j] + s[j..][..k] && s[m] == s[j..][k]
    ensures s[j..][k + 1..] == s[m + 1..] && s[..m][j..] == s[j..][..k]
  {
  }

  lemma {:induction false} QuotedGoesOn(quote: char, depth: nat, s: string, n: nat, j: nat)
    requires IsQuote(quote) && NodeLen(AtQuoted(quote, depth), s) == Some(n) && s[0] != quote
    requires j == if s[0] == '\\' then 2 else 1
    ensures j <= n && NodeLen(AtQuoted(quote, depth), s[j..]) == Some(n - j)
  {
    if s[0] == '\\' {
      assert s[1..][1..] == s[2..];
    }
  }

  lemma {:induction false} BodyEndsHere(quote: char, depth: nat, s: string, n: nat)
    requires IsQuote(quote) && NodeLen(AtQuoted(quote, depth), s) == Some(n) && s[0] == quote
    ensures n > 0 && IsEscapedBody(quote, s[..0]) && NodeLen(At(depth), s[1..]) == Some(n - 1)
  {
  }

  lemma {:induction false} BodyGrows(quote: char, s: string, body: string, j: nat, m: nat)
    requires j <= m <= |s| && s != "" && s[0] != quote && j == (if s[0] == '\\' then 2 else 1)
    requires body == s[..m] && IsEscapedBody(quote, body[j..])
    ensures IsEscapedBody(quote, body)
  {
  }

  /** Where the quoted string ends that the scanner stands in. */
  lemma {:induction false} BodyEnds(quote: char, depth: nat, s: string, n: nat) returns (m: nat)
    requires IsQuote(quote) && NodeLen(AtQuoted(quote, depth), s) == Some(n)
    ensures m < n && s[m] == quote && IsEscapedBody(quote, s[..m])
    ensures NodeLen(At(depth), s[m + 1..]) == Some(n - m - 1)
    decreases s
  {
    if s[0] == quote {
      BodyEndsHere(quote, depth, s, n);
      m := 0;
    } else {
      var j := if s[0] == '\\' then 2 else 1;
      QuotedGoesOn(quote, depth, s, n, j);
      var k := BodyEnds(quote, depth, s[j..], n - j);
      m := j + k;
      BodyLonger(s, j, k, m);
      BodyGrows(quote, s, s[..m], j, m);
    }
  }

  lemma {:induction false} QuotedIsText(s: string, m: nat, k: nat)
    requires s != "" && m < |s[1..]| && s[1..][m] == s[0] && k == m + 2
    ensures PieceText(Quoted(s[0], s[1..][..m])) == s[..k] && s[1..][m + 1..] == s[k..]
  {
  }

  lemma {:induction false} FirstPiece(depth: nat, s: string, n: nat) returns (p: Piece, k: nat)
    requires NodeLen(At(depth), s) == Some(n) && n > 0
    ensures FitsPattern(depth, p) && 0 < k <= n && PieceText(p) == s[..k]
    ensures NodeLen(At(Braces(depth, p)), s[k..]) == Some(n - k)
  {
    if IsQuote(s[0]) {
      var m := BodyEnds(s[0], depth, s[1..], n - 1);
      p, k := Quoted(s[0], s[1..][..m]), m + 2;
      QuotedIsText(s, m, k);
    } else {
      p, k := Char(s[0]), 1;
      assert s[..1] == [s[0]];
    }
  }

  lemma {:induction false} TakenIsInterior(depth: nat, s: string, n: nat) returns (ps: seq<Piece>)
    requires NodeLen(At(depth), s) == Some(n)
    ensures IsInterior(depth, ps) && Text(ps) == s[..n]
    decreases n
  {
    if n == 0 {
      ps := [];
    } else {
      var p, k := FirstPiece(depth, s, n);
      var more := TakenIsInterior(Braces(depth, p), s[k..], n - k);
      ps := [p] + more;
      PiecesJoin(p, more, s, k, n);
    }
  }

  ghost predicate IsInteriorText(s: string) {
    exists ps :: IsInterior(0, ps) && Text(ps) == s
  }

  lemma {:induction false} InteriorEnds(ps: seq<Piece>, s: string, n: nat)
    requires n < |s| && s[n] == ')' && IsInterior(0, ps) && Text(ps) == s[..n]
    ensures NodeLen(INTERIOR, s) == Some(n)
  {
    assert s == s[..n] + s[n..];
    InteriorIsTaken(0, ps, s[n..], s);
  }

  /** A pattern ends at the parenthesis in front of which an interior stands, and only there. */
  lemma {:induction false} NodeLenExactly(s: string, n: nat)
    ensures NodeLen(INTERIOR, s) == Some(n) <==> n < |s| && s[n] == ')' && IsInteriorText(s[..n])
  {
    if n < |s| && s[n] == ')' && IsInteriorText(s[..n]) {
      var ps :| IsInterior(0, ps) && Text(ps) == s[..n];
      InteriorEnds(ps, s, n);
    } else if NodeLen(INTERIOR, s) == Some(n) {
      var ps := TakenIsInterior(0, s, n);
    }
  }

  // ---------------------------------------------------------------------------------------------
  // Brackets
  // ---------------------------------------------------------------------------------------------

  /** With `depth` brackets open inside it: in quotes a backslash is a character like any other. */
  predicate FitsList(depth: nat, p: Piece) {
    match p
    case Char(c) => !IsQuote(c) && (c == ']' ==> depth > 0)
    case Quoted(quote, body) => IsQuote(quote) && quote !in body
  }

  function Nested(depth: nat, p: Piece): nat {
    if p == Char('[') then depth + 1 else if p == Char(']') && depth > 0 then depth - 1 else depth
  }

  predicate IsContent(depth: nat, ps: seq<Piece>)
    decreases |ps|
  {
    if ps == [] then depth == 0 else FitsList(depth, ps[0]) && IsContent(Nested(depth, ps[0]), ps[1..])
  }

  lemma {:induction false} QuotedListStep(quote: char, depth: nat, c: char, rest: string, s: string)
    requires IsQuote(quote) && depth > 0 && s == [c] + rest
    ensures BracketLen(QuoteOf(quote), depth, s) ==
      1 + BracketLen(if c == quote then Outside else QuoteOf(quote), depth, rest)
  {
    assert s[1..] == rest;
  }

  lemma {:induction false} OverListBody(quote: char, body: string, depth: nat, rest: string, close: string, s: string)
    requires IsQuote(quote) && quote !in body && depth > 0 && close == [quote] + rest && s == body + close
    ensures BracketLen(QuoteOf(quote), depth, s) == BracketLen(Outside, depth, rest) + |body| + 1
    decreases body
  {
    if body == "" {
      assert s == close;
      QuotedListStep(quote, depth, quote, rest, s);
    } else {
      var tail := body[1..] + close;
      BodySplits(body, 1, close, tail, s);
      QuotedListStep(quote, depth, body[0], tail, s);
      OverListBody(quote, body[1..], depth, rest, close, tail);
    }
  }

  lemma {:induction false} CharListStep(depth: nat, c: char, rest: string, s: string)
    requires !IsQuote(c) && (c == ']' ==> depth > 0) && s == [c] + rest
    ensures BracketLen(Outside, depth + 1, s) == 1 + BracketLen(Outside, Nested(depth, Char(c)) + 1, rest)
  {
    assert s[1..] == rest;
  }

  lemma {:induction false} OpenListStep(depth: nat, quote: char, rest: string, s: string)
    requires IsQuote(quote) && depth > 0 && s == [quote] + rest
    ensures BracketLen(Outside, depth, s) == 1 + BracketLen(QuoteOf(quote), depth, rest)
  {
    assert s[1..] == rest;
  }

  lemma {:induction false} OverQuotedList(depth: nat, quote: char, body: string, rest: string, close: string,
                                          tail: string, s: string)
    requires IsQuote(quote) && quote !in body && depth > 0
    requires close == [quote] + rest && tail == body + close && s == [quote] + tail
    ensures BracketLen(Outside, depth, s) == BracketLen(Outside, depth, rest) + |body| + 2
  {
    OpenListStep(depth, quote, tail, s);
    OverListBody(quote, body, depth, rest, close, tail);
  }

  lemma {:induction false} OverListPiece(depth: nat, p: Piece, rest: string, s: string)
    requires FitsList(depth, p) && s == PieceText(p) + rest
    ensures BracketLen(Outside, depth + 1, s) == BracketLen(Outside, Nested(depth, p) + 1, rest) + |PieceText(p)|
  {
    if p.Char? {
      CharListStep(depth, p.c, rest, s);
    } else {
      QuotedParts(p.quote, p.body, rest);
      OverQuotedList(depth + 1, p.quote, p.body, rest, [p.quote] + rest, p.body + ([p.quote] + rest), s);
    }
  }

  lemma {:induction false} EndsAtOnce(depth: nat, s: string)
    requires s != ""
    ensures BracketLen(Outside, depth + 1, s) == 0 <==> s[0] == ']' && depth == 0
  {
  }

  lemma {:induction false} NoContent(depth: nat, ps: seq<Piece>, rest: string, s: string)
    requires IsContent(depth, ps) && ps == [] && rest != "" && rest[0] == ']' && s == Text(ps) + rest
    ensures BracketLen(Outside, depth + 1, s) == 0
  {
    assert s == rest;
    EndsAtOnce(depth, s);
  }

  lemma {:induction false} ContentIsTaken(depth: nat, ps: seq<Piece>, rest: string, s: string)
    requires IsContent(depth, ps) && rest != "" && rest[0] == ']' && s == Text(ps) + rest
    ensures BracketLen(Outside, depth + 1, s) == |Text(ps)|
    decreases |ps|
  {
    if ps == [] {
      NoContent(depth, ps, rest, s);
    } else {
      var tail := Text(ps[1..]) + rest;
      TextParts(ps, rest, tail, s);
      OverListPiece(depth, ps[0], tail, s);
      ContentIsTaken(Nested(depth, ps[0]), ps[1..], rest, tail);
    }
  }

  lemma {:induction false} ListBodyGrows(quote: char, s: string, k: nat, m: nat)
    requires s != "" && s[0] != quote && k < |s[1..]| && quote !in s[1..][..k] && m == k + 1
    ensures quote !in s[..m] && s[m] == s[1..][k] && s[1..][k + 1..] == s[m + 1..]
  {
    assert s[..m] == [s[0]] + s[1..][..k];
  }

  lemma {:induction false} QuotedListGoesOn(quote: char, depth: nat, s: string, n: nat)
    requires IsQuote(quote) && depth > 0 && BracketLen(QuoteOf(quote), depth, s) == n < |s|
    ensures n > 0
    ensures BracketLen(if s[0] == quote then Outside else QuoteOf(quote), depth, s[1..]) == n - 1
  {
    assert s == [s[0]] + s[1..];
    QuotedListStep(quote, depth, s[0], s[1..], s);
  }

  /** Where the quoted string ends that the scanner stands in. */
  lemma {:induction false} ListBodyEnds(quote: char, depth: nat, s: string, n: nat) returns (m: nat)
    requires IsQuote(quote) && depth > 0 && BracketLen(QuoteOf(quote), depth, s) == n < |s|
    ensures m < n && s[m] == quote && quote !in s[..m] && BracketLen(Outside, depth, s[m + 1..]) == n - m - 1
    decreases s
  {
    QuotedListGoesOn(quote, depth, s, n);
    if s[0] == quote {
      m := 0;
    } else {
      var k := ListBodyEnds(quote, depth, s[1..], n - 1);
      m := k + 1;
      ListBodyGrows(quote, s, k, m);
    }
  }

  lemma {:induction false} QuotedListPiece(depth: nat, s: string, n: nat) returns (p: Piece, k: nat)
    requires BracketLen(Outside, depth + 1, s) == n < |s| && n > 0 && IsQuote(s[0])
    ensures FitsList(depth, p) && p.Quoted? && 0 < k <= n && PieceText(p) == s[..k]
    ensures BracketLen(Outside, depth + 1, s[k..]) == n - k
  {
    assert s == [s[0]] + s[1..];
    OpenListStep(depth + 1, s[0], s[1..], s);
    var m := ListBodyEnds(s[0], depth + 1, s[1..], n - 1);
    p, k := Quoted(s[0], s[1..][..m]), m + 2;
    QuotedIsText(s, m, k);
  }

  lemma {:induction false} FirstListPiece(depth: nat, s: string, n: nat) returns (p: Piece, k: nat)
    requires BracketLen(Outside, depth + 1, s) == n < |s| && n > 0
    ensures FitsList(depth, p) && 0 < k <= n && PieceText(p) == s[..k]
    ensures BracketLen(Outside, Nested(depth, p) + 1, s[k..]) == n - k
  {
    if IsQuote(s[0]) {
      p, k := QuotedListPiece(depth, s, n);
    } else {
      EndsAtOnce(depth, s);
      assert s == [s[0]] + s[1..] && s[..1] == [s[0]];
      CharListStep(depth, s[0], s[1..], s);
      p, k := Char(s[0]), 1;
    }
  }

  lemma {:induction false} TakenIsContent(depth: nat, s: string, n: nat) returns (ps: seq<Piece>)
    requires BracketLen(Outside, depth + 1, s) == n < |s|
    ensures IsContent(depth, ps) && Text(ps) == s[..n]
    decreases n
  {
    EndsAtOnce(depth, s);
    if n == 0 {
      ps := [];
    } else {
      var p, k := FirstListPiece(depth, s, n);
      var more := TakenIsContent(Nested(depth, p), s[k..], n - k);
      ps := [p] + more;
      PiecesJoin(p, more, s, k, n);
    }
  }

  ghost predicate IsContentText(s: string) {
    exists ps :: IsContent(0, ps) && Text(ps) == s
  }

  lemma {:induction false} ContentEnds(ps: seq<Piece>, s: string, n: nat)
    requires n < |s| && s[n] == ']' && IsContent(0, ps) && Text(ps) == s[..n]
    ensures BracketLen(Outside, 1, s) == n
  {
    assert s == s[..n] + s[n..];
    ContentIsTaken(0, ps, s[n..], s);
  }

  /** A bracket ends at the one in front of which its content stands, and only there. */
  lemma {:induction false} BracketLenExactly(s: string, n: nat)
    ensures BracketLen(Outside, 1, s) == n < |s| <==> n < |s| && s[n] == ']' && IsContentText(s[..n])
  {
    if n < |s| && s[n] == ']' && IsContentText(s[..n]) {
      var ps :| IsContent(0, ps) && Text(ps) == s[..n];
      ContentEnds(ps, s, n);
    } else if BracketLen(Outside, 1, s) == n && n < |s| {
      var ps := TakenIsContent(0, s, n);
    }
  }
}
