/**
 * The rewriter as `inject_tenant_label` runs it: an index into the query, an output that grows, and a
 * handful of variables. Each method is proved to compute what the token-by-token specification says.
 */
module Rewriter {
  import opened Prelude
  import opened Detector
  import opened Injector

  /** At `i` the bracket scanner that started at `start` is in `q`, `depth` brackets deep. */
  predicate InBracket(bytes: string, start: nat, i: nat, q: Quote, depth: nat)
    requires start <= i <= |bytes| && depth > 0
  {
    BracketLen(Outside, 1, bytes[start..]) == i - start + BracketLen(q, depth, bytes[i..])
  }

  lemma {:induction false} BracketOne(bytes: string, start: nat, i: nat, q: Quote, depth: nat)
    requires start <= i < |bytes| && depth > 0 && InBracket(bytes, start, i, q, depth)
    ensures
      if q != Outside || (bytes[i] != '[' && bytes[i] != ']') then
        InBracket(bytes, start, i + 1, Toggle(q, bytes[i]), depth)
      else if bytes[i] == '[' then InBracket(bytes, start, i + 1, q, depth + 1)
      else if depth == 1 then BracketLen(Outside, 1, bytes[start..]) == i - start
      else InBracket(bytes, start, i + 1, q, depth - 1)
  {
  }

  lemma {:induction false} OneMore(bytes: string, start: nat, i: nat)
    requires start <= i < |bytes|
    ensures bytes[start..i] + [bytes[i]] == bytes[start..i + 1]
  {
  }

  /** Quote state and nesting after a character that does not close the outermost bracket. */
  method Nest(quote: Quote, depth: nat, b: char) returns (q: Quote, d: nat)
    requires depth > 0 && !(quote == Outside && b == ']' && depth == 1)
    ensures d > 0
    ensures if quote != Outside || (b != '[' && b != ']') then q == Toggle(quote, b) && d == depth
      else q == Outside && d == if b == '[' then depth + 1 else depth - 1
  {
    q, d := quote, depth;
    if quote == InSingle {
      q := if b == '\'' then Outside else InSingle;
    } else if quote == InDouble {
      q := if b == '"' then Outside else InDouble;
    } else if b == '\'' {
      q := InSingle;
    } else if b == '"' {
      q := InDouble;
    } else if b == '[' {
      d := depth + 1;
    } else if b == ']' {
      d := depth - 1;
    }
  }

  /** Collects up to the matching `]`; `next` is the index after it, or the end of the text. */
  method ScanBracket(bytes: string, start: nat) returns (out: string, next: nat)
    requires start <= |bytes|
    ensures var n := BracketLen(Outside, 1, bytes[start..]);
      && out == bytes[start..start + n]
      && next == if start + n < |bytes| then start + n + 1 else |bytes|
  {
    out := "";
    var i, depth, quote := start, 1, Outside;
    while i < |bytes|
      invariant start <= i <= |bytes| && depth > 0
      invariant out == bytes[start..i]
      invariant InBracket(bytes, start, i, quote, depth)
    {
      var b := bytes[i];
      BracketOne(bytes, start, i, quote, depth);
      if quote == Outside && b == ']' && depth == 1 {
        return out, i + 1;
      }
      quote, depth := Nest(quote, depth, b);
      OneMore(bytes, start, i);
      out := out + [b];
      i := i + 1;
    }
    next := i;
  }

  function Later(n: Option<nat>, k: nat): Option<nat> {
    if n.None? then None else Some(n.value + k)
  }

  lemma {:induction false} NodeAt(q: Interior, bytes: string, i: nat)
    requires i < |bytes|
    ensures NodeLen(q, bytes[i..]) ==
      if Closes(q, bytes[i]) then Some(0) else Later(NodeLen(Inside(q, bytes[i]), bytes[i + 1..]), 1)
  {
  }

  /** At `i` the scanner that started at `start` stands in state `q`, with no `)` found yet. */
  predicate Collecting(bytes: string, start: nat, i: nat, q: Interior)
    requires start <= i <= |bytes|
  {
    NodeLen(INTERIOR, bytes[start..]) == Later(NodeLen(q, bytes[i..]), i - start)
  }

  lemma {:induction false} CollectOne(bytes: string, start: nat, i: nat, q: Interior)
    requires start <= i < |bytes| && Collecting(bytes, start, i, q) && !Closes(q, bytes[i])
    ensures Collecting(bytes, start, i + 1, Inside(q, bytes[i]))
  {
    NodeAt(q, bytes, i);
  }

  /** An escape inside quotes takes the next character with it; as the last one it cannot close anything. */
  lemma {:induction false} CollectEscape(bytes: string, start: nat, i: nat, q: Interior)
    requires start <= i < |bytes| && Collecting(bytes, start, i, q)
    requires q.quote != Outside && !q.escaped && bytes[i] == '\\'
    ensures if i + 1 < |bytes| then Collecting(bytes, start, i + 2, q) else NodeLen(INTERIOR, bytes[start..]).None?
  {
    CollectOne(bytes, start, i, q);
    if i + 1 < |bytes| {
      CollectOne(bytes, start, i + 1, q.(escaped := true));
    }
  }

  lemma {:induction false} CollectEnd(bytes: string, start: nat, i: nat, q: Interior)
    requires start <= i <= |bytes| && Collecting(bytes, start, i, q)
    ensures i == |bytes| ==> NodeLen(INTERIOR, bytes[start..]).None?
    ensures i < |bytes| && Closes(q, bytes[i]) ==> NodeLen(INTERIOR, bytes[start..]) == Some(i - start)
  {
  }

  /** Quote state and brace depth after a character that is no escape. */
  method Advance(quote: Quote, braces: nat, b: char) returns (q: Quote, depth: nat)
    requires quote == Outside || b != '\\'
    ensures Interior(q, false, depth) == Inside(Interior(quote, false, braces), b)
  {
    q, depth := quote, braces;
    if quote == InSingle {
      q := if b == '\'' then Outside else InSingle;
    } else if quote == InDouble {
      q := if b == '"' then Outside else InDouble;
    } else if b == '\'' {
      q := InSingle;
    } else if b == '"' {
      q := InDouble;
    } else if b == '{' {
      depth := braces + 1;
    } else if b == '}' {
      depth := if braces == 0 then 0 else braces - 1;
    }
  }

  /** Collects the interior of a node pattern, up to its `)`. */
  method CollectNodePattern(bytes: string, start: nat) returns (r: Result<string, CypherError>, next: nat)
    requires start <= |bytes|
    ensures match NodeLen(INTERIOR, bytes[start..])
      case None => r == Err(UnclosedNodePattern)
      case Some(n) => r == Ok(bytes[start..start + n]) && next == start + n + 1
  {
    var inner, i, braces, quote := "", start, 0, Outside;
    while i < |bytes|
      invariant start <= i <= |bytes| && braces >= 0
      invariant inner == bytes[start..i]
      invariant Collecting(bytes, start, i, Interior(quote, false, braces))
    {
      var b := bytes[i];
      ghost var q := Interior(quote, false, braces);
      CollectEnd(bytes, start, i, q);
      OneMore(bytes, start, i);
      if quote != Outside && b == '\\' {
        CollectEscape(bytes, start, i, q);
        if i + 1 == |bytes| {
          return Err(UnclosedNodePattern), i + 1;
        }
        OneMore(bytes, start, i + 1);
        inner := inner + [b] + [bytes[i + 1]];
        i := i + 2;
        continue;
      }
      if b == ')' && quote == Outside && braces == 0 {
        return Ok(inner), i + 1;
      }
      CollectOne(bytes, start, i, q);
      quote, braces := Advance(quote, braces, b);
      inner := inner + [b];
      i := i + 1;
    }
    CollectEnd(bytes, start, i, Interior(quote, false, braces));
    return Err(UnclosedNodePattern), i;
  }

  /** Output so far, followed by what the rest of the query becomes. */
  function After(out: string, r: Result<string, CypherError>): Result<string, CypherError> {
    match r
    case Err(e) => Err(e)
    case Ok(s) => Ok(out + s)
  }

  lemma {:induction false} AfterNothing(r: Result<string, CypherError>)
    ensures After("", r) == r
  {
    if r.Ok? {
      assert "" + r.value == r.value;
    }
  }

  lemma {:induction false} RewrittenCons(t: Token, r: Result<seq<Token>, CypherError>, out: string, tag: string)
    requires r.Ok?
    ensures out + Targets([t] + r.value, tag) == out + Target(t, tag) + Targets(r.value, tag)
  {
  }

  lemma {:induction false} Stops(c: Context, s: string, tag: string)
    requires s != "" && Next(c, s).Reject?
    ensures Rewritten(c, s, tag) == Err(Next(c, s).error)
  {
  }

  lemma {:induction false} Goes(c: Context, s: string, t: Token, c': Context, rest: string, out: string, tag: string)
    requires s != "" && Next(c, s) == Take(t, c') && rest == s[|Source(t)|..]
    ensures After(out, Rewritten(c, s, tag)) == After(out + Target(t, tag), Rewritten(c', rest, tag))
  {
    var r := Scan(c', rest);
    if r.Ok? {
      RewrittenCons(t, r, out, tag);
    }
  }

  /** Output and context after one token, or the error that ends the run. */
  datatype Arm = Stop(error: CypherError) | Go(piece: string, next: nat, context: Context)

  /** What the specification says about the token at `i`. */
  predicate IsArm(arm: Arm, step: Step, i: nat, tag: string) {
    match step
    case Reject(e) => arm == Stop(e)
    case Take(t, c) => arm == Go(Target(t, tag), i + |Source(t)|, c)
  }

  /** Inside quotes: an escape takes the next character with it, if there is one. */
  method QuotedArm(cypher: string, i: nat, c: Context, quote: char, tag: string) returns (arm: Arm)
    requires i < |cypher|
    ensures IsArm(arm, QuotedStep(c, cypher[i..], quote), i, tag)
  {
    var b := cypher[i];
    if b == '\\' && i + 1 < |cypher| {
      assert cypher[i..][..2] == [b] + [cypher[i + 1]];
      return Go([b] + [cypher[i + 1]], i + 2, c);
    }
    assert cypher[i..][..1] == [b];
    return Go([b], i + 1, if b == quote then c.(lex := Normal, lastIdent := false) else c);
  }

  method WordArm(cypher: string, i: nat, c: Context, tag: string) returns (arm: Arm)
    requires i < |cypher| && IsIdent(cypher[i])
    ensures IsArm(arm, WordStep(c, cypher[i..]), i, tag)
  {
    var next := i;
    while next < |cypher| && IsIdent(cypher[next])
      invariant i <= next <= |cypher|
      invariant forall k | i <= k < next :: IsIdent(cypher[k])
    {
      next := next + 1;
    }
    var word := cypher[i..next];
    PrefixLenIs(cypher[i..], Ident, next - i);
    assert word == cypher[i..][..next - i];
    arm := KeywordArm(word, next, c, tag);
  }

  method KeywordArm(word: string, next: nat, c: Context, tag: string) returns (arm: Arm)
    requires word != "" && |word| <= next
    ensures IsArm(arm, WordTake(c, word), next - |word|, tag)
  {
    var kind := PathStart(Upper(word));
    if kind.Some? {
      return Go(word, next, c.(clause := kind, lastIdent := false));
    } else if IsPathEnd(Upper(word)) {
      return Go(word, next, c.(clause := None, lastIdent := true));
    } else {
      return Go(word, next, c.(lastIdent := true));
    }
  }

  method PatternArm(inner: string, next: nat, c: Context, tag: string) returns (arm: Arm)
    requires c.clause.Some?
    ensures var r := NodeTake(c, inner); arm == Go(Target(r.token, tag), next, r.next)
  {
    var varName := VarName(inner);
    var c' := c.(lastIdent := false);
    if c.clause == Some(CreateOrMerge) && varName != "" && IsBlank(AfterVar(inner)) && varName in c.bound {
      return Go("(" + inner + ")", next, c');
    }
    if c.clause == Some(Match) && varName != "" {
      c' := c'.(bound := c'.bound + {varName});
    }
    return Go("(" + SpliceLabel(inner, tag) + ")", next, c');
  }

  lemma {:induction false} NodeStepAt(c: Context, s: string, n: nat)
    requires s != "" && s[0] == '(' && c.clause.Some? && NodeLen(INTERIOR, s[1..]) == Some(n)
    ensures NodeStep(c, s) == NodeTake(c, s[1..1 + n]) && |Source(NodeTake(c, s[1..1 + n]).token)| == n + 2
  {
  }

  lemma {:induction false} NodeStepNone(c: Context, s: string)
    requires s != "" && s[0] == '(' && c.clause.Some? && NodeLen(INTERIOR, s[1..]).None?
    ensures NodeStep(c, s) == Reject(UnclosedNodePattern)
  {
  }

  method NodeArm(cypher: string, i: nat, c: Context, tag: string) returns (arm: Arm)
    requires i < |cypher| && cypher[i] == '(' && c.clause.Some?
    ensures IsArm(arm, NodeStep(c, cypher[i..]), i, tag)
  {
    ghost var s := cypher[i..];
    assert s[1..] == cypher[i + 1..];
    var collected, next := CollectNodePattern(cypher, i + 1);
    if collected.Err? {
      NodeStepNone(c, s);
      return Stop(collected.error);
    }
    assert collected.value == s[1..1 + |collected.value|];
    NodeStepAt(c, s, |collected.value|);
    arm := PatternArm(collected.value, next, c, tag);
  }

  method BracketArm(cypher: string, i: nat, c: Context) returns (arm: Arm)
    requires i < |cypher| && cypher[i] == '['
    ensures var s := cypher[i..];
      var n := BracketLen(Outside, 1, s[1..]);
      arm == Go("[" + s[1..1 + n] + "]", if 1 + n < |s| then i + n + 2 else |cypher|, c.(lastIdent := false))
  {
    assert cypher[i..][1..] == cypher[i + 1..];
    var content, next := ScanBracket(cypher, i + 1);
    assert content == cypher[i..][1..1 + |content|];
    return Go("[" + content + "]", next, c.(lastIdent := false));
  }

  method NormalArm(cypher: string, i: nat, c: Context, tag: string) returns (arm: Arm)
    requires i < |cypher| && c.lex == Normal
    ensures IsArm(arm, NormalStep(c, cypher[i..]), i, tag)
  {
    var b := cypher[i];
    assert cypher[i..][..1] == [b] && cypher[i..][1..] == cypher[i + 1..];
    if b == '\'' {
      return Go([b], i + 1, c.(lex := SingleQuote, lastIdent := false));
    } else if b == '"' {
      return Go([b], i + 1, c.(lex := DoubleQuote, lastIdent := false));
    } else if b == '`' {
      return Go([b], i + 1, c.(lex := InBacktick));
    } else if b == '/' && i + 1 < |cypher| && cypher[i + 1] == '/' {
      assert cypher[i..][..2] == "//";
      return Go("//", i + 2, c.(lex := LineComment));
    } else if b == '/' && i + 1 < |cypher| && cypher[i + 1] == '*' {
      assert cypher[i..][..2] == "/*";
      return Go("/*", i + 2, c.(lex := BlockComment));
    } else if b == ';' {
      return Stop(MultiStatement);
    } else if b == '[' {
      arm := BracketArm(cypher, i, c);
    } else if IsIdent(b) {
      arm := WordArm(cypher, i, c, tag);
    } else if b == '(' && c.clause.Some? && !c.lastIdent {
      arm := NodeArm(cypher, i, c, tag);
    } else {
      return Go([b], i + 1, if IsAsciiSpace(b) then c else c.(lastIdent := false));
    }
  }

  method CommentArm(cypher: string, i: nat, c: Context, tag: string) returns (arm: Arm)
    requires i < |cypher| && c.lex in {InBacktick, LineComment, BlockComment}
    ensures IsArm(arm, Next(c, cypher[i..]), i, tag)
  {
    var b := cypher[i];
    assert cypher[i..][..1] == [b];
    if c.lex == InBacktick {
      return Go([b], i + 1, if b == '`' then c.(lex := Normal, lastIdent := true) else c);
    } else if c.lex == LineComment {
      return Go([b], i + 1, if b == '\n' then c.(lex := Normal) else c);
    } else if b == '*' && i + 1 < |cypher| && cypher[i + 1] == '/' {
      assert cypher[i..][..2] == "*/";
      return Go("*/", i + 2, c.(lex := Normal));
    } else {
      return Go([b], i + 1, c);
    }
  }

  method TokenArm(cypher: string, i: nat, c: Context, tag: string) returns (arm: Arm)
    requires i < |cypher|
    ensures IsArm(arm, Next(c, cypher[i..]), i, tag)
  {
    match c.lex {
      case SingleQuote => arm := QuotedArm(cypher, i, c, '\'', tag);
      case DoubleQuote => arm := QuotedArm(cypher, i, c, '"', tag);
      case InBacktick => arm := CommentArm(cypher, i, c, tag);
      case LineComment => arm := CommentArm(cypher, i, c, tag);
      case BlockComment => arm := CommentArm(cypher, i, c, tag);
      case Normal => arm := NormalArm(cypher, i, c, tag);
    }
  }

  /** With `written` done, `rest` is what is still to come of the result `all`. */
  predicate Writing(all: Result<string, CypherError>, written: string, rest: Result<string, CypherError>) {
    all == After(written, rest)
  }

  lemma {:induction false} ArmStops(arm: Arm, c: Context, s: string, i: nat, tag: string)
    requires s != "" && arm.Stop? && IsArm(arm, Next(c, s), i, tag)
    ensures Rewritten(c, s, tag) == Err(arm.error)
  {
    Stops(c, s, tag);
  }

  lemma {:induction false} ArmTakes(step: Step, s: string, arm: Arm, i: nat, tag: string)
    requires arm.Go? && IsArm(arm, step, i, tag) && Eats(step, s)
    ensures step == Take(step.token, arm.context) && arm.piece == Target(step.token, tag)
    ensures arm.next == i + |Source(step.token)| && 0 < |Source(step.token)| <= |s|
  {
  }

  lemma {:induction false} ArmGoes(arm: Arm, c: Context, s: string, i: nat, out: string, tag: string) returns (n: nat)
    requires s != "" && arm.Go? && IsArm(arm, Next(c, s), i, tag)
    ensures 0 < n <= |s| && arm.next == i + n
    ensures After(out, Rewritten(c, s, tag)) == After(out + arm.piece, Rewritten(arm.context, s[n..], tag))
  {
    var step := Next(c, s);
    ArmTakes(step, s, arm, i, tag);
    n := |Source(step.token)|;
    Goes(c, s, step.token, arm.context, s[n..], out, tag);
  }

  /** One turn of the loop: an arm of the state machine. `written` is the output so far. */
  method Turn(cypher: string, i: nat, c: Context, tag: string, ghost written: string) returns (arm: Arm)
    requires i < |cypher|
    ensures arm.Stop? ==> Rewritten(c, cypher[i..], tag) == Err(arm.error)
    ensures arm.Go? ==> i < arm.next <= |cypher|
    ensures arm.Go? ==>
      After(written, Rewritten(c, cypher[i..], tag)) ==
      After(written + arm.piece, Rewritten(arm.context, cypher[arm.next..], tag))
  {
    arm := TokenArm(cypher, i, c, tag);
    ghost var s := cypher[i..];
    if arm.Stop? {
      ArmStops(arm, c, s, i, tag);
    } else {
      ghost var n := ArmGoes(arm, c, s, i, written, tag);
      assert s[n..] == cypher[arm.next..];
    }
  }

  lemma {:induction false} WritingStarts(cypher: string, tag: string)
    ensures Writing(Inject(cypher, tag), "", Rewritten(START, cypher[0..], tag))
  {
    assert cypher[0..] == cypher;
    AfterNothing(Inject(cypher, tag));
  }

  lemma {:induction false} WritingEnds(all: Result<string, CypherError>, out: string, c: Context, rest: string,
                                       tag: string)
    requires rest == "" && Writing(all, out, Rewritten(c, rest, tag))
    ensures all == Ok(out)
  {
    assert out + "" == out;
  }

  method InjectTenantLabel(cypher: string, tag: string) returns (r: Result<string, CypherError>)
    ensures r == Inject(cypher, tag)
  {
    var i, out, c := 0, "", START;
    ghost var all := Inject(cypher, tag);
    WritingStarts(cypher, tag);
    while i < |cypher|
      invariant 0 <= i <= |cypher| && Writing(all, out, Rewritten(c, cypher[i..], tag))
    {
      var arm := Turn(cypher, i, c, tag, out);
      match arm {
        case Stop(e) =>
          return Err(e);
        case Go(piece, next, context) =>
          out := out + piece;
          i := next;
          c := context;
      }
    }
    WritingEnds(all, out, c, cypher[i..], tag);
    return Ok(out);
  }
}
