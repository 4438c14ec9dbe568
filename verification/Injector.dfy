/**
 * The tenant-label rewriter (rb-storage-neo4j, injector.rs).
 *
 * The specification cuts a query into tokens, from the left; rendering the tokens with a label gives
 * the rewritten query. The index-based scanners of `inject_tenant_label` are proved to compute it, in
 * `Rewriter`. A character stands for one byte, as in the scanner's `b as char`.
 */
module Injector {
  import opened Prelude
  import opened Detector

  datatype CypherError = MultiStatement | UnclosedNodePattern

  datatype Clause = Match | CreateOrMerge

  /** What the scanner remembers between tokens. */
  datatype Context = Context(lex: Lex, lastIdent: bool, clause: Option<Clause>, bound: set<string>)

  const START := Context(Normal, false, None, {})

  datatype Token =
    | Raw(text: string)
    | Bracket(content: string, closed: bool)
    | Node(inner: string, clause: Clause, splice: bool)

  datatype Step = Reject(error: CypherError) | Take(token: Token, next: Context)

  function PathStart(upper: string): Option<Clause> {
    if upper == "MATCH" then Some(Match)
    else if upper == "CREATE" || upper == "MERGE" then Some(CreateOrMerge)
    else None
  }

  predicate IsPathEnd(upper: string) {
    upper in {"WHERE", "WITH", "RETURN", "SET", "REMOVE", "DELETE", "DETACH", "ORDER", "SKIP", "LIMIT",
              "UNION", "UNWIND", "CALL", "YIELD", "CASE", "WHEN", "THEN", "ELSE", "END"}
  }

  // Sub-scanners

  datatype Quote = Outside | InSingle | InDouble

  function Toggle(q: Quote, c: char): Quote {
    match q
    case Outside => if c == '\'' then InSingle else if c == '"' then InDouble else Outside
    case InSingle => if c == '\'' then Outside else InSingle
    case InDouble => if c == '"' then Outside else InDouble
  }

  /** Characters before the `]` that closes a bracket of nesting `depth`, or all of `s` if none does. */
  function BracketLen(q: Quote, depth: nat, s: string): (n: nat)
    requires depth > 0
    ensures n <= |s|
    ensures n < |s| ==> s[n] == ']'
    decreases s
  {
    if s == "" then 0
    else if q != Outside || (s[0] != '[' && s[0] != ']') then 1 + BracketLen(Toggle(q, s[0]), depth, s[1..])
    else if s[0] == '[' then 1 + BracketLen(q, depth + 1, s[1..])
    else if depth == 1 then 0
    else 1 + BracketLen(q, depth - 1, s[1..])
  }

  /** Where the node-pattern scanner stands: quote, pending escape, nesting of braces. */
  datatype Interior = Interior(quote: Quote, escaped: bool, braces: nat)

  const INTERIOR := Interior(Outside, false, 0)

  function Inside(q: Interior, c: char): Interior {
    if q.escaped then q.(escaped := false)
    else if q.quote != Outside then
      if c == '\\' then q.(escaped := true) else q.(quote := Toggle(q.quote, c))
    else if c == '{' then q.(braces := q.braces + 1)
    else if c == '}' then q.(braces := if q.braces == 0 then 0 else q.braces - 1)
    else q.(quote := Toggle(Outside, c))
  }

  predicate Closes(q: Interior, c: char) {
    q == INTERIOR && c == ')'
  }

  /** Characters before the `)` that closes a node pattern, if one does. */
  function NodeLen(q: Interior, s: string): (n: Option<nat>)
    ensures n.Some? ==> n.value < |s| && s[n.value] == ')'
    decreases s
  {
    if s == "" then None
    else if Closes(q, s[0]) then Some(0)
    else match NodeLen(Inside(q, s[0]), s[1..])
      case None => None
      case Some(n) => Some(n + 1)
  }

  // Parts of a node pattern. Its text is made of characters below 256.

  function VarStart(inner: string): (n: nat)
    ensures n <= |inner|
  {
    PrefixLen(inner, Space)
  }

  function VarEnd(inner: string): (n: nat)
    ensures VarStart(inner) <= n <= |inner|
  {
    VarStart(inner) + PrefixLen(inner[VarStart(inner)..], VarChar)
  }

  function VarName(inner: string): string {
    inner[VarStart(inner)..VarEnd(inner)]
  }

  function AfterVar(inner: string): string {
    inner[VarEnd(inner)..]
  }

  predicate IsBlank(s: string) {
    forall i | 0 <= i < |s| :: IsSpace(s[i])
  }

  /** Only a variable: no tag, no properties. */
  predicate IsBareReference(inner: string) {
    VarName(inner) != "" && IsBlank(AfterVar(inner))
  }

  function SpliceLabel(inner: string, tag: string): string {
    inner[..VarEnd(inner)] + ":" + tag + AfterVar(inner)
  }

  // Text of a token

  predicate IsUnclosed(t: Token) {
    t.Bracket? && !t.closed
  }

  /** The text a token was read from. */
  function Source(t: Token): string {
    match t
    case Raw(text) => text
    case Bracket(content, closed) => "[" + content + if closed then "]" else ""
    case Node(inner, _, _) => "(" + inner + ")"
  }

  /** The text the rewriter writes for it; a bracket always gets its `]`. */
  function Target(t: Token, tag: string): string {
    match t
    case Raw(text) => text
    case Bracket(content, _) => "[" + content + "]"
    case Node(inner, _, splice) => "(" + (if splice then SpliceLabel(inner, tag) else inner) + ")"
  }

  /** A step that succeeds takes a non-empty prefix of `s`, all of it for an unclosed bracket. */
  predicate Eats(r: Step, s: string) {
    r.Take? ==> Source(r.token) != "" && Source(r.token) <= s && (IsUnclosed(r.token) ==> Source(r.token) == s)
  }

  // One token

  lemma {:induction false} BracketConsumes(s: string)
    requires s != "" && s[0] == '['
    ensures var n := BracketLen(Outside, 1, s[1..]);
      var t := Bracket(s[1..1 + n], 1 + n < |s|);
      Source(t) <= s && (IsUnclosed(t) ==> Source(t) == s)
  {
    var n := BracketLen(Outside, 1, s[1..]);
    assert "[" + s[1..1 + n] + "" == "[" + s[1..1 + n] == s[..1 + n];
    if 1 + n < |s| {
      assert s[..1 + n] + "]" == s[..2 + n];
    }
  }

  function QuotedStep(c: Context, s: string, quote: char): (r: Step)
    requires s != ""
    ensures Eats(r, s)
  {
    if s[0] == '\\' && |s| > 1 then Take(Raw(s[..2]), c)
    else Take(Raw(s[..1]), if s[0] == quote then c.(lex := Normal, lastIdent := false) else c)
  }

  /** What becomes of a word: it may open or end a path clause. */
  function WordTake(c: Context, word: string): (r: Step)
    ensures r.Take? && r.token == Raw(word)
  {
    var kind := PathStart(Upper(word));
    Take(Raw(word),
         if kind.Some? then c.(clause := kind, lastIdent := false)
         else if IsPathEnd(Upper(word)) then c.(clause := None, lastIdent := true)
         else c.(lastIdent := true))
  }

  function WordStep(c: Context, s: string): (r: Step)
    requires s != "" && IsIdent(s[0])
    ensures Eats(r, s)
  {
    WordTake(c, s[..PrefixLen(s, Ident)])
  }

  /** What becomes of a node pattern with this interior. */
  function NodeTake(c: Context, inner: string): (r: Step)
    requires c.clause.Some?
    ensures r.Take? && r.token.Node? && r.token.inner == inner
  {
    if c.clause == Some(CreateOrMerge) && IsBareReference(inner) && VarName(inner) in c.bound then
      Take(Node(inner, CreateOrMerge, false), c.(lastIdent := false))
    else
      var declares := c.clause == Some(Match) && VarName(inner) != "";
      Take(Node(inner, c.clause.value, true),
           c.(lastIdent := false, bound := if declares then c.bound + {VarName(inner)} else c.bound))
  }

  function NodeStep(c: Context, s: string): (r: Step)
    requires s != "" && s[0] == '(' && c.clause.Some?
    ensures Eats(r, s)
    ensures r.Take? ==> r.token.Node?
  {
    match NodeLen(INTERIOR, s[1..])
    case None => Reject(UnclosedNodePattern)
    case Some(n) =>
      assert "(" + s[1..1 + n] + ")" == s[..2 + n];
      NodeTake(c, s[1..1 + n])
  }

  predicate IsNodeStep(c: Context, s: string, r: Step) {
    s != "" && s[0] == '(' && c.clause.Some? && c.lex == Normal && !c.lastIdent && r == NodeStep(c, s)
  }

  function NormalStep(c: Context, s: string): (r: Step)
    requires s != "" && c.lex == Normal
    ensures Eats(r, s)
    ensures r.Take? ==> if r.token.Node? then IsNodeStep(c, s, r) else r.next.bound == c.bound
    ensures c.lex == Normal && s[0] == '(' && c.clause.Some? && !c.lastIdent ==> r == NodeStep(c, s)
  {
    if s[0] == '\'' then Take(Raw(s[..1]), c.(lex := SingleQuote, lastIdent := false))
    else if s[0] == '"' then Take(Raw(s[..1]), c.(lex := DoubleQuote, lastIdent := false))
    else if s[0] == '`' then Take(Raw(s[..1]), c.(lex := InBacktick))
    else if s[0] == '/' && |s| > 1 && s[1] == '/' then Take(Raw(s[..2]), c.(lex := LineComment))
    else if s[0] == '/' && |s| > 1 && s[1] == '*' then Take(Raw(s[..2]), c.(lex := BlockComment))
    else if s[0] == ';' then Reject(MultiStatement)
    else if s[0] == '[' then
      var n := BracketLen(Outside, 1, s[1..]);
      BracketConsumes(s);
      Take(Bracket(s[1..1 + n], 1 + n < |s|), c.(lastIdent := false))
    else if IsIdent(s[0]) then WordStep(c, s)
    else if s[0] == '(' && c.clause.Some? && !c.lastIdent then NodeStep(c, s)
    else Take(Raw(s[..1]), c.(lastIdent := c.lastIdent && IsAsciiSpace(s[0])))
  }

  function Next(c: Context, s: string): (r: Step)
    requires s != ""
    ensures Eats(r, s)
    ensures r.Take? ==> if r.token.Node? then IsNodeStep(c, s, r) else r.next.bound == c.bound
    ensures c.lex == Normal && s[0] == '(' && c.clause.Some? && !c.lastIdent ==> r == NodeStep(c, s)
  {
    match c.lex
    case SingleQuote => QuotedStep(c, s, '\'')
    case DoubleQuote => QuotedStep(c, s, '"')
    case InBacktick => Take(Raw(s[..1]), if s[0] == '`' then c.(lex := Normal, lastIdent := true) else c)
    case LineComment => Take(Raw(s[..1]), if s[0] == '\n' then c.(lex := Normal) else c)
    case BlockComment =>
      if s[0] == '*' && |s| > 1 && s[1] == '/' then Take(Raw(s[..2]), c.(lex := Normal)) else Take(Raw(s[..1]), c)
    case Normal => NormalStep(c, s)
  }

  // Whole queries

  function Sources(ts: seq<Token>): string {
    if ts == [] then "" else Source(ts[0]) + Sources(ts[1..])
  }

  function Targets(ts: seq<Token>, tag: string): string {
    if ts == [] then "" else Target(ts[0], tag) + Targets(ts[1..], tag)
  }

  function Scan(c: Context, s: string): Result<seq<Token>, CypherError>
    decreases s
  {
    if s == "" then Ok([])
    else match Next(c, s)
      case Reject(e) => Err(e)
      case Take(t, c') =>
        match Scan(c', s[|Source(t)|..])
        case Err(e) => Err(e)
        case Ok(ts) => Ok([t] + ts)
  }

  function Rewritten(c: Context, s: string, tag: string): Result<string, CypherError> {
    match Scan(c, s)
    case Err(e) => Err(e)
    case Ok(ts) => Ok(Targets(ts, tag))
  }

  /** The rewritten query, or the error. */
  function Inject(cypher: string, tag: string): Result<string, CypherError> {
    Rewritten(START, cypher, tag)
  }
}
