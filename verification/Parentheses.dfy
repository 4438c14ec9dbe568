/**
 * Every parenthesis of a query, whether the rewriter takes it for a pattern or not. A reader that knows only
 * words, strings, names and comments says which ones stand in code and are no calls; each of them is the
 * start of a labelled pattern, a reference to a bound variable, inside an interior, or left alone because
 * no path clause is open.
 */
module Parentheses {
  import opened Prelude
  import opened Detector
  import opened Injector
  import opened InjectorTheorems
  import opened Provenance
  import opened CodeView
  import opened ReadOnly

  // ---------------------------------------------------------------------------------------------
  // What becomes of a parenthesis
  // ---------------------------------------------------------------------------------------------

  /** `Inside` a bracket or a node pattern; `Left`: copied like any other character. */
  datatype Fate = Labelled | Reference | Inside | Left

  function FateAt(ts: seq<Token>, k: nat): Fate {
    if ts == [] then Left
    else if k >= |Source(ts[0])| then FateAt(ts[1..], k - |Source(ts[0])|)
    else match ts[0]
      case Raw(_) => Left
      case Bracket(_, _) => Inside
      case Node(_, _, splice) => if k > 0 then Inside else if splice then Labelled else Reference
  }

  /** The clause that a word opens or ends. */
  function ClauseAfter(clause: Option<Clause>, t: Token): Option<Clause> {
    if t.Raw? && PathStart(Upper(t.text)).Some? then PathStart(Upper(t.text))
    else if t.Raw? && IsPathEnd(Upper(t.text)) then None
    else clause
  }

  /** The clause by the last clause word before position `k`, interiors aside. */
  function ClauseAt(clause: Option<Clause>, ts: seq<Token>, k: nat): Option<Clause>
    decreases |ts|
  {
    if ts == [] || k < |Source(ts[0])| then clause
    else ClauseAt(ClauseAfter(clause, ts[0]), ts[1..], k - |Source(ts[0])|)
  }

  /** The node pattern that begins at `k`. */
  function NodeAt(ts: seq<Token>, k: nat): (n: Option<Token>)
    ensures n.Some? ==> n.value.Node?
  {
    if ts == [] then None
    else if k >= |Source(ts[0])| then NodeAt(ts[1..], k - |Source(ts[0])|)
    else if k == 0 && ts[0].Node? then Some(ts[0]) else None
  }

  function NodesBefore(ts: seq<Token>, k: nat): seq<Token> {
    if ts == [] || k < |Source(ts[0])| then []
    else (if ts[0].Node? then [ts[0]] else []) + NodesBefore(ts[1..], k - |Source(ts[0])|)
  }

  /** A pattern that is only a reference to a variable of an earlier MATCH pattern. */
  predicate IsReferenceAt(ts: seq<Token>, k: nat) {
    NodeAt(ts, k).Some? && IsBoundReference(NodeAt(ts, k).value, DeclaredBy(NodesBefore(ts, k)))
  }

  lemma {:induction false} FateOfNode(ts: seq<Token>, k: nat)
    ensures NodeAt(ts, k).Some? <==> FateAt(ts, k) in {Labelled, Reference}
    ensures NodeAt(ts, k).Some? ==> NodeAt(ts, k).value.splice == FateAt(ts, k).Labelled?
  {
    if ts == [] {
    } else if k >= |Source(ts[0])| {
      FateOfNode(ts[1..], k - |Source(ts[0])|);
    }
  }

  lemma {:induction false} IndexShifts(first: seq<Token>, nodes: seq<Token>, j: nat)
    requires j < |nodes|
    ensures (first + nodes)[..|first| + j] == first + nodes[..j] && (first + nodes)[|first| + j] == nodes[j]
  {
  }

  lemma {:induction false} NodeIsIndexed(ts: seq<Token>, k: nat) returns (j: nat)
    requires NodeAt(ts, k).Some?
    ensures j < |NodesOf(ts)| && NodesOf(ts)[j] == NodeAt(ts, k).value && NodesBefore(ts, k) == NodesOf(ts)[..j]
  {
    if k < |Source(ts[0])| {
      j := 0;
    } else {
      var first := if ts[0].Node? then [ts[0]] else [];
      j := NodeIsIndexed(ts[1..], k - |Source(ts[0])|);
      IndexShifts(first, NodesOf(ts[1..]), j);
      j := |first| + j;
    }
  }

  lemma {:induction false} ReferencesAreLeft(cypher: string, k: nat)
    requires Scan(START, cypher).Ok?
    ensures FateAt(Scan(START, cypher).value, k).Reference? <==> IsReferenceAt(Scan(START, cypher).value, k)
  {
    var ts := Scan(START, cypher).value;
    FateOfNode(ts, k);
    if NodeAt(ts, k).Some? {
      ScanAccounts(START, cypher);
      var j := NodeIsIndexed(ts, k);
      assert {} + DeclaredBy(NodesOf(ts)[..j]) == DeclaredBy(NodesOf(ts)[..j]);
    }
  }

  lemma {:induction false} ShortIsNoKeyword(text: string)
    requires |text| <= 2
    ensures PathStart(Upper(text)).None? && !IsPathEnd(Upper(text))
  {
  }

  lemma {:induction false} NextClause(c: Context, s: string, r: Step)
    requires s != "" && r == Next(c, s) && r.Take?
    ensures r.next.clause == ClauseAfter(c.clause, r.token)
  {
    if r.token.Raw? && !(c.lex == Normal && IsIdent(s[0])) {
      assert |r.token.text| <= 2;
      ShortIsNoKeyword(r.token.text);
    }
  }

  // ---------------------------------------------------------------------------------------------
  // Which ones are taken
  // ---------------------------------------------------------------------------------------------

  /** By the reader, at the parenthesis. */
  predicate IsOpening(v: View) {
    IsCode(v.mode) && !IsName(PriorOf(v))
  }

  lemma {:induction false} TakenOpens(c: Context, s: string, r: Step, v: View)
    requires s != "" && Aligned(c, v, s) && r == Next(c, s) && r.Take? && r.token.Node?
    ensures IsOpening(v) && c.clause.Some?
  {
  }

  lemma {:induction false} RawIsClosed(c: Context, s: string, r: Step, v: View, k: nat)
    requires s != "" && Aligned(c, v, s) && r == Next(c, s) && r.Take? && r.token.Raw?
    requires k < |r.token.text| && s[k] == '(' && IsOpening(SeeAll(v, s[..k]))
    ensures c.clause.None?
  {
    if k == 0 {
      assert s[..0] == "";
    } else {
      assert s[k] == r.token.text[k];
      assert k == 1 && s[..1] == [s[0]];
      SeeOne(v, s[0]);
    }
  }

  /** What the reader and the last clause word say about a parenthesis, given its fate. */
  predicate IsFate(fate: Fate, clause: Option<Clause>, opening: bool) {
    && (fate in {Labelled, Reference} ==> opening && clause.Some?)
    && (fate.Left? && opening ==> clause.None?)
  }

  lemma {:induction false} FateHere(c: Context, s: string, r: Step, v: View, ts: seq<Token>, k: nat)
    requires s != "" && Aligned(c, v, s) && r == Next(c, s) && r.Take? && k < |Source(r.token)| && s[k] == '('
    ensures IsFate(FateAt([r.token] + ts, k), ClauseAt(c.clause, [r.token] + ts, k), IsOpening(SeeAll(v, s[..k])))
  {
    var all := [r.token] + ts;
    assert all[0] == r.token;
    if r.token.Raw? {
      if IsOpening(SeeAll(v, s[..k])) {
        RawIsClosed(c, s, r, v, k);
      }
    } else if r.token.Node? && k == 0 {
      assert s[..0] == "";
      TakenOpens(c, s, r, v);
    }
  }

  lemma {:induction false} FateLater(t: Token, ts: seq<Token>, clause: Option<Clause>, k: nat)
    requires k >= |Source(t)|
    ensures FateAt([t] + ts, k) == FateAt(ts, k - |Source(t)|)
    ensures ClauseAt(clause, [t] + ts, k) == ClauseAt(ClauseAfter(clause, t), ts, k - |Source(t)|)
  {
    assert ([t] + ts)[1..] == ts;
  }

  lemma {:induction false} ViewLater(v: View, s: string, n: nat, k: nat)
    requires n <= k <= |s|
    ensures SeeAll(v, s[..k]) == SeeAll(SeeAll(v, s[..n]), s[n..][..k - n])
  {
    assert s[..k] == s[..n] + s[n..][..k - n];
    SeeConcat(v, s[..n], s[n..][..k - n]);
  }

  lemma {:induction false} FateMoves(t: Token, ts: seq<Token>, clause: Option<Clause>, next: Option<Clause>, k: nat,
                                     opening: bool)
    requires k >= |Source(t)| && next == ClauseAfter(clause, t)
    requires IsFate(FateAt(ts, k - |Source(t)|), ClauseAt(next, ts, k - |Source(t)|), opening)
    ensures IsFate(FateAt([t] + ts, k), ClauseAt(clause, [t] + ts, k), opening)
  {
    FateLater(t, ts, clause, k);
  }

  lemma {:induction false} FateFrom(c: Context, s: string, v: View, k: nat)
    requires Scan(c, s).Ok? && AllPlain(Scan(c, s).value) && Aligned(c, v, s) && k < |s| && s[k] == '('
    ensures IsFate(FateAt(Scan(c, s).value, k), ClauseAt(c.clause, Scan(c, s).value, k), IsOpening(SeeAll(v, s[..k])))
    decreases s, 1
  {
    var r := Next(c, s);
    var t, rest := r.token, s[|Source(r.token)|..];
    ScanCons(c, t, r.next, rest, s);
    PlainCons(t, Scan(r.next, rest).value);
    if k < |Source(t)| {
      FateHere(c, s, r, v, Scan(r.next, rest).value, k);
    } else {
      TokenAligned(c, s, r, v);
      NextClause(c, s, r);
      assert s[..|Source(t)|] == Source(t);
      FateInRest(t, c.clause, r.next, SeeAll(v, Source(t)), v, s, rest, |Source(t)|, k);
    }
  }

  lemma {:induction false} FateInRest(t: Token, clause: Option<Clause>, c: Context, w: View, v: View, s: string,
                                      rest: string, n: nat, k: nat)
    requires 0 < n == |Source(t)| <= k < |s| && rest == s[n..] && w == SeeAll(v, s[..n]) && s[k] == '('
    requires Scan(c, rest).Ok? && AllPlain(Scan(c, rest).value) && Aligned(c, w, rest)
      && c.clause == ClauseAfter(clause, t)
    ensures var ts := [t] + Scan(c, rest).value;
      IsFate(FateAt(ts, k), ClauseAt(clause, ts, k), IsOpening(SeeAll(v, s[..k])))
    decreases rest, 2
  {
    FateFrom(c, rest, w, k - n);
    ViewLater(v, s, n, k);
    FateMoves(t, Scan(c, rest).value, clause, c.clause, k, IsOpening(SeeAll(v, s[..k])));
  }

  /**
   * With plain interiors, a `(` is taken for a pattern exactly when it stands in code, is no call, is in no
   * interior, and the last clause word before it opens a path clause; it goes without the label exactly when
   * it then is a bare MERGE or CREATE reference to a variable of an earlier MATCH pattern.
   */
  lemma {:induction false} ParenthesesAreAccounted(cypher: string, k: nat)
    requires PlainQuery(cypher) && k < |cypher| && cypher[k] == '('
    ensures var ts := Scan(START, cypher).value;
      var fate := FateAt(ts, k);
      && (fate in {Labelled, Reference} <==> IsParenthesis(cypher, k) && !fate.Inside? && ClauseAt(None, ts, k).Some?)
      && (fate.Reference? <==> IsReferenceAt(ts, k))
      && (IsParenthesis(cypher, k) && fate.Left? ==> ClauseAt(None, ts, k).None?)
  {
    FateFrom(START, cypher, BEGIN, k);
    ReferencesAreLeft(cypher, k);
  }

  // ---------------------------------------------------------------------------------------------
  // The label behind a parenthesis
  // ---------------------------------------------------------------------------------------------

  /** Nothing, or a bracket: no part of a variable or a label. */
  predicate IsStopper(y: string) {
    y != "" ==> y[0] in {'(', ')', '[', ']'}
  }

  lemma {:induction false} PrefixStops(x: string, y: string, k: Class)
    requires IsStopper(y) && (k == Space || k == VarChar)
    ensures PrefixLen(x + y, k) == PrefixLen(x, k)
  {
    PrefixLenIs(x + y, k, PrefixLen(x, k));
  }

  lemma {:induction false} DropStops(x: string, y: string, a: nat)
    requires a <= |x|
    ensures (x + y)[a..] == x[a..] + y
  {
  }

  lemma {:induction false} VarStops(x: string, y: string)
    requires IsStopper(y)
    ensures VarEnd(x + y) == VarEnd(x) && AfterVar(x + y) == AfterVar(x) + y
  {
    PrefixStops(x, y, Space);
    DropStops(x, y, VarStart(x));
    PrefixStops(x[VarStart(x)..], y, VarChar);
    DropStops(x, y, VarEnd(x));
  }

  lemma {:induction false} LabelStops(after: string, y: string, tag: string)
    requires IsStopper(y) && IsLabel(tag) && |after| < |tag| + 1 <= |after + y|
    ensures (after + y)[..|tag| + 1] != ":" + tag
  {
    assert (after + y)[..|tag| + 1][|after|] == y[0];
    assert (":" + tag)[|after|] == if |after| == 0 then ':' else tag[|after| - 1];
  }

  /** Whether the label follows is decided before the next bracket. */
  lemma {:induction false} LabelIsLocal(x: string, y: string, tag: string)
    requires IsStopper(y) && IsLabel(tag)
    ensures IsLabelled(x + y, tag) <==> IsLabelled(x, tag)
  {
    var after, n := AfterVar(x), |tag| + 1;
    VarStops(x, y);
    if n <= |after| {
      assert (after + y)[..n] == after[..n];
    } else if n <= |after + y| {
      LabelStops(after, y, tag);
    }
  }

  /** Raw text up to the next bracket or pattern is the same in query and output. */
  lemma {:induction false} RawGoesOn(ts: seq<Token>, tag: string) returns (x: string, y: string, y': string)
    ensures Sources(ts) == x + y && Targets(ts, tag) == x + y' && IsStopper(y) && IsStopper(y')
  {
    if ts == [] || !ts[0].Raw? {
      x, y, y' := "", Sources(ts), Targets(ts, tag);
      assert "" + y == y && "" + y' == y';
    } else {
      x, y, y' := RawGoesOn(ts[1..], tag);
      Assoc(ts[0].text, x, y);
      Assoc(ts[0].text, x, y');
      x := ts[0].text + x;
    }
  }

  lemma {:induction false} SameLabelAfter(ts: seq<Token>, tag: string)
    requires IsLabel(tag)
    ensures IsLabelled(Sources(ts), tag) <==> IsLabelled(Targets(ts, tag), tag)
  {
    var x, y, y' := RawGoesOn(ts, tag);
    LabelIsLocal(x, y, tag);
    LabelIsLocal(x, y', tag);
  }

  /** Where the character at `k` of the query stands in the output. */
  function Image(ts: seq<Token>, tag: string, k: nat): nat {
    if ts == [] then k
    else if k >= |Source(ts[0])| then |Target(ts[0], tag)| + Image(ts[1..], tag, k - |Source(ts[0])|)
    else if IsSpliced(ts[0]) && k > VarEnd(ts[0].inner) then k + |tag| + 1
    else k
  }

  /** The parenthesis at `k` of the query is the one at `i` of the output, with the label behind it as its fate says. */
  predicate IsImageAt(s: string, out: string, k: nat, i: nat, labelled: bool, tag: string) {
    && k < |s| && i < |out| && out[i] == '('
    && (IsLabelled(out[i + 1..], tag) <==> labelled || IsLabelled(s[k + 1..], tag))
  }

  predicate IsImaged(ts: seq<Token>, tag: string, k: nat) {
    IsImageAt(Sources(ts), Targets(ts, tag), k, Image(ts, tag, k), FateAt(ts, k).Labelled?, tag)
  }

  lemma {:induction false} ImageShifts(a: string, b: string, s: string, out: string, k: nat, i: nat, s': string,
                                       out': string, k': nat, i': nat, labelled: bool, tag: string)
    requires IsImageAt(s, out, k, i, labelled, tag)
    requires s' == a + s && out' == b + out && k' == |a| + k && i' == |b| + i
    ensures IsImageAt(s', out', k', i', labelled, tag)
  {
    assert s'[k' + 1..] == s[k + 1..];
    assert out'[i' + 1..] == out[i + 1..];
  }

  /** A parenthesis ends its token, if that is not a bracket or a pattern. */
  predicate EndsRaw(t: Token) {
    t.Raw? ==> forall i | 0 <= i < |t.text| - 1 :: t.text[i] != '('
  }

  lemma {:induction false} NextEndsRaw(c: Context, s: string, r: Step)
    requires s != "" && r == Next(c, s) && r.Take?
    ensures EndsRaw(r.token)
  {
  }

  lemma {:induction false} ScanEndsRaw(c: Context, s: string)
    requires Scan(c, s).Ok?
    ensures forall t | t in Scan(c, s).value :: EndsRaw(t)
    decreases s
  {
    if s == "" {
    } else {
      var r := Next(c, s);
      var rest := s[|Source(r.token)|..];
      NextEndsRaw(c, s, r);
      ScanEndsRaw(r.next, rest);
      ScanCons(c, r.token, r.next, rest, s);
    }
  }

  lemma {:induction false} ImageCons(ts: seq<Token>, tag: string, k: nat, a: string, b: string, j: nat)
    requires ts != [] && a == Source(ts[0]) && b == Target(ts[0], tag) && k == |a| + j
    ensures Sources(ts) == a + Sources(ts[1..]) && Targets(ts, tag) == b + Targets(ts[1..], tag)
    ensures Image(ts, tag, k) == |b| + Image(ts[1..], tag, j) && FateAt(ts, k) == FateAt(ts[1..], j)
  {
  }

  lemma {:induction false} ImageLater(ts: seq<Token>, tag: string, k: nat, a: string, b: string, j: nat)
    requires ts != [] && a == Source(ts[0]) && b == Target(ts[0], tag) && k == |a| + j && IsImaged(ts[1..], tag, j)
    ensures IsImaged(ts, tag, k)
  {
    var s, out, i, l := Sources(ts[1..]), Targets(ts[1..], tag), Image(ts[1..], tag, j), FateAt(ts[1..], j).Labelled?;
    ImageCons(ts, tag, k, a, b, j);
    ImageShifts(a, b, s, out, j, i, Sources(ts), Targets(ts, tag), k, Image(ts, tag, k), l, tag);
  }

  // The parenthesis is in the first token

  lemma {:induction false} RawImage(text: string, r: string, r': string, k: nat, tag: string)
    requires k + 1 == |text| && text[k] == '(' && (IsLabelled(r, tag) <==> IsLabelled(r', tag))
    ensures IsImageAt(text + r, text + r', k, k, false, tag)
  {
    assert (text + r)[k + 1..] == r && (text + r')[k + 1..] == r';
  }

  /** Inside an interior: what follows is the same up to the closing bracket. */
  lemma {:induction false} InnerImage(s: string, out: string, k: nat, i: nat, x: string, y: string, y': string,
                                      tag: string)
    requires IsLabel(tag) && IsStopper(y) && IsStopper(y') && k < |s| && i < |out| && out[i] == '('
    requires s[k + 1..] == x + y && out[i + 1..] == x + y'
    ensures IsImageAt(s, out, k, i, false, tag)
  {
    LabelIsLocal(x, y, tag);
    LabelIsLocal(x, y', tag);
  }

  lemma {:induction false} InnerDrop(open: char, content: string, tail: string, k: nat)
    requires 0 < k <= |content|
    ensures ([open] + content + tail)[k + 1..] == content[k..] + tail && ([open] + content + tail)[k] == content[k - 1]
  {
  }

  lemma {:induction false} PatternImage(s: string, out: string, patched: string, y: string, inner: string, tag: string)
    requires IsLabel(tag) && patched == SpliceLabel(inner, tag) && s != "" && out != "" && out[0] == '('
    requires IsStopper(y) && out[1..] == patched + y
    ensures IsImageAt(s, out, 0, 0, true, tag)
  {
    SplicedIsLabelled(inner, tag);
    LabelIsLocal(patched, y, tag);
  }

  /** A parenthesis in the interior is behind the variable, and moves on with the text behind the label. */
  lemma {:induction false} PatchedDrop(inner: string, tag: string, k: nat)
    requires 0 < k <= |inner| && inner[k - 1] == '('
    ensures var patched := SpliceLabel(inner, tag);
      && k > VarEnd(inner) && k + |tag| + 1 <= |patched|
      && patched[k + |tag|] == '(' && patched[k + |tag| + 1..] == inner[k..]
  {
    HeadChars(inner);
    assert SpliceLabel(inner, tag) == inner[..VarEnd(inner)] + ":" + tag + inner[VarEnd(inner)..];
  }

  lemma {:induction false} EnclosedText(open: char, content: string, close: string, r: string)
    ensures [open] + content + close + r == [open] + content + (close + r)
  {
  }

  /** The text of a list or a pattern and of what follows it. */
  lemma {:induction false} FirstText(ts: seq<Token>, tag: string, open: char, content: string, y: string,
                                     written: string, y': string)
    requires ts != [] && !ts[0].Raw? && UnclosedOnlyLast(ts)
    requires open == (if ts[0].Node? then '(' else '[')
      && content == (if ts[0].Node? then ts[0].inner else ts[0].content)
    requires written == if IsSpliced(ts[0]) then SpliceLabel(content, tag) else content
    requires y == (if ts[0].Node? then ")" else if ts[0].closed then "]" else "") + Sources(ts[1..])
    requires y' == (if ts[0].Node? then ")" else "]") + Targets(ts[1..], tag)
    ensures Sources(ts) == [open] + content + y && Targets(ts, tag) == [open] + written + y'
    ensures IsStopper(y) && IsStopper(y')
  {
    if IsUnclosed(ts[0]) {
      assert ts[1..] == [];
    }
    EnclosedText(open, content, if ts[0].Node? then ")" else if ts[0].closed then "]" else "", Sources(ts[1..]));
    EnclosedText(open, written, if ts[0].Node? then ")" else "]", Targets(ts[1..], tag));
  }

  /** In a copied interior. */
  lemma {:induction false} CopiedImage(s: string, out: string, open: char, content: string, y: string, y': string,
                                       k: nat, tag: string)
    requires IsLabel(tag) && s == [open] + content + y && out == [open] + content + y' && IsStopper(y) && IsStopper(y')
    requires 0 < k <= |content| && content[k - 1] == '('
    ensures IsImageAt(s, out, k, k, false, tag)
  {
    InnerDrop(open, content, y, k);
    InnerDrop(open, content, y', k);
    InnerImage(s, out, k, k, content[k..], y, y', tag);
  }

  /** In a patched interior. */
  lemma {:induction false} PatchedImage(s: string, out: string, inner: string, y: string, patched: string, y': string,
                                        k: nat, i: nat, tag: string)
    requires IsLabel(tag) && s == ['('] + inner + y && out == ['('] + patched + y' && IsStopper(y) && IsStopper(y')
    requires patched == SpliceLabel(inner, tag) && 0 < k <= |inner| && inner[k - 1] == '(' && i == k + |tag| + 1
    ensures k > VarEnd(inner) && IsImageAt(s, out, k, i, false, tag)
  {
    PatchedDrop(inner, tag, k);
    InnerDrop('(', inner, y, k);
    InnerDrop('(', patched, y', i);
    InnerImage(s, out, k, i, inner[k..], y, y', tag);
  }

  /** At the beginning of a pattern. */
  lemma {:induction false} StartImage(s: string, out: string, inner: string, y: string, written: string, y': string,
                                      splice: bool, tag: string)
    requires IsLabel(tag) && s == ['('] + inner + y && out == ['('] + written + y' && IsStopper(y) && IsStopper(y')
    requires written == if splice then SpliceLabel(inner, tag) else inner
    ensures IsImageAt(s, out, 0, 0, splice, tag)
  {
    assert s[1..] == inner + y && out[1..] == written + y';
    if splice {
      PatternImage(s, out, written, y', inner, tag);
    } else {
      InnerImage(s, out, 0, 0, inner, y, y', tag);
    }
  }

  lemma {:induction false} HereIs(ts: seq<Token>, tag: string, k: nat, i: nat, labelled: bool)
    requires ts != [] && k < |Source(ts[0])| && IsImageAt(Sources(ts), Targets(ts, tag), k, i, labelled, tag)
    requires i == if IsSpliced(ts[0]) && k > VarEnd(ts[0].inner) then k + |tag| + 1 else k
    requires labelled <==> IsSpliced(ts[0]) && k == 0
    ensures IsImaged(ts, tag, k)
  {
  }

  lemma {:induction false} RawHere(ts: seq<Token>, tag: string, k: nat)
    requires ts != [] && ts[0].Raw? && IsLabel(tag) && EndsRaw(ts[0]) && k < |ts[0].text| && ts[0].text[k] == '('
    ensures IsImaged(ts, tag, k)
  {
    SameLabelAfter(ts[1..], tag);
    RawImage(ts[0].text, Sources(ts[1..]), Targets(ts[1..], tag), k, tag);
    HereIs(ts, tag, k, k, false);
  }

  lemma {:induction false} PatchedHere(ts: seq<Token>, tag: string, k: nat, i: nat, s: string, out: string,
                                       inner: string, y: string, written: string, y': string)
    requires ts != [] && IsSpliced(ts[0]) && inner == ts[0].inner && IsLabel(tag) && s == Sources(ts)
      && out == Targets(ts, tag)
    requires s == ['('] + inner + y && out == ['('] + written + y' && IsStopper(y) && IsStopper(y')
    requires written == SpliceLabel(inner, tag) && 0 < k <= |inner| && inner[k - 1] == '(' && i == k + |tag| + 1
    ensures IsImaged(ts, tag, k)
  {
    PatchedImage(s, out, inner, y, written, y', k, i, tag);
    HereIs(ts, tag, k, i, false);
  }

  lemma {:induction false} CopiedHere(ts: seq<Token>, tag: string, k: nat, s: string, out: string, open: char,
                                      content: string, y: string, y': string)
    requires ts != [] && !IsSpliced(ts[0]) && IsLabel(tag) && k < |Source(ts[0])| && s == Sources(ts)
      && out == Targets(ts, tag)
    requires s == [open] + content + y && out == [open] + content + y' && IsStopper(y) && IsStopper(y')
    requires 0 < k <= |content| && content[k - 1] == '('
    ensures IsImaged(ts, tag, k)
  {
    CopiedImage(s, out, open, content, y, y', k, tag);
    HereIs(ts, tag, k, k, false);
  }

  lemma {:induction false} StartHere(ts: seq<Token>, tag: string, s: string, out: string, y: string, written: string,
                                     y': string)
    requires ts != [] && ts[0].Node? && IsLabel(tag) && s == Sources(ts) == ['('] + ts[0].inner + y
    requires out == Targets(ts, tag) == ['('] + written + y' && IsStopper(y) && IsStopper(y')
    requires written == if ts[0].splice then SpliceLabel(ts[0].inner, tag) else ts[0].inner
    ensures IsImaged(ts, tag, 0)
  {
    StartImage(s, out, ts[0].inner, y, written, y', ts[0].splice, tag);
    HereIs(ts, tag, 0, 0, ts[0].splice);
  }

  /** A parenthesis in a list or a pattern opens it or is in its interior. */
  lemma {:induction false} CharInside(t: Token, open: char, content: string, k: nat)
    requires !t.Raw? && k < |Source(t)| && Source(t)[k] == '('
    requires open == (if t.Node? then '(' else '[') && content == if t.Node? then t.inner else t.content
    ensures k == 0 ==> t.Node?
    ensures k > 0 ==> k <= |content| && content[k - 1] == '('
  {
  }

  lemma {:induction false} ImageHere(ts: seq<Token>, tag: string, k: nat)
    requires ts != [] && IsLabel(tag) && UnclosedOnlyLast(ts) && EndsRaw(ts[0])
    requires k < |Source(ts[0])| && Source(ts[0])[k] == '('
    ensures IsImaged(ts, tag, k)
  {
    var t, r, r' := ts[0], Sources(ts[1..]), Targets(ts[1..], tag);
    if t.Raw? {
      RawHere(ts, tag, k);
    } else {
      var open, content := if t.Node? then '(' else '[', if t.Node? then t.inner else t.content;
      var written := if IsSpliced(t) then SpliceLabel(content, tag) else content;
      var y := (if t.Node? then ")" else if t.closed then "]" else "") + r;
      var y' := (if t.Node? then ")" else "]") + r';
      CharInside(t, open, content, k);
      FirstText(ts, tag, open, content, y, written, y');
      if k == 0 {
        StartHere(ts, tag, Sources(ts), Targets(ts, tag), y, written, y');
      } else if IsSpliced(t) {
        PatchedHere(ts, tag, k, k + |tag| + 1, Sources(ts), Targets(ts, tag), content, y, written, y');
      } else {
        CopiedHere(ts, tag, k, Sources(ts), Targets(ts, tag), open, content, y, y');
      }
    }
  }

  lemma {:induction false} CharAt(ts: seq<Token>, k: nat, n: nat)
    requires ts != [] && n == |Source(ts[0])| && k < |Sources(ts)| && Sources(ts)[k] == '('
    ensures if k < n then Source(ts[0])[k] == '(' else k - n < |Sources(ts[1..])| && Sources(ts[1..])[k - n] == '('
  {
    assert Sources(ts) == Source(ts[0]) + Sources(ts[1..]);
  }

  lemma {:induction false} RestIsOk(ts: seq<Token>)
    requires ts != [] && UnclosedOnlyLast(ts) && forall t | t in ts :: EndsRaw(t)
    ensures UnclosedOnlyLast(ts[1..]) && EndsRaw(ts[0]) && forall t | t in ts[1..] :: EndsRaw(t)
  {
    assert forall i | 0 <= i < |ts| - 1 :: ts[1..][i] == ts[i + 1];
  }

  lemma {:induction false} ImageOf(ts: seq<Token>, tag: string, k: nat)
    requires IsLabel(tag) && UnclosedOnlyLast(ts) && forall t | t in ts :: EndsRaw(t)
    requires k < |Sources(ts)| && Sources(ts)[k] == '('
    ensures IsImaged(ts, tag, k)
    decreases |ts|
  {
    var a, b := Source(ts[0]), Target(ts[0], tag);
    CharAt(ts, k, |a|);
    RestIsOk(ts);
    if k < |a| {
      ImageHere(ts, tag, k);
    } else {
      var j := k - |a|;
      ImageOf(ts[1..], tag, j);
      ImageLater(ts, tag, k, a, b, j);
    }
  }

  /** The label behind the image of the parenthesis at `k`. */
  predicate IsLabelledIn(cypher: string, tag: string, k: nat)
    requires Inject(cypher, tag).Ok?
  {
    var out, i := Inject(cypher, tag).value, Image(Scan(START, cypher).value, tag, k);
    i < |out| && out[i] == '(' && IsLabelled(out[i + 1..], tag)
  }

  /** A path clause is open there, outside interiors, and it is no reference to a bound variable. */
  predicate IsTaken(cypher: string, k: nat)
    requires Scan(START, cypher).Ok?
  {
    var ts := Scan(START, cypher).value;
    !FateAt(ts, k).Inside? && ClauseAt(None, ts, k).Some? && !IsReferenceAt(ts, k)
  }

  /**
   * For every successful run with plain interiors: a parenthesis that is no call has the label behind it in
   * the output exactly when it is taken for a pattern and no reference, or had the label behind it already.
   */
  lemma {:induction false} LabelledExactly(cypher: string, tag: string, k: nat)
    requires Inject(cypher, tag).Ok? && IsLabel(tag) && PlainQuery(cypher) && IsParenthesis(cypher, k)
    ensures IsLabelledIn(cypher, tag, k) <==> IsTaken(cypher, k) || IsLabelled(cypher[k + 1..], tag)
  {
    ScanShape(START, cypher);
    ScanEndsRaw(START, cypher);
    ImageOf(Scan(START, cypher).value, tag, k);
    ParenthesesAreAccounted(cypher, k);
  }

  /**
   * So the label is behind all of them exactly when each is taken for a pattern and no reference, or had the
   * label behind it already.
   */
  lemma {:induction false} FullyLabelledExactly(cypher: string, tag: string)
    requires Inject(cypher, tag).Ok? && IsLabel(tag) && PlainQuery(cypher)
    ensures (forall k | IsParenthesis(cypher, k) :: IsLabelledIn(cypher, tag, k)) <==>
      forall k | IsParenthesis(cypher, k) :: IsTaken(cypher, k) || IsLabelled(cypher[k + 1..], tag)
  {
    forall k | IsParenthesis(cypher, k)
      ensures IsLabelledIn(cypher, tag, k) <==> IsTaken(cypher, k) || IsLabelled(cypher[k + 1..], tag)
    {
      LabelledExactly(cypher, tag, k);
    }
  }

  lemma {:induction false} NoReferenceAt(ts: seq<Token>, k: nat)
    requires NoBoundReference(NodesOf(ts))
    ensures !IsReferenceAt(ts, k)
  {
    if NodeAt(ts, k).Some? {
      var j := NodeIsIndexed(ts, k);
      assert !IsBoundReference(NodesOf(ts)[j], DeclaredBy(NodesOf(ts)[..j]));
    }
  }

  /** In a query that the write check calls read-only, references do not come into it: only where clauses end does. */
  lemma {:induction false} ReadOnlyIsLabelledExactly(cypher: string, tag: string, k: nat)
    requires Inject(cypher, tag).Ok? && IsLabel(tag) && PlainQuery(cypher) && !HasWrite(cypher)
      && IsParenthesis(cypher, k)
    ensures var ts := Scan(START, cypher).value;
      IsLabelledIn(cypher, tag, k) <==>
        (!FateAt(ts, k).Inside? && ClauseAt(None, ts, k).Some?) || IsLabelled(cypher[k + 1..], tag)
  {
    LabelledExactly(cypher, tag, k);
    ReadOnlyHasNoReference(cypher);
    NoReferenceAt(Scan(START, cypher).value, k);
  }
}
