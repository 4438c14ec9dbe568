/**
 * Where the node patterns of the rewritten query come from: the parentheses that the scanner takes for one,
 * in a path clause. Scanning the output again finds the patterns of the query and nothing else; each carries
 * the label behind its leading name, except the bare references to a variable that an earlier MATCH declared.
 */
module Provenance {
  import opened Prelude
  import opened Detector
  import opened Injector
  import opened InjectorTheorems

  // ---------------------------------------------------------------------------------------------
  // Which patterns are left alone
  // ---------------------------------------------------------------------------------------------

  function NodesOf(ts: seq<Token>): (nodes: seq<Token>)
    ensures forall i | 0 <= i < |nodes| :: nodes[i].Node?
  {
    if ts == [] then [] else (if ts[0].Node? then [ts[0]] else []) + NodesOf(ts[1..])
  }

  /** The variables that the MATCH patterns among `nodes` name. */
  function DeclaredBy(nodes: seq<Token>): set<string> {
    set n | n in nodes && n.Node? && n.clause == Match && VarName(n.inner) != "" :: VarName(n.inner)
  }

  /** A pattern that MERGE or CREATE may only refer to, as `declared` already holds its variable. */
  predicate IsBoundReference(n: Token, declared: set<string>)
    requires n.Node?
  {
    n.clause == CreateOrMerge && IsBareReference(n.inner) && VarName(n.inner) in declared
  }

  predicate Accounted(nodes: seq<Token>, before: set<string>)
    requires forall i | 0 <= i < |nodes| :: nodes[i].Node?
  {
    forall k | 0 <= k < |nodes| :: nodes[k].splice == !IsBoundReference(nodes[k], before + DeclaredBy(nodes[..k]))
  }

  lemma {:induction false} AccountedCons(n: Token, nodes: seq<Token>, before: set<string>)
    requires n.Node? && forall i | 0 <= i < |nodes| :: nodes[i].Node?
    requires n.splice == !IsBoundReference(n, before) && Accounted(nodes, before + DeclaredBy([n]))
    ensures Accounted([n] + nodes, before)
  {
    var all := [n] + nodes;
    forall k | 0 <= k < |all|
      ensures all[k].splice == !IsBoundReference(all[k], before + DeclaredBy(all[..k]))
    {
      if k == 0 {
        assert DeclaredBy(all[..0]) == {};
        assert before + {} == before;
      } else {
        assert all[..k] == [n] + nodes[..k - 1];
        assert DeclaredBy(all[..k]) == DeclaredBy([n]) + DeclaredBy(nodes[..k - 1]);
        assert before + DeclaredBy(all[..k]) == before + DeclaredBy([n]) + DeclaredBy(nodes[..k - 1]);
      }
    }
  }

  lemma {:induction false} NodeAccounts(c: Context, s: string)
    requires s != "" && s[0] == '(' && c.clause.Some? && NodeStep(c, s).Take?
    ensures var t := NodeStep(c, s).token;
      t.splice == !IsBoundReference(t, c.bound) && NodeStep(c, s).next.bound == c.bound + DeclaredBy([t])
  {
    var t := NodeStep(c, s).token;
    assert DeclaredBy([t]) == if t.clause == Match && VarName(t.inner) != "" then {VarName(t.inner)} else {};
  }

  lemma {:induction false} ScanAccounts(c: Context, s: string)
    requires Scan(c, s).Ok?
    ensures Accounted(NodesOf(Scan(c, s).value), c.bound)
    decreases s
  {
    if s == "" {
    } else {
      var t, c' := Next(c, s).token, Next(c, s).next;
      var rest := s[|Source(t)|..];
      ScanAccounts(c', rest);
      ScanNodes(c, t, c', rest, s);
      var nodes := NodesOf(Scan(c', rest).value);
      if t.Node? {
        NodeAccounts(c, s);
        AccountedCons(t, nodes, c.bound);
      } else {
        assert [] + nodes == nodes;
      }
    }
  }

  // ---------------------------------------------------------------------------------------------
  // Scanning the output again
  // ---------------------------------------------------------------------------------------------

  lemma {:induction false} NodeLenLocal(q: Interior, s: string, s': string, n: nat)
    requires NodeLen(q, s) == Some(n) && n < |s'| && s'[..n + 1] == s[..n + 1]
    ensures NodeLen(q, s') == Some(n)
    decreases n
  {
    assert s[0] == s[..n + 1][0] == s'[..n + 1][0] == s'[0];
    if !Closes(q, s[0]) {
      assert s'[1..][..n] == s'[..n + 1][1..] == s[..n + 1][1..] == s[1..][..n];
      NodeLenLocal(Inside(q, s[0]), s[1..], s'[1..], n - 1);
    }
  }

  /** Characters of a variable, of a label and between them do not move the node-pattern scanner. */
  lemma {:induction false} NodeLenSkips(a: string, s: string)
    requires forall i | 0 <= i < |a| :: IsSpace(a[i]) || IsVarChar(a[i]) || a[i] == ':'
    ensures NodeLen(INTERIOR, a + s) == match NodeLen(INTERIOR, s) case None => None case Some(n) => Some(|a| + n)
    decreases a
  {
    if a == "" {
      assert a + s == s;
    } else {
      assert (a + s)[1..] == a[1..] + s;
      assert Inside(INTERIOR, a[0]) == INTERIOR;
      NodeLenSkips(a[1..], s);
    }
  }

  lemma {:induction false} HeadChars(inner: string)
    ensures forall i | 0 <= i < VarEnd(inner) :: IsSpace(inner[i]) || IsVarChar(inner[i])
  {
  }

  lemma {:induction false} NodeLenTail(a: string, rest: string, rest': string)
    requires NodeLen(INTERIOR, a + ")" + rest) == Some(|a|)
    ensures NodeLen(INTERIOR, a + ")" + rest') == Some(|a|)
  {
    assert (a + ")" + rest)[..|a| + 1] == a + ")" == (a + ")" + rest')[..|a| + 1];
    NodeLenLocal(INTERIOR, a + ")" + rest, a + ")" + rest', |a|);
  }

  lemma {:induction false} NodeLenWide(wide: string, after: string, rest: string)
    requires forall i | 0 <= i < |wide| :: IsSpace(wide[i]) || IsVarChar(wide[i]) || wide[i] == ':'
    requires NodeLen(INTERIOR, after + ")" + rest) == Some(|after|)
    ensures NodeLen(INTERIOR, wide + after + ")" + rest) == Some(|wide + after|)
  {
    assert wide + after + ")" + rest == wide + (after + ")" + rest);
    NodeLenSkips(wide, after + ")" + rest);
  }

  lemma {:induction false} NodeLenAfterVar(inner: string, rest: string)
    requires NodeLen(INTERIOR, inner + ")" + rest) == Some(|inner|)
    ensures NodeLen(INTERIOR, AfterVar(inner) + ")" + rest) == Some(|AfterVar(inner)|)
  {
    var head, after := inner[..VarEnd(inner)], AfterVar(inner);
    HeadChars(inner);
    assert inner + ")" + rest == head + (after + ")" + rest);
    NodeLenSkips(head, after + ")" + rest);
  }

  lemma {:induction false} WideChars(inner: string, tag: string, wide: string)
    requires IsLabel(tag) && wide == inner[..VarEnd(inner)] + ":" + tag
    ensures forall i | 0 <= i < |wide| :: IsSpace(wide[i]) || IsVarChar(wide[i]) || wide[i] == ':'
  {
    HeadChars(inner);
  }

  lemma {:induction false} NodeLenAgain(inner: string, tag: string, rest: string, rest': string)
    requires IsLabel(tag) && NodeLen(INTERIOR, inner + ")" + rest) == Some(|inner|)
    ensures NodeLen(INTERIOR, SpliceLabel(inner, tag) + ")" + rest') == Some(|SpliceLabel(inner, tag)|)
  {
    var after, wide := AfterVar(inner), inner[..VarEnd(inner)] + ":" + tag;
    NodeLenAfterVar(inner, rest);
    NodeLenTail(after, rest, rest');
    WideChars(inner, tag, wide);
    NodeLenWide(wide, after, rest');
  }

  /** The same characters before position `e`, and then one that ends both counts. */
  lemma {:induction false} SameVar(inner: string, patched: string)
    requires VarEnd(inner) < |patched| && patched[..VarEnd(inner)] == inner[..VarEnd(inner)]
    requires patched[VarEnd(inner)] == ':'
    ensures VarStart(patched) == VarStart(inner) && VarEnd(patched) == VarEnd(inner)
  {
    var a, e := VarStart(inner), VarEnd(inner);
    forall i | 0 <= i < e ensures patched[i] == inner[i] {
      assert patched[i] == patched[..e][i];
    }
    assert a < e ==> inner[a] == inner[a..][0];
    PrefixLenIs(patched, Space, a);
    forall i | 0 <= i < e - a ensures IsVarChar(patched[a..][i]) {
      assert patched[a..][i] == inner[a..][i];
    }
    PrefixLenIs(patched[a..], VarChar, e - a);
  }

  lemma {:induction false} SpliceParts(inner: string, tag: string)
    ensures var patched := SpliceLabel(inner, tag);
      && VarStart(patched) == VarStart(inner) && VarEnd(patched) == VarEnd(inner)
      && VarName(patched) == VarName(inner)
      && AfterVar(patched) == ":" + tag + AfterVar(inner)
      && !IsBareReference(patched)
  {
    var patched, e := SpliceLabel(inner, tag), VarEnd(inner);
    assert patched[..e] == inner[..e];
    SameVar(inner, patched);
    assert VarName(patched) == patched[..e][VarStart(inner)..] == VarName(inner);
    assert AfterVar(patched) == ":" + tag + AfterVar(inner);
    assert AfterVar(patched)[0] == ':';
  }

  lemma {:induction false} BracketLenLocal(q: Quote, depth: nat, s: string, s': string, n: nat)
    requires depth > 0 && BracketLen(q, depth, s) == n < |s| && n < |s'| && s'[..n + 1] == s[..n + 1]
    ensures BracketLen(q, depth, s') == n
    decreases n
  {
    assert s[0] == s[..n + 1][0] == s'[..n + 1][0] == s'[0];
    if n > 0 {
      assert s'[1..][..n] == s'[..n + 1][1..] == s[..n + 1][1..] == s[1..][..n];
      if q != Outside || (s[0] != '[' && s[0] != ']') {
        BracketLenLocal(Toggle(q, s[0]), depth, s[1..], s'[1..], n - 1);
      } else if s[0] == '[' {
        BracketLenLocal(q, depth + 1, s[1..], s'[1..], n - 1);
      } else {
        BracketLenLocal(q, depth - 1, s[1..], s'[1..], n - 1);
      }
    }
  }

  /** A bracket that never closes swallows the `]` that the rewriter appends, too. */
  lemma {:induction false} BracketLenUnclosed(q: Quote, depth: nat, s: string)
    requires depth > 0 && BracketLen(q, depth, s) == |s|
    ensures BracketLen(q, depth, s + "]") >= |s|
    decreases s
  {
    if s == "" {
    } else {
      assert (s + "]")[1..] == s[1..] + "]";
      if q != Outside || (s[0] != '[' && s[0] != ']') {
        BracketLenUnclosed(Toggle(q, s[0]), depth, s[1..]);
      } else if s[0] == '[' {
        BracketLenUnclosed(q, depth + 1, s[1..]);
      } else {
        BracketLenUnclosed(q, depth - 1, s[1..]);
      }
    }
  }

  /** The token that the scanner finds in the output in place of `t`. */
  function Again(t: Token, tag: string): Token {
    if IsSpliced(t) then t.(inner := SpliceLabel(t.inner, tag)) else t
  }

  /** Both texts are over, or both go on with the same character. */
  predicate SameFirst(s: string, s': string) {
    (s == "") == (s' == "") && (s != "" ==> s[0] == s'[0])
  }

  lemma {:induction false} WordAgain(c: Context, s: string, rest': string)
    requires s != "" && IsIdent(s[0])
    requires SameFirst(s[PrefixLen(s, Ident)..], rest')
    ensures WordStep(c, s[..PrefixLen(s, Ident)] + rest') == WordStep(c, s)
  {
    var n := PrefixLen(s, Ident);
    var s' := s[..n] + rest';
    assert s'[..n] == s[..n];
    PrefixLenIs(s', Ident, n);
  }

  lemma {:induction false} InnerKept(s: string, n: nat, rest': string)
    requires s != "" && NodeLen(INTERIOR, s[1..]) == Some(n)
    ensures var s' := "(" + s[1..1 + n] + ")" + rest';
      NodeLen(INTERIOR, s'[1..]) == Some(n) && s'[1..1 + n] == s[1..1 + n]
  {
    var s' := "(" + s[1..1 + n] + ")" + rest';
    assert s[1..][n] == ')' && s[1..][..n] == s[1..1 + n];
    assert s[1..][..n + 1] == s[1..][..n] + ")";
    assert s'[1..] == s[1..1 + n] + ")" + rest';
    assert s'[1..][..n + 1] == s[1..1 + n] + ")";
    NodeLenLocal(INTERIOR, s[1..], s'[1..], n);
  }

  lemma {:induction false} Enclosed(open: string, text: string, close: string, rest: string)
    requires |open| == 1
    ensures (open + text + close + rest)[1..] == text + close + rest
    ensures (open + text + close + rest)[1..1 + |text|] == text
  {
  }

  lemma {:induction false} InnerPatched(s: string, n: nat, tag: string, rest': string)
    requires s != "" && NodeLen(INTERIOR, s[1..]) == Some(n) && IsLabel(tag)
    ensures var patched := SpliceLabel(s[1..1 + n], tag);
      var s' := "(" + patched + ")" + rest';
      NodeLen(INTERIOR, s'[1..]) == Some(|patched|) && s'[1..1 + |patched|] == patched
  {
    var inner := s[1..1 + n];
    assert s[1..] == inner + ")" + s[2 + n..];
    NodeLenAgain(inner, tag, s[2 + n..], rest');
    Enclosed("(", SpliceLabel(inner, tag), ")", rest');
  }

  lemma {:induction false} TakePatched(c: Context, inner: string, tag: string)
    requires c.clause.Some? && NodeTake(c, inner).token.splice
    ensures NodeTake(c, SpliceLabel(inner, tag)) == Take(Again(NodeTake(c, inner).token, tag), NodeTake(c, inner).next)
  {
    SpliceParts(inner, tag);
  }

  lemma {:induction false} NodeStepIs(c: Context, s: string, inner: string)
    requires s != "" && s[0] == '(' && c.clause.Some?
    requires NodeLen(INTERIOR, s[1..]) == Some(|inner|) && s[1..1 + |inner|] == inner
    ensures NodeStep(c, s) == NodeTake(c, inner)
  {
  }

  lemma {:induction false} NodeAgainKept(c: Context, s: string, n: nat, rest': string)
    requires s != "" && s[0] == '(' && c.clause.Some? && NodeLen(INTERIOR, s[1..]) == Some(n)
    ensures NodeStep(c, "(" + s[1..1 + n] + ")" + rest') == NodeTake(c, s[1..1 + n])
  {
    InnerKept(s, n, rest');
    NodeStepIs(c, "(" + s[1..1 + n] + ")" + rest', s[1..1 + n]);
  }

  lemma {:induction false} NodeAgainPatched(c: Context, s: string, n: nat, tag: string, rest': string)
    requires s != "" && s[0] == '(' && c.clause.Some? && NodeLen(INTERIOR, s[1..]) == Some(n) && IsLabel(tag)
    ensures var patched := SpliceLabel(s[1..1 + n], tag);
      NodeStep(c, "(" + patched + ")" + rest') == NodeTake(c, patched)
  {
    InnerPatched(s, n, tag, rest');
    var patched := SpliceLabel(s[1..1 + n], tag);
    NodeStepIs(c, "(" + patched + ")" + rest', patched);
  }

  lemma {:induction false} NodeAgain(c: Context, s: string, n: nat, tag: string, rest': string)
    requires s != "" && s[0] == '(' && c.clause.Some? && NodeLen(INTERIOR, s[1..]) == Some(n) && IsLabel(tag)
    ensures var r := NodeTake(c, s[1..1 + n]);
      NodeStep(c, Target(r.token, tag) + rest') == Take(Again(r.token, tag), r.next)
  {
    var inner := s[1..1 + n];
    if NodeTake(c, inner).token.splice {
      NodeAgainPatched(c, s, n, tag, rest');
      TakePatched(c, inner, tag);
    } else {
      NodeAgainKept(c, s, n, rest');
    }
  }

  lemma {:induction false} BracketAgain(c: Context, s: string, rest': string)
    requires s != "" && s[0] == '[' && BracketLen(Outside, 1, s[1..]) + 1 < |s|
    ensures var n := BracketLen(Outside, 1, s[1..]);
      var s' := "[" + s[1..1 + n] + "]" + rest';
      BracketLen(Outside, 1, s'[1..]) == n && s'[1..1 + n] == s[1..1 + n]
  {
    var n := BracketLen(Outside, 1, s[1..]);
    var s' := "[" + s[1..1 + n] + "]" + rest';
    assert s'[1..][..n + 1] == s[1..1 + n] + "]" == s[1..][..n + 1];
    BracketLenLocal(Outside, 1, s[1..], s'[1..], n);
  }

  lemma {:induction false} RawAgain(c: Context, s: string, text: string, rest': string)
    requires s != "" && c.lex != Normal && Next(c, s).token == Raw(text) && SameFirst(s[|text|..], rest')
    ensures Next(c, text + rest') == Next(c, s)
  {
    var s' := text + rest';
    assert |text| < |s| ==> |text| < |s'| && s'[|text|] == s[|text|];
    assert s'[0] == s[0] && (|text| > 1 ==> s'[1] == s[1]);
    assert s'[..|text|] == text == s[..|text|];
  }

  lemma {:induction false} RawNormalAgain(c: Context, s: string, r: Step, text: string, rest': string)
    requires s != "" && c.lex == Normal && !IsIdent(s[0])
    requires r == NormalStep(c, s) && r.Take? && r.token == Raw(text) && SameFirst(s[|text|..], rest')
    ensures NormalStep(c, text + rest') == r
  {
    var s' := text + rest';
    assert |text| < |s| ==> |text| < |s'| && s'[|text|] == s[|text|];
    assert s'[0] == s[0] && (|text| > 1 ==> s'[1] == s[1]);
    assert s'[..|text|] == text == s[..|text|];
  }

  lemma {:induction false} BracketNextAgain(c: Context, s: string, r: Step, rest': string)
    requires s != "" && c.lex == Normal && s[0] == '[' && r == NormalStep(c, s) && r.Take? && !IsUnclosed(r.token)
    ensures NormalStep(c, Source(r.token) + rest') == r
  {
    BracketAgain(c, s, rest');
  }

  lemma {:induction false} WordNextAgain(c: Context, s: string, r: Step, rest': string)
    requires s != "" && c.lex == Normal && IsIdent(s[0])
    requires r == NormalStep(c, s) && r.Take? && SameFirst(s[|Source(r.token)|..], rest')
    ensures NormalStep(c, Source(r.token) + rest') == r
  {
    WordAgain(c, s, rest');
  }

  lemma {:induction false} NodeNextAgain(c: Context, s: string, n: nat, r: Step, tag: string, rest': string)
    requires s != "" && s[0] == '(' && c.clause.Some? && c.lex == Normal && !c.lastIdent && IsLabel(tag)
    requires NodeLen(INTERIOR, s[1..]) == Some(n) && r == NodeTake(c, s[1..1 + n])
    ensures Next(c, Target(r.token, tag) + rest') == Take(Again(r.token, tag), r.next)
  {
    NodeAgain(c, s, n, tag, rest');
    assert (Target(r.token, tag) + rest')[0] == '(';
  }

  lemma {:induction false} NormalAgain(c: Context, s: string, r: Step, rest': string)
    requires s != "" && c.lex == Normal && r == NormalStep(c, s) && r.Take? && !r.token.Node?
    requires !IsUnclosed(r.token) && SameFirst(s[|Source(r.token)|..], rest')
    ensures NormalStep(c, Source(r.token) + rest') == r
  {
    if s[0] == '[' {
      BracketNextAgain(c, s, r, rest');
    } else if IsIdent(s[0]) {
      WordNextAgain(c, s, r, rest');
    } else {
      RawNormalAgain(c, s, r, r.token.text, rest');
    }
  }

  /** A token in the output is found again, whatever follows it, as long as that starts the same way. */
  lemma {:induction false} NextAgain(c: Context, s: string, tag: string, rest': string)
    requires s != "" && Next(c, s).Take? && IsLabel(tag) && !IsUnclosed(Next(c, s).token)
    requires SameFirst(s[|Source(Next(c, s).token)|..], rest')
    ensures var t := Next(c, s).token; Next(c, Target(t, tag) + rest') == Take(Again(t, tag), Next(c, s).next)
  {
    var t := Next(c, s).token;
    if t.Node? {
      NodeNextAgain(c, s, NodeLen(INTERIOR, s[1..]).value, Next(c, s), tag, rest');
    } else {
      assert Target(t, tag) == Source(t) && Again(t, tag) == t;
      if c.lex == Normal {
        NormalAgain(c, s, Next(c, s), rest');
      } else {
        RawAgain(c, s, t.text, rest');
      }
    }
  }

  function AgainAll(nodes: seq<Token>, tag: string): (r: seq<Token>)
    ensures |r| == |nodes|
  {
    seq(|nodes|, i requires 0 <= i < |nodes| => Again(nodes[i], tag))
  }

  lemma {:induction false} LastBracketAgain(c: Context, s: string, tag: string)
    requires s != "" && Next(c, s).Take? && IsUnclosed(Next(c, s).token)
    ensures var out := Target(Next(c, s).token, tag);
      Next(c, out).Take? && Next(c, out).token.Bracket? && Source(Next(c, out).token) == out
  {
    var content := s[1..];
    assert s == "[" + content && content == Next(c, s).token.content;
    BracketLenUnclosed(Outside, 1, content);
    assert Target(Next(c, s).token, tag) == "[" + content + "]";
    assert ("[" + content + "]")[1..] == content + "]";
    var n := BracketLen(Outside, 1, content + "]");
    assert n == |content| || n == |content| + 1;
  }

  lemma {:induction false} NodesCons(t: Token, ts: seq<Token>)
    ensures NodesOf([t] + ts) == (if t.Node? then [t] else []) + NodesOf(ts)
  {
  }

  lemma {:induction false} ScanNodes(c: Context, t: Token, c': Context, rest: string, s: string)
    requires s != "" && Next(c, s) == Take(t, c') && s[|Source(t)|..] == rest && Scan(c', rest).Ok?
    ensures Scan(c, s) == Ok([t] + Scan(c', rest).value)
    ensures NodesOf(Scan(c, s).value) == (if t.Node? then [t] else []) + NodesOf(Scan(c', rest).value)
  {
    ScanCons(c, t, c', rest, s);
    NodesCons(t, Scan(c', rest).value);
  }

  lemma {:induction false} TargetsCons(t: Token, ts: seq<Token>, tag: string)
    ensures Targets([t] + ts, tag) == Target(t, tag) + Targets(ts, tag)
  {
  }

  /** What the second scan must find. */
  predicate FoundAgain(c: Context, s: string, out: string, tag: string)
    requires Scan(c, s).Ok?
  {
    && SameFirst(s, out)
    && Scan(c, out).Ok?
    && NodesOf(Scan(c, out).value) == AgainAll(NodesOf(Scan(c, s).value), tag)
  }

  lemma {:induction false} RescanLast(c: Context, s: string, tag: string)
    requires s != "" && Next(c, s).Take? && IsUnclosed(Next(c, s).token)
    ensures Scan(c, s).Ok? && FoundAgain(c, s, Targets(Scan(c, s).value, tag), tag)
  {
    var t, out := Next(c, s).token, Target(Next(c, s).token, tag);
    ScanNodes(c, t, Next(c, s).next, "", s);
    TargetsCons(t, [], tag);
    assert Target(t, tag) + "" == out;
    LastBracketAgain(c, s, tag);
    ScanNodes(c, Next(c, out).token, Next(c, out).next, "", out);
  }

  lemma {:induction false} NodesAgain(t: Token, ts: seq<Token>, ts': seq<Token>, tag: string)
    requires NodesOf(ts') == AgainAll(NodesOf(ts), tag)
    ensures (if t.Node? then [Again(t, tag)] else []) + NodesOf(ts')
            == AgainAll((if t.Node? then [t] else []) + NodesOf(ts), tag)
  {
  }

  lemma {:induction false} RescanFirst(c: Context, s: string, t: Token, c': Context, rest: string, out': string,
                                       tag: string)
    requires s != "" && Next(c, s) == Take(t, c') && !IsUnclosed(t) && IsLabel(tag)
    requires rest == s[|Source(t)|..]
    requires Scan(c', rest).Ok? && FoundAgain(c', rest, out', tag)
    ensures Scan(c, s).Ok? && FoundAgain(c, s, Target(t, tag) + out', tag)
  {
    var out := Target(t, tag) + out';
    NextAgain(c, s, tag, out');
    assert Source(Again(t, tag)) == Target(t, tag);
    assert out[|Target(t, tag)|..] == out';
    ScanNodes(c, t, c', rest, s);
    ScanNodes(c, Again(t, tag), c', out', out);
    NodesAgain(t, Scan(c', rest).value, Scan(c', out').value, tag);
    assert out[0] == Target(t, tag)[0] == Source(t)[0] == s[0];
  }

  lemma {:induction false} Rescan(c: Context, s: string, tag: string)
    requires Scan(c, s).Ok? && IsLabel(tag)
    ensures FoundAgain(c, s, Targets(Scan(c, s).value, tag), tag)
    decreases s
  {
    if s == "" {
    } else {
      var t, c' := Next(c, s).token, Next(c, s).next;
      if IsUnclosed(t) {
        RescanLast(c, s, tag);
      } else {
        var rest := s[|Source(t)|..];
        Rescan(c', rest, tag);
        TargetsCons(t, Scan(c', rest).value, tag);
        RescanFirst(c, s, t, c', rest, Targets(Scan(c', rest).value, tag), tag);
      }
    }
  }

  /** `:tag` stands right after the optional variable, and is not the start of a longer label. */
  predicate IsLabelled(inner: string, tag: string) {
    var after, n := AfterVar(inner), |tag| + 1;
    n <= |after| && after[..n] == ":" + tag && (n < |after| ==> !IsIdent(after[n]))
  }

  lemma {:induction false} SplicedIsLabelled(inner: string, tag: string)
    ensures IsLabelled(SpliceLabel(inner, tag), tag)
  {
    SpliceParts(inner, tag);
    var after := AfterVar(SpliceLabel(inner, tag));
    assert after[..|tag| + 1] == ":" + tag;
    if |tag| + 1 < |after| {
      assert after[|tag| + 1] == AfterVar(inner)[0];
    }
  }

  lemma {:induction false} BareIsNotLabelled(inner: string, tag: string)
    requires IsBareReference(inner)
    ensures !IsLabelled(inner, tag)
  {
    var after := AfterVar(inner);
    if |tag| + 1 <= |after| {
      assert after[..|tag| + 1][0] == after[0] && IsSpace(after[0]) && (":" + tag)[0] == ':';
    }
  }

  /**
   * In the output of every successful run, a node pattern of a path clause carries the label if and
   * only if it is not a bare MERGE or CREATE reference to a variable that an earlier MATCH pattern of
   * the same output declares; that earlier pattern carries the label itself.
   */
  lemma {:induction false} OutputProvenance(cypher: string, tag: string)
    requires Inject(cypher, tag).Ok? && IsLabel(tag)
    ensures var scan := Scan(START, Inject(cypher, tag).value);
      && scan.Ok?
      && var nodes := NodesOf(scan.value);
      && |nodes| == |NodesOf(Scan(START, cypher).value)|
      && forall k | 0 <= k < |nodes| ::
        && (IsLabelled(nodes[k].inner, tag) <==> !IsBoundReference(nodes[k], DeclaredBy(nodes[..k])))
        && (IsLabelled(nodes[k].inner, tag) || exists j | 0 <= j < k ::
              && nodes[j].clause == Match && VarName(nodes[j].inner) == VarName(nodes[k].inner)
              && IsLabelled(nodes[j].inner, tag))
  {
    Rescan(START, cypher, tag);
    var out := Inject(cypher, tag).value;
    ScanAccounts(START, out);
    var nodes, was := NodesOf(Scan(START, out).value), NodesOf(Scan(START, cypher).value);
    forall k | 0 <= k < |nodes|
      ensures nodes[k].splice == !IsBoundReference(nodes[k], DeclaredBy(nodes[..k]))
      ensures IsLabelled(nodes[k].inner, tag) <==> nodes[k].splice
    {
      assert {} + DeclaredBy(nodes[..k]) == DeclaredBy(nodes[..k]);
      assert nodes[k] == Again(was[k], tag);
      if was[k].splice {
        SplicedIsLabelled(was[k].inner, tag);
      } else {
        BareIsNotLabelled(nodes[k].inner, tag);
      }
    }
    forall k | 0 <= k < |nodes| && !IsLabelled(nodes[k].inner, tag)
      ensures exists j | 0 <= j < k ::
        && nodes[j].clause == Match && VarName(nodes[j].inner) == VarName(nodes[k].inner)
        && IsLabelled(nodes[j].inner, tag)
    {
      var n :| n in nodes[..k] && n.clause == Match && VarName(n.inner) == VarName(nodes[k].inner);
      var j :| 0 <= j < k && nodes[j] == n;
      assert nodes[j].splice;
    }
  }

  predicate IsFullyLabelled(nodes: seq<Token>, tag: string)
    requires forall i | 0 <= i < |nodes| :: nodes[i].Node?
  {
    forall k | 0 <= k < |nodes| :: IsLabelled(nodes[k].inner, tag)
  }

  /** No MERGE or CREATE pattern is a bare reference to a variable of an earlier MATCH pattern. */
  predicate NoBoundReference(nodes: seq<Token>)
    requires forall i | 0 <= i < |nodes| :: nodes[i].Node?
  {
    forall k | 0 <= k < |nodes| :: !IsBoundReference(nodes[k], DeclaredBy(nodes[..k]))
  }

  lemma {:induction false} AgainIsLabelled(n: Token, tag: string)
    requires n.Node? && (n.splice || IsBareReference(n.inner))
    ensures IsLabelled(Again(n, tag).inner, tag) <==> n.splice
  {
    if n.splice {
      SplicedIsLabelled(n.inner, tag);
    } else {
      BareIsNotLabelled(n.inner, tag);
    }
  }

  /** A test on the query: every pattern of the output carries the label exactly when none is such a reference. */
  lemma {:induction false} TakenAreLabelledExactly(cypher: string, tag: string)
    requires Inject(cypher, tag).Ok? && IsLabel(tag)
    ensures var scan := Scan(START, Inject(cypher, tag).value);
      scan.Ok? && (IsFullyLabelled(NodesOf(scan.value), tag) <==> NoBoundReference(NodesOf(Scan(START, cypher).value)))
  {
    Rescan(START, cypher, tag);
    ScanAccounts(START, cypher);
    var nodes, was := NodesOf(Scan(START, Inject(cypher, tag).value).value), NodesOf(Scan(START, cypher).value);
    forall k | 0 <= k < |was|
      ensures IsLabelled(nodes[k].inner, tag) <==> !IsBoundReference(was[k], DeclaredBy(was[..k]))
    {
      assert {} + DeclaredBy(was[..k]) == DeclaredBy(was[..k]);
      AgainIsLabelled(was[k], tag);
    }
  }
}
