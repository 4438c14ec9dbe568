/**
 * The write-operator pre-flight check (rb-storage-neo4j, write_check.rs).
 *
 * The specification is an automaton that reads one character at a time and never looks ahead; the
 * methods are the scanner `has_write_operators`, which jumps over two-character tokens and whole words.
 */
module Detector {
  import opened Prelude

  predicate EqCi(a: string, upper: string) {
    |a| == |upper| && forall i | 0 <= i < |a| :: ToUpper(a[i]) == upper[i]
  }

  predicate IsWriteKeyword(word: string) {
    match |word|
    case 3 => EqCi(word, "SET")
    case 5 => EqCi(word, "MERGE")
    case 6 => EqCi(word, "CREATE") || EqCi(word, "DELETE") || EqCi(word, "DETACH") || EqCi(word, "REMOVE")
    case _ => false
  }

  datatype Mode =
    | Plain
    | Word(word: string)
    | Slash
    | Single(escaped: bool)
    | Double(escaped: bool)
    | Backtick
    | Line
    | Block(star: bool)
    | Found

  function FromPlain(c: char): Mode {
    if c == '\'' then Single(false)
    else if c == '"' then Double(false)
    else if c == '`' then Backtick
    else if c == '/' then Slash
    else if IsLetter(c) || c == '_' then Word([c])
    else Plain
  }

  function Read(m: Mode, c: char): Mode {
    match m
    case Plain => FromPlain(c)
    case Word(w) => if IsIdent(c) then Word(w + [c]) else if IsWriteKeyword(w) then Found else FromPlain(c)
    case Slash => if c == '/' then Line else if c == '*' then Block(false) else FromPlain(c)
    case Single(true) => Single(false)
    case Single(false) => if c == '\\' then Single(true) else if c == '\'' then Plain else m
    case Double(true) => Double(false)
    case Double(false) => if c == '\\' then Double(true) else if c == '"' then Plain else m
    case Backtick => if c == '`' then Plain else m
    case Line => if c == '\n' then Plain else m
    case Block(star) => if star && c == '/' then Plain else Block(c == '*')
    case Found => Found
  }

  function Run(m: Mode, s: string): Mode
    decreases s
  {
    if s == "" then m else Run(Read(m, s[0]), s[1..])
  }

  predicate Detects(m: Mode) {
    m.Found? || (m.Word? && IsWriteKeyword(m.word))
  }

  /** The six states of the index-based scanners, and where each stands in the automaton. */
  datatype Lex = Normal | SingleQuote | DoubleQuote | InBacktick | LineComment | BlockComment

  function ModeOf(lex: Lex): Mode {
    match lex
    case Normal => Plain
    case SingleQuote => Single(false)
    case DoubleQuote => Double(false)
    case InBacktick => Backtick
    case LineComment => Line
    case BlockComment => Block(false)
  }

  /** What the check answers for a whole query. */
  predicate HasWrite(s: string) {
    Detects(Run(Plain, s))
  }

  lemma {:induction false} RunConcat(m: Mode, a: string, b: string)
    ensures Run(m, a + b) == Run(Run(m, a), b)
    decreases a
  {
    if a == "" {
      assert a + b == b;
    } else {
      assert (a + b)[1..] == a[1..] + b;
      RunConcat(Read(m, a[0]), a[1..], b);
    }
  }

  lemma {:induction false} RunOne(m: Mode, c: char)
    ensures Run(m, [c]) == Read(m, c)
  {
  }

  lemma {:induction false} FoundStays(s: string)
    ensures Run(Found, s) == Found
    decreases s
  {
    if s == "" {
    } else {
      FoundStays(s[1..]);
    }
  }

  /** A finished word is judged once; after it the automaton carries on as if it had not been there. */
  lemma {:induction false} WordEnds(w: string, s: string)
    requires s == "" || !IsIdent(s[0])
    ensures Detects(Run(Word(w), s)) == (IsWriteKeyword(w) || Detects(Run(Plain, s)))
  {
    if s != "" && IsWriteKeyword(w) {
      FoundStays(s[1..]);
    }
  }

  /** The answer for the rest `s` of a text, when the index-based scanner stands in state `lex`. */
  predicate Sees(lex: Lex, s: string) {
    Detects(Run(ModeOf(lex), s))
  }

  lemma {:induction false} TwoSteps(m: Mode, s: string)
    requires |s| > 1
    ensures Run(m, s) == Run(Read(Read(m, s[0]), s[1]), s[2..])
  {
  }

  lemma {:induction false} EndStep(m: Mode, s: string)
    requires |s| == 1
    ensures s[1..] == "" && Run(m, s) == Read(m, s[0])
  {
  }

  // What each jump of the scanner skips. The automaton gets there one character at a time.

  lemma {:induction false} SeesQuoted(lex: Lex, quote: char, s: string)
    requires s != "" && ((lex == SingleQuote && quote == '\'') || (lex == DoubleQuote && quote == '"'))
    ensures s[0] == '\\' && |s| > 1 ==> Sees(lex, s) == Sees(lex, s[2..])
    ensures !(s[0] == '\\' && |s| > 1) ==> Sees(lex, s) == Sees(if s[0] == quote then Normal else lex, s[1..])
  {
    if s[0] == '\\' {
      if |s| > 1 {
        TwoSteps(ModeOf(lex), s);
      } else {
        EndStep(ModeOf(lex), s);
      }
    }
  }

  lemma {:induction false} SeesComment(lex: Lex, s: string)
    requires s != "" && lex in {InBacktick, LineComment}
    ensures Sees(lex, s) == Sees(if s[0] == (if lex == LineComment then '\n' else '`') then Normal else lex, s[1..])
  {
  }

  lemma {:induction false} SeesBlock(s: string)
    requires s != ""
    ensures s[0] == '*' && |s| > 1 && s[1] == '/' ==> Sees(BlockComment, s) == Sees(Normal, s[2..])
    ensures !(s[0] == '*' && |s| > 1 && s[1] == '/') ==> Sees(BlockComment, s) == Sees(BlockComment, s[1..])
  {
    if |s| > 1 {
      TwoSteps(Block(false), s);
      TwoSteps(Block(true), s);
      assert s[1..][1..] == s[2..];
    } else {
      EndStep(Block(false), s);
    }
  }

  lemma {:induction false} SeesSlash(s: string)
    requires s != "" && s[0] == '/'
    ensures |s| > 1 && s[1] == '/' ==> Sees(Normal, s) == Sees(LineComment, s[2..])
    ensures |s| > 1 && s[1] == '*' ==> Sees(Normal, s) == Sees(BlockComment, s[2..])
    ensures |s| == 1 || (s[1] != '/' && s[1] != '*') ==> Sees(Normal, s) == Sees(Normal, s[1..])
  {
    if |s| > 1 {
      TwoSteps(Plain, s);
      assert s[1..][1..] == s[2..];
    } else {
      EndStep(Plain, s);
    }
  }

  lemma {:induction false} SeesOther(s: string)
    requires s != "" && s[0] != '/' && !IsLetter(s[0]) && s[0] != '_'
    ensures Sees(Normal, s) == Sees(
      if s[0] == '\'' then SingleQuote
      else if s[0] == '"' then DoubleQuote
      else if s[0] == '`' then InBacktick
      else Normal,
      s[1..])
  {
  }

  lemma {:induction false} SeesWord(w: string, s: string, n: nat)
    requires n <= |s| && (forall k | 0 <= k < n :: IsIdent(s[k])) && (n < |s| ==> !IsIdent(s[n]))
    ensures Detects(Run(Word(w), s)) == (IsWriteKeyword(w + s[..n]) || Sees(Normal, s[n..]))
    decreases n
  {
    if n == 0 {
      assert w + s[..0] == w && s[0..] == s;
      WordEnds(w, s);
    } else {
      SeesWord(w + [s[0]], s[1..], n - 1);
      assert w + [s[0]] + s[1..][..n - 1] == w + s[..n];
      assert s[1..][n - 1..] == s[n..];
    }
  }

  lemma {:induction false} SeesWholeWord(s: string, n: nat)
    requires 0 < n <= |s| && (IsLetter(s[0]) || s[0] == '_')
    requires (forall k | 0 < k < n :: IsIdent(s[k])) && (n < |s| ==> !IsIdent(s[n]))
    ensures Sees(Normal, s) == (IsWriteKeyword(s[..n]) || Sees(Normal, s[n..]))
  {
    SeesWord([s[0]], s[1..], n - 1);
    assert [s[0]] + s[1..][..n - 1] == s[..n] && s[1..][n - 1..] == s[n..];
  }

  /** The word that begins at `i`, read to its end `j` and judged there. */
  method ScanWord(cypher: string, i: nat) returns (j: nat)
    requires i < |cypher| && (IsLetter(cypher[i]) || cypher[i] == '_')
    ensures i < j <= |cypher|
    ensures Sees(Normal, cypher[i..]) == (IsWriteKeyword(cypher[i..j]) || Sees(Normal, cypher[j..]))
  {
    j := i;
    while j < |cypher| && IsIdent(cypher[j])
      invariant i <= j <= |cypher|
      invariant forall k | i <= k < j :: IsIdent(cypher[k])
    {
      j := j + 1;
    }
    SeesWholeWord(cypher[i..], j - i);
    assert cypher[i..][..j - i] == cypher[i..j] && cypher[i..][j - i..] == cypher[j..];
  }

  /** Outside words, strings, names and comments: two characters for a comment start, else one. */
  method NormalTurn(cypher: string, i: nat) returns (next: nat, state: Lex)
    requires i < |cypher| && !IsLetter(cypher[i]) && cypher[i] != '_'
    ensures i < next <= |cypher| && Sees(Normal, cypher[i..]) == Sees(state, cypher[next..])
  {
    var b := cypher[i];
    ghost var s := cypher[i..];
    assert s[1..] == cypher[i + 1..] && (i + 1 < |cypher| ==> s[2..] == cypher[i + 2..]);
    next, state := i + 1, Normal;
    if b == '/' {
      SeesSlash(s);
      if i + 1 < |cypher| && cypher[i + 1] == '/' {
        next, state := i + 2, LineComment;
      } else if i + 1 < |cypher| && cypher[i + 1] == '*' {
        next, state := i + 2, BlockComment;
      }
    } else {
      SeesOther(s);
      state :=
        if b == '\'' then SingleQuote
        else if b == '"' then DoubleQuote
        else if b == '`' then InBacktick
        else Normal;
    }
  }

  /** Inside a string, a quoted name or a comment. */
  method InnerTurn(cypher: string, i: nat, state: Lex) returns (next: nat, state': Lex)
    requires i < |cypher| && state != Normal
    ensures i < next <= |cypher| && Sees(state, cypher[i..]) == Sees(state', cypher[next..])
  {
    var b := cypher[i];
    ghost var s := cypher[i..];
    assert s[1..] == cypher[i + 1..] && (i + 1 < |cypher| ==> s[2..] == cypher[i + 2..]);
    next, state' := i + 1, state;
    match state {
      case SingleQuote =>
        SeesQuoted(state, '\'', s);
        if b == '\\' && i + 1 < |cypher| {
          next := i + 2;
        } else if b == '\'' {
          state' := Normal;
        }
      case DoubleQuote =>
        SeesQuoted(state, '"', s);
        if b == '\\' && i + 1 < |cypher| {
          next := i + 2;
        } else if b == '"' {
          state' := Normal;
        }
      case InBacktick =>
        SeesComment(state, s);
        if b == '`' {
          state' := Normal;
        }
      case LineComment =>
        SeesComment(state, s);
        if b == '\n' {
          state' := Normal;
        }
      case BlockComment =>
        SeesBlock(s);
        if b == '*' && i + 1 < |cypher| && cypher[i + 1] == '/' {
          next, state' := i + 2, Normal;
        }
    }
  }

  /** The scanner `has_write_operators`: an index, a state, and jumps. */
  method HasWriteOperators(cypher: string) returns (found: bool)
    ensures found == HasWrite(cypher)
  {
    var i, state := 0, Normal;
    assert cypher[0..] == cypher;
    while i < |cypher|
      invariant 0 <= i <= |cypher|
      invariant HasWrite(cypher) == Sees(state, cypher[i..])
    {
      if state != Normal {
        i, state := InnerTurn(cypher, i, state);
      } else if IsLetter(cypher[i]) || cypher[i] == '_' {
        var start := i;
        i := ScanWord(cypher, start);
        if IsWriteKeyword(cypher[start..i]) {
          return true;
        }
      } else {
        i, state := NormalTurn(cypher, i);
      }
    }
    return false;
  }
}
