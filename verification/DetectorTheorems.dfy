/**
 * What the write check means: somewhere in the query's code, not in a string, a quoted name or a
 * comment, stands a write keyword as a word of its own.
 */
module DetectorTheorems {
  import opened Prelude
  import opened Detector

  /** Positions where a word may begin. */
  predicate IsCode(m: Mode) {
    m.Plain? || m.Slash?
  }

  predicate StartsWord(c: char) {
    IsLetter(c) || c == '_'
  }

  /** The words that write, in any case. */
  predicate IsWriting(word: string) {
    Upper(word) in {"SET", "MERGE", "CREATE", "DELETE", "DETACH", "REMOVE"}
  }

  lemma {:induction false} EqCiIsUpper(word: string, upper: string)
    ensures EqCi(word, upper) <==> Upper(word) == upper
  {
    if EqCi(word, upper) {
      assert forall i | 0 <= i < |word| :: Upper(word)[i] == ToUpper(word[i]);
    }
  }

  /** The test by length and letters picks exactly those words. */
  lemma {:induction false} WriteKeywords(word: string)
    ensures IsWriteKeyword(word) <==> IsWriting(word)
  {
    EqCiIsUpper(word, "SET");
    EqCiIsUpper(word, "MERGE");
    EqCiIsUpper(word, "CREATE");
    EqCiIsUpper(word, "DELETE");
    EqCiIsUpper(word, "DETACH");
    EqCiIsUpper(word, "REMOVE");
  }

  /** `s[i..j]` is a whole word, read in code when the scan of `s` begins in `m`. */
  predicate IsWordAt(m: Mode, s: string, i: nat, j: nat) {
    && i < j <= |s| && IsCode(Run(m, s[..i])) && StartsWord(s[i])
    && (forall k | i <= k < j :: IsIdent(s[k])) && (j < |s| ==> !IsIdent(s[j]))
  }

  ghost predicate HasWriteWord(m: Mode, s: string) {
    exists i: nat, j: nat :: IsWordAt(m, s, i, j) && IsWriting(s[i..j])
  }

  lemma {:induction false} RunSplit(m: Mode, s: string, i: nat)
    requires i <= |s|
    ensures Run(m, s) == Run(Run(m, s[..i]), s[i..])
  {
    assert s == s[..i] + s[i..];
    RunConcat(m, s[..i], s[i..]);
  }

  lemma {:induction false} WordShifts(m: Mode, s: string, n: nat, m': Mode, i: nat, j: nat)
    requires n <= |s| && m' == Run(m, s[..n]) && IsWordAt(m', s[n..], i, j)
    ensures IsWordAt(m, s, n + i, n + j)
  {
    assert s[..n + i] == s[..n] + s[n..][..i];
    RunConcat(m, s[..n], s[n..][..i]);
    forall k | n + i <= k < n + j ensures IsIdent(s[k]) {
      assert s[n..][k - n] == s[k];
    }
    assert n + j < |s| ==> s[n..][j] == s[n + j];
  }

  /** A word found in the rest of a text is found in the text. */
  lemma {:induction false} WordLater(m: Mode, s: string, n: nat, m': Mode)
    requires n <= |s| && m' == Run(m, s[..n]) && HasWriteWord(m', s[n..])
    ensures HasWriteWord(m, s)
  {
    var i: nat, j: nat :| IsWordAt(m', s[n..], i, j) && IsWriting(s[n..][i..j]);
    WordShifts(m, s, n, m', i, j);
    assert s[n..][i..j] == s[n + i..n + j];
  }

  lemma {:induction false} ReadsOn(w: string, s: string)
    requires forall k | 0 <= k < |s| :: IsIdent(s[k])
    ensures Run(Word(w), s) == Word(w + s)
    decreases s
  {
    if s == "" {
      assert w + s == w;
    } else {
      ReadsOn(w + [s[0]], s[1..]);
      assert w + [s[0]] + s[1..] == w + s;
    }
  }

  /** In code, a word is read to its end. */
  lemma {:induction false} ReadsWord(m: Mode, s: string, n: nat)
    requires IsCode(m) && 0 < n <= |s| && StartsWord(s[0]) && forall k | 0 <= k < n :: IsIdent(s[k])
    ensures Run(m, s[..n]) == Word(s[..n])
  {
    assert s[..n][1..] == s[1..n];
    ReadsOn([s[0]], s[1..n]);
    assert [s[0]] + s[1..n] == s[..n];
  }

  lemma {:induction false} AfterWord(m: Mode, s: string, n: nat)
    requires n < |s| && Run(m, s[..n]) == Word(s[..n]) && !IsWriteKeyword(s[..n]) && !IsIdent(s[n])
    ensures Run(m, s[..n + 1]) == FromPlain(s[n])
  {
    assert s[..n + 1] == s[..n] + [s[n]];
    RunConcat(m, s[..n], [s[n]]);
    RunOne(Word(s[..n]), s[n]);
  }

  lemma {:induction false} FindWord(m: Mode, s: string)
    requires !m.Word? && !m.Found? && Detects(Run(m, s))
    ensures HasWriteWord(m, s)
    decreases s
  {
    if IsCode(m) && s != "" && StartsWord(s[0]) {
      var n := PrefixLen(s, Ident);
      ReadsWord(m, s, n);
      if IsWriteKeyword(s[..n]) {
        WriteKeywords(s[..n]);
        assert s[..0] == "" && s[0..n] == s[..n];
        assert IsWordAt(m, s, 0, n);
      } else {
        RunSplit(m, s, n);
        assert n < |s|;
        RunSplit(m, s, n + 1);
        AfterWord(m, s, n);
        FindWord(Run(m, s[..n + 1]), s[n + 1..]);
        WordLater(m, s, n + 1, Run(m, s[..n + 1]));
      }
    } else {
      assert s != "";
      RunSplit(m, s, 1);
      assert s[..1] == [s[0]];
      RunOne(m, s[0]);
      FindWord(Read(m, s[0]), s[1..]);
      WordLater(m, s, 1, Read(m, s[0]));
    }
  }

  lemma {:induction false} WordIsDetected(m: Mode, s: string, i: nat, j: nat)
    requires IsWordAt(m, s, i, j) && IsWriting(s[i..j])
    ensures Detects(Run(m, s))
  {
    var here, rest := Run(m, s[..i]), s[i..];
    RunSplit(m, s, i);
    assert rest[..j - i] == s[i..j];
    ReadsWord(here, rest, j - i);
    RunSplit(here, rest, j - i);
    WriteKeywords(s[i..j]);
    WordEnds(s[i..j], rest[j - i..]);
  }

  /** The check answers yes exactly when a write keyword stands somewhere in code as a word of its own. */
  lemma {:induction false} HasWriteExactly(s: string)
    ensures HasWrite(s) <==> HasWriteWord(Plain, s)
  {
    if HasWrite(s) {
      FindWord(Plain, s);
    }
    if HasWriteWord(Plain, s) {
      var i: nat, j: nat :| IsWordAt(Plain, s, i, j) && IsWriting(s[i..j]);
      WordIsDetected(Plain, s, i, j);
    }
  }

  /** Whatever is read to code, then a writing word, then the end or no identifier character: it writes. */
  lemma {:induction false} WritingIsSeen(a: string, w: string, b: string)
    requires IsCode(Run(Plain, a)) && IsWriting(w) && (b != "" ==> !IsIdent(b[0]))
    ensures HasWrite(a + w + b)
  {
    var s := a + w + b;
    assert s[..|a|] == a && s[|a|..|a| + |w|] == w;
    WritingIsWord(w);
    assert IsWordAt(Plain, s, |a|, |a| + |w|);
    WordIsDetected(Plain, s, |a|, |a| + |w|);
  }

  lemma {:induction false} WritingIsWord(w: string)
    requires IsWriting(w)
    ensures w != "" && StartsWord(w[0]) && forall k | 0 <= k < |w| :: IsIdent(w[k])
  {
    forall k | 0 <= k < |w| ensures IsLetter(w[k]) {
      assert Upper(w)[k] == ToUpper(w[k]);
    }
  }
}
