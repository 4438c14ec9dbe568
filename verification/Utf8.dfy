/**
 * Well-formed UTF-8, as the syntax of section 4 of RFC 3629 has it, over texts whose characters stand
 * for bytes; and where a Rust string may be sliced.
 */
module Utf8 {
  import opened Prelude

  predicate IsTail(c: char) {
    0x80 as char <= c <= 0xBF as char
  }

  /** Length of the character that `s` starts with, or 0 if it starts with none. */
  function CharLen(s: string): (n: nat)
    ensures n <= 4 && n <= |s|
  {
    if s == "" then 0
    else
      var b := s[0];
      if b <= 0x7F as char then 1
      else if 0xC2 as char <= b <= 0xDF as char then
        if |s| > 1 && IsTail(s[1]) then 2 else 0
      else if 0xE0 as char <= b <= 0xEF as char then
        if |s| > 2 && IsTail(s[1]) && IsTail(s[2])
           && (b == 0xE0 as char ==> s[1] >= 0xA0 as char) && (b == 0xED as char ==> s[1] <= 0x9F as char) then 3 else 0
      else if 0xF0 as char <= b <= 0xF4 as char then
        if |s| > 3 && IsTail(s[1]) && IsTail(s[2]) && IsTail(s[3])
           && (b == 0xF0 as char ==> s[1] >= 0x90 as char) && (b == 0xF4 as char ==> s[1] <= 0x8F as char) then 4 else 0
      else 0
  }

  predicate IsUtf8(s: string)
    decreases s
  {
    s == "" || (CharLen(s) > 0 && IsUtf8(s[CharLen(s)..]))
  }

  /** Where slicing does not panic: not before a continuation byte. */
  predicate IsBoundary(s: string, i: nat) {
    i <= |s| && (i < |s| ==> !IsTail(s[i]))
  }

  lemma {:induction false} CharLenLocal(s: string, s': string)
    requires CharLen(s) > 0 && s[..CharLen(s)] <= s'
    ensures CharLen(s') == CharLen(s)
  {
  }

  lemma {:induction false} InnerTails(s: string, i: nat)
    requires 0 < i < CharLen(s)
    ensures IsTail(s[i]) && s[i] >= 0x80 as char && s[0] >= 0x80 as char
  {
  }

  lemma {:induction false} FirstIsNoTail(s: string)
    requires IsUtf8(s)
    ensures IsBoundary(s, 0)
  {
  }

  lemma {:induction false} DropUtf8(s: string, i: nat)
    requires IsUtf8(s) && IsBoundary(s, i)
    ensures IsUtf8(s[i..])
    decreases i
  {
    if i == 0 {
      assert s[0..] == s;
    } else if i < |s| || s != "" {
      var n := CharLen(s);
      if i < n {
        InnerTails(s, i);
      } else {
        assert i < |s| ==> s[n..][i - n] == s[i];
        DropUtf8(s[n..], i - n);
        assert s[n..][i - n..] == s[i..];
      }
    }
  }

  lemma {:induction false} TakeUtf8(s: string, i: nat)
    requires IsUtf8(s) && IsBoundary(s, i)
    ensures IsUtf8(s[..i])
    decreases i
  {
    if i > 0 {
      var n := CharLen(s);
      if i < n {
        InnerTails(s, i);
      } else {
        assert i < |s| ==> s[n..][i - n] == s[i];
        TakeUtf8(s[n..], i - n);
        CharLenLocal(s, s[..i]);
        assert s[..i][n..] == s[n..][..i - n];
      }
    }
  }

  lemma {:induction false} ConcatUtf8(a: string, b: string)
    requires IsUtf8(a) && IsUtf8(b)
    ensures IsUtf8(a + b)
    decreases a
  {
    if a == "" {
      assert a + b == b;
    } else {
      var n := CharLen(a);
      ConcatUtf8(a[n..], b);
      AppendDrop(a, b, n);
      CharLenLocal(a, a + b);
    }
  }

  lemma {:induction false} AfterAscii(s: string, i: nat)
    requires IsUtf8(s) && i < |s| && s[i] <= 0x7F as char
    ensures IsBoundary(s, i + 1)
  {
    DropUtf8(s, i);
    var t := s[i..];
    assert t[0] == s[i] && CharLen(t) == 1;
    FirstIsNoTail(t[1..]);
    assert i + 1 < |s| ==> t[1..][0] == s[i + 1];
  }

  lemma {:induction false} AsciiUtf8(s: string)
    requires forall i | 0 <= i < |s| :: s[i] <= 0x7F as char
    ensures IsUtf8(s)
    decreases s
  {
    if s == "" {
    } else {
      AsciiUtf8(s[1..]);
    }
  }

  /** What follows a well-formed prefix of a well-formed text is well-formed. */
  lemma {:induction false} AfterPrefix(t: string, s: string)
    requires IsUtf8(s) && IsUtf8(t) && t <= s
    ensures IsUtf8(s[|t|..])
    decreases t
  {
    if t == "" {
      assert s[0..] == s;
    } else {
      var n := CharLen(t);
      CharLenLocal(t, s);
      assert s[n..][..|t| - n] == s[..|t|][n..] == t[n..];
      AfterPrefix(t[n..], s[n..]);
      assert s[n..][|t| - n..] == s[|t|..];
    }
  }

  // Slices, as Rust checks them

  /**
   * All that the passes need of a well-formed text: a continuation byte neither comes first nor
   * follows an ASCII byte. So cutting before or after an ASCII byte is cutting between characters.
   */
  predicate Sliceable(s: string) {
    && (s != "" ==> !IsTail(s[0]))
    && forall i | 0 <= i < |s| - 1 :: s[i] <= 0x7F as char ==> !IsTail(s[i + 1])
  }

  lemma {:induction false} Utf8IsSliceable(s: string)
    requires IsUtf8(s)
    ensures Sliceable(s)
  {
    FirstIsNoTail(s);
    forall i | 0 <= i < |s| - 1 && s[i] <= 0x7F as char ensures !IsTail(s[i + 1]) {
      AfterAscii(s, i);
    }
  }

  lemma {:induction false} SliceableFrom(s: string, i: nat)
    requires Sliceable(s) && IsBoundary(s, i)
    ensures Sliceable(s[i..])
  {
  }

  function From(s: string, i: nat): (r: string)
    requires IsBoundary(s, i)
    ensures r == s[i..]
  {
    s[i..]
  }

  function To(s: string, i: nat): (r: string)
    requires IsBoundary(s, i)
    ensures r == s[..i]
  {
    s[..i]
  }
}
