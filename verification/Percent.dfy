/** The percent-decoder that runs before the redaction passes (rb-secrets, redact.rs). */
module Percent {
  import opened Prelude
  import opened Utf8

  function Nibble(c: char): (n: Option<nat>)
    ensures n.Some? ==> n.value < 16
  {
    if '0' <= c <= '9' then Some(c as int - '0' as int)
    else if 'a' <= c <= 'f' then Some(c as int - 'a' as int + 10)
    else if 'A' <= c <= 'F' then Some(c as int - 'A' as int + 10)
    else None
  }

  /** The ASCII character that `s` starts with in the form `%HH`, if it does. */
  function EscapeAt(s: string): (c: Option<char>)
    ensures c.Some? ==> |s| > 2 && s[0] == '%' && c.value <= 0x7F as char
  {
    if |s| > 2 && s[0] == '%' && Nibble(s[1]).Some? && Nibble(s[2]).Some?
       && Nibble(s[1]).value * 16 + Nibble(s[2]).value < 128
    then Some((Nibble(s[1]).value * 16 + Nibble(s[2]).value) as char)
    else None
  }

  function Decode(s: string): string
    decreases s
  {
    if s == "" then ""
    else match EscapeAt(s)
      case Some(c) => [c] + Decode(s[3..])
      case None => [s[0]] + Decode(s[1..])
  }

  /** Some escape occurs, wherever it is. */
  predicate HasEscape(s: string) {
    exists i | 0 <= i <= |s| :: EscapeAt(s[i..]).Some?
  }

  /** The decoder finds an escape if and only if there is one, and the text then gets shorter. */
  lemma {:induction false} DecodeFinds(s: string)
    ensures |Decode(s)| <= |s|
    ensures HasEscape(s) <==> |Decode(s)| < |s|
    ensures !HasEscape(s) ==> Decode(s) == s
    decreases s
  {
    if s != "" {
      assert s[0..] == s;
      if EscapeAt(s).Some? {
        DecodeFinds(s[3..]);
        assert HasEscape(s);
      } else {
        DecodeFinds(s[1..]);
        if HasEscape(s) {
          var i :| 0 <= i <= |s| && EscapeAt(s[i..]).Some?;
          assert s[1..][i - 1..] == s[i..];
          assert HasEscape(s[1..]);
        }
        if HasEscape(s[1..]) {
          var i :| 0 <= i <= |s[1..]| && EscapeAt(s[1..][i..]).Some?;
          assert s[1..][i..] == s[i + 1..];
          assert HasEscape(s);
        }
      }
    } else {
      assert s[0..] == "";
    }
  }

  lemma {:induction false} DecodeCopies(a: string, rest: string)
    requires forall i | 0 <= i < |a| :: a[i] != '%'
    ensures Decode(a + rest) == a + Decode(rest)
    decreases a
  {
    if a == "" {
      assert a + rest == rest;
    } else {
      assert (a + rest)[1..] == a[1..] + rest;
      DecodeCopies(a[1..], rest);
      assert [a[0]] + (a[1..] + Decode(rest)) == a + Decode(rest);
    }
  }

  /** Decoding only ASCII escapes keeps a well-formed text well-formed. */
  lemma {:induction false} DecodeUtf8(s: string)
    requires IsUtf8(s)
    ensures IsUtf8(Decode(s))
    decreases s
  {
    if s == "" {
    } else {
      var n := CharLen(s);
      if EscapeAt(s).Some? {
        AfterAscii(s, 2);
        DropUtf8(s, 3);
        DecodeUtf8(s[3..]);
        AsciiUtf8([EscapeAt(s).value]);
        ConcatUtf8([EscapeAt(s).value], Decode(s[3..]));
      } else {
        DecodeUtf8(s[n..]);
        DecodeChar(s);
        ConcatUtf8(s[..n], Decode(s[n..]));
      }
    }
  }

  lemma {:induction false} DecodeChar(s: string)
    requires s != "" && CharLen(s) > 0 && EscapeAt(s).None?
    ensures Decode(s) == s[..CharLen(s)] + Decode(s[CharLen(s)..]) && IsUtf8(s[..CharLen(s)])
  {
    var n := CharLen(s);
    CharLenLocal(s, s[..n]);
    assert s[..n][n..] == "";
    if n == 1 {
      assert s[..1] == [s[0]];
    } else {
      forall i | 0 <= i < n ensures s[..n][i] != '%' {
        if i > 0 {
          InnerTails(s, i);
        } else {
          InnerTails(s, 1);
        }
      }
      DecodeCopies(s[..n], s[n..]);
      assert s == s[..n] + s[n..];
    }
  }

  // The escapes, as tables

  const LOWER_HEX := "0123456789abcdef"
  const UPPER_HEX := "0123456789ABCDEF"

  lemma {:induction false} NibbleTable(c: char, k: nat)
    requires k < 16
    ensures Nibble(c) == Some(k) <==> c == LOWER_HEX[k] || c == UPPER_HEX[k]
  {
    assert LOWER_HEX[k] as int == if k < 10 then '0' as int + k else 'a' as int + k - 10;
    assert UPPER_HEX[k] as int == if k < 10 then '0' as int + k else 'A' as int + k - 10;
  }

  /** Each ASCII character has its escapes, in digits of either case, and nothing else decodes to it. */
  lemma {:induction false} EscapeIs(s: string, n: nat)
    requires n < 128
    ensures EscapeAt(s) == Some(n as char) <==>
      && |s| > 2 && s[0] == '%' && (s[1] == LOWER_HEX[n / 16] || s[1] == UPPER_HEX[n / 16])
      && (s[2] == LOWER_HEX[n % 16] || s[2] == UPPER_HEX[n % 16])
  {
    if |s| > 2 {
      NibbleTable(s[1], n / 16);
      NibbleTable(s[2], n % 16);
      if Nibble(s[1]).Some? && Nibble(s[2]).Some? {
        SixteenTimes(Nibble(s[1]).value, Nibble(s[2]).value, n);
      }
    }
  }

  lemma {:induction false} SixteenTimes(hi: nat, lo: nat, n: nat)
    requires hi < 16 && lo < 16
    ensures hi * 16 + lo == n <==> hi == n / 16 && lo == n % 16
  {
  }

  function EscapeOf(c: char): (s: string)
    requires c < 128 as char
    ensures |s| == 3
  {
    ['%', UPPER_HEX[c as int / 16], UPPER_HEX[c as int % 16]]
  }

  function Escaped(t: string): string
    requires forall i | 0 <= i < |t| :: t[i] < 128 as char
  {
    if t == "" then "" else EscapeOf(t[0]) + Escaped(t[1..])
  }

  lemma {:induction false} EscapeDecodes(c: char, tail: string, s: string)
    requires c < 128 as char && s == EscapeOf(c) + tail
    ensures Decode(s) == [c] + Decode(tail)
  {
    assert s[3..] == tail && s[0] == '%';
    EscapeIs(s, c as int);
  }

  lemma {:induction false} AllDecode(t: string, rest: string, s: string)
    requires (forall i | 0 <= i < |t| :: t[i] < 128 as char) && s == Escaped(t) + rest
    ensures Decode(s) == t + Decode(rest)
    decreases t
  {
    if t == "" {
      assert s == rest;
    } else {
      var tail := Escaped(t[1..]) + rest;
      Assoc(EscapeOf(t[0]), Escaped(t[1..]), rest);
      EscapeDecodes(t[0], tail, s);
      AllDecode(t[1..], rest, tail);
      Assoc([t[0]], t[1..], Decode(rest));
      assert [t[0]] + t[1..] == t;
    }
  }

  /** A text escaped throughout decodes to itself, and what stands around it is decoded as before. */
  lemma {:induction false} EscapedDecodes(a: string, t: string, rest: string)
    requires (forall i | 0 <= i < |a| :: a[i] != '%') && forall i | 0 <= i < |t| :: t[i] < 128 as char
    ensures Decode(a + (Escaped(t) + rest)) == a + (t + Decode(rest))
  {
    DecodeCopies(a, Escaped(t) + rest);
    AllDecode(t, rest, Escaped(t) + rest);
  }

  /** One turn of the loop below. */
  lemma {:induction false} DecodeTurn(s: string, i: nat, out: string)
    requires i < |s|
    ensures match EscapeAt(s[i..])
      case Some(c) => i + 3 <= |s| && out + Decode(s[i..]) == out + [c] + Decode(s[i + 3..])
      case None => out + Decode(s[i..]) == out + [s[i]] + Decode(s[i + 1..])
  {
  }

  /** The two digits behind a `%` at `i`, if they make an ASCII character. */
  method ReadEscape(s: string, i: nat) returns (c: Option<char>)
    requires i < |s|
    ensures c == EscapeAt(s[i..])
  {
    if s[i] == '%' && i + 2 < |s| {
      var hi, lo := Nibble(s[i + 1]), Nibble(s[i + 2]);
      if hi.Some? && lo.Some? && hi.value * 16 + lo.value < 128 {
        return Some((hi.value * 16 + lo.value) as char);
      }
    }
    return None;
  }

  method PercentDecodeAscii(s: string) returns (r: Option<string>)
    ensures r == if HasEscape(s) then Some(Decode(s)) else None
  {
    var out, i, changed := "", 0, false;
    assert s[0..] == s && "" + Decode(s) == Decode(s);
    while i < |s|
      invariant 0 <= i <= |s|
      invariant Decode(s) == out + Decode(s[i..])
      invariant |out| <= i && changed == (|out| < i)
    {
      DecodeTurn(s, i, out);
      var escape := ReadEscape(s, i);
      if escape.Some? {
        out := out + [escape.value];
        changed := true;
        i := i + 3;
      } else {
        out := out + [s[i]];
        i := i + 1;
      }
    }
    assert Decode(s[i..]) == "" && out + "" == out;
    DecodeFinds(s);
    return if changed then Some(out) else None;
  }
}
