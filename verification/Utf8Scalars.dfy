/**
 * UTF-8 from the other side: the octets of each scalar value, as the table of section 3 of RFC 3629 gives them.
 * The well-formed texts are exactly the encoded ones.
 */
module Utf8Scalars {
  import opened Utf8

  predicate IsScalar(n: nat) {
    n <= 0x10_FFFF && !(0xD800 <= n <= 0xDFFF)
  }

  function Octet(n: nat): char
    requires n < 256
  {
    n as char
  }

  function Encode(n: nat): (s: string)
    requires IsScalar(n)
    ensures s != ""
  {
    if n < 0x80 then [Octet(n)]
    else if n < 0x800 then [Octet(0xC0 + n / 0x40), Octet(0x80 + n % 0x40)]
    else if n < 0x1_0000 then
      [Octet(0xE0 + n / 0x1000), Octet(0x80 + n / 0x40 % 0x40), Octet(0x80 + n % 0x40)]
    else
      [Octet(0xF0 + n / 0x4_0000), Octet(0x80 + n / 0x1000 % 0x40), Octet(0x80 + n / 0x40 % 0x40),
       Octet(0x80 + n % 0x40)]
  }

  function EncodeAll(ns: seq<nat>): string
    requires forall n | n in ns :: IsScalar(n)
  {
    if ns == [] then "" else Encode(ns[0]) + EncodeAll(ns[1..])
  }

  lemma {:induction false} EncodedTwo(n: nat, s: string)
    requires 0x80 <= n < 0x800 && Encode(n) <= s
    ensures CharLen(s) == 2
  {
    assert s[0] == Encode(n)[0] && s[1] == Encode(n)[1];
  }

  lemma {:induction false} EncodedThree(n: nat, s: string)
    requires 0x800 <= n < 0x1_0000 && IsScalar(n) && Encode(n) <= s
    ensures CharLen(s) == 3
  {
    assert s[0] == Encode(n)[0] && s[1] == Encode(n)[1] && s[2] == Encode(n)[2];
  }

  lemma {:induction false} EncodedFour(n: nat, s: string)
    requires 0x1_0000 <= n && IsScalar(n) && Encode(n) <= s
    ensures CharLen(s) == 4
  {
    assert s[0] == Encode(n)[0] && s[1] == Encode(n)[1] && s[2] == Encode(n)[2] && s[3] == Encode(n)[3];
  }

  lemma {:induction false} EncodedIsChar(n: nat, s: string)
    requires IsScalar(n) && Encode(n) <= s
    ensures CharLen(s) == |Encode(n)|
  {
    if n < 0x80 {
      assert s[0] == Encode(n)[0];
    } else if n < 0x800 {
      EncodedTwo(n, s);
    } else if n < 0x1_0000 {
      EncodedThree(n, s);
    } else {
      EncodedFour(n, s);
    }
  }

  /** The value of a continuation octet. */
  function Six(c: char): (n: nat)
    requires IsTail(c)
    ensures n < 0x40
  {
    c as int - 0x80
  }

  lemma {:induction false} TwoDecoded(s: string) returns (n: nat)
    requires CharLen(s) == 2
    ensures IsScalar(n) && Encode(n) == s[..2]
  {
    n := (s[0] as int - 0xC0) * 0x40 + Six(s[1]);
    assert n / 0x40 == s[0] as int - 0xC0 && n % 0x40 == Six(s[1]);
  }

  lemma {:induction false} ThreeDecoded(s: string) returns (n: nat)
    requires CharLen(s) == 3
    ensures IsScalar(n) && Encode(n) == s[..3]
  {
    var m := (s[0] as int - 0xE0) * 0x40 + Six(s[1]);
    n := m * 0x40 + Six(s[2]);
    assert n / 0x40 == m && n % 0x40 == Six(s[2]) && m / 0x40 == s[0] as int - 0xE0 && m % 0x40 == Six(s[1]);
    assert n / 0x1000 == m / 0x40;
  }

  lemma {:induction false} FourDecoded(s: string) returns (n: nat)
    requires CharLen(s) == 4
    ensures IsScalar(n) && Encode(n) == s[..4]
  {
    var k := (s[0] as int - 0xF0) * 0x40 + Six(s[1]);
    var m := k * 0x40 + Six(s[2]);
    n := m * 0x40 + Six(s[3]);
    assert n / 0x40 == m && n % 0x40 == Six(s[3]) && m / 0x40 == k && m % 0x40 == Six(s[2]);
    assert k / 0x40 == s[0] as int - 0xF0 && k % 0x40 == Six(s[1]);
    assert n / 0x1000 == k && n / 0x4_0000 == k / 0x40;
  }

  lemma {:induction false} CharIsEncoded(s: string) returns (n: nat)
    requires CharLen(s) > 0
    ensures IsScalar(n) && Encode(n) == s[..CharLen(s)]
  {
    if CharLen(s) == 1 {
      n := s[0] as int;
    } else if CharLen(s) == 2 {
      n := TwoDecoded(s);
    } else if CharLen(s) == 3 {
      n := ThreeDecoded(s);
    } else {
      n := FourDecoded(s);
    }
  }

  lemma {:induction false} EncodedIsUtf8(ns: seq<nat>)
    requires forall n | n in ns :: IsScalar(n)
    ensures IsUtf8(EncodeAll(ns))
    decreases |ns|
  {
    if ns == [] {
    } else {
      var s := EncodeAll(ns);
      EncodedIsChar(ns[0], s);
      assert s[CharLen(s)..] == EncodeAll(ns[1..]);
      EncodedIsUtf8(ns[1..]);
    }
  }

  lemma {:induction false} Utf8IsEncoded(s: string) returns (ns: seq<nat>)
    requires IsUtf8(s)
    ensures (forall n | n in ns :: IsScalar(n)) && EncodeAll(ns) == s
    decreases s
  {
    if s == "" {
      ns := [];
    } else {
      var n := CharIsEncoded(s);
      var rest := Utf8IsEncoded(s[CharLen(s)..]);
      ns := [n] + rest;
      assert ns[1..] == rest;
    }
  }

  /** A text is well-formed exactly when it is the encoding of a sequence of scalar values. */
  lemma {:induction false} Utf8Exactly(s: string)
    ensures IsUtf8(s) <==> exists ns: seq<nat> :: (forall n | n in ns :: IsScalar(n)) && EncodeAll(ns) == s
  {
    if IsUtf8(s) {
      var ns := Utf8IsEncoded(s);
    }
    if ns: seq<nat> :| (forall n | n in ns :: IsScalar(n)) && EncodeAll(ns) == s {
      EncodedIsUtf8(ns);
    }
  }
}
