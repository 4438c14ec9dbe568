/**
 * Redacting twice. The passes leave their own output alone, but `redact` (rb-secrets, redact.rs) decodes
 * first: what an escape of an escape stood for is decoded, and redacted, by the next call only.
 */
module RedactTwice {
  import opened Prelude
  import opened Percent
  import opened Redact
  import opened RedactTheorems
  import opened RedactExact
  import opened Redactor
  import opened RedactReturned

  /** How many characters the decoder reads to write the first `n`. */
  function Cut(s: string, n: nat): (k: nat)
    requires n <= |Decode(s)|
    ensures k <= |s|
    decreases s
  {
    if n == 0 then 0
    else if EscapeAt(s).Some? then 3 + Cut(s[3..], n - 1)
    else 1 + Cut(s[1..], n - 1)
  }

  lemma {:induction false} EscapeInPrefix(s: string, k: nat)
    requires k <= |s| && EscapeAt(s[..k]).Some?
    ensures EscapeAt(s) == EscapeAt(s[..k])
  {
  }

  lemma {:induction false} CutStep(s: string, n: nat)
    requires 0 < n <= |Decode(s)|
    ensures var m := if EscapeAt(s).Some? then 3 else 1;
      && s != "" && Cut(s, n) == m + Cut(s[m..], n - 1) && EscapeAt(s[..Cut(s, n)]) == EscapeAt(s)
      && s[..Cut(s, n)][m..] == s[m..][..Cut(s[m..], n - 1)]
  {
    if EscapeAt(s).None? && EscapeAt(s[..Cut(s, n)]).Some? {
      EscapeInPrefix(s, Cut(s, n));
    }
  }

  lemma {:induction false} DecodeFirst(s: string, m: nat)
    requires s != "" && m == if EscapeAt(s).Some? then 3 else 1
    ensures m <= |s| && Decode(s)[1..] == Decode(s[m..]) && |Decode(s)| == 1 + |Decode(s[m..])|
    ensures Decode(s)[0] == if EscapeAt(s).Some? then EscapeAt(s).value else s[0]
  {
  }

  lemma {:induction false} TakeCons(t: string, n: nat)
    requires 0 < n <= |t|
    ensures t[..n] == [t[0]] + t[1..][..n - 1] && t[n..] == t[1..][n - 1..]
  {
  }

  lemma {:induction false} CutFront(s: string, n: nat, m: nat, k: nat)
    requires 0 < n <= |Decode(s)| && s != "" && m == if EscapeAt(s).Some? then 3 else 1
    requires m <= |s| && k <= |s| - m && Cut(s, n) == m + k && EscapeAt(s[..m + k]) == EscapeAt(s)
    requires s[..m + k][m..] == s[m..][..k] && Decode(s[m..][..k]) == Decode(s)[1..][..n - 1]
    ensures Decode(s[..m + k]) == Decode(s)[..n]
  {
    DecodeFirst(s, m);
    DecodeFirst(s[..m + k], m);
    TakeCons(Decode(s), n);
    TakeCons(Decode(s[..m + k]), |Decode(s[..m + k])|);
  }

  /** Cut there, the two parts decode to the two parts of the decoded text. */
  lemma {:induction false} CutDecodes(s: string, n: nat)
    requires n <= |Decode(s)|
    ensures Decode(s[..Cut(s, n)]) == Decode(s)[..n] && Decode(s[Cut(s, n)..]) == Decode(s)[n..]
    decreases s
  {
    if n == 0 {
      assert s[..0] == "" && s[0..] == s;
    } else {
      var m := if EscapeAt(s).Some? then 3 else 1;
      CutStep(s, n);
      DecodeFirst(s, m);
      var k := Cut(s[m..], n - 1);
      CutDecodes(s[m..], n - 1);
      DropDrop(s, m, k);
      TakeCons(Decode(s), n);
      CutFront(s, n, m, k);
    }
  }

  /** The text that a piece of the decoded text was decoded from. */
  lemma {:induction false} SourceOf(s: string, j: nat, w: string) returns (i: nat, v: string)
    requires j <= |Decode(s)| && w <= Decode(s)[j..]
    ensures i <= |s| && v <= s[i..] && Decode(v) == w
  {
    i := Cut(s, j);
    CutDecodes(s, j);
    var rest := s[i..];
    v := rest[..Cut(rest, |w|)];
    CutDecodes(rest, |w|);
  }

  lemma {:induction false} DecodeKeepsAngles(s: string)
    requires AngleFree(Decode(s))
    ensures AngleFree(s)
    decreases s
  {
    if s == "" {
    } else {
      var m := if EscapeAt(s).Some? then 3 else 1;
      assert Decode(s)[1..] == Decode(s[m..]);
      assert forall i | 0 <= i < |Decode(s[m..])| :: Decode(s[m..])[i] == Decode(s)[i + 1];
      DecodeKeepsAngles(s[m..]);
      assert Decode(s)[0] == if m == 1 then s[0] else EscapeAt(s).value;
      forall i | 0 <= i < |s| ensures s[i] != '<' && s[i] != '>' {
        if i >= m {
          assert s[i] == s[m..][i - m];
        }
      }
    }
  }

  // ---------------------------------------------------------------------------------------------
  // An escape in a text that redaction gives back
  // ---------------------------------------------------------------------------------------------

  lemma {:induction false} NoPercent(m: string, w: string)
    requires IsMarker(m) && HasEscape(w)
    ensures !Occurs(w, m)
  {
    var i :| 0 <= i <= |w| && EscapeAt(w[i..]).Some?;
    assert w[i] == '%';
    if Occurs(w, m) {
      var j :| 0 <= j <= |m| && w <= m[j..];
      CharIn(w, m, j, i);
      MarkerLacksPercent(m);
    }
  }

  lemma {:induction false} MarkerLacksPercent(m: string)
    requires IsMarker(m)
    ensures '%' !in m
  {
  }

  lemma {:induction false} StillThere(rule: Rule, s: string, w: string)
    requires IsRule(rule) && AngleFree(w) && HasEscape(w) && Occurs(w, Pass(rule, s))
    ensures Occurs(w, s)
  {
    var i :| 0 <= i <= |Pass(rule, s)| && w <= Pass(rule, s)[i..];
    Traced(rule, s, i, w);
    NoPercent(MarkerOf(rule), w);
  }

  /** A bracket-free piece with an escape that the passes wrote was there before them. */
  lemma {:induction false} StandardTraced(s: string, w: string)
    requires AngleFree(w) && HasEscape(w) && Occurs(w, Standard(s))
    ensures Occurs(w, s)
  {
    var s1 := Pass(JwtRule, s);
    var s2 := Pass(BearerRule, s1);
    var s3 := Pass(LiveKeyRule, s2);
    var s4 := Pass(NameRule(0), s3);
    var s5 := Pass(NameRule(1), s4);
    StillThere(NameRule(2), s5, w);
    StillThere(NameRule(1), s4, w);
    StillThere(NameRule(0), s3, w);
    StillThere(LiveKeyRule, s2, w);
    StillThere(BearerRule, s1, w);
    StillThere(JwtRule, s, w);
  }

  lemma {:induction false} Grows(r: string, w: string) returns (v: string)
    requires r == Standard(Decode(r)) && AngleFree(w) && HasEscape(w) && Occurs(w, r)
    ensures AngleFree(v) && HasEscape(v) && Occurs(v, r) && |w| < |v| <= |r|
  {
    StandardTraced(Decode(r), w);
    var j :| 0 <= j <= |Decode(r)| && w <= Decode(r)[j..];
    var i;
    i, v := SourceOf(r, j, w);
    DecodeKeepsAngles(v);
    DecodeFinds(v);
    OccursAt(v, r, i);
  }

  lemma {:induction false} NoEndOfGrowth(r: string, w: string)
    requires r == Standard(Decode(r)) && AngleFree(w) && HasEscape(w) && Occurs(w, r)
    ensures false
    decreases |r| - |w|
  {
    var v := Grows(r, w);
    NoEndOfGrowth(r, v);
  }

  lemma {:induction false} ShortEscape(s: string) returns (w: string)
    requires HasEscape(s)
    ensures AngleFree(w) && HasEscape(w) && Occurs(w, s)
  {
    var i :| 0 <= i <= |s| && EscapeAt(s[i..]).Some?;
    w := s[i..][..3];
    assert w[0..] == w;
    OccursAt(w, s, i);
  }

  /** A text with an escape is never what its own decoded form is redacted to. */
  lemma {:induction false} DecodedIsOther(r: string)
    requires HasEscape(r)
    ensures Standard(Decode(r)) != r
  {
    if Standard(Decode(r)) == r {
      var w := ShortEscape(r);
      NoEndOfGrowth(r, w);
    }
  }

  lemma {:induction false} WorkingIs(s: string)
    ensures Working(s) == if HasEscape(s) then Decode(s) else s
  {
    if HasEscape(s) {
      var i :| 0 <= i <= |s| && EscapeAt(s[i..]).Some?;
      assert "%" <= s[i..];
      NotAbsent("%", s, i);
    }
  }

  /** A second call changes nothing exactly when it finds nothing to redact, or nothing to decode. */
  lemma {:induction false} TwiceIsOnceExactly(s: string)
    ensures var r := Returned(s, None);
      Returned(r, None) == r <==> IsBorrowed(r, None) || !HasEscape(r)
  {
    var r := Returned(s, None);
    WorkingIs(r);
    if IsBorrowed(s, None) {
    } else if HasEscape(r) {
      DecodedIsOther(r);
    } else {
      StandardIsIdempotent(Working(s));
    }
  }

  // ---------------------------------------------------------------------------------------------
  // It happens
  // ---------------------------------------------------------------------------------------------

  lemma {:induction false} DecodePiece(a: string, c: char, esc: string, rest: string)
    requires '%' !in a && |esc| == 3 && EscapeAt(esc) == Some(c)
    ensures Decode(a + (esc + rest)) == a + ([c] + Decode(rest)) && HasEscape(a + (esc + rest))
  {
    var s := a + (esc + rest);
    DecodeCopies(a, esc + rest);
    assert (esc + rest)[3..] == rest;
    EscapeInPrefix(esc + rest, 3);
    assert (esc + rest)[..3] == esc && s[|a|..] == esc + rest;
  }

  lemma {:induction false} TwoEscapes(a: string, esc: string, c: char, b: string, d: string)
    requires '%' !in a && '%' !in b && '%' !in d && |esc| == 3 && EscapeAt(esc) == Some(c)
    ensures var s := a + (esc + (b + (esc + d)));
      HasEscape(s) && Working(s) == a + ([c] + (b + ([c] + d)))
  {
    DecodePiece(a, c, esc, b + (esc + d));
    DecodePiece(b, c, esc, d);
    DecodeCopies(d, "");
    assert d + "" == d;
    WorkingIs(a + (esc + (b + (esc + d))));
  }

  lemma {:induction false} Scanned(s: string, rest: string)
    requires s == "eyJa" + rest
    ensures NeedsScan(s)
  {
    assert "eyJ" <= s[0..];
    NotAbsent("eyJ", s, 0);
  }

  lemma {:induction false} NoLaterJwt(s: string, rest: string, i: nat)
    requires s == "eyJa" + rest && 'J' !in rest && 0 < i <= |s|
    ensures !("eyJ" <= s[i..])
  {
    if i + 2 < |s| {
      assert s[i..][2] == s[i + 2] && (i + 2 > 3 ==> s[i + 2] in rest);
    }
  }

  /** With a `%` behind its first run it is no JWT. */
  lemma {:induction false} BrokenJwtIsClean(s: string, rest: string)
    requires s == "eyJa" + rest && rest != "" && rest[0] == '%' && 'J' !in rest && ' ' !in rest && '_' !in rest
    ensures IsClean(s)
  {
    PrefixLenIs(s, Base64, 4);
    forall i | 0 <= i <= |s| ensures !("eyJ" <= s[i..] && JwtLen(s[i..]).Some?) {
      if i == 0 {
        assert s[0..] == s;
      } else {
        NoLaterJwt(s, rest, i);
      }
    }
    NoBearersByChar(s);
    AbsentByChar("rb_live_", 2, s);
    NamesByChar(s);
  }

  lemma {:induction false} JwtBecomes(jwt: string)
    requires jwt == "eyJa.b.c"
    ensures Standard(jwt) == JWT
  {
    IsJwt(jwt);
    HitWhole(JwtRule, jwt, JWT);
    MarkerShape(JWT);
    NoJwtByChar(JWT);
    NoJwtIsKept(JWT);
    MarkerIsKept(JWT);
  }

  lemma {:induction false} FirstCall(s: string, once: string, rest: string)
    requires Working(s) == once && once == "eyJa" + rest
    requires rest != "" && rest[0] == '%' && 'J' !in rest && ' ' !in rest && '_' !in rest
    ensures Returned(s, None) == once
  {
    Scanned(once, rest);
    BrokenJwtIsClean(once, rest);
    CleanIsKept(once);
  }

  lemma {:induction false} SecondCall(once: string, jwt: string, rest: string)
    requires Working(once) == jwt && jwt == "eyJa.b.c" && jwt == "eyJa" + rest
    ensures Returned(once, None) == JWT
  {
    Scanned(jwt, rest);
    JwtBecomes(jwt);
  }

  lemma {:induction false} DecodedOnce(s: string, once: string, a: string, outer: string, b: string, d: string)
    requires a == "eyJa" && outer == "%25" && b == "2Eb" && d == "2Ec" && s == a + (outer + (b + (outer + d)))
    requires once == a + ("%2E" + ("b" + ("%2E" + "c")))
    ensures Working(s) == once
  {
    TwoEscapes(a, outer, '%', b, d);
    assert ['%'] + (b + (['%'] + d)) == "%2E" + ("b" + ("%2E" + "c"));
  }

  lemma {:induction false} DecodedTwice(once: string, a: string, inner: string, b: string, d: string, jwt: string)
    requires a == "eyJa" && inner == "%2E" && b == "b" && d == "c" && once == a + (inner + (b + (inner + d)))
    requires jwt == "eyJa.b.c"
    ensures Working(once) == jwt && jwt == a + (['.'] + (b + (['.'] + d)))
  {
    TwoEscapes(a, inner, '.', b, d);
  }

  /** A JWT whose dots are encoded twice: the first call decodes it once, the second redacts it. */
  lemma {:induction false} TwiceEncodedJwt(s: string, once: string)
    requires s == "eyJa" + ("%25" + ("2Eb" + ("%25" + "2Ec"))) && once == "eyJa" + ("%2E" + ("b" + ("%2E" + "c")))
    ensures Returned(s, None) == once && Returned(once, None) == JWT
  {
    DecodedOnce(s, once, "eyJa", "%25", "2Eb", "2Ec");
    FirstCall(s, once, "%2E" + ("b" + ("%2E" + "c")));
    DecodedTwice(once, "eyJa", "%2E", "b", "c", "eyJa.b.c");
    SecondCall(once, "eyJa.b.c", ['.'] + ("b" + (['.'] + "c")));
  }
}
