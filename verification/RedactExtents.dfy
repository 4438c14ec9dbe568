/**
 * What each pass takes away, in letters: where a secret begins and ends (rb-secrets, redact.rs), and what a
 * redacted text can no longer hold.
 */
module RedactExtents {
  import opened Prelude
  import opened CharTables
  import opened Redact
  import opened RedactTheorems

  predicate AllIn(s: string, table: string) {
    forall i | 0 <= i < |s| :: s[i] in table
  }

  const ASCII_SPACES := [0x09 as char, 0x0A as char, 0x0C as char, 0x0D as char, 0x20 as char]

  /** A pattern whose first character does not come again does not begin before its first occurrence. */
  lemma {:induction false} NotEarlier(p: string, a: string, tail: string, i: nat)
    requires p != "" && (forall j | 0 < j < |p| :: p[j] != p[0]) && Absent(p, a) && i < |a|
    ensures !(p <= (a + (p + tail))[i..])
  {
    var s, j := a + (p + tail), |a| - i;
    if j < |p| {
      assert s[i..][j] == s[|a|] == p[0];
    } else {
      assert s[i..][..|p|] == a[i..][..|p|];
    }
  }

  // The live key

  lemma {:induction false} HexRun(k: string, rest: string)
    requires AllIn(k, HEX_DIGITS) && (rest != "" ==> rest[0] !in HEX_DIGITS)
    ensures PrefixLen(k + rest, Hex) == |k|
  {
    forall i | 0 <= i < |k| ensures IsIn((k + rest)[i], Hex) {
      HexTable(k[i]);
    }
    if rest != "" {
      HexTable(rest[0]);
    }
    PrefixLenIs(k + rest, Hex, |k|);
  }

  lemma {:induction false} KeyHit(k: string, rest: string, tail: string, s: string)
    requires tail == k + rest && s == "rb_live_" + tail && PrefixLen(tail, Hex) == |k|
    ensures HitAt(LiveKeyRule, s) == Some(Hit(SECRET, 8 + |k|)) && s[8 + |k|..] == rest
  {
    assert s[8..] == tail;
  }

  /** The whole key goes, and nothing else: every hexadecimal digit behind `rb_live_`, up to the first other one. */
  lemma {:induction false} KeyExtent(a: string, k: string, rest: string)
    requires Absent("rb_live_", a) && AllIn(k, HEX_DIGITS) && (rest != "" ==> rest[0] !in HEX_DIGITS)
    ensures Pass(LiveKeyRule, a + ("rb_live_" + (k + rest))) == a + ("<redacted:secret>" + Pass(LiveKeyRule, rest))
  {
    var s := "rb_live_" + (k + rest);
    forall i | 0 <= i < |a| ensures HitAt(LiveKeyRule, (a + s)[i..]).None? {
      NotEarlier("rb_live_", a, k + rest, i);
    }
    CopyAll(LiveKeyRule, a, s);
    HexRun(k, rest);
    KeyHit(k, rest, k + rest, s);
    PassHit(LiveKeyRule, s);
  }

  /** Through all passes: a text with one key and nothing else to redact loses exactly that key. */
  lemma {:induction false} OneKeyGoes(a: string, k: string, rest: string, s: string, r: string)
    requires s == a + ("rb_live_" + (k + rest)) && r == a + ("<redacted:secret>" + rest)
    requires AllIn(k, HEX_DIGITS) && (rest != "" ==> rest[0] !in HEX_DIGITS)
    requires Absent("rb_live_", a) && Absent("rb_live_", rest) && NoJwt(s) && BearersRedacted(s)
    requires Absent("RB_MCP_JWT_SECRET", r) && Absent("RB_AGENT_API_KEY", r) && Absent("RB_LLM_API_KEY", r)
    ensures Standard(s) == r
  {
    NoJwtIsKept(s);
    RedactedBearersAreKept(s);
    KeyExtent(a, k, rest);
    AbsentIsKept(LiveKeyRule, rest);
    AbsentIsKept(NameRule(0), r);
    AbsentIsKept(NameRule(1), r);
    AbsentIsKept(NameRule(2), r);
  }

  // The JWT

  predicate AllOf(x: string, k: Class) {
    forall i | 0 <= i < |x| :: IsIn(x[i], k)
  }

  lemma {:induction false} RunIs(x: string, rest: string)
    requires AllOf(x, Base64) && (rest != "" ==> !IsIn(rest[0], Base64))
    ensures PrefixLen(x + rest, Base64) == |x|
  {
    PrefixLenIs(x + rest, Base64, |x|);
  }

  lemma {:induction false} SegmentIs(x: string, rest: string, s: string)
    requires x != "" && AllOf(x, Base64) && s == x + ("." + rest)
    ensures Segment(s) == Some(|x|) && s[|x| + 1..] == rest
  {
    RunIs(x, "." + rest);
  }

  /** From the parts; `s1` and `s2` are what follows the dots. */
  lemma {:induction false} JwtLenParts(s: string, a: nat, s1: string, b: nat, s2: string, c: nat)
    requires Segment(s) == Some(a) && s1 == s[a + 1..] && Segment(s1) == Some(b) && s2 == s1[b + 1..]
    requires PrefixLen(s2, Base64) == c > 0
    ensures JwtLen(s) == Some(a + b + c + 2)
  {
  }

  lemma {:induction false} ThreeRuns(h: string, p: string, g: string, rest: string, s2: string, s1: string, s: string)
    requires h != "" && p != "" && g != "" && AllOf(h, Base64) && AllOf(p, Base64) && AllOf(g, Base64)
    requires rest != "" ==> !IsIn(rest[0], Base64)
    requires s2 == g + rest && s1 == p + ("." + s2) && s == h + ("." + s1)
    ensures Segment(s) == Some(|h|) && s1 == s[|h| + 1..] && Segment(s1) == Some(|p|) && s2 == s1[|p| + 1..]
    ensures PrefixLen(s2, Base64) == |g|
  {
    SegmentIs(h, s1, s);
    SegmentIs(p, s2, s1);
    RunIs(g, rest);
  }

  lemma {:induction false} JwtLenIs(h: string, p: string, g: string, rest: string, s: string)
    requires h != "" && p != "" && g != "" && AllOf(h, Base64) && AllOf(p, Base64) && AllOf(g, Base64)
    requires (rest != "" ==> !IsIn(rest[0], Base64)) && s == h + ("." + (p + ("." + (g + rest))))
    ensures JwtLen(s) == Some(|h| + |p| + |g| + 2)
  {
    var s2 := g + rest;
    var s1 := p + ("." + s2);
    ThreeRuns(h, p, g, rest, s2, s1, s);
    JwtLenParts(s, |h|, s1, |p|, s2, |g|);
  }

  lemma {:induction false} BehindJwt(h: string, p: string, g: string, rest: string, s: string)
    requires s == h + ("." + (p + ("." + (g + rest))))
    ensures s[|h| + |p| + |g| + 2..] == rest
  {
    assert s == (h + "." + p + "." + g) + rest;
  }

  lemma {:induction false} JwtHit(head: string, p: string, g: string, rest: string, s: string, n: nat)
    requires "eyJ" <= head && p != "" && g != "" && AllOf(head, Base64) && AllOf(p, Base64) && AllOf(g, Base64)
    requires (rest != "" ==> !IsIn(rest[0], Base64)) && s == head + ("." + (p + ("." + (g + rest))))
    requires n == |head| + |p| + |g| + 2
    ensures HitAt(JwtRule, s) == Some(Hit(JWT, n)) && s[n..] == rest
  {
    JwtLenIs(head, p, g, rest, s);
    BehindJwt(head, p, g, rest, s);
  }

  lemma {:induction false} JwtPass(a: string, head: string, p: string, g: string, rest: string, s: string, tail: string)
    requires Absent("eyJ", a) && "eyJ" <= head && p != "" && g != ""
    requires AllOf(head, Base64) && AllOf(p, Base64) && AllOf(g, Base64) && (rest != "" ==> !IsIn(rest[0], Base64))
    requires s == head + ("." + (p + ("." + (g + rest)))) && s == "eyJ" + tail
    ensures Pass(JwtRule, a + s) == a + (JWT + Pass(JwtRule, rest))
  {
    forall i | 0 <= i < |a| ensures HitAt(JwtRule, (a + s)[i..]).None? {
      NotEarlier("eyJ", a, tail, i);
    }
    CopyAll(JwtRule, a, s);
    JwtHit(head, p, g, rest, s, |head| + |p| + |g| + 2);
    PassHit(JwtRule, s);
  }

  predicate IsBase64(c: char) {
    c in LOWERS || c in UPPERS || c in DIGITS || c in "-_="
  }

  /** Letters, digits and the signs of base64url. */
  predicate AllBase64(x: string) {
    forall i | 0 <= i < |x| :: IsBase64(x[i])
  }

  lemma {:induction false} InClass(x: string)
    ensures AllBase64(x) <==> AllOf(x, Base64)
  {
    forall i | 0 <= i < |x| ensures IsBase64(x[i]) <==> IsIn(x[i], Base64) {
      Base64Table(x[i]);
    }
  }

  lemma {:induction false} HeadInClass(h: string)
    requires AllOf(h, Base64)
    ensures AllOf("eyJ" + h, Base64)
  {
  }

  /** Header, payload and signature go, up to the first character that is none of base64url. */
  lemma {:induction false} JwtExtent(a: string, h: string, p: string, g: string, rest: string)
    requires Absent("eyJ", a) && p != "" && g != "" && AllBase64(h) && AllBase64(p) && AllBase64(g)
    requires rest != "" ==> !IsBase64(rest[0])
    ensures Pass(JwtRule, a + ("eyJ" + h + ("." + (p + ("." + (g + rest)))))) ==
      a + ("<redacted:jwt>" + Pass(JwtRule, rest))
  {
    InClass(h);
    InClass(p);
    InClass(g);
    if rest != "" {
      Base64Table(rest[0]);
    }
    HeadInClass(h);
    var tail := "." + (p + ("." + (g + rest)));
    Assoc("eyJ", h, tail);
    JwtPass(a, "eyJ" + h, p, g, rest, "eyJ" + h + tail, h + tail);
  }

  // The bearer token

  predicate SpellsBearer(w: string) {
    |w| == 7 && forall i | 0 <= i < 7 :: ToLower(w[i]) == "bearer "[i]
  }

  /** No `bearer ` in any case. */
  predicate HasNoBearer(a: string) {
    forall i | 0 <= i <= |a| :: |a[i..]| >= 7 ==> !SpellsBearer(a[i..][..7])
  }

  lemma {:induction false} NoBearerEarlier(a: string, w: string, tail: string, i: nat)
    requires HasNoBearer(a) && SpellsBearer(w) && i < |a|
    ensures !IsBearer((a + (w + tail))[i..])
  {
    var s, j := a + (w + tail), |a| - i;
    if j < 7 {
      assert s[i..][j] == w[0] && forall k | 0 < k < 7 :: "bearer "[k] != 'b';
    } else {
      assert forall k | 0 <= k < 7 :: a[i..][..7][k] == s[i..][k];
      assert !SpellsBearer(a[i..][..7]);
    }
  }

  lemma {:induction false} TokenIs(t: string, rest: string)
    requires (forall i | 0 <= i < |t| :: t[i] !in ASCII_SPACES) && (rest != "" ==> rest[0] in ASCII_SPACES)
    ensures PrefixLen(t + rest, NonSpace) == |t|
  {
    forall i | 0 <= i < |t| ensures IsIn((t + rest)[i], NonSpace) {
      SpaceTable(t[i]);
    }
    if rest != "" {
      SpaceTable(rest[0]);
    }
    PrefixLenIs(t + rest, NonSpace, |t|);
  }

  lemma {:induction false} BearerHitIs(w: string, t: string, rest: string, s: string)
    requires SpellsBearer(w) && s == w + (t + rest)
    requires (forall i | 0 <= i < |t| :: t[i] !in ASCII_SPACES) && (rest != "" ==> rest[0] in ASCII_SPACES)
    ensures HitAt(BearerRule, s) == Some(Hit(w + BEARER, 7 + |t|)) && s[7 + |t|..] == rest
  {
    assert s[..7] == w && s[7..] == t + rest;
    TokenIs(t, rest);
  }

  /** The word stays as it is written; everything up to the next white space or the end goes. */
  lemma {:induction false} BearerExtent(a: string, w: string, t: string, rest: string)
    requires HasNoBearer(a) && SpellsBearer(w)
    requires (forall i | 0 <= i < |t| :: t[i] !in ASCII_SPACES) && (rest != "" ==> rest[0] in ASCII_SPACES)
    ensures Pass(BearerRule, a + (w + (t + rest))) == a + (w + "<redacted:bearer>" + Pass(BearerRule, rest))
  {
    var s := w + (t + rest);
    forall i | 0 <= i < |a| ensures HitAt(BearerRule, (a + s)[i..]).None? {
      NoBearerEarlier(a, w, t + rest, i);
    }
    CopyAll(BearerRule, a, s);
    BearerHitIs(w, t, rest, s);
    PassHit(BearerRule, s);
  }

  // The literals

  /** The first occurrence goes, and the pass carries on behind it. */
  lemma {:induction false} LiteralExtent(text: string, marker: string, a: string, rest: string)
    requires text != "" && marker in {"<redacted:jwt>", "<redacted:secret>"}
    requires forall i | 0 <= i < |a| :: !(text <= (a + (text + rest))[i..])
    ensures var rule := Literal(text, marker); Pass(rule, a + (text + rest)) == a + (marker + Pass(rule, rest))
  {
    var rule := Literal(text, marker);
    CopyAll(rule, a, text + rest);
    PassHit(rule, text + rest);
    assert (text + rest)[|text|..] == rest;
  }

  /** The live token, before all other passes. */
  lemma {:induction false} LiveTokenExtent(token: string, a: string, rest: string)
    requires token != "" && forall i | 0 <= i < |a| :: !(token <= (a + (token + rest))[i..])
    ensures LivePass(a + (token + rest), Some(token)) == a + ("<redacted:jwt>" + LivePass(rest, Some(token)))
  {
    LiteralExtent(token, JWT, a, rest);
  }

  // What is left

  lemma {:induction false} JwtIsJwt(head: string, p: string, g: string, jwt: string)
    requires "eyJ" <= head && p != "" && g != "" && AllOf(head, Base64) && AllOf(p, Base64) && AllOf(g, Base64)
    requires jwt == head + ("." + (p + ("." + g)))
    ensures "eyJ" <= jwt && JwtLen(jwt).Some?
  {
    assert g + "" == g;
    JwtLenIs(head, p, g, "", jwt);
  }

  /** No key and no name of a secret is in a redacted text, spelled out. */
  lemma {:induction false} NamesAreGone(s: string)
    ensures var r := Standard(s);
      && Absent("rb_live_", r) && Absent("RB_MCP_JWT_SECRET", r) && Absent("RB_AGENT_API_KEY", r)
      && Absent("RB_LLM_API_KEY", r)
  {
    StandardIsClean(s);
  }

  /** And no JWT, at any place. */
  lemma {:induction false} JwtsAreGone(s: string, i: nat, h: string, p: string, g: string)
    requires i <= |Standard(s)| && p != "" && g != "" && AllBase64(h) && AllBase64(p) && AllBase64(g)
    ensures !("eyJ" + h + ("." + (p + ("." + g))) <= Standard(s)[i..])
  {
    StandardIsClean(s);
    InClass(h);
    InClass(p);
    InClass(g);
    HeadInClass(h);
    var jwt := "eyJ" + h + ("." + (p + ("." + g)));
    JwtIsJwt("eyJ" + h, p, g, jwt);
    if jwt <= Standard(s)[i..] {
      JwtFits(jwt, Standard(s)[i..]);
    }
  }
}
