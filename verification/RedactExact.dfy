/**
 * Which live tokens are sure to disappear: exactly those that no marker contains. For any other there
 * is a text whose redaction writes a marker, and the token with it.
 */
module RedactExact {
  import opened Prelude
  import opened Redact
  import opened RedactTheorems

  lemma {:induction false} NotAbsent(p: string, s: string, i: nat)
    requires i <= |s| && p <= s[i..]
    ensures !Absent(p, s)
  {
  }

  lemma {:induction false} CharIn(t: string, s: string, j: nat, k: nat)
    requires j <= |s| && t <= s[j..] && k < |t|
    ensures t[k] in s
  {
  }

  lemma {:induction false} SuffixHas(a: string, b: string, t: string)
    requires !Absent(t, b)
    ensures !Absent(t, a + b)
  {
    var j :| 0 <= j <= |b| && t <= b[j..];
    assert (a + b)[|a| + j..] == b[j..];
    NotAbsent(t, a + b, |a| + j);
  }

  /** A text that lacks one character of `p` lacks `p`. */
  lemma {:induction false} AbsentByChar(p: string, k: nat, s: string)
    requires k < |p| && p[k] !in s
    ensures Absent(p, s)
  {
  }

  lemma {:induction false} NoJwtByChar(s: string)
    requires 'J' !in s
    ensures NoJwt(s)
  {
    AbsentByChar("eyJ", 2, s);
  }

  lemma {:induction false} NamesByChar(s: string)
    requires '_' !in s
    ensures Absent(NAMES[0], s) && Absent(NAMES[1], s) && Absent(NAMES[2], s)
  {
    AbsentByChar(NAMES[0], 2, s);
    AbsentByChar(NAMES[1], 2, s);
    AbsentByChar(NAMES[2], 2, s);
  }

  lemma {:induction false} NoBearersByChar(s: string)
    requires ' ' !in s
    ensures BearersRedacted(s)
  {
    forall i | 0 <= i <= |s| ensures !IsBearer(s[i..]) {
      if i + 6 < |s| {
        assert s[i..][6] == s[i + 6] != ' ';
        assert ToLower(s[i..][6]) != "bearer "[6];
      }
    }
  }

  lemma {:induction false} NamesKeep(s: string)
    requires '_' !in s
    ensures Pass(NameRule(2), Pass(NameRule(1), Pass(NameRule(0), s))) == s
  {
    NamesByChar(s);
    AbsentIsKept(NameRule(0), s);
    AbsentIsKept(NameRule(1), s);
    AbsentIsKept(NameRule(2), s);
  }

  lemma {:induction false} KeyKeeps(s: string)
    requires '_' !in s
    ensures Pass(LiveKeyRule, s) == s
  {
    AbsentByChar("rb_live_", 2, s);
    AbsentIsKept(LiveKeyRule, s);
  }

  lemma {:induction false} MarkerIsKept(m: string)
    requires IsMarker(m)
    ensures Standard(m) == m
  {
    MarkerShape(m);
    NoJwtByChar(m);
    NoBearersByChar(m);
    AbsentByChar("rb_live_", 2, m);
    NamesByChar(m);
    CleanIsKept(m);
  }

  lemma {:induction false} HitWhole(rule: Rule, s: string, out: string)
    requires IsRule(rule) && s != "" && HitAt(rule, s) == Some(Hit(out, |s|))
    ensures Pass(rule, s) == out
  {
  }

  lemma {:induction false} InJwtStays(t: string)
    requires t != "" && !Absent(t, JWT)
    ensures !Absent(t, Redacted(t, Some(t)))
  {
    HitWhole(Literal(t, JWT), t, JWT);
    MarkerIsKept(JWT);
  }

  lemma {:induction false} LiveUntouched(s: string, t: string)
    requires t != "" && Absent(t, s)
    ensures Redacted(s, Some(t)) == Standard(s)
  {
    AbsentIsKept(Literal(t, JWT), s);
  }

  // A token from inside the bearer marker

  lemma {:induction false} BearerChars(c: char)
    requires c in BEARER && c != '<' && c != '>'
    ensures c == ':' || 'a' <= c <= 'z'
  {
  }

  /** A bearer word that lacks every letter of the marker. */
  lemma {:induction false} BearerText() returns (s: string)
    ensures |s| == 7 && IsBearer(s) && forall i | 0 <= i < 7 :: s[i] == ' ' || 'A' <= s[i] <= 'H' || s[i] == 'R'
  {
    s := "BEARER ";
  }

  lemma {:induction false} BearerWordBecomes(s: string)
    requires |s| == 7 && IsBearer(s)
    ensures Pass(BearerRule, s) == s + BEARER
  {
    assert s[..7] == s && s[7..] == "";
    HitWhole(BearerRule, s, s + BEARER);
  }

  lemma {:induction false} KeysKeep(s: string)
    requires '_' !in s
    ensures Pass(NameRule(2), Pass(NameRule(1), Pass(NameRule(0), Pass(LiveKeyRule, s)))) == s
  {
    KeyKeeps(s);
    NamesKeep(s);
  }

  lemma {:induction false} BearerTextBecomes(s: string)
    requires |s| == 7 && IsBearer(s) && 'J' !in s && '_' !in s
    ensures Standard(s) == s + BEARER
  {
    NoJwtByChar(s);
    NoJwtIsKept(s);
    BearerWordBecomes(s);
    MarkerShape(BEARER);
    KeysKeep(s + BEARER);
  }

  lemma {:induction false} InBearerStays(t: string, s: string)
    requires t != "" && AngleFree(t) && !Absent(t, BEARER)
    requires |s| == 7 && IsBearer(s) && forall i | 0 <= i < 7 :: s[i] == ' ' || 'A' <= s[i] <= 'H' || s[i] == 'R'
    ensures !Absent(t, Redacted(s, Some(t)))
  {
    FirstOfToken(t);
    AbsentByChar(t, 0, s);
    LiveUntouched(s, t);
    BearerTextBecomes(s);
    SuffixHas(s, BEARER, t);
  }

  lemma {:induction false} FirstOfToken(t: string)
    requires t != "" && AngleFree(t) && !Absent(t, BEARER)
    ensures t[0] == ':' || 'a' <= t[0] <= 'z'
  {
    var j :| 0 <= j <= |BEARER| && t <= BEARER[j..];
    CharIn(t, BEARER, j, 0);
    BearerChars(t[0]);
  }

  // A token from inside the secret marker

  lemma {:induction false} SecretChars(c: char)
    requires c in SECRET
    ensures c !in {'b', '_', 'l', 'i', 'v'}
  {
  }

  lemma {:induction false} ShortToken(t: string)
    requires |t| == 1 && Absent(t, JWT)
    ensures t[0] != 'r' && t[0] != 'e'
  {
    NotAbsent("r", JWT, 1);
    NotAbsent("e", JWT, 2);
    assert t == [t[0]];
  }

  lemma {:induction false} TokenChar(t: string, k: nat)
    requires !Absent(t, SECRET) && k < |t|
    ensures t[k] !in {'b', '_', 'l', 'i', 'v'}
  {
    var j :| 0 <= j <= |SECRET| && t <= SECRET[j..];
    CharIn(t, SECRET, j, k);
    SecretChars(t[k]);
  }

  lemma {:induction false} KeyTextLacks(t: string, s: string)
    requires t != "" && !Absent(t, SECRET) && Absent(t, JWT) && s == "rb_live_"
    ensures Absent(t, s)
  {
    TokenChar(t, 0);
    if |t| == 1 {
      ShortToken(t);
      KeyHas(t[0]);
      AbsentByChar(t, 0, s);
    } else {
      TokenChar(t, 1);
      NoPair(t, s);
    }
  }

  lemma {:induction false} KeyHas(c: char)
    requires c !in {'r', 'e', 'b', '_', 'l', 'i', 'v'}
    ensures c !in "rb_live_"
  {
  }

  lemma {:induction false} NoPair(t: string, s: string)
    requires |t| > 1 && forall i | 0 <= i < |s| - 1 :: s[i] != t[0] || s[i + 1] != t[1]
    ensures Absent(t, s)
  {
    forall i | 0 <= i <= |s| ensures !(t <= s[i..]) {
      if i < |s| - 1 {
        assert s[i..][0] == s[i] && s[i..][1] == s[i + 1];
      }
    }
  }

  lemma {:induction false} KeyBecomes(s: string)
    requires |s| == 8 && "rb_live_" <= s
    ensures Pass(LiveKeyRule, s) == SECRET
  {
    assert s[8..] == "";
    HitWhole(LiveKeyRule, s, SECRET);
  }

  lemma {:induction false} KeyTextBecomes(s: string)
    requires |s| == 8 && "rb_live_" <= s && 'J' !in s && ' ' !in s
    ensures Standard(s) == SECRET
  {
    NoJwtByChar(s);
    NoJwtIsKept(s);
    NoBearersByChar(s);
    RedactedBearersAreKept(s);
    KeyBecomes(s);
    MarkerShape(SECRET);
    NamesKeep(SECRET);
  }

  lemma {:induction false} KeyText(s: string)
    requires s == "rb_live_"
    ensures |s| == 8 && "rb_live_" <= s && 'J' !in s && ' ' !in s
  {
  }

  lemma {:induction false} InSecretStays(t: string, s: string)
    requires t != "" && !Absent(t, SECRET) && Absent(t, JWT) && s == "rb_live_"
    ensures !Absent(t, Redacted(s, Some(t)))
  {
    KeyTextLacks(t, s);
    LiveUntouched(s, t);
    KeyText(s);
    KeyTextBecomes(s);
  }

  predicate InNoMarker(t: string) {
    Absent(t, JWT) && Absent(t, BEARER) && Absent(t, SECRET)
  }

  ghost predicate IsAlwaysGone(t: string) {
    forall s :: Absent(t, Redacted(s, Some(t)))
  }

  /** Any other token survives in some text. */
  lemma {:induction false} OtherTokenStays(t: string) returns (s: string)
    requires t != "" && AngleFree(t) && !InNoMarker(t)
    ensures !Absent(t, Redacted(s, Some(t)))
  {
    if !Absent(t, JWT) {
      s := t;
      InJwtStays(t);
    } else if !Absent(t, BEARER) {
      s := BearerText();
      InBearerStays(t, s);
    } else {
      s := "rb_live_";
      InSecretStays(t, s);
    }
  }

  /** A live token without angle brackets is gone from every redacted text exactly when no marker contains it. */
  lemma {:induction false} LiveTokenIsGoneExactly(t: string)
    requires t != "" && AngleFree(t)
    ensures IsAlwaysGone(t) <==> InNoMarker(t)
  {
    if InNoMarker(t) {
      forall s ensures Absent(t, Redacted(s, Some(t))) {
        LiveTokenIsGone(s, t);
      }
    } else {
      var s := OtherTokenStays(t);
    }
  }
}
