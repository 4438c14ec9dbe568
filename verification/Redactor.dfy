/**
 * The redactor as `redact_with_token` runs it: loops that search for the next pattern and slice the text there.
 * Each is proved to compute its pass, and every slice it takes to fall on a character boundary.
 */
module Redactor {
  import opened Prelude
  import opened Utf8
  import opened Percent
  import opened Redact
  import opened RedactTheorems

  /** The first position where `p` occurs. */
  function Find(s: string, p: string): (at: Option<nat>)
    ensures at.Some? ==> at.value <= |s| && p <= s[at.value..] && forall j | 0 <= j < at.value :: !(p <= s[j..])
    ensures at.None? ==> Absent(p, s)
    decreases s
  {
    assert s[0..] == s;
    if p <= s then Some(0)
    else if s == "" then None
    else
      var later := Find(s[1..], p);
      assert forall j | 0 < j <= |s| :: s[1..][j - 1..] == s[j..];
      if later.None? then None else Some(later.value + 1)
  }

  function Lower(s: string): (l: string)
    ensures |l| == |s|
  {
    seq(|s|, i requires 0 <= i < |s| => ToLower(s[i]))
  }

  lemma {:induction false} LowerBearer(s: string, i: nat)
    requires i <= |s|
    ensures "bearer " <= Lower(s)[i..] <==> IsBearer(s[i..])
  {
  }

  lemma {:induction false} SkipTo(rule: Rule, s: string, pos: nat)
    requires IsRule(rule) && pos <= |s| && Quiet(rule, s, pos)
    ensures Pass(rule, s) == s[..pos] + Pass(rule, s[pos..])
  {
    assert s == s[..pos] + s[pos..];
    CopyAll(rule, s[..pos], s[pos..]);
  }

  lemma {:induction false} QuietIsKept(rule: Rule, s: string)
    requires IsRule(rule) && Quiet(rule, s, |s|)
    ensures Pass(rule, s) == s
  {
    SkipTo(rule, s, |s|);
    assert s[|s|..] == "" && s[..|s|] + "" == s;
  }

  /** Loop state: what is written, and what is still to be read. */
  predicate InLoop(rule: Rule, buf: string, out: string, rest: string)
    requires IsRule(rule)
  {
    Pass(rule, buf) == out + Pass(rule, rest)
  }

  lemma {:induction false} LoopStart(rule: Rule, buf: string)
    requires IsRule(rule)
    ensures InLoop(rule, buf, "", buf)
  {
  }

  /** One turn: copy up to the hit, write its replacement, go on after it. */
  lemma {:induction false} LoopTurn(rule: Rule, buf: string, out: string, rest: string, pos: nat, h: Hit)
    requires IsRule(rule) && pos < |rest| && InLoop(rule, buf, out, rest) && Quiet(rule, rest, pos)
    requires HitAt(rule, rest[pos..]) == Some(h)
    ensures InLoop(rule, buf, out + rest[..pos] + h.output, rest[pos..][h.len..])
  {
    SkipTo(rule, rest, pos);
    PassHit(rule, rest[pos..]);
    var later := Pass(rule, rest[pos..][h.len..]);
    Assoc(out, rest[..pos], h.output + later);
    Assoc(out + rest[..pos], h.output, later);
  }

  lemma {:induction false} LoopEnd(rule: Rule, buf: string, out: string, rest: string)
    requires IsRule(rule) && InLoop(rule, buf, out, rest) && Quiet(rule, rest, |rest|)
    ensures out + rest == Pass(rule, buf)
  {
    QuietIsKept(rule, rest);
  }

  lemma {:induction false} QuietBefore(rule: Rule, s: string, p: string)
    requires (rule.JwtRule? && p == "eyJ") || (rule.LiveKeyRule? && p == "rb_live_")
    ensures Quiet(rule, s, if Find(s, p).Some? then Find(s, p).value else |s|)
  {
  }

  // Well-formedness of what a pass writes

  lemma {:induction false} QuietInChar(rule: Rule, s: string)
    requires IsRule(rule) && (rule.Literal? ==> IsUtf8(rule.text)) && s != "" && CharLen(s) > 0 && HitAt(rule, s).None?
    ensures Quiet(rule, s, CharLen(s))
  {
    forall j | 0 <= j < CharLen(s) ensures HitAt(rule, s[j..]).None? {
      assert s[0..] == s;
      if j > 0 {
        InnerTails(s, j);
        assert s[j..][0] == s[j];
        NoHitAtTail(rule, s[j..]);
      }
    }
  }

  lemma {:induction false} NoHitAtTail(rule: Rule, s: string)
    requires IsRule(rule) && (rule.Literal? ==> IsUtf8(rule.text)) && s != "" && IsTail(s[0])
    ensures HitAt(rule, s).None?
  {
  }

  lemma {:induction false} MarkerUtf8(m: string)
    requires IsMarker(m) || m == "eyJ"
    ensures IsUtf8(m)
  {
    MarkerIsAscii(m);
    AsciiUtf8(m);
  }

  lemma {:induction false} MarkerIsAscii(m: string)
    requires IsMarker(m) || m == "eyJ"
    ensures forall i | 0 <= i < |m| :: m[i] <= 0x7F as char
  {
  }

  lemma {:induction false} JwtHitUtf8(s: string)
    requires IsUtf8(s) && "eyJ" <= s
    ensures IsUtf8(RestOf(JwtRule, s))
  {
    Utf8IsSliceable(s);
    if JwtLen(s).Some? {
      JwtBoundary(s);
      DropUtf8(s, JwtLen(s).value);
    } else {
      EyJBoundary(s);
      DropUtf8(s, 3);
    }
  }

  lemma {:induction false} BearerHitUtf8(s: string)
    requires IsUtf8(s) && IsBearer(s)
    ensures IsUtf8(s[..7]) && IsUtf8(RestOf(BearerRule, s))
  {
    Utf8IsSliceable(s);
    BearerBoundaries(s);
    TakeUtf8(s, 7);
    DropUtf8(s, 7);
    DropUtf8(s[7..], PrefixLen(s[7..], NonSpace));
    DropDrop(s, 7, PrefixLen(s[7..], NonSpace));
  }

  lemma {:induction false} KeyHitUtf8(s: string)
    requires IsUtf8(s) && "rb_live_" <= s
    ensures IsUtf8(RestOf(LiveKeyRule, s))
  {
    Utf8IsSliceable(s);
    KeyBoundaries(s);
    DropUtf8(s, 8);
    DropUtf8(s[8..], PrefixLen(s[8..], Hex));
    DropDrop(s, 8, PrefixLen(s[8..], Hex));
  }

  lemma {:induction false} RestUtf8(rule: Rule, s: string)
    requires IsRule(rule) && (rule.Literal? ==> IsUtf8(rule.text)) && IsUtf8(s) && s != "" && HitAt(rule, s).Some?
    ensures IsUtf8(RestOf(rule, s))
  {
    match rule
    case Literal(text, _) => AfterPrefix(text, s);
    case JwtRule => JwtHitUtf8(s);
    case BearerRule => BearerHitUtf8(s);
    case LiveKeyRule => KeyHitUtf8(s);
  }

  lemma {:induction false} CopiedUtf8(rule: Rule, s: string)
    requires IsRule(rule) && IsUtf8(s) && s != "" && HitAt(rule, s).Some?
    ensures IsUtf8(Copied(rule, s))
  {
    if rule.BearerRule? {
      BearerHitUtf8(s);
    } else if Copied(rule, s) != "" {
      AsciiUtf8(Copied(rule, s));
    }
  }

  lemma {:induction false} OutputUtf8(rule: Rule, s: string)
    requires IsRule(rule) && IsUtf8(s) && s != "" && HitAt(rule, s).Some?
    ensures IsUtf8(HitAt(rule, s).value.output)
  {
    var marker := if Marks(rule, s) then MarkerOf(rule) else "";
    HitParts(rule, s);
    CopiedUtf8(rule, s);
    if Marks(rule, s) {
      MarkerUtf8(MarkerOf(rule));
    }
    ConcatUtf8(Copied(rule, s), marker);
  }

  /** What a hit writes is well-formed, and it ends where a character ends. */
  lemma {:induction false} HitUtf8(rule: Rule, s: string)
    requires IsRule(rule) && (rule.Literal? ==> IsUtf8(rule.text)) && IsUtf8(s) && s != "" && HitAt(rule, s).Some?
    ensures IsUtf8(HitAt(rule, s).value.output) && IsUtf8(RestOf(rule, s))
  {
    OutputUtf8(rule, s);
    RestUtf8(rule, s);
  }

  /** No pass breaks a character apart. */
  lemma {:induction false} PassUtf8(rule: Rule, s: string)
    requires IsRule(rule) && (rule.Literal? ==> IsUtf8(rule.text)) && IsUtf8(s)
    ensures IsUtf8(Pass(rule, s))
    decreases s
  {
    if s == "" {
    } else {
      if HitAt(rule, s).Some? {
        HitUtf8(rule, s);
        PassUtf8(rule, RestOf(rule, s));
        PassHit(rule, s);
        ConcatUtf8(HitAt(rule, s).value.output, Pass(rule, RestOf(rule, s)));
      } else {
        var n := CharLen(s);
        QuietInChar(rule, s);
        SkipTo(rule, s, n);
        PassUtf8(rule, s[n..]);
        OneCharUtf8(s);
        ConcatUtf8(s[..n], Pass(rule, s[n..]));
      }
    }
  }

  lemma {:induction false} OneCharUtf8(s: string)
    requires CharLen(s) > 0
    ensures IsUtf8(s[..CharLen(s)])
  {
  }

  // JWTs

  predicate IsB64Url(s: string) {
    s != "" && PrefixLen(s, Base64) == |s|
  }

  /** A base64url run ends at the first dot, or there is none before it. */
  lemma {:induction false} DotAt(s: string)
    ensures match Find(s, ".")
      case None => PrefixLen(s, Base64) < |s| ==> s[PrefixLen(s, Base64)] != '.'
      case Some(d) =>
        && d < |s| && s[d] == '.'
        && if PrefixLen(s[..d], Base64) == d then PrefixLen(s, Base64) == d
           else PrefixLen(s, Base64) < |s| && s[PrefixLen(s, Base64)] != '.'
  {
    var n := PrefixLen(s, Base64);
    if n < |s| && s[n] == '.' {
      assert "." <= s[n..];
    }
    match Find(s, ".") {
      case None =>
      case Some(d) =>
        assert s[d..][0] == '.';
        assert forall i | 0 <= i < d :: s[..d][i] == s[i];
        if PrefixLen(s[..d], Base64) == d {
          PrefixLenIs(s, Base64, d);
        } else if n == d {
          PrefixLenIs(s[..d], Base64, d);
        }
    }
  }

  lemma {:induction false} DotBoundaries(s: string, d: nat)
    requires Sliceable(s) && d < |s| && s[d] == '.'
    ensures IsBoundary(s, d) && IsBoundary(s, d + 1)
  {
  }

  /** One `find` for the dot, and the check of what is before it. */
  method FindSegment(s: string) returns (n: Option<nat>)
    requires Sliceable(s)
    ensures n == Segment(s)
    ensures n.Some? ==> IsBoundary(s, n.value + 1)
  {
    var dot := Find(s, ".");
    DotAt(s);
    if dot.None? {
      return None;
    }
    DotBoundaries(s, dot.value);
    if !IsB64Url(To(s, dot.value)) {
      return None;
    }
    return dot;
  }

  method JwtSpan(s: string) returns (n: Option<nat>)
    requires Sliceable(s)
    ensures n == JwtLen(s)
  {
    n := None;
    var dot1 := FindSegment(s);
    if dot1.Some? {
      var after1 := From(s, dot1.value + 1);
      SliceableFrom(s, dot1.value + 1);
      var dot2 := FindSegment(after1);
      if dot2.Some? {
        var sigLen := PrefixLen(From(after1, dot2.value + 1), Base64);
        if sigLen != 0 {
          n := Some(dot1.value + 1 + dot2.value + 1 + sigLen);
        }
      }
    }
  }

  /** Every byte of a JWT is ASCII, so it ends at a character boundary. */
  lemma {:induction false} JwtBoundary(s: string)
    requires Sliceable(s) && JwtLen(s).Some?
    ensures IsBoundary(s, JwtLen(s).value)
  {
    JwtLastChar(s);
  }

  lemma {:induction false} JwtLastChar(s: string)
    requires JwtLen(s).Some?
    ensures IsIn(s[JwtLen(s).value - 1], Base64)
  {
  }

  lemma {:induction false} EyJBoundary(s: string)
    requires Sliceable(s) && "eyJ" <= s
    ensures IsBoundary(s, 3)
  {
    assert s[2] == "eyJ"[2];
  }

  method ApplyJwtPattern(buf: string) returns (r: string)
    requires Sliceable(buf)
    ensures r == Pass(JwtRule, buf)
  {
    var out, rest := "", buf;
    LoopStart(JwtRule, buf);
    var pos := Find(rest, "eyJ");
    while pos.Some?
      invariant InLoop(JwtRule, buf, out, rest) && Sliceable(rest) && pos == Find(rest, "eyJ")
      decreases |rest|
    {
      var p := pos.value;
      assert rest[p] == rest[p..][0];
      QuietBefore(JwtRule, rest, "eyJ");
      ghost var was := out;
      out := out + To(rest, p);
      var candidate := From(rest, p);
      SliceableFrom(rest, p);
      var end := JwtSpan(candidate);
      var written, len := "eyJ", 3;
      if end.Some? {
        written, len := JWT, end.value;
        JwtBoundary(candidate);
      } else {
        EyJBoundary(candidate);
      }
      LoopTurn(JwtRule, buf, was, rest, p, Hit(written, len));
      out := out + written;
      rest := From(candidate, len);
      SliceableFrom(candidate, len);
      pos := Find(rest, "eyJ");
    }
    QuietBefore(JwtRule, rest, "eyJ");
    LoopEnd(JwtRule, buf, out, rest);
    return out + rest;
  }

  // Bearer tokens

  lemma {:induction false} QuietBeforeBearer(s: string)
    ensures Quiet(BearerRule, s, if Find(Lower(s), "bearer ").Some? then Find(Lower(s), "bearer ").value else |s|)
  {
    var n := if Find(Lower(s), "bearer ").Some? then Find(Lower(s), "bearer ").value else |s|;
    forall j | 0 <= j < n ensures HitAt(BearerRule, s[j..]).None? {
      LowerBearer(s, j);
    }
  }

  lemma {:induction false} BearerBoundaries(s: string)
    requires Sliceable(s) && IsBearer(s)
    ensures s[0] <= 0x7F as char && IsBoundary(s, 7) && IsBoundary(s[7..], PrefixLen(s[7..], NonSpace))
  {
    assert ToLower(s[0]) == "bearer "[0] && ToLower(s[6]) == "bearer "[6];
  }

  lemma {:induction false} LowerDrop(s: string, i: nat, j: nat)
    requires i + j <= |s|
    ensures Lower(s)[i + j..] == Lower(s[i..][j..])
  {
  }

  lemma {:induction false} BearerTurn(buf: string, out: string, rest: string, p: nat, start: nat)
    requires InLoop(BearerRule, buf, out, rest) && Find(Lower(rest), "bearer ") == Some(p) && start == p + 7
    ensures start <= |rest| && IsBearer(rest[p..])
    ensures InLoop(BearerRule, buf, out + rest[..start] + BEARER, rest[start..][PrefixLen(rest[start..], NonSpace)..])
  {
    LowerBearer(rest, p);
    QuietBeforeBearer(rest);
    DropDrop(rest, p, 7);
    BearerHitTurn(buf, out, rest, p, PrefixLen(rest[p + 7..], NonSpace));
  }

  lemma {:induction false} BearerHit(s: string, tok: nat)
    requires IsBearer(s) && tok == PrefixLen(s[7..], NonSpace)
    ensures HitAt(BearerRule, s) == Some(Hit(s[..7] + BEARER, 7 + tok))
  {
  }

  lemma {:induction false} BearerHitTurn(buf: string, out: string, rest: string, p: nat, tok: nat)
    requires InLoop(BearerRule, buf, out, rest) && p + 7 <= |rest| && Quiet(BearerRule, rest, p)
    requires IsBearer(rest[p..]) && rest[p..][7..] == rest[p + 7..] && tok == PrefixLen(rest[p + 7..], NonSpace)
    ensures InLoop(BearerRule, buf, out + rest[..p + 7] + BEARER, rest[p + 7..][tok..])
  {
    var s := rest[p..];
    BearerHit(s, tok);
    LoopTurn(BearerRule, buf, out, rest, p, Hit(s[..7] + BEARER, 7 + tok));
    DropDrop(s, 7, tok);
    BearerText(out, rest, p);
  }

  lemma {:induction false} BearerText(out: string, rest: string, p: nat)
    requires p + 7 <= |rest|
    ensures out + rest[..p] + (rest[p..][..7] + BEARER) == out + rest[..p + 7] + BEARER
  {
  }

  lemma {:induction false} BearerSlices(rest: string, p: nat, start: nat)
    requires Sliceable(rest) && p + 7 == start <= |rest| && IsBearer(rest[p..])
    ensures IsBoundary(rest, start) && IsBoundary(rest[start..], PrefixLen(rest[start..], NonSpace))
    ensures Sliceable(rest[start..][PrefixLen(rest[start..], NonSpace)..])
  {
    var s := rest[p..];
    assert ToLower(s[6]) == "bearer "[6] && rest[p + 6] == s[6];
    SliceableFrom(rest, p + 7);
    SliceableFrom(rest[p + 7..], PrefixLen(rest[p + 7..], NonSpace));
  }

  /** State of the loop below. */
  predicate AtBearer(buf: string, out: string, rest: string, restLower: string, pos: Option<nat>) {
    && InLoop(BearerRule, buf, out, rest) && Sliceable(rest)
    && restLower == Lower(rest) && pos == Find(restLower, "bearer ")
  }

  lemma {:induction false} BearerStarts(buf: string)
    requires Sliceable(buf)
    ensures AtBearer(buf, "", buf, Lower(buf), Find(Lower(buf), "bearer "))
  {
    LoopStart(BearerRule, buf);
  }

  lemma {:induction false} BearerAgain(buf: string, out: string, rest: string, lower: string)
    requires InLoop(BearerRule, buf, out, rest) && Sliceable(rest) && lower == Lower(rest)
    ensures AtBearer(buf, out, rest, lower, Find(lower, "bearer "))
  {
  }

  /** Lower-casing keeps every character boundary where it is. */
  lemma {:induction false} LowerBoundary(s: string, i: nat)
    requires IsBoundary(s, i)
    ensures IsBoundary(Lower(s), i)
  {
  }

  lemma {:induction false} BoundaryLater(s: string, i: nat, j: nat)
    requires i <= |s| && IsBoundary(s[i..], j) && (j > 0 || IsBoundary(s, i))
    ensures IsBoundary(s, i + j)
  {
    if i + j < |s| {
      assert s[i..][j] == s[i + j];
    }
  }

  lemma {:induction false} BearerFound(buf: string, out: string, rest: string, restLower: string, pos: Option<nat>,
                                       start: nat)
    requires AtBearer(buf, out, rest, restLower, pos) && pos.Some? && start == pos.value + 7
    ensures start <= |rest| == |restLower| && Sliceable(rest) && restLower == Lower(rest)
    ensures Find(Lower(rest), "bearer ") == pos && InLoop(BearerRule, buf, out, rest)
    ensures IsBearer(rest[pos.value..]) && IsBoundary(rest, start)
  {
    LowerBearer(rest, pos.value);
    BearerSlices(rest, pos.value, start);
  }

  /** Where the token ends: a boundary of the text, of its lower-case copy and of what is left. */
  lemma {:induction false} BearerEnds(rest: string, restLower: string, start: nat, after: string, tokLen: nat)
    requires start <= |rest| && after == rest[start..] && tokLen <= |after| && restLower == Lower(rest)
    requires IsBoundary(rest, start) && IsBoundary(after, tokLen)
    ensures start + tokLen <= |restLower| && IsBoundary(restLower, start + tokLen)
    ensures restLower[start + tokLen..] == Lower(after[tokLen..])
  {
    BoundaryLater(rest, start, tokLen);
    LowerBoundary(rest, start + tokLen);
    LowerDrop(rest, start, tokLen);
  }

  /** One turn: `after` is the text behind the word, and `tokLen` the length of the token there. */
  lemma {:induction false} BearerKeeps(buf: string, out: string, rest: string, restLower: string, pos: Option<nat>,
                                       start: nat, after: string, tokLen: nat)
    requires AtBearer(buf, out, rest, restLower, pos) && pos.Some? && start == pos.value + 7
    requires start <= |rest| && after == rest[start..] && tokLen == PrefixLen(after, NonSpace)
    ensures IsBoundary(after, tokLen) && start + tokLen <= |restLower| && IsBoundary(restLower, start + tokLen)
    ensures AtBearerNext(buf, out + rest[..start] + BEARER, after, tokLen, restLower[start + tokLen..])
  {
    BearerFound(buf, out, rest, restLower, pos, start);
    BearerTurn(buf, out, rest, pos.value, start);
    BearerSlices(rest, pos.value, start);
    BearerEnds(rest, restLower, start, after, tokLen);
    BearerAgain(buf, out + rest[..start] + BEARER, after[tokLen..], restLower[start + tokLen..]);
  }

  predicate AtBearerNext(buf: string, out: string, after: string, tokLen: nat, lower: string) {
    tokLen <= |after| && AtBearer(buf, out, after[tokLen..], lower, Find(lower, "bearer "))
  }

  lemma {:induction false} BearerDone(buf: string, out: string, rest: string, restLower: string, pos: Option<nat>)
    requires AtBearer(buf, out, rest, restLower, pos) && pos.None?
    ensures out + rest == Pass(BearerRule, buf)
  {
    QuietBeforeBearer(rest);
    LoopEnd(BearerRule, buf, out, rest);
  }

  method ApplyBearerPattern(buf: string) returns (r: string)
    requires Sliceable(buf)
    ensures r == Pass(BearerRule, buf)
  {
    var out, restOrig, restLower := "", buf, Lower(buf);
    BearerStarts(buf);
    var pos := Find(restLower, "bearer ");
    while pos.Some?
      invariant AtBearer(buf, out, restOrig, restLower, pos)
      decreases |restOrig|
    {
      var start := pos.value + 7;
      BearerFound(buf, out, restOrig, restLower, pos, start);
      var after := From(restOrig, start);
      var tokLen := PrefixLen(after, NonSpace);
      BearerKeeps(buf, out, restOrig, restLower, pos, start, after, tokLen);
      out := out + To(restOrig, start) + BEARER;
      restOrig := From(after, tokLen);
      restLower := From(restLower, start + tokLen);
      pos := Find(restLower, "bearer ");
    }
    BearerDone(buf, out, restOrig, restLower, pos);
    return out + restOrig;
  }

  // Keys and names

  lemma {:induction false} KeyBoundaries(s: string)
    requires Sliceable(s) && "rb_live_" <= s
    ensures IsBoundary(s, 8) && IsBoundary(s[8..], PrefixLen(s[8..], Hex))
  {
    assert s[7] == "rb_live_"[7];
    var n := PrefixLen(s[8..], Hex);
    if n > 0 {
      assert IsIn(s[8..][n - 1], Hex) && s[8 + (n - 1)] == s[8..][n - 1];
    }
  }

  lemma {:induction false} KeyTurn(buf: string, out: string, rest: string, p: nat)
    requires InLoop(LiveKeyRule, buf, out, rest) && Find(rest, "rb_live_") == Some(p)
    ensures p + 8 <= |rest| && "rb_live_" <= rest[p..]
    ensures InLoop(LiveKeyRule, buf, out + rest[..p] + SECRET, rest[p + 8..][PrefixLen(rest[p + 8..], Hex)..])
  {
    QuietBefore(LiveKeyRule, rest, "rb_live_");
    var s := rest[p..];
    DropDrop(rest, p, 8);
    var n := PrefixLen(s[8..], Hex);
    LoopTurn(LiveKeyRule, buf, out, rest, p, Hit(SECRET, 8 + n));
    DropDrop(s, 8, n);
  }

  lemma {:induction false} KeySlices(rest: string, p: nat)
    requires Sliceable(rest) && p + 8 <= |rest| && "rb_live_" <= rest[p..]
    ensures IsBoundary(rest, p) && IsBoundary(rest, p + 8) && IsBoundary(rest[p + 8..], PrefixLen(rest[p + 8..], Hex))
    ensures Sliceable(rest[p + 8..][PrefixLen(rest[p + 8..], Hex)..])
  {
    var s := rest[p..];
    assert s[0] == "rb_live_"[0] && rest[p] == s[0];
    SliceableFrom(rest, p);
    KeyBoundaries(s);
    DropDrop(rest, p, 8);
    assert p + 8 < |rest| ==> rest[p + 8] == s[8];
    SliceableFrom(rest, p + 8);
    SliceableFrom(rest[p + 8..], PrefixLen(rest[p + 8..], Hex));
  }

  method ApplyKeyPattern(buf: string) returns (r: string)
    requires Sliceable(buf)
    ensures r == Pass(LiveKeyRule, buf)
  {
    var out, rest := "", buf;
    LoopStart(LiveKeyRule, buf);
    var pos := Find(rest, "rb_live_");
    while pos.Some?
      invariant InLoop(LiveKeyRule, buf, out, rest) && Sliceable(rest) && pos == Find(rest, "rb_live_")
      decreases |rest|
    {
      var p := pos.value;
      KeyTurn(buf, out, rest, p);
      KeySlices(rest, p);
      out := out + To(rest, p);
      var after := From(rest, p + 8);
      var keyLen := PrefixLen(after, Hex);
      out := out + SECRET;
      rest := From(after, keyLen);
      pos := Find(rest, "rb_live_");
    }
    QuietBefore(LiveKeyRule, rest, "rb_live_");
    LoopEnd(LiveKeyRule, buf, out, rest);
    return out + rest;
  }

  method ApplyPrefixPattern(buf: string) returns (r: string)
    requires Sliceable(buf)
    ensures r == Pass(NameRule(2), Pass(NameRule(1), Pass(NameRule(0), Pass(LiveKeyRule, buf))))
  {
    r := ApplyKeyPattern(buf);
    r := ApplyName(0, r);
    r := ApplyName(1, r);
    r := ApplyName(2, r);
  }

  method ApplyName(k: nat, buf: string) returns (r: string)
    requires k < 3
    ensures r == Pass(NameRule(k), buf)
  {
    if Find(buf, NAMES[k]).Some? {
      return Pass(NameRule(k), buf);
    } else {
      AbsentIsKept(NameRule(k), buf);
      return buf;
    }
  }

  method ApplyLiveToken(buf: string, token: Option<string>) returns (r: string)
    ensures r == LivePass(buf, token)
  {
    r := buf;
    if token.Some? && token.value != "" {
      if Find(buf, token.value).Some? {
        r := Pass(Literal(token.value, JWT), buf);
      } else {
        AbsentIsKept(Literal(token.value, JWT), buf);
      }
    }
  }

  lemma {:induction false} LivePassUtf8(s: string, token: Option<string>)
    requires IsUtf8(s) && (token.Some? ==> IsUtf8(token.value))
    ensures IsUtf8(LivePass(s, token))
  {
    if token.Some? && token.value != "" {
      PassUtf8(Literal(token.value, JWT), s);
    }
  }

  lemma {:induction false} StandardUtf8(s: string)
    requires IsUtf8(s)
    ensures IsUtf8(Standard(s))
  {
    PassUtf8(JwtRule, s);
    PassUtf8(BearerRule, Pass(JwtRule, s));
    var s2 := Pass(BearerRule, Pass(JwtRule, s));
    PassUtf8(LiveKeyRule, s2);
    NameUtf8(0, Pass(LiveKeyRule, s2));
    NameUtf8(1, Pass(NameRule(0), Pass(LiveKeyRule, s2)));
    NameUtf8(2, Pass(NameRule(1), Pass(NameRule(0), Pass(LiveKeyRule, s2))));
  }

  lemma {:induction false} NameUtf8(k: nat, s: string)
    requires k < 3 && IsUtf8(s)
    ensures IsUtf8(Pass(NameRule(k), s))
  {
    AsciiUtf8(NAMES[k]);
    PassUtf8(NameRule(k), s);
  }

  // The entry point

  predicate Contains(s: string, p: string) {
    Find(s, p).Some?
  }

  predicate NeedsScan(s: string) {
    || Contains(s, "eyJ") || Contains(s, "rb_live_") || Contains(Lower(s), "bearer ")
    || Contains(s, NAMES[0]) || Contains(s, NAMES[1]) || Contains(s, NAMES[2])
  }

  /** The text that the patterns are looked for in. */
  function Working(s: string): string {
    if Contains(s, "%") && HasEscape(s) then Decode(s) else s
  }

  /** Without the scan nothing is missed: no pass would change such a text. */
  lemma {:induction false} FastPathIsClean(s: string)
    requires !NeedsScan(s)
    ensures IsClean(s)
  {
    QuietBeforeBearer(s);
    assert forall i | 0 <= i < |s| :: !IsBearer(s[i..]);
  }

  /** `Borrowed` is the caller's own text. */
  datatype Redaction = Borrowed | Owned(text: string)

  /** Whether the caller gets its own text back. */
  predicate IsBorrowed(s: string, token: Option<string>) {
    !NeedsScan(Working(s)) && (token.Some? && token.value != "" ==> Absent(token.value, Working(s)))
  }

  /** The text that the caller ends up with: on the fast path its own, not the decoded one. */
  function Returned(s: string, token: Option<string>): string {
    if IsBorrowed(s, token) then s else Redacted(Working(s), token)
  }

  method RedactWithToken(s: string, token: Option<string>) returns (r: Redaction)
    requires IsUtf8(s) && (token.Some? ==> IsUtf8(token.value))
    ensures r.Borrowed? <==> IsBorrowed(s, token)
    ensures (if r.Borrowed? then s else r.text) == Returned(s, token)
    ensures r.Borrowed? ==> Redacted(Working(s), token) == Working(s)
    ensures IsUtf8(Redacted(Working(s), token)) && IsClean(Redacted(Working(s), token))
  {
    var working := s;
    if Contains(s, "%") {
      var decoded := PercentDecodeAscii(s);
      DecodeUtf8(s);
      if decoded.Some? {
        working := decoded.value;
      }
    }
    StandardIsClean(LivePass(working, token));
    LivePassUtf8(working, token);
    StandardUtf8(LivePass(working, token));
    if !NeedsScan(working) && (token.None? || token.value == "" || !Contains(working, token.value)) {
      FastPathIsClean(working);
      CleanIsKept(working);
      if token.Some? && token.value != "" {
        AbsentIsKept(Literal(token.value, JWT), working);
      }
      return Borrowed;
    }
    var buf := ApplyLiveToken(working, token);
    Utf8IsSliceable(buf);
    PassUtf8(JwtRule, buf);
    buf := ApplyJwtPattern(buf);
    Utf8IsSliceable(buf);
    PassUtf8(BearerRule, buf);
    buf := ApplyBearerPattern(buf);
    Utf8IsSliceable(buf);
    buf := ApplyPrefixPattern(buf);
    return Owned(buf);
  }
}
