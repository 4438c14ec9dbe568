/**
 * No pass brings back what an earlier one removed. The reason is one lemma, `Traced`: whatever the
 * output of a pass holds without an angle bracket was in its input, or is part of the marker.
 */
module RedactTheorems {
  import opened Prelude
  import opened Redact

  predicate IsMarker(m: string) {
    m in {JWT, BEARER, SECRET}
  }

  lemma {:induction false} MarkerShape(m: string)
    requires IsMarker(m)
    ensures |m| >= 2 && m[0] == '<' && m[|m| - 1] == '>'
    ensures forall i | 0 <= i < |m| :: m[i] != 'J' && m[i] != '.' && m[i] != '_' && m[i] != ' '
  {
  }

  predicate Occurs(w: string, s: string) {
    exists j | 0 <= j <= |s| :: w <= s[j..]
  }

  lemma {:induction false} OccursAt(w: string, s: string, j: nat)
    requires j <= |s| && w <= s[j..]
    ensures Occurs(w, s)
  {
  }

  lemma {:induction false} OccursLater(w: string, s: string, k: nat)
    requires k <= |s| && Occurs(w, s[k..])
    ensures Occurs(w, s)
  {
  }

  /** A text without angle brackets that starts inside a marker ends inside it. */
  lemma {:induction false} InsideMarker(m: string, rest: string, i: nat, w: string)
    requires IsMarker(m) && AngleFree(w) && i < |m| && w <= (m + rest)[i..]
    ensures Occurs(w, m)
  {
    MarkerShape(m);
    assert (m + rest)[i..][|m| - 1 - i] == '>';
    if |w| > |m| - 1 - i {
      assert false;
    }
    assert w == (m + rest)[i..][..|w|] == m[i..][..|w|];
    OccursAt(w, m, i);
  }

  lemma {:induction false} BracketBlocks(head: string, tail: string, w: string)
    requires AngleFree(w) && w <= head + tail && tail != "" && tail[0] == '<'
    ensures w <= head
  {
    assert (head + tail)[|head|] == '<';
    if |w| > |head| {
      assert false;
    }
    assert w == (head + tail)[..|w|] == head[..|w|];
  }

  /** The part of `s` that the first step of a pass copies, and how the pass goes on. */
  function Copied(rule: Rule, s: string): (c: string)
    requires IsRule(rule) && s != ""
    ensures c <= s
  {
    match HitAt(rule, s)
    case None => s[..1]
    case Some(h) => if rule.BearerRule? then s[..7] else if h.output == "eyJ" then s[..3] else ""
  }

  predicate Marks(rule: Rule, s: string)
    requires IsRule(rule) && s != ""
  {
    HitAt(rule, s).Some? && HitAt(rule, s).value.output != "eyJ"
  }

  function RestOf(rule: Rule, s: string): (rest: string)
    requires IsRule(rule) && s != ""
    ensures |rest| < |s|
  {
    match HitAt(rule, s) case None => s[1..] case Some(h) => s[h.len..]
  }

  lemma {:induction false} PassHit(rule: Rule, s: string)
    requires IsRule(rule) && s != "" && HitAt(rule, s).Some?
    ensures Pass(rule, s) == HitAt(rule, s).value.output + Pass(rule, RestOf(rule, s))
  {
  }

  lemma {:induction false} PassMiss(rule: Rule, s: string)
    requires IsRule(rule) && s != "" && HitAt(rule, s).None?
    ensures Pass(rule, s) == s[..1] + Pass(rule, s[1..]) && s == s[..1] + s[1..]
  {
  }

  /** What a hit writes: what it copies, and the marker. */
  lemma {:induction false} HitParts(rule: Rule, s: string)
    requires IsRule(rule) && s != "" && HitAt(rule, s).Some?
    ensures HitAt(rule, s).value.output == Copied(rule, s) + if Marks(rule, s) then MarkerOf(rule) else ""
    ensures !Marks(rule, s) ==> Copied(rule, s) == "eyJ" == s[..3] && RestOf(rule, s) == s[3..]
  {
  }

  lemma {:induction false} FirstStep(rule: Rule, s: string)
    requires IsRule(rule) && s != ""
    ensures Pass(rule, s) ==
      Copied(rule, s) + ((if Marks(rule, s) then MarkerOf(rule) else "") + Pass(rule, RestOf(rule, s)))
    ensures !Marks(rule, s) ==> Copied(rule, s) != "" && s == Copied(rule, s) + RestOf(rule, s)
  {
    var tail := Pass(rule, RestOf(rule, s));
    if HitAt(rule, s).None? {
      PassMiss(rule, s);
      assert "" + tail == tail;
    } else {
      PassHit(rule, s);
      HitParts(rule, s);
      Assoc(Copied(rule, s), if Marks(rule, s) then MarkerOf(rule) else "", tail);
    }
  }

  /** What the output starts with, up to an angle bracket, the input starts with. */
  lemma {:induction false} KeptPrefix(rule: Rule, s: string, w: string)
    requires IsRule(rule) && AngleFree(w) && w <= Pass(rule, s)
    ensures w <= s
    decreases s, 0
  {
    if s != "" {
      FirstStep(rule, s);
      if Marks(rule, s) {
        MarkerShape(MarkerOf(rule));
        BracketBlocks(Copied(rule, s), MarkerOf(rule) + Pass(rule, RestOf(rule, s)), w);
      } else {
        assert "" + Pass(rule, RestOf(rule, s)) == Pass(rule, RestOf(rule, s));
        KeptAfter(rule, Copied(rule, s), RestOf(rule, s), w);
      }
    }
  }

  lemma {:induction false} KeptAfter(rule: Rule, a: string, rest: string, w: string)
    requires IsRule(rule) && AngleFree(w) && w <= a + Pass(rule, rest)
    ensures w <= a + rest
    decreases rest, 1
  {
    if |w| > |a| {
      assert w[|a|..] <= Pass(rule, rest);
      KeptPrefix(rule, rest, w[|a|..]);
      assert w == a + w[|a|..];
    } else {
      assert w == (a + Pass(rule, rest))[..|w|] == (a + rest)[..|w|];
    }
  }

  lemma {:induction false} CopiedBeforeMarker(rule: Rule, s: string, i: nat, w: string)
    requires IsRule(rule) && s != "" && Marks(rule, s)
    requires i < |Copied(rule, s)| && AngleFree(w) && w <= Pass(rule, s)[i..]
    ensures w <= s[i..]
  {
    var a, tail := Copied(rule, s), MarkerOf(rule) + Pass(rule, RestOf(rule, s));
    FirstStep(rule, s);
    MarkerShape(MarkerOf(rule));
    assert (a + tail)[i..] == a[i..] + tail;
    BracketBlocks(a[i..], tail, w);
    assert a[i..] <= s[i..];
  }

  lemma {:induction false} CopiedAlone(rule: Rule, s: string, i: nat, w: string)
    requires IsRule(rule) && s != "" && !Marks(rule, s)
    requires i < |Copied(rule, s)| && AngleFree(w) && w <= Pass(rule, s)[i..]
    ensures w <= s[i..]
  {
    var a, rest := Copied(rule, s), RestOf(rule, s);
    FirstStep(rule, s);
    assert "" + Pass(rule, rest) == Pass(rule, rest);
    AppendDrop(a, Pass(rule, rest), i);
    KeptAfter(rule, a[i..], rest, w);
    AppendDrop(a, rest, i);
  }

  lemma {:induction false} ThreeParts(a: string, m: string, tail: string, i: nat)
    requires |a| <= i <= |a| + |m| + |tail|
    ensures (a + (m + tail))[i..] == if i < |a| + |m| then (m + tail)[i - |a|..] else tail[i - |a| - |m|..]
  {
  }

  /** Where position `i` of the output comes from. */
  lemma {:induction false} Position(rule: Rule, s: string, i: nat)
    requires IsRule(rule) && s != "" && |Copied(rule, s)| <= i <= |Pass(rule, s)|
    ensures
      var a, m := Copied(rule, s), if Marks(rule, s) then MarkerOf(rule) else "";
      var tail := Pass(rule, RestOf(rule, s));
      Pass(rule, s)[i..] == if i < |a| + |m| then (m + tail)[i - |a|..] else tail[i - |a| - |m|..]
  {
    FirstStep(rule, s);
    ThreeParts(Copied(rule, s), if Marks(rule, s) then MarkerOf(rule) else "", Pass(rule, RestOf(rule, s)), i);
  }

  lemma {:induction false} TracedFront(rule: Rule, s: string, i: nat, w: string)
    requires IsRule(rule) && s != "" && AngleFree(w) && i < |Copied(rule, s)| && w <= Pass(rule, s)[i..]
    ensures Occurs(w, s)
  {
    if Marks(rule, s) {
      CopiedBeforeMarker(rule, s, i, w);
    } else {
      CopiedAlone(rule, s, i, w);
    }
    OccursAt(w, s, i);
  }

  lemma {:induction false} TracedMarker(rule: Rule, s: string, i: nat, w: string)
    requires IsRule(rule) && s != "" && Marks(rule, s) && AngleFree(w) && i <= |Pass(rule, s)|
      && w <= Pass(rule, s)[i..]
    requires |Copied(rule, s)| <= i < |Copied(rule, s)| + |MarkerOf(rule)|
    ensures Occurs(w, MarkerOf(rule))
  {
    Position(rule, s, i);
    InsideMarker(MarkerOf(rule), Pass(rule, RestOf(rule, s)), i - |Copied(rule, s)|, w);
  }

  /** Whatever the output holds without an angle bracket was in the input, or is part of the marker. */
  lemma {:induction false} Traced(rule: Rule, s: string, i: nat, w: string)
    requires IsRule(rule) && AngleFree(w) && i <= |Pass(rule, s)| && w <= Pass(rule, s)[i..]
    ensures Occurs(w, s) || Occurs(w, MarkerOf(rule))
    decreases s, 1
  {
    if s == "" {
      OccursAt(w, s, 0);
    } else if i < |Copied(rule, s)| {
      TracedFront(rule, s, i, w);
    } else if Marks(rule, s) && i < |Copied(rule, s)| + |MarkerOf(rule)| {
      TracedMarker(rule, s, i, w);
    } else {
      Position(rule, s, i);
      TracedRest(rule, s, i - |Copied(rule, s)| - (if Marks(rule, s) then |MarkerOf(rule)| else 0), w);
    }
  }

  lemma {:induction false} TracedRest(rule: Rule, s: string, i: nat, w: string)
    requires IsRule(rule) && s != "" && AngleFree(w)
    requires var out := Pass(rule, RestOf(rule, s)); i <= |out| && w <= out[i..]
    ensures Occurs(w, s) || Occurs(w, MarkerOf(rule))
    decreases s, 0
  {
    var rest := RestOf(rule, s);
    Traced(rule, rest, i, w);
    if Occurs(w, rest) {
      assert rest == s[|s| - |rest|..];
      OccursLater(w, s, |s| - |rest|);
    }
  }

  // ---------------------------------------------------------------------------------------------
  // What a pass does not bring back
  // ---------------------------------------------------------------------------------------------

  predicate JwtAt(s: string) {
    "eyJ" <= s && JwtLen(s).Some?
  }

  lemma {:induction false} SegmentFits(w: string, s: string)
    requires w <= s && Segment(w).Some?
    ensures Segment(s) == Segment(w) && w[Segment(w).value + 1..] <= s[Segment(w).value + 1..]
  {
  }

  lemma {:induction false} JwtFits(w: string, s: string)
    requires JwtLen(w).Some? && w <= s
    ensures JwtLen(s).Some?
  {
    SegmentFits(w, s);
    var w1, s1 := w[Segment(w).value + 1..], s[Segment(w).value + 1..];
    SegmentFits(w1, s1);
    assert s1[Segment(w1).value + 1..][0] == w1[Segment(w1).value + 1..][0];
  }

  lemma {:induction false} RunIsAngleFree(s: string)
    ensures AngleFree(s[..PrefixLen(s, Base64)])
  {
  }

  lemma {:induction false} SegmentChars(s: string, a: nat, rest: string, k: nat, n: nat)
    requires Segment(s) == Some(a) && rest == s[a + 1..] && k <= |rest| && AngleFree(rest[..k]) && n == a + 1 + k
    ensures n <= |s| && AngleFree(s[..n])
  {
    RunIsAngleFree(s);
    assert s[..n] == s[..a] + "." + rest[..k];
  }

  /** The three runs of a JWT. */
  lemma {:induction false} JwtParts(s: string) returns (a: nat, s1: string, b: nat, s2: string)
    requires JwtLen(s).Some?
    ensures Segment(s) == Some(a) && s1 == s[a + 1..] && Segment(s1) == Some(b) && s2 == s1[b + 1..]
    ensures PrefixLen(s2, Base64) > 0 && JwtLen(s).value == a + 1 + (b + 1 + PrefixLen(s2, Base64))
  {
    a := Segment(s).value;
    s1 := s[a + 1..];
    b := Segment(s1).value;
    s2 := s1[b + 1..];
  }

  lemma {:induction false} JwtChars(s: string)
    requires JwtLen(s).Some?
    ensures AngleFree(s[..JwtLen(s).value])
  {
    var a, s1, b, s2 := JwtParts(s);
    var c := PrefixLen(s2, Base64);
    var n1 := b + 1 + c;
    RunIsAngleFree(s2);
    SegmentChars(s1, b, s2, c, n1);
    SegmentChars(s, a, s1, n1, JwtLen(s).value);
  }

  lemma {:induction false} SegmentTake(s: string, n: nat)
    requires Segment(s).Some? && Segment(s).value < n <= |s|
    ensures Segment(s[..n]) == Segment(s)
    ensures s[..n][Segment(s).value + 1..] == s[Segment(s).value + 1..][..n - Segment(s).value - 1]
  {
  }

  /** The three segments alone, without what follows them. */
  lemma {:induction false} JwtAlone(s: string) returns (w: string)
    requires JwtAt(s)
    ensures w <= s && JwtAt(w) && AngleFree(w)
  {
    var n := JwtLen(s).value;
    var s1 := s[Segment(s).value + 1..];
    var n1 := n - Segment(s).value - 1;
    w := s[..n];
    JwtChars(s);
    SegmentTake(s, n);
    SegmentTake(s1, n1);
    var s2 := s1[Segment(s1).value + 1..];
    assert s1[..n1][Segment(s1).value + 1..][0] == s2[0];
    assert "eyJ" == s[..3] == w[..3];
  }

  lemma {:induction false} AbsentKept(rule: Rule, p: string, s: string)
    requires IsRule(rule) && AngleFree(p) && Absent(p, s) && Absent(p, MarkerOf(rule))
    ensures Absent(p, Pass(rule, s))
  {
    forall i | 0 <= i <= |Pass(rule, s)| ensures !(p <= Pass(rule, s)[i..]) {
      if p <= Pass(rule, s)[i..] {
        Traced(rule, s, i, p);
      }
    }
  }

  lemma {:induction false} JwtNotInMarker(m: string, w: string)
    requires IsMarker(m) && "eyJ" <= w
    ensures !Occurs(w, m)
  {
    if Occurs(w, m) {
      var j :| 0 <= j <= |m| && w <= m[j..];
      assert m[j + 2] == w[2] == "eyJ"[2];
      MarkerShape(m);
    }
  }

  lemma {:induction false} NoJwtKept(rule: Rule, s: string)
    requires IsRule(rule) && NoJwt(s)
    ensures NoJwt(Pass(rule, s))
  {
    var out := Pass(rule, s);
    forall i | 0 <= i <= |out| ensures !JwtAt(out[i..]) {
      if JwtAt(out[i..]) {
        var w := JwtAlone(out[i..]);
        Traced(rule, s, i, w);
        JwtNotInMarker(MarkerOf(rule), w);
        var j :| 0 <= j <= |s| && w <= s[j..];
        JwtFits(w, s[j..]);
      }
    }
  }

  // ---------------------------------------------------------------------------------------------
  // What a pass removes
  // ---------------------------------------------------------------------------------------------

  /** A property of every position of the output of one step, from its parts. */
  lemma {:induction false} NoJwtFront(s: string, i: nat)
    requires s != "" && i < |Copied(JwtRule, s)|
    ensures !JwtAt(Pass(JwtRule, s)[i..])
  {
    var out := Pass(JwtRule, s);
    if JwtAt(out[i..]) {
      var w := JwtAlone(out[i..]);
      CopiedAlone(JwtRule, s, i, w);
      JwtFits(w, s[i..]);
    }
  }

  lemma {:induction false} JwtRemoved(s: string)
    ensures NoJwt(Pass(JwtRule, s))
    decreases s
  {
    var out := Pass(JwtRule, s);
    if s == "" {
    } else {
      var a, m := Copied(JwtRule, s), if Marks(JwtRule, s) then JWT else "";
      JwtRemoved(RestOf(JwtRule, s));
      forall i | 0 <= i <= |out| ensures !JwtAt(out[i..]) {
        if i < |a| {
          NoJwtFront(s, i);
        } else {
          Position(JwtRule, s, i);
          if i < |a| + |m| && JwtAt(out[i..]) {
            var w := JwtAlone(out[i..]);
            InsideMarker(m, Pass(JwtRule, RestOf(JwtRule, s)), i - |a|, w);
            JwtNotInMarker(m, w);
          }
        }
      }
    }
  }

  /** What a literal or live-key rule looks for. */
  function Pattern(rule: Rule): string
    requires rule.Literal? || rule.LiveKeyRule?
  {
    if rule.Literal? then rule.text else "rb_live_"
  }

  lemma {:induction false} PatternRemoved(rule: Rule, s: string)
    requires IsRule(rule) && (rule.Literal? || rule.LiveKeyRule?)
    requires AngleFree(Pattern(rule)) && Absent(Pattern(rule), MarkerOf(rule))
    ensures Absent(Pattern(rule), Pass(rule, s))
    decreases s
  {
    var out, p := Pass(rule, s), Pattern(rule);
    if s == "" {
    } else {
      var a, m := Copied(rule, s), if Marks(rule, s) then MarkerOf(rule) else "";
      MarkerShape(MarkerOf(rule));
      FirstStep(rule, s);
      PatternRemoved(rule, RestOf(rule, s));
      forall i | 0 <= i <= |out| ensures !(p <= out[i..]) {
        if i < |a| {
          if p <= out[i..] {
            CopiedAlone(rule, s, i, p);
          }
        } else {
          Position(rule, s, i);
          if i < |a| + |m| && p <= out[i..] {
            InsideMarker(m, Pass(rule, RestOf(rule, s)), i - |a|, p);
          }
        }
      }
    }
  }

  // ---------------------------------------------------------------------------------------------
  // Bearer tokens
  // ---------------------------------------------------------------------------------------------

  lemma {:induction false} BearerWord(s: string) returns (w: string)
    requires IsBearer(s)
    ensures w == s[..7] && w <= s && IsBearer(w) && AngleFree(w) && w[6] == ' '
  {
    w := s[..7];
    forall k | 0 <= k < 7 ensures w[k] != '<' && w[k] != '>' {
      assert ToLower(w[k]) == "bearer "[k];
    }
    assert ToLower(w[6]) == "bearer "[6];
  }

  lemma {:induction false} BearerFits(w: string, s: string)
    requires IsBearer(w) && w <= s
    ensures IsBearer(s)
  {
  }

  lemma {:induction false} BearerNotInMarker(m: string, w: string)
    requires IsMarker(m) && |w| == 7 && w[6] == ' '
    ensures !Occurs(w, m)
  {
    if Occurs(w, m) {
      var j :| 0 <= j <= |m| && w <= m[j..];
      assert m[j + 6] == w[6];
      MarkerShape(m);
    }
  }

  /** No bearer word starts in the middle of another, or inside a marker. */
  lemma {:induction false} NoBearerInside(rule: Rule, s: string, i: nat)
    requires IsRule(rule) && s != "" && |Copied(rule, s)| <= i <= |Pass(rule, s)|
    requires i < |Copied(rule, s)| + if Marks(rule, s) then |MarkerOf(rule)| else 0
    ensures !IsBearer(Pass(rule, s)[i..])
  {
    Position(rule, s, i);
    if IsBearer(Pass(rule, s)[i..]) {
      var w := BearerWord(Pass(rule, s)[i..]);
      InsideMarker(MarkerOf(rule), Pass(rule, RestOf(rule, s)), i - |Copied(rule, s)|, w);
      BearerNotInMarker(MarkerOf(rule), w);
    }
  }

  lemma {:induction false} MarkerFirstOf(tail: string)
    requires tail == "" || IsAsciiSpace(tail[0])
    ensures MarkerFirst(BEARER + tail)
  {
  }

  lemma {:induction false} SpaceCopied(rule: Rule, s: string)
    requires IsRule(rule) && (rule.Literal? ==> !IsAsciiSpace(rule.text[0])) && (s == "" || IsAsciiSpace(s[0]))
    ensures Pass(rule, s) == "" || IsAsciiSpace(Pass(rule, s)[0])
  {
  }

  lemma {:induction false} BearerFront(s: string)
    requires IsBearer(s)
    ensures MarkerFirst(Pass(BearerRule, s)[7..])
  {
    var tail := Pass(BearerRule, RestOf(BearerRule, s));
    SpaceCopied(BearerRule, RestOf(BearerRule, s));
    MarkerFirstOf(tail);
    assert (s[..7] + BEARER + tail)[7..] == BEARER + tail;
  }

  lemma {:induction false} BearerCopied(rule: Rule, s: string, i: nat)
    requires IsRule(rule) && s != "" && i < |Copied(rule, s)| && IsBearer(Pass(rule, s)[i..])
    ensures IsBearer(s[i..])
  {
    var w := BearerWord(Pass(rule, s)[i..]);
    if Marks(rule, s) {
      CopiedBeforeMarker(rule, s, i, w);
    } else {
      CopiedAlone(rule, s, i, w);
    }
    BearerFits(w, s[i..]);
  }

  lemma {:induction false} BearersRemoved(s: string)
    ensures BearersRedacted(Pass(BearerRule, s))
    decreases s
  {
    var out := Pass(BearerRule, s);
    if s == "" {
    } else {
      var a, m := Copied(BearerRule, s), if Marks(BearerRule, s) then BEARER else "";
      var tail := Pass(BearerRule, RestOf(BearerRule, s));
      BearersRemoved(RestOf(BearerRule, s));
      forall i | 0 <= i <= |out| && IsBearer(out[i..]) ensures MarkerFirst(out[i + 7..]) {
        if i < |a| {
          BearerCopied(BearerRule, s, i);
          BearerStart(s, i);
          BearerFront(s);
        } else if i < |a| + |m| {
          NoBearerInside(BearerRule, s, i);
        } else {
          Position(BearerRule, s, i);
          Position(BearerRule, s, i + 7);
          assert IsBearer(tail[i - |a| - |m|..]);
        }
      }
    }
  }

  /** Inside a bearer word only its first character is a `b`. */
  lemma {:induction false} BearerStart(s: string, i: nat)
    requires s != "" && i < |Copied(BearerRule, s)| && IsBearer(s[i..])
    ensures i == 0 && IsBearer(s)
  {
    assert ToLower(s[i..][0]) == "bearer "[0];
    assert s[0..] == s;
  }

  /** Rules that replace a whole pattern, one that neither holds brackets nor starts with a space. */
  predicate IsPure(rule: Rule) {
    && (rule.Literal? || rule.LiveKeyRule?)
    && IsRule(rule)
    && AngleFree(Pattern(rule)) && !IsAsciiSpace(Pattern(rule)[0])
    && Absent(Pattern(rule), JWT) && Absent(Pattern(rule), BEARER) && Absent(Pattern(rule), SECRET)
  }

  lemma {:induction false} KeptExactly(rule: Rule, s: string, w: string)
    requires IsPure(rule) && AngleFree(w) && w <= Pass(rule, s)
    ensures w <= s && Pass(rule, s)[|w|..] == Pass(rule, s[|w|..])
    decreases s
  {
    KeptPrefix(rule, s, w);
    if w != "" {
      assert w[0] == Pass(rule, s)[0];
      MarkerShape(MarkerOf(rule));
      assert HitAt(rule, s).None?;
      assert w[1..] <= Pass(rule, s)[1..] == Pass(rule, s[1..]);
      KeptExactly(rule, s[1..], w[1..]);
      assert s[1..][|w| - 1..] == s[|w|..];
      assert Pass(rule, s)[|w|..] == Pass(rule, s)[1..][|w| - 1..];
    } else {
      assert s[0..] == s;
    }
  }

  lemma {:induction false} CopyOne(rule: Rule, c: char, s: string)
    requires IsRule(rule) && HitAt(rule, [c] + s).None?
    ensures Pass(rule, [c] + s) == [c] + Pass(rule, s)
  {
  }

  /** No rule hits in `s` before position `n`. */
  predicate Quiet(rule: Rule, s: string, n: nat)
    requires IsRule(rule) && n <= |s|
  {
    forall i | 0 <= i < n :: HitAt(rule, s[i..]).None?
  }

  lemma {:induction false} QuietTail(rule: Rule, c: char, s: string, n: nat)
    requires IsRule(rule) && n <= |s| && Quiet(rule, [c] + s, n + 1)
    ensures HitAt(rule, [c] + s).None? && Quiet(rule, s, n)
  {
    assert ([c] + s)[0..] == [c] + s;
    forall i | 0 <= i < n ensures HitAt(rule, s[i..]).None? {
      assert s[i..] == ([c] + s)[i + 1..];
    }
  }

  lemma {:induction false} CopyAll(rule: Rule, a: string, rest: string)
    requires IsRule(rule) && Quiet(rule, a + rest, |a|)
    ensures Pass(rule, a + rest) == a + Pass(rule, rest)
    decreases a
  {
    if a == "" {
      assert a + rest == rest;
    } else {
      var s := a[1..] + rest;
      Assoc([a[0]], a[1..], rest);
      assert [a[0]] + a[1..] == a;
      QuietTail(rule, a[0], s, |a| - 1);
      CopyOne(rule, a[0], s);
      CopyAll(rule, a[1..], rest);
      Assoc([a[0]], a[1..], Pass(rule, rest));
      assert [a[0]] + a[1..] == a;
    }
  }

  lemma {:induction false} MarkerCopied(rule: Rule, m: string, rest: string)
    requires IsPure(rule) && IsMarker(m)
    ensures Pass(rule, m + rest) == m + Pass(rule, rest)
  {
    forall i | 0 <= i < |m| ensures HitAt(rule, (m + rest)[i..]).None? {
      if Pattern(rule) <= (m + rest)[i..] {
        InsideMarker(m, rest, i, Pattern(rule));
      }
    }
    CopyAll(rule, m, rest);
  }

  lemma {:induction false} MarkerFirstKept(rule: Rule, s: string)
    requires IsPure(rule) && MarkerFirst(s)
    ensures MarkerFirst(Pass(rule, s))
  {
    var rest := s[|BEARER|..];
    assert s == BEARER + rest;
    MarkerCopied(rule, BEARER, rest);
    SpaceCopied(rule, rest);
    MarkerFirstOf(Pass(rule, rest));
  }

  lemma {:induction false} BearerKeptFront(rule: Rule, s: string)
    requires IsPure(rule) && s != "" && BearersRedacted(s) && IsBearer(Pass(rule, s))
    ensures MarkerFirst(Pass(rule, s)[7..])
  {
    var w := BearerWord(Pass(rule, s));
    KeptExactly(rule, s, w);
    BearerFits(w, s);
    assert s[0..] == s;
    MarkerFirstKept(rule, s[7..]);
  }

  lemma {:induction false} BearersDrop(s: string, k: nat)
    requires k <= |s| && BearersRedacted(s)
    ensures BearersRedacted(s[k..])
  {
  }

  lemma {:induction false} BearerInRest(rule: Rule, s: string, i: nat, m: string)
    requires IsRule(rule) && s != "" && m == if Marks(rule, s) then MarkerOf(rule) else ""
    requires BearersRedacted(Pass(rule, RestOf(rule, s)))
    requires |Copied(rule, s)| + |m| <= i <= |Pass(rule, s)| && IsBearer(Pass(rule, s)[i..])
    ensures MarkerFirst(Pass(rule, s)[i + 7..])
  {
    Position(rule, s, i);
    Position(rule, s, i + 7);
  }

  lemma {:induction false} BearersKept(rule: Rule, s: string)
    requires IsPure(rule) && BearersRedacted(s)
    ensures BearersRedacted(Pass(rule, s))
    decreases s
  {
    var out := Pass(rule, s);
    if s == "" {
    } else {
      var a, m := Copied(rule, s), if Marks(rule, s) then MarkerOf(rule) else "";
      var rest := RestOf(rule, s);
      BearersDrop(s, |s| - |rest|);
      assert rest == s[|s| - |rest|..];
      BearersKept(rule, rest);
      forall i | 0 <= i <= |out| && IsBearer(out[i..]) ensures MarkerFirst(out[i + 7..]) {
        if i < |a| {
          assert out[0..] == out && i == 0;
          BearerKeptFront(rule, s);
        } else if i < |a| + |m| {
          NoBearerInside(rule, s, i);
        } else {
          BearerInRest(rule, s, i, m);
        }
      }
    }
  }

  // ---------------------------------------------------------------------------------------------
  // The whole pipeline
  // ---------------------------------------------------------------------------------------------

  lemma {:induction false} AbsentFromMarker(p: string, k: nat, m: string)
    requires IsMarker(m) && k < |p| && p[k] in {'.', '_', 'J', ' '}
    ensures Absent(p, m)
  {
    forall j | 0 <= j <= |m| ensures !(p <= m[j..]) {
      if p <= m[j..] {
        assert m[j + k] == p[k];
        MarkerShape(m);
      }
    }
  }

  lemma {:induction false} PurePattern(rule: Rule, k: nat)
    requires (rule.Literal? || rule.LiveKeyRule?) && IsRule(rule)
    requires k < |Pattern(rule)| && Pattern(rule)[k] == '_' && AngleFree(Pattern(rule))
      && !IsAsciiSpace(Pattern(rule)[0])
    ensures IsPure(rule)
  {
    AbsentFromMarker(Pattern(rule), k, JWT);
    AbsentFromMarker(Pattern(rule), k, BEARER);
    AbsentFromMarker(Pattern(rule), k, SECRET);
  }

  lemma {:induction false} NameIsPure(k: nat)
    requires k < 3
    ensures IsPure(NameRule(k))
  {
    PurePattern(NameRule(k), 2);
  }

  lemma {:induction false} KeyIsPure()
    ensures IsPure(LiveKeyRule)
  {
    PurePattern(LiveKeyRule, 2);
  }

  lemma {:induction false} StandardPatterns()
    ensures IsPure(LiveKeyRule) && IsPure(NameRule(0)) && IsPure(NameRule(1)) && IsPure(NameRule(2))
  {
    KeyIsPure();
    NameIsPure(0);
    NameIsPure(1);
    NameIsPure(2);
  }

  /** What the first `k` patterns leave behind. */
  lemma {:induction false} PureStep(rule: Rule, s: string)
    requires IsPure(rule) && NoJwt(s) && BearersRedacted(s)
    ensures NoJwt(Pass(rule, s)) && BearersRedacted(Pass(rule, s)) && Absent(Pattern(rule), Pass(rule, s))
  {
    NoJwtKept(rule, s);
    BearersKept(rule, s);
    PatternRemoved(rule, s);
  }

  lemma {:induction false} StillAbsent(rule: Rule, done: Rule, s: string)
    requires IsPure(rule) && IsPure(done) && Absent(Pattern(done), s)
    ensures Absent(Pattern(done), Pass(rule, s))
  {
    AbsentKept(rule, Pattern(done), s);
  }

  /** After the four passes nothing is left that any of them looks for, whatever the text was. */
  lemma {:induction false} StandardIsClean(s: string)
    ensures IsClean(Standard(s))
  {
    StandardPatterns();
    var s1 := Pass(JwtRule, s);
    JwtRemoved(s);
    var s2 := Pass(BearerRule, s1);
    NoJwtKept(BearerRule, s1);
    BearersRemoved(s1);
    var s3 := Pass(LiveKeyRule, s2);
    PureStep(LiveKeyRule, s2);
    var s4 := Pass(NameRule(0), s3);
    PureStep(NameRule(0), s3);
    StillAbsent(NameRule(0), LiveKeyRule, s3);
    var s5 := Pass(NameRule(1), s4);
    PureStep(NameRule(1), s4);
    StillAbsent(NameRule(1), LiveKeyRule, s4);
    StillAbsent(NameRule(1), NameRule(0), s4);
    PureStep(NameRule(2), s5);
    StillAbsent(NameRule(2), LiveKeyRule, s5);
    StillAbsent(NameRule(2), NameRule(0), s5);
    StillAbsent(NameRule(2), NameRule(1), s5);
  }

  /**
   * A live token without angle brackets that is no part of a marker is gone at the end; a `.`, which
   * every JWT has, is enough for that.
   */
  lemma {:induction false} LiveTokenIsGone(s: string, token: string)
    requires token != "" && AngleFree(token)
    requires Absent(token, JWT) && Absent(token, BEARER) && Absent(token, SECRET)
    ensures Absent(token, Redacted(s, Some(token)))
  {
    var live := Literal(token, JWT);
    var s0 := Pass(live, s);
    PatternRemoved(live, s);
    AbsentKept(JwtRule, token, s0);
    var s1 := Pass(JwtRule, s0);
    AbsentKept(BearerRule, token, s1);
    var s2 := Pass(BearerRule, s1);
    AbsentKept(LiveKeyRule, token, s2);
    var s3 := Pass(LiveKeyRule, s2);
    AbsentKept(NameRule(0), token, s3);
    AbsentKept(NameRule(1), token, Pass(NameRule(0), s3));
    AbsentKept(NameRule(2), token, Pass(NameRule(1), Pass(NameRule(0), s3)));
  }

  lemma {:induction false} DottedTokenIsGone(s: string, token: string, k: nat)
    requires AngleFree(token) && k < |token| && token[k] == '.'
    ensures Absent(token, Redacted(s, Some(token)))
  {
    AbsentFromMarker(token, k, JWT);
    AbsentFromMarker(token, k, BEARER);
    AbsentFromMarker(token, k, SECRET);
    LiveTokenIsGone(s, token);
  }

  // ---------------------------------------------------------------------------------------------
  // Texts that a pass leaves alone
  // ---------------------------------------------------------------------------------------------

  lemma {:induction false} AbsentIsKept(rule: Rule, s: string)
    requires IsRule(rule) && (rule.Literal? || rule.LiveKeyRule?) && Absent(Pattern(rule), s)
    ensures Pass(rule, s) == s
    decreases s
  {
    if s == "" {
    } else {
      assert s[0..] == s;
      forall i | 0 <= i <= |s[1..]| ensures !(Pattern(rule) <= s[1..][i..]) {
        assert s[1..][i..] == s[i + 1..];
      }
      AbsentIsKept(rule, s[1..]);
    }
  }

  lemma {:induction false} NoJwtIsKept(s: string)
    requires NoJwt(s)
    ensures Pass(JwtRule, s) == s
    decreases s
  {
    if s == "" {
    } else {
      FirstStep(JwtRule, s);
      assert s[0..] == s;
      var rest := RestOf(JwtRule, s);
      forall i | 0 <= i <= |rest| ensures !JwtAt(rest[i..]) {
        assert rest[i..] == s[|s| - |rest| + i..];
      }
      NoJwtIsKept(rest);
      assert "" + rest == rest;
    }
  }

  lemma {:induction false} BearerTokenLen(s: string)
    requires MarkerFirst(s)
    ensures PrefixLen(s, NonSpace) == |BEARER|
  {
    assert forall i | 0 <= i < |BEARER| :: s[i] == BEARER[i];
    PrefixLenIs(s, NonSpace, |BEARER|);
  }

  lemma {:induction false} MarkedBearer(s: string)
    requires IsBearer(s) && MarkerFirst(s[7..])
    ensures Copied(BearerRule, s) == s[..7] && Marks(BearerRule, s)
    ensures s == s[..7] + (BEARER + RestOf(BearerRule, s))
  {
    BearerTokenLen(s[7..]);
    assert s[7..][..|BEARER|] == BEARER && s[7 + |BEARER|..] == s[7..][|BEARER|..];
  }

  lemma {:induction false} BearerRest(s: string)
    requires s != "" && BearersRedacted(s)
    ensures BearersRedacted(RestOf(BearerRule, s))
  {
    var rest := RestOf(BearerRule, s);
    assert rest == s[|s| - |rest|..];
    BearersDrop(s, |s| - |rest|);
  }

  lemma {:induction false} RedactedBearersAreKept(s: string)
    requires BearersRedacted(s)
    ensures Pass(BearerRule, s) == s
    decreases s
  {
    if s == "" {
    } else {
      FirstStep(BearerRule, s);
      var rest := RestOf(BearerRule, s);
      BearerRest(s);
      RedactedBearersAreKept(rest);
      if IsBearer(s) {
        assert s[0..] == s;
        MarkedBearer(s);
      } else {
        assert "" + rest == rest;
      }
    }
  }

  lemma {:induction false} CleanIsKept(s: string)
    requires IsClean(s)
    ensures Standard(s) == s
  {
    NoJwtIsKept(s);
    RedactedBearersAreKept(s);
    AbsentIsKept(LiveKeyRule, s);
    AbsentIsKept(NameRule(0), s);
    AbsentIsKept(NameRule(1), s);
    AbsentIsKept(NameRule(2), s);
  }

  /** The four passes leave exactly the clean texts alone, so running them again changes nothing. */
  lemma {:induction false} StandardIsIdempotent(s: string)
    ensures Standard(Standard(s)) == Standard(s)
    ensures Standard(s) == s <==> IsClean(s)
  {
    StandardIsClean(s);
    CleanIsKept(Standard(s));
    if IsClean(s) {
      CleanIsKept(s);
    }
  }
}
