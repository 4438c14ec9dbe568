/**
 * The transcript redactor (rb-secrets, redact.rs): four rewriting passes over a text.
 *
 * Every pass reads its text once, from the left: where its rule hits, it writes a replacement and
 * skips what the hit covers; elsewhere it copies one character. A character stands for one byte.
 */
module Redact {
  import opened Prelude

  const JWT := "<redacted:jwt>"
  const BEARER := "<redacted:bearer>"
  const SECRET := "<redacted:secret>"

  const NAMES := ["RB_MCP_JWT_SECRET", "RB_AGENT_API_KEY", "RB_LLM_API_KEY"]

  datatype Rule = Literal(text: string, marker: string) | JwtRule | BearerRule | LiveKeyRule

  predicate IsRule(rule: Rule) {
    rule.Literal? ==> rule.text != "" && rule.marker in {JWT, SECRET}
  }

  function MarkerOf(rule: Rule): string {
    match rule
    case Literal(_, marker) => marker
    case JwtRule => JWT
    case BearerRule => BEARER
    case LiveKeyRule => SECRET
  }

  /** Length of a non-empty base64url run that a dot follows. */
  function Segment(s: string): (n: Option<nat>)
    ensures n.Some? ==> 0 < n.value < |s| && n.value == PrefixLen(s, Base64) && s[n.value] == '.'
  {
    var a := PrefixLen(s, Base64);
    if a == 0 || a == |s| || s[a] != '.' then None else Some(a)
  }

  /** Length of a JWT at the start of `s`: three base64url runs with dots between them. */
  function JwtLen(s: string): (n: Option<nat>)
    ensures n.Some? ==> 5 <= n.value <= |s|
  {
    match Segment(s)
    case None => None
    case Some(a) =>
      match Segment(s[a + 1..])
      case None => None
      case Some(b) =>
        var c := PrefixLen(s[a + 1..][b + 1..], Base64);
        if c == 0 then None else Some(a + 1 + b + 1 + c)
  }

  predicate IsBearer(s: string) {
    |s| >= 7 && forall i | 0 <= i < 7 :: ToLower(s[i]) == "bearer "[i]
  }

  /** What is written in place of how many characters. */
  datatype Hit = Hit(output: string, len: nat)

  function HitAt(rule: Rule, s: string): (h: Option<Hit>)
    requires IsRule(rule)
    ensures h.Some? ==> 0 < h.value.len <= |s|
  {
    match rule
    case Literal(text, marker) => if text <= s then Some(Hit(marker, |text|)) else None
    case JwtRule =>
      if "eyJ" <= s then
        if JwtLen(s).Some? then Some(Hit(JWT, JwtLen(s).value)) else Some(Hit("eyJ", 3))
      else None
    case BearerRule =>
      if IsBearer(s) then Some(Hit(s[..7] + BEARER, 7 + PrefixLen(s[7..], NonSpace))) else None
    case LiveKeyRule =>
      if "rb_live_" <= s then Some(Hit(SECRET, 8 + PrefixLen(s[8..], Hex))) else None
  }

  function Pass(rule: Rule, s: string): string
    requires IsRule(rule)
    decreases s
  {
    if s == "" then ""
    else match HitAt(rule, s)
      case Some(h) => h.output + Pass(rule, s[h.len..])
      case None => [s[0]] + Pass(rule, s[1..])
  }

  function NameRule(k: nat): (rule: Rule)
    requires k < 3
    ensures IsRule(rule)
  {
    Literal(NAMES[k], SECRET)
  }

  /** The passes that every text goes through, in order. */
  function Standard(s: string): string {
    Pass(NameRule(2), Pass(NameRule(1), Pass(NameRule(0), Pass(LiveKeyRule, Pass(BearerRule, Pass(JwtRule, s))))))
  }

  function LivePass(s: string, token: Option<string>): string {
    if token.Some? && token.value != "" then Pass(Literal(token.value, JWT), s) else s
  }

  function Redacted(s: string, token: Option<string>): string {
    Standard(LivePass(s, token))
  }

  // What a clean text is

  predicate Absent(p: string, s: string) {
    forall i | 0 <= i <= |s| :: !(p <= s[i..])
  }

  predicate NoJwt(s: string) {
    forall i | 0 <= i <= |s| :: !("eyJ" <= s[i..] && JwtLen(s[i..]).Some?)
  }

  /** The marker, and then white space or the end of the text. */
  predicate MarkerFirst(s: string) {
    BEARER <= s && (|BEARER| < |s| ==> IsAsciiSpace(s[|BEARER|]))
  }

  predicate BearersRedacted(s: string) {
    forall i | 0 <= i <= |s| :: IsBearer(s[i..]) ==> MarkerFirst(s[i + 7..])
  }

  predicate IsClean(s: string) {
    && NoJwt(s)
    && BearersRedacted(s)
    && Absent("rb_live_", s)
    && Absent(NAMES[0], s) && Absent(NAMES[1], s) && Absent(NAMES[2], s)
  }

  predicate AngleFree(s: string) {
    forall i | 0 <= i < |s| :: s[i] != '<' && s[i] != '>'
  }
}
