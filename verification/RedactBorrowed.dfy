/** When the redactor hands a text back as it came (rb-secrets, redact.rs), in letters. */
module RedactBorrowed {
  import opened Prelude
  import opened Percent
  import opened Redact
  import opened RedactExtents
  import opened Redactor

  lemma {:induction false} ContainsExactly(s: string, p: string)
    ensures Contains(s, p) <==> !Absent(p, s)
  {
  }

  lemma {:induction false} SpelledAt(s: string, i: nat)
    requires i <= |s|
    ensures "bearer " <= Lower(s)[i..] <==> |s[i..]| >= 7 && SpellsBearer(s[i..][..7])
  {
    LowerBearer(s, i);
    if |s[i..]| >= 7 {
      assert forall k | 0 <= k < 7 :: s[i..][..7][k] == s[i..][k];
    }
  }

  lemma {:induction false} BearerIsFound(s: string)
    ensures Absent("bearer ", Lower(s)) <==> HasNoBearer(s)
  {
    forall i | 0 <= i <= |s| ensures "bearer " <= Lower(s)[i..] <==> |s[i..]| >= 7 && SpellsBearer(s[i..][..7]) {
      SpelledAt(s, i);
    }
  }

  lemma {:induction false} ScanExactly(s: string)
    ensures !NeedsScan(s) <==>
      && Absent("eyJ", s) && Absent("rb_live_", s) && HasNoBearer(s) && Absent("RB_MCP_JWT_SECRET", s)
      && Absent("RB_AGENT_API_KEY", s) && Absent("RB_LLM_API_KEY", s)
  {
    ContainsExactly(s, "eyJ");
    ContainsExactly(s, "rb_live_");
    ContainsExactly(Lower(s), "bearer ");
    BearerIsFound(s);
    ContainsExactly(s, NAMES[0]);
    ContainsExactly(s, NAMES[1]);
    ContainsExactly(s, NAMES[2]);
  }

  lemma {:induction false} WorkingIsDecoded(s: string)
    ensures Working(s) == Decode(s)
  {
    DecodeFinds(s);
    if !Contains(s, "%") {
      ContainsExactly(s, "%");
      forall i | 0 <= i <= |s| ensures EscapeAt(s[i..]).None? {
        assert !("%" <= s[i..]);
      }
    }
  }

  /** Exactly when its decoded form holds none of the five patterns, no bearer word and not the live token. */
  lemma {:induction false} BorrowedExactly(s: string, token: Option<string>)
    ensures IsBorrowed(s, token) <==> var w := Decode(s);
      && Absent("eyJ", w) && Absent("rb_live_", w) && HasNoBearer(w) && Absent("RB_MCP_JWT_SECRET", w)
      && Absent("RB_AGENT_API_KEY", w) && Absent("RB_LLM_API_KEY", w)
      && (token.Some? && token.value != "" ==> Absent(token.value, w))
  {
    WorkingIsDecoded(s);
    ScanExactly(Decode(s));
  }
}
