/**
 * The text that `redact_with_token` (rb-secrets, redact.rs) hands back. On the fast path that is the
 * caller's own text, escapes and all, while the scan looked at the decoded one: an escape that swallows
 * the first letter of a pattern hides it.
 */
module RedactReturned {
  import opened Prelude
  import opened Percent
  import opened Redact
  import opened RedactTheorems
  import opened RedactExact
  import opened Redactor

  // ---------------------------------------------------------------------------------------------
  // What the fast path can hand back
  // ---------------------------------------------------------------------------------------------

  /** An escape that starts at most two characters before `i` takes the character at `i` with it. */
  predicate IsTaken(s: string, i: nat)
    requires i <= |s|
  {
    (i >= 1 && EscapeAt(s[i - 1..]).Some?) || (i >= 2 && EscapeAt(s[i - 2..]).Some?)
  }

  lemma {:induction false} NotTakenLater(s: string, n: nat, i: nat)
    requires n <= i <= |s| && !IsTaken(s, i)
    ensures !IsTaken(s[n..], i - n)
  {
    if i - n >= 1 {
      DropDrop(s, n, i - n - 1);
    }
    if i - n >= 2 {
      DropDrop(s, n, i - n - 2);
    }
  }

  /** A piece without `%` whose first character no escape takes is found in the decoded text. */
  lemma {:induction false} PieceIsDecoded(s: string, i: nat, w: string) returns (k: nat)
    requires i <= |s| && w <= s[i..] && '%' !in w && !IsTaken(s, i)
    ensures k <= |Decode(s)| && w <= Decode(s)[k..]
    decreases s
  {
    if i == 0 {
      assert s == w + s[|w|..];
      DecodeCopies(w, s[|w|..]);
      k := 0;
    } else {
      var n := if EscapeAt(s).Some? then 3 else 1;
      assert s[0..] == s;
      NotTakenLater(s, n, i);
      DropDrop(s, n, i - n);
      var j := PieceIsDecoded(s[n..], i - n, w);
      k := j + 1;
      assert Decode(s)[1..] == Decode(s[n..]);
      DropDrop(Decode(s), 1, j);
    }
  }

  lemma {:induction false} PieceIsWorking(s: string, i: nat, w: string) returns (k: nat)
    requires i <= |s| && w <= s[i..] && '%' !in w && !IsTaken(s, i)
    ensures k <= |Working(s)| && w <= Working(s)[k..]
  {
    DecodeFinds(s);
    k := PieceIsDecoded(s, i, w);
  }

  /** A piece that the decoded text lacks has its first character taken. */
  lemma {:induction false} LostIsTaken(s: string, i: nat, w: string)
    requires i <= |s| && w <= s[i..] && '%' !in w && Absent(w, Working(s))
    ensures IsTaken(s, i)
  {
    if !IsTaken(s, i) {
      var k := PieceIsWorking(s, i, w);
    }
  }

  /** Only a hexadecimal digit is taken; two of them only for an ASCII character. */
  lemma {:induction false} TakenDigits(s: string, i: nat)
    requires i < |s| && IsTaken(s, i)
    ensures Nibble(s[i]).Some?
    ensures (i >= 2 && s[i - 2] == '%' && '0' <= s[i - 1] <= '7') ||
      (i + 1 < |s| && Nibble(s[i + 1]).Some? && Nibble(s[i]).value < 8)
  {
    if i >= 1 && EscapeAt(s[i - 1..]).Some? {
      assert s[i - 1..][1] == s[i] && s[i - 1..][2] == s[i + 1];
    } else {
      assert s[i - 2..][0] == s[i - 2] && s[i - 2..][1] == s[i - 1] && s[i - 2..][2] == s[i];
    }
  }

  /** A `%0` to `%7` stands right before `i`. */
  predicate IsBehindEscape(s: string, i: nat) {
    2 <= i <= |s| && s[i - 2] == '%' && '0' <= s[i - 1] <= '7'
  }

  /** A taken character that cannot be the first digit of an escape is its second one. */
  lemma {:induction false} TakenSecond(s: string, i: nat)
    requires i + 1 < |s| && IsTaken(s, i) && (Nibble(s[i]).Some? && Nibble(s[i + 1]).Some? ==> Nibble(s[i]).value >= 8)
    ensures IsBehindEscape(s, i)
  {
    TakenDigits(s, i);
  }

  lemma {:induction false} JwtIsSecond(s: string, i: nat)
    requires i <= |s| && "eyJ" <= s[i..] && IsTaken(s, i)
    ensures IsBehindEscape(s, i)
  {
    assert s[i] == "eyJ"[0] && s[i + 1] == "eyJ"[1];
    TakenSecond(s, i);
  }

  lemma {:induction false} BearerLetters(w: string)
    requires |w| == 7 && IsBearer(w)
    ensures '%' !in w && w[0] in {'b', 'B'} && w[1] in {'e', 'E'}
  {
    forall k | 0 <= k < 7 ensures w[k] != '%' {
      assert ToLower(w[k]) == "bearer "[k];
    }
    assert ToLower(w[0]) == "bearer "[0] && ToLower(w[1]) == "bearer "[1];
  }

  predicate NoBearer(s: string) {
    forall i | 0 <= i <= |s| :: !IsBearer(s[i..])
  }

  lemma {:induction false} BearerIsTaken(s: string, i: nat, w: string)
    requires i <= |s| && w <= s[i..] && |w| == 7 && IsBearer(w) && '%' !in w && NoBearer(Working(s))
    ensures IsTaken(s, i)
  {
    if !IsTaken(s, i) {
      var k := PieceIsWorking(s, i, w);
      BearerFits(w, Working(s)[k..]);
    }
  }

  lemma {:induction false} BearerIsSecond(s: string, i: nat)
    requires i <= |s| && IsBearer(s[i..]) && NoBearer(Working(s))
    ensures IsBehindEscape(s, i)
  {
    var w := s[i..][..7];
    BearerLetters(w);
    assert s[i] == w[0] && s[i + 1] == w[1];
    BearerIsTaken(s, i, w);
    TakenSecond(s, i);
  }

  lemma {:induction false} NoScanMeans(s: string)
    requires !NeedsScan(s)
    ensures Absent("eyJ", s) && NoBearer(s) && Absent("rb_live_", s)
    ensures Absent(NAMES[0], s) && Absent(NAMES[1], s) && Absent(NAMES[2], s)
  {
    QuietBeforeBearer(s);
    assert forall i | 0 <= i < |s| :: !IsBearer(s[i..]);
  }

  /** A literal pattern that starts with no hexadecimal digit cannot lose its first character. */
  lemma {:induction false} AbsentAsWell(s: string, p: string)
    requires p != "" && '%' !in p && Nibble(p[0]).None? && Absent(p, Working(s))
    ensures Absent(p, s)
  {
    forall i | 0 <= i <= |s| ensures !(p <= s[i..]) {
      if p <= s[i..] {
        assert s[i] == s[i..][0] == p[0];
        LostIsTaken(s, i, p);
        TakenDigits(s, i);
      }
    }
  }

  /** A pattern stands right behind `%0` to `%7`, and makes an escape with its first letter. */
  predicate IsSwallowed(s: string, i: nat) {
    IsBehindEscape(s, i) && ("eyJ" <= s[i..] || IsBearer(s[i..]))
  }

  /**
   * What the fast path can miss: keys and names never, a JWT or a bearer word only right behind a `%`
   * and an octal digit.
   */
  lemma {:induction false} BorrowedMissesOnlySwallowed(s: string, token: Option<string>)
    requires IsBorrowed(s, token)
    ensures Absent("rb_live_", s) && Absent(NAMES[0], s) && Absent(NAMES[1], s) && Absent(NAMES[2], s)
    ensures forall i | 0 <= i <= |s| && ("eyJ" <= s[i..] || IsBearer(s[i..])) :: IsSwallowed(s, i)
  {
    NoScanMeans(Working(s));
    AbsentAsWell(s, "rb_live_");
    AbsentAsWell(s, NAMES[0]);
    AbsentAsWell(s, NAMES[1]);
    AbsentAsWell(s, NAMES[2]);
    forall i | 0 <= i <= |s| && ("eyJ" <= s[i..] || IsBearer(s[i..])) ensures IsSwallowed(s, i) {
      if "eyJ" <= s[i..] {
        LostIsTaken(s, i, "eyJ");
        JwtIsSecond(s, i);
      } else {
        BearerIsSecond(s, i);
      }
    }
  }

  /** A JWT, or a bearer word not yet redacted, stands right behind `%0` to `%7`. */
  predicate Leaks(s: string, i: nat) {
    IsBehindEscape(s, i) && (JwtAt(s[i..]) || (IsBearer(s[i..]) && !MarkerFirst(s[i + 7..])))
  }

  lemma {:induction false} BorrowedIsCleanExactly(s: string, token: Option<string>)
    requires IsBorrowed(s, token)
    ensures IsClean(s) <==> forall i :: !Leaks(s, i)
  {
    BorrowedMissesOnlySwallowed(s, token);
    if forall i :: !Leaks(s, i) {
      forall i | 0 <= i <= |s| ensures !JwtAt(s[i..]) && (IsBearer(s[i..]) ==> MarkerFirst(s[i + 7..])) {
        assert !Leaks(s, i);
      }
    }
  }

  /**
   * The text that is handed back is clean exactly when it was rewritten, or no JWT and no unredacted
   * bearer word stands right behind a `%` and an octal digit.
   */
  lemma {:induction false} ReturnedIsCleanExactly(s: string, token: Option<string>)
    ensures IsClean(Returned(s, token)) <==> !IsBorrowed(s, token) || forall i :: !Leaks(s, i)
  {
    if IsBorrowed(s, token) {
      BorrowedIsCleanExactly(s, token);
    } else {
      StandardIsClean(LivePass(Working(s), token));
    }
  }

  /** A live token that the fast path hands back has its first character taken by an escape. */
  lemma {:induction false} BorrowedTokenIsTaken(s: string, token: string, i: nat)
    requires token != "" && '%' !in token && IsBorrowed(s, Some(token)) && i <= |s| && token <= s[i..]
    ensures IsTaken(s, i)
  {
    LostIsTaken(s, i, token);
  }

  /** The token stands where an escape takes its first character, or holds a `%` of its own. */
  predicate LeaksToken(s: string, token: string, i: nat) {
    i <= |s| && token <= s[i..] && (IsTaken(s, i) || '%' in token)
  }

  /**
   * The text that is handed back lacks a dotted, bracket-free live token exactly when it was rewritten, or
   * the token, if it has no `%` itself, stands nowhere in it where an escape takes its first character.
   */
  lemma {:induction false} ReturnedLacksTokenExactly(s: string, token: string, k: nat)
    requires AngleFree(token) && k < |token| && token[k] == '.'
    ensures Absent(token, Returned(s, Some(token))) <==>
      !IsBorrowed(s, Some(token)) || forall i :: !LeaksToken(s, token, i)
  {
    if IsBorrowed(s, Some(token)) {
      forall i | 0 <= i <= |s| && token <= s[i..] ensures LeaksToken(s, token, i) {
        if '%' !in token {
          BorrowedTokenIsTaken(s, token, i);
        }
      }
    } else {
      DottedTokenIsGone(Working(s), token, k);
    }
  }

  /** Without escapes, whatever is handed back is clean. */
  lemma {:induction false} EscapeFreeIsClean(s: string, token: Option<string>)
    requires !HasEscape(s)
    ensures IsClean(Returned(s, token))
  {
    if IsBorrowed(s, token) {
      FastPathIsClean(s);
    } else {
      StandardIsClean(LivePass(s, token));
    }
  }

  // ---------------------------------------------------------------------------------------------
  // It happens
  // ---------------------------------------------------------------------------------------------

  lemma {:induction false} NoScan(s: string)
    requires 'e' !in s && 'E' !in s && '_' !in s
    ensures !NeedsScan(s)
  {
    AbsentByChar("eyJ", 0, s);
    AbsentByChar("rb_live_", 2, s);
    NamesByChar(s);
    assert 'e' !in Lower(s);
    AbsentByChar("bearer ", 1, Lower(s));
  }

  lemma {:induction false} SwallowedDecodes(s: string, jwt: string)
    requires jwt == "eyJa.b.c" && s == "%0" + jwt
    ensures Working(s) == [14 as char] + jwt[1..]
  {
    assert s[3..] == jwt[1..];
    assert EscapeAt(s) == Some(14 as char);
    DecodeCopies(jwt[1..], "");
    assert jwt[1..] + "" == jwt[1..];
    DecodeFinds(s);
    NotAbsent("%", s, 0);
  }

  lemma {:induction false} IsJwt(jwt: string)
    requires jwt == "eyJa.b.c"
    ensures "eyJ" <= jwt && JwtLen(jwt) == Some(8)
  {
    PrefixLenIs(jwt, Base64, 4);
    assert jwt[5..] == "b.c";
    PrefixLenIs("b.c", Base64, 1);
    assert "b.c"[2..] == "c";
    PrefixLenIs("c", Base64, 1);
  }

  /** A JWT behind `%0` comes back verbatim, even when it is the very live token. */
  lemma {:induction false} SwallowedComesBack(s: string, jwt: string, token: Option<string>)
    requires jwt == "eyJa.b.c" && s == "%0" + jwt && (token == None || token == Some(jwt))
    ensures Returned(s, token) == s && !IsClean(s) && !Absent(jwt, s)
  {
    SwallowedDecodes(s, jwt);
    var w := Working(s);
    NoScan(w);
    AbsentByChar(jwt, 0, w);
    IsJwt(jwt);
    assert s[2..] == jwt;
  }
}
