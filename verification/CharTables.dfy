/** The character classes, as tables. */
module CharTables {
  import opened Prelude

  const LOWERS := "abcdefghijklmnopqrstuvwxyz"
  const UPPERS := "ABCDEFGHIJKLMNOPQRSTUVWXYZ"
  const DIGITS := "0123456789"
  const HEX_DIGITS := "0123456789abcdefABCDEF"

  lemma {:induction false} LowerAt(k: nat)
    requires k < 26
    ensures LOWERS[k] as int == 'a' as int + k
  {
  }

  lemma {:induction false} UpperAt(k: nat)
    requires k < 26
    ensures UPPERS[k] as int == 'A' as int + k
  {
  }

  lemma {:induction false} LowerTable(c: char)
    ensures c in LOWERS <==> 'a' <= c <= 'z'
  {
    if 'a' <= c <= 'z' {
      LowerAt(c as int - 'a' as int);
    } else if c in LOWERS {
      var k :| 0 <= k < 26 && LOWERS[k] == c;
      LowerAt(k);
    }
  }

  lemma {:induction false} UpperTable(c: char)
    ensures c in UPPERS <==> 'A' <= c <= 'Z'
  {
    if 'A' <= c <= 'Z' {
      UpperAt(c as int - 'A' as int);
    } else if c in UPPERS {
      var k :| 0 <= k < 26 && UPPERS[k] == c;
      UpperAt(k);
    }
  }

  lemma {:induction false} DigitTable(c: char)
    ensures c in DIGITS <==> '0' <= c <= '9'
  {
    if '0' <= c <= '9' {
      assert DIGITS[c as int - '0' as int] == c;
    }
  }

  lemma {:induction false} IdentTable(c: char)
    ensures IsIdent(c) <==> c in LOWERS || c in UPPERS || c in DIGITS || c == '_'
  {
    LowerTable(c);
    UpperTable(c);
    DigitTable(c);
  }

  lemma {:induction false} Base64Table(c: char)
    ensures IsIn(c, Base64) <==> c in LOWERS || c in UPPERS || c in DIGITS || c in "-_="
  {
    IdentTable(c);
  }

  lemma {:induction false} HexTable(c: char)
    ensures IsIn(c, Hex) <==> c in HEX_DIGITS
  {
    if '0' <= c <= '9' {
      assert HEX_DIGITS[c as int - '0' as int] == c;
    } else if 'a' <= c <= 'f' {
      assert HEX_DIGITS[10 + c as int - 'a' as int] == c;
    } else if 'A' <= c <= 'F' {
      assert HEX_DIGITS[16 + c as int - 'A' as int] == c;
    }
  }

  lemma {:induction false} SpaceTable(c: char)
    ensures IsIn(c, NonSpace) <==> c !in [0x09 as char, 0x0A as char, 0x0C as char, 0x0D as char, 0x20 as char]
  {
  }

  /** Each letter has its other case at the same place of the other table; nothing else changes. */
  lemma {:induction false} CaseTable(c: char, k: nat)
    requires k < 26
    ensures ToUpper(LOWERS[k]) == UPPERS[k] && ToLower(UPPERS[k]) == LOWERS[k]
    ensures c !in LOWERS ==> ToUpper(c) == c
    ensures c !in UPPERS ==> ToLower(c) == c
  {
    LowerAt(k);
    UpperAt(k);
    LowerTable(c);
    UpperTable(c);
  }

  /** White space of `char::is_whitespace`, below 256. */
  lemma {:induction false} WhiteTable(c: char)
    requires c < 256 as char
    ensures IsSpace(c) <==> c as int in [0x09, 0x0A, 0x0B, 0x0C, 0x0D, 0x20, 0x85, 0xA0]
  {
  }

  /** Above ASCII and below 256, the characters that `char::is_alphanumeric` does not hold for. */
  lemma {:induction false} LatinTable(c: char)
    requires 0x80 as char <= c < 256 as char
    ensures var n := c as int;
      IsVarChar(c) <==> !(n <= 0xA9 || 0xAB <= n <= 0xB1 || n == 0xB4 || 0xB6 <= n <= 0xB8 || n == 0xBB || n == 0xBF
                          || n == 0xD7 || n == 0xF7)
  {
  }

  lemma {:induction false} NameTable(c: char)
    requires c < 0x80 as char
    ensures IsVarChar(c) <==> c in LOWERS || c in UPPERS || c in DIGITS || c == '_'
  {
    IdentTable(c);
  }
}
