/** Small types and text helpers shared by every model in this project. */
module Prelude {

  datatype Option<+T> = None | Some(value: T)

  datatype Result<+T, +E> = Ok(value: T) | Err(error: E)

  const U32_MAX := 0xffff_ffff
  const U64_MAX := 0xffff_ffff_ffff_ffff
  const I64_MIN := -0x8000_0000_0000_0000
  const I64_MAX := 0x7fff_ffff_ffff_ffff

  lemma {:induction false} SubsetSize<T>(a: set<T>, b: set<T>)
    requires a <= b
    ensures |a| <= |b|
  {
    assert b == a + (b - a);
  }

  // ASCII classes. A byte text is a string whose characters stand for the bytes.

  predicate IsDigit(c: char) {
    '0' <= c <= '9'
  }

  predicate IsLetter(c: char) {
    'a' <= c <= 'z' || 'A' <= c <= 'Z'
  }

  predicate IsIdent(c: char) {
    IsLetter(c) || IsDigit(c) || c == '_'
  }

  /** The five characters of `u8::is_ascii_whitespace`; vertical tab is not one. */
  predicate IsAsciiSpace(c: char) {
    c == ' ' || c == '\t' || c == '\n' || c == '\r' || c == 12 as char
  }

  function ToUpper(c: char): char {
    if 'a' <= c <= 'z' then ((c as int) - 32) as char else c
  }

  function ToLower(c: char): char {
    if 'A' <= c <= 'Z' then ((c as int) + 32) as char else c
  }

  function Upper(s: string): (u: string)
    ensures |u| == |s|
  {
    seq(|s|, i requires 0 <= i < |s| => ToUpper(s[i]))
  }

  /** Character classes that the scanners count runs of. */
  datatype Class = Ident | Digit | Space | VarChar | Base64 | NonSpace | Hex

  predicate IsIn(c: char, k: Class) {
    match k
    case Ident => IsIdent(c)
    case Digit => IsDigit(c)
    case Space => IsSpace(c)
    case VarChar => IsVarChar(c)
    case Base64 => IsIdent(c) || c == '-' || c == '='
    case NonSpace => !IsAsciiSpace(c)
    case Hex => IsDigit(c) || 'a' <= c <= 'f' || 'A' <= c <= 'F'
  }

  /** `char::is_whitespace`, on the characters below 256. */
  predicate IsSpace(c: char) {
    9 as char <= c <= 13 as char || c == ' ' || c == 0x85 as char || c == 0xA0 as char
  }

  /** `char::is_alphanumeric` on the characters below 256, or an underscore. */
  predicate IsVarChar(c: char) {
    || IsIdent(c)
    || c in {0xAA as char, 0xB5 as char, 0xBA as char, 0xB2 as char, 0xB3 as char, 0xB9 as char}
    || 0xBC as char <= c <= 0xBE as char
    || (0xC0 as char <= c <= 0xFF as char && c != 0xD7 as char && c != 0xF7 as char)
  }

  /** How many leading characters of `s` are in the class. */
  function PrefixLen(s: string, k: Class): (n: nat)
    ensures n <= |s|
    ensures forall i | 0 <= i < n :: IsIn(s[i], k)
    ensures n < |s| ==> !IsIn(s[n], k)
  {
    if s == [] || !IsIn(s[0], k) then 0 else 1 + PrefixLen(s[1..], k)
  }

  /** The count is the only number with those three properties. */
  lemma PrefixLenIs(s: string, k: Class, n: nat)
    requires n <= |s|
    requires forall i | 0 <= i < n :: IsIn(s[i], k)
    requires n < |s| ==> !IsIn(s[n], k)
    ensures PrefixLen(s, k) == n
  {
  }

  lemma {:induction false} Assoc(a: string, b: string, c: string)
    ensures a + b + c == a + (b + c)
  {
  }

  lemma {:induction false} DropDrop(s: string, i: nat, j: nat)
    requires i + j <= |s|
    ensures s[i..][j..] == s[i + j..]
  {
  }

  lemma {:induction false} AppendDrop(a: string, b: string, i: nat)
    requires i <= |a|
    ensures (a + b)[i..] == a[i..] + b && a[..i] <= a + b
  {
  }
}
