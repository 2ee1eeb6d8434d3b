/** The character classes of the patterns, spelled out. */
module Alphabets {
  import opened Text
  import D = DataUrl
  import W = WhenSyntax
  import A = AttachmentIds

  const LOWER_CASE := "abcdefghijklmnopqrstuvwxyz"
  const UPPER_CASE := "ABCDEFGHIJKLMNOPQRSTUVWXYZ"
  const DIGITS := "0123456789"

  lemma {:induction false} Letters(c: char)
    ensures IsLower(c) <==> c in LOWER_CASE
    ensures IsUpper(c) <==> c in UPPER_CASE
    ensures IsDigit(c) <==> c in DIGITS
  {
    LowerCaseLetter(c);
    UpperCaseLetter(c);
    Digit(c);
  }

  lemma {:induction false} LowerCaseLetter(c: char)
    ensures IsLower(c) <==> c in LOWER_CASE
  {
    assert |LOWER_CASE| == 26 && forall i :: 0 <= i < 26 ==> LOWER_CASE[i] as int == 'a' as int + i;
    if IsLower(c) {
      assert LOWER_CASE[c as int - 'a' as int] == c;
    }
  }

  lemma {:induction false} UpperCaseLetter(c: char)
    ensures IsUpper(c) <==> c in UPPER_CASE
  {
    assert |UPPER_CASE| == 26 && forall i :: 0 <= i < 26 ==> UPPER_CASE[i] as int == 'A' as int + i;
    if IsUpper(c) {
      assert UPPER_CASE[c as int - 'A' as int] == c;
    }
  }

  lemma {:induction false} Digit(c: char)
    ensures IsDigit(c) <==> c in DIGITS
  {
    assert |DIGITS| == 10 && forall i :: 0 <= i < 10 ==> DIGITS[i] as int == '0' as int + i;
    if IsDigit(c) {
      assert DIGITS[c as int - '0' as int] == c;
    }
  }

  /** Section 4 of RFC 4648, with the padding; and the white space a payload may hold. */
  lemma {:induction false} Base64Characters(c: char)
    ensures D.IsBase64Char(c) <==> c in UPPER_CASE + LOWER_CASE + DIGITS + "+/="
    ensures D.IsBase64Whitespace(c) <==> c in "\r\n "
  {
    Letters(c);
  }

  /** `[A-Za-z_][A-Za-z0-9_.-]*`. */
  lemma {:induction false} NameCharacters(c: char)
    ensures W.IsNameStart(c) <==> c in UPPER_CASE + LOWER_CASE + "_"
    ensures W.IsNameChar(c) <==> c in UPPER_CASE + LOWER_CASE + DIGITS + "_.-"
  {
    Letters(c);
  }

  /** `[a-z0-9_]` and `[0-9a-f]`. */
  lemma {:induction false} IdCharacters(c: char)
    ensures A.IsWordChar(c) <==> c in LOWER_CASE + DIGITS + "_"
    ensures A.IsHex(c) <==> c in DIGITS + "abcdef"
    ensures A.IsEdge(c) <==> c in "-_"
  {
    Letters(c);
    assert A.IsHex(c) && !IsDigit(c) ==> c == 'a' || c == 'b' || c == 'c' || c == 'd' || c == 'e' || c == 'f';
  }

  const WHITE_SPACE: set<int> := {
    0x9, 0xA, 0xB, 0xC, 0xD, 0x20, 0xA0, 0x1680, 0x2000, 0x2001, 0x2002, 0x2003, 0x2004, 0x2005, 0x2006, 0x2007,
    0x2008, 0x2009, 0x200A, 0x2028, 0x2029, 0x202F, 0x205F, 0x3000, 0xFEFF
  }

  /** White space and line terminators of section 12 of ECMA-262. */
  lemma {:induction false} SpaceCharacters(c: char)
    ensures IsSpace(c) <==> c as int in WHITE_SPACE
    ensures IsLineTerminator(c) <==> c as int in {0xA, 0xD, 0x2028, 0x2029}
  {
  }
}
