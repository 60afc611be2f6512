/** The building blocks of the expressions, spelled out: characters, numbers, values and segments. */
module Texts {
  import opened Wrappers
  import opened Patterns

  /** The character classes of the expressions, spelled out. */
  lemma {:induction false} CharacterClasses(c: char)
    ensures HexDigit(c) <==> c in "0123456789abcdefABCDEF"
    ensures WordChar(c) <==>
      c in "0123456789" || c in "abcdefghijklmnopqrstuvwxyz" || c in "ABCDEFGHIJKLMNOPQRSTUVWXYZ" || c == '_'
  {
    LowerCase(c);
    UpperCase(c);
    Decimal(c);
    HexDigits(c);
  }

  lemma Decimal(c: char)
    ensures '0' <= c <= '9' <==> c in "0123456789"
  {
  }

  lemma HexDigits(c: char)
    ensures HexDigit(c) <==> c in "0123456789abcdefABCDEF"
  {
  }

  lemma LowerCase(c: char)
    ensures 'a' <= c <= 'z' <==> c in "abcdefghijklmnopqrstuvwxyz"
  {
    var row := "abcdefghijklmnopqrstuvwxyz";
    if 'a' <= c <= 'z' {
      assert row[(c as int) - ('a' as int)] == c;
    }
  }

  lemma UpperCase(c: char)
    ensures 'A' <= c <= 'Z' <==> c in "ABCDEFGHIJKLMNOPQRSTUVWXYZ"
  {
    var row := "ABCDEFGHIJKLMNOPQRSTUVWXYZ";
    if 'A' <= c <= 'Z' {
      assert row[(c as int) - ('A' as int)] == c;
    }
  }

  /** A digit has its place in the row of digits as its value, in either case. */
  lemma {:induction false} DigitValues(c: char, v: nat)
    requires v < 16 && (c == "0123456789abcdef"[v] || c == "0123456789ABCDEF"[v])
    ensures HexDigit(c) && DigitValue(c) == v
  {
  }

  /** Values are positional in base 16. */
  lemma {:induction false} HexValueStep(s: string, c: char)
    ensures HexValue([]) == 0 && HexValue(s + [c]) == 16 * HexValue(s) + DigitValue(c)
  {
    assert (s + [c])[..|s|] == s;
  }

  /** A value of more than 64 bits is read as the largest one. */
  lemma {:induction false} ValueSaturates(s: string)
    ensures StrToVma(s) == if HexValue(s) <= 0xffff_ffff_ffff_ffff then HexValue(s) else 0xffff_ffff_ffff_ffff
  {
  }

  predicate SomeDigits(d: string) {
    d != "" && forall c :: c in d ==> HexDigit(c)
  }

  lemma PrefixedDigits(d: string)
    requires SomeDigits(d)
    ensures IsHexNumber(d) && IsHexNumber("0x" + d)
  {
    assert forall i :: 0 <= i < |d| ==> d[i] in d;
    assert ("0x" + d)[2..] == d && ("0x" + d)[..2] == "0x";
  }

  /** The numbers are exactly the digits, at least one, with or without `0x`. */
  lemma {:induction false} HexNumberText(s: string)
    ensures IsHexNumber(s) <==> exists d :: SomeDigits(d) && (s == d || s == "0x" + d)
  {
    if IsHexNumber(s) {
      assert SomeDigits(Digits(s));
    }
    if exists d :: SomeDigits(d) && (s == d || s == "0x" + d) {
      var d :| SomeDigits(d) && (s == d || s == "0x" + d);
      PrefixedDigits(d);
    }
  }

  /** A segment is a word and a colon, or missing. */
  lemma {:induction false} SegmentText(s: string)
    ensures IsSegment(s) <==> s == "" || exists w :: w != "" && (forall c :: c in w ==> WordChar(c)) && s == w + ":"
  {
    if IsSegment(s) && s != "" {
      var w := s[..|s| - 1];
      assert s == w + ":" && forall c :: c in w ==> WordChar(c);
    }
    if w :| w != "" && (forall c :: c in w ==> WordChar(c)) && s == w + ":" {
      assert s[..|s| - 1] == w && forall i :: 0 <= i < |w| ==> w[i] in w;
    }
  }
}
