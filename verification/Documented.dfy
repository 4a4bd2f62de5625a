/** The examples in the comments of library/console/xprintf/xprintf.c, on literal texts. */
module Documented {
  import opened Bits
  import opened Text
  import opened Format
  import opened Scanner
  import RoundTrip

  /** The characters of an ASCII text. */
  function Ascii(s: string): (b: seq<byte>)
    requires forall i | 0 <= i < |s| :: s[i] as int < 0x80
    ensures |b| == |s| && forall i | 0 <= i < |s| :: b[i] == s[i] as int
  {
    seq(|s|, i requires 0 <= i < |s| => s[i] as int)
  }

  /** An ASCII text as a C string. */
  function Z(s: string): (z: CStr)
    requires forall i | 0 <= i < |s| :: 0 < s[i] as int < 0x80
    ensures |z| == |s| + 1 && z[|s|] == 0 && forall i | 0 <= i < |s| :: z[i] == s[i] as int
  {
    Ascii(s) + [0]
  }

  // ------------------------------------------------------------------ xatoi

  lemma First(s: CStr)
    requires |s| == 31 && s[0] == 0x31 && s[1] == 0x32 && s[2] == 0x33 && s[3] == 0x20
    ensures Atoi(s, 0) == Scan(true, 123, 3)
  {
    assert ScanDigits(s, 3, 10, 123) == Scan(true, 123, 3);
    assert ScanDigits(s, 2, 10, 12) == Scan(true, 123, 3);
    assert ScanDigits(s, 1, 10, 1) == Scan(true, 123, 3);
  }

  lemma Second(s: CStr)
    requires |s| == 31 && s[3] == 0x20 && s[4] == 0x2D && s[5] == 0x35 && s[6] == 0x20
    ensures Atoi(s, 3) == Scan(true, 0xFFFF_FFFB, 6)
  {
    assert ScanDigits(s, 6, 10, 5) == Scan(true, 5, 6);
    assert SkipSpaces(s, 3) == 4;
  }

  lemma Third(s: CStr)
    requires |s| == 31 && s[6] == 0x20 && s[7] == 0x20 && s[8] == 0x20 && s[9] == 0x30 && s[10] == 0x78 && s[11] == 0x33 && s[12] == 0x66 && s[13] == 0x66 && s[14] == 0x20
    ensures Atoi(s, 6) == Scan(true, 1023, 14)
  {
    assert SkipSpaces(s, 8) == 9;
    assert SkipSpaces(s, 6) == 9;
    assert ScanDigits(s, 14, 16, 1023) == Scan(true, 1023, 14);
    assert ScanDigits(s, 13, 16, 63) == Scan(true, 1023, 14);
    assert ScanDigits(s, 12, 16, 3) == Scan(true, 1023, 14);
  }

  lemma Fourth(s: CStr)
    requires |s| == 31 && s[14] == 0x20 && s[15] == 0x30 && s[16] == 0x62 && s[17] == 0x31 && s[18] == 0x31 && s[19] == 0x31 && s[20] == 0x31 && s[21] == 0x20
    ensures Atoi(s, 14) == Scan(true, 15, 21)
  {
    assert SkipSpaces(s, 14) == 15;
    assert ScanDigits(s, 21, 2, 15) == Scan(true, 15, 21);
    assert ScanDigits(s, 20, 2, 7) == Scan(true, 15, 21);
    assert ScanDigits(s, 19, 2, 3) == Scan(true, 15, 21);
    assert ScanDigits(s, 18, 2, 1) == Scan(true, 15, 21);
  }

  lemma Fifth(s: CStr)
    requires |s| == 31 && s[21] == 0x20 && s[22] == 0x30 && s[23] == 0x33 && s[24] == 0x37 && s[25] == 0x37 && s[26] == 0x20
    ensures Atoi(s, 21) == Scan(true, 255, 26)
  {
    assert SkipSpaces(s, 21) == 22;
    assert ScanDigits(s, 26, 8, 255) == Scan(true, 255, 26);
    assert ScanDigits(s, 25, 8, 31) == Scan(true, 255, 26);
    assert ScanDigits(s, 24, 8, 3) == Scan(true, 255, 26);
  }

  lemma Sixth(s: CStr)
    requires |s| == 31 && s[26] == 0x20 && s[27] == 0x20 && s[28] == 0x77
    ensures Atoi(s, 26) == Scan(false, 0, 28)
  {
    assert SkipSpaces(s, 27) == 28;
  }

  lemma FirstLine()
    ensures Atoi(Z("123 -5   0x3ff 0b1111 0377  w "), 0) == Scan(true, 123, 3)
  {
    hide Atoi;
    First(Z("123 -5   0x3ff 0b1111 0377  w "));
  }

  lemma SecondLine()
    ensures Atoi(Z("123 -5   0x3ff 0b1111 0377  w "), 3) == Scan(true, 0xFFFF_FFFB, 6)
  {
    hide Atoi;
    Second(Z("123 -5   0x3ff 0b1111 0377  w "));
  }

  lemma ThirdLine()
    ensures Atoi(Z("123 -5   0x3ff 0b1111 0377  w "), 6) == Scan(true, 1023, 14)
  {
    hide Atoi;
    Third(Z("123 -5   0x3ff 0b1111 0377  w "));
  }

  lemma FourthLine()
    ensures Atoi(Z("123 -5   0x3ff 0b1111 0377  w "), 14) == Scan(true, 15, 21)
  {
    hide Atoi;
    Fourth(Z("123 -5   0x3ff 0b1111 0377  w "));
  }

  lemma FifthLine()
    ensures Atoi(Z("123 -5   0x3ff 0b1111 0377  w "), 21) == Scan(true, 255, 26)
  {
    hide Atoi;
    Fifth(Z("123 -5   0x3ff 0b1111 0377  w "));
  }

  lemma SixthLine()
    ensures Atoi(Z("123 -5   0x3ff 0b1111 0377  w "), 26) == Scan(false, 0, 28)
  {
    hide Atoi;
    Sixth(Z("123 -5   0x3ff 0b1111 0377  w "));
  }

  lemma SixCalls(s: CStr)
    requires |s| == 31
    requires Atoi(s, 0) == Scan(true, 123, 3) && Atoi(s, 3) == Scan(true, 0xFFFF_FFFB, 6) && Atoi(s, 6) == Scan(true, 1023, 14)
    requires Atoi(s, 14) == Scan(true, 15, 21) && Atoi(s, 21) == Scan(true, 255, 26) && Atoi(s, 26) == Scan(false, 0, 28)
    ensures Calls(s, 0, 6) ==
              [Scan(true, 123, 3), Scan(true, 0xFFFF_FFFB, 6), Scan(true, 1023, 14),
               Scan(true, 15, 21), Scan(true, 255, 26), Scan(false, 0, 28)]
  {
    hide Atoi;
    assert Calls(s, 26, 1) == [Scan(false, 0, 28)] + Calls(s, 28, 0);
    assert Calls(s, 21, 2) == [Scan(true, 255, 26)] + Calls(s, 26, 1);
    assert Calls(s, 14, 3) == [Scan(true, 15, 21)] + Calls(s, 21, 2);
    assert Calls(s, 6, 4) == [Scan(true, 1023, 14)] + Calls(s, 14, 3);
    assert Calls(s, 3, 5) == [Scan(true, 0xFFFF_FFFB, 6)] + Calls(s, 6, 4);
    assert Calls(s, 0, 6) == [Scan(true, 123, 3)] + Calls(s, 3, 5);
  }

  /** The six calls documented for xatoi: 123, -5, 1023, 15, 255, and a failure with 0. */
  lemma SixNumbers()
    ensures Calls(Z("123 -5   0x3ff 0b1111 0377  w "), 0, 6) ==
              [Scan(true, 123, 3), Scan(true, 0xFFFF_FFFB, 6), Scan(true, 1023, 14),
               Scan(true, 15, 21), Scan(true, 255, 26), Scan(false, 0, 28)]
  {
    hide Calls, Atoi;
    FirstLine(); SecondLine(); ThirdLine(); FourthLine(); FifthLine(); SixthLine();
    SixCalls(Z("123 -5   0x3ff 0b1111 0377  w "));
  }

  // ------------------------------------------------------------------ xprintf

  /** A format that is one specification prints its argument. */
  lemma OneSpec(z: CStr, d: Directive, a: Arg, text: seq<byte>)
    requires z[0] == 0x25 && |z| > 1 && ScanDirective(z, 1) == d && d.next == |z| - 1 && d.conv != 0
    requires !KindOf(d.conv).UnknownKind? && Rendered(d, a) == Some(text)
    ensures Formatted(z, 0, [a]) == Some(text)
  {
    assert Formatted(z, d.next, [a][1..]) == Some([]);
    assert text + [] == text;
    hide Rendered, ScanDirective, KindOf;
  }

  /** The text of a number whose digits are known; `m` is its magnitude. */
  lemma NumberOf(d: Directive, v: u32, m: u32, ds: seq<nat>, body: seq<byte>, text: seq<byte>)
    requires KindOf(d.conv).NumberKind? && Digits(m, KindOf(d.conv).radix) == ds && |ds| <= 16
    requires m == if UpperCase(d.conv) == 0x44 && IsNegative(v) then Wrap(0 - v) else v
    requires UpperCase(d.conv) == 0x44 && IsNegative(v) ==> |ds| < 16 && body != [] && body[0] == 0x2D
    requires var k := if UpperCase(d.conv) == 0x44 && IsNegative(v) then 1 else 0;
      |body| == |ds| + k && forall i | 0 <= i < |ds| :: ds[i] < 16 && body[k + i] == DigitChar(ds[i], d.conv == 0x78)
    requires text == Padded(body, d.width, d.left, if d.zero then 0x30 else 0x20)
    ensures Rendered(d, Word(v)) == Some(text)
  {
    hide KindOf, UpperCase, IsNegative, Digits, Padded, DigitChar;
    assert Last(ds, 16) == ds;
    assert NumberText(d.conv, v) == body;
  }

  lemma PlainSpec()
    ensures ScanDirective(Z("%d"), 1) == Directive(false, false, 0, 0x64, 2)
  {}

  lemma PlainDigits()
    ensures Digits(1234, 10) == [1, 2, 3, 4]
  {
    assert Digits(12, 10) == [1, 2];
    assert Digits(123, 10) == [1, 2, 3];
  }

  lemma Plain()
    ensures Formatted(Z("%d"), 0, [Word(1234)]) == Some(Ascii("1234"))
  {
    PlainSpec();
    PlainDigits();
    hide Digits, ScanDirective;
    assert Padded(Ascii("1234"), 0, false, 0x20) == Ascii("1234");
    var d := Directive(false, false, 0, 0x64, 2);
    NumberOf(d, 1234, 1234, [1, 2, 3, 4], Ascii("1234"), Ascii("1234"));
    hide Padded, Rendered;
    OneSpec(Z("%d"), d, Word(1234), Ascii("1234"));
  }

  lemma NegativeSpec()
    ensures ScanDirective(Z("%6d"), 1) == Directive(false, false, 6, 0x64, 3)
  {
    assert ScanWidth(Z("%6d"), 2, 6) == (6, 2);
  }

  lemma NegativeDigits()
    ensures Digits(200, 10) == [2, 0, 0]
  {
    assert Digits(20, 10) == [2, 0];
  }

  lemma Negative()
    ensures Formatted(Z("%6d"), 0, [Word(0xffffff38)]) == Some(Ascii("  -200"))
  {
    NegativeSpec();
    NegativeDigits();
    hide Digits, ScanDirective;
    assert Padded(Ascii("-200"), 6, false, 0x20) == Ascii("  -200");
    var d := Directive(false, false, 6, 0x64, 3);
    NumberOf(d, 0xffffff38, 200, [2, 0, 0], Ascii("-200"), Ascii("  -200"));
    hide Padded, Rendered;
    OneSpec(Z("%6d"), d, Word(0xffffff38), Ascii("  -200"));
  }

  lemma LeftUnsignedSpec()
    ensures ScanDirective(Z("%-6u"), 1) == Directive(false, true, 6, 0x75, 4)
  {
    assert ScanWidth(Z("%-6u"), 3, 6) == (6, 3);
  }

  lemma LeftUnsignedDigits()
    ensures Digits(100, 10) == [1, 0, 0]
  {
    assert Digits(10, 10) == [1, 0];
  }

  lemma LeftUnsigned()
    ensures Formatted(Z("%-6u"), 0, [Word(100)]) == Some(Ascii("100   "))
  {
    LeftUnsignedSpec();
    LeftUnsignedDigits();
    hide Digits, ScanDirective;
    assert Padded(Ascii("100"), 6, true, 0x20) == Ascii("100   ");
    var d := Directive(false, true, 6, 0x75, 4);
    NumberOf(d, 100, 100, [1, 0, 0], Ascii("100"), Ascii("100   "));
    hide Padded, Rendered;
    OneSpec(Z("%-6u"), d, Word(100), Ascii("100   "));
  }

  lemma LongSpec()
    ensures ScanDirective(Z("%ld"), 1) == Directive(false, false, 0, 0x64, 3)
  {}

  lemma LongDigits()
    ensures Digits(0xbc614e, 10) == [1, 2, 3, 4, 5, 6, 7, 8]
  {
    assert Digits(12, 10) == [1, 2];
    assert Digits(123, 10) == [1, 2, 3];
    assert Digits(1234, 10) == [1, 2, 3, 4];
    assert Digits(0x3039, 10) == [1, 2, 3, 4, 5];
    assert Digits(0x1e240, 10) == [1, 2, 3, 4, 5, 6];
    assert Digits(0x12d687, 10) == [1, 2, 3, 4, 5, 6, 7];
  }

  lemma Long()
    ensures Formatted(Z("%ld"), 0, [Word(0xbc614e)]) == Some(Ascii("12345678"))
  {
    LongSpec();
    LongDigits();
    hide Digits, ScanDirective;
    assert Padded(Ascii("12345678"), 0, false, 0x20) == Ascii("12345678");
    var d := Directive(false, false, 0, 0x64, 3);
    NumberOf(d, 0xbc614e, 0xbc614e, [1, 2, 3, 4, 5, 6, 7, 8], Ascii("12345678"), Ascii("12345678"));
    hide Padded, Rendered;
    OneSpec(Z("%ld"), d, Word(0xbc614e), Ascii("12345678"));
  }

  lemma PaddedHexSpec()
    ensures ScanDirective(Z("%04x"), 1) == Directive(true, false, 4, 0x78, 4)
  {
    assert ScanWidth(Z("%04x"), 3, 4) == (4, 3);
  }

  lemma PaddedHexDigits()
    ensures Digits(163, 16) == [10, 3]
  {}

  lemma PaddedHex()
    ensures Formatted(Z("%04x"), 0, [Word(163)]) == Some(Ascii("00a3"))
  {
    PaddedHexSpec();
    PaddedHexDigits();
    hide Digits, ScanDirective;
    assert Padded(Ascii("a3"), 4, false, 0x30) == Ascii("00a3");
    var d := Directive(true, false, 4, 0x78, 4);
    NumberOf(d, 163, 163, [10, 3], Ascii("a3"), Ascii("00a3"));
    hide Padded, Rendered;
    OneSpec(Z("%04x"), d, Word(163), Ascii("00a3"));
  }

  lemma LongHexSpec()
    ensures ScanDirective(Z("%08LX"), 1) == Directive(true, false, 8, 0x58, 5)
  {
    assert ScanWidth(Z("%08LX"), 3, 8) == (8, 3);
  }

  lemma LongHexDigits()
    ensures Digits(0x123abc, 16) == [1, 2, 3, 10, 11, 12]
  {
    assert Digits(18, 16) == [1, 2];
    assert Digits(291, 16) == [1, 2, 3];
    assert Digits(4666, 16) == [1, 2, 3, 10];
    assert Digits(0x123ab, 16) == [1, 2, 3, 10, 11];
  }

  lemma LongHex()
    ensures Formatted(Z("%08LX"), 0, [Word(0x123abc)]) == Some(Ascii("00123ABC"))
  {
    LongHexSpec();
    LongHexDigits();
    hide Digits, ScanDirective;
    assert Padded(Ascii("123ABC"), 8, false, 0x30) == Ascii("00123ABC");
    var d := Directive(true, false, 8, 0x58, 5);
    NumberOf(d, 0x123abc, 0x123abc, [1, 2, 3, 10, 11, 12], Ascii("123ABC"), Ascii("00123ABC"));
    hide Padded, Rendered;
    OneSpec(Z("%08LX"), d, Word(0x123abc), Ascii("00123ABC"));
  }

  lemma BinarySpec()
    ensures ScanDirective(Z("%016b"), 1) == Directive(true, false, 16, 0x62, 5)
  {
    assert ScanWidth(Z("%016b"), 4, 16) == (16, 4);
    assert ScanWidth(Z("%016b"), 3, 1) == (16, 4);
  }

  lemma BinaryDigits()
    ensures Digits(0x550f, 2) == [1, 0, 1, 0, 1, 0, 1, 0, 0, 0, 0, 1, 1, 1, 1]
  {
    assert Digits(2, 2) == [1, 0];
    assert Digits(5, 2) == [1, 0, 1];
    assert Digits(10, 2) == [1, 0, 1, 0];
    assert Digits(21, 2) == [1, 0, 1, 0, 1];
    assert Digits(42, 2) == [1, 0, 1, 0, 1, 0];
    assert Digits(85, 2) == [1, 0, 1, 0, 1, 0, 1];
    assert Digits(170, 2) == [1, 0, 1, 0, 1, 0, 1, 0];
    assert Digits(340, 2) == [1, 0, 1, 0, 1, 0, 1, 0, 0];
    assert Digits(680, 2) == [1, 0, 1, 0, 1, 0, 1, 0, 0, 0];
    assert Digits(1360, 2) == [1, 0, 1, 0, 1, 0, 1, 0, 0, 0, 0];
    assert Digits(2721, 2) == [1, 0, 1, 0, 1, 0, 1, 0, 0, 0, 0, 1];
    assert Digits(5443, 2) == [1, 0, 1, 0, 1, 0, 1, 0, 0, 0, 0, 1, 1];
    assert Digits(0x2a87, 2) == [1, 0, 1, 0, 1, 0, 1, 0, 0, 0, 0, 1, 1, 1];
  }

  lemma BinaryText()
    ensures Padded(Ascii("101010100001111"), 16, false, 0x30) == Ascii("0101010100001111")
  {
    var d := Ascii("101010100001111");
    assert Padded(d, 16, false, 0x30) == [0x30] + d by { assert Repeat(0x30, 1) == [0x30]; }
  }

  lemma Binary()
    ensures Formatted(Z("%016b"), 0, [Word(0x550f)]) == Some(Ascii("0101010100001111"))
  {
    BinarySpec();
    BinaryDigits();
    BinaryText();
    hide Digits, ScanDirective, Padded;
    var d := Directive(true, false, 16, 0x62, 5);
    NumberOf(d, 0x550f, 0x550f, [1, 0, 1, 0, 1, 0, 1, 0, 0, 0, 0, 1, 1, 1, 1], Ascii("101010100001111"), Ascii("0101010100001111"));
    hide Padded, Rendered;
    OneSpec(Z("%016b"), d, Word(0x550f), Ascii("0101010100001111"));
  }

  lemma StringOf(d: Directive, z: CStr, body: seq<byte>, text: seq<byte>)
    requires d.conv == 0x73 && d.width < 0xFFFF_FFFF && z == body + [0] && |text| == Max(|body|, d.width)
    requires d.left ==> text[..|body|] == body && forall i | |body| <= i < |text| :: text[i] == 0x20
    requires !d.left ==> text[|text| - |body|..] == body && forall i | 0 <= i < |text| - |body| :: text[i] == 0x20
    ensures Rendered(d, Str(z)) == Some(text)
  {
    assert z[..|z| - 1] == body;
    RoundTrip.PlainField(body, d.width, d.left, 0x20);
    FieldText(d, body, text);
    hide Padded, Repeat;
  }

  lemma FieldText(d: Directive, body: seq<byte>, text: seq<byte>)
    requires |text| == Max(|body|, d.width)
    requires d.left ==> text[..|body|] == body && forall i | |body| <= i < |text| :: text[i] == 0x20
    requires !d.left ==> text[|text| - |body|..] == body && forall i | 0 <= i < |text| - |body| :: text[i] == 0x20
    ensures var pad := Repeat(0x20, if |body| < d.width then d.width - |body| else 0);
      text == if d.left then body + pad else pad + body
  {
    var pad := Repeat(0x20, if |body| < d.width then d.width - |body| else 0);
    if d.left {
      assert text == text[..|body|] + text[|body|..];
      assert text[|body|..] == pad;
    } else {
      assert text == text[..|pad|] + text[|pad|..];
      assert text[..|pad|] == pad;
    }
  }

  lemma PlainString()
    ensures Formatted(Z("%s"), 0, [Str(Z("String"))]) == Some(Ascii("String"))
  {
    var d := Directive(false, false, 0, 0x73, 2);
    assert ScanDirective(Z("%s"), 1) == d;
    StringOf(d, Z("String"), Ascii("String"), Ascii("String"));
    OneSpec(Z("%s"), d, Str(Z("String")), Ascii("String"));
  }

  lemma LeftString()
    ensures Formatted(Z("%-4s"), 0, [Str(Z("abc"))]) == Some(Ascii("abc "))
  {
    var d := Directive(false, true, 4, 0x73, 4);
    assert ScanWidth(Z("%-4s"), 3, 4) == (4, 3);
    assert ScanDirective(Z("%-4s"), 1) == d;
    StringOf(d, Z("abc"), Ascii("abc"), Ascii("abc "));
    OneSpec(Z("%-4s"), d, Str(Z("abc")), Ascii("abc "));
  }

  lemma RightString()
    ensures Formatted(Z("%4s"), 0, [Str(Z("abc"))]) == Some(Ascii(" abc"))
  {
    var d := Directive(false, false, 4, 0x73, 3);
    assert ScanWidth(Z("%4s"), 2, 4) == (4, 2);
    assert ScanDirective(Z("%4s"), 1) == d;
    StringOf(d, Z("abc"), Ascii("abc"), Ascii(" abc"));
    OneSpec(Z("%4s"), d, Str(Z("abc")), Ascii(" abc"));
  }

  lemma Character()
    ensures Formatted(Z("%c"), 0, [Word(0x61)]) == Some(Ascii("a"))
  {
    assert ScanDirective(Z("%c"), 1) == Directive(false, false, 0, 0x63, 2);
    assert [0x61] == Ascii("a");
    OneSpec(Z("%c"), Directive(false, false, 0, 0x63, 2), Word(0x61), Ascii("a"));
  }

  /** A floating point specification only prints its letter; its argument is not taken. */
  lemma NoFloats(args: seq<Arg>)
    ensures Formatted(Z("%f"), 0, args) == Some(Ascii("f"))
  {
    assert ScanDirective(Z("%f"), 1) == Directive(false, false, 0, 0x66, 2);
    assert Formatted(Z("%f"), 2, args) == Some([]);
    assert [0x66] + [] == Ascii("f");
  }
}
