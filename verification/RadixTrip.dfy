/** Numbers printed in hexadecimal, octal and binary with the parser's prefixes are read
    back as the same 32-bit pattern, as far as the 16-byte digit buffer reaches. */
module RadixTrip {
  import opened Bits
  import opened Text
  import opened Format
  import opened Scanner
  import opened RoundTrip

  /** A prefix and one specification: "0x%x", "0x%08X", "0%o", "0b%b". */
  function RadixItems(prefix: seq<byte>, it: Item): (items: seq<Item>)
    ensures |items| == |prefix| + 1
  {
    seq(|prefix|, i requires 0 <= i < |prefix| => Lit(prefix[i])) + [it]
  }

  lemma {:induction false} MeaningOfRadix(prefix: seq<byte>, it: Item, v: u32)
    requires it.Spec? && ItemStep(it, [Word(v)]).Some?
    ensures Meaning(RadixItems(prefix, it), [Word(v)]) == Some(prefix + ItemStep(it, [Word(v)]).value)
  {
    hide ItemStep;
    var items, text := RadixItems(prefix, it), ItemStep(it, [Word(v)]).value;
    if prefix == [] {
      assert items == [it] && items[1..] == [] && ArgsAfter(it, [Word(v)]) == [];
      assert text + [] == text == prefix + text;
    } else {
      var rest := RadixItems(prefix[1..], it);
      assert items == [Lit(prefix[0])] + rest;
      MeaningOfRadix(prefix[1..], it, v);
      LitStep(prefix[0], rest, [Word(v)]);
      assert [prefix[0]] + (prefix[1..] + text) == prefix + text;
    }
  }

  lemma RadixItemsProper(prefix: seq<byte>, it: Item)
    requires it.Spec? && Proper(it) && forall i | 0 <= i < |prefix| :: prefix[i] > PERCENT
    ensures var items := RadixItems(prefix, it);
            forall k | 0 <= k < |items| :: Proper(items[k]) && (items[k].Lit? ==> items[k].c >= SPACE)
  {}

  /** The whole print: format string, text, and the terminated text as sent. */
  lemma PrintRadix(prefix: seq<byte>, it: Item, v: u32) returns (z: CStr)
    requires it.Spec? && Proper(it) && forall i | 0 <= i < |prefix| :: prefix[i] > PERCENT
    requires ItemStep(it, [Word(v)]).Some? && Printable(ItemStep(it, [Word(v)]).value)
    ensures z == WriteAll(RadixItems(prefix, it)) + [NUL]
    ensures Formatted(z, 0, [Word(v)]) == Some(prefix + ItemStep(it, [Word(v)]).value)
    ensures var t := prefix + ItemStep(it, [Word(v)]).value; Crlf(t) == t && CString(t + [NUL])
  {
    hide ItemStep, Proper;
    var items := RadixItems(prefix, it);
    RadixItemsProper(prefix, it);
    WrittenPrintable(items);
    Terminated(WriteAll(items));
    z := WriteAll(items) + [NUL];
    assert z[0..] == z;
    FormatMeaning(z, 0, items, [Word(v)]);
    MeaningOfRadix(prefix, it, v);
    Terminated(prefix + ItemStep(it, [Word(v)]).value);
  }

  /** The digits printed after the prefix, and what the digit loop of the parser makes of them. */
  lemma ScanAfter(prefix: seq<byte>, ds: seq<nat>, r: nat, lower: bool) returns (s: CStr)
    requires r <= 16 && (forall i | 0 <= i < |ds| :: ds[i] < r) && forall i | 0 <= i < |prefix| :: prefix[i] != NUL
    ensures s == prefix + DigitChars(ds, lower) + [NUL]
    ensures ScanDigits(s, |prefix|, r, 0) == Scan(true, Value(ds, r, 0), |s| - 1)
  {
    s := prefix + DigitChars(ds, lower) + [NUL];
    assert s[|prefix|..|prefix| + |ds|] == DigitChars(ds, lower);
    ScanDigitsOf(s, |prefix|, ds, r, lower, 0);
  }

  lemma PowerValues()
    ensures Power(16, 8) == TWO32 && Power(8, 11) >= TWO32
  {
    assert Power(16, 4) == 0x1_0000;
    assert Power(8, 6) == 262144;
  }

  /** An unsigned specification prints the last 16 digits, zero-padded if asked to. */
  lemma UnsignedText(it: Item, v: u32, ds: seq<nat>, pad: nat)
    requires it.Spec? && it.conv in {0x78, 0x58, 0x6F, 0x62} && !it.left
    requires ds == Last(Digits(v, KindOf(it.conv).radix), 16)
    requires it.width < 0xFFFF_FFFF && pad == (if |ds| < it.width then it.width - |ds| else 0)
    requires pad == 0 || it.zero
    ensures ItemStep(it, [Word(v)]) == Some(DigitChars(seq(pad, _ => 0) + ds, it.conv == 0x78))
  {
    hide NumberText, Digits, DigitChars, Padded;
    var text := DigitChars(ds, it.conv == 0x78);
    UnsignedDigits(it.conv, v);
    assert |ds| <= 16;
    ZeroChars(pad, ds, it.conv == 0x78);
    PadLeft(text, it.width, if it.zero then ZERO else SPACE);
  }

  lemma UnsignedDigits(conv: byte, v: u32)
    requires conv in {0x78, 0x58, 0x6F, 0x62}
    ensures NumberText(conv, v) == DigitChars(Last(Digits(v, KindOf(conv).radix), 16), conv == 0x78)
  {
    hide Digits;
  }

  lemma ZeroChars(pad: nat, ds: seq<nat>, lower: bool)
    requires forall i | 0 <= i < |ds| :: ds[i] < 16
    ensures DigitChars(seq(pad, _ => 0) + ds, lower) == Repeat(ZERO, pad) + DigitChars(ds, lower)
  {}

  lemma PadLeft(text: seq<byte>, width: u32, fill: byte)
    requires width < 0xFFFF_FFFF
    ensures Padded(text, width, false, fill) == Repeat(fill, if |text| < width then width - |text| else 0) + text
  {}

  lemma DigitCharsPrintable(ds: seq<nat>, lower: bool)
    requires forall i | 0 <= i < |ds| :: ds[i] < 16
    ensures Printable(DigitChars(ds, lower))
  {}

  /** Printing with a prefix and scanning the digits after it. */
  lemma RadixRoundTrip(prefix: seq<byte>, it: Item, v: u32, ds: seq<nat>, r: nat, lower: bool)
      returns (z: CStr, out: CStr)
    requires it.Spec? && Proper(it) && forall i | 0 <= i < |prefix| :: prefix[i] > PERCENT
    requires r <= 16 && forall i | 0 <= i < |ds| :: ds[i] < r
    requires ItemStep(it, [Word(v)]) == Some(DigitChars(ds, lower))
    ensures z == WriteAll(RadixItems(prefix, it)) + [NUL]
    ensures Formatted(z, 0, [Word(v)]).Some?
    ensures out == Crlf(Formatted(z, 0, [Word(v)]).value) + [NUL]
    ensures out == prefix + DigitChars(ds, lower) + [NUL]
    ensures ScanDigits(out, |prefix|, r, 0) == Scan(true, Value(ds, r, 0), |out| - 1)
  {
    DigitCharsPrintable(ds, lower);
    hide *;
    z := PrintRadix(prefix, it, v);
    out := ScanAfter(prefix, ds, r, lower);
  }

  /** "0x%x", "0x%X", "0x%08x" and "0x%08X" read back every 32-bit pattern. */
  lemma HexRoundTrip(v: u32, lower: bool, padded: bool) returns (z: CStr, out: CStr)
    ensures var it := Spec(padded, false, if padded then 8 else 0, false, if lower then 0x78 else 0x58);
            z == WriteAll(RadixItems([ZERO, 0x78], it)) + [NUL]
    ensures Formatted(z, 0, [Word(v)]).Some?
    ensures out == Crlf(Formatted(z, 0, [Word(v)]).value) + [NUL]
    ensures Atoi(out, 0) == Scan(true, v, |out| - 1)
  {
    var it := Spec(padded, false, if padded then 8 else 0, false, if lower then 0x78 else 0x58);
    var ds := Digits(v, 16);
    assert |ds| <= 8 by { DigitCount(v, 16, 8); PowerValues(); }
    var pad := if |ds| < it.width then it.width - |ds| else 0;
    UnsignedText(it, v, ds, pad);
    var all := seq(pad, _ => 0) + ds;
    assert Value(all, 16, 0) == v by { LeadingZeros(pad, ds, 16); ValueOfDigits(v, 16); }
    z, out := RadixRoundTrip([ZERO, 0x78], it, v, all, 16, lower);
    AtoiHex(out);
  }

  lemma AtoiHex(s: CStr)
    requires |s| > 2 && s[0] == ZERO && (s[1] == 0x78 || s[1] == 0x62)
    ensures Atoi(s, 0) == ScanDigits(s, 2, if s[1] == 0x78 then 16 else 2, 0)
  {}

  lemma AtoiOctal(s: CStr)
    requires |s| > 1 && s[0] == ZERO && ZERO <= s[1] <= NINE
    ensures Atoi(s, 0) == ScanDigits(s, 1, 8, 0)
  {}

  /** "0%o" reads back every 32-bit pattern. */
  lemma OctalRoundTrip(v: u32) returns (z: CStr, out: CStr)
    ensures z == WriteAll(RadixItems([ZERO], Spec(false, false, 0, false, 0x6F))) + [NUL]
    ensures Formatted(z, 0, [Word(v)]).Some?
    ensures out == Crlf(Formatted(z, 0, [Word(v)]).value) + [NUL]
    ensures Atoi(out, 0) == Scan(true, v, |out| - 1)
  {
    var it := Spec(false, false, 0, false, 0x6F);
    var ds := Digits(v, 8);
    assert |ds| <= 16 by { DigitCount(v, 8, 11); PowerValues(); }
    UnsignedText(it, v, ds, 0);
    assert seq(0, _ => 0) + ds == ds;
    assert Value(ds, 8, 0) == v by { ValueOfDigits(v, 8); }
    z, out := RadixRoundTrip([ZERO], it, v, ds, 8, false);
    var text := DigitChars(ds, false);
    hide *;
    assert out[1] == text[0];
    FirstDigit(ds);
    AtoiOctal(out);
  }

  lemma FirstDigit(ds: seq<nat>)
    requires ds != [] && forall i | 0 <= i < |ds| :: ds[i] < 8
    ensures ZERO <= DigitChars(ds, false)[0] <= NINE
  {}

  lemma BinaryValue(v: u32)
    ensures Value(Last(Digits(v, 2), 16), 2, 0) == v % 0x1_0000
  {
    hide *;
    ValueOfLastBits(v, 16);
    LowIsMod(v, 16);
    Pow32();
  }

  lemma LastBits(v: u32) returns (ds: seq<nat>)
    ensures ds == Last(Digits(v, 2), 16) && forall i | 0 <= i < |ds| :: ds[i] < 2
  {
    ds := Last(Digits(v, 2), 16);
  }

  lemma BinaryText(v: u32) returns (ds: seq<nat>)
    ensures (forall i | 0 <= i < |ds| :: ds[i] < 2) && Value(ds, 2, 0) == v % 0x1_0000
    ensures var it := Spec(false, false, 0, false, 0x62);
      Proper(it) && ItemStep(it, [Word(v)]) == Some(DigitChars(ds, false))
  {
    hide Digits, Low, Last, ItemStep, Value, DigitChars;
    ds := LastBits(v);
    UnsignedText(Spec(false, false, 0, false, 0x62), v, ds, 0);
    assert seq(0, _ => 0) + ds == ds;
    BinaryValue(v);
  }

  /** "0b%b" keeps the low 16 bits, so it reads back exactly the values below 2^16. */
  lemma BinaryRoundTrip(v: u32) returns (z: CStr, out: CStr)
    ensures z == WriteAll(RadixItems([ZERO, 0x62], Spec(false, false, 0, false, 0x62))) + [NUL]
    ensures Formatted(z, 0, [Word(v)]).Some?
    ensures out == Crlf(Formatted(z, 0, [Word(v)]).value) + [NUL]
    ensures Atoi(out, 0) == Scan(true, v % 0x1_0000, |out| - 1)
    ensures Atoi(out, 0).res == v <==> v < 0x1_0000
  {
    hide WriteAll, RadixItems, Formatted, ItemStep, ScanDigits, Value, Crlf, DigitChars, Atoi, Digits, Proper;
    var it := Spec(false, false, 0, false, 0x62);
    var ds := BinaryText(v);
    z, out := RadixRoundTrip([ZERO, 0x62], it, v, ds, 2, false);
    AtoiHex(out);
  }

  /** The parser takes six punctuation characters for hexadecimal digits: "0x:" to "0x?"
      are read as 10 to 15. */
  lemma PunctuationDigits(c: byte) returns (s: CStr)
    requires 0x3A <= c <= 0x3F
    ensures s == [ZERO, 0x78, c, NUL]
    ensures Atoi(s, 0) == Scan(true, c - 0x30, 3)
  {
    s := [ZERO, 0x78, c, NUL];
    assert ScanDigits(s, 2, 16, 0) == ScanDigits(s, 3, 16, c - 0x30);
  }

  // ------------------------------------------------------------------ zero-padded decimals

  /** What `%0<w>d` prints for `v`. */
  function ZeroField(w: u32, v: u32): seq<byte> {
    Padded(Decimal(v), w, false, ZERO)
  }

  lemma ZeroFieldIsPrinted(w: u32, v: u32)
    ensures Rendered(Directive(true, false, w, 0x64, 0), Word(v)) == Some(ZeroField(w, v))
  {}

  /** Decimal digits below 8, read as octal, give less than the number unless it is one digit. */
  lemma {:induction false} OctalReading(v: u32)
    requires forall i | 0 <= i < |Digits(v, 10)| :: Digits(v, 10)[i] < 8
    ensures Value(Digits(v, 10), 8, 0) <= v && (Value(Digits(v, 10), 8, 0) == v <==> v < 8)
    decreases v
  {
    if v < 10 {
      assert Digits(v, 10)[0] == v;
      ValueOfOne(v, 8);
    } else {
      var q, m := Divide(v, 10);
      var ds := Digits(q, 10);
      assert forall i | 0 <= i < |ds| :: ds[i] == (ds + [m])[i];
      hide Digits;
      OctalReading(q);
      ValueOfMore(ds, m, 8, Value(ds, 8, 0));
    }
  }

  /** The characters of a zero-padded field and the end of the string. */
  lemma ZeroFieldChars(w: u32, v: u32) returns (s: CStr, e: nat)
    requires w > |Decimal(v)|
    ensures s == ZeroField(w, v) + [NUL] && e == w < |s| && s[e] <= SPACE
    ensures forall i | 0 <= i < w - |Decimal(v)| :: s[i] == ZERO
    ensures s[w - |Decimal(v)|..e] == Decimal(v) && forall i | 0 <= i < e :: s[i] > SPACE
  {
    DecimalText(v);
    hide Decimal;
    e := w;
    var pad := w - |Decimal(v)|;
    var tail := if w == 0xFFFF_FFFF then Repeat(SPACE, w) else [];
    var z := ZeroField(w, v) + [NUL];
    assert z == Repeat(ZERO, pad) + Decimal(v) + tail + [NUL];
    assert CString(z);
    s := z;
  }

  lemma {:induction false} TokenEndIs(s: CStr, p: nat, e: nat)
    requires p <= e < |s| && s[e] <= SPACE && forall i | p <= i < e :: s[i] > SPACE
    ensures TokenEnd(s, p) == e
    decreases e - p
  {
    if p < e { TokenEndIs(s, p + 1, e); }
  }

  /** A padded negative number is rejected. */
  lemma PaddedNegative(w: u32, v: u32)
    requires w > |Decimal(v)| && IsNegative(v)
    ensures CString(ZeroField(w, v) + [NUL]) && !Atoi(ZeroField(w, v) + [NUL], 0).ok
  {
    var s, e := ZeroFieldChars(w, v);
    var pad := w - |Decimal(v)|;
    DecimalText(v);
    hide Decimal, ZeroField;
    assert s[pad] == s[pad..e][0] == MINUS;
    AtoiOkIff(s, 0);
    TokenEndIs(s, 0, e);
    var t := s[0..e];
    assert Unsigned(s, 0) == t;
    assert t[1..][pad - 1] == MINUS;
    assert !ProperDigit(MINUS, 8);
    hide Atoi, Unsigned;
  }

  /** Zeros and digits below 8 are read as the octal number the digits spell. */
  lemma OctalAfterZeros(s: CStr, e: nat, pad: nat, ds: seq<nat>)
    requires pad >= 1 && ds != [] && e == pad + |ds| < |s| && s[e] <= SPACE
    requires (forall i | 0 <= i < pad :: s[i] == ZERO) && forall i | 0 <= i < |ds| :: ds[i] < 8 && s[pad + i] == ZERO + ds[i]
    ensures Atoi(s, 0) == Scan(true, Value(ds, 8, 0), e)
  {
    var all := seq(pad - 1, _ => 0) + ds;
    var t := s[1..e];
    assert forall i | 0 <= i < |all| :: t[i] == DigitChars(all, false)[i];
    assert t == DigitChars(all, false);
    assert ZERO <= s[1] <= NINE by { assert s[1] == t[0]; }
    hide Value, Digits, DigitChars;
    AtoiOctal(s);
    ScanDigitsOf(s, 1, all, 8, false, 0);
    LeadingZeros(pad - 1, ds, 8);
  }

  /** A digit from 8 up is refused after a zero. */
  lemma NoOctal(s: CStr, e: nat, i: nat)
    requires 1 <= i < e < |s| && s[e] <= SPACE && s[0] == ZERO && ZERO <= s[1] <= NINE
    requires (forall k | 1 <= k < e :: s[k] > SPACE) && 0x38 <= s[i] <= NINE
    ensures !Atoi(s, 0).ok
  {
    AtoiOctal(s);
    TokenEndIs(s, 1, e);
    ScanDigitsOkIff(s, 1, 8, 0);
    assert s[1..e][i - 1] == s[i];
    hide Atoi, ScanDigits;
  }

  lemma OneDigit(v: u32)
    requires v < 10
    ensures Digits(v, 10) == [v]
  {}

  /** Zeros and the digits of `v`: what a padded number that is not negative consists of. */
  lemma PaddedDigits(w: u32, v: u32) returns (s: CStr, e: nat, pad: nat, ds: seq<nat>)
    requires w > |Decimal(v)| && !IsNegative(v)
    ensures s == ZeroField(w, v) + [NUL] && ds == Digits(v, 10) != []
    ensures pad >= 1 && e == pad + |ds| < |s| && s[e] <= SPACE && forall i | 0 <= i < e :: s[i] > SPACE
    ensures forall i | 0 <= i < pad :: s[i] == ZERO
    ensures forall i | 0 <= i < |ds| :: ds[i] < 10 && s[pad + i] == ZERO + ds[i]
    ensures s[0] == ZERO && ZERO <= s[1] <= NINE
  {
    hide ZeroField;
    s, e := ZeroFieldChars(w, v);
    pad := w - |Decimal(v)|;
    ds := Digits(v, 10);
    DecimalText(v);
    FieldDigits(s, e, pad, ds);
    hide Decimal, Digits;
    if pad == 1 { assert s[1] == s[pad + 0] == ZERO + ds[0]; }
  }

  /** A padded number that is not negative is read as octal. */
  lemma PaddedPositive(w: u32, v: u32)
    requires w > |Decimal(v)| && !IsNegative(v)
    ensures CString(ZeroField(w, v) + [NUL])
    ensures var d := Atoi(ZeroField(w, v) + [NUL], 0); d.ok && d.res == v <==> v < 8
  {
    hide ZeroField, Atoi, Value, Decimal, Digits;
    var s, e, pad, ds := PaddedDigits(w, v);
    if v < 8 { OneDigit(v); }
    if forall i | 0 <= i < |ds| :: ds[i] < 8 {
      OctalAfterZeros(s, e, pad, ds);
      OctalReading(v);
    } else {
      var i :| 0 <= i < |ds| && ds[i] >= 8;
      assert s[pad + i] == ZERO + ds[i];
      NoOctal(s, e, pad + i);
    }
  }

  lemma FieldDigits(s: seq<byte>, e: nat, pad: nat, ds: seq<nat>)
    requires (forall i | 0 <= i < |ds| :: ds[i] < 10) && e == pad + |ds| < |s| && s[pad..e] == DigitChars(ds, false)
    ensures forall i | 0 <= i < |ds| :: s[pad + i] == ZERO + ds[i]
  {
    assert forall i | 0 <= i < |ds| :: s[pad..e][i] == s[pad + i];
  }

  /** A `%0<w>d` field reads back exactly if no zero is inserted or the value is 0 to 7. */
  lemma ZeroFieldReadsBack(w: u32, v: u32)
    ensures Rendered(Directive(true, false, w, 0x64, 0), Word(v)) == Some(ZeroField(w, v))
    ensures CString(ZeroField(w, v) + [NUL])
    ensures var d := Atoi(ZeroField(w, v) + [NUL], 0); d.ok && d.res == v <==> w <= |Decimal(v)| || v < 8
  {
    ZeroFieldIsPrinted(w, v);
    if w > |Decimal(v)| {
      if IsNegative(v) { PaddedNegative(w, v); } else { PaddedPositive(w, v); }
    } else {
      DecimalText(v);
      hide Decimal;
      var s := ZeroField(w, v) + [NUL];
      assert s == Decimal(v) + [NUL];
      AtoiDecimal(s, 0, 0, v);
    }
  }
}
