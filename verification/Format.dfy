/** What the console formatter prints: a recursive reading of the format string
    (library/console/xprintf/xprintf.c), independent of the loops that print it. */
module Format {
  import opened Bits
  import opened Text

  /** One variadic argument: a 32-bit word, or a pointer to a string. */
  datatype Arg = Word(v: u32) | Str(z: CStr)

  /** A conversion specification, `next` being the index just after it. */
  datatype Directive = Directive(zero: bool, left: bool, width: u32, conv: byte, next: nat)

  datatype Kind = StringKind | CharKind | NumberKind(radix: nat) | UnknownKind

  function IsDigit(c: byte): bool { ZERO <= c <= NINE }

  function UpperCase(c: byte): byte { if c >= 0x61 then c - 0x20 else c }

  function KindOf(conv: byte): (k: Kind)
    ensures k.NumberKind? ==> IsRadix(k.radix)
  {
    var d := UpperCase(conv);
    if d == 0x53 then StringKind                        // S
    else if d == 0x43 then CharKind                     // C
    else if d == 0x42 then NumberKind(2)                // B
    else if d == 0x4F then NumberKind(8)                // O
    else if d == 0x44 || d == 0x55 then NumberKind(10)  // D, U
    else if d == 0x58 then NumberKind(16)               // X
    else UnknownKind
  }

  /** The decimal number read at `p`, accumulated on uint32_t, and where it ends. */
  function ScanWidth(z: CStr, p: nat, w: u32): (r: (u32, nat))
    requires p < |z|
    ensures p <= r.1 < |z| && !IsDigit(z[r.1])
    decreases |z| - p
  {
    if IsDigit(z[p]) then ScanWidth(z, p + 1, Wrap(w * 10 + z[p] - ZERO)) else (w, p)
  }

  /** The specification that starts at `p`, the index after the `%`; its `conv` is NUL
      when the string ends first. */
  function ScanDirective(z: CStr, p: nat): (d: Directive)
    requires p < |z|
    ensures p < d.next <= |z|
    ensures d.conv != NUL ==> d.next < |z|
  {
    var zero, left := z[p] == ZERO, z[p] == MINUS;
    var (w, q) := ScanWidth(z, if zero || left then p + 1 else p, 0);
    var c := if z[q] == 0x6C || z[q] == 0x4C then q + 1 else q;  // l, L
    Directive(zero, left, w, z[c], c + 1)
  }

  /** `text` set in a field: spaces after it, or fill characters before it. Right
      justification to the largest uint32_t width wraps the C counter and pads the
      other side as well. */
  function Padded(text: seq<byte>, width: u32, left: bool, fill: byte): seq<byte> {
    var pad := if |text| < width then width - |text| else 0;
    if left then text + Repeat(SPACE, pad)
    else Repeat(fill, pad) + text + (if width == 0xFFFF_FFFF then Repeat(SPACE, width) else [])
  }

  function DigitChar(d: nat, lower: bool): byte
    requires d < 16
  {
    if d <= 9 then ZERO + d else ZERO + d + (if lower then 0x27 else 0x07)
  }

  function DigitChars(ds: seq<nat>, lower: bool): (s: seq<byte>)
    requires forall i | 0 <= i < |ds| :: ds[i] < 16
    ensures |s| == |ds| && forall i | 0 <= i < |ds| :: s[i] == DigitChar(ds[i], lower)
  {
    seq(|ds|, i requires 0 <= i < |ds| => DigitChar(ds[i], lower))
  }

  predicate IsNegative(v: u32) { v >= 0x8000_0000 }

  /** A number as text: the last 16 digits of its magnitude, after a sign if it is
      printed as a negative int32_t and the sign still fits. */
  function NumberText(conv: byte, v: u32): seq<byte>
    requires KindOf(conv).NumberKind?
  {
    var negative := UpperCase(conv) == 0x44 && IsNegative(v);
    var ds := Last(Digits(if negative then Wrap(0 - v) else v, KindOf(conv).radix), 16);
    (if negative && |ds| < 16 then [MINUS] else []) + DigitChars(ds, conv == 0x78)
  }

  /** What one specification prints for its argument, if the argument fits it. */
  function Rendered(d: Directive, a: Arg): Option<seq<byte>> {
    match (KindOf(d.conv), a)
    case (StringKind, Str(z)) => Some(Padded(z[..|z| - 1], d.width, d.left, SPACE))
    case (CharKind, Word(v)) => Some([v % 0x100])
    case (NumberKind(_), Word(v)) =>
      Some(Padded(NumberText(d.conv, v), d.width, d.left, if d.zero then ZERO else SPACE))
    case _ => None
  }

  function Prepend(s: seq<byte>, rest: Option<seq<byte>>): Option<seq<byte>> {
    match rest
    case None => None
    case Some(t) => Some(s + t)
  }

  /** The text printed for the format from index `p`; None if an argument is missing or
      of the wrong kind. */
  function Formatted(z: CStr, p: nat, args: seq<Arg>): Option<seq<byte>>
    requires p < |z|
    decreases |z| - p
  {
    if z[p] == NUL then Some([])
    else if z[p] != PERCENT then Prepend([z[p]], Formatted(z, p + 1, args))
    else
      var d := ScanDirective(z, p + 1);
      if d.conv == NUL then Some([])
      else if KindOf(d.conv).UnknownKind? then Prepend([d.conv], Formatted(z, d.next, args))
      else if args == [] then None
      else match Rendered(d, args[0])
        case None => None
        case Some(s) => Prepend(s, Formatted(z, d.next, args[1..]))
  }

  /** The characters sent for a text: each line feed becomes CR LF. */
  function Crlf(s: seq<byte>): (r: seq<byte>) {
    if s == [] then [] else (if s[0] == LF then [CR, LF] else [s[0]]) + Crlf(s[1..])
  }

  lemma {:induction false} CrlfAppend(a: seq<byte>, b: seq<byte>)
    ensures Crlf(a + b) == Crlf(a) + Crlf(b)
  {
    if a == [] {
      assert a + b == b;
    } else {
      assert (a + b)[1..] == a[1..] + b;
      CrlfAppend(a[1..], b);
    }
  }

  /** A text without line feeds is sent as it is. */
  lemma {:induction false} CrlfIdentity(s: seq<byte>)
    requires LF !in s
    ensures Crlf(s) == s
  {
    if s != [] {
      var c, t := s[0], s[1..];
      assert s == [c] + t;
      CrlfIdentity(t);
      assert Crlf(s) == [c] + Crlf(t);
    }
  }

  /** A field is as wide as its width or its text, whichever is larger, exactly when it
      is left-justified or the width is not the largest uint32_t. */
  lemma FieldWidth(text: seq<byte>, width: u32, left: bool, fill: byte)
    requires |text| < TWO32
    ensures |Padded(text, width, left, fill)| == Max(width, |text|) <==> left || width != 0xFFFF_FFFF
  {}

  /** A printed negative number starts with a zero exactly if its field is zero-padded on the
      left and wider than the number; the sign then follows the zeros. */
  lemma ZerosBeforeSign(d: Directive, v: u32)
    requires UpperCase(d.conv) == 0x44 && IsNegative(v)
    ensures Rendered(d, Word(v)).Some? && Rendered(d, Word(v)).value != []
    ensures var s, n := Rendered(d, Word(v)).value, |NumberText(d.conv, v)|;
      && (s[0] == ZERO <==> d.zero && !d.left && n < d.width)
      && (s[0] == ZERO ==> s[d.width - n] == MINUS)
  {
    Wide(Wrap(0 - v));
    var text := NumberText(d.conv, v);
    assert text[0] == MINUS;
    hide NumberText;
  }

  lemma Wide(v: u32)
    ensures |Digits(v, 10)| <= 10
  {
    DigitCount(v, 10, 10);
    assert Power(10, 5) == 100_000;
    assert Power(10, 10) == 10_000_000_000;
  }
}
