/** The formatter and the parser are inverses: format strings mean what they are written
    to mean, and printed numbers are read back. */
module RoundTrip {
  import opened Bits
  import opened Text
  import opened Format
  import opened Scanner

  // ------------------------------------------------------------------ format strings

  /** One item of a format, as a programmer thinks of it. */
  datatype Item = Lit(c: byte) | Spec(zero: bool, left: bool, width: u32, long: bool, conv: byte)

  predicate Proper(it: Item) {
    match it
    case Lit(c) => c != NUL && c != PERCENT
    case Spec(zero, left, _, _, conv) => !(zero && left) && !KindOf(conv).UnknownKind?
  }

  function WidthChars(width: u32): seq<byte> {
    if width == 0 then [] else DigitChars(Digits(width, 10), false)
  }

  /** How an item is written in a format string. */
  function Write(it: Item): (s: seq<byte>)
    ensures |s| > 0
  {
    match it
    case Lit(c) => [c]
    case Spec(zero, left, width, long, conv) =>
      [PERCENT] + (if zero then [ZERO] else if left then [MINUS] else []) + WidthChars(width)
      + (if long then [0x6C] else []) + [conv]
  }

  function WriteAll(items: seq<Item>): seq<byte> {
    if items == [] then [] else Write(items[0]) + WriteAll(items[1..])
  }

  lemma DigitCharRange(d: nat, lower: bool)
    requires d < 16
    ensures d <= 9 ==> IsDigit(DigitChar(d, lower)) && DigitChar(d, lower) - ZERO == d
    ensures DigitOf(DigitChar(d, lower)) == d && DigitChar(d, lower) > SPACE
  {}

  /** A decimal numeral in a format is read as its value. */
  lemma {:induction false} ScanWidthOf(z: CStr, p: nat, ds: seq<nat>, w: u32)
    requires p + |ds| < |z| && !IsDigit(z[p + |ds|])
    requires forall i | 0 <= i < |ds| :: ds[i] <= 9
    requires z[p..p + |ds|] == DigitChars(ds, false)
    ensures ScanWidth(z, p, w) == (Value(ds, 10, w), p + |ds|)
    decreases |ds|
  {
    if ds != [] {
      assert z[p] == z[p..p + |ds|][0] == ZERO + ds[0];
      assert z[p + 1..p + |ds|] == z[p..p + |ds|][1..] == DigitChars(ds[1..], false);
      ScanWidthOf(z, p + 1, ds[1..], Wrap(w * 10 + ds[0]));
    }
  }

  /** The first digit of a positive number is not zero. */
  lemma {:induction false} LeadingDigit(v: nat, r: nat)
    requires r >= 2 && v > 0
    ensures Digits(v, r)[0] != 0
    decreases v
  {
    if v >= r {
      Quotient(v, r);
      PositiveQuotient(v, r);
      LeadingDigit(v / r, r);
    }
  }

  lemma PositiveQuotient(v: nat, r: nat)
    requires v >= r >= 2
    ensures v / r > 0
  {
    Euclid(v, r);
    assert r * 0 == 0;
  }

  lemma KnownIsLetter(conv: byte)
    requires !KindOf(conv).UnknownKind?
    ensures conv > NINE && conv != 0x6C && conv != 0x4C
  {}

  lemma Concat(f: seq<byte>, d: seq<byte>, l: seq<byte>, c: byte)
    ensures var w := [PERCENT] + f + d + l + [c];
            && |w| == |f| + |d| + |l| + 2 && w[0] == PERCENT && w[1..1 + |f|] == f
            && w[1 + |f|..1 + |f| + |d|] == d && w[|w| - 1] == c
            && (|f| == 1 ==> w[1] == f[0]) && (|l| == 1 ==> w[1 + |f| + |d|] == l[0])
  {}

  /** Where the parts of a written specification are. */
  lemma SpecParts(it: Item) returns (b: nat, e: nat)
    requires it.Spec? && Proper(it)
    ensures var w := Write(it);
            && 1 <= b <= e < |w| && w[0] == PERCENT && w[b..e] == WidthChars(it.width)
            && b == (if it.zero || it.left then 2 else 1)
            && (it.zero ==> w[1] == ZERO) && (it.left ==> w[1] == MINUS)
            && w[e] == (if it.long then 0x6C else it.conv)
            && |w| == (if it.long then e + 2 else e + 1) && w[|w| - 1] == it.conv
  {
    hide WidthChars, KindOf;
    b := if it.zero || it.left then 2 else 1;
    e := b + |WidthChars(it.width)|;
    var flag := if it.zero then [ZERO] else if it.left then [MINUS] else [];
    Concat(flag, WidthChars(it.width), if it.long then [0x6C] else [], it.conv);
  }

  /** A written width is read back. */
  lemma WidthOf(z: CStr, p: nat, width: u32)
    requires p + |WidthChars(width)| < |z| && z[p..p + |WidthChars(width)|] == WidthChars(width)
    requires z[p + |WidthChars(width)|] > NINE
    ensures ScanWidth(z, p, 0) == (width, p + |WidthChars(width)|)
    ensures z[p] != ZERO && z[p] != MINUS
  {
    if width != 0 {
      var ds := Digits(width, 10);
      LeadingDigit(width, 10);
      ValueOfDigits(width, 10);
      assert z[p] == z[p..p + |ds|][0] == ZERO + ds[0];
      ScanWidthOf(z, p, ds, 0);
    }
  }

  /** A written specification is read back field by field. */
  lemma DirectiveOf(z: CStr, p: nat, it: Item, w: seq<byte>)
    requires it.Spec? && Proper(it) && w == Write(it)
    requires p + |w| < |z| && z[p..p + |w|] == w
    ensures z[p] == PERCENT
    ensures ScanDirective(z, p + 1) == Directive(it.zero, it.left, it.width, it.conv, p + |w|)
  {
    hide Write, WidthChars, KindOf, Digits;
    var b, e := SpecParts(it);
    KnownIsLetter(it.conv);
    AtSlice(z, p, w, 0);
    AtSlice(z, p, w, 1);
    AtSlice(z, p, w, e);
    AtSlice(z, p, w, |w| - 1);
    SliceSlice(z, p, w, b, e);
    WidthOf(z, p + b, it.width);
  }

  lemma SliceSlice(z: seq<byte>, p: nat, w: seq<byte>, b: nat, e: nat)
    requires p + |w| <= |z| && z[p..p + |w|] == w && b <= e <= |w|
    ensures z[p + b..p + e] == w[b..e]
  {
    forall i | 0 <= i < e - b ensures z[p + b..p + e][i] == w[b..e][i] {
      AtSlice(z, p, w, b + i);
    }
  }

  lemma AtSlice(z: seq<byte>, p: nat, w: seq<byte>, i: nat)
    requires p + |w| <= |z| && z[p..p + |w|] == w && i < |w|
    ensures z[p + i] == w[i]
  {
    assert z[p..p + |w|][i] == z[p + i];
  }

  /** Splitting the front item off the rest of a format. */
  lemma SplitRest(z: CStr, p: nat, w: seq<byte>, rest: seq<byte>)
    requires p <= |z| && z[p..] == (w + rest) + [NUL] && |w| > 0
    ensures p + |w| < |z| && z[p..p + |w|] == w && z[p + |w|..] == rest + [NUL] && z[p] == w[0]
  {
    assert z[p..][..|w|] == w && z[p..][|w|..] == rest + [NUL];
  }

  /** What an item prints in front of what the rest prints; `none` if its argument is
      missing or wrong. */
  function ItemStep(it: Item, args: seq<Arg>): (text: Option<seq<byte>>) {
    match it
    case Lit(c) => Some([c])
    case Spec(zero, left, width, _, conv) =>
      if args == [] then None else Rendered(Directive(zero, left, width, conv, 0), args[0])
  }

  function ArgsAfter(it: Item, args: seq<Arg>): seq<Arg> {
    if it.Lit? || args == [] then args else args[1..]
  }

  /** One item, formatted. */
  lemma FormatItem(z: CStr, p: nat, it: Item, w: seq<byte>, args: seq<Arg>)
    requires Proper(it) && w == Write(it)
    requires p + |w| < |z| && z[p..p + |w|] == w
    ensures Formatted(z, p, args) ==
            match ItemStep(it, args)
            case None => None
            case Some(text) => Prepend(text, Formatted(z, p + |w|, ArgsAfter(it, args)))
  {
    hide ScanDirective, KindOf, Padded, NumberText;
    AtSlice(z, p, w, 0);
    if it.Spec? {
      DirectiveOf(z, p, it, w);
      KnownIsLetter(it.conv);
      hide Write;
      if args != [] {
        SameRendered(ScanDirective(z, p + 1), Directive(it.zero, it.left, it.width, it.conv, 0), args[0]);
        hide Rendered;
      }
    }
  }

  lemma SameRendered(d: Directive, e: Directive, a: Arg)
    requires e == d.(next := e.next)
    ensures Rendered(d, a) == Rendered(e, a)
  {
    hide KindOf, Padded, NumberText;
  }

  /** What a list of items prints. */
  function Meaning(items: seq<Item>, args: seq<Arg>): Option<seq<byte>>
    decreases |items|
  {
    if items == [] then Some([])
    else match ItemStep(items[0], args)
      case None => None
      case Some(text) => Prepend(text, Meaning(items[1..], ArgsAfter(items[0], args)))
  }

  /** The format from `p` on prints what the items mean. */
  ghost predicate Means(z: CStr, p: nat, items: seq<Item>, args: seq<Arg>)
    requires p < |z|
  {
    Formatted(z, p, args) == Meaning(items, args)
  }

  /** If the rest of a format means what it says, so does the whole. */
  lemma FormatFront(z: CStr, p: nat, items: seq<Item>, args: seq<Arg>, q: nat)
    requires items != [] && Proper(items[0]) && q == p + |Write(items[0])| < |z|
    requires z[p..q] == Write(items[0]) && Means(z, q, items[1..], ArgsAfter(items[0], args))
    ensures Means(z, p, items, args)
  {
    FormatItem(z, p, items[0], Write(items[0]), args);
  }

  lemma FormatEnd(z: CStr, p: nat, args: seq<Arg>)
    requires p < |z| && z[p..] == WriteAll([]) + [NUL]
    ensures Means(z, p, [], args)
  {
    assert z[p] == z[p..][0] == NUL;
  }

  /** Format strings mean what they say: the formatter prints a written list of items as
      the concatenation of what each item prints. */
  lemma {:induction false} FormatMeaning(z: CStr, p: nat, items: seq<Item>, args: seq<Arg>)
    requires p < |z| && forall k | 0 <= k < |items| :: Proper(items[k])
    requires z[p..] == WriteAll(items) + [NUL]
    ensures Means(z, p, items, args)
    decreases |items|
  {
    hide Means, Write;
    if items == [] {
      FormatEnd(z, p, args);
    } else {
      var w, rest := Write(items[0]), items[1..];
      SplitRest(z, p, w, WriteAll(rest));
      FormatMeaning(z, p + |w|, rest, ArgsAfter(items[0], args));
      FormatFront(z, p, items, args, p + |w|);
    }
  }

  // ------------------------------------------------------------------ what one item prints

  lemma OneItem(it: Item, a: Arg)
    requires it.Spec? && Proper(it)
    ensures CString(Write(it) + [NUL])
    ensures Formatted(Write(it) + [NUL], 0, [a]) ==
              Rendered(Directive(it.zero, it.left, it.width, it.conv, 0), a)
  {
    var z := Write(it) + [NUL];
    WriteHasNoNul(it);
    assert WriteAll([it]) == Write(it) by { assert WriteAll([it][1..]) == []; }
    assert z[0..] == WriteAll([it]) + [NUL];
    hide Write, WriteAll, Rendered, Formatted;
    FormatMeaning(z, 0, [it], [a]);
    var r := Rendered(Directive(it.zero, it.left, it.width, it.conv, 0), a);
    assert Meaning([it][1..], [a][1..]) == Some([]);
    if r.Some? { assert r.value + [] == r.value; }
  }

  lemma WriteHasNoNul(it: Item)
    requires it.Spec? && Proper(it)
    ensures forall i | 0 <= i < |Write(it)| :: Write(it)[i] != NUL
  {
    KnownIsLetter(it.conv);
    hide KindOf, Digits;
    var w := WidthChars(it.width);
    assert forall i | 0 <= i < |w| :: w[i] != NUL;
    hide WidthChars;
    var flag := if it.zero then [ZERO] else if it.left then [MINUS] else [];
    assert Write(it) == [PERCENT] + flag + w + (if it.long then [0x6C] else []) + [it.conv];
  }

  lemma PlainField(text: seq<byte>, width: u32, left: bool, fill: byte)
    requires width < 0xFFFF_FFFF
    ensures var pad := if |text| < width then width - |text| else 0;
      Padded(text, width, left, fill) == if left then text + Repeat(SPACE, pad) else Repeat(fill, pad) + text
  {
    var pad := if |text| < width then width - |text| else 0;
    assert Repeat(fill, pad) + text + [] == Repeat(fill, pad) + text;
  }

  /** A string in its field: spaces before it, or after it if it is left-justified. */
  lemma StringItem(left: bool, width: u32, str: CStr, z: CStr)
    requires width < 0xFFFF_FFFF && z == Write(Spec(false, left, width, false, 0x73)) + [NUL]
    ensures var t := str[..|str| - 1];
      var pad := Repeat(0x20, if |t| < width then width - |t| else 0);
      Formatted(z, 0, [Str(str)]) == Some(if left then t + pad else pad + t)
  {
    PlainField(str[..|str| - 1], width, left, 0x20);
    hide Write, Formatted, Padded;
    OneItem(Spec(false, left, width, false, 0x73), Str(str));
  }

  /** A character is the low byte of its argument, whatever the width. */
  lemma CharItem(left: bool, width: u32, v: u32, z: CStr)
    requires z == Write(Spec(false, left, width, false, 0x63)) + [NUL]
    ensures Formatted(z, 0, [Word(v)]) == Some([v % 0x100])
  {
    hide Write, Formatted;
    OneItem(Spec(false, left, width, false, 0x63), Word(v));
  }

  /** An unsigned number in its field: decimal digits, and a sign never. */
  lemma UnsignedItem(zero: bool, left: bool, width: u32, v: u32, z: CStr)
    requires width < 0xFFFF_FFFF && !(zero && left) && z == Write(Spec(zero, left, width, false, 0x75)) + [NUL]
    ensures var t := DigitChars(Digits(v, 10), false);
      var pad := Repeat(if zero then 0x30 else 0x20, if |t| < width then width - |t| else 0);
      Formatted(z, 0, [Word(v)]) == Some(if left then t + pad else pad + t)
  {
    hide Write, Formatted, Digits, DigitChars, Padded, NumberText, Rendered, Repeat;
    var t, fill := DigitChars(Digits(v, 10), false), if zero then 0x30 else 0x20;
    assert Proper(Spec(zero, left, width, false, 0x75));
    hide KindOf;
    OneItem(Spec(zero, left, width, false, 0x75), Word(v));
    UnsignedRendered(Directive(zero, left, width, 0x75, 0), v);
    UnsignedText(v);
    PlainField(t, width, left, fill);
    assert left ==> fill == SPACE;
  }

  lemma UnsignedRendered(d: Directive, v: u32)
    requires d.conv == 0x75
    ensures Rendered(d, Word(v)) == Some(Padded(NumberText(0x75, v), d.width, d.left, if d.zero then 0x30 else 0x20))
  {
    hide Padded, NumberText;
  }

  lemma UnsignedText(v: u32)
    ensures NumberText(0x75, v) == DigitChars(Digits(v, 10), false)
  {
    Wide(v);
    hide Digits;
    assert Last(Digits(v, 10), 16) == Digits(v, 10);
  }

  predicate ConversionLetter(c: byte) {
    || c == 0x73 || c == 0x53 || c == 0x63 || c == 0x43 || c == 0x62 || c == 0x42 || c == 0x6F || c == 0x4F
    || c == 0x64 || c == 0x44 || c == 0x75 || c == 0x55 || c == 0x78 || c == 0x58
  }

  /** A character that is no flag, digit or size prefix is passed through, without taking an
      argument, exactly if it is none of s, c, b, o, d, u, x in either case. */
  lemma PassedThroughIff(c: byte, z: CStr)
    requires c != NUL && c != 0x2D && !(0x30 <= c <= 0x39) && c != 0x6C && c != 0x4C && z == [0x25, c, NUL]
    ensures Formatted(z, 0, []) == Some([c]) <==> !ConversionLetter(c)
  {
    assert ScanDirective(z, 1) == Directive(false, false, 0, c, 2);
    assert Formatted(z, 2, []) == Some([]);
    assert [c] + [] == [c];
  }

  // ------------------------------------------------------------------ numbers

  /** A numeral followed by a character that is not printable is scanned as its value. */
  lemma {:induction false} ScanDigitsOf(s: CStr, p: nat, ds: seq<nat>, r: nat, lower: bool, val: u32)
    requires r <= 16 && forall i | 0 <= i < |ds| :: ds[i] < r
    requires p + |ds| < |s| && s[p..p + |ds|] == DigitChars(ds, lower) && s[p + |ds|] <= SPACE
    ensures ScanDigits(s, p, r, val) == Scan(true, Value(ds, r, val), p + |ds|)
    decreases |ds|
  {
    if ds != [] {
      DigitCharRange(ds[0], lower);
      assert s[p] == s[p..p + |ds|][0] == DigitChar(ds[0], lower);
      assert s[p + 1..p + |ds|] == s[p..p + |ds|][1..] == DigitChars(ds[1..], lower);
      ScanDigitsOf(s, p + 1, ds[1..], r, lower, Wrap(val * r + ds[0]));
    }
  }

  lemma {:induction false} SkipSpacesOf(s: CStr, p: nat, k: nat)
    requires p + k < |s| && s[p..p + k] == Repeat(SPACE, k) && s[p + k] != SPACE
    ensures SkipSpaces(s, p) == p + k
    decreases k
  {
    if k > 0 {
      assert s[p] == s[p..p + k][0];
      assert s[p + 1..p + k] == s[p..p + k][1..] == Repeat(SPACE, k - 1);
      SkipSpacesOf(s, p + 1, k - 1);
    }
  }

  /** The decimal numeral of `m` at `p` is scanned as `m`. */
  lemma ScanDecimal(s: CStr, p: nat, m: u32)
    requires p + |Digits(m, 10)| < |s| && s[p + |Digits(m, 10)|] <= SPACE
    requires s[p..p + |Digits(m, 10)|] == DigitChars(Digits(m, 10), false)
    ensures ScanUnsigned(s, p) == Scan(true, m, p + |Digits(m, 10)|)
    ensures ZERO <= s[p] <= NINE
  {
    var ds := Digits(m, 10);
    assert s[p] == s[p..p + |ds|][0] == ZERO + ds[0];
    if m > 0 {
      LeadingDigit(m, 10);
      ValueOfDigits(m, 10);
      ScanDigitsOf(s, p, ds, 10, false, 0);
    }
  }

  /** The text %d prints for `v`. */
  function Decimal(v: u32): seq<byte> {
    NumberText(0x64, v)
  }

  lemma DecimalText(v: u32)
    ensures |Decimal(v)| <= 11 && Decimal(v) != []
    ensures Decimal(v) == if IsNegative(v) then [MINUS] + DigitChars(Digits(Wrap(0 - v), 10), false)
                          else DigitChars(Digits(v, 10), false)
    ensures forall i | 0 <= i < |Decimal(v)| :: Decimal(v)[i] > SPACE
  {
    hide Digits;
    var w := if IsNegative(v) then Wrap(0 - v) else v;
    var ds := Digits(w, 10);
    Wide(w);
    assert Last(ds, 16) == ds;
    assert KindOf(0x64).radix == 10 && UpperCase(0x64) == 0x44;
    hide KindOf, UpperCase, IsNegative, Wrap;
    assert forall i | 0 <= i < |ds| :: ds[i] < 10;
  }

  /** Spaces, then the text of `v`, then anything not printable: one call reads `v` and
      stops right after it. */
  lemma AtoiDecimal(s: CStr, p: nat, k: nat, v: u32)
    requires p + k + |Decimal(v)| < |s| && s[p..p + k] == Repeat(SPACE, k)
    requires s[p + k..p + k + |Decimal(v)|] == Decimal(v) && s[p + k + |Decimal(v)|] <= SPACE
    ensures Atoi(s, p) == Scan(true, v, p + k + |Decimal(v)|)
  {
    DecimalText(v);
    hide NumberText, Decimal, ScanUnsigned, Digits;
    var q, e := p + k, p + k + |Decimal(v)|;
    assert s[q] == s[q..e][0] == Decimal(v)[0];
    SkipSpacesOf(s, p, k);
    if IsNegative(v) {
      var ds := Digits(Wrap(0 - v), 10);
      assert s[q + 1..e] == s[q..e][1..] == DigitChars(ds, false);
      ScanDecimal(s, q + 1, Wrap(0 - v));
    } else {
      ScanDecimal(s, q, v);
    }
  }

  // ------------------------------------------------------------------ lists of numbers

  /** `%d`, `%<width>d` or `%-<width>d`. */
  datatype Style = Style(left: bool, width: u32)

  function SpecOf(st: Style): Item {
    Spec(false, st.left, st.width, false, 0x64)
  }

  /** The format that prints one number per style, with spaces between. */
  function ListItems(styles: seq<Style>): (items: seq<Item>)
    ensures forall k | 0 <= k < |items| :: Proper(items[k])
  {
    if styles == [] then []
    else if |styles| == 1 then [SpecOf(styles[0])]
    else [SpecOf(styles[0]), Lit(SPACE)] + ListItems(styles[1..])
  }

  function Words(vals: seq<u32>): (args: seq<Arg>)
    ensures |args| == |vals|
  {
    seq(|vals|, i requires 0 <= i < |vals| => Word(vals[i]))
  }

  function FieldOf(st: Style, v: u32): seq<byte> {
    Padded(Decimal(v), st.width, st.left, SPACE)
  }

  function Joined(styles: seq<Style>, vals: seq<u32>): seq<byte>
    requires |styles| == |vals|
  {
    if styles == [] then []
    else FieldOf(styles[0], vals[0])
         + (if |styles| == 1 then [] else [SPACE] + Joined(styles[1..], vals[1..]))
  }

  lemma {:induction false} MeaningOfList(styles: seq<Style>, vals: seq<u32>)
    requires |styles| == |vals|
    ensures Meaning(ListItems(styles), Words(vals)) == Some(Joined(styles, vals))
  {
    if styles != [] {
      var items, args := ListItems(styles), Words(vals);
      var it := SpecOf(styles[0]);
      assert items[0] == it && args[0] == Word(vals[0]) && args[1..] == Words(vals[1..]);
      assert ItemStep(it, args) == Some(FieldOf(styles[0], vals[0])) by { hide Padded, NumberText; }
      hide Padded, NumberText, ItemStep, FieldOf;
      if |styles| == 1 {
        assert items[1..] == [];
        assert ArgsAfter(it, args) == args[1..];
      } else {
        var rest := ListItems(styles[1..]);
        assert items[1..] == [Lit(SPACE)] + rest && items[1..][1..] == rest;
        LitStep(SPACE, rest, args[1..]);
        MeaningOfList(styles[1..], vals[1..]);
      }
    }
  }

  lemma LitStep(c: byte, items: seq<Item>, args: seq<Arg>)
    ensures Meaning([Lit(c)] + items, args) == Prepend([c], Meaning(items, args))
  {
    assert ([Lit(c)] + items)[1..] == items;
  }

  /** Whatever its width, a field is its text between spaces. */
  lemma FieldShape(st: Style, v: u32) returns (k: nat, m: nat)
    ensures FieldOf(st, v) == Repeat(SPACE, k) + Decimal(v) + Repeat(SPACE, m)
  {
    var pad := if |Decimal(v)| < st.width then st.width - |Decimal(v)| else 0;
    k, m := if st.left then 0 else pad, if st.left then pad else if st.width == 0xFFFF_FFFF then st.width else 0;
  }

  lemma Cut(s: seq<byte>, p: nat, a: seq<byte>, b: seq<byte>)
    requires p <= |s| && s[p..] == a + b
    ensures p + |a| + |b| == |s| && s[p..p + |a|] == a && s[p + |a|..] == b
  {
    assert s[p..][..|a|] == a && s[p..][|a|..] == b;
  }

  lemma CutTwice(s: seq<byte>, p: nat, a: seq<byte>, b: seq<byte>, c: seq<byte>)
    requires p <= |s| && s[p..] == a + (b + c) && c != []
    ensures p + |a| + |b| < |s| && s[p..p + |a|] == a && s[p + |a|..p + |a| + |b|] == b
    ensures s[p + |a| + |b|..] == c && s[p + |a| + |b|] == c[0]
  {
    Cut(s, p, a, b + c);
    Cut(s, p + |a|, b, c);
  }

  lemma JoinSpaces(j: nat, k: nat, t: seq<byte>)
    ensures Repeat(SPACE, j) + (Repeat(SPACE, k) + t) == Repeat(SPACE, j + k) + t
  {}

  /** What a run of calls returns when it reads a list: every number in order, then failure. */
  ghost predicate ReadsList(ds: seq<Scan>, vals: seq<u32>) {
    && |ds| == |vals| + 1
    && (forall i | 0 <= i < |vals| :: ds[i].ok && ds[i].res == vals[i])
    && !ds[|vals|].ok && ds[|vals|].res == 0
  }

  /** What follows the first field of a list. */
  function Rest(styles: seq<Style>, vals: seq<u32>): seq<byte>
    requires |styles| == |vals| > 0
  {
    if |styles| == 1 then [] else [SPACE] + Joined(styles[1..], vals[1..])
  }

  lemma Regroup(k: seq<byte>, d: seq<byte>, m: seq<byte>, t: seq<byte>, n: seq<byte>)
    ensures ((k + d + m) + t) + n == k + (d + (m + (t + n)))
  {}

  /** A list with its first number taken out. */
  lemma ListShape(styles: seq<Style>, vals: seq<u32>) returns (k: nat, m: nat)
    requires |styles| == |vals| > 0
    ensures Joined(styles, vals) + [NUL]
            == Repeat(SPACE, k) + (Decimal(vals[0]) + (Repeat(SPACE, m) + (Joined(styles[1..], vals[1..]) + [NUL])))
    ensures m == 0 ==> |styles| == 1
  {
    var d, tail := Decimal(vals[0]), Rest(styles, vals);
    var k0, m0 := FieldShape(styles[0], vals[0]);
    hide FieldOf, Decimal;
    Regroup(Repeat(SPACE, k0), d, Repeat(SPACE, m0), tail, [NUL]);
    k := k0;
    if |styles| == 1 {
      m := m0;
      assert Joined(styles[1..], vals[1..]) == [];
    } else {
      m := m0 + 1;
      var rest := Joined(styles[1..], vals[1..]);
      hide Joined;
      assert tail + [NUL] == Repeat(SPACE, 1) + (rest + [NUL]);
      JoinSpaces(m0, 1, rest + [NUL]);
    }
  }

  /** The string from `p` on, taken apart at the first number. */
  lemma ListFront(s: CStr, p: nat, j: nat, styles: seq<Style>, vals: seq<u32>)
      returns (a: nat, e: nat, m: nat)
    requires |styles| == |vals| > 0 && p <= |s|
    requires s[p..] == Repeat(SPACE, j) + (Joined(styles, vals) + [NUL])
    ensures e == p + a + |Decimal(vals[0])| < |s|
    ensures s[p..p + a] == Repeat(SPACE, a) && s[p + a..e] == Decimal(vals[0]) && s[e] <= SPACE
    ensures s[e..] == Repeat(SPACE, m) + (Joined(styles[1..], vals[1..]) + [NUL])
  {
    hide Joined, Decimal, Repeat;
    var k;
    k, m := ListShape(styles, vals);
    var d, rest := Decimal(vals[0]), Joined(styles[1..], vals[1..]) + [NUL];
    if m == 0 { NothingJoined(styles[1..], vals[1..]); }
    var after := Repeat(SPACE, m) + rest;
    JoinSpaces(j, k, d + after);
    a := j + k;
    e := p + a + |d|;
    FirstAfter(m, rest);
    CutTwice(s, p, Repeat(SPACE, a), d, after);
  }

  lemma NothingJoined(styles: seq<Style>, vals: seq<u32>)
    requires |styles| == |vals| == 0
    ensures Joined(styles, vals) == []
  {}

  lemma FirstAfter(m: nat, rest: seq<byte>)
    requires rest != [] && (m == 0 ==> rest[0] <= SPACE)
    ensures (Repeat(SPACE, m) + rest)[0] <= SPACE && |Repeat(SPACE, m)| == m
  {}

  /** Repeated calls read a printed list back, number by number. */
  lemma {:induction false} CallsOnList(s: CStr, p: nat, j: nat, styles: seq<Style>, vals: seq<u32>)
    requires |styles| == |vals|
    requires p < |s| && s[p..] == Repeat(SPACE, j) + (Joined(styles, vals) + [NUL])
    ensures ReadsList(Calls(s, p, |vals| + 1), vals)
    decreases |vals|
  {
    hide Decimal, Atoi, Joined;
    if vals == [] {
      CallsAtEnd(s, p, j, styles, vals);
    } else {
      var a, e, m := ListFront(s, p, j, styles, vals);
      assert Atoi(s, p) == Scan(true, vals[0], e) by { AtoiDecimal(s, p, a, vals[0]); }
      CallsOnList(s, e, m, styles[1..], vals[1..]);
      assert ReadsList(Calls(s, p, |vals| + 1), vals) by {
        ReadsMore(Scan(true, vals[0], e), Calls(s, e, |vals|), vals);
      }
    }
  }

  lemma CallsAtEnd(s: CStr, p: nat, j: nat, styles: seq<Style>, vals: seq<u32>)
    requires |styles| == |vals| == 0 && p < |s|
    requires s[p..] == Repeat(SPACE, j) + (Joined(styles, vals) + [NUL])
    ensures ReadsList(Calls(s, p, |vals| + 1), vals)
  {
    Cut(s, p, Repeat(SPACE, j), Joined(styles, vals) + [NUL]);
    assert s[p + j] == s[p + j..][0];
    SkipSpacesOf(s, p, j);
    assert Calls(s, Atoi(s, p).next, 0) == [];
    assert Calls(s, p, 1) == [Atoi(s, p)];
  }

  lemma ReadsMore(d: Scan, ds: seq<Scan>, vals: seq<u32>)
    requires vals != [] && d.ok && d.res == vals[0] && ReadsList(ds, vals[1..])
    ensures ReadsList([d] + ds, vals)
  {}

  // ------------------------------------------------------------------ no control characters

  ghost predicate Printable(s: seq<byte>) {
    forall i | 0 <= i < |s| :: s[i] >= SPACE
  }

  lemma {:induction false} JoinedPrintable(styles: seq<Style>, vals: seq<u32>)
    requires |styles| == |vals|
    ensures Printable(Joined(styles, vals))
  {
    if styles != [] {
      FieldPrintable(styles[0], vals[0]);
      hide Printable, FieldOf;
      var f := FieldOf(styles[0], vals[0]);
      if |styles| == 1 {
        assert Joined(styles, vals) == f;
      } else {
        var rest := Joined(styles[1..], vals[1..]);
        JoinedPrintable(styles[1..], vals[1..]);
        SpaceBetween(f, rest);
        assert Joined(styles, vals) == f + ([SPACE] + rest);
      }
    } else {
      assert Printable([]);
    }
  }

  lemma FieldPrintable(st: Style, v: u32)
    ensures Printable(FieldOf(st, v))
  {
    DecimalText(v);
    hide Decimal;
  }

  lemma SpaceBetween(a: seq<byte>, b: seq<byte>)
    requires Printable(a) && Printable(b)
    ensures Printable(a + ([SPACE] + b))
  {}

  lemma {:induction false} WrittenPrintable(items: seq<Item>)
    requires forall k | 0 <= k < |items| :: Proper(items[k]) && (items[k].Lit? ==> items[k].c >= SPACE)
    ensures Printable(WriteAll(items))
  {
    if items != [] {
      if items[0].Spec? { KnownIsLetter(items[0].conv); }
      WrittenPrintable(items[1..]);
      assert Printable(Write(items[0]));
    }
  }

  /** A printable text, sent and terminated, is a C string. */
  lemma Terminated(s: seq<byte>)
    requires Printable(s)
    ensures Crlf(s) == s && CString(s + [NUL])
  {
    CrlfIdentity(s);
  }

  lemma {:induction false} ListItemsPrintable(styles: seq<Style>)
    ensures forall k | 0 <= k < |ListItems(styles)| :: ListItems(styles)[k].Lit? ==> ListItems(styles)[k].c >= SPACE
  {
    if |styles| > 1 { ListItemsPrintable(styles[1..]); }
  }

  /** Printer and parser are inverses on lists: any int32_t values (as bit patterns), each
      printed with %d, %<w>d or %-<w>d of any width and separated by spaces, are read back in order by
      repeated calls, and the call after the last fails and stores 0. */
  lemma ListRoundTrip(styles: seq<Style>, vals: seq<u32>) returns (z: CStr, out: CStr)
    requires |styles| == |vals|
    ensures z == WriteAll(ListItems(styles)) + [NUL]
    ensures Formatted(z, 0, Words(vals)).Some?
    ensures out == Crlf(Formatted(z, 0, Words(vals)).value) + [NUL]
    ensures ReadsList(Calls(out, 0, |vals| + 1), vals)
  {
    ListItemsPrintable(styles);
    WrittenPrintable(ListItems(styles));
    Terminated(WriteAll(ListItems(styles)));
    z := WriteAll(ListItems(styles)) + [NUL];
    assert z[0..] == z;
    FormatMeaning(z, 0, ListItems(styles), Words(vals));
    MeaningOfList(styles, vals);
    JoinedPrintable(styles, vals);
    Terminated(Joined(styles, vals));
    out := Joined(styles, vals) + [NUL];
    assert out[0..] == Repeat(SPACE, 0) + out;
    CallsOnList(out, 0, 0, styles, vals);
  }
}
