/** The number parser of library/console/xprintf/xprintf.c, which advances a pointer into
    a string. */
module Scanner {
  import opened Bits
  import opened Text

  /** One call of xatoi: what it returns, stores in *res, and leaves in *str. */
  datatype Scan = Scan(ok: bool, res: u32, next: nat)

  function SkipSpaces(s: CStr, p: nat): (q: nat)
    requires p < |s|
    ensures p <= q < |s| && s[q] != SPACE
    decreases |s| - p
  {
    if s[p] == SPACE then SkipSpaces(s, p + 1) else p
  }

  /** The digit value of a character, in uint8_t arithmetic. */
  function DigitOf(c: byte): byte {
    var upper := if c >= 0x61 then c - 0x20 else c;
    var d := (upper - 0x30) % 0x100;
    if d >= 17 then d - 7 else d
  }

  function ScanDigits(s: CStr, p: nat, r: nat, val: u32): (d: Scan)
    requires p < |s|
    ensures p <= d.next < |s| && (!d.ok ==> d.res == 0)
    decreases |s| - p
  {
    if s[p] <= SPACE then Scan(true, val, p)
    else if DigitOf(s[p]) >= r then Scan(false, 0, p)
    else ScanDigits(s, p + 1, r, Wrap(val * r + DigitOf(s[p])))
  }

  /** The unsigned number at `p`: a prefix selects the radix, and a lone zero is itself. */
  function ScanUnsigned(s: CStr, p: nat): (d: Scan)
    requires p < |s|
    ensures p <= d.next < |s|
  {
    if s[p] == ZERO then
      if s[p + 1] == 0x78 then ScanDigits(s, p + 2, 16, 0)       // 0x
      else if s[p + 1] == 0x62 then ScanDigits(s, p + 2, 2, 0)   // 0b
      else if s[p + 1] <= SPACE then Scan(true, 0, p + 1)
      else if ZERO <= s[p + 1] <= NINE then ScanDigits(s, p + 1, 8, 0)
      else Scan(false, 0, p + 1)
    else if ZERO <= s[p] <= NINE then ScanDigits(s, p, 10, 0)
    else Scan(false, 0, p)
  }

  function Atoi(s: CStr, p: nat): (d: Scan)
    requires p < |s|
    ensures p <= d.next < |s|
  {
    var q := SkipSpaces(s, p);
    if s[q] == MINUS then
      var d := ScanUnsigned(s, q + 1);
      d.(res := if d.ok then Wrap(0 - d.res) else 0)
    else ScanUnsigned(s, q)
  }

  /** xatoi, from *str == `start`. */
  method XAtoi(s: CStr, start: nat) returns (ret: bool, res: u32, str: nat)
    requires start < |s|
    ensures Atoi(s, start) == Scan(ret, res, str)
  {
    res, str := 0, start;
    var negative := false;
    var c := s[str];
    while c == SPACE
      invariant start <= str < |s| && c == s[str]
      invariant SkipSpaces(s, str) == SkipSpaces(s, start)
      decreases |s| - str
    {
      str := str + 1;
      c := s[str];
    }
    if c == MINUS {
      negative := true;
      str := str + 1;
      c := s[str];
    }
    var r := 10;
    if c == ZERO {
      str := str + 1;
      c := s[str];
      if c == 0x78 {
        r := 16;
        str := str + 1;
        c := s[str];
      } else if c == 0x62 {
        r := 2;
        str := str + 1;
        c := s[str];
      } else {
        if c <= SPACE { return true, 0, str; }
        if c < ZERO || c > NINE { return false, 0, str; }
        r := 8;
      }
    } else if c < ZERO || c > NINE {
      return false, 0, str;
    }
    ret, res, str := XDigits(s, str, r);
    if ret && negative { res := Wrap(0 - res); }
  }

  /** The digit loop of xatoi, up to the first character that is not printable. */
  method XDigits(s: CStr, start: nat, r: nat) returns (ret: bool, val: u32, str: nat)
    requires start < |s| && r <= 16
    ensures ScanDigits(s, start, r, 0) == Scan(ret, val, str)
  {
    val, str := 0, start;
    var c := s[str];
    while c > SPACE
      invariant start <= str < |s| && c == s[str]
      invariant ScanDigits(s, str, r, val) == ScanDigits(s, start, r, 0)
      decreases |s| - str
    {
      if c >= 0x61 { c := c - 0x20; }
      c := (c - ZERO) % 0x100;
      if c >= 17 { c := c - 7; }
      assert c == DigitOf(s[str]);
      if c >= r { return false, 0, str; }
      val := Wrap(val * r + c);
      str := str + 1;
      c := s[str];
    }
    return true, val, str;
  }

  /** `n` calls in a row, each starting where the last one stopped. */
  function Calls(s: CStr, p: nat, n: nat): (ds: seq<Scan>)
    requires p < |s|
    ensures |ds| == n
    decreases n
  {
    if n == 0 then [] else [Atoi(s, p)] + Calls(s, Atoi(s, p).next, n - 1)
  }

  // ------------------------------------------------------------------ which strings are numbers

  predicate ProperDigit(c: byte, r: nat) {
    if r == 16 then ZERO <= c <= NINE || 0x41 <= c <= 0x46 || 0x61 <= c <= 0x66 else ZERO <= c < ZERO + r
  }

  /** The six characters between '9' and 'A' whose values the digit arithmetic leaves below 16. */
  predicate Punctuation(c: byte) {
    0x3A <= c <= 0x3F
  }

  /** What the digit loop accepts: the digits of the radix and, in hexadecimal, punctuation. */
  lemma AcceptedIff(c: byte, r: nat)
    requires c > SPACE && IsRadix(r)
    ensures DigitOf(c) < r <==> ProperDigit(c, r) || (r == 16 && Punctuation(c))
  {}

  /** The end of the printable characters from `p` on. */
  function TokenEnd(s: CStr, p: nat): (e: nat)
    requires p < |s|
    ensures p <= e < |s| && s[e] <= SPACE && forall i | p <= i < e :: s[i] > SPACE
    decreases |s| - p
  {
    if s[p] <= SPACE then p else TokenEnd(s, p + 1)
  }

  ghost predicate AllDigits(t: seq<byte>, r: nat, lenient: bool) {
    forall i | 0 <= i < |t| :: ProperDigit(t[i], r) || (lenient && r == 16 && Punctuation(t[i]))
  }

  /** The digit loop succeeds exactly if it accepts every character up to the first one that
      is not printable, where it then stops. */
  lemma {:induction false} ScanDigitsOkIff(s: CStr, p: nat, r: nat, val: u32)
    requires p < |s| && IsRadix(r)
    ensures ScanDigits(s, p, r, val).ok <==> AllDigits(s[p..TokenEnd(s, p)], r, true)
    ensures ScanDigits(s, p, r, val).ok ==> ScanDigits(s, p, r, val).next == TokenEnd(s, p)
    decreases |s| - p
  {
    if s[p] > SPACE {
      AcceptedIff(s[p], r);
      var t := s[p..TokenEnd(s, p)];
      assert t[0] == s[p] && t[1..] == s[p + 1..TokenEnd(s, p + 1)];
      hide ProperDigit, Punctuation, DigitOf;
      if DigitOf(s[p]) < r {
        ScanDigitsOkIff(s, p + 1, r, Wrap(val * r + DigitOf(s[p])));
        DigitsCons(t, r, true);
      }
    }
  }

  lemma DigitsCons(t: seq<byte>, r: nat, lenient: bool)
    requires t != []
    ensures AllDigits(t, r, lenient) <==>
              AllDigits(t[1..], r, lenient) && (ProperDigit(t[0], r) || (lenient && r == 16 && Punctuation(t[0])))
  {
    hide ProperDigit, Punctuation;
    if AllDigits(t[1..], r, lenient) && (ProperDigit(t[0], r) || (lenient && r == 16 && Punctuation(t[0]))) {
      forall i | 0 <= i < |t|
        ensures ProperDigit(t[i], r) || (lenient && r == 16 && Punctuation(t[i]))
      {
        if i > 0 { assert t[i] == t[1..][i - 1]; }
      }
    }
  }

  /** An unsigned number: 0, or digits after "0x", "0b", "0" or none. The strict reading asks
      for a digit after a prefix, the lenient one also lets punctuation pass in hexadecimal. */
  ghost predicate Numeral(t: seq<byte>, lenient: bool) {
    || t == [ZERO]
    || (|t| >= 2 && t[0] == ZERO && t[1] == 0x78 && (lenient || |t| > 2) && AllDigits(t[2..], 16, lenient))
    || (|t| >= 2 && t[0] == ZERO && t[1] == 0x62 && (lenient || |t| > 2) && AllDigits(t[2..], 2, lenient))
    || (|t| >= 2 && t[0] == ZERO && AllDigits(t[1..], 8, lenient))
    || (|t| >= 1 && ZERO < t[0] <= NINE && AllDigits(t, 10, lenient))
  }

  /** The printable characters after spaces and a sign. */
  function Unsigned(s: CStr, p: nat): (t: seq<byte>)
    requires p < |s|
  {
    var q := SkipSpaces(s, p);
    var u := if s[q] == MINUS then q + 1 else q;
    s[u..TokenEnd(s, u)]
  }

  lemma UnsignedOkIff(s: CStr, u: nat)
    requires u < |s|
    ensures ScanUnsigned(s, u).ok <==> Numeral(s[u..TokenEnd(s, u)], true)
  {
    var e := TokenEnd(s, u);
    var t := s[u..e];
    if s[u] == ZERO {
      assert TokenEnd(s, u + 1) == e;
      if s[u + 1] > SPACE {
        assert TokenEnd(s, u + 2) == e && t[2..] == s[u + 2..e] && t[1..] == s[u + 1..e] && t[1] == s[u + 1];
        ScanDigitsOkIff(s, u + 2, 16, 0);
        ScanDigitsOkIff(s, u + 2, 2, 0);
        ScanDigitsOkIff(s, u + 1, 8, 0);
        OctalStart(t[1..]);
        hide ScanDigits, AllDigits;
      } else {
        assert t == [ZERO];
      }
    } else {
      ScanDigitsOkIff(s, u, 10, 0);
      hide ScanDigits, AllDigits;
    }
  }

  lemma OctalStart(t: seq<byte>)
    requires t != []
    ensures AllDigits(t, 8, true) ==> ZERO <= t[0] < NINE
  {}

  /** xatoi succeeds exactly on spaces, an optional sign, and a number read leniently. */
  lemma AtoiOkIff(s: CStr, p: nat)
    requires p < |s|
    ensures Atoi(s, p).ok <==> Numeral(Unsigned(s, p), true)
  {
    hide ScanUnsigned, Numeral;
    var q := SkipSpaces(s, p);
    UnsignedOkIff(s, if s[q] == MINUS then q + 1 else q);
  }

  /** What it takes for a number though it is none: exactly a prefix without digits, and
      hexadecimal digits with punctuation among them. */
  lemma MisreadIff(s: CStr, p: nat)
    requires p < |s|
    ensures var t := Unsigned(s, p);
      Atoi(s, p).ok && !Numeral(t, false) <==>
        (t == [ZERO, 0x78] || t == [ZERO, 0x62]
         || (|t| > 2 && t[0] == ZERO && t[1] == 0x78 && AllDigits(t[2..], 16, true)
             && exists i | 2 <= i < |t| :: Punctuation(t[i])))
  {
    AtoiOkIff(s, p);
    hide Unsigned, Atoi;
    StrictIff(Unsigned(s, p));
  }

  lemma StrictIff(t: seq<byte>)
    ensures Numeral(t, true) && !Numeral(t, false) <==>
              (t == [ZERO, 0x78] || t == [ZERO, 0x62]
               || (|t| > 2 && t[0] == ZERO && t[1] == 0x78 && AllDigits(t[2..], 16, true)
                   && exists i | 2 <= i < |t| :: Punctuation(t[i])))
  {
    SameDigits(t, 10);
    if |t| >= 1 { SameDigits(t[1..], 8); }
    if |t| >= 2 {
      SameDigits(t[2..], 2);
      PunctuationAmong(t[2..]);
      if t[1] == 0x78 || t[1] == 0x62 { assert t[1..][0] == t[1]; NotOctal(t[1..]); }
      assert (exists i | 2 <= i < |t| :: Punctuation(t[i])) <==> (exists i | 0 <= i < |t[2..]| :: Punctuation(t[2..][i])) by {
        ShiftedPunctuation(t);
      }
    }
    hide AllDigits, Punctuation;
  }

  lemma SameDigits(t: seq<byte>, r: nat)
    requires r != 16
    ensures AllDigits(t, r, true) <==> AllDigits(t, r, false)
  {}

  lemma NotOctal(t: seq<byte>)
    requires t != [] && (t[0] == 0x78 || t[0] == 0x62)
    ensures !AllDigits(t, 8, true) && !AllDigits(t, 8, false)
  {
    assert !ProperDigit(t[0], 8);
  }

  lemma PunctuationAmong(t: seq<byte>)
    ensures AllDigits(t, 16, true) && !AllDigits(t, 16, false) <==>
              AllDigits(t, 16, true) && exists i | 0 <= i < |t| :: Punctuation(t[i])
  {}

  lemma ShiftedPunctuation(t: seq<byte>)
    requires |t| >= 2
    ensures (exists i | 2 <= i < |t| :: Punctuation(t[i])) <==> (exists i | 0 <= i < |t[2..]| :: Punctuation(t[2..][i]))
  {
    hide Punctuation;
    if i :| 2 <= i < |t| && Punctuation(t[i]) {
      assert Punctuation(t[2..][i - 2]);
    }
  }

  /** A prefix without digits is read as 0. */
  lemma EmptyPrefix(s: CStr, p: nat)
    requires p < |s| && (Unsigned(s, p) == [ZERO, 0x78] || Unsigned(s, p) == [ZERO, 0x62])
    ensures Atoi(s, p).ok && Atoi(s, p).res == 0
  {
    var q := SkipSpaces(s, p);
    var u := if s[q] == MINUS then q + 1 else q;
    var t := s[u..TokenEnd(s, u)];
    assert s[u] == t[0] && s[u + 1] == t[1] && TokenEnd(s, u) == u + 2;
    hide SkipSpaces, TokenEnd;
  }
}
