/** C strings as byte sequences, and the numerals that the console formatter writes
    and the console parser reads. */
module Text {
  import opened Bits

  const NUL: byte := 0x00
  const BACKSPACE: byte := 0x08
  const LF: byte := 0x0A
  const CR: byte := 0x0D
  const SPACE: byte := 0x20
  const PERCENT: byte := 0x25
  const MINUS: byte := 0x2D
  const ZERO: byte := 0x30
  const NINE: byte := 0x39

  datatype Option<+T> = None | Some(value: T)

  /** A NUL-terminated string: the only NUL is the last byte, so an index into the
      sequence never reaches past the terminator. */
  ghost predicate CString(z: seq<byte>) {
    && |z| > 0 && z[|z| - 1] == NUL
    && forall i | 0 <= i < |z| - 1 :: z[i] != NUL
  }

  type CStr = z: seq<byte> | CString(z) witness [NUL]

  function Repeat(c: byte, n: nat): (s: seq<byte>)
    ensures |s| == n && forall i | 0 <= i < n :: s[i] == c
  {
    seq(n, _ => c)
  }

  function Reverse(s: seq<byte>): (r: seq<byte>)
    ensures |r| == |s| && forall k | 0 <= k < |s| :: r[k] == s[|s| - 1 - k]
  {
    seq(|s|, k requires 0 <= k < |s| => s[|s| - 1 - k])
  }

  // ------------------------------------------------------------------ numerals

  predicate IsRadix(r: nat) {
    r == 2 || r == 8 || r == 10 || r == 16
  }

  /** The positional numeral of `v`, most significant digit first. */
  function Digits(v: nat, r: nat): (ds: seq<nat>)
    requires r >= 2
    ensures |ds| >= 1 && forall i | 0 <= i < |ds| :: ds[i] < r
    decreases v
  {
    if v < r then [v] else Quotient(v, r); Digits(v / r, r) + [v % r]
  }

  lemma Quotient(v: nat, r: nat)
    requires r >= 2 && v > 0
    ensures 0 <= v / r < v
  {}

  /** The value of a numeral, accumulated on uint32_t as the parser does. */
  function Value(ds: seq<nat>, r: nat, acc: u32): u32 {
    if ds == [] then acc else Value(ds[1..], r, Wrap(acc * r + ds[0]))
  }

  lemma {:induction false} ValueSnoc(ds: seq<nat>, d: nat, r: nat, acc: u32)
    ensures Value(ds + [d], r, acc) == Wrap(Value(ds, r, acc) * r + d)
  {
    if ds != [] {
      assert (ds + [d])[1..] == ds[1..] + [d];
      ValueSnoc(ds[1..], d, r, Wrap(acc * r + ds[0]));
    }
  }

  /** A number of at least two digits, taken apart at its last one. */
  lemma Divide(v: nat, r: nat) returns (q: nat, m: nat)
    requires 2 <= r <= v
    ensures v == q * r + m && m < r && 1 <= q < v && Digits(v, r) == Digits(q, r) + [m]
  {
    q, m := v / r, v % r;
    assert Digits(v, r) == Digits(q, r) + [m];
    hide Digits;
    Euclid(v, r);
    Quotient(v, r);
  }

  /** Reading back a numeral gives the number. */
  lemma {:induction false} ValueOfDigits(v: u32, r: nat)
    requires r >= 2
    ensures Value(Digits(v, r), r, 0) == v
    decreases v
  {
    if v < r {
      ValueOfOne(v, r);
    } else {
      var q, m := Divide(v, r);
      ValueOfDigits(q, r);
      ValueOfMore(Digits(q, r), m, r, q);
    }
  }

  lemma ValueOfMore(ds: seq<nat>, m: nat, r: nat, q: nat)
    requires Value(ds, r, 0) == q && q * r + m < TWO32
    ensures Value(ds + [m], r, 0) == q * r + m
  {
    ValueSnoc(ds, m, r, 0);
    hide Value;
  }

  lemma ValueOfOne(d: u32, r: nat)
    ensures Value([d], r, 0) == d
  {
    assert [d][1..] == [];
    assert 0 * r == 0;
  }

  /** Leading zeros do not change the value. */
  lemma {:induction false} LeadingZeros(n: nat, ds: seq<nat>, r: nat)
    ensures Value(seq(n, _ => 0) + ds, r, 0) == Value(ds, r, 0)
  {
    var z := seq(n, _ => 0);
    if n == 0 {
      assert z + ds == ds;
    } else {
      assert (z + ds)[1..] == seq(n - 1, _ => 0) + ds;
      LeadingZeros(n - 1, ds, r);
    }
  }

  /** The last `k` elements of a sequence, or all of it. */
  function Last<T>(s: seq<T>, k: nat): seq<T> {
    if |s| <= k then s else s[|s| - k..]
  }

  /** The last `k` binary digits hold the value modulo 2^k. */
  lemma {:induction false} ValueOfLastBits(v: u32, k: nat)
    requires 1 <= k
    ensures Value(Last(Digits(v, 2), k), 2, 0) == Low(v, k)
    decreases v
  {
    if v < 2 || k == 1 {
      OneBit(v, k);
      ValueOfOne(v % 2, 2);
    } else {
      var q, m := Divide(v, 2);
      ValueOfLastBits(q, k - 1);
      LastSnoc(Digits(q, 2), m, k);
      LowSnoc(q, m, k);
      ValueOfMore(Last(Digits(q, 2), k - 1), m, 2, Low(q, k - 1));
    }
  }

  lemma LastSnoc(ds: seq<nat>, m: nat, k: nat)
    requires k >= 2
    ensures Last(ds + [m], k) == Last(ds, k - 1) + [m]
  {}

  lemma LowSnoc(q: nat, m: nat, k: nat)
    requires k >= 1 && m < 2
    ensures Low(q * 2 + m, k) == Low(q, k - 1) * 2 + m <= q * 2 + m
  {
    LowUnfolded(q * 2 + m, k);
    hide Low;
  }

  lemma LowUnfolded(w: nat, k: nat)
    requires k >= 1
    ensures Low(w, k) == w % 2 + 2 * Low(w / 2, k - 1) && Low(w, k) <= w
  {}

  lemma OneBit(v: nat, k: nat)
    requires k >= 1 && (v < 2 || k == 1)
    ensures Last(Digits(v, 2), k) == [v % 2] && Low(v, k) == v % 2
  {
    if v < 2 {
      assert Low(0, k - 1) == 0;
    } else {
      assert Low(v / 2, 0) == 0;
    }
  }

  function Power(r: nat, k: nat): nat {
    if k == 0 then 1 else r * Power(r, k - 1)
  }

  /** How many digits a numeral has: at most `k` exactly when the number is below r^k. */
  lemma {:induction false} DigitCount(v: nat, r: nat, k: nat)
    requires r >= 2 && k >= 1
    ensures |Digits(v, r)| <= k <==> v < Power(r, k)
    decreases k
  {
    var p := Power(r, k - 1);
    assert Power(r, k) == r * p;
    if v < r {
      PowerPositive(r, k - 1);
      CompareQuotient(r, p, 0, v);
    } else {
      var q, m := Divide(v, r);
      CompareQuotient(r, p, q, m);
      if k > 1 {
        DigitCount(q, r, k - 1);
      }
    }
  }

  lemma {:induction false} PowerPositive(r: nat, k: nat)
    requires r >= 1
    ensures Power(r, k) >= 1
  {
    if k > 0 {
      PowerPositive(r, k - 1);
      Multiple(Power(r, k - 1), r, 0);
    }
  }

  lemma CompareQuotient(r: nat, p: nat, q: nat, m: nat)
    requires m < r
    ensures q < p <==> q * r + m < r * p
  {
    if q < p {
      Multiple(r, p, q);
    } else if q > p {
      Multiple(r, q, p);
    }
  }
}
