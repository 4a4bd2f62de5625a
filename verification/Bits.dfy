/** C's unsigned 32-bit words as integers: wrap-around, and the bitwise operators
    `&` and `|` computed bit by bit, with the facts about masks and bit fields that
    the drivers rely on. */
module Bits {

  const TWO32: int := 0x1_0000_0000

  type u32 = x: int | 0 <= x < 0x1_0000_0000

  type byte = x: int | 0 <= x < 0x100

  /** Conversion of an integer to uint32_t. */
  function Wrap(x: int): u32 {
    x % 0x1_0000_0000
  }

  function Max(a: int, b: int): int {
    if a < b then b else a
  }

  function Pow2(n: nat): (p: nat)
    ensures p > 0
  {
    if n == 0 then 1 else 2 * Pow2(n - 1)
  }

  /** C's `a & b`. */
  function And(a: nat, b: nat): nat {
    if a == 0 || b == 0 then 0
    else (if a % 2 == 1 && b % 2 == 1 then 1 else 0) + 2 * And(a / 2, b / 2)
  }

  /** C's `a | b`. */
  function Or(a: nat, b: nat): nat
    decreases a + b
  {
    if a == 0 then b else if b == 0 then a
    else (if a % 2 == 1 || b % 2 == 1 then 1 else 0) + 2 * Or(a / 2, b / 2)
  }

  /** C's `w >> k` and `w << k`, the latter without truncation. */
  function Shr(w: nat, k: nat): nat {
    if k == 0 then w else Shr(w / 2, k - 1)
  }

  function Shl(w: nat, k: nat): nat {
    if k == 0 then w else 2 * Shl(w, k - 1)
  }

  /** The low `n` bits of `w`. */
  function Low(w: nat, n: nat): (r: nat)
    ensures r <= w && r < Pow2(n)
  {
    if n == 0 then 0 else w % 2 + 2 * Low(w / 2, n - 1)
  }

  /** The `n` bits of `w` from bit `ofs` up, and `w` with those bits replaced by `x`. */
  function Field(w: nat, ofs: nat, n: nat): (f: nat)
    ensures f < Pow2(n)
  {
    Low(Shr(w, ofs), n)
  }

  function WithField(w: nat, ofs: nat, n: nat, x: nat): nat {
    if ofs > 0 then w % 2 + 2 * WithField(w / 2, ofs - 1, n, x)
    else if n > 0 then x % 2 + 2 * WithField(w / 2, 0, n - 1, x / 2)
    else w
  }

  /** The mask with ones in `n` bits from bit `ofs` up. */
  function Mask(ofs: nat, n: nat): nat {
    if ofs > 0 then 2 * Mask(ofs - 1, n)
    else if n > 0 then 1 + 2 * Mask(0, n - 1)
    else 0
  }

  /** Its complement within `k` bits. */
  function NotMask(ofs: nat, n: nat, k: nat): nat
    requires ofs + n <= k
  {
    if ofs > 0 then 1 + 2 * NotMask(ofs - 1, n, k - 1)
    else if n > 0 then 2 * NotMask(0, n - 1, k - 1)
    else Mask(0, k)
  }

  // ---------------------------------------------------------------- masks and fields

  lemma {:induction false} MaskComplement(ofs: nat, n: nat, k: nat)
    requires ofs + n <= k
    ensures Mask(ofs, n) + NotMask(ofs, n, k) == Pow2(k) - 1
  {
    if ofs > 0 {
      MaskComplement(ofs - 1, n, k - 1);
    } else if n > 0 {
      MaskComplement(0, n - 1, k - 1);
    } else if k > 0 {
      MaskComplement(0, 0, k - 1);
    }
  }

  lemma {:induction false} AndLow(w: nat, n: nat)
    ensures And(w, Mask(0, n)) == Low(w, n)
  {
    if n > 0 {
      AndLow(w / 2, n - 1);
    }
  }

  lemma {:induction false} LowIdentity(w: nat, n: nat)
    requires w < Pow2(n)
    ensures Low(w, n) == w
  {
    if n > 0 { LowIdentity(w / 2, n - 1); }
  }

  /** `(w & (((1 << n) - 1) << ofs)) >> ofs` extracts a field. */
  lemma {:induction false} AndField(w: nat, ofs: nat, n: nat)
    ensures And(w, Mask(ofs, n)) == Shl(Field(w, ofs, n), ofs)
    ensures Shr(And(w, Mask(ofs, n)), ofs) == Field(w, ofs, n)
  {
    if ofs > 0 {
      AndField(w / 2, ofs - 1, n);
      assert And(w, Mask(ofs, n)) / 2 == And(w / 2, Mask(ofs - 1, n));
    } else {
      AndLow(w, n);
    }
  }

  /** `w & ~mask` clears a field. */
  lemma {:induction false} AndClear(w: nat, ofs: nat, n: nat, k: nat)
    requires ofs + n <= k && w < Pow2(k)
    ensures And(w, NotMask(ofs, n, k)) == WithField(w, ofs, n, 0)
  {
    if ofs > 0 {
      AndClear(w / 2, ofs - 1, n, k - 1);
    } else if n > 0 {
      AndClear(w / 2, 0, n - 1, k - 1);
    } else {
      AndLow(w, k);
      LowIdentity(w, k);
    }
  }

  lemma {:induction false} OrZero(w: nat)
    ensures Or(w, 0) == w == Or(0, w)
  {}

  /** `(w with the field cleared) | (x << ofs)` fills it. */
  lemma {:induction false} OrField(w: nat, ofs: nat, n: nat, x: nat)
    requires x < Pow2(n)
    ensures Or(WithField(w, ofs, n, 0), Shl(x, ofs)) == WithField(w, ofs, n, x)
  {
    var c := WithField(w, ofs, n, 0);
    if ofs > 0 {
      OrField(w / 2, ofs - 1, n, x);
      assert c / 2 == WithField(w / 2, ofs - 1, n, 0);
    } else if n > 0 {
      OrField(w / 2, 0, n - 1, x / 2);
      assert c / 2 == WithField(w / 2, 0, n - 1, 0) && Shl(x / 2, 0) == x / 2;
    }
  }

  /** The driver idiom `w &= ~mask; w |= x << ofs` on 32-bit words. */
  lemma SetField(w: u32, ofs: nat, n: nat, x: nat)
    requires ofs + n <= 32 && x < Pow2(n)
    ensures Or(And(w, NotMask(ofs, n, 32)), Shl(x, ofs)) == WithField(w, ofs, n, x)
    ensures WithField(w, ofs, n, x) < TWO32
  {
    Pow32();
    AndClear(w, ofs, n, 32);
    OrField(w, ofs, n, x);
    WithFieldBound(w, ofs, n, x, 32);
  }

  lemma {:induction false} WithFieldBound(w: nat, ofs: nat, n: nat, x: nat, k: nat)
    requires ofs + n <= k && w < Pow2(k)
    ensures WithField(w, ofs, n, x) < Pow2(k)
  {
    if ofs > 0 {
      WithFieldBound(w / 2, ofs - 1, n, x, k - 1);
    } else if n > 0 {
      WithFieldBound(w / 2, 0, n - 1, x / 2, k - 1);
    }
  }

  lemma Pow32()
    ensures Pow2(32) == TWO32 && Pow2(16) == 0x1_0000
  {
    assert Pow2(8) == 0x100;
    assert Pow2(16) == 0x1_0000;
    assert Pow2(24) == 0x100_0000;
  }

  lemma {:induction false} FieldOfWithField(w: nat, ofs: nat, n: nat, x: nat)
    requires x < Pow2(n)
    ensures Field(WithField(w, ofs, n, x), ofs, n) == x
  {
    if ofs > 0 {
      FieldOfWithField(w / 2, ofs - 1, n, x);
    } else if n > 0 {
      FieldOfWithField(w / 2, 0, n - 1, x / 2);
    }
  }

  /** Writing a field leaves every disjoint field alone. */
  lemma {:induction false} OtherField(w: nat, ofs: nat, n: nat, x: nat, o: nat, m: nat)
    requires o + m <= ofs || ofs + n <= o
    ensures Field(WithField(w, ofs, n, x), o, m) == Field(w, o, m)
  {
    if ofs > 0 && o > 0 {
      OtherField(w / 2, ofs - 1, n, x, o - 1, m);
    } else if ofs > 0 && m > 0 {
      OtherField(w / 2, ofs - 1, n, x, 0, m - 1);
    } else if ofs == 0 && n > 0 && o > 0 {
      OtherField(w / 2, 0, n - 1, x / 2, o - 1, m);
    }
  }

  /** Writing the value a field already holds changes nothing; the last write to a field wins. */
  lemma {:induction false} WithFieldSame(w: nat, ofs: nat, n: nat)
    ensures WithField(w, ofs, n, Field(w, ofs, n)) == w
  {
    if ofs > 0 {
      WithFieldSame(w / 2, ofs - 1, n);
    } else if n > 0 {
      WithFieldSame(w / 2, 0, n - 1);
    }
  }

  /** `a | (x << k)` is a sum when `a` has only its low k bits. */
  lemma {:induction false} OrDisjoint(a: nat, x: nat, k: nat)
    requires a < Pow2(k)
    ensures Or(a, Shl(x, k)) == a + Shl(x, k)
  {
    if k > 0 { OrDisjoint(a / 2, x, k - 1); }
  }

  // ---------------------------------------------------------------- fields of & and |

  /** `a | b` and `a & b`, one bit at a time. */
  lemma OrStep(a: nat, b: nat)
    ensures Or(a, b) % 2 == (if a % 2 == 1 || b % 2 == 1 then 1 else 0)
    ensures Or(a, b) / 2 == Or(a / 2, b / 2)
  {
    if a == 0 {
      OrZero(b);
      OrZero(b / 2);
      hide Or;
    } else if b == 0 {
      OrZero(a);
      OrZero(a / 2);
      hide Or;
    } else {
      var h, bit := Or(a / 2, b / 2), if a % 2 == 1 || b % 2 == 1 then 1 else 0;
      assert Or(a, b) == bit + 2 * h;
      hide Or;
    }
  }

  lemma AndStep(a: nat, b: nat)
    ensures And(a, b) % 2 == (if a % 2 == 1 && b % 2 == 1 then 1 else 0)
    ensures And(a, b) / 2 == And(a / 2, b / 2)
  {}

  lemma LowStep(w: nat, n: nat)
    requires n > 0
    ensures Low(w, n) % 2 == w % 2 && Low(w, n) / 2 == Low(w / 2, n - 1)
  {}

  lemma {:induction false} LowOfOr(a: nat, b: nat, n: nat)
    ensures Low(Or(a, b), n) == Or(Low(a, n), Low(b, n))
  {
    if n > 0 {
      hide Low, Or;
      LowOfOr(a / 2, b / 2, n - 1);
      OrStep(a, b);
      OrStep(Low(a, n), Low(b, n));
      LowStep(a, n);
      LowStep(b, n);
      LowStep(Or(a, b), n);
    }
  }

  lemma {:induction false} LowOfAnd(a: nat, b: nat, n: nat)
    ensures Low(And(a, b), n) == And(Low(a, n), Low(b, n))
  {
    if n > 0 {
      hide Low, And;
      LowOfAnd(a / 2, b / 2, n - 1);
      AndStep(a, b);
      AndStep(Low(a, n), Low(b, n));
      LowStep(a, n);
      LowStep(b, n);
      LowStep(And(a, b), n);
    }
  }

  lemma {:induction false} FieldOfOr(a: nat, b: nat, ofs: nat, n: nat)
    ensures Field(Or(a, b), ofs, n) == Or(Field(a, ofs, n), Field(b, ofs, n))
    decreases ofs
  {
    if ofs == 0 {
      LowOfOr(a, b, n);
    } else {
      FieldOfOr(a / 2, b / 2, ofs - 1, n);
      OrStep(a, b);
    }
  }

  lemma {:induction false} FieldOfAnd(a: nat, b: nat, ofs: nat, n: nat)
    ensures Field(And(a, b), ofs, n) == And(Field(a, ofs, n), Field(b, ofs, n))
    decreases ofs
  {
    if ofs == 0 {
      LowOfAnd(a, b, n);
    } else {
      FieldOfAnd(a / 2, b / 2, ofs - 1, n);
      AndStep(a, b);
    }
  }

  // ---------------------------------------------------------------- alignment

  lemma Unique(d: int, q: int, r: int, q': int, r': int)
    requires d > 0 && 0 <= r < d && 0 <= r' < d
    requires d * q + r == d * q' + r'
    ensures q == q' && r == r'
  {
    if q > q' {
      Multiple(d, q, q');
    } else if q < q' {
      Multiple(d, q', q);
    }
  }

  lemma Multiple(d: int, a: int, b: int)
    requires d > 0 && a > b
    ensures d * a - d * b >= d
  {
    assert d * (a - b) == d * a - d * b;
    assert a - b >= 1;
  }

  lemma Euclid(w: int, d: int)
    requires d > 0
    ensures w == d * (w / d) + w % d && 0 <= w % d < d
  {}

  lemma DivMod(w: int, d: int, q: int, r: int)
    requires d > 0 && w == d * q + r && 0 <= r < d
    ensures w / d == q && w % d == r
  {
    Euclid(w, d);
    Unique(d, q, r, w / d, w % d);
  }

  lemma DivModTwice(w: nat, p: nat)
    requires p > 0
    ensures w % (2 * p) == 2 * (w / 2 % p) + w % 2
    ensures w / (2 * p) == w / 2 / p
  {
    var h := w / 2;
    var q, r := h / p, h % p;
    Euclid(h, p);
    assert (2 * p) * q == 2 * (p * q);
    DivMod(w, 2 * p, q, 2 * r + w % 2);
  }

  lemma {:induction false} LowIsMod(w: nat, n: nat)
    ensures Low(w, n) == w % Pow2(n)
  {
    if n > 0 {
      LowIsMod(w / 2, n - 1);
      DivModTwice(w, Pow2(n - 1));
    }
  }

  lemma {:induction false} Pow2Ordered(a: nat, b: nat)
    requires a <= b
    ensures Pow2(a) <= Pow2(b) && (a < b ==> Pow2(a) < Pow2(b))
  {
    if a < b { Pow2Ordered(a, b - 1); }
  }

  lemma {:induction false} AndAtMost(a: nat, b: nat)
    ensures And(a, b) <= a
  {
    if a > 0 && b > 0 { AndAtMost(a / 2, b / 2); }
  }

  lemma {:induction false} OrAtMost(a: nat, b: nat, k: nat)
    requires a < Pow2(k) && b < Pow2(k)
    ensures Or(a, b) < Pow2(k)
  {
    if k > 0 && a > 0 && b > 0 {
      OrAtMost(a / 2, b / 2, k - 1);
    }
  }

  lemma {:induction false} ShlIsMul(w: nat, k: nat)
    ensures Shl(w, k) == Pow2(k) * w
  {
    if k > 0 {
      ShlIsMul(w, k - 1);
      assert 2 * (Pow2(k - 1) * w) == (2 * Pow2(k - 1)) * w;
    }
  }

  lemma {:induction false} ShrIsDiv(w: nat, k: nat)
    ensures Shr(w, k) == w / Pow2(k)
  {
    if k > 0 {
      ShrIsDiv(w / 2, k - 1);
      DivModTwice(w, Pow2(k - 1));
    }
  }

  /** One more bit shifted out. */
  lemma {:induction false} ShrNext(w: nat, k: nat)
    ensures Shr(w, k + 1) == Shr(w, k) / 2
    decreases k
  {
    if k > 0 { ShrNext(w / 2, k - 1); }
  }

  lemma {:induction false} ClearLow(w: nat, n: nat)
    ensures WithField(w, 0, n, 0) + Low(w, n) == w
  {
    if n > 0 { ClearLow(w / 2, n - 1); }
  }

  lemma {:induction false} MaskIsOnes(n: nat)
    ensures Mask(0, n) == Pow2(n) - 1
  {
    if n > 0 { MaskIsOnes(n - 1); }
  }

  /** `a & ~(size - 1)` rounds an address down to a multiple of a power of two. */
  lemma AlignDown(a: u32, n: nat)
    requires n <= 32
    ensures Pow2(n) <= TWO32
    ensures And(a, TWO32 - Pow2(n)) == a - a % Pow2(n)
  {
    Pow32();
    MaskComplement(0, n, 32);
    MaskIsOnes(n);
    AndClear(a, 0, n, 32);
    ClearLow(a, n);
    LowIsMod(a, n);
  }
}
