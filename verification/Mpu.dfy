/** The version 2 memory protection unit of arc/arc_mpu.c: region registers whose size is
    a bit-scattered exponent, and the first-match probe, against a list of intervals. */
module Mpu {
  import opened Bits
  import opened Text

  const ATTR_MASK := 0xFFB
  const ALIGNMENT_BITS := 11

  /** arc_find_msb: 1 + the index of the highest set bit, or 0. */
  function FindMsb(v: nat): nat {
    if v == 0 then 0 else 1 + FindMsb(v / 2)
  }

  /** The exponent arc_mpu_region_config picks, in uint8_t arithmetic. */
  function SizeBits(size: u32): nat {
    var bits := (FindMsb(size) - 1) % 256;
    var aligned := if bits < ALIGNMENT_BITS then ALIGNMENT_BITS else bits;
    if Pow2(aligned) < size then aligned + 1 else aligned
  }

  /** AUX_MPU_RDP_REGION_SIZE(n + 1), and the inverse in arc_mpu_in_region. */
  function Encode(n: nat): nat {
    Or(And(n, 0x3), Shl(And(n, 0x1C), 7))
  }

  function Decode(rdp: nat): nat {
    var x := And(rdp, ATTR_MASK);
    Or(And(x, 0x3), And(Shr(x, 7), 0x1C))
  }

  // ------------------------------------------------------------------ registers and code

  /** The pair of registers of one region. */
  datatype Region = Region(rdb: u32, rdp: u32)

  /** Sizes up to 2^31: above them the shift in arc_mpu_in_region is undefined. */
  type RegionSize = x: int | 0 <= x <= 0x8000_0000

  datatype Config = Config(index: u32, base: u32, size: RegionSize, attr: u32)

  /** What a configuration leaves in its region's registers. */
  function Written(c: Config): Region
  {
    var attr := And(c.attr, ATTR_MASK);
    SizeBitsRange(c.size);
    BoundedWrite(c.attr, SizeBits(c.size) - 1, c.base);
    if c.size > 0 then Region(Or(c.base, 1), Or(attr, Encode(SizeBits(c.size) - 1))) else Region(0, attr)
  }

  /** arc_mpu_in_region; the shift is defined up to 31. */
  predicate InRegion(r: Region, start: u32, size: u32)
    requires Decode(r.rdp) <= 30
  {
    var base := And(r.rdb, 0xFFFF_FFFE);
    var end := Wrap(base + Pow2(Decode(r.rdp) + 1));
    start >= base && Wrap(start + size) < end
  }

  class Mpu {
    var regions: seq<Region>

    constructor (n: nat)
      ensures regions == seq(n, i => Region(0, 0))
    {
      regions := seq(n, i => Region(0, 0));
    }

    /** arc_mpu_region_config */
    method RegionConfig(index: u32, base: u32, size: RegionSize, attr: u32)
      modifies this
      ensures regions == After(old(regions), Config(index, base, size, attr))
    {
      hide And, Or, Pow2, FindMsb, Encode;
      if index >= |regions| {
        return;
      }
      var regionAttr := And(attr, ATTR_MASK);
      var bits := (FindMsb(size) - 1) % 256;
      if bits < ALIGNMENT_BITS {
        bits := ALIGNMENT_BITS;
      }
      if Pow2(bits) < size {
        bits := bits + 1;
      }
      SizeBitsRange(size);
      BoundedWrite(attr, bits - 1, base);
      var regionBase: u32 := 0;
      if size > 0 {
        regionAttr := Or(regionAttr, Encode(bits - 1));
        regionBase := Or(base, 1);
      }
      regions := regions[index := Region(regionBase, regionAttr)];
    }

    /** arc_mpu_probe */
    method Probe(addr: u32) returns (index: int)
      requires forall i | 0 <= i < |regions| :: Decode(regions[i].rdp) <= 30
      ensures ProbeResult(regions, addr, index)
    {
      hide InRegion, Decode;
      var i := 0;
      while i < |regions|
        invariant 0 <= i <= |regions|
        invariant forall k | 0 <= k < i :: !InRegion(regions[k], addr, 0)
      {
        if InRegion(regions[i], addr, 0) {
          return i;
        }
        i := i + 1;
      }
      return -1;
    }
  }

  function After(regions: seq<Region>, c: Config): seq<Region>
  {
    if c.index < |regions| then regions[c.index := Written(c)] else regions
  }

  // ------------------------------------------------------------------ the size fields

  /** The two fields in which a size exponent is kept: bits 0-1 and 9-11. */
  lemma DecodeFields(w: nat)
    ensures Decode(w) == Field(w, 0, 2) + 4 * Field(w, 9, 3)
  {
    var x := And(w, ATTR_MASK);
    assert Mask(0, 2) == 3 && Mask(2, 3) == 0x1C;
    AndLow(x, 2);
    AndField(Shr(x, 7), 2, 3);
    assert Shr(x, 9) == Shr(Shr(x, 7), 2) by { ShrShr(x, 7, 2); }
    MaskedFields(w);
    Or4(Field(w, 0, 2), Field(w, 9, 3));
  }

  lemma MaskFields()
    ensures Field(ATTR_MASK, 0, 2) == Mask(0, 2) && Field(ATTR_MASK, 9, 3) == Mask(0, 3)
  {
    SmallPowers();
    ShrIsDiv(ATTR_MASK, 9);
    LowIsMod(7, 3);
    MaskIsOnes(3);
  }

  lemma SmallPowers()
    ensures Pow2(2) == 4 && Pow2(3) == 8 && Pow2(7) == 128 && Pow2(9) == 512
  {
    assert Pow2(4) == 16;
    assert Pow2(6) == 64;
  }

  lemma {:induction false} ShrShr(w: nat, a: nat, b: nat)
    ensures Shr(Shr(w, a), b) == Shr(w, a + b)
  {
    if a > 0 { ShrShr(w / 2, a - 1, b); }
  }

  lemma AndOnes(v: nat, n: nat)
    requires v < Pow2(n)
    ensures And(v, Mask(0, n)) == v
  {
    AndLow(v, n);
    LowIdentity(v, n);
  }

  lemma Or4(a: nat, b: nat)
    requires a < 4
    ensures Or(a, Shl(b, 2)) == a + 4 * b
  {
    OrDisjoint(a, b, 2);
    SmallPowers();
    ShlIsMul(b, 2);
  }

  lemma Or4Split(a: nat, b: nat, a': nat, b': nat)
    requires a < 4 && a' < 4
    ensures Or(a + 4 * b, a' + 4 * b') == Or(a, a') + 4 * Or(b, b')
  {
    hide Or;
    assert Or(0, 0) == 0 by { OrZero(0); }
    OrStep(a + 4 * b, a' + 4 * b');
    OrStep(a / 2 + 2 * b, a' / 2 + 2 * b');
    OrStep(a, a');
    OrStep(a / 2, a' / 2);
  }

  lemma EncodeFields(n: nat)
    requires n < 32
    ensures Field(Encode(n), 0, 2) == n % 4 && Field(Encode(n), 9, 3) == n / 4 && Encode(n) < 0x1000
  {
    hide Encode, Field;
    EncodeWord(n);
    SplitWord(n % 4, n / 4);
  }

  lemma EncodeWord(n: nat)
    requires n < 32
    ensures Encode(n) == n % 4 + 512 * (n / 4)
  {
    hide And, Or, Shl;
    EncodeParts(n);
    OrDisjoint(n % 4, n / 4, 9);
    SmallPowers();
    ShlIsMul(n / 4, 9);
    ShlIsMul(4 * (n / 4), 7);
  }

  lemma EncodeParts(n: nat)
    requires n < 32
    ensures And(n, 0x3) == n % 4 && And(n, 0x1C) == 4 * (n / 4)
  {
    SmallPowers();
    AndLow(n, 2);
    LowIsMod(n, 2);
    AndField(n, 2, 3);
    ShrIsDiv(n, 2);
    LowIdentity(n / 4, 3);
    ShlIsMul(n / 4, 2);
  }

  lemma SplitWord(lo: nat, h: nat)
    requires lo < 4 && h < 8
    ensures Field(lo + 512 * h, 0, 2) == lo && Field(lo + 512 * h, 9, 3) == h
  {
    var w := lo + 512 * h;
    SmallPowers();
    assert Pow2(0) == 1;
    hide Low, Pow2, Shr;
    assert Shr(w, 0) == w by { ShrIsDiv(w, 0); }
    LowIsMod(w, 2);
    ShrIsDiv(w, 9);
    assert w / 512 == h && w % 4 == lo;
    LowIdentity(h, 3);
  }

  // ------------------------------------------------------------------ the encoding

  /** What comes back is the encoded exponent, together with any exponent bits the caller
      left in the attribute. */
  lemma DecodeWritten(attr: u32, n: nat)
    requires n < 32
    ensures Decode(Or(And(attr, ATTR_MASK), Encode(n))) == Or(Decode(attr), n)
    ensures Decode(And(attr, ATTR_MASK)) == Decode(attr)
  {
    hide And, Or, Decode, Encode, Field, Low, Shr, Pow2;
    var m := And(attr, ATTR_MASK);
    var lo, hi := Field(attr, 0, 2), Field(attr, 9, 3);
    SmallPowers();
    MaskedFields(attr);
    EncodeFields(n);
    DecodeFields(Or(m, Encode(n)));
    DecodeFields(attr);
    DecodeFields(m);
    FieldOfOr(m, Encode(n), 0, 2);
    FieldOfOr(m, Encode(n), 9, 3);
    Or4Split(lo, hi, n % 4, n / 4);
  }

  lemma MaskedFields(w: nat)
    ensures Field(And(w, ATTR_MASK), 0, 2) == Field(w, 0, 2)
    ensures Field(And(w, ATTR_MASK), 9, 3) == Field(w, 9, 3)
  {
    FieldOfAnd(w, ATTR_MASK, 0, 2);
    FieldOfAnd(w, ATTR_MASK, 9, 3);
    MaskFields();
    AndOnes(Field(w, 0, 2), 2);
    AndOnes(Field(w, 9, 3), 3);
  }

  lemma BoundedWrite(attr: u32, n: int, base: u32)
    ensures And(attr, ATTR_MASK) < TWO32 && Or(base, 1) < TWO32
    ensures 0 <= n < 32 ==> Or(And(attr, ATTR_MASK), Encode(n)) < TWO32
  {
    AndAtMost(attr, ATTR_MASK);
    Pow32();
    OrAtMost(base, 1, 32);
    if 0 <= n < 32 {
      EncodeFields(n);
      OrAtMost(And(attr, ATTR_MASK), Encode(n), 32);
    }
  }

  // ------------------------------------------------------------------ rounding up

  lemma {:induction false} MsbBounds(v: nat)
    requires v > 0
    ensures FindMsb(v) > 0 && Pow2(FindMsb(v) - 1) <= v < Pow2(FindMsb(v))
  {
    if v > 1 { MsbBounds(v / 2); }
  }

  lemma SizeBitsRange(size: RegionSize)
    ensures size > 0 ==> 11 <= SizeBits(size) <= 31 && FindMsb(size) <= 32
  {
    if size > 0 { RoundUp(size); }
  }

  /** The region becomes the least power of two that holds the size and the alignment. */
  lemma RoundUp(size: RegionSize)
    requires size > 0
    ensures 11 <= SizeBits(size) <= 31 && FindMsb(size) <= 32
    ensures Pow2(SizeBits(size)) >= Max(size, 2048)
    ensures forall j: nat | Pow2(j) >= Max(size, 2048) :: Pow2(SizeBits(size)) <= Pow2(j)
  {
    hide FindMsb, Pow2;
    var m := FindMsb(size);
    var b := SizeBits(size);
    MsbBounds(size);
    Pow31();
    assert m <= 32 by { Ordered(31, m - 1); }
    var bits := if m - 1 < 11 then 11 else m - 1;
    assert b == if Pow2(bits) < size then bits + 1 else bits;
    hide SizeBits;
    assert Pow2(b) >= Max(size, 2048) by {
      Ordered(11, bits);
      Ordered(m, b);
    }
    assert b <= 31 by { Ordered(31, bits); }
    forall j: nat | Pow2(j) >= Max(size, 2048)
      ensures Pow2(b) <= Pow2(j)
    {
      Ordered(b, j);
      Ordered(j, bits);
      Ordered(j, b - 1);
    }
  }

  lemma Ordered(a: nat, b: int)
    ensures a < b ==> Pow2(a) < Pow2(b)
    ensures a <= b ==> Pow2(a) <= Pow2(b)
  {
    if a <= b { Pow2Ordered(a, b); }
  }

  lemma Pow31()
    ensures Pow2(11) == 2048 && Pow2(31) == 0x8000_0000
  {
    assert Pow2(8) == 256;
    assert Pow2(16) == 0x1_0000;
    assert Pow2(24) == 0x100_0000;
  }

  // ------------------------------------------------------------------ agreement with intervals

  datatype Interval = Interval(base: u32, length: nat)

  /** base <= start and start + size < base + length, without wrap-around. */
  predicate Covers(iv: Interval, start: u32, size: u32) {
    iv.base <= start && start + size < iv.base + iv.length
  }

  /** The caller's side: an even base, permission bits only, a region below the top. */
  predicate WellFormed(c: Config) {
    && c.base % 2 == 0 && Decode(c.attr) == 0
    && (c.size > 0 ==> c.base + Pow2(SizeBits(c.size)) < TWO32)
  }

  function Spec(c: Config): Option<Interval>
  {
    if c.size > 0 then Some(Interval(c.base, Pow2(SizeBits(c.size)))) else None
  }

  /** Permission bits are exactly those that do not touch the size exponent. */
  lemma PermissionsDecodeToZero(attr: u32)
    ensures Decode(attr) == 0 <==> And(attr, 0xE03) == 0
  {
    hide And, Decode, Field, Low, Shr, Pow2;
    DecodeFields(attr);
    SizeFields(attr);
  }

  lemma SizeFields(w: nat)
    ensures And(w, 0xE03) == Field(w, 0, 2) + 512 * Field(w, 9, 3)
  {
    var lo, hi := Field(w, 0, 2), Field(w, 9, 3);
    assert Mask(0, 2) == 3;
    AndLow(w, 2);
    MaskHigh();
    AndField(w, 9, 3);
    SmallPowers();
    ShlIsMul(hi, 9);
    hide Low, Shr, Shl, Mask, Pow2, Field;
    AndSplit(w);
  }

  lemma MaskHigh()
    ensures Mask(9, 3) == 0xE00
  {
    assert Mask(6, 3) == 0x1C0 by { assert Mask(3, 3) == 0x38; }
  }

  lemma AndSplit(w: nat)
    ensures And(w, 0xE03) == And(w, 0x3) + And(w, 0xE00)
  {
    hide And;
    AndStep(w, 0xE03); AndStep(w, 0x3); AndStep(w, 0xE00);
    AndStep(w / 2, 0x701); AndStep(w / 2, 0x1); AndStep(w / 2, 0x700);
    assert And(w / 2 / 2, 0) == 0 by { AndZero(w / 2 / 2); }
  }

  lemma AndZero(w: nat)
    ensures And(w, 0) == 0
  {}

  /** The valid bit is set and masked off again. */
  lemma ValidBit(base: u32)
    ensures Or(base, 1) == base - base % 2 + 1 && And(Or(base, 1), 0xFFFF_FFFE) == base - base % 2
  {
    assert Or(base / 2, 0) == base / 2 by { OrZero(base / 2); }
    OrStep(base, 1);
    Pow32();
    AlignDown(Or(base, 1), 1);
    assert Pow2(1) == 2;
  }

  /** A configured region answers for [base, base + P), P the rounded size, and also for
      ranges whose end wraps around into it. */
  lemma RegionAnswers(c: Config, start: u32, size: u32)
    requires WellFormed(c) && c.size > 0
    ensures Decode(Written(c).rdp) == SizeBits(c.size) - 1 <= 30
    ensures InRegion(Written(c), start, size) <==>
              c.base <= start && Wrap(start + size) < c.base + Pow2(SizeBits(c.size))
  {
    hide Encode, Decode, SizeBits, And, Or, Pow2;
    SizeBitsRange(c.size);
    var b := SizeBits(c.size);
    BoundedWrite(c.attr, b - 1, c.base);
    DecodeWritten(c.attr, b - 1);
    OrZero(b - 1);
    ValidBit(c.base);
  }

  /** ... so it decides coverage exactly when the end of the range does not wrap into it. */
  lemma InRegionIffCovered(c: Config, start: u32, size: u32)
    requires WellFormed(c) && c.size > 0
    ensures Decode(Written(c).rdp) <= 30
    ensures (InRegion(Written(c), start, size) <==> Covers(Spec(c).value, start, size)) <==>
              (c.base <= start && start + size >= TWO32 ==>
                start + size - TWO32 >= c.base + Pow2(SizeBits(c.size)))
  {
    hide Decode, SizeBits, InRegion, Pow2;
    RegionAnswers(c, start, size);
  }

  /** A region that ends at or beyond the top of the address space loses its own base: being
      below the top is what the addresses of a region need to be found. */
  lemma FoundIffBelowTop(c: Config)
    requires c.size > 0 && c.base % 2 == 0 && Decode(c.attr) == 0
    ensures Decode(Written(c).rdp) <= 30
    ensures InRegion(Written(c), c.base, 0) <==> c.base + Pow2(SizeBits(c.size)) < TWO32
  {
    hide Encode, Decode, SizeBits, And, Or, Pow2;
    SizeBitsRange(c.size);
    var b := SizeBits(c.size);
    BoundedWrite(c.attr, b - 1, c.base);
    DecodeWritten(c.attr, b - 1);
    OrZero(b - 1);
    ValidBit(c.base);
    Pow31();
    Ordered(b, 31);
  }

  /** Size bits left in the attribute enlarge the region unless the exponent has them all. */
  lemma AttributeKeepsSize(c: Config)
    requires c.size > 0
    ensures Decode(Written(c).rdp) == SizeBits(c.size) - 1 <==>
              Or(Decode(c.attr), SizeBits(c.size) - 1) == SizeBits(c.size) - 1
  {
    hide Encode, Decode, SizeBits, And, Or, Pow2;
    SizeBitsRange(c.size);
    BoundedWrite(c.attr, SizeBits(c.size) - 1, c.base);
    DecodeWritten(c.attr, SizeBits(c.size) - 1);
  }

  /** A removed region still answers, its valid bit not being read: for the addresses from 0
      to the size that the exponent bits of its attribute spell, 0 and 1 if it has none. */
  lemma RemovedRegion(c: Config, start: u32, size: u32)
    requires c.size == 0 && Decode(c.attr) <= 30
    ensures Decode(Written(c).rdp) == Decode(c.attr)
    ensures InRegion(Written(c), start, size) <==> Wrap(start + size) < Pow2(Decode(c.attr) + 1)
  {
    hide Encode, Decode, SizeBits, Pow2;
    Pow31();
    Ordered(Decode(c.attr) + 1, 31);
    BoundedWrite(c.attr, SizeBits(c.size) - 1, c.base);
    DecodeWritten(c.attr, 0);
  }

  lemma RemovedPlainly(c: Config, start: u32, size: u32)
    requires c.size == 0 && Decode(c.attr) == 0
    ensures Decode(Written(c).rdp) == 0
    ensures InRegion(Written(c), start, size) <==> Wrap(start + size) < 2
  {
    assert Pow2(1) == 2;
    hide Decode, InRegion, Written, SizeBits, Pow2;
    RemovedRegion(c, start, size);
  }

  // ------------------------------------------------------------------ the registers

  /** Bits 3 to 8 of the register are the attribute's permission bits, bit 2 and everything
      from bit 12 up is clear; the other register is the base with its valid bit, or 0. */
  lemma RegistersHold(c: Config)
    ensures Field(Written(c).rdp, 3, 6) == Field(c.attr, 3, 6)
    ensures Field(Written(c).rdp, 2, 1) == 0 && Written(c).rdp < 0x1000
    ensures Written(c).rdb == if c.size > 0 then c.base - c.base % 2 + 1 else 0
  {
    SizeBitsRange(c.size);
    ValidBit(c.base);
    Permissions(c.attr, 0);
    if c.size > 0 {
      BoundedWrite(c.attr, SizeBits(c.size) - 1, c.base);
      Permissions(c.attr, SizeBits(c.size) - 1);
    }
    hide Field, Encode, SizeBits, And, Or;
  }

  lemma Permissions(attr: u32, n: nat)
    requires n < 32
    ensures var m := And(attr, ATTR_MASK);
      && Field(m, 3, 6) == Field(attr, 3, 6) && Field(m, 2, 1) == 0 && m < 0x1000
      && Field(Or(m, Encode(n)), 3, 6) == Field(attr, 3, 6) && Field(Or(m, Encode(n)), 2, 1) == 0
      && Or(m, Encode(n)) < 0x1000
  {
    var m := And(attr, ATTR_MASK);
    assert Pow2(12) == 0x1000 by { assert Pow2(8) == 0x100; }
    hide And, Or, Encode, Field, Pow2;
    MaskedPermissions(attr);
    EncodeFields(n);
    ExponentFields(n);
    FieldOfOr(m, Encode(n), 3, 6);
    FieldOfOr(m, Encode(n), 2, 1);
    OrZero(Field(attr, 3, 6));
    OrZero(0);
    OrAtMost(m, Encode(n), 12);
  }

  lemma MaskedPermissions(attr: u32)
    ensures var m := And(attr, ATTR_MASK);
      Field(m, 3, 6) == Field(attr, 3, 6) && Field(m, 2, 1) == 0 && m < 0x1000
  {
    AndZero(Field(attr, 2, 1));
    hide And, Field, Mask;
    AttrFields();
    FieldOfAnd(attr, ATTR_MASK, 3, 6);
    FieldOfAnd(attr, ATTR_MASK, 2, 1);
    AndOnes(Field(attr, 3, 6), 6);
    BelowMask(attr, ATTR_MASK);
  }

  lemma {:induction false} BelowMask(a: nat, mask: nat)
    ensures And(a, mask) <= mask
  {
    if a > 0 && mask > 0 { BelowMask(a / 2, mask / 2); }
  }

  lemma AttrFields()
    ensures Field(ATTR_MASK, 3, 6) == Mask(0, 6) && Field(ATTR_MASK, 2, 1) == 0 && ATTR_MASK < 0x1000
  {
    MaskIsOnes(6);
    assert Shr(ATTR_MASK, 2) == 0x3FE;
    assert Shr(ATTR_MASK, 3) == 0x1FF;
    LowIsMod(0x1FF, 6);
    LowIsMod(0x3FE, 1);
    SmallPowers();
    assert Pow2(6) == 64 && Pow2(1) == 2;
  }

  lemma ExponentFields(n: nat)
    requires n < 32
    ensures Field(Encode(n), 3, 6) == 0 && Field(Encode(n), 2, 1) == 0
  {
    SmallPowers();
    assert Pow2(6) == 64 && Pow2(1) == 2;
    hide Encode, Pow2, Low, Shr;
    EncodeWord(n);
    var lo, hi := n % 4, n / 4;
    var w := lo + 512 * hi;
    ShrIsDiv(w, 3);
    ShrIsDiv(w, 2);
    LowIsMod(64 * hi, 6);
    LowIsMod(128 * hi, 1);
    DivMod(w, 8, 64 * hi, lo);
    DivMod(w, 4, 128 * hi, lo);
    DivMod(64 * hi, 64, hi, 0);
    DivMod(128 * hi, 2, 64 * hi, 0);
  }

  // ------------------------------------------------------------------ runs

  function Run(regions: seq<Region>, configs: seq<Config>): seq<Region>
  {
    if configs == [] then regions else After(Run(regions, configs[..|configs| - 1]), configs[|configs| - 1])
  }

  function SpecRun(n: nat, configs: seq<Config>): (list: seq<Option<Interval>>)
    ensures |list| == n
  {
    if configs == [] then seq(n, i => None) else
      var list := SpecRun(n, configs[..|configs| - 1]);
      var c := configs[|configs| - 1];
      if c.index < n then list[c.index := Spec(c)] else list
  }

  /** One region answers as its interval, or for the addresses 0 and 1 only. */
  ghost predicate Agrees(r: Region, iv: Option<Interval>) {
    && Decode(r.rdp) <= 30
    && forall start: u32, size: u32 | start + size < TWO32 ::
         InRegion(r, start, size) <==> if iv.Some? then Covers(iv.value, start, size) else start + size < 2
  }

  lemma WrittenAgrees(c: Config)
    requires WellFormed(c)
    ensures Agrees(Written(c), Spec(c))
  {
    hide Decode, InRegion, Written, SizeBits, Pow2;
    if c.size == 0 {
      RemovedPlainly(c, 0, 0);
      forall start: u32, size: u32 | start + size < TWO32
        ensures InRegion(Written(c), start, size) <==> start + size < 2
      {
        RemovedPlainly(c, start, size);
      }
    } else {
      RegionAnswers(c, 0, 0);
      forall start: u32, size: u32 | start + size < TWO32
        ensures InRegion(Written(c), start, size) <==> Covers(Spec(c).value, start, size)
      {
        RegionAnswers(c, start, size);
      }
    }
  }

  lemma ResetAgrees()
    ensures Agrees(Region(0, 0), None)
  {
    var c := Config(0, 0, 0, 0);
    assert And(0, ATTR_MASK) == 0;
    WrittenAgrees(c);
  }

  /** After any sequence of configurations every region agrees with the list. */
  lemma {:induction false} RunAgrees(n: nat, configs: seq<Config>, i: nat)
    requires forall c | c in configs :: WellFormed(c)
    requires i < n
    ensures |Run(seq(n, k => Region(0, 0)), configs)| == n
    ensures Agrees(Run(seq(n, k => Region(0, 0)), configs)[i], SpecRun(n, configs)[i])
  {
    hide Agrees, WellFormed, Written, Spec;
    if configs == [] {
      ResetAgrees();
    } else {
      var before := configs[..|configs| - 1];
      var c := configs[|configs| - 1];
      assert forall d | d in before :: d in configs;
      RunAgrees(n, before, i);
      WrittenAgrees(c);
    }
  }

  /** Probing an address from 2 up finds the first interval that contains it, or none. */
  lemma ProbeAfterRun(n: nat, configs: seq<Config>, addr: u32, index: int)
    requires forall c | c in configs :: WellFormed(c)
    requires addr >= 2 && ProbeResult(Run(seq(n, k => Region(0, 0)), configs), addr, index)
    ensures FirstCovering(SpecRun(n, configs), addr, index)
  {
    var regions := Run(seq(n, k => Region(0, 0)), configs);
    RunLength(n, configs);
    hide Agrees, WellFormed, ProbeResult, FirstCovering, Run, SpecRun;
    forall i | 0 <= i < n
      ensures Agrees(regions[i], SpecRun(n, configs)[i])
    {
      RunAgrees(n, configs, i);
    }
    ProbeFindsFirst(regions, SpecRun(n, configs), addr, index);
  }

  lemma {:induction false} RunLength(n: nat, configs: seq<Config>)
    ensures |Run(seq(n, k => Region(0, 0)), configs)| == n
  {
    if configs != [] { RunLength(n, configs[..|configs| - 1]); }
  }

  lemma ProbeFindsFirst(regions: seq<Region>, list: seq<Option<Interval>>, addr: u32, index: int)
    requires |regions| == |list| && addr >= 2
    requires forall i | 0 <= i < |regions| :: Agrees(regions[i], list[i])
    requires ProbeResult(regions, addr, index)
    ensures FirstCovering(list, addr, index)
  {
    hide InRegion, Decode;
    forall i | 0 <= i < |regions|
      ensures InRegion(regions[i], addr, 0) <==> list[i].Some? && Covers(list[i].value, addr, 0)
    {
    }
  }

  ghost predicate ProbeResult(regions: seq<Region>, addr: u32, index: int) {
    && (forall i | 0 <= i < |regions| :: Decode(regions[i].rdp) <= 30)
    && -1 <= index < |regions|
    && (index != -1 ==> InRegion(regions[index], addr, 0))
    && (forall i | 0 <= i < if index == -1 then |regions| else index :: !InRegion(regions[i], addr, 0))
  }

  ghost predicate FirstCovering(list: seq<Option<Interval>>, addr: u32, index: int) {
    && -1 <= index < |list|
    && (index != -1 ==> list[index].Some? && Covers(list[index].value, addr, 0))
    && (forall i | 0 <= i < (if index == -1 then |list| else index) ::
         !(list[i].Some? && Covers(list[i].value, addr, 0)))
  }
}
