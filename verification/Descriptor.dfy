/** uDMA descriptors: the control word of include/arc/arc_udma.h and the end addresses that
    dmac_set_desc of arc/arc_udma.c computes for a transfer. */
module Descriptor {
  import opened Bits

  datatype Desc = Desc(ctrl: u32, sar: u32, dar: u32, llp: u32)

  // Fields of the control word: offset and width.
  const SIZE_MASK := 0x1F_FF00
  const DWINC_MASK := 0xE0

  const DW1INC2 := 1
  const DW1INC4 := 2
  const DW2INC2 := 3
  const DW2INC4 := 4
  const DW4INC4 := 5
  const CLEAR := 6
  const DW8INC8 := 7

  function DwInc(ctrl: u32): nat {
    Field(ctrl, 5, 3)
  }

  /** Data width and address increment, in bytes. */
  function Width(dwinc: nat): (w: nat)
    ensures w in {1, 2, 4, 8}
  {
    if dwinc == DW2INC2 || dwinc == DW2INC4 then 2
    else if dwinc == DW4INC4 then 4
    else if dwinc == DW8INC8 then 8
    else 1
  }

  function Increment(dwinc: nat): (i: nat)
    ensures i in {1, 2, 4, 8}
  {
    if dwinc == DW1INC2 || dwinc == DW2INC2 then 2
    else if dwinc == DW1INC4 || dwinc == DW2INC4 || dwinc == DW4INC4 then 4
    else if dwinc == DW8INC8 then 8
    else 1
  }

  /** Widths and increments by the number of the mode, mode 6 (clear) apart, and the modes
      whose end addresses are specified: all but 6, and 7 only between memories. */
  lemma ModeTable(mode: u32)
    ensures Specified(mode) <==>
              Field(mode, 5, 3) != 6 && (Field(mode, 5, 3) == 7 ==> Field(mode, 3, 1) == 0 && Field(mode, 4, 1) == 0)
    ensures Width(0) == 1 && Width(1) == 1 && Width(2) == 1 && Width(3) == 2 && Width(4) == 2 && Width(5) == 4
    ensures Increment(0) == 1 && Increment(1) == 2 && Increment(2) == 4 && Increment(3) == 2 && Increment(4) == 4
    ensures Increment(5) == 4 && Width(7) == 8 && Increment(7) == 8
  {
    assert Pow2(3) == 8;
    hide Field, Pow2;
  }

  // ------------------------------------------------------------------ masks

  lemma Double(a: int, b: int)
    ensures 2 * (a * b) == (2 * a) * b
  {}

  lemma {:induction false} MaskValue(ofs: nat, n: nat)
    ensures Mask(ofs, n) == Pow2(ofs) * (Pow2(n) - 1)
  {
    if ofs > 0 {
      MaskValue(ofs - 1, n);
      assert Pow2(ofs) == 2 * Pow2(ofs - 1) && Mask(ofs, n) == 2 * Mask(ofs - 1, n);
      hide Pow2, Mask;
      Double(Pow2(ofs - 1), Pow2(n) - 1);
    } else {
      MaskIsOnes(n);
    }
  }

  lemma Powers()
    ensures Pow2(1) == 2 && Pow2(2) == 4 && Pow2(3) == 8 && Pow2(5) == 32 && Pow2(8) == 0x100
    ensures Pow2(13) == 0x2000 && Pow2(30) == 0x4000_0000 && Pow2(31) == 0x8000_0000
  {
    assert Pow2(4) == 16;
    assert Pow2(11) == 0x800;
    Pow32();
    assert Pow2(20) == 0x10_0000;
    assert Pow2(28) == 0x1000_0000;
  }

  lemma Masks()
    ensures Mask(8, 13) == SIZE_MASK && NotMask(8, 13, 32) == 0xFFFF_FFFF - SIZE_MASK
    ensures Mask(5, 3) == DWINC_MASK
    ensures Mask(3, 1) == 0x8 && Mask(4, 1) == 0x10 && Mask(30, 1) == 0x4000_0000 && Mask(31, 1) == 0x8000_0000
  {
    Powers();
    Pow32();
    MaskComplement(8, 13, 32);
    MaskValue(8, 13);
    MaskValue(5, 3);
    MaskValue(3, 1);
    MaskValue(4, 1);
    MaskValue(30, 1);
    MaskValue(31, 1);
    assert Pow2(4) == 16;
  }

  /** `w & (1 << k)` tests one bit. */
  lemma BitTest(w: u32, k: nat)
    ensures And(w, Mask(k, 1)) == 0 <==> Field(w, k, 1) == 0
  {
    AndField(w, k, 1);
    ShlIsMul(Field(w, k, 1), k);
    hide Shr, Field, And;
    if Field(w, k, 1) != 0 { assert Pow2(k) * Field(w, k, 1) >= Pow2(k); }
  }

  // ------------------------------------------------------------------ the gaps

  /** dmac_memory_addr_gap: the distance from the first element to the last. */
  method MemoryGap(mode: u32) returns (gap: u32)
    ensures DwInc(mode) != CLEAR ==>
              gap == Field(mode, 8, 13) / Width(DwInc(mode)) * Increment(DwInc(mode))
  {
    Extracted(mode);
    hide And, Shr, Shl, Field;
    var size := Shr(And(mode, SIZE_MASK), 8);
    var dwinc := Shr(And(mode, DWINC_MASK), 5);
    gap := size;
    Shifts(size);
    if dwinc == DW1INC2 {
      gap := Shl(size, 1);
    } else if dwinc == DW1INC4 {
      gap := Shl(size, 2);
    } else if dwinc == DW2INC2 {
      gap := And(size, 0xFFFF_FFFE);
    } else if dwinc == DW2INC4 {
      gap := Shl(And(size, 0xFFFF_FFFE), 1);
    } else if dwinc == DW4INC4 {
      gap := And(size, 0xFFFF_FFFC);
    } else if dwinc == DW8INC8 {
      gap := And(size, 0xFFFF_FFF8);
    }
  }

  /** dmac_aux_addr_gap: auxiliary registers are counted, not their bytes. */
  method AuxGap(mode: u32) returns (gap: u32)
    ensures DwInc(mode) != CLEAR && Width(DwInc(mode)) != 8 ==> gap == Field(mode, 8, 13) / Width(DwInc(mode))
  {
    Extracted(mode);
    hide And, Shr, Shl, Field;
    var size := Shr(And(mode, SIZE_MASK), 8);
    var dwinc := Shr(And(mode, DWINC_MASK), 5);
    gap := size;
    Halves(size);
    if dwinc == DW2INC2 || dwinc == DW2INC4 {
      gap := Shr(size, 1);
    } else if dwinc == DW4INC4 || dwinc == DW8INC8 {
      gap := Shr(size, 2);
    }
  }

  lemma Extracted(mode: u32)
    ensures Shr(And(mode, SIZE_MASK), 8) == Field(mode, 8, 13) < 0x2000
    ensures Shr(And(mode, DWINC_MASK), 5) == DwInc(mode)
  {
    Masks();
    Powers();
    AndField(mode, 8, 13);
    AndField(mode, 5, 3);
  }

  lemma Shifts(size: nat)
    requires size < 0x2000
    ensures Shl(size, 1) == 2 * size && Shl(size, 2) == 4 * size
    ensures And(size, 0xFFFF_FFFE) == size / 2 * 2 && Shl(And(size, 0xFFFF_FFFE), 1) == size / 2 * 4
    ensures And(size, 0xFFFF_FFFC) == size / 4 * 4 && And(size, 0xFFFF_FFF8) == size / 8 * 8
  {
    Powers();
    hide And, Shl, Pow2;
    AlignDown(size, 1);
    AlignDown(size, 2);
    AlignDown(size, 3);
    ShlIsMul(size, 1);
    ShlIsMul(size, 2);
    ShlIsMul(And(size, 0xFFFF_FFFE), 1);
  }

  lemma Halves(size: nat)
    ensures Shr(size, 1) == size / 2 && Shr(size, 2) == size / 4
  {
    Powers();
    ShrIsDiv(size, 1);
    ShrIsDiv(size, 2);
  }

  // ------------------------------------------------------------------ dmac_set_desc

  /** The control word with the size field filled from `size - 1`, as the code fills it: the
      shifted value is not masked, only truncated to 32 bits. */
  function SizedMode(mode: u32, size: u32): u32 {
    SizedModeIsWord(mode, size);
    Or(And(mode, 0xFFFF_FFFF - SIZE_MASK), Wrap(Shl(Wrap(size - 1), 8)))
  }

  lemma SizedModeIsWord(mode: u32, size: u32)
    ensures Or(And(mode, 0xFFFF_FFFF - SIZE_MASK), Wrap(Shl(Wrap(size - 1), 8))) < TWO32
  {
    Pow32();
    AndAtMost(mode, 0xFFFF_FFFF - SIZE_MASK);
    OrAtMost(And(mode, 0xFFFF_FFFF - SIZE_MASK), Wrap(Shl(Wrap(size - 1), 8)), 32);
  }

  /** In range, only the size field changes. */
  lemma SizedModeInRange(mode: u32, size: u32)
    requires 1 <= size <= 8192
    ensures SizedMode(mode, size) == WithField(mode, 8, 13, size - 1)
    ensures Field(SizedMode(mode, size), 8, 13) == size - 1
    ensures DwInc(SizedMode(mode, size)) == DwInc(mode)
  {
    Masks();
    Powers();
    hide And, Or, Shl, Field, WithField, Pow2, Mask, NotMask;
    ShlIsMul(size - 1, 8);
    SetField(mode, 8, 13, size - 1);
    FieldOfWithField(mode, 8, 13, size - 1);
    OtherField(mode, 8, 13, size - 1, 5, 3);
  }

  /** The last element of a side: the elements are `Width` bytes wide and start `Increment`
      apart, except that auxiliary registers are numbered one by one. */
  function LastElement(start: u32, size: nat, dwinc: nat, incremented: bool, aux: bool): u32
    requires size >= 1
  {
    if !incremented then start
    else Wrap(start + (size - 1) / Width(dwinc) * (if aux then 1 else Increment(dwinc)))
  }

  /** The modes whose end addresses are specified. */
  predicate Specified(mode: u32) {
    && DwInc(mode) != CLEAR
    && (Width(DwInc(mode)) == 8 ==> Field(mode, 3, 1) == 0 && Field(mode, 4, 1) == 0)
  }

  /** dmac_calc_src_endaddr and dmac_calc_dst_endaddr: `am` and `dtt` are the bits of the
      address mode and of the target type that concern this side. */
  method EndAddress(addr: u32, mode: u32, ghost am: nat, ghost dtt: nat, amMask: u32, dttMask: u32)
    returns (end: u32)
    requires amMask == Mask(am, 1) && dttMask == Mask(dtt, 1)
    ensures Specified(mode) && dtt in {3, 4} ==>
              end == LastElement(addr, Field(mode, 8, 13) + 1, DwInc(mode),
                                 Field(mode, am, 1) != 0, Field(mode, dtt, 1) != 0)
  {
    BitTest(mode, am);
    BitTest(mode, dtt);
    hide And, Field, Mask;
    end := addr;
    if And(mode, amMask) == 0 {
      return;
    }
    if And(mode, dttMask) != 0 {
      var gap := AuxGap(mode);
      end := Wrap(addr + gap);
    } else {
      var gap := MemoryGap(mode);
      end := Wrap(addr + gap);
    }
  }

  /** dmac_set_desc */
  method SetDesc(source: u32, dest: u32, size: u32, mode: u32) returns (d: Desc)
    ensures d.ctrl == SizedMode(mode, size) && d.llp == 0
    ensures 1 <= size <= 8192 ==> d.ctrl == WithField(mode, 8, 13, size - 1)
    ensures 1 <= size <= 8192 && Specified(mode) ==>
      && d.sar == LastElement(source, size, DwInc(mode), Field(mode, 30, 1) != 0, Field(mode, 4, 1) != 0)
      && d.dar == LastElement(dest, size, DwInc(mode), Field(mode, 31, 1) != 0, Field(mode, 3, 1) != 0)
  {
    Masks();
    hide And, Or, Shl, Field, WithField, Mask, NotMask, LastElement;
    if 1 <= size <= 8192 {
      SizedModeInRange(mode, size);
      SizedModeKeeps(mode, size);
    }
    SizedModeIsWord(mode, size);
    var blksz: u32 := Wrap(size - 1);
    var ctrl: u32 := Or(And(mode, 0xFFFF_FFFF - SIZE_MASK), Wrap(Shl(blksz, 8)));
    var src := EndAddress(source, ctrl, 30, 4, 0x4000_0000, 0x10);
    var dst := EndAddress(dest, ctrl, 31, 3, 0x8000_0000, 0x8);
    d := Desc(ctrl, src, dst, 0);
  }

  lemma SizedModeKeeps(mode: u32, size: u32)
    requires 1 <= size <= 8192
    ensures Field(SizedMode(mode, size), 3, 1) == Field(mode, 3, 1)
    ensures Field(SizedMode(mode, size), 4, 1) == Field(mode, 4, 1)
    ensures Field(SizedMode(mode, size), 30, 1) == Field(mode, 30, 1)
    ensures Field(SizedMode(mode, size), 31, 1) == Field(mode, 31, 1)
  {
    Powers();
    SizedModeInRange(mode, size);
    hide Field, WithField, SizedMode, Pow2;
    OtherField(mode, 8, 13, size - 1, 3, 1);
    OtherField(mode, 8, 13, size - 1, 4, 1);
    OtherField(mode, 8, 13, size - 1, 30, 1);
    OtherField(mode, 8, 13, size - 1, 31, 1);
  }

  /** `size` bytes take ceil(size / Width) elements, and the end address is the last one's. */
  lemma LastElementIsLast(start: u32, size: nat, dwinc: nat, n: nat)
    requires size >= 1 && n * Width(dwinc) >= size > (n - 1) * Width(dwinc)
    ensures n >= 1 && (size - 1) / Width(dwinc) == n - 1
    ensures LastElement(start, size, dwinc, true, false) == Wrap(start + (n - 1) * Increment(dwinc))
  {
    var w := Width(dwinc);
    if n == 0 { assert false; }
    assert w * (n - 1) == (n - 1) * w && w * n == n * w;
    DivMod(size - 1, w, n - 1, size - 1 - w * (n - 1));
  }

  // ------------------------------------------------------------------ sizes out of range

  /** All fields but the size are as in `mode`. */
  predicate OnlySizeDiffers(ctrl: u32, mode: u32) {
    Field(ctrl, 0, 8) == Field(mode, 0, 8) && Field(ctrl, 21, 11) == Field(mode, 21, 11)
  }

  /** What the code does to the fields, for any size: bits 13 to 23 of size - 1 spill into the
      arbitration, interrupt and address-mode fields. */
  lemma Spill(mode: u32, size: u32)
    ensures Field(SizedMode(mode, size), 0, 8) == Field(mode, 0, 8)
    ensures Field(SizedMode(mode, size), 21, 11) == Or(Field(mode, 21, 11), Field(Wrap(size - 1), 13, 11))
  {
    Masks();
    Pow32();
    hide And, Or, Shl, Shr, Field, WithField, Mask, NotMask, Pow2;
    var x := Wrap(Shl(Wrap(size - 1), 8));
    AndClear(mode, 8, 13, 32);
    OtherField(mode, 8, 13, 0, 0, 8);
    OtherField(mode, 8, 13, 0, 21, 11);
    FieldOfOr(And(mode, 0xFFFF_FFFF - SIZE_MASK), x, 0, 8);
    FieldOfOr(And(mode, 0xFFFF_FFFF - SIZE_MASK), x, 21, 11);
    ShiftedFields(Wrap(size - 1));
    OrZero(Field(mode, 0, 8));
  }

  lemma ShiftedFields(s: u32)
    ensures Field(Wrap(Shl(s, 8)), 0, 8) == 0 && Field(Wrap(Shl(s, 8)), 21, 11) == Field(s, 13, 11)
  {
    Powers();
    MorePowers();
    hide Shl, Shr, Low, Pow2;
    assert 256 * s % 0x1_0000_0000 == Wrap(256 * s);
    var x := Wrap(Shl(s, 8));
    ShlIsMul(s, 8);
    ShrIsDiv(x, 0);
    ShrIsDiv(x, 21);
    ShrIsDiv(s, 13);
    LowIsMod(x, 8);
    LowIsMod(x / 0x20_0000, 11);
    LowIsMod(s / 0x2000, 11);
    hide Wrap;
    Slices(s, x);
  }

  lemma Slices(s: u32, x: int)
    requires x == 256 * s % 0x1_0000_0000
    ensures x % 0x100 == 0 && x / 0x20_0000 % 0x800 == s / 0x2000 % 0x800
  {
    var q, r := s / 0x2000, s % 0x2000;
    var q1, q0 := q / 0x800, q % 0x800;
    Euclid(s, 0x2000);
    Euclid(q, 0x800);
    DivMod(256 * s, 0x1_0000_0000, q1, 0x20_0000 * q0 + 256 * r);
    DivMod(x, 0x100, 0x2000 * q0 + r, 0);
    DivMod(x, 0x20_0000, q0, 256 * r);
  }

  lemma MorePowers()
    ensures Pow2(0) == 1 && Pow2(11) == 0x800 && Pow2(21) == 0x20_0000
  {
    assert Pow2(8) == 0x100;
    assert Pow2(16) == 0x1_0000;
  }

  /** A descriptor keeps a mode's other fields exactly when no spilt bit is new to it. */
  lemma KeepsModeIff(mode: u32, size: u32)
    ensures OnlySizeDiffers(SizedMode(mode, size), mode) <==>
              Or(Field(mode, 21, 11), Field(Wrap(size - 1), 13, 11)) == Field(mode, 21, 11)
  {
    Spill(mode, size);
  }

  /** Every mode keeps its other fields and gets this size exactly for 1 to 8192 bytes. */
  lemma SizeFitsIff(size: u32)
    ensures (forall mode: u32 :: OnlySizeDiffers(SizedMode(mode, size), mode)
                              && Field(SizedMode(mode, size), 8, 13) == size - 1) <==> 1 <= size <= 8192
  {
    Powers();
    hide SizedMode, Field, Pow2;
    if 1 <= size <= 8192 {
      forall mode: u32 ensures OnlySizeDiffers(SizedMode(mode, size), mode)
                            && Field(SizedMode(mode, size), 8, 13) == size - 1 {
        SizedModeInRange(mode, size);
        OtherField(mode, 8, 13, size - 1, 0, 8);
        OtherField(mode, 8, 13, size - 1, 21, 11);
      }
    } else {
      assert Field(SizedMode(0, size), 8, 13) < 0x2000;
    }
  }

  /** A transfer of 0 bytes turns every bit from the size field up on; one of 8193 asks for
      one byte and changes the arbitration. */
  lemma OutOfRange()
    ensures SizedMode(0, 0) == 0xFFFF_FF00 && SizedMode(0, 8193) == 0x20_0000
  {
    Powers();
    assert And(0, 0xFFFF_FFFF - SIZE_MASK) == 0;
    hide Shl, Pow2;
    ShlIsMul(0xFFFF_FFFF, 8);
    ShlIsMul(8192, 8);
  }

  // ------------------------------------------------------------------ linking

  const SINGLE := 1
  const AUTO_LINKED := 2
  const MANUAL_LINKED := 3

  /** The operation field. */
  function Op(d: Desc): nat {
    Field(d.ctrl, 0, 2)
  }

  /** What dmac_process_desc makes of one descriptor: linked ones continue by themselves
      unless they were manual, and the last one ends the chain with the wanted interrupt. */
  function Processed(d: Desc, ienable: nat): Desc
    requires ienable <= 1
  {
    if d.llp != 0 then
      (if Op(d) == MANUAL_LINKED then d else SetFieldBound(d.ctrl, 0, 2, 2); d.(ctrl := WithField(d.ctrl, 0, 2, AUTO_LINKED)))
    else
      SetFieldBound(d.ctrl, 0, 2, 1);
      SetFieldBound(WithField(d.ctrl, 0, 2, 1), 29, 1, ienable);
      d.(ctrl := WithField(WithField(d.ctrl, 0, 2, SINGLE), 29, 1, ienable))
  }

  lemma SetFieldBound(w: u32, ofs: nat, n: nat, x: nat)
    requires ofs + n <= 32
    ensures WithField(w, ofs, n, x) < TWO32
  {
    Pow32();
    WithFieldBound(w, ofs, n, x, 32);
  }

  /** The operation and interrupt are as wanted; no other field, address or link changes. */
  lemma ProcessedMeans(d: Desc, ienable: nat, o: nat, m: nat)
    requires ienable <= 1 && 2 <= o && o + m <= 32
    ensures var r := Processed(d, ienable);
      && r.sar == d.sar && r.dar == d.dar && r.llp == d.llp
      && Op(r) == (if d.llp == 0 then 1 else if Op(d) == 3 then 3 else 2)
      && (d.llp == 0 ==> Field(r.ctrl, 29, 1) == ienable)
      && (d.llp != 0 || o + m <= 29 || 30 <= o ==> Field(r.ctrl, o, m) == Field(d.ctrl, o, m))
  {
    Powers();
    hide Field, WithField, Pow2;
    var w := WithField(d.ctrl, 0, 2, 1);
    FieldOfWithField(d.ctrl, 0, 2, 1);
    FieldOfWithField(d.ctrl, 0, 2, 2);
    OtherField(d.ctrl, 0, 2, 1, o, m);
    OtherField(d.ctrl, 0, 2, 2, o, m);
    SetFieldBound(d.ctrl, 0, 2, 1);
    FieldOfWithField(w, 29, 1, ienable);
    OtherField(w, 29, 1, ienable, 0, 2);
    if o + m <= 29 || 30 <= o { OtherField(w, 29, 1, ienable, o, m); }
  }

  /** Processing again changes nothing. */
  lemma ProcessedTwice(d: Desc, ienable: nat)
    requires ienable <= 1
    ensures Processed(Processed(d, ienable), ienable) == Processed(d, ienable)
  {
    Powers();
    hide Field, WithField, Pow2;
    var r := Processed(d, ienable);
    ProcessedMeans(d, ienable, 2, 0);
    if d.llp == 0 {
      WithFieldSame(r.ctrl, 0, 2);
      WithFieldSame(r.ctrl, 29, 1);
    } else if Op(d) != MANUAL_LINKED {
      WithFieldSame(r.ctrl, 0, 2);
    }
  }
}
