/** The delay calibration of arc/arc_timer.c: doubling until a delay is too long, then a
    bitwise search for the longest delay of one millisecond. */
module Calibration {
  import opened Bits

  const TWO64: int := 0x1_0000_0000_0000_0000

  type u64 = x: int | 0 <= x < 0x1_0000_0000_0000_0000

  const LPS_PREC := 8

  // ------------------------------------------------------------------ setting and clearing a bit

  lemma {:induction false} OrBit(x: nat, e: nat)
    requires Low(x, e + 1) == 0
    ensures Or(x, Pow2(e)) == x + Pow2(e) && Low(x + Pow2(e), e) == 0
    decreases e
  {
    if e > 0 {
      assert Low(x / 2, e) == 0;
      OrBit(x / 2, e - 1);
      assert (x + Pow2(e)) / 2 == x / 2 + Pow2(e - 1);
    }
  }

  lemma {:induction false} ClearBit(x: nat, e: nat, k: nat)
    requires Low(x, e + 1) == 0 && e < k && x + Pow2(e) < Pow2(k)
    ensures And(x + Pow2(e), Pow2(k) - 1 - Pow2(e)) == x
  {
    MaskComplement(e, 1, k);
    OneBitMask(e);
    AndClear(x + Pow2(e), e, 1, k);
    WithoutBit(x, e);
  }

  lemma {:induction false} OneBitMask(e: nat)
    ensures Mask(e, 1) == Pow2(e)
  {
    if e > 0 { OneBitMask(e - 1); }
  }

  lemma {:induction false} WithoutBit(x: nat, e: nat)
    requires Low(x, e + 1) == 0
    ensures WithField(x + Pow2(e), e, 1, 0) == x
    decreases e
  {
    if e > 0 {
      assert Low(x / 2, e) == 0;
      WithoutBit(x / 2, e - 1);
      assert (x + Pow2(e)) / 2 == x / 2 + Pow2(e - 1);
    }
  }

  lemma {:induction false} LowOfPow2(e: nat)
    ensures Low(Pow2(e), e) == 0
  {
    if e > 0 { LowOfPow2(e - 1); }
  }

  lemma {:induction false} LowShorter(x: nat, e: nat)
    requires Low(x, e + 1) == 0
    ensures Low(x, e) == 0
    decreases e
  {
    if e > 0 { LowShorter(x / 2, e - 1); }
  }

  lemma Pow64()
    ensures Pow2(64) == TWO64
  {
    Pow32();
    assert Pow2(40) == 0x100_0000_0000;
    assert Pow2(48) == 0x1_0000_0000_0000;
    assert Pow2(56) == 0x100_0000_0000_0000;
  }

  // ------------------------------------------------------------------ the timer

  /** Timer 0 and the calibration globals. `ticks` is how many timer counts a delay of so
      many loops takes, 0 loops standing for the immediate return. */
  class Delay {
    const ticks: u32 -> u32
    var timerCount: u32
    var timerLimit: u32
    var loopsPerJiffy: u64
    var count: u32

    constructor (ticks: u32 -> u32)
      ensures this.ticks == ticks && loopsPerJiffy == 1 && count == 1
    {
      this.ticks := ticks;
      timerCount, timerLimit, loopsPerJiffy, count := 0, 0, 1, 1;
    }

    /** The loops that a delay of `usecs` runs: uint64_t arithmetic, truncated to the
        uint32_t argument it is stored back into. */
    function Loops(usecs: u32): u32
      reads this
      requires count != 0
    {
      Wrap(usecs * loopsPerJiffy % TWO64 / count)
    }

    /** arc_delay_us */
    method DelayUs(usecs: u32)
      requires count != 0
      modifies this`timerCount
      ensures timerCount == (old(timerCount) + ticks(if usecs == 0 then 0 else Loops(usecs))) % (timerLimit + 1)
    {
      if usecs == 0 {
        Pass(ticks(0));
        return;
      }
      Pass(ticks(Wrap(usecs * loopsPerJiffy % TWO64 / count)));
    }

    /** Time passes: the timer counts up to its limit and starts again from 0. */
    method Pass(n: u32)
      modifies this`timerCount
      ensures timerCount == (old(timerCount) + n) % (timerLimit + 1)
    {
      timerCount := (timerCount + n) % (timerLimit + 1);
    }

    /** One trial: reset the counter, delay, and compare. The uint64_t trial value is
        passed as a uint32_t. */
    method TooLong(loops: u64, clock: u32) returns (over: bool)
      requires loopsPerJiffy == 1 && count == 1 && timerLimit == 0xFFFF_FFFF
      modifies this`timerCount
      ensures over == (ticks(Wrap(loops)) > clock)
    {
      timerCount := 0;
      DelayUs(Wrap(loops));
      over := timerCount > clock;
    }

    /** The first power of two tried, from 2^5 up, whose delay is longer than `clock`. */
    ghost predicate FirstOver(m: nat, clock: u32) {
      && 5 <= m <= 63 && ticks(Wrap(Pow2(m))) > clock
      && forall i | 5 <= i < m :: ticks(Wrap(Pow2(i))) <= clock
    }

    ghost predicate NeverOver(clock: u32) {
      forall i | 5 <= i <= 63 :: ticks(Wrap(Pow2(i))) <= clock
    }

    /** What the calibration to `clock` ticks finds: 2^m is the first trial that is too long
        (none if m is 64), and the result is within its gap of being too long. The result 16
        for m = 5 is the starting value, and itself never tried. */
    ghost predicate Found(clock: u32, result: u64, m: nat) {
      && (m == 64 ==> NeverOver(clock) && result == 0)
      && (m != 64 ==> FirstOver(m, clock) && m <= 32)
      && (m != 64 ==> Pow2(m - 1) <= result < Pow2(m) && Low(result, GapBit(m)) == 0)
      && (m != 64 ==> ticks(Wrap(result + Pow2(GapBit(m)))) > clock)
      && (m != 64 && (m > 5 || result != 16) ==> ticks(Wrap(result)) <= clock)
    }

    /** timer_calibrate_delay: the largest trial in its bracket that is not too long, to
        within the gap left by eight halvings; the timer is left reset and its limit as it
        was. With no power of two too long the result is 0. */
    method Calibrate(cpuClock: u32) returns (result: u64, ghost m: nat)
      modifies this
      ensures timerLimit == old(timerLimit) && timerCount == 0 && loopsPerJiffy == result && count == 1000
      ensures Found(cpuClock / 1000, result, m)
    {
      loopsPerJiffy, count := 1, 1;
      var clock := cpuClock / 1000;
      var saved := timerLimit;
      timerLimit := 0xFFFF_FFFF;
      var lpj;
      lpj, m := Double(clock);
      lpj := Refine(lpj / 2, m, clock);
      loopsPerJiffy, count := lpj, 1000;
      timerCount, timerLimit := 0, saved;
      result := lpj;
    }

    ghost predicate Monotone() {
      forall a: u32, b: u32 | a <= b :: ticks(a) <= ticks(b)
    }

    /** Where longer loops never take fewer ticks, the result is not too long exactly if 16
        loops are not: the calibration cannot go below where it starts. */
    lemma NotTooLongIff(clock: u32, result: u64, m: nat)
      requires Found(clock, result, m) && m != 64 && Monotone()
      ensures ticks(Wrap(result)) <= clock <==> ticks(16) <= clock
    {
      hide Pow2, Low, GapBit;
      ResultRange(m, result);
      hide Wrap;
    }

    /** It does happen: with one tick a loop and a clock below a kilohertz the result is 16,
        which takes 16 ticks where none are allowed. */
    lemma SixteenTooLong(cpuClock: u32, result: u64, m: nat)
      requires (forall n: u32 :: ticks(n) == n) && cpuClock < 1000 && Found(cpuClock / 1000, result, m)
      ensures m == 5 && result == 16 && ticks(Wrap(result)) > cpuClock / 1000
    {
      assert Pow2(4) == 16 && Pow2(5) == 32;
      hide Pow2, Low;
      assert ticks(Wrap(Pow2(5))) == 32;
    }

    // ---------------------------------------------------------------- delays after the calibration

    /** The loop count is exact as long as the quotient fits 32 bits. */
    lemma LoopsExactIff(usecs: u32)
      requires count != 0
      ensures Loops(usecs) == usecs * loopsPerJiffy / count <==> usecs * loopsPerJiffy / count < TWO32
    {
      var x := usecs * loopsPerJiffy;
      assert x >= 0;
      hide Loops;
      assert Loops(usecs) == Wrap(x % TWO64 / count) by { LoopsAre(usecs); }
      QuotientFits(x, count);
    }

    lemma LoopsAre(usecs: u32)
      requires count != 0
      ensures Loops(usecs) == Wrap(usecs * loopsPerJiffy % TWO64 / count)
    {}

    /** After a calibration, a delay of 1000 microseconds runs exactly the calibrated number
        of loops; beyond 31 of them it takes at most a thousandth of the clock, and with the
        gap added it would take more. */
    lemma OneMillisecond(cpuClock: u32, m: nat)
      requires count == 1000 && Found(cpuClock / 1000, loopsPerJiffy, m) && m != 64
      ensures Loops(1000) == loopsPerJiffy
      ensures m > 5 ==> ticks(Loops(1000)) <= cpuClock / 1000
      ensures ticks(Wrap(Loops(1000) + Pow2(GapBit(m)))) > cpuClock / 1000
    {
      hide Pow2, Low, GapBit, Loops;
      ResultRange(m, loopsPerJiffy);
      LoopsAre(1000);
      assert 1000 * loopsPerJiffy % TWO64 / 1000 == loopsPerJiffy;
      hide Wrap;
    }

    /** The doubling loop, from 2^4: it ends at the first power that is too long, or when
        the uint64_t overflows to 0. */
    method Double(clock: u32) returns (lpj: u64, ghost m: nat)
      requires loopsPerJiffy == 1 && count == 1 && timerLimit == 0xFFFF_FFFF
      modifies this`timerCount
      ensures m == 64 ==> NeverOver(clock) && lpj == 0
      ensures m != 64 ==> FirstOver(m, clock) && m <= 32 && lpj == Pow2(m) == 2 * Pow2(m - 1)
    {
      lpj := 16;
      m := 4;
      assert Pow2(4) == 16;
      hide Pow2, Wrap;
      while true
        invariant 4 <= m <= 63 && lpj == Pow2(m)
        invariant forall i | 5 <= i <= m :: ticks(Wrap(Pow2(i))) <= clock
        decreases 64 - m
      {
        DoubleWord(m);
        lpj := 2 * lpj % TWO64;
        m := m + 1;
        if lpj == 0 {
          break;
        }
        var over := TooLong(lpj, clock);
        if over {
          AtMost32(m, clock);
          break;
        }
      }
    }

    /** 2^32 is truncated to 0 just as every larger power is, so a first excess comes by then. */
    lemma AtMost32(m: nat, clock: u32)
      requires FirstOver(m, clock)
      ensures m <= 32
    {
      if m > 32 {
        Pow32();
        Truncated(32);
        Truncated(m);
      }
    }

    /** The bitwise search below 2^m. */
    method Refine(start: u64, ghost m: nat, clock: u32) returns (lpj: u64)
      requires loopsPerJiffy == 1 && count == 1 && timerLimit == 0xFFFF_FFFF
      requires m == 64 ==> start == 0
      requires m != 64 ==> 5 <= m <= 32 && start == Pow2(m - 1) && FirstOver(m, clock)
      modifies this`timerCount
      ensures m == 64 ==> lpj == 0
      ensures m != 64 ==> Pow2(m - 1) <= lpj < Pow2(m) && Low(lpj, GapBit(m)) == 0
      ensures m != 64 ==> ticks(Wrap(lpj + Pow2(GapBit(m)))) > clock
      ensures m != 64 && (m > 5 || lpj != 16) ==> ticks(Wrap(lpj)) <= clock
    {
      hide Pow2, Wrap, Low;
      lpj := start;
      var loopbit: u64 := start;
      var precision := LPS_PREC;
      ghost var e: nat := if m == 64 then 0 else m - 1;
      if m != 64 {
        BelowTop(m);
      }
      while true
        invariant 0 <= precision <= LPS_PREC
        invariant m == 64 ==> lpj == loopbit == 0
        invariant m != 64 ==>
          && e == Max(m - 1 - (LPS_PREC - precision), 0) && loopbit == Pow2(e)
          && (e == 0 ==> precision >= LPS_PREC - (m - 1))
          && Pow2(m - 1) <= lpj && lpj + Pow2(e) <= Pow2(m) < TWO64
          && Bracket(lpj, e, clock) && ((m == 5 && lpj == 16) || ticks(Wrap(lpj)) <= clock)
        decreases precision
      {
        if precision == 0 { break; }
        precision := precision - 1;
        HalfBit(e);
        loopbit := loopbit / 2;
        if loopbit == 0 { break; }
        e := e - 1;
        lpj := Trial(lpj, loopbit, e, clock);
      }
    }

    /** The gap of size 2^e above `lpj`, a multiple of 2^e, ends beyond the clock. */
    ghost predicate Bracket(lpj: nat, e: nat, clock: u32) {
      Low(lpj, e) == 0 && ticks(Wrap(lpj + Pow2(e))) > clock
    }

    /** One bit of the search: set it, and clear it again if that is too long. */
    method Trial(lpj0: u64, loopbit: u64, ghost e: nat, clock: u32) returns (lpj: u64)
      requires loopsPerJiffy == 1 && count == 1 && timerLimit == 0xFFFF_FFFF
      requires loopbit == Pow2(e) && lpj0 + Pow2(e + 1) < TWO64 && Bracket(lpj0, e + 1, clock)
      modifies this`timerCount
      ensures lpj0 <= lpj && lpj + Pow2(e) <= lpj0 + Pow2(e + 1) && Bracket(lpj, e, clock)
      ensures lpj != lpj0 ==> ticks(Wrap(lpj)) <= clock
    {
      hide Pow2, Wrap, Or, And, Low;
      Pow2Next(e);
      OrBit(lpj0, e);
      LowShorter(lpj0, e);
      lpj := Or(lpj0, loopbit);
      var over := TooLong(lpj, clock);
      if over {
        ClearBit64(lpj0, e);
        lpj := And(lpj, TWO64 - 1 - loopbit);
      }
    }
  }

  lemma ResultRange(m: nat, result: u64)
    requires 5 <= m <= 32 && Pow2(m - 1) <= result < Pow2(m)
    ensures 16 <= result < TWO32 && Wrap(result) == result
  {
    assert Pow2(4) == 16;
    hide Pow2;
    Pow32();
    Pow2Ordered(4, m - 1);
    Pow2Ordered(m, 32);
  }

  /** A quotient below 2^32 is not touched by the 64-bit product or the 32-bit truncation,
      and a larger one cannot come out of them. */
  lemma QuotientFits(x: nat, c: u32)
    requires c > 0
    ensures Wrap(x % TWO64 / c) == x / c <==> x / c < TWO32
  {
    if x / c < TWO32 {
      var q := x / c;
      Euclid(x, c);
      assert c * q <= c * (TWO32 - 1) by { if q < TWO32 - 1 { Multiple(c, TWO32 - 1, q); } }
      assert c * (TWO32 - 1) + c == c * TWO32;
      assert x < TWO64;
    }
  }

  lemma DoubleWord(m: nat)
    requires m <= 63
    ensures 2 * Pow2(m) % TWO64 == (if m == 63 then 0 else Pow2(m + 1)) && Pow2(m + 1) == 2 * Pow2(m)
  {
    Pow64();
    if m < 63 { Pow2Ordered(m + 1, 63); }
  }

  lemma BelowTop(m: nat)
    requires 5 <= m <= 32
    ensures Pow2(m) == 2 * Pow2(m - 1) < TWO64 && Low(Pow2(m - 1), m - 1) == 0
    ensures m == 5 ==> Pow2(m - 1) == 16
  {
    LowOfPow2(m - 1);
    Pow2Ordered(m, 32);
    Pow32();
  }

  lemma Pow2Next(e: nat)
    ensures Pow2(e + 1) == 2 * Pow2(e) > 0
  {}

  lemma HalfBit(e: nat)
    ensures Pow2(e) / 2 == if e == 0 then 0 else Pow2(e - 1)
  {}

  lemma ClearBit64(x: nat, e: nat)
    requires Low(x, e + 1) == 0 && x + Pow2(e) < TWO64
    ensures And(x + Pow2(e), TWO64 - 1 - Pow2(e)) == x
  {
    Pow64();
    if e >= 64 { Pow2Ordered(64, e); }
    ClearBit(x, e, 64);
  }

  /** The search stops at this bit: eight below the top, or the last. */
  function GapBit(m: nat): nat {
    if m >= 9 then m - 9 else 0
  }

  lemma {:induction false} Truncated(m: nat)
    requires m >= 32
    ensures Wrap(Pow2(m)) == 0
  {
    if m == 32 {
      Pow32();
    } else {
      Truncated(m - 1);
    }
  }

  /** The precision: from 2^9 loops up the gap is at most 1/256 of the result. */
  lemma {:induction false} GapIsSmall(m: nat, result: nat)
    requires m >= 9 && result >= Pow2(m - 1)
    ensures 256 * Pow2(GapBit(m)) <= result
  {
    assert Pow2(m - 7) == 4 * Pow2(m - 9);
    assert Pow2(m - 5) == 4 * Pow2(m - 7);
    assert Pow2(m - 3) == 4 * Pow2(m - 5);
    assert Pow2(m - 1) == 4 * Pow2(m - 3);
  }
}
