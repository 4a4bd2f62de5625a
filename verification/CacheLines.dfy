/** The cache maintenance loops of arc/arc_cache.c: which lines a range operation issues,
    when its loop ends, and the geometry read by arc_cache_init. */
module CacheLines {
  import opened Bits

  datatype Config = Config(ver: nat, assoc: nat, line: u32, capacity: u32)

  /** The line sizes: powers of two that fit the uint16_t field. */
  ghost predicate IsLine(line: u32) {
    exists n: nat | n <= 15 :: line == Pow2(n)
  }

  /** end_addr and the rounded start_addr, in uint32_t arithmetic. */
  function End(start: u32, size: u32): u32 {
    Wrap(start + size - 1)
  }

  function First(start: u32, line: u32): u32 {
    Masked(start, line);
    And(start, 0xFFFF_FFFF - Wrap(line - 1))
  }

  lemma Masked(start: u32, line: u32)
    ensures And(start, 0xFFFF_FFFF - Wrap(line - 1)) < TWO32
  {
    AndAtMost(start, 0xFFFF_FFFF - Wrap(line - 1));
  }

  // ------------------------------------------------------------------ line arithmetic

  lemma {:induction false} PowerSplit(a: nat, b: nat)
    ensures Pow2(a + b) == Pow2(a) * Pow2(b)
  {
    if a > 0 { PowerSplit(a - 1, b); }
  }

  /** The address space is a whole number of lines. */
  lemma LineCount(line: u32) returns (n: nat, count: nat)
    requires IsLine(line)
    ensures n <= 15 && line == Pow2(n) && 0 < line <= 0x8000 && TWO32 == line * count
  {
    n :| n <= 15 && line == Pow2(n);
    count := Pow2(32 - n);
    hide Pow2;
    Pow32();
    TwoTo15();
    PowerSplit(n, 32 - n);
    PowerSplit(n, 15 - n);
    AtMostProduct(Pow2(n), Pow2(15 - n));
  }

  lemma AtMostProduct(a: int, b: int)
    requires a > 0 && b > 0
    ensures a <= a * b
  {
    assert a * b == a + a * (b - 1);
  }

  lemma FirstIsAligned(start: u32, line: u32)
    requires IsLine(line)
    ensures First(start, line) == start - start % line && First(start, line) % line == 0
  {
    hide And, Pow2, IsLine;
    var n, count := LineCount(line);
    AlignDown(start, n);
    RoundedDown(start, line);
  }

  lemma RoundedDown(a: nat, line: u32)
    requires line > 0
    ensures (a - a % line) % line == 0
  {
    Euclid(a, line);
    DivMod(a - a % line, line, a / line, 0);
  }

  lemma NextLine(a: int, line: u32)
    requires line > 0 && a % line == 0
    ensures (a + line) % line == 0
  {
    Euclid(a, line);
    DivMod(a + line, line, a / line + 1, 0);
  }

  /** Two line addresses are at least a line apart. */
  lemma LinesApart(a: int, b: int, line: u32)
    requires line > 0 && a % line == 0 && b % line == 0 && a < b
    ensures a + line <= b
  {
    Euclid(a, line);
    Euclid(b, line);
    var p, q := a / line, b / line;
    if q < p {
      Multiple(line, p, q);
      assert false;
    }
    Multiple(line, q, p);
  }

  lemma TopLine(a: u32, line: u32)
    requires IsLine(line) && a % line == 0
    ensures a + line <= TWO32 && TWO32 % line == 0
  {
    var n, count := LineCount(line);
    DivMod(TWO32, line, count, 0);
    LinesApart(a, TWO32, line);
  }

  // ------------------------------------------------------------------ what a loop issues

  function Next(a: u32, line: u32): u32 {
    Wrap(a as int + line)
  }

  /** How far a loop address is from passing `end`, an address beyond it having to wrap first. */
  function Rank(a: u32, end: u32): nat {
    (if a > end then TWO32 + 1 else 0) + end - a
  }

  /** The line addresses of the do-while loop from `a`, when it ends at all. */
  function Issued(a: u32, end: u32, line: u32): seq<u32>
    requires 0 < line && end < TWO32 - line
    decreases Rank(a, end)
  {
    var next := Next(a, line);
    if next <= end then [a] + Issued(next, end, line) else [a]
  }

  /** The addresses after the first. */
  ghost function Rest(a: u32, end: u32, line: u32): seq<u32>
    requires 0 < line && end < TWO32 - line
  {
    if Next(a, line) <= end then Issued(Next(a, line), end, line) else []
  }

  lemma IssuedStep(a: u32, end: u32, line: u32)
    requires 0 < line && end < TWO32 - line
    ensures Issued(a, end, line) == [a] + Rest(a, end, line)
    ensures Next(a, line) <= end ==> Rank(Next(a, line), end) < Rank(a, end)
  {}

  lemma Shift(s: seq<u32>, x: u32, rest: seq<u32>)
    ensures s + ([x] + rest) == (s + [x]) + rest
  {}

  /** A line that holds a byte of [start, end]. */
  predicate Meets(l: u32, start: u32, end: u32, line: u32)
    requires line > 0
  {
    l % line == 0 && l <= end && start < l + line
  }

  predicate Ascending(s: seq<u32>) {
    forall i, j | 0 <= i < j < |s| :: s[i] < s[j]
  }

  lemma {:induction false} IssuedFrom(a: u32, end: u32, line: u32)
    requires IsLine(line) && 0 < line && end < TWO32 - line && a % line == 0 && a <= end
    ensures Ascending(Issued(a, end, line)) && Issued(a, end, line)[0] == a
    ensures forall l: u32 :: l in Issued(a, end, line) <==> l % line == 0 && a <= l <= end
    decreases end - a
  {
    hide IsLine;
    var next := a as int + line;
    NextLine(a, line);
    assert Next(a, line) == next;
    assert Issued(a, end, line) == [a] + if next <= end then Issued(next, end, line) else [];
    if next <= end {
      IssuedFrom(next, end, line);
      var rest := Issued(next, end, line);
      hide Issued;
      Prepend(a, rest);
    }
    hide Issued;
    forall l: u32 ensures l in Issued(a, end, line) <==> l % line == 0 && a <= l <= end {
      if l % line == 0 && l > a { LinesApart(a, l, line); }
    }
  }

  lemma Prepend(a: u32, rest: seq<u32>)
    requires Ascending(rest) && rest != [] && a < rest[0]
    ensures Ascending([a] + rest)
  {}

  /** For a range that does not wrap: exactly the lines that meet it, each once, ascending. */
  lemma IssuedExactly(start: u32, size: u32, line: u32)
    requires IsLine(line) && 0 < line && size > 0 && start + size <= TWO32 && End(start, size) < TWO32 - line
    ensures Ascending(Issued(First(start, line), End(start, size), line))
    ensures forall l: u32 :: l in Issued(First(start, line), End(start, size), line) <==>
              Meets(l, start, End(start, size), line)
  {
    hide First, Issued, IsLine, Ascending;
    var a, end := First(start, line), End(start, size);
    FirstIsAligned(start, line);
    IssuedFrom(a, end, line);
    forall l: u32 | l % line == 0 ensures a <= l <==> start < l + line {
      if l < a { LinesApart(l, a, line); }
    }
  }

  /** A range that wraps past the top of the address space meets the lines up from `start`
      and the lines down from `end`. All of them are issued exactly when `start` lies in the
      top line; otherwise only the first one is. */
  lemma WrappedRange(start: u32, size: u32, line: u32)
    requires IsLine(line) && 0 < line && size > 0 && start + size > TWO32 && End(start, size) < TWO32 - line
    requires End(start, size) < First(start, line)
    ensures AllIssued(start, size, line) <==> start >= TWO32 - line
    ensures start < TWO32 - line ==> Issued(First(start, line), End(start, size), line) == [First(start, line)]
  {
    var a, end := First(start, line), End(start, size);
    FirstIsAligned(start, line);
    hide First, End, IsLine;
    TopLine(a, line);
    var top: u32 := TWO32 - line;
    NextLineBack(TWO32, line);
    if start < top {
      OnlyFirst(a, end, line);
      assert top !in Issued(a, end, line);
    } else {
      FromTop(a, end, line);
      hide Issued;
      forall l: u32 | l % line == 0 && (l <= end || start < l + line) ensures l in Issued(a, end, line) {
        if l > end { AboveIsTop(l, start, line); }
      }
    }
  }

  ghost predicate AllIssued(start: u32, size: u32, line: u32)
    requires 0 < line && End(start, size) < TWO32 - line
  {
    forall l: u32 | l % line == 0 && (l <= End(start, size) || start < l + line) ::
      l in Issued(First(start, line), End(start, size), line)
  }

  lemma OnlyFirst(a: u32, end: u32, line: u32)
    requires 0 < line && end < a && a + line < TWO32 && end < TWO32 - line
    ensures Issued(a, end, line) == [a]
  {}

  lemma FromTop(a: u32, end: u32, line: u32)
    requires IsLine(line) && 0 < line && a % line == 0 && TWO32 - line - line < a && end < TWO32 - line
    ensures a == TWO32 - line
    ensures forall l: u32 | l % line == 0 && (l == a || l <= end) :: l in Issued(a, end, line)
  {
    TopLine(a, line);
    NextLineBack(TWO32, line);
    if a < TWO32 - line { LinesApart(a, TWO32 - line, line); assert false; }
    IssuedFrom(0, end, line);
    assert Issued(a, end, line) == [a] + Issued(0, end, line);
  }

  lemma AboveIsTop(l: u32, start: u32, line: u32)
    requires IsLine(line) && 0 < line && l % line == 0 && start >= TWO32 - line && start < l + line
    ensures l == TWO32 - line
  {
    TopLine(l, line);
    NextLineBack(TWO32, line);
    if l < TWO32 - line { LinesApart(l, TWO32 - line, line); }
  }

  lemma NextLineBack(a: int, line: u32)
    requires line > 0 && a % line == 0
    ensures (a - line) % line == 0
  {
    Euclid(a, line);
    DivMod(a - line, line, a / line - 1, 0);
  }

  // ------------------------------------------------------------------ when a loop ends

  /** The loop address after `k` rounds. */
  function Nth(start: u32, line: u32, k: nat): u32 {
    Wrap(First(start, line) + line * k)
  }

  /** The loop leaves when its address passes the end. It does so for some round exactly
      when the last byte is not in the top line of the address space. */
  lemma LoopEndsIff(start: u32, size: u32, line: u32)
    requires line == 0 || IsLine(line)
    ensures (exists k: nat :: k > 0 && Nth(start, line, k) > End(start, size)) <==>
              line > 0 && End(start, size) < TWO32 - line
  {
    var end := End(start, size);
    if line == 0 {
      assert And(start, 0) == 0;
      assert forall k: nat :: line * k == 0;
      assert forall k: nat :: Nth(start, line, k) == 0;
    } else {
      forall k: nat | k > 0 && Nth(start, line, k) > end ensures end < TWO32 - line {
        NthAligned(start, line, k);
        TopLine(Nth(start, line, k), line);
      }
      if end < TWO32 - line {
        var k := ReachesTop(start, line);
        assert Nth(start, line, k) > end;
      }
    }
  }

  lemma StepsAligned(a: int, line: u32, k: int)
    requires line > 0 && a % line == 0
    ensures (a + line * k) % line == 0
  {
    Euclid(a, line);
    assert line * (a / line + k) == line * (a / line) + line * k;
    DivMod(a + line * k, line, a / line + k, 0);
  }

  lemma MulAssoc(a: int, b: int, c: int)
    ensures (a * b) * c == a * (b * c)
  {}

  lemma WrapAligned(x: int, line: u32)
    requires IsLine(line) && line > 0 && x % line == 0
    ensures Wrap(x) % line == 0
  {
    var n, count := LineCount(line);
    hide IsLine;
    var q := -(x / TWO32);
    MulAssoc(line, count, q);
    StepsAligned(x, line, count * q);
    assert Wrap(x) == x + TWO32 * q;
  }

  lemma NthAligned(start: u32, line: u32, k: nat)
    requires IsLine(line) && line > 0
    ensures Nth(start, line, k) % line == 0
  {
    FirstIsAligned(start, line);
    hide First, IsLine;
    StepsAligned(First(start, line), line, k);
    WrapAligned(First(start, line) + line * k, line);
  }

  lemma ReachesTop(start: u32, line: u32) returns (k: nat)
    requires IsLine(line) && line > 0
    ensures k > 0 && Nth(start, line, k) == TWO32 - line
  {
    FirstIsAligned(start, line);
    hide First, IsLine;
    var n, count := LineCount(line);
    var a := First(start, line);
    var q := a / line;
    Euclid(a, line);
    if q >= count {
      if q > count { Multiple(line, q, count); }
      assert false;
    }
    k := 2 * count - 1 - q;
    Distribute(line, count, q);
    assert a + line * k == 2 * TWO32 - line;
  }

  lemma Distribute(line: int, count: int, q: int)
    ensures line * (2 * count - 1 - q) == 2 * (line * count) - line - line * q
  {}

  // ------------------------------------------------------------------ the loop's addresses

  /** The first `n` addresses of a loop from `a`, whatever its end. */
  function Addrs(a: u32, line: u32, n: nat): (s: seq<u32>)
    ensures |s| == n
    decreases n
  {
    if n == 0 then [] else [a] + Addrs(Next(a, line), line, n - 1)
  }

  lemma {:induction false} AddrsSteps(a: u32, line: u32, n: nat, k: nat)
    requires k < n
    ensures (k == 0 ==> Addrs(a, line, n)[k] == a)
    ensures (k + 1 < n ==> Addrs(a, line, n)[k + 1] == Next(Addrs(a, line, n)[k], line))
    decreases k
  {
    hide Next;
    if k > 0 {
      AddrsSteps(Next(a, line), line, n - 1, k - 1);
    } else if n > 1 {
      assert Addrs(Next(a, line), line, n - 1)[0] == Next(a, line);
    }
  }

  lemma {:induction false} AddrsPrefix(a: u32, line: u32, n: nat, k: nat)
    requires k <= n
    ensures Addrs(a, line, n)[..k] == Addrs(a, line, k)
    decreases k
  {
    hide Next;
    if k > 0 { AddrsPrefix(Next(a, line), line, n - 1, k - 1); }
  }

  lemma {:induction false} IssuedPath(a: u32, end: u32, line: u32)
    requires 0 < line && end < TWO32 - line
    ensures var all := Issued(a, end, line);
      && all != [] && all[0] == a && Next(all[|all| - 1], line) > end
      && forall k | 0 <= k < |all| - 1 :: all[k + 1] == Next(all[k], line) <= end
    decreases Rank(a, end)
  {
    IssuedStep(a, end, line);
    hide Rank, Next;
    if Next(a, line) <= end {
      IssuedPath(Next(a, line), end, line);
      var rest := Issued(Next(a, line), end, line);
      assert Issued(a, end, line) == [a] + rest;
      hide Issued;
    }
  }

  /** A loop address is a line address, or 0 where the line size is 0. */
  lemma {:induction false} AddrsAligned(a: u32, line: u32, n: nat, k: nat)
    requires k < n && if line == 0 then a == 0 else IsLine(line) && a % line == 0
    ensures var x := Addrs(a, line, n)[k]; if line == 0 then x == 0 else x % line == 0
    decreases k
  {
    if k > 0 {
      if line > 0 {
        NextLine(a, line);
        WrapAligned(a as int + line, line);
      }
      AddrsAligned(Next(a, line), line, n - 1, k - 1);
    }
  }

  lemma FirstOrZero(start: u32, line: u32)
    requires line == 0 || IsLine(line)
    ensures if line == 0 then First(start, line) == 0 else First(start, line) % line == 0
  {
    if line == 0 { assert And(start, 0) == 0; } else { FirstIsAligned(start, line); }
  }

  /** Where the loop does not end, none of its addresses is beyond the end. */
  lemma AddrsPath(start: u32, end: u32, line: u32, n: nat)
    requires n > 0 && (line == 0 || IsLine(line)) && (line > 0 ==> end >= TWO32 - line)
    ensures var all := Addrs(First(start, line), line, n);
      && all[0] == First(start, line)
      && forall k | 0 <= k < |all| - 1 :: all[k + 1] == Next(all[k], line) <= end
  {
    hide First, Next, Addrs, IsLine;
    var a := First(start, line);
    FirstOrZero(start, line);
    AddrsSteps(a, line, n, 0);
    forall k | 0 <= k < n - 1
      ensures Addrs(a, line, n)[k + 1] == Next(Addrs(a, line, n)[k], line) <= end
    {
      AddrsSteps(a, line, n, k);
      AddrsAligned(a, line, n, k + 1);
      if line > 0 { TopLine(Addrs(a, line, n)[k + 1], line); }
    }
  }

  // ------------------------------------------------------------------ the operations

  /** The maintenance registers of one cache. `issued` is every line address written so far,
      `locks` says whether the last lock of such a history succeeds. */
  class Unit {
    const locks: seq<u32> -> bool
    var config: Config
    var issued: seq<u32>

    ghost predicate Rejects(size: u32)
      reads this
    {
      size == 0 || size > config.capacity
    }

    ghost predicate Ends(start: u32, size: u32)
      reads this
    {
      IsLine(config.line) && 0 < config.line && End(start, size) < TWO32 - config.line
    }

    ghost function Lines(start: u32, size: u32): seq<u32>
      requires Ends(start, size)
      reads this
    {
      Issued(First(start, config.line), End(start, size), config.line)
    }

    /** icache_invalidate_mlines */
    method InvalidateLines(start: u32, size: u32) returns (ercd: int)
      requires !Rejects(size) ==> Ends(start, size)
      modifies this`issued
      ensures Rejects(size) ==> ercd == -1 && issued == old(issued)
      ensures !Rejects(size) ==> ercd == 0 && issued == old(issued) + Lines(start, size)
    {
      if size == 0 || size > config.capacity {
        return -1;
      }
      var line := config.line;
      var end: u32 := End(start, size);
      var addr: u32 := First(start, line);
      ghost var all := Lines(start, size);
      hide First, End, Issued, IsLine, Rank, Next;
      IssuedStep(addr, end, line);
      Shift(issued, addr, Rest(addr, end, line));
      issued := issued + [addr];
      while Next(addr, line) <= end
        invariant line == config.line && 0 < line && end < TWO32 - line
        invariant issued + Rest(addr, end, line) == old(issued) + all
        decreases Rank(addr, end)
      {
        IssuedStep(addr, end, line);
        addr := Next(addr, line);
        IssuedStep(addr, end, line);
        Shift(issued, addr, Rest(addr, end, line));
        issued := issued + [addr];
      }
      return 0;
    }

    /** The lock of the loop's address number `n`, from 0, fails when it is tried. */
    ghost predicate FailsAt(before: seq<u32>, start: u32, n: nat)
      reads this
    {
      !locks(before + Addrs(First(start, config.line), config.line, n + 1))
    }

    /** The lines up to the first that cannot be locked have been issued. */
    ghost predicate StopsAtFailure(before: seq<u32>, start: u32, after: seq<u32>)
      reads this
    {
      exists n: nat ::
        && FailsAt(before, start, n) && (forall k: nat | k < n :: !FailsAt(before, start, k))
        && after == before + Addrs(First(start, config.line), config.line, n + 1)
    }

    /** icache_lock_mlines and dcache_lock_mlines: the lines up to the first that cannot be
        locked, that one included. A loop that would not end by itself ends there too. */
    method LockLines(start: u32, size: u32) returns (ercd: int)
      requires !Rejects(size) ==>
        && (config.line == 0 || IsLine(config.line))
        && (Ends(start, size) || exists n: nat :: FailsAt(issued, start, n))
      modifies this`issued
      ensures Rejects(size) ==> ercd == -1 && issued == old(issued)
      ensures !Rejects(size) && Ends(start, size) ==> LockRun(old(issued), Lines(start, size), issued, ercd)
      ensures !Rejects(size) && !Ends(start, size) ==> ercd == -1 && StopsAtFailure(old(issued), start, issued)
    {
      if size == 0 || size > config.capacity {
        return -1;
      }
      var line := config.line;
      var end: u32 := End(start, size);
      var addr: u32 := First(start, line);
      ghost var before := issued;
      ghost var all := PathFor(start, size);
      ghost var n := 0;
      hide First, End, Next, Ends, Lines, LockRun, FailsAt, Addrs, Path, LockedBelow, StopsAtFailure;
      NoneLocked(before, all);
      while true
        invariant before == old(issued) && n < |all| && addr == all[n] && line == config.line
        invariant Path(before, all, end, line)
        invariant issued == before + all[..n] && LockedBelow(before, all, n)
        decreases |all| - n
      {
        issued := issued + [addr];
        LockStep(before, all, n, end, line, issued);
        if locks(issued) {
          addr := Next(addr, line);
          n := n + 1;
        } else {
          ercd := -1;
          break;
        }
        if addr > end {
          ercd := 0;
          break;
        }
      }
      LockResult(before, start, size, all, issued, ercd);
    }

    lemma NoneLocked(before: seq<u32>, all: seq<u32>)
      ensures before == before + all[..0] && LockedBelow(before, all, 0)
    {}

    ghost predicate Locked(before: seq<u32>, all: seq<u32>, k: nat)
      requires k < |all|
    {
      locks(before + all[..k + 1])
    }

    ghost predicate LockedBelow(before: seq<u32>, all: seq<u32>, n: nat)
      requires n <= |all|
    {
      forall k | 0 <= k < n :: Locked(before, all, k)
    }

    /** Loop addresses up to one behind which the loop ends, or which cannot be locked. */
    ghost predicate Path(before: seq<u32>, all: seq<u32>, end: u32, line: u32) {
      && all != [] && (forall k | 0 <= k < |all| - 1 :: all[k + 1] == Next(all[k], line) <= end)
      && (Next(all[|all| - 1], line) > end || !Locked(before, all, |all| - 1))
    }

    /** The addresses the loop is going to try, at most. */
    ghost method PathFor(start: u32, size: u32) returns (all: seq<u32>)
      requires config.line == 0 || IsLine(config.line)
      requires Ends(start, size) || exists n: nat :: FailsAt(issued, start, n)
      ensures all != [] && all[0] == First(start, config.line) && Path(issued, all, End(start, size), config.line)
      ensures Ends(start, size) ==> all == Lines(start, size)
      ensures !Ends(start, size) ==>
        !Locked(issued, all, |all| - 1) && all == Addrs(First(start, config.line), config.line, |all|)
    {
      var line, a, end := config.line, First(start, config.line), End(start, size);
      if Ends(start, size) {
        all := Lines(start, size);
        hide First, End, IsLine;
        IssuedPath(a, end, line);
      } else {
        var n: nat :| FailsAt(issued, start, n);
        all := Addrs(a, line, n + 1);
        AddrsPath(start, end, line, n + 1);
        hide First, End, IsLine, Addrs;
        assert all[..n + 1] == all;
      }
    }

    lemma LockStep(before: seq<u32>, all: seq<u32>, n: nat, end: u32, line: u32, now: seq<u32>)
      requires Path(before, all, end, line) && n < |all| && LockedBelow(before, all, n)
      requires now == before + all[..n] + [all[n]]
      ensures now == before + all[..n + 1]
      ensures !locks(now) ==> LockRun(before, all, now, -1)
      ensures locks(now) && Next(all[n], line) > end ==> LockRun(before, all, now, 0) && n + 1 == |all|
      ensures locks(now) && Next(all[n], line) <= end ==>
                n + 1 < |all| && all[n + 1] == Next(all[n], line) && LockedBelow(before, all, n + 1)
    {
      hide Next;
      assert all[..n + 1] == all[..n] + [all[n]];
      assert now == before + all[..n + 1];
      assert locks(now) == Locked(before, all, n);
      if n + 1 == |all| { assert all[..n + 1] == all; }
    }

    /** The outcome, in the terms of the contract. */
    lemma LockResult(before: seq<u32>, start: u32, size: u32, all: seq<u32>, after: seq<u32>, ercd: int)
      requires LockRun(before, all, after, ercd)
      requires all != [] && (!Ends(start, size) ==>
        !Locked(before, all, |all| - 1) && all == Addrs(First(start, config.line), config.line, |all|))
      ensures !Ends(start, size) ==> ercd == -1 && StopsAtFailure(before, start, after)
    {
      if !Ends(start, size) {
        var a, line := First(start, config.line), config.line;
        assert !LockedBelow(before, all, |all|);
        var n :| 0 <= n < |all| && !Locked(before, all, n) && LockedBelow(before, all, n) && after == before + all[..n + 1];
        hide First, Ends, LockRun, Addrs;
        FailsHere(before, start, all, n);
        forall k: nat | k < n ensures !FailsAt(before, start, k) {
          assert Locked(before, all, k);
          FailsHere(before, start, all, k);
        }
      }
    }

    lemma FailsHere(before: seq<u32>, start: u32, all: seq<u32>, n: nat)
      requires n < |all| && all == Addrs(First(start, config.line), config.line, |all|)
      ensures FailsAt(before, start, n) <==> !Locked(before, all, n)
      ensures all[..n + 1] == Addrs(First(start, config.line), config.line, n + 1)
    {
      AddrsPrefix(First(start, config.line), config.line, |all|, n + 1);
    }

    /** What a lock operation did to the list `all`: everything, or a prefix whose last
        line, and no earlier one, could not be locked. */
    ghost predicate LockRun(before: seq<u32>, all: seq<u32>, after: seq<u32>, ercd: int) {
      && (ercd == 0 || ercd == -1)
      && (ercd == 0 ==> after == before + all && LockedBelow(before, all, |all|))
      && (ercd == -1 ==> exists n | 0 <= n < |all| ::
            !Locked(before, all, n) && LockedBelow(before, all, n) && after == before + all[..n + 1])
    }

    /** The first of the addresses from `k` on that cannot be locked in its turn, or the length. */
    ghost function FirstFailure(before: seq<u32>, all: seq<u32>, k: nat): (n: nat)
      requires k <= |all|
      ensures k <= n <= |all|
      decreases |all| - k
    {
      if k == |all| || !Locked(before, all, k) then k else FirstFailure(before, all, k + 1)
    }

    lemma {:induction false} FirstFailureIs(before: seq<u32>, all: seq<u32>, k: nat, n: nat)
      requires k <= n <= |all| && (forall i | k <= i < n :: Locked(before, all, i))
      requires n == |all| || !Locked(before, all, n)
      ensures FirstFailure(before, all, k) == n
      decreases n - k
    {
      if k < n { FirstFailureIs(before, all, k + 1, n); }
    }

    /** Result and issued lines are decided by where the first failure is: -1 exactly if there
        is one, and then the lines up to it. */
    lemma LockFailsIff(before: seq<u32>, all: seq<u32>, after: seq<u32>, ercd: int)
      requires LockRun(before, all, after, ercd)
      ensures var n := FirstFailure(before, all, 0);
        (ercd == -1 <==> n < |all|) && after == before + if n < |all| then all[..n + 1] else all
    {
      if ercd == 0 {
        FirstFailureIs(before, all, 0, |all|);
      } else {
        var n :| 0 <= n < |all| && !Locked(before, all, n) && LockedBelow(before, all, n) && after == before + all[..n + 1];
        FirstFailureIs(before, all, 0, n);
      }
    }
  }

  // ------------------------------------------------------------------ the geometry

  /** Writes that arc_cache_init makes to the control registers. */
  datatype Control = DcEnable(mode: u32) | DcInvalidate | IcEnable | IcInvalidate

  function Nibble(cfg: u32, ofs: nat): (f: nat)
    ensures f < 16
  {
    NibbleBound(Shr(cfg, ofs));
    And(Shr(cfg, ofs), 0xF)
  }

  lemma NibbleBound(w: nat)
    ensures And(w, 0xF) < 16
  {
    assert Mask(0, 4) == 0xF by { assert Mask(0, 2) == 3; }
    AndLow(w, 4);
    assert Pow2(4) == 16 by { assert Pow2(2) == 4; }
  }

  /** The line field: `lineBase << field`, truncated to uint16_t. */
  function LineField(cfg: u32, lineBase: nat): (line: u32) {
    Shl(lineBase, Nibble(cfg, 16)) % 0x1_0000
  }

  /** One cache's fields after its build configuration has been read; versions before 4
      change nothing but the version. */
  function Geometry(before: Config, cfg: u32, lineBase: nat): Config {
    var ver := And(cfg, 0xFF);
    if ver < 4 then before.(ver := ver)
    else Config(ver, Shl(1, Nibble(cfg, 8)) % 0x100, LineField(cfg, lineBase), Wrap(Shl(512, Nibble(cfg, 12))))
  }

  class Caches {
    var icache: Config
    var dcache: Config
    var controls: seq<Control>

    /** arc_cache_init, given the two build configuration registers. */
    method Init(dBuild: u32, iBuild: u32)
      modifies this
      ensures dcache == Geometry(old(dcache), dBuild, 16) && icache == Geometry(old(icache), iBuild, 8)
      ensures dcache.ver == dBuild % 0x100 && icache.ver == iBuild % 0x100
      ensures controls == old(controls)
                + (if dcache.ver >= 4 then [DcEnable(0x60), DcInvalidate] else [])
                + (if icache.ver >= 4 then (if iBuild % 16 != 0 then [IcEnable] else []) + [IcInvalidate] else [])
    {
      VersionIs(dBuild);
      VersionIs(iBuild);
      LowNibble(iBuild);
      hide And, Shl, Shr, Pow2, Nibble;
      dcache := dcache.(ver := And(dBuild, 0xFF));
      if dcache.ver >= 4 {
        controls := controls + [DcEnable(0x60), DcInvalidate];
        dcache := dcache.(assoc := Shl(1, Nibble(dBuild, 8)) % 0x100);
        dcache := dcache.(capacity := Wrap(Shl(512, Nibble(dBuild, 12))));
        dcache := dcache.(line := Shl(16, Nibble(dBuild, 16)) % 0x1_0000);
      }
      icache := icache.(ver := And(iBuild, 0xFF));
      if icache.ver >= 4 {
        icache := icache.(assoc := Shl(1, Nibble(iBuild, 8)) % 0x100);
        icache := icache.(capacity := Wrap(Shl(512, Nibble(iBuild, 12))));
        icache := icache.(line := Shl(8, Nibble(iBuild, 16)) % 0x1_0000);
        if And(iBuild, 0xF) != 0 {
          controls := controls + [IcEnable];
        }
        controls := controls + [IcInvalidate];
      }
    }
  }

  lemma NibbleIs(cfg: u32, ofs: nat)
    ensures Nibble(cfg, ofs) == cfg / Pow2(ofs) % 16
  {
    var w := Shr(cfg, ofs);
    assert Mask(0, 4) == 0xF by { assert Mask(0, 2) == 3; }
    assert Pow2(4) == 16 by { assert Pow2(2) == 4; }
    AndLow(w, 4);
    LowIsMod(w, 4);
    ShrIsDiv(cfg, ofs);
    hide And, Low, Shr, Pow2;
  }

  lemma LowNibble(cfg: u32)
    ensures And(cfg, 0xF) == cfg % 16
  {
    NibbleIs(cfg, 0);
  }

  lemma VersionIs(cfg: u32)
    ensures And(cfg, 0xFF) == cfg % 0x100
  {
    assert Mask(0, 8) == 0xFF by { assert Mask(0, 4) == 0xF by { assert Mask(0, 2) == 3; } }
    assert Pow2(8) == 0x100;
    AndLow(cfg, 8);
    LowIsMod(cfg, 8);
    hide And, Low, Pow2;
  }

  /** The geometry in numbers: the version is the low byte; from version 4 on, three fields
      of four bits are exponents of 2, the results truncated to 8, 16 and 32 bits. */
  lemma GeometryIs(before: Config, cfg: u32, lineBase: nat)
    ensures Geometry(before, cfg, lineBase) ==
              if cfg % 0x100 < 4 then before.(ver := cfg % 0x100)
              else Config(cfg % 0x100, Pow2(cfg / 0x100 % 16) % 0x100,
                          Pow2(cfg / 0x1_0000 % 16) * lineBase % 0x1_0000, 512 * Pow2(cfg / 0x1000 % 16) % TWO32)
  {
    hide And, Shl, Nibble, Pow2, Geometry;
    FieldOffsets();
    VersionIs(cfg);
    GeometryOf(before, cfg, lineBase);
    ShiftedNibble(cfg, 8, 0x100, 1);
    ShiftedNibble(cfg, 12, 0x1000, 512);
    ShiftedNibble(cfg, 16, 0x1_0000, lineBase);
    var line, product := Shl(lineBase, Nibble(cfg, 16)), Pow2(cfg / 0x1_0000 % 16) * lineBase;
    assert line == product;
  }

  lemma FieldOffsets()
    ensures Pow2(8) == 0x100 && Pow2(12) == 0x1000 && Pow2(16) == 0x1_0000
  {
    assert Pow2(4) == 16;
  }

  lemma GeometryOf(before: Config, cfg: u32, lineBase: nat)
    ensures Geometry(before, cfg, lineBase) ==
              if And(cfg, 0xFF) < 4 then before.(ver := And(cfg, 0xFF))
              else Config(And(cfg, 0xFF), Shl(1, Nibble(cfg, 8)) % 0x100, Shl(lineBase, Nibble(cfg, 16)) % 0x1_0000,
                          Shl(512, Nibble(cfg, 12)) % TWO32)
  {
    hide And, Shl, Nibble;
  }

  lemma ShiftedNibble(cfg: u32, ofs: nat, p: nat, base: nat)
    requires p == Pow2(ofs) && p > 0
    ensures Shl(base, Nibble(cfg, ofs)) == Pow2(cfg / p % 16) * base
  {
    hide Shl, Nibble, Pow2;
    NibbleIs(cfg, ofs);
    ShlIsMul(base, Nibble(cfg, ofs));
  }

  lemma PowerField(b: nat, f: nat)
    requires b <= 4 && f < 16
    ensures Shl(Pow2(b), f) == Pow2(b + f)
    ensures Shl(Pow2(b), f) % 0x1_0000 == if b + f <= 15 then Pow2(b + f) else 0
  {
    Pow32();
    hide Pow2, Shl;
    ShlIsMul(Pow2(b), f);
    PowerSplit(f, b);
    if b + f <= 15 {
      Pow2Ordered(b + f, 16);
    } else {
      PowerSplit(16, b + f - 16);
      DivMod(Pow2(b + f), 0x1_0000, Pow2(b + f - 16), 0);
    }
  }

  /** A version 4 cache has a line size the loops can use exactly when its line field is
      not so large that uint16_t drops it: below 12 for the data cache, 13 for the other. */
  lemma LineUsableIff(before: Config, cfg: u32, data: bool)
    requires cfg % 0x100 >= 4
    ensures var line, field := Geometry(before, cfg, if data then 16 else 8).line, cfg / 0x1_0000 % 16;
      && (IsLine(line) <==> field < if data then 12 else 13)
      && (IsLine(line) ==> line == (if data then 16 else 8) * Pow2(field))
      && (!IsLine(line) <==> line == 0)
  {
    VersionIs(cfg);
    NibbleIs(cfg, 16);
    assert Pow2(16) == 0x1_0000 by { assert Pow2(8) == 0x100; }
    ShlIsMul(if data then 16 else 8, Nibble(cfg, 16));
    var b := if data then 4 else 3;
    assert Pow2(3) == 8 && Pow2(4) == 16 by { assert Pow2(2) == 4; }
    hide Pow2, Shl, Nibble;
    PowerField(b, Nibble(cfg, 16));
    assert !IsLine(0);
  }

  lemma TwoTo15()
    ensures Pow2(15) == 0x8000
  {
    assert Pow2(8) == 0x100;
  }

  /** From boot, a version 4 cache accepts every size up to 512 << field, and an older one
      keeps capacity 0 and refuses every range. */
  lemma AcceptedSizes(cfg: u32, lineBase: nat, size: u32)
    ensures size == 0 || size > Geometry(Config(0, 0, 0, 0), cfg, lineBase).capacity <==>
              size == 0 || cfg % 0x100 < 4 || size > 512 * Pow2(cfg / 0x1000 % 16)
    ensures cfg % 0x100 >= 4 ==> 512 <= Geometry(Config(0, 0, 0, 0), cfg, lineBase).capacity <= 0x100_0000
  {
    hide Geometry;
    GeometryIs(Config(0, 0, 0, 0), cfg, lineBase);
    var f := cfg / 0x1000 % 16;
    TwoTo15();
    hide Pow2;
    if f < 15 { Pow2Ordered(f, 15); }
    var p := Pow2(f);
    assert 1 <= p <= 0x8000;
    assert 512 * p % TWO32 == 512 * p;
  }
}
