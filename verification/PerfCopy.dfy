/** The client of dma_copy in example/arc_feature/udma/main.c: the source is written by the
    CPU, copied by DMA, and compared byte by byte with the destination. */
module PerfCopy {
  import opened Bits
  import opened Text
  import opened Descriptor
  import opened Coherence
  import opened Transfer
  import opened Driver
  import opened DmaCopy
  import Allocator

  /** Byte `i` of the source, and of the destination, before the copy. */
  function Pattern(i: int): byte {
    i % 0x100
  }

  function Blank(i: int): byte {
    0xFF
  }

  /** The CPU reads `f` in the first `n` bytes, and no copy of them is out of date. */
  ghost predicate Holds(c: Chip, h: Hw, base: u32, n: nat, f: int -> byte) {
    forall i | 0 <= i < n :: Fresh(c, h, At(base, i)) && View(c, h, At(base, i)) == f(i)
  }

  ghost function Buffers(s: Setup): set<u32> {
    BytesOf(s.src, s.size) + BytesOf(s.dst, s.size)
  }

  ghost predicate AllProtected(p: Plan, s: Setup) {
    forall a | a in Buffers(s) :: Protected(p, a)
  }

  lemma InBuffers(s: Setup, i: nat)
    requires i < s.size
    ensures At(s.src, i) in Buffers(s) && At(s.dst, i) in Buffers(s)
  {}

  lemma HoldsKept(c: Chip, p: Plan, h: Hw, h': Hw, s: Setup, base: u32, n: nat, f: int -> byte, w: set<u32>)
    requires Holds(c, h, base, n, f) && Evolves(c, p, h, h', w) && n <= s.size && AllProtected(p, s)
    requires (base == s.src || base == s.dst) && forall i | 0 <= i < n :: At(base, i) !in w
    ensures Holds(c, h', base, n, f)
  {
    hide At, Protected, Fresh, View, Buffers, Evolves;
    forall i | 0 <= i < n
      ensures Fresh(c, h', At(base, i)) && View(c, h', At(base, i)) == f(i)
    {
      InBuffers(s, i);
      ByteStays(c, p, h, h', At(base, i), w);
    }
  }

  /** No two bytes of the buffers have the same address. */
  lemma Apart(s: Setup, i: nat, j: nat)
    requires s.src + s.size <= TWO32 && s.dst + s.size <= TWO32 && i < s.size && j < s.size
    requires s.src + s.size <= s.dst || s.dst + s.size <= s.src
    ensures At(s.src, i) != At(s.dst, j)
    ensures i != j ==> At(s.src, i) != At(s.src, j) && At(s.dst, i) != At(s.dst, j)
  {
    InArea(s.src, s.size, i);
    InArea(s.src, s.size, j);
    InArea(s.dst, s.size, i);
    InArea(s.dst, s.size, j);
  }

  lemma BuffersWritable(m: Machine, s: Setup)
    requires m.Valid() && Quiescent(m) && |s.descs| == s.n && Layout(m.chip, m.quiet, s)
    ensures Writable(m.chip, m.plan, m.hw, m.jobs, Buffers(s)) && AllProtected(m.plan, s)
  {
    hide InCopyLine, OwnBytes, At;
    forall a | a in Buffers(s) ensures m.quiet(a) {
      var i :| 0 <= i < s.size && (a == At(s.src, i) || a == At(s.dst, i));
      BufferInCopyLine(m.chip, s, i);
    }
  }

  /** The state after `k` rounds of init_data. */
  ghost predicate Written(c: Chip, p: Plan, h0: Hw, h: Hw, s: Setup, k: nat) {
    && Evolves(c, p, h0, h, Buffers(s))
    && Holds(c, h, s.src, k, Pattern) && Holds(c, h, s.dst, k, Blank)
  }

  lemma NothingWritten(c: Chip, p: Plan, h: Hw, s: Setup)
    ensures Written(c, p, h, h, s, 0)
  {
    EvolvesRefl(c, p, h);
    EvolvesMono(c, p, h, h, {}, Buffers(s));
  }

  /** The two stores of a round. */
  lemma RoundWritten(c: Chip, p: Plan, h0: Hw, h: Hw, h1: Hw, h2: Hw, s: Setup, k: nat)
    requires Written(c, p, h0, h, s, k) && k < s.size && AllProtected(p, s)
    requires s.src + s.size <= TWO32 && s.dst + s.size <= TWO32
    requires s.src + s.size <= s.dst || s.dst + s.size <= s.src
    requires Evolves(c, p, h, h1, {At(s.src, k)}) && Fresh(c, h1, At(s.src, k)) && View(c, h1, At(s.src, k)) == Pattern(k)
    requires Evolves(c, p, h1, h2, {At(s.dst, k)}) && Fresh(c, h2, At(s.dst, k)) && View(c, h2, At(s.dst, k)) == Blank(k)
    ensures Written(c, p, h0, h2, s, k + 1)
  {
    hide At, Protected, Fresh, View, Evolves, Buffers, Pattern, Blank, AllProtected;
    var w1, w2 := {At(s.src, k)}, {At(s.dst, k)};
    forall i | 0 <= i < s.size
      ensures At(s.src, i) !in w2
      ensures i < k ==> At(s.src, i) !in w1 && At(s.dst, i) !in w1 && At(s.dst, i) !in w2
    {
      Apart(s, i, k);
      Apart(s, k, i);
    }
    HoldsKept(c, p, h, h1, s, s.src, k, Pattern, w1);
    HoldsKept(c, p, h, h1, s, s.dst, k, Blank, w1);
    HoldsKept(c, p, h1, h2, s, s.src, k + 1, Pattern, w2);
    HoldsKept(c, p, h1, h2, s, s.dst, k, Blank, w2);
    InBuffers(s, k);
    EvolvesTrans(c, p, h0, h, h1, Buffers(s), w1, Buffers(s));
    EvolvesTrans(c, p, h0, h1, h2, Buffers(s), w2, Buffers(s));
  }

  /** init_data */
  method InitData(m: Machine, s: Setup)
    requires m.Valid() && Quiescent(m) && Shape(m.chip, m.capacity, s) && Layout(m.chip, m.quiet, s)
    modifies m`hw, m`time
    ensures m.Valid() && Quiescent(m) && m.hw.count == old(m.hw.count) && |m.hw.chans| == |old(m.hw.chans)|
    ensures Holds(m.chip, m.hw, s.src, s.size, Pattern) && Holds(m.chip, m.hw, s.dst, s.size, Blank)
  {
    ghost var c, p, h0, w := m.chip, m.plan, m.hw, Buffers(s);
    BuffersWritable(m, s);
    NothingWritten(c, p, h0, s);
    hide Inv, Evolves, Layout, Writable, Buffers, Holds, At, View, Fresh, AllProtected, Written, AllIdle;
    for i := 0 to s.size
      invariant m.Valid() && Writable(c, p, m.hw, m.jobs, w) && Written(c, p, h0, m.hw, s, i)
    {
      ghost var h := m.hw;
      InBuffers(s, i);
      WritableKept(c, p, h, h, m.jobs, {}, w, {At(s.src, i)}) by { EvolvesRefl(c, p, h); }
      m.StoreByte(At(s.src, i), i % 0x100);
      ghost var h1 := m.hw;
      WritableKept(c, p, h, h1, m.jobs, {At(s.src, i)}, w, w);
      WritableKept(c, p, h1, h1, m.jobs, {}, w, {At(s.dst, i)}) by { EvolvesRefl(c, p, h1); }
      m.StoreByte(At(s.dst, i), 0xFF);
      WritableKept(c, p, h1, m.hw, m.jobs, {At(s.dst, i)}, w, w);
      RoundWritten(c, p, h0, h, h1, m.hw, s, i);
    }
    WrittenAll(c, p, h0, m.hw, s);
    StaysIdle(c, p, h0, m.hw, w);
  }

  lemma WrittenAll(c: Chip, p: Plan, h0: Hw, h: Hw, s: Setup)
    requires Written(c, p, h0, h, s, s.size)
    ensures Evolves(c, p, h0, h, Buffers(s))
    ensures Holds(c, h, s.src, s.size, Pattern) && Holds(c, h, s.dst, s.size, Blank)
  {}

  ghost predicate Same(f: int -> byte, g: int -> byte, n: nat) {
    forall i | 0 <= i < n :: f(i) == g(i)
  }

  lemma NothingCompared(f: int -> byte, g: int -> byte)
    ensures Same(f, g, 0)
  {}

  lemma OneCompared(f: int -> byte, g: int -> byte, i: nat, n: nat)
    requires i < n
    ensures Same(f, g, i) && f(i) == g(i) ==> Same(f, g, i + 1)
    ensures f(i) != g(i) ==> !Same(f, g, n)
  {}

  /** cmp_data; `tolerant` is USE_EXTRA_TASK, under which a difference is not reported. */
  method CmpData(m: Machine, s: Setup, tolerant: bool, ghost f: int -> byte, ghost g: int -> byte) returns (ercd: int)
    requires m.Valid() && AllProtected(m.plan, s)
    requires Holds(m.chip, m.hw, s.src, s.size, f) && Holds(m.chip, m.hw, s.dst, s.size, g)
    modifies m`hw, m`time
    ensures m.Valid() && Evolves(m.chip, m.plan, old(m.hw), m.hw, {})
    ensures Holds(m.chip, m.hw, s.src, s.size, f) && Holds(m.chip, m.hw, s.dst, s.size, g)
    ensures ercd == if tolerant || Same(f, g, s.size) then 0 else -1
  {
    ghost var c, p, h0 := m.chip, m.plan, m.hw;
    hide Inv, Evolves, Holds, AllProtected, Same;
    EvolvesRefl(c, p, h0);
    NothingCompared(f, g);
    for i := 0 to s.size
      invariant m.Valid() && Evolves(c, p, h0, m.hw, {})
      invariant Holds(c, m.hw, s.src, s.size, f) && Holds(c, m.hw, s.dst, s.size, g)
      invariant tolerant || Same(f, g, i)
    {
      ghost var h := m.hw;
      var x := LoadByte(m, s, s.src, i, f, g);
      ghost var h1 := m.hw;
      var y := LoadByte(m, s, s.dst, i, f, g);
      EvolvesTrans(c, p, h0, h, h1, {}, {}, {});
      EvolvesTrans(c, p, h0, h1, m.hw, {}, {}, {});
      OneCompared(f, g, i, s.size);
      if x != y && !tolerant {
        return -1;
      }
    }
    ercd := 0;
  }

  /** A byte load from one of the buffers. */
  method LoadByte(m: Machine, s: Setup, base: u32, i: nat, ghost f: int -> byte, ghost g: int -> byte)
    returns (v: byte)
    requires m.Valid() && AllProtected(m.plan, s) && i < s.size && (base == s.src || base == s.dst)
    requires Holds(m.chip, m.hw, s.src, s.size, f) && Holds(m.chip, m.hw, s.dst, s.size, g)
    modifies m`hw, m`time
    ensures m.Valid() && Evolves(m.chip, m.plan, old(m.hw), m.hw, {})
    ensures Holds(m.chip, m.hw, s.src, s.size, f) && Holds(m.chip, m.hw, s.dst, s.size, g)
    ensures base == s.src ==> v == f(i)
    ensures base == s.dst ==> v == g(i)
  {
    hide Inv, Evolves, At, View, Fresh, AllProtected;
    ghost var c, p, h := m.chip, m.plan, m.hw;
    m.Take(Fill(LineOf(m.chip, At(base, i))));
    HoldsKept(c, p, h, m.hw, s, s.src, s.size, f, {});
    HoldsKept(c, p, h, m.hw, s, s.dst, s.size, g, {});
    v := View(m.chip, m.hw, At(base, i));
  }

  lemma CountCleared(c: Chip, p: Plan, h: Hw, jobs: seq<seq<Link>>, begun: nat)
    requires Inv(c, p, h, jobs, begun) && p.copy == None
    ensures Inv(c, p, h.(count := 0), jobs, begun)
    ensures AllIdle(h) ==> AllIdle(h.(count := 0))
  {
    var h' := h.(count := 0);
    forall ch | 0 <= ch < |jobs| ensures EngineOk(c, p, h', ch, jobs[ch]) {
      assert EngineOk(c, p, h, ch, jobs[ch]);
      SameJob(c, p, p, h, h', ch, jobs[ch]);
    }
  }

  /** The copy of a pattern the CPU wrote is that pattern. */
  lemma CopyHolds(c: Chip, h: Hw, h': Hw, s: Setup)
    requires Holds(c, h, s.src, s.size, Pattern)
    requires forall i | 0 <= i < s.size ::
      && View(c, h', At(s.dst, i)) == View(c, h', At(s.src, i)) == Mem(c, h, At(s.src, i))
      && Synced(c, h', At(s.dst, i)) && Synced(c, h', At(s.src, i))
    ensures Holds(c, h', s.src, s.size, Pattern) && Holds(c, h', s.dst, s.size, Pattern)
  {
    hide At, View, Mem, Fresh, Synced;
    forall i | 0 <= i < s.size
      ensures View(c, h', At(s.src, i)) == View(c, h', At(s.dst, i)) == Pattern(i)
      ensures Fresh(c, h', At(s.src, i)) && Fresh(c, h', At(s.dst, i))
    {
      FreshIff(c, h, At(s.src, i));
      SyncedIsFresh(c, h', At(s.src, i));
      SyncedIsFresh(c, h', At(s.dst, i));
    }
  }

  /** perf_dmacpy without its timing. If dma_copy returns, the destination holds what the
      client wrote to the source, and the comparison succeeds, in either configuration. */
  method PerfDmacpy(m: Machine, s: Setup, mode: u32, chns: seq<Allocator.Channel>, extra: Option<bool>, patience: nat)
    returns (ercd: int, done: bool)
    requires m.Valid() && Quiescent(m) && s.n <= |m.hw.chans|
    requires Shape(m.chip, m.capacity, s) && Layout(m.chip, m.quiet, s) && CopyMode(mode)
    requires Prepared(s, chns) && forall i | 0 <= i < |chns| :: chns[i].status != BUSY
    modifies m, chns
    ensures m.Valid()
    ensures done ==> Quiescent(m) && extra != Some(false) && s.callback != 0
    ensures done ==> Holds(m.chip, m.hw, s.src, s.size, Pattern) && Holds(m.chip, m.hw, s.dst, s.size, Pattern)
    ensures done ==> ercd == 0
  {
    hide Layout, Shape, CopyMode, Inv, Evolves, At, View, Fresh, Mem, Synced, AllProtected, Writable, AllIdle;
    ShapeFacts(m.chip, m.capacity, s);
    CountCleared(m.chip, m.plan, m.hw, m.jobs, m.begun);
    m.hw := m.hw.(count := 0);
    InitData(m, s);
    ghost var h := m.hw;
    ercd, done := DmaCopy.DmaCopy(m, s, mode, chns, extra, patience);
    if done {
      CopyHolds(m.chip, h, m.hw, s);
      BuffersWritable(m, s);
      ghost var h1 := m.hw;
      ercd := CmpData(m, s, extra.Some?, Pattern, Pattern);
      StaysIdle(m.chip, m.plan, h1, m.hw, {});
    }
  }
}
