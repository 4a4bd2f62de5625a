/** dma_copy of example/arc_feature/udma/main.c: a buffer copied by several DMA channels, a
    slice each, with the cache flushed before and invalidated after. */
module DmaCopy {
  import opened Bits
  import opened Text
  import opened Descriptor
  import opened Coherence
  import opened Transfer
  import opened Driver
  import Allocator
  import CacheLines
  import Completion

  // ------------------------------------------------------------------ configuring a descriptor

  function WordOf(d: Desc, j: nat): u32 {
    if j == 0 then d.ctrl else if j == 1 then d.sar else if j == 2 then d.dar else d.llp
  }

  /** The first `k` words of a descriptor have been stored. */
  ghost predicate Stored(c: Chip, p: Plan, h: Hw, at: u32, d: Desc, k: nat) {
    forall j | 0 <= j < k :: Owned(c, p, h, At(at, 4 * j), 4) && ViewWord(c, h, At(at, 4 * j)) == WordOf(d, j)
  }

  lemma WordsApart(at: u32, j: nat, k: nat)
    requires j < k < 4
    ensures BytesOf(At(at, 4 * j), 4) !! BytesOf(At(at, 4 * k), 4)
    ensures BytesOf(At(at, 4 * k), 4) <= BytesOf(at, 16)
  {
    hide At;
    forall x, y | 0 <= x < 4 && 0 <= y < 4
      ensures At(At(at, 4 * j), x) != At(At(at, 4 * k), y)
    {
      AtAt(at, 4 * j, x);
      AtAt(at, 4 * k, y);
      AtInjective(at, 4 * j + x, 4 * k + y);
    }
    forall y | 0 <= y < 4
      ensures At(At(at, 4 * k), y) in BytesOf(at, 16)
    {
      AtAt(at, 4 * k, y);
    }
  }

  lemma WordKept(c: Chip, p: Plan, h: Hw, h': Hw, a: u32, w: set<u32>)
    requires Owned(c, p, h, a, 4) && Evolves(c, p, h, h', w) && BytesOf(a, 4) !! w
    ensures Owned(c, p, h', a, 4) && ViewWord(c, h', a) == ViewWord(c, h, a)
  {
    OwnedKept(c, p, h, h', a, 4, w);
    AtZero(a);
    hide At, Owned, Evolves, View, BytesOf;
    assert forall i | 0 <= i < 4 :: ViewOf(c, h')(At(a, i)) == ViewOf(c, h)(At(a, i));
    SameWord(ViewOf(c, h), ViewOf(c, h'), a, 4, 0);
  }

  lemma StoredMore(c: Chip, p: Plan, h: Hw, h': Hw, at: u32, d: Desc, k: nat)
    requires k < 4 && Stored(c, p, h, at, d, k) && Evolves(c, p, h, h', BytesOf(At(at, 4 * k), 4))
    requires Owned(c, p, h', At(at, 4 * k), 4) && ViewWord(c, h', At(at, 4 * k)) == WordOf(d, k)
    ensures Stored(c, p, h', at, d, k + 1)
  {
    hide Owned, Evolves, ViewWord, At, BytesOf, WordOf;
    forall j | 0 <= j < k
      ensures Owned(c, p, h', At(at, 4 * j), 4) && ViewWord(c, h', At(at, 4 * j)) == WordOf(d, j)
    {
      WordsApart(at, j, k);
      WordKept(c, p, h, h', At(at, 4 * j), BytesOf(At(at, 4 * k), 4));
    }
  }

  lemma StoredDesc(c: Chip, p: Plan, h: Hw, at: u32, d: Desc)
    requires Stored(c, p, h, at, d, 4)
    ensures Owned(c, p, h, at, 16) && ViewDesc(c, h, at) == d
  {
    AtZero(at);
    hide At, Fresh, Protected, WordAt;
    assert Owned(c, p, h, at, 16) by {
      forall i | 0 <= i < 16 ensures Protected(p, At(at, i)) && Fresh(c, h, At(at, i)) {
        AtAt(at, i / 4 * 4, i % 4);
        assert Owned(c, p, h, At(at, 4 * (i / 4)), 4);
      }
    }
    assert ViewWord(c, h, At(at, 4 * 0)) == WordOf(d, 0) && ViewWord(c, h, At(at, 4 * 1)) == WordOf(d, 1);
    assert ViewWord(c, h, At(at, 4 * 2)) == WordOf(d, 2) && ViewWord(c, h, At(at, 4 * 3)) == WordOf(d, 3);
  }

  /** One of the four assignments of dmac_set_desc. */
  method StoreNext(m: Machine, at: u32, ghost d: Desc, ghost k: nat, a: u32, v: u32, ghost h0: Hw)
    requires m.Valid() && k < 4 && a == At(at, 4 * k) && v == WordOf(d, k)
    requires Writable(m.chip, m.plan, m.hw, m.jobs, BytesOf(at, 16))
    requires Evolves(m.chip, m.plan, h0, m.hw, BytesOf(at, 16)) && Stored(m.chip, m.plan, m.hw, at, d, k)
    modifies m`hw, m`time
    ensures m.Valid() && Writable(m.chip, m.plan, m.hw, m.jobs, BytesOf(at, 16))
    ensures Evolves(m.chip, m.plan, h0, m.hw, BytesOf(at, 16)) && Stored(m.chip, m.plan, m.hw, at, d, k + 1)
  {
    hide Inv, Evolves, Writable, BytesOf, Stored, Owned, ViewWord, WordOf, At;
    ghost var h, w := m.hw, BytesOf(at, 16);
    if k > 0 { WordsApart(at, 0, k); } else { AtZero(at); PartOf(at, 16, 4); }
    EvolvesRefl(m.chip, m.plan, h);
    WritableKept(m.chip, m.plan, h, h, m.jobs, {}, w, BytesOf(a, 4));
    m.StoreWord(a, v);
    StoredMore(m.chip, m.plan, h, m.hw, at, d, k);
    WritableKept(m.chip, m.plan, h, m.hw, m.jobs, BytesOf(a, 4), w, w);
    EvolvesTrans(m.chip, m.plan, h0, h, m.hw, w, BytesOf(a, 4), w);
  }

  /** dmac_config_desc */
  method ConfigDesc(m: Machine, at: u32, source: u32, dest: u32, size: u32, mode: u32) returns (ercd: int, ghost d: Desc)
    requires m.Valid() && (at != 0 ==> Writable(m.chip, m.plan, m.hw, m.jobs, BytesOf(at, 16)))
    modifies m`hw, m`time
    ensures m.Valid() && ercd == (if at == 0 then -1 else 0)
    ensures at == 0 ==> m.hw == old(m.hw)
    ensures at != 0 ==> Evolves(m.chip, m.plan, old(m.hw), m.hw, BytesOf(at, 16))
    ensures at != 0 ==> Owned(m.chip, m.plan, m.hw, at, 16) && ViewDesc(m.chip, m.hw, at) == d
    ensures at != 0 ==> Writable(m.chip, m.plan, m.hw, m.jobs, BytesOf(at, 16))
    ensures d.llp == 0 && (1 <= size <= 8192 ==> d.ctrl == WithField(mode, 8, 13, size - 1))
    ensures 1 <= size <= 8192 && Specified(mode) ==>
      && d.sar == LastElement(source, size, DwInc(mode), Field(mode, 30, 1) != 0, Field(mode, 4, 1) != 0)
      && d.dar == LastElement(dest, size, DwInc(mode), Field(mode, 31, 1) != 0, Field(mode, 3, 1) != 0)
  {
    var desc := SetDesc(source, dest, size, mode);
    d := desc;
    if at == 0 {
      return -1, d;
    }
    hide Inv, Evolves, Writable, BytesOf, Stored, Owned, ViewDesc, Specified, LastElement, Field, WithField, At;
    ghost var h0 := m.hw;
    EvolvesRefl(m.chip, m.plan, h0);
    EvolvesMono(m.chip, m.plan, h0, h0, {}, BytesOf(at, 16));
    AtZero(at);
    assert Stored(m.chip, m.plan, h0, at, d, 0) by { NothingStored(m.chip, m.plan, h0, at, d); }
    StoreNext(m, at, d, 0, at, desc.ctrl, h0);
    StoreNext(m, at, d, 1, At(at, 4), desc.sar, h0);
    StoreNext(m, at, d, 2, At(at, 8), desc.dar, h0);
    StoreNext(m, at, d, 3, At(at, 12), desc.llp, h0);
    StoredDesc(m.chip, m.plan, m.hw, at, d);
    ercd := 0;
  }

  lemma NothingStored(c: Chip, p: Plan, h: Hw, at: u32, d: Desc)
    ensures Stored(c, p, h, at, d, 0)
  {}

  // ------------------------------------------------------------------ the job

  /** A copy of `size` bytes in `n` slices, where the descriptors are, and the completion
      callback, 0 for none. */
  datatype Setup = Setup(src: u32, dst: u32, size: u32, slice: u32, n: nat, descs: seq<u32>, callback: u32) {
    function Ienable(): (i: nat)
      ensures i <= 1
    {
      if callback != 0 then 1 else 0
    }
  }

  function CopyOf(s: Setup, want: int -> byte, extra: nat): Copy {
    Copy(s.src, s.dst, s.size, s.slice, s.n, s.callback != 0, want, extra)
  }

  ghost predicate InCopyLine(c: Chip, s: Setup, a: u32) {
    CopyLine(c, CopyOf(s, i => 0, 0), LineOf(c, a))
  }

  /** The bytes a channel's start needs: its descriptor and its pointer entry. */
  ghost function OwnBytes(c: Chip, s: Setup, i: nat): set<u32>
    requires i < |s.descs|
  {
    BytesOf(s.descs[i], 16) + BytesOf(Entry(c, i), 4)
  }

  /** Slices of words that fit a descriptor; a range the cache operations accept. */
  ghost predicate Shape(c: Chip, capacity: u32, s: Setup) {
    && s.n >= 1 && |s.descs| == s.n && s.n * s.slice == s.size
    && s.slice % 4 == 0 && 0 < s.slice <= 8192 && 16 <= capacity && s.size <= capacity
    && s.src + s.size <= TWO32 - c.line && s.dst + s.size <= TWO32 - c.line
    && (s.src + s.size <= s.dst || s.dst + s.size <= s.src)
  }

  /** Nobody else writes the lines of the copy, the descriptors or the pointer entries; these
      lie apart from each other and outside the lines of the copy. */
  ghost predicate Layout(c: Chip, quiet: u32 -> bool, s: Setup)
    requires |s.descs| == s.n
  {
    && (forall a: u32 | InCopyLine(c, s, a) :: quiet(a))
    && (forall i | 0 <= i < s.n :: s.descs[i] != 0 && s.descs[i] + 16 <= TWO32 - c.line && Entry(c, i) + 4 <= TWO32 - c.line)
    && (forall i, b | 0 <= i < s.n && b in OwnBytes(c, s, i) :: quiet(b) && !InCopyLine(c, s, b))
    && (forall i | 0 <= i < s.n :: BytesOf(s.descs[i], 16) !! BytesOf(Entry(c, i), 4))
    && (forall i, j | 0 <= i < s.n && 0 <= j < s.n && i != j :: OwnBytes(c, s, i) !! OwnBytes(c, s, j))
  }

  /** The control word dma_prepare makes: words, memory to memory, both addresses incremented. */
  predicate CopyMode(mode: u32) {
    && DwInc(mode) == DW4INC4 && Field(mode, 3, 1) == 0 && Field(mode, 4, 1) == 0
    && Field(mode, 30, 1) != 0 && Field(mode, 31, 1) != 0
  }

  /** What dma_copy puts in descriptor `i`. */
  predicate Configured(s: Setup, i: nat, mode: u32, d: Desc) {
    && d.llp == 0 && s.slice > 0 && d.ctrl == WithField(mode, 8, 13, s.slice - 1)
    && d.sar == At(s.src, i * s.slice + s.slice - 4) && d.dar == At(s.dst, i * s.slice + s.slice - 4)
  }

  lemma LastWord(at: u32, base: u32, o: int, slice: u32)
    requires slice % 4 == 0 && 0 < slice <= 8192 && at == At(base, o)
    ensures LastElement(at, slice, DW4INC4, true, false) == At(base, o + slice - 4)
  {
    assert (slice - 1) / 4 * 4 == slice - 4;
  }

  lemma NextSlice(base: u32, i: nat, slice: u32)
    ensures Wrap(At(base, i * slice) as int + slice) == At(base, (i + 1) * slice)
  {
    var o := i * slice;
    assert (i + 1) * slice == o + slice;
    NextAt(base, o, slice);
  }

  lemma NextAt(base: u32, o: nat, slice: u32)
    ensures Wrap(At(base, o) as int + slice) == At(base, o + slice)
  {}

  ghost function AllOwn(c: Chip, s: Setup): set<u32>
    requires |s.descs| == s.n
  {
    set i, b | 0 <= i < s.n && b in OwnBytes(c, s, i) :: b
  }

  ghost predicate ConfiguredUpTo(c: Chip, p: Plan, h: Hw, s: Setup, mode: u32, k: nat)
    requires |s.descs| == s.n
  {
    forall i | 0 <= i < k && i < s.n :: Owned(c, p, h, s.descs[i], 16) && Configured(s, i, mode, ViewDesc(c, h, s.descs[i]))
  }

  lemma ConfiguredMore(c: Chip, p: Plan, h: Hw, h': Hw, s: Setup, mode: u32, k: nat, quiet: u32 -> bool)
    requires |s.descs| == s.n && k < s.n && Layout(c, quiet, s) && ConfiguredUpTo(c, p, h, s, mode, k)
    requires Evolves(c, p, h, h', BytesOf(s.descs[k], 16))
    requires Owned(c, p, h', s.descs[k], 16) && Configured(s, k, mode, ViewDesc(c, h', s.descs[k]))
    ensures ConfiguredUpTo(c, p, h', s, mode, k + 1)
  {
    hide Owned, Evolves, ViewDesc, BytesOf, InCopyLine, Configured;
    forall i | 0 <= i < k
      ensures Owned(c, p, h', s.descs[i], 16) && ViewDesc(c, h', s.descs[i]) == ViewDesc(c, h, s.descs[i])
    {
      assert OwnBytes(c, s, i) !! OwnBytes(c, s, k);
      DescKept(c, p, h, h', s.descs[i], BytesOf(s.descs[k], 16));
    }
  }

  lemma OwnInAll(c: Chip, s: Setup, i: nat)
    requires |s.descs| == s.n && i < s.n
    ensures OwnBytes(c, s, i) <= AllOwn(c, s) && BytesOf(s.descs[i], 16) <= OwnBytes(c, s, i)
  {}

  /** No channel runs and nothing is a target: the driver may write the descriptors. */
  ghost predicate Quiescent(m: Machine)
    reads m
  {
    && m.plan.copy == None && (forall a: u32 :: !m.plan.target(a))
    && AllIdle(m.hw)
  }

  lemma MayWriteOwn(c: Chip, p: Plan, h: Hw, jobs: seq<seq<Link>>, s: Setup)
    requires |s.descs| == s.n && Layout(c, p.quiet, s) && p.copy == None && (forall a: u32 :: !p.target(a))
    requires |jobs| == |h.chans| && AllIdle(h)
    ensures Writable(c, p, h, jobs, AllOwn(c, s))
  {
    hide InCopyLine, OwnBytes;
  }

  /** The first loop of dma_copy: a descriptor for every slice. */
  method Configure(m: Machine, s: Setup, mode: u32)
    requires m.Valid() && Quiescent(m) && Shape(m.chip, m.capacity, s) && Layout(m.chip, m.quiet, s) && CopyMode(mode)
    modifies m`hw, m`time
    ensures m.Valid() && Evolves(m.chip, m.plan, old(m.hw), m.hw, AllOwn(m.chip, s))
    ensures ConfiguredUpTo(m.chip, m.plan, m.hw, s, mode, s.n)
  {
    hide Inv, Evolves, Writable, Layout, ConfiguredUpTo, BytesOf, AllOwn, OwnBytes, At, ViewDesc, Owned, LastElement,
      Field, WithField, Quiescent;
    ghost var h0, w := m.hw, AllOwn(m.chip, s);
    ghost var c, p := m.chip, m.plan;
    QuiescentWrites(m, s);
    EvolvesRefl(c, p, h0);
    EvolvesMono(c, p, h0, h0, {}, w);
    NoneConfigured(c, p, h0, s, mode);
    var i, chSrc: u32, chDst: u32 := 0, s.src, s.dst;
    SliceZero(s.src, s.slice);
    SliceZero(s.dst, s.slice);
    while i < s.n
      invariant 0 <= i <= s.n && m.Valid() && chSrc == At(s.src, i * s.slice) && chDst == At(s.dst, i * s.slice)
      invariant Writable(c, p, m.hw, m.jobs, w) && Evolves(c, p, h0, m.hw, w) && ConfiguredUpTo(c, p, m.hw, s, mode, i)
    {
      ghost var h, wi := m.hw, BytesOf(s.descs[i], 16);
      OwnInAll(c, s, i);
      WritableKept(c, p, h0, h, m.jobs, w, w, wi);
      DescAddress(c, m.quiet, s, i);
      ghost var d;
      var ercd;
      ercd, d := ConfigDesc(m, s.descs[i], chSrc, chDst, s.slice, mode);
      LastWord(chSrc, s.src, i * s.slice, s.slice);
      LastWord(chDst, s.dst, i * s.slice, s.slice);
      ConfiguredMore(c, p, h, m.hw, s, mode, i, m.quiet);
      WritableKept(c, p, h, m.hw, m.jobs, wi, w, w);
      EvolvesTrans(c, p, h0, h, m.hw, w, wi, w);
      NextSlice(s.src, i, s.slice);
      NextSlice(s.dst, i, s.slice);
      chSrc := Wrap(chSrc as int + s.slice);
      chDst := Wrap(chDst as int + s.slice);
      i := i + 1;
    }
  }

  lemma QuiescentWrites(m: Machine, s: Setup)
    requires m.Valid() && Quiescent(m) && |s.descs| == s.n && Layout(m.chip, m.quiet, s)
    ensures Writable(m.chip, m.plan, m.hw, m.jobs, AllOwn(m.chip, s))
  {
    hide Layout;
    MayWriteOwn(m.chip, m.plan, m.hw, m.jobs, s);
  }

  lemma NoneConfigured(c: Chip, p: Plan, h: Hw, s: Setup, mode: u32)
    requires |s.descs| == s.n
    ensures ConfiguredUpTo(c, p, h, s, mode, 0)
  {}

  lemma SliceZero(base: u32, slice: u32)
    ensures At(base, 0 * slice) == base
  {}

  lemma DescAddress(c: Chip, quiet: u32 -> bool, s: Setup, i: nat)
    requires |s.descs| == s.n && i < s.n && Layout(c, quiet, s)
    ensures s.descs[i] != 0 && s.descs[i] + 16 <= TWO32 - c.line && Entry(c, i) + 4 <= TWO32 - c.line
  {}

  // ------------------------------------------------------------------ flushing

  lemma CopyLinesQuiet(c: Chip, p: Plan, s: Setup, a: u32)
    requires |s.descs| == s.n && Layout(c, p.quiet, s) && InCopyLine(c, s, a)
    ensures QuietLine(c, p, LineOf(c, a))
  {
    forall b: u32 | LineOf(c, b) == LineOf(c, a) ensures p.quiet(b) {
      assert InCopyLine(c, s, b);
    }
  }

  lemma BufferInCopyLine(c: Chip, s: Setup, i: nat)
    requires i < s.size
    ensures InCopyLine(c, s, At(s.src, i)) && InCopyLine(c, s, At(s.dst, i))
  {}

  ghost predicate CleanFrom(c: Chip, h: Hw, base: u32, size: nat) {
    forall i | 0 <= i < size :: !IsDirty(h, LineOf(c, At(base, i)))
  }

  lemma FlushedClean(c: Chip, p: Plan, h: Hw, h': Hw, s: Setup, base: u32, lines: seq<u32>)
    requires |s.descs| == s.n && Layout(c, p.quiet, s) && (base == s.src || base == s.dst)
    requires base + s.size <= TWO32 - c.line && RangeDone(c, p, h, h', base, s.size, lines, true)
    ensures CleanFrom(c, h', base, s.size)
  {
    hide Layout, InCopyLine, QuietLine, IsDirty, LineOf, At;
    forall i | 0 <= i < s.size ensures !IsDirty(h', LineOf(c, At(base, i))) {
      BufferInCopyLine(c, s, i);
      CopyLinesQuiet(c, p, s, At(base, i));
      assert FlushedAt(c, p, h, h', At(base, i));
    }
  }

  lemma CleanStays(c: Chip, p: Plan, h: Hw, h': Hw, s: Setup, base: u32)
    requires |s.descs| == s.n && Layout(c, p.quiet, s) && (base == s.src || base == s.dst)
    requires CleanFrom(c, h, base, s.size) && Evolves(c, p, h, h', {})
    ensures CleanFrom(c, h', base, s.size)
  {
    hide Layout, InCopyLine, QuietLine, IsDirty, LineOf, At, Keeps, Settles, Mem;
    forall i | 0 <= i < s.size ensures !IsDirty(h', LineOf(c, At(base, i))) {
      BufferInCopyLine(c, s, i);
      CopyLinesQuiet(c, p, s, At(base, i));
      assert LineKeptAt(c, p, h, h', At(base, i));
    }
  }

  /** Both buffers are flushed; nobody dirties their lines again. */
  method FlushBuffers(m: Machine, s: Setup)
    requires m.Valid() && Shape(m.chip, m.capacity, s) && Layout(m.chip, m.quiet, s)
    modifies m`hw, m`time
    ensures m.Valid() && Evolves(m.chip, m.plan, old(m.hw), m.hw, {})
    ensures CleanFrom(m.chip, m.hw, s.src, s.size) && CleanFrom(m.chip, m.hw, s.dst, s.size)
  {
    hide Inv, Evolves, Layout, RangeDone, CleanFrom;
    ghost var c, p, h0 := m.chip, m.plan, m.hw;
    PositiveSize(s);
    ghost var lines;
    var ercd;
    ercd, lines := m.RangeLines(s.src, s.size, true);
    FlushedClean(c, p, h0, m.hw, s, s.src, lines);
    ghost var h := m.hw;
    ercd, lines := m.RangeLines(s.dst, s.size, true);
    FlushedClean(c, p, h, m.hw, s, s.dst, lines);
    CleanStays(c, p, h, m.hw, s, s.src);
    EvolvesTrans(c, p, h0, h, m.hw, {}, {}, {});
  }

  lemma PositiveSize(s: Setup)
    requires s.n >= 1 && s.slice > 0 && s.n * s.slice == s.size
    ensures s.size > 0
  {}

  // ------------------------------------------------------------------ the plan of the copy

  function CopyPlan(quiet: u32 -> bool, s: Setup, want: int -> byte, extra: nat): Plan {
    Plan(quiet, (a: u32) => s.dst <= a < s.dst as int + s.size, Some(CopyOf(s, want, extra)))
  }

  lemma SameCopyLine(c: Chip, s: Setup, want: int -> byte, extra: nat, a: u32)
    ensures CopyLine(c, CopyOf(s, want, extra), LineOf(c, a)) <==> InCopyLine(c, s, a)
  {
    var y, z := CopyOf(s, want, extra), CopyOf(s, i => 0, 0);
    hide LineOf, At;
    if CopyLine(c, y, LineOf(c, a)) {
      var i :| 0 <= i < y.size && (LineOf(c, a) == LineOf(c, At(y.src, i)) || LineOf(c, a) == LineOf(c, At(y.dst, i)));
      assert LineOf(c, a) == LineOf(c, At(z.src, i)) || LineOf(c, a) == LineOf(c, At(z.dst, i));
    }
    if CopyLine(c, z, LineOf(c, a)) {
      var i :| 0 <= i < z.size && (LineOf(c, a) == LineOf(c, At(z.src, i)) || LineOf(c, a) == LineOf(c, At(z.dst, i)));
      assert LineOf(c, a) == LineOf(c, At(y.src, i)) || LineOf(c, a) == LineOf(c, At(y.dst, i));
    }
  }

  lemma PlanIsOk(c: Chip, capacity: u32, quiet: u32 -> bool, s: Setup, want: int -> byte, extra: nat)
    requires Shape(c, capacity, s) && Layout(c, quiet, s)
    ensures CopyOk(c, CopyPlan(quiet, s, want, extra), CopyOf(s, want, extra))
  {
    hide InCopyLine, OwnBytes;
    forall a: u32 | CopyLine(c, CopyOf(s, want, extra), LineOf(c, a)) ensures quiet(a) {
      SameCopyLine(c, s, want, extra, a);
    }
  }

  /** Once the buffers are clean and hold what they should, the copy can begin. */
  lemma BeginInv(c: Chip, capacity: u32, quiet: u32 -> bool, h: Hw, jobs: seq<seq<Link>>, s: Setup, want: int -> byte)
    requires Shape(c, capacity, s) && Layout(c, quiet, s) && |jobs| == |h.chans| && s.n <= |jobs|
    requires AllIdle(h) && h.count == 0
    requires CleanFrom(c, h, s.src, s.size) && CleanFrom(c, h, s.dst, s.size)
    requires forall i | 0 <= i < s.size :: h.raw(At(s.src, i)) == want(i)
    ensures Inv(c, CopyPlan(quiet, s, want, 0), h, jobs, 0)
  {
    PlanIsOk(c, capacity, quiet, s, want, 0);
    hide Layout, CopyOk, JobReady, IsDirty, LineOf, At;
    var y := CopyOf(s, want, 0);
    forall l: u32 | CopyLine(c, y, l) ensures !IsDirty(h, l) {
      var i :| 0 <= i < y.size && (l == LineOf(c, At(y.src, i)) || l == LineOf(c, At(y.dst, i)));
    }
    assert h.chans[..0] == [];
  }

  /** The source still reaches memory as it did, and is now in raw memory. */
  lemma SourceSaved(c: Chip, p: Plan, h0: Hw, h: Hw, h': Hw, s: Setup)
    requires |s.descs| == s.n && Layout(c, p.quiet, s) && (forall a: u32 :: !p.target(a))
    requires Evolves(c, p, h0, h, AllOwn(c, s)) && Evolves(c, p, h, h', {}) && CleanFrom(c, h', s.src, s.size)
    ensures forall i | 0 <= i < s.size :: h'.raw(At(s.src, i)) == Mem(c, h0, At(s.src, i))
  {
    hide Keeps, Settles, QuietLine, At, InCopyLine, LineOf, OwnBytes;
    forall i | 0 <= i < s.size
      ensures h'.raw(At(s.src, i)) == Mem(c, h0, At(s.src, i))
    {
      var a := At(s.src, i);
      BufferInCopyLine(c, s, i);
      CopyLinesQuiet(c, p, s, a);
      forall b | b in AllOwn(c, s) ensures LineOf(c, b) != LineOf(c, a) {
        assert !InCopyLine(c, s, b);
        SameLineInCopy(c, s, a, b);
      }
      assert LineKeptAt(c, p, h0, h, a) && LineKeptAt(c, p, h, h', a);
    }
  }

  lemma SameLineInCopy(c: Chip, s: Setup, a: u32, b: u32)
    requires InCopyLine(c, s, a) && !InCopyLine(c, s, b)
    ensures LineOf(c, b) != LineOf(c, a)
  {}

  // ------------------------------------------------------------------ starting the channels

  lemma TwoBits(w: u32, o: nat)
    ensures Field(w, o, 2) == Field(w, o, 1) + 2 * Field(w, o + 1, 1)
  {
    ShrIsDiv(w, o);
    ShrIsDiv(w, o + 1);
    DivModTwice(w, Pow2(o));
    var x := Shr(w, o);
    assert Shr(w, o + 1) == x / 2 by { ShrNext(w, o); }
    hide Shr, Pow2;
    assert Low(x, 2) == x % 2 + 2 * Low(x / 2, 1) && Low(x, 1) == x % 2;
  }

  /** A slice's descriptor, completed, moves exactly the slice. */
  lemma SliceIsReady(s: Setup, i: nat, mode: u32, d: Desc, want: int -> byte, extra: nat)
    requires Configured(s, i, mode, d) && CopyMode(mode)
    requires s.slice % 4 == 0 && 0 < s.slice <= 8192
    ensures SliceDesc(CopyOf(s, want, extra), i, Processed(d, s.Ienable()))
  {
    hide Field, WithField, At, Processed;
    var r := Processed(d, s.Ienable());
    FieldAfter(s.slice, mode, d, s.Ienable(), 5, 3);
    FieldAfter(s.slice, mode, d, s.Ienable(), 3, 2);
    FieldAfter(s.slice, mode, d, s.Ienable(), 30, 2);
    SizeAfter(s.slice, mode, d, s.Ienable());
    ModeBits(mode);
  }

  /** Configuring a slice and completing its descriptor keeps the other fields of the mode. */
  lemma FieldAfter(slice: u32, mode: u32, d: Desc, ienable: nat, o: nat, m: nat)
    requires ienable <= 1 && 0 < slice <= 8192 && d.ctrl == WithField(mode, 8, 13, slice - 1)
    requires 2 <= o && (o + m <= 8 || 21 <= o) && (o + m <= 29 || 30 <= o) && o + m <= 32
    ensures Field(Processed(d, ienable).ctrl, o, m) == Field(mode, o, m)
  {
    hide Field, WithField, Processed;
    OtherField(mode, 8, 13, slice - 1, o, m);
    ProcessedMeans(d, ienable, o, m);
  }

  lemma SizeAfter(slice: u32, mode: u32, d: Desc, ienable: nat)
    requires ienable <= 1 && 0 < slice <= 8192 && d.ctrl == WithField(mode, 8, 13, slice - 1) && d.llp == 0
    ensures var r := Processed(d, ienable);
      && Field(r.ctrl, 8, 13) == slice - 1 && Op(r) == 1 && Field(r.ctrl, 29, 1) == ienable && r.sar == d.sar && r.dar == d.dar
  {
    hide Field, WithField, Processed, Pow2, Op;
    Powers();
    FieldOfWithField(mode, 8, 13, slice - 1);
    ProcessedMeans(d, ienable, 8, 13);
  }

  lemma ModeBits(mode: u32)
    requires CopyMode(mode)
    ensures Field(mode, 3, 2) == 0 && Field(mode, 30, 2) == 3
  {
    assert Pow2(1) == 2;
    hide Field;
    TwoBits(mode, 3);
    TwoBits(mode, 30);
  }

  lemma SliceInTarget(quiet: u32 -> bool, s: Setup, i: nat, d: Desc, want: int -> byte, extra: nat)
    requires SliceDesc(CopyOf(s, want, extra), i, d) && i < s.n && s.n * s.slice == s.size
    requires s.dst + s.size <= TWO32
    ensures InTarget(CopyPlan(quiet, s, want, extra), d)
  {
    var y := CopyOf(s, want, extra);
    OffsetBounds(y, i, s.n);
    hide Elements, Copies, Op, Offset, ElementAt, Past, At;
    forall k, a: u32 | 0 <= k < Elements(d) && Past(a, ElementAt(d.dar, Elements(d), k)) < 4
      ensures s.dst <= a < s.dst as int + s.size
    {
      ElementPlace(y, i, d, k);
      assert 4 * Elements(d) == s.slice;
      PastInArea(a, s.dst, s.size, Offset(y, i) + 4 * k);
    }
  }

  lemma OneChain(c: Chip, at: u32)
    ensures ChainBytes([at]) == BytesOf(at, 16)
  {
    hide At;
    forall b | b in BytesOf(at, 16) ensures b in ChainBytes([at]) {
      var i :| 0 <= i < 16 && b == At(at, i);
      assert [at][0] == at;
    }
  }

  lemma DstNotOwn(c: Chip, capacity: u32, s: Setup, b: u32)
    requires Shape(c, capacity, s) && !InCopyLine(c, s, b)
    ensures !(s.dst <= b < s.dst as int + s.size)
  {
    if s.dst <= b < s.dst as int + s.size {
      BufferInCopyLine(c, s, b - s.dst);
      InArea(s.dst, s.size, b - s.dst);
    }
  }

  /** The jobs of the channels started so far are the descriptors of their slices. */
  ghost predicate JobsAre(jobs: seq<seq<Link>>, s: Setup, k: nat)
    requires |s.descs| == s.n
  {
    k <= |jobs| && k <= s.n && forall i | 0 <= i < k :: |jobs[i]| == 1 && jobs[i][0].at == s.descs[i]
  }

  lemma StartWritable(c: Chip, capacity: u32, quiet: u32 -> bool, p: Plan, h: Hw, jobs: seq<seq<Link>>, s: Setup, i: nat,
                      want: int -> byte, extra: nat)
    requires Shape(c, capacity, s) && Layout(c, quiet, s) && p == CopyPlan(quiet, s, want, extra)
    requires i < s.n && JobsAre(jobs, s, i) && |jobs| == |h.chans|
    requires forall ch | i <= ch < |jobs| :: Idle(h.chans[ch])
    ensures Writable(c, p, h, jobs, OwnBytes(c, s, i))
  {
    var w := OwnBytes(c, s, i);
    forall a | a in w ensures Protected(p, a) && !CopyLine(c, p.copy.value, LineOf(c, a)) {
      hide InCopyLine, CopyLine, LineOf, Shape, BytesOf;
      SameCopyLine(c, s, want, extra, a);
      DstNotOwn(c, capacity, s, a);
    }
    hide InCopyLine, CopyLine, LineOf, Protected, CopyPlan;
    forall ch | 0 <= ch < |jobs| && Running(h.chans[ch]) ensures JobBytesAvoid(c, ch, jobs[ch], w) {
      JobApart(c, quiet, s, ch, i, jobs[ch]);
    }
  }

  lemma JobApart(c: Chip, quiet: u32 -> bool, s: Setup, ch: nat, i: nat, job: seq<Link>)
    requires |s.descs| == s.n && Layout(c, quiet, s) && ch < s.n && i < s.n && ch != i
    requires |job| == 1 && job[0].at == s.descs[ch]
    ensures JobBytesAvoid(c, ch, job, OwnBytes(c, s, i))
  {
    hide InCopyLine, At, Entry;
    var w := OwnBytes(c, s, i);
    assert OwnBytes(c, s, ch) !! w;
    forall k | 0 <= k < 4 ensures At(Entry(c, ch), k) !in w { assert At(Entry(c, ch), k) in OwnBytes(c, s, ch); }
    forall k | 0 <= k < 16 ensures At(s.descs[ch], k) !in w { assert At(s.descs[ch], k) in OwnBytes(c, s, ch); }
  }

  /** The `i`th start has all it asks for. */
  lemma StartReady(m: Machine, s: Setup, i: nat, mode: u32, want: int -> byte)
    requires m.Valid() && Shape(m.chip, m.capacity, s) && Layout(m.chip, m.quiet, s) && CopyMode(mode)
    requires m.plan == CopyPlan(m.quiet, s, want, 0) && m.begun == i < s.n && JobsAre(m.jobs, s, i)
    requires Owned(m.chip, m.plan, m.hw, s.descs[i], 16) && Configured(s, i, mode, ViewDesc(m.chip, m.hw, s.descs[i]))
    ensures m.CanStart(i, s.descs[i], s.Ienable(), [s.descs[i]])
  {
    var c, p, at := m.chip, m.plan, s.descs[i];
    var d := ViewDesc(c, m.hw, at);
    ChannelsIdle(m);
    assert Writable(c, p, m.hw, m.jobs, m.StartBytes(i, [at])) by {
      StartWritable(c, m.capacity, m.quiet, p, m.hw, m.jobs, s, i, want, 0);
      OneChain(c, at);
    }
    SliceIsReady(s, i, mode, d, want, 0);
    SliceInTarget(m.quiet, s, i, Processed(d, s.Ienable()), want, 0);
    OneLinkChain(c, p, m.hw, m.quiet, s, i);
    hide Inv, Writable, Owned, Layout, SliceDesc, InTarget, BytesOf, Copies, CopyMode, ViewDesc, Processed, Entry, Chain;
    EntryApart(c, m.quiet, s, i);
    assert JobOf(c, m.hw, [at], s.Ienable())[0] == Link(at, Processed(d, s.Ienable()));
  }

  lemma OneLinkChain(c: Chip, p: Plan, h: Hw, quiet: u32 -> bool, s: Setup, i: nat)
    requires |s.descs| == s.n && i < s.n && Layout(c, quiet, s)
    requires Owned(c, p, h, s.descs[i], 16) && ViewDesc(c, h, s.descs[i]).llp == 0
    ensures Chain(c, p, h, [s.descs[i]], s.descs[i])
    ensures Entry(c, i) + 4 <= TWO32 - c.line
  {
    DescAddress(c, quiet, s, i);
    hide Layout, Owned, BytesOf, ViewDesc;
  }

  lemma EntryApart(c: Chip, quiet: u32 -> bool, s: Setup, i: nat)
    requires |s.descs| == s.n && i < s.n && Layout(c, quiet, s)
    ensures BytesOf(s.descs[i], 16) !! BytesOf(Entry(c, i), 4)
  {}

  lemma ChannelsIdle(m: Machine)
    requires m.Valid() && m.plan.copy.Some?
    ensures |m.jobs| == |m.hw.chans| && m.plan.copy.value.used <= |m.jobs|
    ensures forall ch | m.begun <= ch < |m.jobs| :: Idle(m.hw.chans[ch])
  {}

  lemma ConfiguredKept(c: Chip, p: Plan, h: Hw, h': Hw, s: Setup, mode: u32, i: nat, k: nat, quiet: u32 -> bool)
    requires |s.descs| == s.n && i < s.n && k < s.n && i != k && Layout(c, quiet, s)
    requires Owned(c, p, h, s.descs[k], 16) && Configured(s, k, mode, ViewDesc(c, h, s.descs[k]))
    requires StartKeeps(c, p, h, h', i, OwnBytes(c, s, i))
    ensures Owned(c, p, h', s.descs[k], 16) && Configured(s, k, mode, ViewDesc(c, h', s.descs[k]))
  {
    assert OwnBytes(c, s, k) !! OwnBytes(c, s, i);
    hide Layout, Owned, Configured, ViewDesc, BytesOf, Keeps, LinesKept;
    DescKeptBy(c, p, h, h', s.descs[k], OwnBytes(c, s, i));
  }

  /** The channels are the ones dma_prepare reserved: channel `i` for slice `i`. */
  ghost predicate Prepared(s: Setup, chns: seq<Allocator.Channel>)
    reads chns
  {
    && |chns| == s.n == |s.descs|
    && (forall i, j | 0 <= i < j < |chns| :: chns[i] != chns[j])
    && (forall i | 0 <= i < |chns| :: chns[i].channel == i && chns[i].desc == s.descs[i])
  }

  ghost predicate ConfiguredFrom(c: Chip, p: Plan, h: Hw, s: Setup, mode: u32, k: nat)
    requires |s.descs| == s.n
  {
    forall i | k <= i < s.n :: Owned(c, p, h, s.descs[i], 16) && Configured(s, i, mode, ViewDesc(c, h, s.descs[i]))
  }

  /** The first `k` channels are enabled, and triggered by software if that is their source. */
  ghost predicate Triggered(h: Hw, chns: seq<Allocator.Channel>, k: nat)
    reads chns
  {
    k <= |h.chans| && k <= |chns| && forall i | 0 <= i < k ::
      Phase(h.chans[i]) == if chns[i].source == 0 then 2 else 1
  }

  /** The second loop of dma_copy: every channel is started. */
  method StartAll(m: Machine, s: Setup, mode: u32, chns: seq<Allocator.Channel>, ghost want: int -> byte)
    returns (ercd: int)
    requires m.Valid() && Shape(m.chip, m.capacity, s) && Layout(m.chip, m.quiet, s) && CopyMode(mode)
    requires m.plan == CopyPlan(m.quiet, s, want, 0) && m.begun == 0 && s.n <= |m.hw.chans|
    requires ConfiguredFrom(m.chip, m.plan, m.hw, s, mode, 0)
    requires Prepared(s, chns) && forall i | 0 <= i < |chns| :: chns[i].status != BUSY
    modifies m`hw, m`time, m`jobs, m`begun, chns
    ensures m.Valid() && m.begun == s.n && ercd == 0 && Triggered(m.hw, chns, s.n) && JobsAre(m.jobs, s, s.n)
  {
    hide Inv, Layout, Shape, CopyMode, CopyPlan, JobsAre, ConfiguredFrom;
    ShapeFacts(m.chip, m.capacity, s);
    ghost var c, p := m.chip, m.plan;
    ercd := 0;
    NoJobs(m.jobs, s);
    var i := 0;
    while i < s.n
      invariant 0 <= i <= s.n && m.Valid() && m.begun == i && ercd == 0 && s.n <= |m.hw.chans|
      invariant JobsAre(m.jobs, s, i) && ConfiguredFrom(c, p, m.hw, s, mode, i)
      invariant Prepared(s, chns) && forall k | i <= k < |chns| :: chns[k].status != BUSY
      invariant Triggered(m.hw, chns, i)
    {
      ercd := StartOne(m, s, mode, i, chns[i], want);
      i := i + 1;
    }
  }

  /** One round of that loop. */
  method StartOne(m: Machine, s: Setup, mode: u32, i: nat, chn: Allocator.Channel, ghost want: int -> byte)
    returns (ercd: int)
    requires m.Valid() && Shape(m.chip, m.capacity, s) && Layout(m.chip, m.quiet, s) && CopyMode(mode)
    requires m.plan == CopyPlan(m.quiet, s, want, 0) && m.begun == i < s.n <= |m.hw.chans| && |s.descs| == s.n
    requires JobsAre(m.jobs, s, i) && ConfiguredFrom(m.chip, m.plan, m.hw, s, mode, i)
    requires chn.channel == i && chn.desc == s.descs[i] && chn.status != BUSY
    modifies m`hw, m`time, m`jobs, m`begun, chn
    ensures m.Valid() && m.begun == i + 1 && ercd == 0 && |m.hw.chans| == |old(m.hw.chans)|
    ensures JobsAre(m.jobs, s, i + 1) && ConfiguredFrom(m.chip, m.plan, m.hw, s, mode, i + 1)
    ensures chn.channel == i && chn.desc == s.descs[i] && chn.source == old(chn.source) && chn.status == BUSY
    ensures Phase(m.hw.chans[i]) == if chn.source == Allocator.REQ_SOFT then 2 else 1
    ensures forall k | 0 <= k < |m.hw.chans| && k != i :: Phase(m.hw.chans[k]) == Phase(old(m.hw.chans[k]))
  {
    hide Inv, Layout, Shape, Owned, Configured, ViewDesc, CopyMode, CopyPlan, JobReady, StartKeeps, OwnBytes, JobsAre,
      ConfiguredFrom, Processed;
    ghost var c, p, h, jobs := m.chip, m.plan, m.hw, m.jobs;
    assert Owned(c, p, h, s.descs[i], 16) && Configured(s, i, mode, ViewDesc(c, h, s.descs[i])) by {
      Here(c, p, h, s, mode, i);
    }
    StartReady(m, s, i, mode, want);
    DescAddress(c, m.quiet, s, i);
    PlanHasCopy(m.quiet, s, want);
    ghost var chain := [s.descs[i]];
    assert m.StartBytes(i, chain) == OwnBytes(c, s, i) by { StartIsOwn(m, s, i); }
    ercd := m.StartChannel(chn, s.callback, chain);
    Started(c, p, h, m.hw, m.quiet, s, mode, i);
    OneMoreJob(jobs, s, i, m.jobs[i]);
  }

  lemma StartIsOwn(m: Machine, s: Setup, i: nat)
    requires |s.descs| == s.n && i < s.n
    ensures m.StartBytes(i, [s.descs[i]]) == OwnBytes(m.chip, s, i)
  {
    hide At, BytesOf, ChainBytes, Entry;
    OneChain(m.chip, s.descs[i]);
  }

  lemma Here(c: Chip, p: Plan, h: Hw, s: Setup, mode: u32, i: nat)
    requires |s.descs| == s.n && i < s.n && ConfiguredFrom(c, p, h, s, mode, i)
    ensures Owned(c, p, h, s.descs[i], 16) && Configured(s, i, mode, ViewDesc(c, h, s.descs[i]))
  {}

  lemma PlanHasCopy(quiet: u32 -> bool, s: Setup, want: int -> byte)
    ensures CopyPlan(quiet, s, want, 0).copy.Some?
  {}

  lemma NoJobs(jobs: seq<seq<Link>>, s: Setup)
    requires |s.descs| == s.n
    ensures JobsAre(jobs, s, 0)
  {}

  lemma OneMoreJob(jobs: seq<seq<Link>>, s: Setup, i: nat, job: seq<Link>)
    requires |s.descs| == s.n && i < s.n && i < |jobs| && JobsAre(jobs, s, i)
    requires |job| == 1 && job[0].at == s.descs[i]
    ensures JobsAre(jobs[i := job], s, i + 1)
  {}

  lemma Started(c: Chip, p: Plan, h: Hw, h': Hw, quiet: u32 -> bool, s: Setup, mode: u32, i: nat)
    requires |s.descs| == s.n && i < s.n && Layout(c, quiet, s) && ConfiguredFrom(c, p, h, s, mode, i)
    requires StartKeeps(c, p, h, h', i, OwnBytes(c, s, i))
    ensures ConfiguredFrom(c, p, h', s, mode, i + 1) && |h'.chans| == |h.chans|
    ensures forall k | 0 <= k < |h.chans| && k != i :: Phase(h'.chans[k]) == Phase(h.chans[k])
  {
    hide Layout, Owned, Configured, ViewDesc, OwnBytes, Keeps, LinesKept;
    forall k | i + 1 <= k < s.n
      ensures Owned(c, p, h', s.descs[k], 16) && Configured(s, k, mode, ViewDesc(c, h', s.descs[k]))
    {
      ConfiguredKept(c, p, h, h', s, mode, i, k, quiet);
    }
  }

  // ------------------------------------------------------------------ waiting

  lemma {:induction false} AllDone(es: seq<Engine>)
    ensures DoneCount(es) <= |es|
    ensures DoneCount(es) == |es| ==> forall i | 0 <= i < |es| :: es[i] == Done
  {
    if es != [] {
      AllDone(es[..|es| - 1]);
      assert forall i | 0 <= i < |es| - 1 :: es[i] == es[..|es| - 1][i];
    }
  }

  /** When every callback has been counted, every channel is done: the count cannot reach the
      number of channels and extra tasks in any other way. */
  lemma CountedAll(c: Chip, p: Plan, h: Hw, jobs: seq<seq<Link>>, begun: nat)
    requires Inv(c, p, h, jobs, begun) && p.copy.Some? && begun == p.copy.value.used
    requires h.count >= begun + p.copy.value.extra
    ensures begun <= |h.chans| && AllIdle(h) && forall ch | 0 <= ch < begun :: h.chans[ch] == Done
    ensures begun > 0 ==> p.copy.value.irq
  {
    if begun > 0 { assert SliceOk(p.copy.value, h, 0, jobs[0]); }
    hide EnginesOk, CopyOk, CopyLine, IsDirty, Arrived, SliceDesc;
    AllDone(h.chans[..begun]);
    assert forall ch | 0 <= ch < begun :: h.chans[ch] == h.chans[..begun][ch];
  }

  /** There is never more to count than one callback for every channel, and the extra task. */
  lemma CountBound(c: Chip, p: Plan, h: Hw, jobs: seq<seq<Link>>, begun: nat)
    requires Inv(c, p, h, jobs, begun) && p.copy.Some?
    ensures h.count <= begun + p.copy.value.extra
  {
    hide EnginesOk, CopyOk, CopyLine, IsDirty, SliceOk;
    AllDone(h.chans[..begun]);
  }

  /** The wait loop of dma_copy, for as long as it is watched: it is left exactly when the
      count is reached. */
  method Wait(m: Machine, target: nat, patience: nat) returns (reached: bool)
    requires m.Valid()
    modifies m`hw, m`time
    ensures m.Valid() && Evolves(m.chip, m.plan, old(m.hw), m.hw, {})
    ensures reached <==> m.hw.count >= target
    ensures old(m.hw.count) >= target ==> m.hw == old(m.hw) && m.time == old(m.time)
  {
    hide Inv, Evolves;
    ghost var h0 := m.hw;
    EvolvesRefl(m.chip, m.plan, h0);
    for i := 0 to patience
      invariant m.Valid() && Evolves(m.chip, m.plan, h0, m.hw, {})
      invariant h0.count >= target ==> m.hw == h0 && m.time == old(m.time)
    {
      if m.hw.count >= target {
        return true;
      }
      ghost var h := m.hw;
      m.Environment();
      EvolvesTrans(m.chip, m.plan, h0, h, m.hw, {}, {}, {});
    }
    return m.hw.count >= target;
  }

  /** All slices done: the destination's raw memory is what the source's was. */
  lemma AllArrived(c: Chip, p: Plan, h: Hw, jobs: seq<seq<Link>>, y: Copy)
    requires CopyInv(c, h, jobs, y, y.used) && y.slice > 0
    requires forall ch | 0 <= ch < y.used :: h.chans[ch] == Done
    ensures forall i | 0 <= i < y.size :: h.raw(At(y.dst, i)) == y.want(i)
    ensures CleanFrom(c, h, y.src, y.size) && CleanFrom(c, h, y.dst, y.size)
  {
    hide IsDirty, LineOf, At, Offset;
    forall i | 0 <= i < y.size
      ensures h.raw(At(y.dst, i)) == y.want(i)
    {
      var ch := SliceOfByte(y, i);
      assert SliceOk(y, h, ch, jobs[ch]);
      assert h.raw(DstByte(y, ch, i - Offset(y, ch))) == y.want(Offset(y, ch) + (i - Offset(y, ch)));
    }
    forall i | 0 <= i < y.size
      ensures !IsDirty(h, LineOf(c, At(y.src, i))) && !IsDirty(h, LineOf(c, At(y.dst, i)))
    {
      DstInCopyLine(c, y, i);
    }
  }

  lemma SliceOfByte(y: Copy, i: nat) returns (ch: nat)
    requires y.slice > 0 && y.used * y.slice == y.size && i < y.size
    ensures ch < y.used && Offset(y, ch) <= i < Offset(y, ch) + y.slice
  {
    ch := i / y.slice;
    Euclid(i, y.slice);
    assert y.slice * ch == Offset(y, ch);
    if ch >= y.used {
      Distribute(y.slice, ch, y.used);
      assert false;
    }
  }

  lemma Distribute(slice: nat, ch: nat, used: nat)
    requires ch >= used
    ensures slice * ch >= used * slice
  {
    assert slice * ch == slice * used + slice * (ch - used);
  }

  // ------------------------------------------------------------------ reading the result

  ghost predicate Shows(c: Chip, h: Hw, base: u32, size: nat, want: int -> byte) {
    forall i | 0 <= i < size :: Synced(c, h, At(base, i)) && View(c, h, At(base, i)) == want(i)
  }

  /** Nothing is a target and no copy is in progress any more. */
  function RestPlan(quiet: u32 -> bool): Plan {
    Plan(quiet, (a: u32) => false, None)
  }

  lemma RestInv(c: Chip, p: Plan, h: Hw, jobs: seq<seq<Link>>, begun: nat)
    requires Inv(c, p, h, jobs, begun) && AllIdle(h)
    ensures Inv(c, RestPlan(p.quiet), h, jobs, 0)
  {
    hide JobReady;
  }

  lemma InvalidatedShows(c: Chip, p: Plan, h: Hw, h': Hw, s: Setup, base: u32, lines: seq<u32>, want: int -> byte)
    requires |s.descs| == s.n && Layout(c, p.quiet, s) && p == RestPlan(p.quiet) && (base == s.src || base == s.dst)
    requires base + s.size <= TWO32 - c.line && RangeDone(c, p, h, h', base, s.size, lines, false)
    requires forall i | 0 <= i < s.size :: Mem(c, h, At(base, i)) == want(i)
    ensures Shows(c, h', base, s.size, want)
  {
    hide Layout, InCopyLine, QuietLine, LineOf, At, Mem, View, Synced;
    forall i | 0 <= i < s.size
      ensures Synced(c, h', At(base, i)) && View(c, h', At(base, i)) == want(i)
    {
      BufferInCopyLine(c, s, i);
      CopyLinesQuiet(c, p, s, At(base, i));
      assert InvalidatedAt(c, p, h, h', At(base, i));
    }
  }

  lemma MemKept(c: Chip, p: Plan, h: Hw, h': Hw, s: Setup, base: u32, want: int -> byte)
    requires |s.descs| == s.n && Layout(c, p.quiet, s) && p == RestPlan(p.quiet) && (base == s.src || base == s.dst)
    requires Evolves(c, p, h, h', {}) && forall i | 0 <= i < s.size :: Mem(c, h, At(base, i)) == want(i)
    ensures forall i | 0 <= i < s.size :: Mem(c, h', At(base, i)) == want(i)
  {
    hide Layout, InCopyLine, QuietLine, LineOf, At, Mem, Keeps, Settles;
    forall i | 0 <= i < s.size ensures Mem(c, h', At(base, i)) == want(i) {
      BufferInCopyLine(c, s, i);
      CopyLinesQuiet(c, p, s, At(base, i));
      assert LineKeptAt(c, p, h, h', At(base, i));
    }
  }

  lemma ShowsKept(c: Chip, p: Plan, h: Hw, h': Hw, s: Setup, base: u32, want: int -> byte)
    requires |s.descs| == s.n && Layout(c, p.quiet, s) && p == RestPlan(p.quiet) && (base == s.src || base == s.dst)
    requires Evolves(c, p, h, h', {}) && Shows(c, h, base, s.size, want)
    ensures Shows(c, h', base, s.size, want)
  {
    hide Layout, LineOf, At, View, Synced, LinesKept, Settles;
    forall i | 0 <= i < s.size
      ensures Synced(c, h', At(base, i)) && View(c, h', At(base, i)) == want(i)
    {
      BufferInCopyLine(c, s, i);
      InLineIsQuiet(c, p, s, At(base, i));
      SyncedIsFresh(c, h, At(base, i));
      assert KeepsAt(c, h, h', At(base, i));
    }
  }

  lemma InLineIsQuiet(c: Chip, p: Plan, s: Setup, a: u32)
    requires |s.descs| == s.n && Layout(c, p.quiet, s) && InCopyLine(c, s, a)
    ensures p.quiet(a)
  {}

  /** The last two statements of dma_copy: the cached copies of both buffers are dropped. */
  method InvalidateBuffers(m: Machine, s: Setup, ghost want: int -> byte)
    requires m.Valid() && m.plan == RestPlan(m.quiet) && Shape(m.chip, m.capacity, s) && Layout(m.chip, m.quiet, s)
    requires forall i | 0 <= i < s.size :: Mem(m.chip, m.hw, At(s.src, i)) == want(i)
    requires forall i | 0 <= i < s.size :: Mem(m.chip, m.hw, At(s.dst, i)) == want(i)
    modifies m`hw, m`time
    ensures m.Valid() && Evolves(m.chip, m.plan, old(m.hw), m.hw, {})
    ensures Shows(m.chip, m.hw, s.src, s.size, want) && Shows(m.chip, m.hw, s.dst, s.size, want)
  {
    hide Inv, Evolves, Layout, RangeDone, Shows, Mem, At, RestPlan;
    ghost var c, p, h0 := m.chip, m.plan, m.hw;
    PositiveSize(s);
    ghost var lines;
    var ercd;
    ercd, lines := m.RangeLines(s.src, s.size, false);
    InvalidatedShows(c, p, h0, m.hw, s, s.src, lines, want);
    MemKept(c, p, h0, m.hw, s, s.dst, want);
    ghost var h := m.hw;
    ercd, lines := m.RangeLines(s.dst, s.size, false);
    InvalidatedShows(c, p, h, m.hw, s, s.dst, lines, want);
    ShowsKept(c, p, h, m.hw, s, s.src, want);
    EvolvesTrans(c, p, h0, h, m.hw, {}, {}, {});
  }

  // ------------------------------------------------------------------ dma_copy

  /** A count that is no completion: the extra task's, at most once. */
  lemma ExtraCounted(c: Chip, p: Plan, h: Hw, jobs: seq<seq<Link>>, begun: nat, k: nat)
    requires Inv(c, p, h, jobs, begun) && p.copy.Some? && p.copy.value.extra == 0 && k <= 1
    ensures Inv(c, p.(copy := Some(p.copy.value.(extra := k))), h.(count := h.count + k), jobs, begun)
  {
    var y := p.copy.value;
    var y' := y.(extra := k);
    var p', h' := p.(copy := Some(y')), h.(count := h.count + k);
    assert EnginesOk(c, p', h', jobs) by {
      forall ch | 0 <= ch < |jobs| ensures EngineOk(c, p', h', ch, jobs[ch]) {
        assert EngineOk(c, p, h, ch, jobs[ch]);
        SameJob(c, p, p', h, h', ch, jobs[ch]);
      }
    }
    assert CopyOk(c, p', y') by {
      hide LineOf, At;
      forall a: u32 | CopyLine(c, y', LineOf(c, a)) ensures p.quiet(a) {
        assert CopyLine(c, y, LineOf(c, a));
      }
    }
    assert CopyInv(c, h', jobs, y', begun) by {
      SameCopy(c, h, h', jobs, y, y', begun, k);
    }
  }

  lemma SameJob(c: Chip, p: Plan, p': Plan, h: Hw, h': Hw, ch: nat, job: seq<Link>)
    requires SameMemory(h, h') && p'.quiet == p.quiet && p'.target == p.target
    ensures JobReady(c, p, h, ch, job) ==> JobReady(c, p', h', ch, job)
  {
    hide DescAt, WordAt, At, Entry, Copies, Op;
  }

  lemma SameCopy(c: Chip, h: Hw, h': Hw, jobs: seq<seq<Link>>, y: Copy, y': Copy, begun: nat, k: nat)
    requires CopyInv(c, h, jobs, y, begun) && y.extra == 0 && y' == y.(extra := k)
    requires SameMemory(h, h') && h'.chans == h.chans && h'.count == h.count + k
    ensures CopyInv(c, h', jobs, y', begun)
  {
    hide LineOf, At, DoneCount, Copies, Op, Elements;
    forall l: u32 | CopyLine(c, y', l) ensures !IsDirty(h', l) {
      assert CopyLine(c, y, l);
    }
    forall ch | 0 <= ch < begun ensures SliceOk(y', h', ch, jobs[ch]) {
      assert SliceOk(y, h, ch, jobs[ch]);
      SameSlice(y, y', h, h', ch, jobs[ch], k);
    }
  }

  lemma SameSlice(y: Copy, y': Copy, h: Hw, h': Hw, ch: nat, job: seq<Link>, k: nat)
    requires y' == y.(extra := k) && h'.raw == h.raw && h'.chans == h.chans
    requires ch < |h.chans| && SliceOk(y, h, ch, job)
    ensures SliceOk(y', h', ch, job)
  {
    hide At, Copies, Op, Elements;
    assert Offset(y', ch) == Offset(y, ch);
    assert forall i: int :: DstByte(y', ch, i) == DstByte(y, ch, i);
  }

  lemma OwnUnderPlan(c: Chip, capacity: u32, quiet: u32 -> bool, p: Plan, h: Hw, s: Setup, i: nat, want: int -> byte)
    requires Shape(c, capacity, s) && Layout(c, quiet, s) && i < s.n && p.quiet == quiet && Owned(c, p, h, s.descs[i], 16)
    ensures Owned(c, CopyPlan(quiet, s, want, 0), h, s.descs[i], 16)
  {
    assert |s.descs| == s.n;
    hide InCopyLine, Fresh, At, Entry, Shape;
    forall k | 0 <= k < 16 ensures Protected(CopyPlan(quiet, s, want, 0), At(s.descs[i], k)) {
      assert At(s.descs[i], k) in OwnBytes(c, s, i);
      DstNotOwn(c, capacity, s, At(s.descs[i], k));
    }
  }

  /** Everything is in place for the copy to begin. */
  lemma StartOfCopy(c: Chip, capacity: u32, p: Plan, h0: Hw, h: Hw, h': Hw, jobs: seq<seq<Link>>, s: Setup,
                    want: int -> byte,
                    mode: u32)
    requires Shape(c, capacity, s) && Layout(c, p.quiet, s) && p.copy == None && (forall a: u32 :: !p.target(a))
    requires Evolves(c, p, h0, h, AllOwn(c, s)) && Evolves(c, p, h, h', {}) && |jobs| == |h'.chans|
    requires AllIdle(h0) && h0.count == 0 && s.n <= |h0.chans|
    requires CleanFrom(c, h', s.src, s.size) && CleanFrom(c, h', s.dst, s.size) && ConfiguredUpTo(c, p, h, s, mode, s.n)
    requires WantIs(c, h0, s, want)
    ensures Inv(c, CopyPlan(p.quiet, s, want, 0), h', jobs, 0) && s.n <= |h'.chans|
    ensures ConfiguredFrom(c, CopyPlan(p.quiet, s, want, 0), h', s, mode, 0)
  {
    assert AllIdle(h') && h'.count == 0 && s.n <= |h'.chans|;
    hide Layout, Owned, Configured, ViewDesc, CleanFrom, Inv, AllOwn, Evolves, At, Mem, AllIdle;
    SourceSaved(c, p, h0, h, h', s);
    BeginInv(c, capacity, p.quiet, h', jobs, s, want);
    forall i | 0 <= i < s.n
      ensures Owned(c, CopyPlan(p.quiet, s, want, 0), h', s.descs[i], 16)
      ensures Configured(s, i, mode, ViewDesc(c, h', s.descs[i]))
    {
      DescKept(c, p, h, h', s.descs[i], {});
      OwnUnderPlan(c, capacity, p.quiet, p, h', s, i, want);
    }
  }

  /** All callbacks counted: the destination holds the source, and the plan can be dropped. */
  lemma EndOfCopy(c: Chip, p: Plan, h: Hw, jobs: seq<seq<Link>>, begun: nat, s: Setup, want: int -> byte, target: nat,
                  k: nat)
    requires Inv(c, p, h, jobs, begun) && p.copy.Some? && begun == s.n && h.count >= target && s.slice > 0
    requires target >= s.n + k && s.n > 0 && p.copy.value == CopyOf(s, want, k)
    ensures target == s.n + k && s.callback != 0 && Inv(c, RestPlan(p.quiet), h, jobs, 0) && AllIdle(h)
    ensures forall i | 0 <= i < s.size :: Mem(c, h, At(s.src, i)) == want(i) && Mem(c, h, At(s.dst, i)) == want(i)
  {
    var y := p.copy.value;
    CountBound(c, p, h, jobs, begun);
    CountedAll(c, p, h, jobs, begun);
    assert CopyInv(c, h, jobs, y, y.used);
    AllArrived(c, p, h, jobs, y);
    RestInv(c, p, h, jobs, begun);
    hide Inv, CopyLine, LineOf, At, AllIdle, SliceOk, DoneCount;
    assert forall i | 0 <= i < s.size :: h.raw(At(s.src, i)) == want(i);
    forall i | 0 <= i < s.size
      ensures Mem(c, h, At(s.src, i)) == h.raw(At(s.src, i)) && Mem(c, h, At(s.dst, i)) == h.raw(At(s.dst, i))
    {
      assert !IsDirty(h, LineOf(c, At(s.src, i))) && !IsDirty(h, LineOf(c, At(s.dst, i)));
    }
  }

  /** dma_copy. `extra` is the outcome of the extra task, if there is one. Every channel is
      started; if the wait ends, the CPU reads at the destination what memory held at the source: what the CPU itself
      read there exactly where its copy was not out of date. */
  method DmaCopy(m: Machine, s: Setup, mode: u32, chns: seq<Allocator.Channel>, extra: Option<bool>, patience: nat)
    returns (ercd: int, done: bool)
    requires m.Valid() && Quiescent(m) && m.hw.count == 0 && s.n <= |m.hw.chans|
    requires Shape(m.chip, m.capacity, s) && Layout(m.chip, m.quiet, s) && CopyMode(mode)
    requires Prepared(s, chns) && forall i | 0 <= i < |chns| :: chns[i].status != BUSY
    modifies m, chns
    ensures m.Valid()
    ensures ercd == if extra == Some(false) then -1 else 0
    ensures !done ==> m.begun == s.n && m.hw.count < s.n + if extra.Some? then 1 else 0
    ensures !done ==> extra == Some(false) || exists ch | 0 <= ch < s.n && ch < |m.hw.chans| :: m.hw.chans[ch] != Done
    ensures !done && extra != Some(false) && s.callback != 0 && (forall i | 0 <= i < |chns| :: chns[i].source == 0) ==>
              Completion.CanReach(m.chip, m.hw, s.n + if extra.Some? then 1 else 0)
    ensures done ==> Quiescent(m) && m.hw.count >= s.n
    ensures done ==> extra != Some(false) && s.callback != 0
    ensures done ==> forall i | 0 <= i < s.size ::
      && View(m.chip, m.hw, At(s.dst, i)) == View(m.chip, m.hw, At(s.src, i)) == Mem(m.chip, old(m.hw), At(s.src, i))
      && (View(m.chip, m.hw, At(s.dst, i)) == View(m.chip, old(m.hw), At(s.src, i)) <==> Fresh(m.chip, old(m.hw), At(s.src, i)))
      && Synced(m.chip, m.hw, At(s.dst, i)) && Synced(m.chip, m.hw, At(s.src, i))
  {
    hide Inv, Layout, CopyMode, Quiescent, Shows, Shape, CopyPlan, RestPlan, View, Mem, Fresh, Synced, At, WantIs,
      ConfiguredFrom;
    ghost var c, h0 := m.chip, m.hw;
    ghost var want := WantOf(c, h0, s);
    ShapeFacts(c, m.capacity, s);
    BeginCopy(m, s, mode, want);
    PlanItself(m.quiet, s, want);
    ercd := StartAll(m, s, mode, chns, want);
    var target := s.n;
    if extra.Some? {
      target := s.n + 1;
      ercd := if extra.value then 0 else -1;
      ExtraTask(m, s, want, extra.value);
    }
    ghost var h1 := m.hw;
    done := Wait(m, target, patience);
    StaysTriggered(m.chip, m.plan, h1, m.hw, chns, s.n);
    ghost var k := if extra == Some(true) then 1 else 0;
    if !done {
      StillWaiting(m, s, want, chns, k);
      return;
    }
    FinishCopy(m, s, want, target, k);
    AfterShows(c, h0, m.hw, s, want);
  }

  lemma StaysTriggered(c: Chip, p: Plan, h: Hw, h': Hw, chns: seq<Allocator.Channel>, k: nat)
    requires Triggered(h, chns, k) && Evolves(c, p, h, h', {})
    ensures Triggered(h', chns, k) && k <= |h'.chans|
  {
    hide Keeps, LinesKept, Phase;
  }

  /** While the count is short of its target some channel is not done, and if all have been
      triggered by software the engine can complete the copy. */
  lemma StillWaiting(m: Machine, s: Setup, want: int -> byte, chns: seq<Allocator.Channel>, k: nat)
    requires m.Valid() && |s.descs| == s.n && m.begun == s.n == |chns| && m.plan.copy == Some(CopyOf(s, want, k))
    requires s.n <= |m.hw.chans| && Triggered(m.hw, chns, s.n) && JobsAre(m.jobs, s, s.n)
    ensures m.hw.count < s.n + k ==> exists ch | 0 <= ch < s.n :: m.hw.chans[ch] != Done
    ensures s.callback != 0 && (forall i | 0 <= i < |chns| :: chns[i].source == 0) ==>
              Completion.CanReach(m.chip, m.hw, s.n + k)
  {
    hide Inv, Phase, Completion.CanReach;
    m.ValidJobs();
    if forall ch | 0 <= ch < s.n :: m.hw.chans[ch] == Done {
      Completion.AllCounted(m.chip, m.plan, m.hw, m.jobs, m.begun);
    }
    if s.callback != 0 && (forall i | 0 <= i < |chns| :: chns[i].source == 0) {
      Completion.CanComplete(m.chip, m.plan, m.hw, m.jobs, m.begun);
    }
  }

  /** What memory holds at the source before the copy. */
  ghost function WantOf(c: Chip, h: Hw, s: Setup): (want: int -> byte)
    ensures WantIs(c, h, s, want)
  {
    (i: int) => Mem(c, h, At(s.src, i))
  }

  ghost predicate WantIs(c: Chip, h: Hw, s: Setup, want: int -> byte) {
    forall i | 0 <= i < s.size :: want(i) == Mem(c, h, At(s.src, i))
  }

  lemma ShapeFacts(c: Chip, capacity: u32, s: Setup)
    requires Shape(c, capacity, s)
    ensures |s.descs| == s.n >= 1 && s.slice > 0
  {}

  lemma PlanItself(quiet: u32 -> bool, s: Setup, want: int -> byte)
    ensures CopyPlan(quiet, s, want, 0).(copy := Some(CopyOf(s, want, 0))) == CopyPlan(quiet, s, want, 0)
  {}

  /** Descriptors and buffers are in memory, and the plan of the copy is set. */
  method BeginCopy(m: Machine, s: Setup, mode: u32, ghost want: int -> byte)
    requires m.Valid() && Quiescent(m) && m.hw.count == 0 && s.n <= |m.hw.chans|
    requires Shape(m.chip, m.capacity, s) && Layout(m.chip, m.quiet, s) && CopyMode(mode)
    requires WantIs(m.chip, m.hw, s, want)
    modifies m`hw, m`time, m`plan, m`begun
    ensures m.Valid() && m.plan == CopyPlan(m.quiet, s, want, 0) && m.begun == 0 && s.n <= |m.hw.chans|
    ensures ConfiguredFrom(m.chip, m.plan, m.hw, s, mode, 0)
  {
    ghost var c, h0, p := m.chip, m.hw, m.plan;
    assert p.copy == None && (forall a: u32 :: !p.target(a)) && AllIdle(h0);
    hide Inv, Evolves, Layout, CopyMode, AllOwn, Mem, At, Shape, WantIs, Quiescent, ConfiguredUpTo, ConfiguredFrom,
      CleanFrom, AllIdle;
    ShapeFacts(c, m.capacity, s);
    Configure(m, s, mode);
    ghost var h := m.hw;
    FlushBuffers(m, s);
    m.ValidJobs();
    StartOfCopy(c, m.capacity, p, h0, h, m.hw, m.jobs, s, want, mode);
    m.plan := CopyPlan(m.quiet, s, want, 0);
    m.begun := 0;
  }

  /** extra_cpy_task, which works on memory of its own and counts once if it succeeds. */
  method ExtraTask(m: Machine, s: Setup, ghost want: int -> byte, succeeds: bool)
    requires m.Valid() && m.plan == CopyPlan(m.quiet, s, want, 0)
    modifies m`hw, m`plan
    ensures m.Valid() && m.hw.chans == old(m.hw.chans)
    ensures m.plan == CopyPlan(m.quiet, s, want, 0).(copy := Some(CopyOf(s, want, if succeeds then 1 else 0)))
  {
    hide Inv;
    var k := if succeeds then 1 else 0;
    ExtraCounted(m.chip, m.plan, m.hw, m.jobs, m.begun, k);
    m.hw := m.hw.(count := m.hw.count + k);
    m.plan := m.plan.(copy := Some(CopyOf(s, want, k)));
  }

  /** Both buffers are dropped from the cache once all channels are done. */
  method FinishCopy(m: Machine, s: Setup, ghost want: int -> byte, target: nat, ghost k: nat)
    requires m.Valid() && Shape(m.chip, m.capacity, s) && Layout(m.chip, m.quiet, s)
    requires s.n + k <= target <= m.hw.count && m.begun == s.n
    requires m.plan == CopyPlan(m.quiet, s, want, 0).(copy := Some(CopyOf(s, want, k)))
    modifies m`hw, m`time, m`plan, m`begun
    ensures m.Valid() && Quiescent(m) && m.hw.count >= s.n && target == s.n + k && s.callback != 0
    ensures Shows(m.chip, m.hw, s.src, s.size, want) && Shows(m.chip, m.hw, s.dst, s.size, want)
  {
    hide Inv, Layout, Shows, At, Mem, AllIdle;
    ShapeFacts(m.chip, m.capacity, s);
    EndOfCopy(m.chip, m.plan, m.hw, m.jobs, m.begun, s, want, target, k);
    m.plan := RestPlan(m.quiet);
    m.begun := 0;
    ghost var h := m.hw;
    InvalidateBuffers(m, s, want);
    StaysIdle(m.chip, m.plan, h, m.hw, {});
  }

  lemma StaysIdle(c: Chip, p: Plan, h: Hw, h': Hw, w: set<u32>)
    requires AllIdle(h) && Evolves(c, p, h, h', w)
    ensures AllIdle(h') && h'.count == h.count && |h'.chans| == |h.chans|
  {
    hide Keeps, LinesKept;
  }

  lemma AfterShows(c: Chip, h0: Hw, h: Hw, s: Setup, want: int -> byte)
    requires Shows(c, h, s.src, s.size, want) && Shows(c, h, s.dst, s.size, want)
    requires WantIs(c, h0, s, want)
    ensures forall i | 0 <= i < s.size ::
      && View(c, h, At(s.dst, i)) == View(c, h, At(s.src, i)) == Mem(c, h0, At(s.src, i))
      && (View(c, h, At(s.dst, i)) == View(c, h0, At(s.src, i)) <==> Fresh(c, h0, At(s.src, i)))
      && Synced(c, h, At(s.dst, i)) && Synced(c, h, At(s.src, i))
  {
    hide View, Mem, Synced, Fresh, At;
    forall i | 0 <= i < s.size
      ensures View(c, h, At(s.dst, i)) == View(c, h0, At(s.src, i)) <==> Fresh(c, h0, At(s.src, i))
    {
      FreshIff(c, h0, At(s.src, i));
    }
  }

  /** A buffer of whole lines shares no line with a byte outside it. */
  lemma WholeLines(c: Chip, base: u32, size: nat, b: u32, k: nat)
    requires base % c.line == 0 && size % c.line == 0 && base + size <= TWO32 && k < size
    requires !(base <= b < base + size)
    ensures LineOf(c, b) != LineOf(c, At(base, k))
  {
    InArea(base, size, k);
    LineAligned(c, b);
    LineAligned(c, At(base, k));
    hide LineOf, At;
    if LineOf(c, b) == LineOf(c, At(base, k)) {
      if b < base {
        CacheLines.LinesApart(LineOf(c, b), base, c.line);
      } else {
        Euclid(base, c.line);
        Euclid(size, c.line);
        var top := base + size;
        assert c.line * (base / c.line + size / c.line) == c.line * (base / c.line) + c.line * (size / c.line);
        DivMod(top, c.line, base / c.line + size / c.line, 0);
        CacheLines.LinesApart(LineOf(c, b), top, c.line);
      }
    }
  }

  lemma BytesWithin(at: u32, n: nat)
    requires at + n <= TWO32
    ensures forall b | b in BytesOf(at, n) :: at <= b < at + n
  {
    forall b | b in BytesOf(at, n) ensures at <= b < at + n {
      var i :| 0 <= i < n && b == At(at, i);
      InArea(at, n, i);
    }
  }

  /** The demands on a copy can be met: one channel, four lines, everything apart. */
  lemma LayoutExample(s: Setup, c: Chip)
    requires c == Chip(32, 0x4000) && s == Setup(0x1000, 0x2000, 64, 64, 1, [0x3000], 0x5000)
    ensures Shape(c, 0x1000, s) && Layout(c, (a: u32) => true, s)
  {
    BytesWithin(0x3000, 16);
    EntryZero(c);
    BytesWithin(0x4000, 4);
    forall i, b | 0 <= i < s.n && b in OwnBytes(c, s, i)
      ensures !InCopyLine(c, s, b)
    {
      assert 0x3000 <= b < 0x4004;
      OutsideBuffers(c, s, b);
    }
  }

  lemma EntryZero(c: Chip)
    ensures Entry(c, 0) == c.base
  {}

  lemma OutsideBuffers(c: Chip, s: Setup, b: u32)
    requires s.src % c.line == 0 && s.dst % c.line == 0 && s.size % c.line == 0
    requires s.src + s.size <= TWO32 && s.dst + s.size <= TWO32
    requires !(s.src <= b < s.src as int + s.size) && !(s.dst <= b < s.dst as int + s.size)
    ensures !InCopyLine(c, s, b)
  {
    hide LineOf, At;
    forall k | 0 <= k < s.size
      ensures LineOf(c, b) != LineOf(c, At(s.src, k)) && LineOf(c, b) != LineOf(c, At(s.dst, k))
    {
      WholeLines(c, s.src, s.size, b, k);
      WholeLines(c, s.dst, s.size, b, k);
    }
  }
}
