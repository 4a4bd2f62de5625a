/** The uDMA driver and the data-cache range operations running on the hardware of module
    Coherence, with any steps of the hardware and of other code between its own. */
module Driver {
  import opened Bits
  import opened Descriptor
  import opened Coherence
  import opened Transfer
  import Allocator
  import CacheLines

  // ------------------------------------------------------------------ what the CPU sees

  function ViewOf(c: Chip, h: Hw): u32 -> byte {
    (a: u32) => View(c, h, a)
  }

  function ViewWord(c: Chip, h: Hw, a: u32): u32 {
    WordAt(ViewOf(c, h), a)
  }

  function ViewDesc(c: Chip, h: Hw, a: u32): Desc {
    DescAt(ViewOf(c, h), a)
  }

  /** Protected bytes of which the CPU's copy is not out of date. */
  ghost predicate Owned(c: Chip, p: Plan, h: Hw, at: u32, n: nat) {
    forall i | 0 <= i < n :: Protected(p, At(at, i)) && Fresh(c, h, At(at, i))
  }

  ghost function BytesOf(at: u32, n: nat): set<u32> {
    set i | 0 <= i < n :: At(at, i)
  }

  lemma OwnedKept(c: Chip, p: Plan, h: Hw, h': Hw, at: u32, n: nat, w: set<u32>)
    requires Owned(c, p, h, at, n) && Evolves(c, p, h, h', w) && BytesOf(at, n) !! w
    ensures Owned(c, p, h', at, n)
    ensures forall i | 0 <= i < n :: View(c, h', At(at, i)) == View(c, h, At(at, i))
  {
    hide Owned, View, BytesOf, Keeps;
    OwnedKeptBy(c, p, h, h', at, n, w);
  }

  lemma OwnedKeptBy(c: Chip, p: Plan, h: Hw, h': Hw, at: u32, n: nat, w: set<u32>)
    requires Owned(c, p, h, at, n) && Keeps(c, p, h, h', w) && BytesOf(at, n) !! w
    ensures Owned(c, p, h', at, n)
    ensures forall i | 0 <= i < n :: View(c, h', At(at, i)) == View(c, h, At(at, i))
  {
    hide View, Fresh, At, Synced;
    forall i | 0 <= i < n
      ensures Fresh(c, h', At(at, i)) && View(c, h', At(at, i)) == View(c, h, At(at, i))
    {
      assert At(at, i) in BytesOf(at, n);
      assert KeepsAt(c, h, h', At(at, i));
    }
  }

  lemma SteadyStays(c: Chip, p: Plan, h: Hw, h': Hw, at: u32, n: nat, w: set<u32>)
    requires Steady(c, p, h, at, n) && Evolves(c, p, h, h', w) && BytesOf(at, n) !! w
    ensures Steady(c, p, h', at, n)
    ensures forall i | 0 <= i < n :: h'.raw(At(at, i)) == h.raw(At(at, i))
  {
    hide At, Steady;
    forall i | 0 <= i < n ensures At(at, i) !in w { assert At(at, i) in BytesOf(at, n); }
    SteadyKept(c, p, h, h', at, n, w);
  }

  lemma SteadyIsOwned(c: Chip, p: Plan, h: Hw, at: u32, n: nat)
    requires Steady(c, p, h, at, n)
    ensures Owned(c, p, h, at, n)
    ensures forall i | 0 <= i < n :: View(c, h, At(at, i)) == h.raw(At(at, i))
  {
    hide At;
  }

  /** Bytes the driver may store to: protected, needed by no running channel, and in no line
      of a copy in progress. */
  ghost predicate Writable(c: Chip, p: Plan, h: Hw, jobs: seq<seq<Link>>, w: set<u32>) {
    && JobsAvoid(c, h, jobs, w)
    && forall a | a in w :: Protected(p, a) && (p.copy.Some? ==> !CopyLine(c, p.copy.value, LineOf(c, a)))
  }

  lemma WritableKept(c: Chip, p: Plan, h: Hw, h': Hw, jobs: seq<seq<Link>>, w0: set<u32>,
                     w: set<u32>, w': set<u32>)
    requires Writable(c, p, h, jobs, w) && Evolves(c, p, h, h', w0) && w' <= w
    ensures Writable(c, p, h', jobs, w')
  {
    hide CopyLine, LineOf, Protected, At, Entry;
    forall ch | 0 <= ch < |jobs| && Running(h'.chans[ch])
      ensures JobBytesAvoid(c, ch, jobs[ch], w')
    {
      assert JobBytesAvoid(c, ch, jobs[ch], w);
    }
  }

  lemma WritableProtected(c: Chip, p: Plan, h: Hw, jobs: seq<seq<Link>>, w: set<u32>)
    requires Writable(c, p, h, jobs, w)
    ensures forall a | a in w :: Protected(p, a)
  {}

  lemma EvolvesMono(c: Chip, p: Plan, h: Hw, h': Hw, w: set<u32>, w': set<u32>)
    requires Evolves(c, p, h, h', w) && w <= w'
    ensures Evolves(c, p, h, h', w')
  {
    hide Evolves;
    assert Evolves(c, p, h', h', {}) by { EvolvesRefl(c, p, h'); }
    EvolvesTrans(c, p, h, h', h', w, {}, w');
  }

  lemma ByteStays(c: Chip, p: Plan, h: Hw, h': Hw, a: u32, w: set<u32>)
    requires Evolves(c, p, h, h', w) && Protected(p, a) && a !in w && Fresh(c, h, a)
    ensures Fresh(c, h', a) && View(c, h', a) == View(c, h, a)
    ensures Synced(c, h, a) ==> Synced(c, h', a)
  {
    hide View, Fresh, Synced;
    assert KeepsAt(c, h, h', a);
  }

  /** The word whose bytes have been stored. */
  lemma WordStored(c: Chip, h: Hw, a: u32, w: u32)
    requires forall k | 0 <= k < 4 :: View(c, h, At(a, k)) == ByteOf(w, k)
    ensures ViewWord(c, h, a) == w
  {
    AtZero(a);
    hide At, View, ByteOf;
    assert View(c, h, At(a, 0)) == ByteOf(w, 0) && View(c, h, At(a, 1)) == ByteOf(w, 1)
           && View(c, h, At(a, 2)) == ByteOf(w, 2) && View(c, h, At(a, 3)) == ByteOf(w, 3);
    WordToBytes(w);
  }

  lemma AtInjective(a: u32, i: int, j: int)
    requires 0 <= i < TWO32 && 0 <= j < TWO32
    ensures At(a, i) == At(a, j) <==> i == j
  {}

  // ------------------------------------------------------------------ descriptors in memory

  lemma OwnedPart(c: Chip, p: Plan, h: Hw, at: u32, n: nat, o: nat, m: nat)
    requires Owned(c, p, h, at, n) && o + m <= n
    ensures Owned(c, p, h, At(at, o), m)
  {
    hide At, Fresh, Protected;
    forall i | 0 <= i < m
      ensures Protected(p, At(At(at, o), i)) && Fresh(c, h, At(At(at, o), i))
    {
      AtAt(at, o, i);
      assert Protected(p, At(at, o + i)) && Fresh(c, h, At(at, o + i));
    }
  }

  lemma PartOf(at: u32, n: nat, m: nat)
    requires m <= n
    ensures BytesOf(at, m) <= BytesOf(at, n)
  {}

  /** Storing the control word changes nothing else of a descriptor. */
  lemma CtrlStored(c: Chip, p: Plan, h: Hw, h': Hw, at: u32, w: u32)
    requires Owned(c, p, h, at, 16) && Evolves(c, p, h, h', BytesOf(at, 4))
    requires Owned(c, p, h', at, 4) && ViewWord(c, h', at) == w
    ensures Owned(c, p, h', at, 16) && ViewDesc(c, h', at) == ViewDesc(c, h, at).(ctrl := w)
  {
    hide At, Evolves, View, Fresh, Protected, WordAt;
    forall i | 4 <= i < 16
      ensures Protected(p, At(at, i)) && Fresh(c, h', At(at, i)) && ViewOf(c, h')(At(at, i)) == ViewOf(c, h)(At(at, i))
    {
      if At(at, i) in BytesOf(at, 4) {
        var j :| 0 <= j < 4 && At(at, j) == At(at, i);
        AtInjective(at, i, j);
        assert false;
      }
      ByteStays(c, p, h, h', At(at, i), BytesOf(at, 4));
    }
    LaterWords(ViewOf(c, h), ViewOf(c, h'), at);
  }

  lemma LaterWords(m: u32 -> byte, m': u32 -> byte, at: u32)
    requires forall i | 4 <= i < 16 :: m'(At(at, i)) == m(At(at, i))
    ensures WordAt(m', At(at, 4)) == WordAt(m, At(at, 4)) && WordAt(m', At(at, 8)) == WordAt(m, At(at, 8))
    ensures WordAt(m', At(at, 12)) == WordAt(m, At(at, 12))
  {
    forall o | o in {4, 8, 12} ensures WordAt(m', At(at, o)) == WordAt(m, At(at, o)) {
      AtAt(at, o, 1);
      AtAt(at, o, 2);
      AtAt(at, o, 3);
      hide At;
    }
  }

  /** An owned descriptor that other writes leave alone. */
  lemma DescKept(c: Chip, p: Plan, h: Hw, h': Hw, at: u32, w: set<u32>)
    requires Owned(c, p, h, at, 16) && Evolves(c, p, h, h', w) && BytesOf(at, 16) !! w
    ensures Owned(c, p, h', at, 16) && ViewDesc(c, h', at) == ViewDesc(c, h, at)
  {
    hide Owned, ViewDesc, BytesOf, Keeps;
    DescKeptBy(c, p, h, h', at, w);
  }

  lemma DescKeptBy(c: Chip, p: Plan, h: Hw, h': Hw, at: u32, w: set<u32>)
    requires Owned(c, p, h, at, 16) && Keeps(c, p, h, h', w) && BytesOf(at, 16) !! w
    ensures Owned(c, p, h', at, 16) && ViewDesc(c, h', at) == ViewDesc(c, h, at)
  {
    hide At, Keeps, View, Fresh, Protected, DescAt, Owned;
    OwnedKeptBy(c, p, h, h', at, 16, w);
    SameDesc(ViewOf(c, h), ViewOf(c, h'), at);
  }

  /** Once its bytes are flushed, raw memory holds the descriptor the CPU sees. */
  lemma DescFlushed(c: Chip, p: Plan, h: Hw, h': Hw, at: u32)
    requires Owned(c, p, h, at, 16) && Evolves(c, p, h, h', {})
    requires forall i | 0 <= i < 16 :: DoneAt(c, p, h, h', At(at, i), true)
    ensures Steady(c, p, h', at, 16) && Owned(c, p, h', at, 16)
    ensures DescAt(h'.raw, at) == ViewDesc(c, h, at) == ViewDesc(c, h', at)
  {
    DescKept(c, p, h, h', at, {});
    hide At, Evolves, View, Fresh, Protected, DescAt, QuietLine, IsDirty, LineOf, Synced;
    assert Steady(c, p, h', at, 16) by {
      forall i | 0 <= i < 16 ensures Protected(p, At(at, i)) && Synced(c, h', At(at, i)) {
        assert FlushedAt(c, p, h, h', At(at, i));
      }
    }
    SteadyIsOwned(c, p, h', at, 16);
    SameDesc(h'.raw, ViewOf(c, h'), at);
  }

  /** The driver's bit operations on a control word. */
  lemma CtrlBits(w: u32, ienable: nat)
    requires ienable <= 1
    ensures And(w, 0xFFFF_FFFC) < TWO32 && And(w, 0xDFFF_FFFF) < TWO32
    ensures And(w, 3) == Field(w, 0, 2)
    ensures Or(And(w, 0xFFFF_FFFC), 2) == WithField(w, 0, 2, 2) < TWO32
    ensures Or(And(w, 0xFFFF_FFFC), 1) == WithField(w, 0, 2, 1) < TWO32
    ensures Or(And(w, 0xDFFF_FFFF), ienable * 0x2000_0000) == WithField(w, 29, 1, ienable) < TWO32
  {
    BitMasks();
    Powers();
    hide And, Or, Shl, Shr, Field, WithField, Pow2, Mask, NotMask;
    AndAtMost(w, 0xFFFF_FFFC);
    AndAtMost(w, 0xDFFF_FFFF);
    AndField(w, 0, 2);
    ShlIsMul(Field(w, 0, 2), 0);
    ShlIsMul(2, 0);
    ShlIsMul(1, 0);
    ShlIsMul(ienable, 29);
    SetField(w, 0, 2, 2);
    SetField(w, 0, 2, 1);
    SetField(w, 29, 1, ienable);
  }

  lemma BitMasks()
    ensures Mask(0, 2) == 3 && NotMask(0, 2, 32) == 0xFFFF_FFFC && NotMask(29, 1, 32) == 0xDFFF_FFFF
    ensures Pow2(29) == 0x2000_0000 && Pow2(0) == 1
  {
    Pow32();
    Powers();
    assert Pow2(29) == 0x2000_0000;
    MaskComplement(0, 2, 32);
    MaskComplement(29, 1, 32);
    MaskValue(29, 1);
  }

  // ------------------------------------------------------------------ chains

  ghost function ChainBytes(chain: seq<u32>): set<u32> {
    set j, i | 0 <= j < |chain| && 0 <= i < 16 :: At(chain[j], i)
  }

  /** An acyclic chain: finitely many descriptors that do not overlap, the last linked to none. */
  ghost predicate Chain(c: Chip, p: Plan, h: Hw, chain: seq<u32>, desc: u32) {
    && chain != [] && chain[0] == desc
    && (forall j | 0 <= j < |chain| ::
          && chain[j] != 0 && chain[j] + 16 <= TWO32 - c.line && Owned(c, p, h, chain[j], 16)
          && ViewDesc(c, h, chain[j]).llp == if j + 1 < |chain| then chain[j + 1] else 0)
    && forall j, k | 0 <= j < |chain| && 0 <= k < |chain| && j != k :: BytesOf(chain[j], 16) !! BytesOf(chain[k], 16)
  }

  /** The first `n` descriptors are completed and in raw memory, the others as they were. */
  ghost predicate Progress(c: Chip, p: Plan, h0: Hw, h: Hw, chain: seq<u32>, n: nat, ienable: nat)
    requires ienable <= 1
  {
    && (forall j | 0 <= j < n && j < |chain| ::
          Steady(c, p, h, chain[j], 16) && DescAt(h.raw, chain[j]) == Processed(ViewDesc(c, h0, chain[j]), ienable))
    && (forall j | n <= j < |chain| :: Owned(c, p, h, chain[j], 16) && ViewDesc(c, h, chain[j]) == ViewDesc(c, h0, chain[j]))
  }

  lemma DescSteadyKept(c: Chip, p: Plan, h: Hw, h': Hw, at: u32, w: set<u32>)
    requires Steady(c, p, h, at, 16) && Evolves(c, p, h, h', w) && BytesOf(at, 16) !! w
    ensures Steady(c, p, h', at, 16) && DescAt(h'.raw, at) == DescAt(h.raw, at)
  {
    hide Evolves, Steady, DescAt, At;
    SteadyStays(c, p, h, h', at, 16, w);
    SameDesc(h.raw, h'.raw, at);
  }

  lemma ProgressKept(c: Chip, p: Plan, h0: Hw, h: Hw, h': Hw, chain: seq<u32>, n: nat, ienable: nat, w: set<u32>)
    requires ienable <= 1 && Progress(c, p, h0, h, chain, n, ienable) && Evolves(c, p, h, h', w)
    requires forall j | 0 <= j < |chain| :: BytesOf(chain[j], 16) !! w
    ensures Progress(c, p, h0, h', chain, n, ienable)
  {
    hide Evolves, Steady, DescAt, Owned, ViewDesc, Processed, BytesOf;
    forall j | 0 <= j < n && j < |chain|
      ensures Steady(c, p, h', chain[j], 16) && DescAt(h'.raw, chain[j]) == DescAt(h.raw, chain[j])
    {
      DescSteadyKept(c, p, h, h', chain[j], w);
    }
    forall j | n <= j < |chain|
      ensures Owned(c, p, h', chain[j], 16) && ViewDesc(c, h', chain[j]) == ViewDesc(c, h, chain[j])
    {
      DescKept(c, p, h, h', chain[j], w);
    }
  }

  lemma ProgressStep(c: Chip, p: Plan, h0: Hw, h: Hw, h': Hw, chain: seq<u32>, n: nat, ienable: nat)
    requires ienable <= 1 && n < |chain| && Progress(c, p, h0, h, chain, n, ienable)
    requires forall k | 0 <= k < |chain| && n != k :: BytesOf(chain[k], 16) !! BytesOf(chain[n], 16)
    requires Evolves(c, p, h, h', BytesOf(chain[n], 16)) && Steady(c, p, h', chain[n], 16)
    requires DescAt(h'.raw, chain[n]) == Processed(ViewDesc(c, h, chain[n]), ienable)
    ensures Progress(c, p, h0, h', chain, n + 1, ienable)
  {
    hide Evolves, Steady, DescAt, Owned, ViewDesc, Processed, BytesOf;
    var w := BytesOf(chain[n], 16);
    forall j | 0 <= j < n
      ensures Steady(c, p, h', chain[j], 16) && DescAt(h'.raw, chain[j]) == DescAt(h.raw, chain[j])
    {
      DescSteadyKept(c, p, h, h', chain[j], w);
    }
    forall j | n < j < |chain|
      ensures Owned(c, p, h', chain[j], 16) && ViewDesc(c, h', chain[j]) == ViewDesc(c, h, chain[j])
    {
      DescKept(c, p, h, h', chain[j], w);
    }
  }

  lemma StartProgress(c: Chip, p: Plan, h: Hw, chain: seq<u32>, ienable: nat, first: u32)
    requires ienable <= 1 && Chain(c, p, h, chain, first)
    ensures chain != [] && chain[0] == first && Progress(c, p, h, h, chain, 0, ienable)
  {
    hide Owned, ViewDesc, BytesOf;
  }

  /** Where the walk goes from descriptor `n`. */
  lemma NextInChain(c: Chip, p: Plan, h0: Hw, h: Hw, chain: seq<u32>, n: nat, ienable: nat, first: u32)
    requires Chain(c, p, h0, chain, first) && ienable <= 1 && n < |chain| && Progress(c, p, h0, h, chain, n, ienable)
    ensures Owned(c, p, h, chain[n], 16) && chain[n] as int + 16 <= TWO32 - c.line
    ensures ViewDesc(c, h, chain[n]).llp == if n + 1 < |chain| then chain[n + 1] else 0
    ensures n + 1 < |chain| ==> chain[n + 1] != 0
    ensures forall k | 0 <= k < |chain| && n != k :: BytesOf(chain[k], 16) !! BytesOf(chain[n], 16)
  {
    hide Owned, ViewDesc, BytesOf, Steady, DescAt, Processed;
  }

  /** A completed chain is a chain that completes to itself. */
  lemma ProcessedAgain(c: Chip, p: Plan, h0: Hw, h: Hw, chain: seq<u32>, ienable: nat, first: u32)
    requires ienable <= 1 && Chain(c, p, h0, chain, first) && Progress(c, p, h0, h, chain, |chain|, ienable)
    ensures Chain(c, p, h, chain, first) && JobOf(c, h, chain, ienable) == JobOf(c, h0, chain, ienable)
  {
    hide BytesOf, Processed, DescAt, Steady, Owned, ViewDesc;
    forall j | 0 <= j < |chain|
      ensures Owned(c, p, h, chain[j], 16) && ViewDesc(c, h, chain[j]).llp == ViewDesc(c, h0, chain[j]).llp
      ensures Processed(ViewDesc(c, h, chain[j]), ienable) == Processed(ViewDesc(c, h0, chain[j]), ienable)
    {
      var d := ViewDesc(c, h0, chain[j]);
      RawIsView(c, p, h, chain[j]);
      ProcessedTwice(d, ienable);
      ProcessedMeans(d, ienable, 2, 0);
    }
  }

  lemma RawIsView(c: Chip, p: Plan, h: Hw, at: u32)
    requires Steady(c, p, h, at, 16)
    ensures Owned(c, p, h, at, 16) && ViewDesc(c, h, at) == DescAt(h.raw, at)
  {
    hide At, View, Fresh, Protected, DescAt, Steady;
    SteadyIsOwned(c, p, h, at, 16);
    SameDesc(h.raw, ViewOf(c, h), at);
  }

  lemma InChain(chain: seq<u32>, j: nat)
    requires j < |chain|
    ensures BytesOf(chain[j], 16) <= ChainBytes(chain)
  {}

  // ------------------------------------------------------------------ flushed and invalidated bytes

  /** After a flush: a byte the CPU can rely on agrees with raw memory, and a line nobody
      writes is clean. */
  ghost predicate FlushedAt(c: Chip, p: Plan, h0: Hw, h: Hw, a: u32) {
    && (Protected(p, a) && Fresh(c, h0, a) ==> Synced(c, h, a))
    && (QuietLine(c, p, LineOf(c, a)) ==> !IsDirty(h, LineOf(c, a)))
  }

  /** After an invalidation of a line nobody writes: the CPU reads what memory held. */
  ghost predicate InvalidatedAt(c: Chip, p: Plan, h0: Hw, h: Hw, a: u32) {
    QuietLine(c, p, LineOf(c, a)) && !p.target(a) ==> Synced(c, h, a) && View(c, h, a) == Mem(c, h0, a)
  }

  ghost predicate DoneAt(c: Chip, p: Plan, h0: Hw, h: Hw, a: u32, flush: bool) {
    if flush then FlushedAt(c, p, h0, h, a) else InvalidatedAt(c, p, h0, h, a)
  }

  function LineStep(l: u32, flush: bool): Step {
    if flush then WriteBack(l) else Evict(l)
  }

  lemma LineDone(c: Chip, p: Plan, h0: Hw, h1: Hw, h2: Hw, a: u32, flush: bool)
    requires Evolves(c, p, h0, h1, {}) && Evolves(c, p, Do(c, h1, LineStep(LineOf(c, a), flush)), h2, {})
    ensures DoneAt(c, p, h0, h2, a, flush)
  {
    var h := Do(c, h1, LineStep(LineOf(c, a), flush));
    FlushSyncs(c, h1, a);
    hide Do, Fresh, View, Mem, Synced, IsDirty, QuietLine, LineOf;
    if Protected(p, a) {
      assert KeepsAt(c, h0, h1, a) && KeepsAt(c, h, h2, a);
    }
    if QuietLine(c, p, LineOf(c, a)) {
      assert LineKeptAt(c, p, h0, h1, a) && LineKeptAt(c, p, h, h2, a);
      QuietByte(c, p, a);
      if !flush { SyncedIsFresh(c, h, a); }
    }
  }

  lemma QuietByte(c: Chip, p: Plan, a: u32)
    requires QuietLine(c, p, LineOf(c, a))
    ensures p.quiet(a)
  {}

  lemma SyncedIsFresh(c: Chip, h: Hw, a: u32)
    requires Synced(c, h, a)
    ensures Fresh(c, h, a) && View(c, h, a) == h.raw(a)
  {}

  lemma DoneStays(c: Chip, p: Plan, h0: Hw, h1: Hw, h2: Hw, a: u32, flush: bool)
    requires DoneAt(c, p, h0, h1, a, flush) && Evolves(c, p, h1, h2, {})
    ensures DoneAt(c, p, h0, h2, a, flush)
  {
    if Synced(c, h1, a) { SyncedIsFresh(c, h1, a); }
    if QuietLine(c, p, LineOf(c, a)) { QuietByte(c, p, a); }
    hide Fresh, View, Mem, Synced, IsDirty, QuietLine, LineOf;
    if Protected(p, a) {
      assert KeepsAt(c, h1, h2, a);
    }
    if QuietLine(c, p, LineOf(c, a)) {
      assert LineKeptAt(c, p, h1, h2, a);
    }
  }

  /** The bytes of a range in the lines below `l`. */
  ghost predicate DoneBelow(c: Chip, p: Plan, h0: Hw, h: Hw, start: u32, size: nat, l: int, flush: bool) {
    forall i | 0 <= i < size && LineOf(c, At(start, i)) < l :: DoneAt(c, p, h0, h, At(start, i), flush)
  }

  lemma DoneOneMore(c: Chip, p: Plan, h0: Hw, h1: Hw, h2: Hw, start: u32, size: nat, l: u32, flush: bool)
    requires l % c.line == 0 && DoneBelow(c, p, h0, h1, start, size, l, flush)
    requires Evolves(c, p, h0, h1, {}) && Evolves(c, p, h1, h2, {})
    requires Evolves(c, p, Do(c, h1, LineStep(l, flush)), h2, {})
    ensures DoneBelow(c, p, h0, h2, start, size, l as int + c.line, flush)
  {
    hide Evolves, DoneAt, Do, At;
    forall i | 0 <= i < size && LineOf(c, At(start, i)) < l as int + c.line
      ensures DoneAt(c, p, h0, h2, At(start, i), flush)
    {
      var a := At(start, i);
      LineAligned(c, a);
      if LineOf(c, a) < l {
        DoneStays(c, p, h0, h1, h2, a, flush);
      } else {
        if l < LineOf(c, a) { CacheLines.LinesApart(l, LineOf(c, a), c.line); assert false; }
        LineDone(c, p, h0, h1, h2, a, flush);
      }
    }
  }

  lemma LineAligned(c: Chip, a: u32)
    ensures LineOf(c, a) % c.line == 0 && LineOf(c, a) <= a < LineOf(c, a) as int + c.line
  {
    Euclid(a, c.line);
    DivMod(LineOf(c, a), c.line, a / c.line, 0);
  }

  lemma NextIs(a: u32, line: u32)
    requires a as int + line < TWO32
    ensures CacheLines.Next(a, line) == a as int + line
  {}

  lemma FirstLine(c: Chip, start: u32)
    requires CacheLines.IsLine(c.line)
    ensures CacheLines.First(start, c.line) == LineOf(c, start)
  {
    CacheLines.FirstIsAligned(start, c.line);
  }

  /** Before the first line there is nothing to do, and past the end nothing is left. */
  lemma NoneBelow(c: Chip, p: Plan, h0: Hw, h: Hw, start: u32, size: nat, flush: bool)
    requires start + size <= TWO32
    ensures DoneBelow(c, p, h0, h, start, size, LineOf(c, start), flush)
  {
    hide DoneAt, LineOf;
    LineAligned(c, start);
    forall i | 0 <= i < size
      ensures LineOf(c, At(start, i)) >= LineOf(c, start)
    {
      InArea(start, size, i);
      var a := At(start, i);
      LineAligned(c, a);
      if LineOf(c, a) < LineOf(c, start) {
        CacheLines.LinesApart(LineOf(c, a), LineOf(c, start), c.line);
      }
    }
  }

  lemma AllBelow(c: Chip, p: Plan, h0: Hw, h: Hw, start: u32, size: nat, l: int, flush: bool)
    requires start + size <= TWO32 && start + size <= l && DoneBelow(c, p, h0, h, start, size, l, flush)
    ensures forall i | 0 <= i < size :: DoneAt(c, p, h0, h, At(start, i), flush)
  {
    hide DoneAt, LineOf;
    forall i | 0 <= i < size
      ensures DoneAt(c, p, h0, h, At(start, i), flush)
    {
      InArea(start, size, i);
      LineAligned(c, At(start, i));
    }
  }

  // ------------------------------------------------------------------ starting a channel

  const BUSY := 1

  /** The chain as it is once completed. */
  ghost function JobOf(c: Chip, h: Hw, chain: seq<u32>, ienable: nat): (job: seq<Link>)
    requires ienable <= 1
    ensures |job| == |chain|
  {
    seq(|chain|, j requires 0 <= j < |chain| => Link(chain[j], Processed(ViewDesc(c, h, chain[j]), ienable)))
  }

  /** A completed chain and the pointer entry in raw memory make a job the engine can run. */
  lemma JobIsReady(c: Chip, p: Plan, h0: Hw, h: Hw, ch: nat, chain: seq<u32>, ienable: nat)
    requires ienable <= 1 && chain != [] && Chain(c, p, h0, chain, chain[0])
    requires Progress(c, p, h0, h, chain, |chain|, ienable)
    requires Steady(c, p, h, Entry(c, ch), 4) && WordAt(h.raw, Entry(c, ch)) == chain[0]
    requires forall l | l in JobOf(c, h0, chain, ienable) && Copies(l.d) :: InTarget(p, l.d)
    ensures JobReady(c, p, h, ch, JobOf(c, h0, chain, ienable))
  {
    hide Steady, DescAt, WordAt, Owned, BytesOf, ViewDesc, InTarget, Copies;
    var job := JobOf(c, h0, chain, ienable);
    JobStarts(c, h0, chain, ienable);
    forall j | 0 <= j < |job|
      ensures LinkReady(c, p, h, job[j])
    {
      ProcessedMeans(ViewDesc(c, h0, chain[j]), ienable, 2, 0);
      assert job[j] in job && job[j] == Link(chain[j], Processed(ViewDesc(c, h0, chain[j]), ienable));
    }
    forall j | 0 <= j < |job| && Op(job[j].d) == 2
      ensures j + 1 < |job| && job[j].d.llp == job[j + 1].at
    {
      NextLink(c, p, h0, chain, ienable, j);
    }
    hide LinkReady, Op, JobOf;
  }

  lemma NextLink(c: Chip, p: Plan, h: Hw, chain: seq<u32>, ienable: nat, j: nat)
    requires ienable <= 1 && chain != [] && Chain(c, p, h, chain, chain[0])
    requires j < |chain| && Op(JobOf(c, h, chain, ienable)[j].d) == 2
    ensures j + 1 < |chain| && JobOf(c, h, chain, ienable)[j].d.llp == JobOf(c, h, chain, ienable)[j + 1].at
  {
    hide Owned, BytesOf, ViewDesc;
    var d := ViewDesc(c, h, chain[j]);
    ProcessedMeans(d, ienable, 2, 0);
    assert JobOf(c, h, chain, ienable)[j] == Link(chain[j], Processed(d, ienable));
    hide Processed, Op;
    assert d.llp == if j + 1 < |chain| then chain[j + 1] else 0;
  }

  lemma JobStarts(c: Chip, h: Hw, chain: seq<u32>, ienable: nat)
    requires ienable <= 1 && chain != []
    ensures |JobOf(c, h, chain, ienable)| == |chain| && JobOf(c, h, chain, ienable)[0].at == chain[0]
  {}

  /** The register writes that switch one channel, memory aside. */
  function WithEngine(h: Hw, ch: nat, e: Engine): Hw
    requires ch < |h.chans|
  {
    h.(chans := h.chans[ch := e])
  }

  /** A channel goes off before the copy starts it, and on once it counts as started. */
  ghost predicate CanSwitch(c: Chip, p: Plan, h: Hw, begun: nat, ch: nat, e: Engine, job: seq<Link>)
    requires ch < |h.chans|
  {
    && (e == Off || e == Enabled || e == Armed)
    && (e != Off ==> JobReady(c, p, h, ch, job))
    && (p.copy.Some? ==> if e == Off then begun <= ch else ch < begun && h.chans[ch] != Done && CopyJob(p, ch, job))
  }

  /** While a copy is in progress a channel may only be started for its slice. */
  ghost predicate CopyJob(p: Plan, ch: nat, job: seq<Link>) {
    p.copy.Some? ==> |job| == 1 && SliceDesc(p.copy.value, ch, job[0].d)
  }

  lemma SwitchKeepsInv(c: Chip, p: Plan, h: Hw, jobs: seq<seq<Link>>, begun: nat, ch: nat, e: Engine, job: seq<Link>)
    requires ch < |h.chans| && Inv(c, p, h, jobs, begun) && CanSwitch(c, p, h, begun, ch, e, job)
    ensures Inv(c, p, WithEngine(h, ch, e), jobs[ch := job], begun)
  {
    hide CopyOk;
    SwitchKeepsEngines(c, p, h, jobs, begun, ch, e, job);
    if p.copy.Some? { SwitchKeepsCopy(c, p, h, jobs, begun, ch, e, job, p.copy.value); }
    hide EnginesOk, CopyInv, CanSwitch, WithEngine;
  }

  lemma SwitchKeepsEngines(c: Chip, p: Plan, h: Hw, jobs: seq<seq<Link>>, begun: nat, ch: nat, e: Engine, job: seq<Link>)
    requires ch < |h.chans| && EnginesOk(c, p, h, jobs) && CanSwitch(c, p, h, begun, ch, e, job)
    ensures EnginesOk(c, p, WithEngine(h, ch, e), jobs[ch := job])
  {
    hide JobReady, CopyJob;
    var h', jobs' := WithEngine(h, ch, e), jobs[ch := job];
    forall k | 0 <= k < |jobs'| ensures EngineOk(c, p, h', k, jobs'[k]) {
      assert EngineOk(c, p, h, k, jobs[k]);
      SameMemoryJob(c, p, h, h', k, jobs'[k]);
    }
  }

  lemma SwitchKeepsCopy(c: Chip, p: Plan, h: Hw, jobs: seq<seq<Link>>, begun: nat, ch: nat, e: Engine,
                        job: seq<Link>, y: Copy)
    requires ch < |h.chans| && CanSwitch(c, p, h, begun, ch, e, job) && p.copy.Some? && y == p.copy.value
    requires CopyInv(c, h, jobs, y, begun)
    ensures CopyInv(c, WithEngine(h, ch, e), jobs[ch := job], y, begun)
  {
    hide SliceDesc, CopyLine, DoneCount, JobReady;
    var h', jobs' := WithEngine(h, ch, e), jobs[ch := job];
    if ch < begun {
      DoneCountUpdate(h.chans[..begun], ch, e);
      assert h'.chans[..begun] == h.chans[..begun][ch := e];
    } else {
      assert h'.chans[..begun] == h.chans[..begun];
    }
    forall k | 0 <= k < begun ensures SliceOk(y, h', k, jobs'[k]) {
      assert SliceOk(y, h, k, jobs[k]);
    }
  }

  /** A channel that is off can be counted as started. */
  lemma Begin(c: Chip, p: Plan, h: Hw, jobs: seq<seq<Link>>, begun: nat)
    requires Inv(c, p, h, jobs, begun) && p.copy.Some? && begun < p.copy.value.used
    requires begun < |h.chans| && h.chans[begun] == Off
    ensures Inv(c, p, h, jobs, begun + 1)
  {
    hide EnginesOk, CopyLine, CopyOk, IsDirty, Arrived, SliceDesc;
    assert h.chans[..begun + 1][..begun] == h.chans[..begun];
  }

  ghost predicate SameMemory(h: Hw, h': Hw) {
    h'.raw == h.raw && h'.cached == h.cached && h'.valid == h.valid && h'.dirty == h.dirty
  }

  lemma SameMemoryJob(c: Chip, p: Plan, h: Hw, h': Hw, ch: nat, job: seq<Link>)
    requires SameMemory(h, h')
    ensures JobReady(c, p, h, ch, job) ==> JobReady(c, p, h', ch, job)
  {
    hide DescAt, WordAt, At, Entry, Copies, InTarget, Op;
  }

  /** What a start leaves alone, besides the bytes it writes: the other channels. */
  ghost predicate StartKeeps(c: Chip, p: Plan, h: Hw, h': Hw, ch: nat, w: set<u32>) {
    && Keeps(c, p, h, h', w) && LinesKept(c, p, h, h', w)
    && |h'.chans| == |h.chans|
    && forall k | 0 <= k < |h.chans| && k != ch ::
         && (Running(h'.chans[k]) ==> Running(h.chans[k])) && (Idle(h.chans[k]) ==> h'.chans[k] == h.chans[k])
         && Phase(h'.chans[k]) == Phase(h.chans[k])
  }

  lemma EvolvesStarts(c: Chip, p: Plan, h: Hw, h': Hw, ch: nat, w: set<u32>)
    requires Evolves(c, p, h, h', w)
    ensures StartKeeps(c, p, h, h', ch, w)
  {
    hide Keeps, LinesKept;
  }

  lemma SwitchStarts(c: Chip, p: Plan, h: Hw, ch: nat, e: Engine)
    requires ch < |h.chans|
    ensures StartKeeps(c, p, h, WithEngine(h, ch, e), ch, {})
  {}

  lemma StartTrans(c: Chip, p: Plan, h: Hw, h': Hw, h'': Hw, ch: nat, w: set<u32>)
    requires StartKeeps(c, p, h, h', ch, w) && StartKeeps(c, p, h', h'', ch, {})
    ensures StartKeeps(c, p, h, h'', ch, w)
  {
    assert w + {} == w;
    assert Keeps(c, p, h, h'', w) by {
      hide View, Fresh, Synced;
      KeepsTrans(c, p, h, h', h'', w, {});
    }
    hide Keeps, QuietLine, Mem, IsDirty, LineOf;
    forall a: u32 | QuietLine(c, p, LineOf(c, a)) && (forall b | b in w :: LineOf(c, b) != LineOf(c, a))
      ensures LineKeptAt(c, p, h, h'', a)
    {
      assert LineKeptAt(c, p, h, h', a) && LineKeptAt(c, p, h', h'', a);
    }
  }

  lemma SettlesHere(c: Chip, p: Plan, h: Hw, h': Hw, ch: nat, w: set<u32>)
    requires Evolves(c, p, h, h', w) && ch < |h.chans|
    ensures |h'.chans| == |h.chans| && (Idle(h.chans[ch]) ==> h'.chans[ch] == h.chans[ch])
    ensures Phase(h'.chans[ch]) == Phase(h.chans[ch])
  {
    hide Keeps, LinesKept;
  }

  lemma JobStays(c: Chip, p: Plan, h: Hw, h': Hw, ch: nat, job: seq<Link>)
    requires JobReady(c, p, h, ch, job) && StartKeeps(c, p, h, h', ch, {})
    ensures JobReady(c, p, h', ch, job)
  {
    hide JobReady, Keeps, LinesKept;
    JobKept(c, p, h, h', ch, job, {});
  }

  // ------------------------------------------------------------------ one range operation

  /** The whole range is done, by exactly the lines that meet it. */
  ghost predicate RangeDone(c: Chip, p: Plan, h0: Hw, h: Hw, start: u32, size: u32, issued: seq<u32>, flush: bool)
    requires start + size <= TWO32 - c.line
  {
    && issued == CacheLines.Issued(CacheLines.First(start, c.line), EndOf(c, start, size), c.line)
    && forall i | 0 <= i < size :: DoneAt(c, p, h0, h, At(start, i), flush)
  }

  ghost function EndOf(c: Chip, start: u32, size: u32): (end: u32)
    requires start + size <= TWO32 - c.line
    ensures end < TWO32 - c.line
  {
    if size == 0 then 0 else start + size - 1
  }

  /** The loop is about to take the line `addr`. */
  ghost predicate RangeInv(c: Chip, p: Plan, h0: Hw, h: Hw, start: u32, size: u32, addr: u32, end: u32,
                           issued: seq<u32>, flush: bool)
  {
    && start + size <= TWO32 - c.line && size > 0 && end == EndOf(c, start, size)
    && Evolves(c, p, h0, h, {}) && addr % c.line == 0 && addr <= end
    && issued + CacheLines.Issued(addr, end, c.line) == CacheLines.Issued(CacheLines.First(start, c.line), end, c.line)
    && DoneBelow(c, p, h0, h, start, size, addr, flush)
  }

  lemma RangeStart(c: Chip, p: Plan, h: Hw, start: u32, size: u32, flush: bool)
    requires CacheLines.IsLine(c.line) && size > 0 && start + size <= TWO32 - c.line
    ensures RangeInv(c, p, h, h, start, size, CacheLines.First(start, c.line), CacheLines.End(start, size), [], flush)
  {
    hide Evolves, LineOf, CacheLines.First, CacheLines.Issued, CacheLines.IsLine, DoneBelow;
    EvolvesRefl(c, p, h);
    FirstLine(c, start);
    LineAligned(c, start);
    NoneBelow(c, p, h, h, start, size, flush);
    EndIs(start, size);
    hide CacheLines.End;
    var all := CacheLines.Issued(CacheLines.First(start, c.line), CacheLines.End(start, size), c.line);
    assert [] + all == all;
  }

  lemma EndIs(start: u32, size: u32)
    requires size > 0 && start + size <= TWO32
    ensures CacheLines.End(start, size) == start + size - 1
  {}

  lemma RangeStep(c: Chip, p: Plan, h0: Hw, h: Hw, h': Hw, start: u32, size: u32, addr: u32, end: u32,
                  issued: seq<u32>, flush: bool)
    requires RangeInv(c, p, h0, h, start, size, addr, end, issued, flush)
    requires Evolves(c, p, h, h', {}) && Evolves(c, p, Do(c, h, LineStep(addr, flush)), h', {})
    ensures Evolves(c, p, h0, h', {}) && start + size <= TWO32 - c.line
    ensures CacheLines.Next(addr, c.line) <= end ==>
              && RangeInv(c, p, h0, h', start, size, CacheLines.Next(addr, c.line), end, issued + [addr], flush)
              && CacheLines.Rank(CacheLines.Next(addr, c.line), end) < CacheLines.Rank(addr, end)
    ensures CacheLines.Next(addr, c.line) > end ==> RangeDone(c, p, h0, h', start, size, issued + [addr], flush)
  {
    CacheLines.IssuedStep(addr, end, c.line);
    NextIs(addr, c.line);
    CacheLines.NextLine(addr, c.line);
    hide Evolves, Do, CacheLines.First, CacheLines.Issued, DoneBelow, CacheLines.Next, CacheLines.Rank, DoneAt,
      LineOf, At;
    EvolvesTrans(c, p, h0, h, h', {}, {}, {});
    DoneOneMore(c, p, h0, h, h', start, size, addr, flush);
    CacheLines.Shift(issued, addr, CacheLines.Rest(addr, end, c.line));
    if CacheLines.Next(addr, c.line) > end {
      AllBelow(c, p, h0, h', start, size, CacheLines.Next(addr, c.line), flush);
    }
  }

  // ------------------------------------------------------------------ the machine

  class Machine {
    const chip: Chip
    const capacity: u32
    const quiet: u32 -> bool
    /** What hardware and other code do between the driver's own steps. */
    const env: nat -> seq<Step>
    var hw: Hw
    var time: nat
    ghost var plan: Plan
    ghost var jobs: seq<seq<Link>>
    /** The channels the copy in progress has started so far. */
    ghost var begun: nat

    ghost predicate Valid()
      reads this
    {
      && CacheLines.IsLine(chip.line) && plan.quiet == quiet
      && (forall t, s | s in env(t) :: s.Store? ==> !quiet(s.a))
      && Inv(chip, plan, hw, jobs, begun)
    }

    method Environment()
      requires Valid()
      modifies this`hw, this`time
      ensures Valid() && Evolves(chip, plan, old(hw), hw, {})
    {
      hide Run, Inv, Evolves;
      EnvRun(chip, plan, hw, jobs, begun, env(time));
      hw := Run(chip, hw, env(time));
      time := time + 1;
    }

    /** A step that the driver takes and that hardware could have taken, then anything. */
    method Take(s: Step)
      requires Valid() && !s.Store?
      modifies this`hw, this`time
      ensures Valid() && Evolves(chip, plan, old(hw), hw, {})
      ensures Evolves(chip, plan, Do(chip, old(hw), s), hw, {})
    {
      hide Do, Inv, Evolves;
      EnvStepEvolves(chip, plan, hw, jobs, begun, s);
      hw := Do(chip, hw, s);
      ghost var h := hw;
      Environment();
      EvolvesTrans(chip, plan, old(hw), h, hw, {}, {}, {});
    }

    /** A load: its line is filled if need be. */
    method LoadWord(a: u32) returns (w: u32)
      requires Valid()
      modifies this`hw, this`time
      ensures Valid() && Evolves(chip, plan, old(hw), hw, {})
      ensures Owned(chip, plan, old(hw), a, 4) ==>
                Owned(chip, plan, hw, a, 4) && w == ViewWord(chip, hw, a) == ViewWord(chip, old(hw), a)
    {
      Take(Fill(LineOf(chip, a)));
      w := ViewWord(chip, hw, a);
      if Owned(chip, plan, old(hw), a, 4) {
        OwnedKept(chip, plan, old(hw), hw, a, 4, {});
        AtZero(a);
        hide View, At, Evolves, Inv, Owned;
        assert forall i | 0 <= i < 4 :: ViewOf(chip, hw)(At(a, i)) == ViewOf(chip, old(hw))(At(a, i));
      }
    }

    /** A byte store to memory no running channel and no copy needs. */
    method StoreByte(a: u32, v: byte)
      requires Valid() && Writable(chip, plan, hw, jobs, {a})
      modifies this`hw, this`time
      ensures Valid() && Evolves(chip, plan, old(hw), hw, {a})
      ensures View(chip, hw, a) == v && Fresh(chip, hw, a)
    {
      hide Do, Inv, JobsAvoid, CopyLine, View, Fresh, LineOf;
      assert a in {a};
      StoreEvolves(chip, plan, hw, jobs, begun, a, v);
      hw := Do(chip, hw, Store(a, v));
      ghost var h := hw;
      Environment();
      assert KeepsAt(chip, h, hw, a);
      hide Evolves;
      EvolvesTrans(chip, plan, old(hw), h, hw, {a}, {}, {a});
    }

    /** A word store, byte by byte. */
    method StoreWord(a: u32, w: u32)
      requires Valid() && Writable(chip, plan, hw, jobs, BytesOf(a, 4))
      modifies this`hw, this`time
      ensures Valid() && Evolves(chip, plan, old(hw), hw, BytesOf(a, 4))
      ensures Owned(chip, plan, hw, a, 4) && ViewWord(chip, hw, a) == w
    {
      hide Inv, Evolves, View, Fresh, At, ByteOf, ViewWord, Writable, Protected;
      EvolvesRefl(chip, plan, hw);
      EvolvesMono(chip, plan, hw, hw, {}, BytesOf(a, 4));
      WritableProtected(chip, plan, hw, jobs, BytesOf(a, 4));
      for k := 0 to 4
        invariant Valid() && Evolves(chip, plan, old(hw), hw, BytesOf(a, 4))
        invariant forall i | 0 <= i < k :: View(chip, hw, At(a, i)) == ByteOf(w, i) && Fresh(chip, hw, At(a, i))
      {
        ghost var h := hw;
        var b := At(a, k);
        assert b in BytesOf(a, 4);
        WritableKept(chip, plan, old(hw), hw, jobs, BytesOf(a, 4), BytesOf(a, 4), {b});
        StoreByte(b, ByteOf(w, k));
        forall i | 0 <= i < k
          ensures View(chip, hw, At(a, i)) == ByteOf(w, i) && Fresh(chip, hw, At(a, i))
        {
          AtInjective(a, i, k);
          assert At(a, i) in BytesOf(a, 4);
          ByteStays(chip, plan, h, hw, At(a, i), {b});
        }
        EvolvesTrans(chip, plan, old(hw), h, hw, BytesOf(a, 4), {b}, BytesOf(a, 4));
      }
      assert forall i | 0 <= i < 4 :: At(a, i) in BytesOf(a, 4);
      WordStored(chip, hw, a, w);
    }

    ghost predicate Rejects(size: u32) {
      size == 0 || size > capacity
    }

    /** A range that does not wrap and whose last byte is not in the top line. */
    ghost predicate RangeOk(start: u32, size: u32) {
      start + size <= TWO32 - chip.line
    }

    /** dcache_flush_mlines (`flush`) and dcache_invalidate_mlines, which writes dirty lines
        back first in the mode arc_cache_init selects. */
    method RangeLines(start: u32, size: u32, flush: bool) returns (ercd: int, ghost issued: seq<u32>)
      requires Valid() && (!Rejects(size) ==> RangeOk(start, size))
      modifies this`hw, this`time
      ensures Valid() && Evolves(chip, plan, old(hw), hw, {})
      ensures Rejects(size) ==> ercd == -1 && hw == old(hw) && issued == []
      ensures !Rejects(size) ==>
        ercd == 0 && RangeDone(chip, plan, old(hw), hw, start, size, issued, flush)
    {
      hide Inv, Evolves, Do, LineOf, RangeInv, RangeDone, CacheLines.First, CacheLines.End, CacheLines.Next,
        CacheLines.Rank;
      issued := [];
      ercd := 0;
      EvolvesRefl(chip, plan, hw);
      if size == 0 || size > capacity {
        ercd := -1;
        return;
      }
      var end: u32 := CacheLines.End(start, size);
      var addr: u32 := CacheLines.First(start, chip.line);
      RangeStart(chip, plan, hw, start, size, flush);
      while true
        invariant Valid() && RangeInv(chip, plan, old(hw), hw, start, size, addr, end, issued, flush)
        decreases CacheLines.Rank(addr, end)
      {
        ghost var h := hw;
        Take(LineStep(addr, flush));
        RangeStep(chip, plan, old(hw), h, hw, start, size, addr, end, issued, flush);
        issued := issued + [addr];
        addr := CacheLines.Next(addr, chip.line);
        if addr > end {
          return;
        }
      }
    }

    /** `desc->DMACTRLx = w` */
    method StoreCtrl(desc: u32, w: u32)
      requires Valid() && Owned(chip, plan, hw, desc, 16) && Writable(chip, plan, hw, jobs, BytesOf(desc, 16))
      modifies this`hw, this`time
      ensures Valid() && Evolves(chip, plan, old(hw), hw, BytesOf(desc, 16))
      ensures Owned(chip, plan, hw, desc, 16) && Writable(chip, plan, hw, jobs, BytesOf(desc, 16))
      ensures ViewDesc(chip, hw, desc) == ViewDesc(chip, old(hw), desc).(ctrl := w)
    {
      hide Inv, Evolves, Owned, Writable, ViewDesc, ViewWord, BytesOf;
      PartOf(desc, 16, 4);
      EvolvesRefl(chip, plan, hw);
      WritableKept(chip, plan, hw, hw, jobs, {}, BytesOf(desc, 16), BytesOf(desc, 4));
      StoreWord(desc, w);
      CtrlStored(chip, plan, old(hw), hw, desc, w);
      EvolvesMono(chip, plan, old(hw), hw, BytesOf(desc, 4), BytesOf(desc, 16));
      WritableKept(chip, plan, old(hw), hw, jobs, BytesOf(desc, 16), BytesOf(desc, 16), BytesOf(desc, 16));
    }

    /** `w = desc->DMACTRLx` and `w = desc->DMALLPx` */
    method LoadField(desc: u32, link: bool) returns (w: u32)
      requires Valid() && Owned(chip, plan, hw, desc, 16) && Writable(chip, plan, hw, jobs, BytesOf(desc, 16))
      modifies this`hw, this`time
      ensures Valid() && Evolves(chip, plan, old(hw), hw, {})
      ensures Owned(chip, plan, hw, desc, 16) && Writable(chip, plan, hw, jobs, BytesOf(desc, 16))
      ensures ViewDesc(chip, hw, desc) == ViewDesc(chip, old(hw), desc)
      ensures w == if link then ViewDesc(chip, hw, desc).llp else ViewDesc(chip, hw, desc).ctrl
    {
      hide Inv, Evolves, Owned, Writable, BytesOf, WordAt, View;
      AtZero(desc);
      hide At;
      var o := if link then 12 else 0;
      OwnedPart(chip, plan, hw, desc, 16, o, 4);
      w := LoadWord(At(desc, o));
      DescKept(chip, plan, old(hw), hw, desc, {});
      WritableKept(chip, plan, old(hw), hw, jobs, {}, BytesOf(desc, 16), BytesOf(desc, 16));
    }

    /** One round of dmac_process_desc: the descriptor is completed and flushed. */
    method ProcessOne(desc: u32, ienable: nat) returns (next: u32)
      requires Valid() && ienable <= 1 && capacity >= 16 && RangeOk(desc, 16)
      requires Owned(chip, plan, hw, desc, 16) && Writable(chip, plan, hw, jobs, BytesOf(desc, 16))
      modifies this`hw, this`time
      ensures Valid() && Evolves(chip, plan, old(hw), hw, BytesOf(desc, 16))
      ensures Steady(chip, plan, hw, desc, 16) && Owned(chip, plan, hw, desc, 16)
      ensures DescAt(hw.raw, desc) == Processed(ViewDesc(chip, old(hw), desc), ienable)
      ensures next == ViewDesc(chip, old(hw), desc).llp
    {
      hide Inv, Evolves, Owned, Writable, BytesOf, ViewDesc, Field, WithField, DoneAt, And, Or, Steady, DescAt;
      ghost var d, w := ViewDesc(chip, hw, desc), BytesOf(desc, 16);
      CtrlBits(d.ctrl, ienable);
      EvolvesRefl(chip, plan, hw);
      EvolvesMono(chip, plan, hw, hw, {}, w);
      var llp := LoadField(desc, true);
      EvolvesTrans(chip, plan, old(hw), old(hw), hw, w, {}, w);
      var ctrl;
      if llp != 0 {
        ctrl := ReadCtrl(desc, old(hw), d);
        if And(ctrl, 3) != MANUAL_LINKED {
          RewriteCtrl(desc, 0xFFFF_FFFC, 2, old(hw), d);
        }
      } else {
        RewriteCtrl(desc, 0xFFFF_FFFC, 1, old(hw), d);
        ghost var d1 := ViewDesc(chip, hw, desc);
        CtrlBits(d1.ctrl, ienable);
        RewriteCtrl(desc, 0xDFFF_FFFF, ienable * 0x2000_0000, old(hw), d1);
      }
      assert ViewDesc(chip, hw, desc) == Processed(d, ienable);
      ghost var h := hw;
      ghost var lines;
      var ercd;
      ercd, lines := RangeLines(desc, 16, true);
      assert RangeDone(chip, plan, h, hw, desc, 16, lines, true);
      DescFlushed(chip, plan, h, hw, desc);
      EvolvesTrans(chip, plan, old(hw), h, hw, w, {}, w);
      h := hw;
      WritableKept(chip, plan, old(hw), hw, jobs, w, w, w);
      next := LoadField(desc, true);
      SteadyAfter(desc, h);
      EvolvesTrans(chip, plan, old(hw), h, hw, w, {}, w);
    }

    lemma SteadyAfter(desc: u32, h: Hw)
      requires Steady(chip, plan, h, desc, 16) && Evolves(chip, plan, h, hw, {})
      ensures Steady(chip, plan, hw, desc, 16) && DescAt(hw.raw, desc) == DescAt(h.raw, desc)
    {
      hide Evolves, Steady, DescAt, At;
      SteadyStays(chip, plan, h, hw, desc, 16, {});
      SameDesc(h.raw, hw.raw, desc);
    }

    /** `desc->DMACTRLx &= mask; desc->DMACTRLx |= bits` */
    method RewriteCtrl(desc: u32, mask: u32, bits: u32, ghost h0: Hw, ghost d: Desc)
      requires Valid() && Owned(chip, plan, hw, desc, 16) && Writable(chip, plan, hw, jobs, BytesOf(desc, 16))
      requires Evolves(chip, plan, h0, hw, BytesOf(desc, 16)) && ViewDesc(chip, hw, desc) == d
      requires And(d.ctrl, mask) < TWO32 && Or(And(d.ctrl, mask), bits) < TWO32
      modifies this`hw, this`time
      ensures Valid() && Evolves(chip, plan, h0, hw, BytesOf(desc, 16))
      ensures Owned(chip, plan, hw, desc, 16) && Writable(chip, plan, hw, jobs, BytesOf(desc, 16))
      ensures ViewDesc(chip, hw, desc) == d.(ctrl := Or(And(d.ctrl, mask), bits))
    {
      hide Inv, Evolves, Owned, Writable, BytesOf, ViewDesc, And, Or;
      var w := ReadCtrl(desc, h0, d);
      WriteCtrl(desc, And(w, mask), h0);
      w := ReadCtrl(desc, h0, d.(ctrl := And(d.ctrl, mask)));
      WriteCtrl(desc, Or(w, bits), h0);
    }

    method ReadCtrl(desc: u32, ghost h0: Hw, ghost d: Desc) returns (w: u32)
      requires Valid() && Owned(chip, plan, hw, desc, 16) && Writable(chip, plan, hw, jobs, BytesOf(desc, 16))
      requires Evolves(chip, plan, h0, hw, BytesOf(desc, 16)) && ViewDesc(chip, hw, desc) == d
      modifies this`hw, this`time
      ensures Valid() && Evolves(chip, plan, h0, hw, BytesOf(desc, 16))
      ensures Owned(chip, plan, hw, desc, 16) && Writable(chip, plan, hw, jobs, BytesOf(desc, 16))
      ensures ViewDesc(chip, hw, desc) == d && w == d.ctrl
    {
      hide Inv, Evolves, Owned, Writable, BytesOf, ViewDesc;
      ghost var h := hw;
      w := LoadField(desc, false);
      EvolvesTrans(chip, plan, h0, h, hw, BytesOf(desc, 16), {}, BytesOf(desc, 16));
    }

    method WriteCtrl(desc: u32, w: u32, ghost h0: Hw)
      requires Valid() && Owned(chip, plan, hw, desc, 16) && Writable(chip, plan, hw, jobs, BytesOf(desc, 16))
      requires Evolves(chip, plan, h0, hw, BytesOf(desc, 16))
      modifies this`hw, this`time
      ensures Valid() && Evolves(chip, plan, h0, hw, BytesOf(desc, 16))
      ensures Owned(chip, plan, hw, desc, 16) && Writable(chip, plan, hw, jobs, BytesOf(desc, 16))
      ensures ViewDesc(chip, hw, desc) == ViewDesc(chip, old(hw), desc).(ctrl := w)
    {
      hide Inv, Evolves, Owned, Writable, BytesOf, ViewDesc;
      ghost var h := hw;
      StoreCtrl(desc, w);
      EvolvesTrans(chip, plan, h0, h, hw, BytesOf(desc, 16), BytesOf(desc, 16), BytesOf(desc, 16));
    }

    /** dmac_process_desc: every descriptor of the chain is completed and in raw memory, and
        no other owned byte has changed. The chain is still one, and a second run would leave
        it as it is. */
    method ProcessDesc(first: u32, ienable: nat, ghost chain: seq<u32>)
      requires Valid() && ienable <= 1 && capacity >= 16 && Chain(chip, plan, hw, chain, first)
      requires Writable(chip, plan, hw, jobs, ChainBytes(chain))
      modifies this`hw, this`time
      ensures Valid() && Evolves(chip, plan, old(hw), hw, ChainBytes(chain))
      ensures Progress(chip, plan, old(hw), hw, chain, |chain|, ienable)
      ensures Chain(chip, plan, hw, chain, first) && JobOf(chip, hw, chain, ienable) == JobOf(chip, old(hw), chain, ienable)
    {
      hide Inv, Evolves, Owned, Writable, BytesOf, ViewDesc, Steady, DescAt, Processed, ChainBytes, Chain, Progress;
      ghost var w := ChainBytes(chain);
      StartProgress(chip, plan, hw, chain, ienable, first);
      ghost var n := 0;
      EvolvesRefl(chip, plan, hw);
      EvolvesMono(chip, plan, hw, hw, {}, w);
      var desc := first;
      while true
        invariant Valid() && n < |chain| && desc == chain[n]
        invariant Evolves(chip, plan, old(hw), hw, w) && Progress(chip, plan, old(hw), hw, chain, n, ienable)
        decreases |chain| - n
      {
        ghost var h := hw;
        InChain(chain, n);
        NextInChain(chip, plan, old(hw), hw, chain, n, ienable, first);
        WritableKept(chip, plan, old(hw), hw, jobs, w, w, BytesOf(desc, 16));
        desc := ProcessOne(desc, ienable);
        ProgressStep(chip, plan, old(hw), h, hw, chain, n, ienable);
        EvolvesTrans(chip, plan, old(hw), h, hw, w, BytesOf(chain[n], 16), w);
        n := n + 1;
        if desc == 0 {
          ProcessedAgain(chip, plan, old(hw), hw, chain, ienable, first);
          return;
        }
      }
    }

    /** dmac_fill_descriptor for a memory-based channel: the pointer entry is stored and flushed. */
    method FillDescriptor(ch: nat, desc: u32)
      requires Valid() && capacity >= 4 && RangeOk(Entry(chip, ch), 4)
      requires Writable(chip, plan, hw, jobs, BytesOf(Entry(chip, ch), 4))
      modifies this`hw, this`time
      ensures Valid() && Evolves(chip, plan, old(hw), hw, BytesOf(Entry(chip, ch), 4))
      ensures Steady(chip, plan, hw, Entry(chip, ch), 4) && WordAt(hw.raw, Wrap(chip.base + 4 * ch)) == desc
      ensures ch < 0x4000_0000 ==> TableKept(chip, plan, old(hw), hw, ch, {})
    {
      EntryIs(chip, ch);
      hide Inv, Evolves, Owned, Writable, BytesOf, Steady, Entry, RangeDone, ViewWord, TableKept, Wrap, WordAt;
      StoreWord(Entry(chip, ch), desc);
      ghost var h := hw;
      ghost var lines;
      var ercd;
      ercd, lines := RangeLines(Entry(chip, ch), 4, true);
      WordFlushed(chip, plan, h, hw, Entry(chip, ch), lines);
      EvolvesTrans(chip, plan, old(hw), h, hw, BytesOf(Entry(chip, ch), 4), {}, BytesOf(Entry(chip, ch), 4));
      if ch < 0x4000_0000 {
        EvolvesKeeps(chip, plan, old(hw), hw, BytesOf(Entry(chip, ch), 4));
        assert {} + BytesOf(Entry(chip, ch), 4) == BytesOf(Entry(chip, ch), 4);
        TableStays(chip, plan, old(hw), hw, ch, {});
      }
    }

    // ---------------------------------------------------------------- dmac_start_channel

    predicate Accepts(c: Allocator.Channel?)
      reads this`hw, c
    {
      c != null && c.desc != 0 && 0 <= c.channel < |hw.chans| && c.status != 1
    }

    /** The bytes a start writes: the chain and the channel's pointer entry. */
    ghost function StartBytes(ch: nat, chain: seq<u32>): set<u32> {
      ChainBytes(chain) + BytesOf(Entry(chip, ch), 4)
    }

    /** What a start asks of its caller: an idle channel, a chain in memory that neither
        running channels nor anybody else writes to or needs, and transfers that stay in the
        target area. */
    ghost predicate CanStart(ch: nat, first: u32, ienable: nat, chain: seq<u32>)
      requires ienable <= 1
      reads this
    {
      && ch < |hw.chans| && !Running(hw.chans[ch])
      && capacity >= 16 && RangeOk(Entry(chip, ch), 4) && Chain(chip, plan, hw, chain, first)
      && Writable(chip, plan, hw, jobs, StartBytes(ch, chain))
      && (forall j | 0 <= j < |chain| :: BytesOf(chain[j], 16) !! BytesOf(Entry(chip, ch), 4))
      && (forall l | l in JobOf(chip, hw, chain, ienable) && Copies(l.d) :: InTarget(plan, l.d))
      && CopyJob(plan, ch, JobOf(chip, hw, chain, ienable)) && (plan.copy.Some? ==> ch == begun < plan.copy.value.used)
    }

    /** The chain is completed and the pointer entry set, all of it in raw memory. */
    method Prepare(ch: nat, first: u32, ienable: nat, ghost chain: seq<u32>)
      requires Valid() && ienable <= 1 && CanStart(ch, first, ienable, chain)
      modifies this`hw, this`time
      ensures Valid() && Evolves(chip, plan, old(hw), hw, StartBytes(ch, chain))
      ensures JobReady(chip, plan, hw, ch, JobOf(chip, old(hw), chain, ienable))
      ensures chain != [] && chain[0] == first
    {
      hide Inv, Evolves, Writable, BytesOf, ChainBytes, Progress, Entry, Steady, WordAt, JobReady, JobOf, InTarget,
        Copies, SliceDesc;
      ghost var w, wc, we := StartBytes(ch, chain), ChainBytes(chain), BytesOf(Entry(chip, ch), 4);
      EvolvesRefl(chip, plan, hw);
      WritableKept(chip, plan, hw, hw, jobs, {}, w, wc);
      ProcessDesc(first, ienable, chain);
      ghost var h := hw;
      WritableKept(chip, plan, old(hw), hw, jobs, wc, w, we);
      FillDescriptor(ch, first);
      EntryIs(chip, ch);
      ProgressKept(chip, plan, old(hw), h, hw, chain, |chain|, ienable, we);
      EvolvesTrans(chip, plan, old(hw), h, hw, wc, we, w);
      JobIsReady(chip, plan, old(hw), hw, ch, chain, ienable);
    }

    lemma StartedTable(h0: Hw, ch: nat, chain: seq<u32>)
      requires StartKeeps(chip, plan, h0, hw, ch, StartBytes(ch, chain))
      ensures ch < 0x4000_0000 ==> TableKept(chip, plan, h0, hw, ch, ChainBytes(chain))
    {
      if ch < 0x4000_0000 {
        TableStays(chip, plan, h0, hw, ch, ChainBytes(chain));
      }
    }

    lemma ValidJobs()
      requires Valid()
      ensures |jobs| == |hw.chans|
    {}

    /** Writes to the channel registers, then anything the hardware does. */
    method Switch(ch: nat, e: Engine, ghost job: seq<Link>, ghost w: set<u32>, ghost h0: Hw)
      requires Valid() && ch < |hw.chans| && StartKeeps(chip, plan, h0, hw, ch, w)
      requires JobReady(chip, plan, hw, ch, job) && CanSwitch(chip, plan, hw, begun, ch, e, job)
      modifies this`hw, this`time, this`jobs
      ensures Valid() && jobs == old(jobs)[ch := job] && |hw.chans| == |old(hw.chans)|
      ensures StartKeeps(chip, plan, h0, hw, ch, w) && JobReady(chip, plan, hw, ch, job)
      ensures Phase(hw.chans[ch]) == Phase(e)
    {
      hide Inv, Evolves, StartKeeps, JobReady, CanSwitch;
      ValidJobs();
      SwitchKeepsInv(chip, plan, hw, jobs, begun, ch, e, job);
      SwitchStarts(chip, plan, hw, ch, e);
      StartTrans(chip, plan, h0, hw, WithEngine(hw, ch, e), ch, w);
      JobStays(chip, plan, hw, WithEngine(hw, ch, e), ch, job);
      hw := WithEngine(hw, ch, e);
      jobs := jobs[ch := job];
      ghost var h := hw;
      Environment();
      SettlesHere(chip, plan, h, hw, ch, {});
      EvolvesStarts(chip, plan, h, hw, ch, {});
      StartTrans(chip, plan, h0, h, hw, ch, w);
      JobStays(chip, plan, h, hw, ch, job);
    }

    /** A software trigger arms an enabled channel. */
    method Trigger(ch: nat, ghost job: seq<Link>, ghost w: set<u32>, ghost h0: Hw)
      requires Valid() && ch < |hw.chans| && StartKeeps(chip, plan, h0, hw, ch, w)
      requires JobReady(chip, plan, hw, ch, job) && ch < |jobs| && jobs[ch] == job && CopyJob(plan, ch, job)
      requires plan.copy.Some? ==> ch < begun
      modifies this`hw, this`time, this`jobs
      ensures Valid() && jobs == old(jobs) && |hw.chans| == |old(hw.chans)|
      ensures Phase(hw.chans[ch]) == if Phase(old(hw.chans[ch])) == 1 then 2 else Phase(old(hw.chans[ch]))
      ensures StartKeeps(chip, plan, h0, hw, ch, w) && JobReady(chip, plan, hw, ch, job)
    {
      hide Inv, Evolves, StartKeeps, JobReady, CopyJob;
      if hw.chans[ch] == Enabled {
        assert jobs[ch := job] == jobs;
        Switch(ch, Armed, job, w, h0);
      }
    }

    /** The second half of a start: chain, pointer entry, and the channel registers. */
    method Launch(ch: nat, first: u32, ienable: nat, soft: bool, ghost chain: seq<u32>)
      requires Valid() && ienable <= 1 && CanStart(ch, first, ienable, chain)
      modifies this`hw, this`time, this`jobs, this`begun
      ensures Valid() && begun == old(begun) + (if plan.copy.Some? then 1 else 0)
      ensures |hw.chans| == |old(hw.chans)| && Phase(hw.chans[ch]) == (if soft then 2 else 1)
      ensures jobs == old(jobs)[ch := JobOf(chip, old(hw), chain, ienable)]
      ensures JobReady(chip, plan, hw, ch, jobs[ch]) && jobs[ch][0].at == first
      ensures StartKeeps(chip, plan, old(hw), hw, ch, StartBytes(ch, chain))
      ensures WordAt(hw.raw, Wrap(chip.base + 4 * ch)) == first
      ensures ch < 0x4000_0000 ==> TableKept(chip, plan, old(hw), hw, ch, ChainBytes(chain))
    {
      hide Inv, Evolves, Writable, StartBytes, BytesOf, ChainBytes, Chain, Progress, Entry, Steady, WordAt, JobReady, JobOf,
        StartKeeps, InTarget, Copies, CopyJob, RangeOk, TableKept, Wrap;
      ghost var w, h0 := StartBytes(ch, chain), hw;
      Prepare(ch, first, ienable, chain);
      ghost var job := JobOf(chip, h0, chain, ienable);
      JobStarts(chip, h0, chain, ienable);
      EvolvesStarts(chip, plan, h0, hw, ch, w);
      SettlesHere(chip, plan, h0, hw, ch, w);
      ValidJobs();
      Switch(ch, Off, job, w, h0);
      if plan.copy.Some? {
        Begin(chip, plan, hw, jobs, begun);
        begun := begun + 1;
      }
      Switch(ch, Enabled, job, w, h0);
      if soft {
        Trigger(ch, job, w, h0);
      }
      JobEntry(chip, plan, hw, ch, job);
      StartedTable(h0, ch, chain);
    }

    /** dmac_start_channel for a memory-based channel. The channel is enabled, and triggered
        if its source is software; from then on raw memory holds its pointer entry and every
        descriptor of the chain just as the CPU sees them. */
    method StartChannel(c: Allocator.Channel?, callback: u32, ghost chain: seq<u32>) returns (ercd: int)
      requires Valid()
      requires Accepts(c) ==> CanStart(c.channel, c.desc, if callback != 0 then 1 else 0, chain)
      modifies this`hw, this`time, this`jobs, this`begun, c
      ensures Valid()
      ensures !old(Accepts(c)) ==> ercd == -1 && hw == old(hw) && jobs == old(jobs) && begun == old(begun)
      ensures !old(Accepts(c)) && c != null ==> c.status == old(c.status) && c.callback == old(c.callback)
      ensures old(Accepts(c)) ==>
        && ercd == 0 && begun == old(begun) + (if plan.copy.Some? then 1 else 0)
        && c.channel == old(c.channel) && c.desc == old(c.desc) && c.source == old(c.source)
        && |hw.chans| == |old(hw.chans)| && Phase(hw.chans[c.channel]) == (if c.source == 0 then 2 else 1)
        && c.status == 1 && c.callback == callback && c.intEnable == (if callback != 0 then 1 else 0)
        && jobs == old(jobs)[c.channel := JobOf(chip, old(hw), chain, c.intEnable)]
        && JobReady(chip, plan, hw, c.channel, jobs[c.channel]) && jobs[c.channel][0].at == c.desc
        && StartKeeps(chip, plan, old(hw), hw, c.channel, StartBytes(c.channel, chain))
        && WordAt(hw.raw, Wrap(chip.base + 4 * c.channel)) == c.desc
        && (c.channel < 0x4000_0000 ==> TableKept(chip, plan, old(hw), hw, c.channel, ChainBytes(chain)))
    {
      hide Inv, CanStart, StartBytes, JobReady, JobOf, StartKeeps, TableKept, WordAt, Wrap, ChainBytes;
      if c == null {
        return -1;
      }
      if c.desc == 0 {
        return -1;
      }
      if !(0 <= c.channel < |hw.chans|) {
        return -1;
      }
      if c.status == BUSY {
        return -1;
      }
      c.callback := callback;
      if callback != 0 {
        c.intEnable := 1;
      } else {
        c.intEnable := 0;
      }
      Launch(c.channel, c.desc, c.intEnable, c.source == Allocator.REQ_SOFT, chain);
      c.status := BUSY;
      return 0;
    }
  }

  // ------------------------------------------------------------------ the table of pointers

  /** The words of the table other than the channel's read as before. The table is an array
      of words at the base; `w` are bytes the caller may have changed. */
  ghost predicate TableKept(c: Chip, p: Plan, h: Hw, h': Hw, ch: nat, w: set<u32>) {
    forall k: nat | k < 0x4000_0000 && k != ch && BytesOf(Wrap(c.base + 4 * k), 4) !! w
                    && Owned(c, p, h, Wrap(c.base + 4 * k), 4) ::
      ViewWord(c, h', Wrap(c.base + 4 * k)) == ViewWord(c, h, Wrap(c.base + 4 * k))
  }

  lemma EvolvesKeeps(c: Chip, p: Plan, h: Hw, h': Hw, w: set<u32>)
    requires Evolves(c, p, h, h', w)
    ensures Keeps(c, p, h, h', w)
  {}

  lemma EntryIs(c: Chip, ch: nat)
    ensures Entry(c, ch) == Wrap(c.base + 4 * ch)
  {}

  lemma AtIsWrap(a: u32, i: int)
    ensures At(a, i) == Wrap(a + i)
  {}

  lemma EntriesApart(c: Chip, k: nat, ch: nat)
    requires k < 0x4000_0000 && ch < 0x4000_0000 && k != ch
    ensures BytesOf(Wrap(c.base + 4 * k), 4) !! BytesOf(Wrap(c.base + 4 * ch), 4)
  {
    hide At, Wrap;
    AtIsWrap(c.base, 4 * k);
    AtIsWrap(c.base, 4 * ch);
    forall x, y | 0 <= x < 4 && 0 <= y < 4
      ensures At(At(c.base, 4 * k), x) != At(At(c.base, 4 * ch), y)
    {
      AtAt(c.base, 4 * k, x);
      AtAt(c.base, 4 * ch, y);
      AtInjective(c.base, 4 * k + x, 4 * ch + y);
    }
  }

  lemma JobEntry(c: Chip, p: Plan, h: Hw, ch: nat, job: seq<Link>)
    requires JobReady(c, p, h, ch, job)
    ensures WordAt(h.raw, Wrap(c.base + 4 * ch)) == job[0].at
  {
    EntryIs(c, ch);
    hide WordAt, Wrap, Entry;
  }

  lemma TableStays(c: Chip, p: Plan, h: Hw, h': Hw, ch: nat, w: set<u32>)
    requires Keeps(c, p, h, h', w + BytesOf(Entry(c, ch), 4)) && ch < 0x4000_0000
    ensures TableKept(c, p, h, h', ch, w)
  {
    EntryIs(c, ch);
    hide Keeps, Owned, BytesOf, ViewWord, Entry, Wrap;
    forall k: nat | k < 0x4000_0000 && k != ch && BytesOf(Wrap(c.base + 4 * k), 4) !! w
                    && Owned(c, p, h, Wrap(c.base + 4 * k), 4)
      ensures ViewWord(c, h', Wrap(c.base + 4 * k)) == ViewWord(c, h, Wrap(c.base + 4 * k))
    {
      EntriesApart(c, k, ch);
      WordKeptBy(c, p, h, h', Wrap(c.base + 4 * k), w + BytesOf(Entry(c, ch), 4));
    }
  }

  lemma WordKeptBy(c: Chip, p: Plan, h: Hw, h': Hw, a: u32, w: set<u32>)
    requires Owned(c, p, h, a, 4) && Keeps(c, p, h, h', w) && BytesOf(a, 4) !! w
    ensures ViewWord(c, h', a) == ViewWord(c, h, a)
  {
    OwnedKeptBy(c, p, h, h', a, 4, w);
    AtZero(a);
    hide At, Owned, Keeps, View, BytesOf;
    assert forall i | 0 <= i < 4 :: ViewOf(c, h')(At(a, i)) == ViewOf(c, h)(At(a, i));
    SameWord(ViewOf(c, h), ViewOf(c, h'), a, 4, 0);
  }

  lemma WordFlushed(c: Chip, p: Plan, h: Hw, h': Hw, at: u32, lines: seq<u32>)
    requires Owned(c, p, h, at, 4) && Evolves(c, p, h, h', {}) && at + 4 <= TWO32 - c.line
    requires RangeDone(c, p, h, h', at, 4, lines, true)
    ensures Steady(c, p, h', at, 4) && WordAt(h'.raw, at) == ViewWord(c, h, at)
  {
    OwnedKept(c, p, h, h', at, 4, {});
    AtZero(at);
    hide At, Evolves, View, Fresh, Protected, QuietLine, IsDirty, LineOf, Synced;
    assert Steady(c, p, h', at, 4) by {
      forall i | 0 <= i < 4 ensures Protected(p, At(at, i)) && Synced(c, h', At(at, i)) {
        assert FlushedAt(c, p, h, h', At(at, i));
      }
    }
    SteadyIsOwned(c, p, h', at, 4);
    assert forall i | 0 <= i < 4 :: h'.raw(At(at, i)) == ViewOf(c, h)(At(at, i));
    hide WordAt;
    SameWord(ViewOf(c, h), h'.raw, at, 4, 0);
  }
}