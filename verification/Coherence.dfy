/** The hardware under arc/arc_udma.c and arc/arc_cache.c: raw memory, a write-back data
    cache, and a DMA engine that sees only raw memory. Every step the hardware or other
    code can take is listed, with what it leaves unchanged. */
module Coherence {
  import opened Bits
  import opened Descriptor

  type LineSize = x: int | 0 < x < 0x1_0000_0000 witness 32

  /** The cache line size, and where the table of descriptor pointers is. */
  datatype Chip = Chip(line: LineSize, base: u32)

  /** A DMA channel. The engine reads its descriptor from raw memory when it has been
      triggered, moves one element at a time, and may raise an interrupt at the end. */
  datatype Engine = Off | Enabled | Armed | Moving(d: Desc, k: nat) | Finished(irq: bool) | Done

  /** `valid` and `dirty` are kept by line address. `count` is the number of completion
      callbacks taken, task_done_count of the copying client. */
  datatype Hw = Hw(raw: u32 -> byte, cached: u32 -> byte, valid: u32 -> bool, dirty: u32 -> bool,
                   chans: seq<Engine>, count: nat)

  datatype Step =
    | Fill(l: u32) | WriteBack(l: u32) | Evict(l: u32) | Store(a: u32, v: byte)
    | Fetch(ch: nat) | Move(ch: nat) | Finish(ch: nat) | Interrupt(ch: nat)

  function LineOf(c: Chip, a: u32): u32 {
    a - a % c.line
  }

  function Set<T>(f: u32 -> T, k: u32, v: T): u32 -> T {
    (a: u32) => if a == k then v else f(a)
  }

  /** A line's bytes taken from `g`, all others from `f`. */
  function WithLine(c: Chip, f: u32 -> byte, l: u32, g: u32 -> byte): u32 -> byte {
    (a: u32) => if LineOf(c, a) == l then g(a) else f(a)
  }

  predicate IsDirty(h: Hw, l: u32) {
    h.valid(l) && h.dirty(l)
  }

  // ------------------------------------------------------------------ the two views of a byte

  /** What the CPU reads; what reaches memory; whether the two memories agree. */
  function View(c: Chip, h: Hw, a: u32): byte {
    if h.valid(LineOf(c, a)) then h.cached(a) else h.raw(a)
  }

  function Mem(c: Chip, h: Hw, a: u32): byte {
    if IsDirty(h, LineOf(c, a)) then h.cached(a) else h.raw(a)
  }

  predicate Synced(c: Chip, h: Hw, a: u32) {
    h.valid(LineOf(c, a)) ==> h.cached(a) == h.raw(a)
  }

  /** The CPU's copy is not out of date: there is none, it is dirty, or it agrees with raw
      memory. */
  predicate Fresh(c: Chip, h: Hw, a: u32) {
    var l := LineOf(c, a);
    !h.valid(l) || h.dirty(l) || h.cached(a) == h.raw(a)
  }

  /** A copy is out of date exactly where the CPU reads something else than reaches memory. */
  lemma FreshIff(c: Chip, h: Hw, a: u32)
    ensures Fresh(c, h, a) <==> View(c, h, a) == Mem(c, h, a)
  {}

  // ------------------------------------------------------------------ words

  /** The byte `i` places on, and how far one address is past another. */
  function At(a: u32, i: int): u32 {
    Wrap(a + i)
  }

  function Past(a: u32, to: u32): u32 {
    Wrap(a as int - to)
  }

  /** The word at four little-endian bytes. */
  function WordAt(m: u32 -> byte, a: u32): u32 {
    m(a) + 0x100 * m(At(a, 1)) + 0x1_0000 * m(At(a, 2)) + 0x100_0000 * m(At(a, 3))
  }

  function ByteOf(w: u32, k: nat): byte {
    if k == 0 then w % 0x100 else if k == 1 then w / 0x100 % 0x100
    else if k == 2 then w / 0x1_0000 % 0x100 else w / 0x100_0000 % 0x100
  }

  lemma WordToBytes(w: u32)
    ensures w == ByteOf(w, 0) + 0x100 * ByteOf(w, 1) + 0x1_0000 * ByteOf(w, 2) + 0x100_0000 * ByteOf(w, 3)
  {
    var r1, r2 := w / 0x100, w / 0x1_0000;
    assert r1 / 0x100 == r2 && r2 / 0x100 == w / 0x100_0000 < 0x100;
  }

  function DescAt(m: u32 -> byte, a: u32): Desc {
    Desc(WordAt(m, a), WordAt(m, At(a, 4)), WordAt(m, At(a, 8)), WordAt(m, At(a, 12)))
  }

  // ------------------------------------------------------------------ the engine

  /** Word-wide memory-to-memory transfers with both addresses incremented: the only
      transfers whose elements are modelled. */
  predicate Copies(d: Desc) {
    DwInc(d.ctrl) == DW4INC4 && Field(d.ctrl, 3, 2) == 0 && Field(d.ctrl, 30, 2) == 3
  }

  function Elements(d: Desc): (n: nat)
    ensures n >= 1
  {
    Field(d.ctrl, 8, 13) / 4 + 1
  }

  /** The address of element `k` of a side with this end address. */
  function ElementAt(end: u32, n: nat, k: nat): u32 {
    Wrap(end - 4 * (n - 1 - k))
  }

  /** Raw memory after the element has been moved. */
  function Moved(raw: u32 -> byte, from: u32, to: u32): u32 -> byte {
    (a: u32) => MovedByte(raw, from, to, a)
  }

  function MovedByte(raw: u32 -> byte, from: u32, to: u32, a: u32): byte {
    if Past(a, to) < 4 then raw(At(from, Past(a, to))) else raw(a)
  }

  function Filled(c: Chip, h: Hw, l: u32): Hw {
    if h.valid(l) then h else
      h.(cached := WithLine(c, h.cached, l, h.raw), valid := Set(h.valid, l, true), dirty := Set(h.dirty, l, false))
  }

  function WrittenBack(c: Chip, h: Hw, l: u32): Hw {
    if !IsDirty(h, l) then h else
      h.(raw := WithLine(c, h.raw, l, h.cached), dirty := Set(h.dirty, l, false))
  }

  /** The pointer-table entry of a channel. */
  function Entry(c: Chip, ch: nat): u32 {
    At(c.base, 4 * ch)
  }

  function Do(c: Chip, h: Hw, s: Step): Hw {
    match s
    case Fill(l) => Filled(c, h, l)
    case WriteBack(l) => WrittenBack(c, h, l)
    case Evict(l) => WrittenBack(c, h, l).(valid := Set(h.valid, l, false))
    case Store(a, v) =>
      var h' := Filled(c, h, LineOf(c, a));
      h'.(cached := Set(h'.cached, a, v), dirty := Set(h'.dirty, LineOf(c, a), true))
    case Fetch(ch) =>
      if ch < |h.chans| && h.chans[ch] == Armed
      then h.(chans := h.chans[ch := Moving(DescAt(h.raw, WordAt(h.raw, Entry(c, ch))), 0)]) else h
    case Move(ch) =>
      if ch < |h.chans| && h.chans[ch].Moving? && Copies(h.chans[ch].d) && h.chans[ch].k < Elements(h.chans[ch].d)
      then
        var e := h.chans[ch];
        var n := Elements(e.d);
        h.(raw := Moved(h.raw, ElementAt(e.d.sar, n, e.k), ElementAt(e.d.dar, n, e.k)),
           chans := h.chans[ch := Moving(e.d, e.k + 1)])
      else h
    case Finish(ch) =>
      if ch < |h.chans| && h.chans[ch].Moving? && h.chans[ch].k == Elements(h.chans[ch].d) then
        var d := h.chans[ch].d;
        if Op(d) == 1 then h.(chans := h.chans[ch := Finished(Field(d.ctrl, 29, 1) == 1)])
        else if Op(d) == 2 then h.(chans := h.chans[ch := Moving(DescAt(h.raw, d.llp), 0)])
        else h
      else h
    case Interrupt(ch) =>
      if ch < |h.chans| && h.chans[ch] == Finished(true)
      then h.(chans := h.chans[ch := Done], count := h.count + 1) else h
  }

  function Run(c: Chip, h: Hw, steps: seq<Step>): Hw {
    if steps == [] then h else Do(c, Run(c, h, steps[..|steps| - 1]), steps[|steps| - 1])
  }

  // ------------------------------------------------------------------ what one step keeps

  /** The element a step moves covers this byte. */
  predicate Moves(h: Hw, s: Step, a: u32) {
    && s.Move? && s.ch < |h.chans| && h.chans[s.ch].Moving? && h.chans[s.ch].k < Elements(h.chans[s.ch].d)
    && Copies(h.chans[s.ch].d)
    && var e := h.chans[s.ch];
       Past(a, ElementAt(e.d.dar, Elements(e.d), e.k)) < 4
  }

  /** A byte the CPU can rely on stays readable with the same value, and a byte on which
      both memories agree keeps agreeing. */
  predicate KeepsAt(c: Chip, h: Hw, h': Hw, a: u32) {
    && (Fresh(c, h, a) ==> Fresh(c, h', a) && View(c, h', a) == View(c, h, a))
    && (Synced(c, h, a) ==> Synced(c, h', a))
  }

  lemma ByteKept(c: Chip, h: Hw, s: Step, a: u32)
    requires !Moves(h, s, a) && (s.Store? ==> s.a != a)
    ensures KeepsAt(c, h, Do(c, h, s), a)
  {
    hide Elements, Copies, DescAt, Op, ElementAt;
    MemoryOnlyBy(c, h, s);
  }

  /** Only these steps touch the memories at all. */
  lemma MemoryOnlyBy(c: Chip, h: Hw, s: Step)
    ensures (s.Fetch? || s.Finish? || s.Interrupt?) ==>
              && Do(c, h, s).raw == h.raw && Do(c, h, s).cached == h.cached
              && Do(c, h, s).valid == h.valid && Do(c, h, s).dirty == h.dirty
    ensures s.Move? ==> Do(c, h, s).cached == h.cached && Do(c, h, s).valid == h.valid && Do(c, h, s).dirty == h.dirty
    ensures (s.Fill? || s.WriteBack? || s.Evict? || s.Store?) ==> Do(c, h, s).chans == h.chans && Do(c, h, s).count == h.count
  {
    hide Elements, Copies, DescAt, Op, ElementAt;
  }

  /** In a line the CPU does not write, what reaches memory changes only by DMA, and clean
      stays clean. */
  lemma LineKept(c: Chip, h: Hw, s: Step, a: u32)
    requires !Moves(h, s, a) && (s.Store? ==> LineOf(c, s.a) != LineOf(c, a))
    ensures Mem(c, Do(c, h, s), a) == Mem(c, h, a)
  {
    hide Elements, Copies, DescAt, Op, ElementAt;
    MemoryOnlyBy(c, h, s);
  }

  lemma CleanKept(c: Chip, h: Hw, s: Step, l: u32)
    requires s.Store? ==> LineOf(c, s.a) != l
    ensures !IsDirty(h, l) ==> !IsDirty(Do(c, h, s), l)
  {
    hide Elements, Copies, DescAt, Op, ElementAt;
    MemoryOnlyBy(c, h, s);
  }

  /** A write-back makes every reliable byte of its line agree; an eviction leaves no copy. */
  lemma FlushSyncs(c: Chip, h: Hw, a: u32)
    ensures Fresh(c, h, a) ==> Synced(c, Do(c, h, WriteBack(LineOf(c, a))), a)
    ensures !IsDirty(Do(c, h, WriteBack(LineOf(c, a))), LineOf(c, a))
    ensures Synced(c, Do(c, h, Evict(LineOf(c, a))), a)
    ensures View(c, Do(c, h, Evict(LineOf(c, a))), a) == Mem(c, h, a)
  {}

  /** A store is read back, whatever happens to the line meanwhile. */
  lemma Stored(c: Chip, h: Hw, a: u32, v: byte)
    ensures var h' := Do(c, h, Store(a, v)); View(c, h', a) == v && Fresh(c, h', a)
  {}
}
