/** What the driver and its clients rely on while DMA is running: bytes nobody else writes,
    descriptor chains the engine may be reading, and the slices of a copy in progress. */
module Transfer {
  import opened Bits
  import opened Text
  import opened Descriptor
  import opened Coherence

  /** A descriptor of a chain, and where it is. */
  datatype Link = Link(at: u32, d: Desc)

  /** A copy by the first `used` channels, one slice each. `want` is what memory held at the source;
      `irq` says whether the end of a slice interrupts, and `extra` bounds the counts that are
      not completion callbacks. */
  datatype Copy = Copy(src: u32, dst: u32, size: nat, slice: nat, used: nat, irq: bool, want: int -> byte, extra: nat)

  /** `quiet` bytes are written by no other code, and `target` bytes are the ones DMA may write. */
  datatype Plan = Plan(quiet: u32 -> bool, target: u32 -> bool, copy: Option<Copy>)

  predicate Protected(p: Plan, a: u32) {
    p.quiet(a) && !p.target(a)
  }

  /** The steps that hardware and other code may take at any time. */
  predicate EnvStep(p: Plan, s: Step) {
    s.Store? ==> !p.quiet(s.a)
  }

  ghost predicate Keeps(c: Chip, p: Plan, h: Hw, h': Hw, written: set<u32>) {
    forall a: u32 | Protected(p, a) && a !in written :: KeepsAt(c, h, h', a)
  }

  lemma KeepsTrans(c: Chip, p: Plan, h: Hw, h': Hw, h'': Hw, w: set<u32>, w': set<u32>)
    requires Keeps(c, p, h, h', w) && Keeps(c, p, h', h'', w')
    ensures Keeps(c, p, h, h'', w + w')
  {
    hide View, Fresh, Synced;
    forall a: u32 | Protected(p, a) && a !in w + w'
      ensures KeepsAt(c, h, h'', a)
    {
      assert KeepsAt(c, h, h', a) && KeepsAt(c, h', h'', a);
    }
  }

  lemma SyncedKept(c: Chip, h: Hw, h': Hw, a: u32)
    requires KeepsAt(c, h, h', a) && Synced(c, h, a)
    ensures Synced(c, h', a) && h'.raw(a) == h.raw(a)
  {}

  // ------------------------------------------------------------------ chains the engine may read

  /** `n` bytes that are protected and on which both memories agree. */
  ghost predicate Steady(c: Chip, p: Plan, h: Hw, at: u32, n: nat) {
    forall i | 0 <= i < n :: Protected(p, At(at, i)) && Synced(c, h, At(at, i))
  }

  /** All elements of a transfer lie in the target area. */
  ghost predicate InTarget(p: Plan, d: Desc) {
    forall k, a: u32 | 0 <= k < Elements(d) && Past(a, ElementAt(d.dar, Elements(d), k)) < 4 :: p.target(a)
  }

  ghost predicate LinkReady(c: Chip, p: Plan, h: Hw, l: Link) {
    Steady(c, p, h, l.at, 16) && DescAt(h.raw, l.at) == l.d && (Copies(l.d) ==> InTarget(p, l.d))
  }

  /** The channel's pointer entry and every descriptor can be read from raw memory. */
  ghost predicate JobReady(c: Chip, p: Plan, h: Hw, ch: nat, job: seq<Link>) {
    && job != [] && Steady(c, p, h, Entry(c, ch), 4) && WordAt(h.raw, Entry(c, ch)) == job[0].at
    && (forall j | 0 <= j < |job| :: LinkReady(c, p, h, job[j]))
    && (forall j | 0 <= j < |job| && Op(job[j].d) == 2 :: j + 1 < |job| && job[j].d.llp == job[j + 1].at)
  }

  /** A running channel executes a descriptor of its job. */
  ghost predicate EngineOk(c: Chip, p: Plan, h: Hw, ch: nat, job: seq<Link>)
    requires ch < |h.chans|
  {
    var e := h.chans[ch];
    && (e == Enabled || e == Armed || e.Moving? ==> JobReady(c, p, h, ch, job))
    && (e.Moving? ==> exists j | 0 <= j < |job| :: job[j].d == e.d)
  }

  ghost predicate EnginesOk(c: Chip, p: Plan, h: Hw, jobs: seq<seq<Link>>) {
    |jobs| == |h.chans| && forall ch | 0 <= ch < |jobs| :: EngineOk(c, p, h, ch, jobs[ch])
  }

  lemma MovesInTarget(c: Chip, p: Plan, h: Hw, jobs: seq<seq<Link>>, s: Step, a: u32)
    requires EnginesOk(c, p, h, jobs) && Moves(h, s, a)
    ensures p.target(a)
  {
    hide Copies, Elements, ElementAt, DescAt, Steady, Op;
    var e := h.chans[s.ch];
    assert EngineOk(c, p, h, s.ch, jobs[s.ch]);
    var j :| 0 <= j < |jobs[s.ch]| && jobs[s.ch][j].d == e.d;
    assert LinkReady(c, p, h, jobs[s.ch][j]);
  }

  /** One step keeps every protected byte it does not itself store. */
  lemma StepKeeps(c: Chip, p: Plan, h: Hw, jobs: seq<seq<Link>>, s: Step)
    requires EnginesOk(c, p, h, jobs)
    ensures Keeps(c, p, h, Do(c, h, s), if s.Store? then {s.a} else {})
    ensures EnvStep(p, s) ==> Keeps(c, p, h, Do(c, h, s), {})
  {
    hide EnginesOk, KeepsAt, Do, Moves;
    var h' := Do(c, h, s);
    forall a: u32 | Protected(p, a) && !(s.Store? && s.a == a)
      ensures KeepsAt(c, h, h', a)
    {
      if Moves(h, s, a) { MovesInTarget(c, p, h, jobs, s, a); assert false; }
      ByteKept(c, h, s, a);
    }
  }

  lemma SteadyKept(c: Chip, p: Plan, h: Hw, h': Hw, at: u32, n: nat, w: set<u32>)
    requires Steady(c, p, h, at, n) && Keeps(c, p, h, h', w) && forall i | 0 <= i < n :: At(at, i) !in w
    ensures Steady(c, p, h', at, n)
    ensures forall i | 0 <= i < n :: h'.raw(At(at, i)) == h.raw(At(at, i))
  {
    hide KeepsAt, Synced, At;
    forall i | 0 <= i < n
      ensures Synced(c, h', At(at, i)) && h'.raw(At(at, i)) == h.raw(At(at, i))
    {
      SyncedKept(c, h, h', At(at, i));
    }
  }

  lemma AtAt(a: u32, i: int, j: int)
    ensures At(At(a, i), j) == At(a, i + j)
  {}

  lemma AtZero(a: u32)
    ensures At(a, 0) == a
  {}

  lemma SameWord(m: u32 -> byte, m': u32 -> byte, at: u32, n: nat, o: nat)
    requires o + 4 <= n && forall i | 0 <= i < n :: m'(At(at, i)) == m(At(at, i))
    ensures WordAt(m', At(at, o)) == WordAt(m, At(at, o))
  {
    AtAt(at, o, 1);
    AtAt(at, o, 2);
    AtAt(at, o, 3);
    hide At;
  }

  lemma LinkKept(c: Chip, p: Plan, h: Hw, h': Hw, l: Link, w: set<u32>)
    requires LinkReady(c, p, h, l) && Keeps(c, p, h, h', w) && forall i | 0 <= i < 16 :: At(l.at, i) !in w
    ensures LinkReady(c, p, h', l)
  {
    hide Keeps, Steady, InTarget, WordAt, Copies;
    SteadyKept(c, p, h, h', l.at, 16, w);
    SameDesc(h.raw, h'.raw, l.at);
  }

  lemma SameDesc(m: u32 -> byte, m': u32 -> byte, at: u32)
    requires forall i | 0 <= i < 16 :: m'(At(at, i)) == m(At(at, i))
    ensures DescAt(m', at) == DescAt(m, at)
  {
    AtZero(at);
    hide At, WordAt;
    SameWord(m, m', at, 16, 0);
    SameWord(m, m', at, 16, 4);
    SameWord(m, m', at, 16, 8);
    SameWord(m, m', at, 16, 12);
  }

  /** The bytes of a job: its pointer entry and its descriptors. */
  ghost predicate JobBytesAvoid(c: Chip, ch: nat, job: seq<Link>, w: set<u32>) {
    && (forall i | 0 <= i < 4 :: At(Entry(c, ch), i) !in w)
    && (forall j, i | 0 <= j < |job| && 0 <= i < 16 :: At(job[j].at, i) !in w)
  }

  lemma JobKept(c: Chip, p: Plan, h: Hw, h': Hw, ch: nat, job: seq<Link>, w: set<u32>)
    requires JobReady(c, p, h, ch, job) && Keeps(c, p, h, h', w) && JobBytesAvoid(c, ch, job, w)
    ensures JobReady(c, p, h', ch, job)
  {
    hide Keeps, Steady, LinkReady, WordAt, Op, At, Entry;
    EntryKept(c, p, h, h', ch, w);
    forall j | 0 <= j < |job|
      ensures LinkReady(c, p, h', job[j])
    {
      LinkKept(c, p, h, h', job[j], w);
    }
  }

  lemma EntryKept(c: Chip, p: Plan, h: Hw, h': Hw, ch: nat, w: set<u32>)
    requires Steady(c, p, h, Entry(c, ch), 4) && Keeps(c, p, h, h', w)
    requires forall i | 0 <= i < 4 :: At(Entry(c, ch), i) !in w
    ensures Steady(c, p, h', Entry(c, ch), 4) && WordAt(h'.raw, Entry(c, ch)) == WordAt(h.raw, Entry(c, ch))
  {
    hide Keeps, Steady, WordAt, At, Entry;
    SteadyKept(c, p, h, h', Entry(c, ch), 4, w);
    AtZero(Entry(c, ch));
    SameWord(h.raw, h'.raw, Entry(c, ch), 4, 0);
  }

  predicate Running(e: Engine) {
    e == Enabled || e == Armed || e.Moving?
  }

  ghost predicate JobsAvoid(c: Chip, h: Hw, jobs: seq<seq<Link>>, w: set<u32>) {
    |jobs| == |h.chans| && forall ch | 0 <= ch < |jobs| && Running(h.chans[ch]) :: JobBytesAvoid(c, ch, jobs[ch], w)
  }

  /** What the engine fetches is the job's next descriptor. */
  lemma FetchesJob(c: Chip, p: Plan, h: Hw, ch: nat, job: seq<Link>, s: Step)
    requires ch < |h.chans| && EngineOk(c, p, h, ch, job) && (s == Fetch(ch) || s == Finish(ch))
    ensures Do(c, h, s).chans[ch].Moving? ==> exists j | 0 <= j < |job| :: job[j].d == Do(c, h, s).chans[ch].d
    ensures Running(Do(c, h, s).chans[ch]) ==> Running(h.chans[ch])
  {
    hide Steady, InTarget, Copies, Op, Elements, WordAt, Entry, DescAt;
    var e := h.chans[ch];
    if e == Armed {
      assert LinkReady(c, p, h, job[0]);
    } else if e.Moving? {
      var j :| 0 <= j < |job| && job[j].d == e.d;
      if Op(e.d) == 2 { assert LinkReady(c, p, h, job[j + 1]); }
    }
  }

  lemma EngineStep(c: Chip, p: Plan, h: Hw, ch: nat, job: seq<Link>, s: Step, w: set<u32>)
    requires ch < |h.chans| && EngineOk(c, p, h, ch, job) && Keeps(c, p, h, Do(c, h, s), w)
    requires Running(h.chans[ch]) ==> JobBytesAvoid(c, ch, job, w)
    ensures ch < |Do(c, h, s).chans| && EngineOk(c, p, Do(c, h, s), ch, job)
  {
    var h' := Do(c, h, s);
    MemoryOnlyBy(c, h, s);
    if s == Fetch(ch) || s == Finish(ch) { FetchesJob(c, p, h, ch, job, s); }
    hide Keeps, JobReady, JobBytesAvoid, Copies, Op, Elements, Entry, WordAt, DescAt;
    if Running(h'.chans[ch]) {
      JobKept(c, p, h, h', ch, job, w);
    }
  }

  lemma EnginesStep(c: Chip, p: Plan, h: Hw, jobs: seq<seq<Link>>, s: Step, w: set<u32>)
    requires EnginesOk(c, p, h, jobs) && Keeps(c, p, h, Do(c, h, s), w) && JobsAvoid(c, h, jobs, w)
    ensures EnginesOk(c, p, Do(c, h, s), jobs)
  {
    SameChannels(c, h, s);
    hide Do, EngineOk, Keeps, JobBytesAvoid;
    forall ch | 0 <= ch < |jobs|
      ensures EngineOk(c, p, Do(c, h, s), ch, jobs[ch])
    {
      EngineStep(c, p, h, ch, jobs[ch], s, w);
    }
  }

  lemma SameChannels(c: Chip, h: Hw, s: Step)
    ensures |Do(c, h, s).chans| == |h.chans|
  {
    MemoryOnlyBy(c, h, s);
    hide Copies, Op, Elements, Entry, WordAt, DescAt, ElementAt;
  }

  // ------------------------------------------------------------------ a copy in progress

  function Offset(y: Copy, ch: nat): nat {
    ch * y.slice
  }

  /** A byte of a line that holds source or destination bytes. */
  ghost predicate CopyLine(c: Chip, y: Copy, l: u32) {
    exists i | 0 <= i < y.size :: l == LineOf(c, At(y.src, i)) || l == LineOf(c, At(y.dst, i))
  }

  /** Source and destination do not overlap or wrap, DMA may write only the destination, and
      their lines are written by nobody else. */
  ghost predicate CopyOk(c: Chip, p: Plan, y: Copy) {
    && y.src + y.size <= TWO32 && y.dst + y.size <= TWO32
    && (y.src + y.size <= y.dst || y.dst + y.size <= y.src)
    && (forall a: u32 :: p.target(a) <==> y.dst <= a < y.dst + y.size)
    && (forall a: u32 | CopyLine(c, y, LineOf(c, a)) :: p.quiet(a))
  }

  /** The descriptor that dmac_config_desc makes for a slice. */
  predicate SliceDesc(y: Copy, ch: nat, d: Desc) {
    && Copies(d) && 4 * Elements(d) == y.slice && Op(d) == 1 && (Field(d.ctrl, 29, 1) == 1 <==> y.irq)
    && d.sar == At(y.src, Offset(y, ch) + y.slice - 4) && d.dar == At(y.dst, Offset(y, ch) + y.slice - 4)
  }

  function DstByte(y: Copy, ch: nat, i: int): u32 {
    At(y.dst, Offset(y, ch) + i)
  }

  /** The first `n` bytes of a slice have arrived. */
  ghost predicate Arrived(y: Copy, h: Hw, ch: nat, n: int) {
    forall i | 0 <= i < n :: h.raw(DstByte(y, ch, i)) == y.want(Offset(y, ch) + i)
  }

  /** A slice is done as far as its engine says. */
  ghost predicate SliceOk(y: Copy, h: Hw, ch: nat, job: seq<Link>)
    requires ch < |h.chans|
  {
    match h.chans[ch]
    case Off => true
    case Enabled => job != [] && |job| == 1 && SliceDesc(y, ch, job[0].d)
    case Armed => |job| == 1 && SliceDesc(y, ch, job[0].d)
    case Moving(d, k) => |job| == 1 && SliceDesc(y, ch, job[0].d) && d == job[0].d && k <= Elements(d)
                         && Arrived(y, h, ch, 4 * k)
    case Finished(irq) => irq == y.irq && Arrived(y, h, ch, y.slice)
    case Done => y.irq && Arrived(y, h, ch, y.slice)
  }

  function DoneCount(es: seq<Engine>): nat {
    if es == [] then 0 else DoneCount(es[..|es| - 1]) + if es[|es| - 1] == Done then 1 else 0
  }

  /** Source bytes are in raw memory, no line of the copy is dirty, every slice is done as far
      as its engine says, and callbacks are not counted twice. */
  ghost predicate CopyInv(c: Chip, h: Hw, jobs: seq<seq<Link>>, y: Copy, begun: nat) {
    && |jobs| == |h.chans| && begun <= y.used <= |jobs| && y.used * y.slice == y.size
    && (forall l: u32 | CopyLine(c, y, l) :: !IsDirty(h, l))
    && (forall i | 0 <= i < y.size :: h.raw(At(y.src, i)) == y.want(i))
    && (forall ch | 0 <= ch < begun :: SliceOk(y, h, ch, jobs[ch]))
    && (forall ch | begun <= ch < |jobs| :: Idle(h.chans[ch]))
    && h.count == DoneCount(h.chans[..begun]) + y.extra
  }

  /** A channel that does nothing and has nothing to report. */
  predicate Idle(e: Engine) {
    e == Off || e == Finished(false) || e == Done
  }

  lemma Further(ch: nat, d: nat, slice: nat)
    ensures ch * slice + slice <= (ch + 1 + d) * slice
  {
    var x, z := ch * slice, d * slice;
    assert z >= 0;
    assert (ch + 1 + d) * slice == x + slice + z;
  }

  lemma OffsetBounds(y: Copy, ch: nat, used: nat)
    requires used * y.slice == y.size && ch < used
    ensures Offset(y, ch) + y.slice <= y.size
  {
    Further(ch, used - ch - 1, y.slice);
  }

  lemma OffsetsApart(y: Copy, ch: nat, ch': nat)
    requires ch < ch'
    ensures Offset(y, ch) + y.slice <= Offset(y, ch')
  {
    Further(ch, ch' - ch - 1, y.slice);
  }

  /** Where element `k` of a slice is read and written. */
  lemma ElementPlace(y: Copy, ch: nat, d: Desc, k: nat)
    requires SliceDesc(y, ch, d) && k < Elements(d)
    ensures ElementAt(d.sar, Elements(d), k) == At(y.src, Offset(y, ch) + 4 * k)
    ensures ElementAt(d.dar, Elements(d), k) == At(y.dst, Offset(y, ch) + 4 * k)
  {
    hide Elements, Copies, Op, Offset, At, Wrap;
    var o := Offset(y, ch) + y.slice - 4;
    BackFrom(y.src, o, 4 * (Elements(d) - 1 - k));
    BackFrom(y.dst, o, 4 * (Elements(d) - 1 - k));
  }

  lemma BackFrom(base: u32, o: int, v: int)
    ensures Wrap(At(base, o) - v) == At(base, o - v)
  {}

  /** A byte of an area that does not wrap is moved when it is one of the element's four. */
  lemma PastInArea(a: u32, base: u32, size: nat, x: nat)
    requires base + size <= TWO32 && x + 4 <= size
    ensures Past(a, At(base, x)) < 4 <==> base + x <= a < base + x + 4
    ensures base + x <= a < base + x + 4 ==> At(base, x) == base + x && Past(a, At(base, x)) == a - base - x
  {}

  /** A step leaves a byte of the copy's lines alone unless it moves it. */
  lemma CopyByteKept(c: Chip, h: Hw, s: Step, a: u32)
    requires !IsDirty(h, LineOf(c, a)) && !Moves(h, s, a) && (s.Store? ==> LineOf(c, s.a) != LineOf(c, a))
    ensures Do(c, h, s).raw(a) == h.raw(a)
  {
    hide Do, Moves, IsDirty;
    LineKept(c, h, s, a);
    CleanKept(c, h, s, LineOf(c, a));
  }

  /** What the steps of a channel's engine move lies in its slice. */
  lemma MovesInSlice(c: Chip, h: Hw, y: Copy, begun: nat, jobs: seq<seq<Link>>, s: Step, a: u32)
    requires Moves(h, s, a) && CopyInv(c, h, jobs, y, begun) && y.dst + y.size <= TWO32
    ensures s.ch < begun && h.chans[s.ch].Moving?
    ensures var x := Offset(y, s.ch) + 4 * h.chans[s.ch].k;
      y.dst + x <= a < y.dst + x + 4 && x + 4 <= Offset(y, s.ch) + y.slice <= y.size
  {
    hide Elements, Copies, Op, Offset, ElementAt, Past, At;
    assert SliceOk(y, h, s.ch, jobs[s.ch]);
    var e := h.chans[s.ch];
    ElementPlace(y, s.ch, e.d, e.k);
    OffsetBounds(y, s.ch, y.used);
    PastInArea(a, y.dst, y.size, Offset(y, s.ch) + 4 * e.k);
  }

  lemma DstInCopyLine(c: Chip, y: Copy, i: nat)
    requires i < y.size
    ensures CopyLine(c, y, LineOf(c, At(y.dst, i))) && CopyLine(c, y, LineOf(c, At(y.src, i)))
  {}

  /** Nothing moves the bytes of a slice but its own next element. */
  lemma NotMoved(c: Chip, h: Hw, y: Copy, begun: nat, jobs: seq<seq<Link>>, s: Step, ch: nat, i: nat)
    requires CopyInv(c, h, jobs, y, begun) && y.dst + y.size <= TWO32 && ch < begun && i < y.slice
    requires s == Move(ch) && h.chans[ch].Moving? ==> i < 4 * h.chans[ch].k
    ensures !Moves(h, s, DstByte(y, ch, i))
  {
    var a := DstByte(y, ch, i);
    assert y.used * y.slice == y.size && ch < y.used;
    assert Moves(h, s, a) ==> s == Move(s.ch);
    hide CopyInv, Moves, Offset, At;
    if Moves(h, s, a) {
      OffsetBounds(y, ch, y.used);
      MovesInSlice(c, h, y, begun, jobs, s, a);
      InArea(y.dst, y.size, Offset(y, ch) + i);
      if s.ch < ch {
        OffsetsApart(y, s.ch, ch);
      } else if ch < s.ch {
        OffsetsApart(y, ch, s.ch);
      }
      assert false;
    }
  }

  lemma InArea(base: u32, size: nat, x: nat)
    requires base + size <= TWO32 && x < size
    ensures At(base, x) == base + x
  {}

  /** Bytes that arrived stay. */
  lemma ArrivedKept(c: Chip, h: Hw, y: Copy, begun: nat, jobs: seq<seq<Link>>, s: Step, ch: nat, n: nat)
    requires CopyInv(c, h, jobs, y, begun) && y.dst + y.size <= TWO32 && ch < begun && n <= y.slice
    requires Arrived(y, h, ch, n)
    requires s.Store? ==> !CopyLine(c, y, LineOf(c, s.a))
    requires s == Move(ch) && h.chans[ch].Moving? ==> n <= 4 * h.chans[ch].k
    ensures Arrived(y, Do(c, h, s), ch, n)
  {
    OffsetBounds(y, ch, y.used);
    hide Do, Moves, IsDirty, SliceOk, Offset, CopyLine, LineOf, DstByte;
    forall i | 0 <= i < n
      ensures Do(c, h, s).raw(DstByte(y, ch, i)) == h.raw(DstByte(y, ch, i))
    {
      NotMoved(c, h, y, begun, jobs, s, ch, i);
      DstByteInLine(c, y, ch, i);
      CopyByteKept(c, h, s, DstByte(y, ch, i));
    }
  }

  lemma DstByteInLine(c: Chip, y: Copy, ch: nat, i: nat)
    requires Offset(y, ch) + i < y.size
    ensures CopyLine(c, y, LineOf(c, DstByte(y, ch, i)))
  {
    DstInCopyLine(c, y, Offset(y, ch) + i);
  }

  /** Moving an element brings four more bytes of the slice. */
  lemma MoveArrives(c: Chip, h: Hw, y: Copy, begun: nat, jobs: seq<seq<Link>>, ch: nat)
    requires CopyInv(c, h, jobs, y, begun) && y.dst + y.size <= TWO32 && y.src + y.size <= TWO32 && ch < begun
    requires h.chans[ch].Moving? && h.chans[ch].k < Elements(h.chans[ch].d)
    ensures SliceOk(y, Do(c, h, Move(ch)), ch, jobs[ch])
  {
    hide Elements, Copies, Op, Offset, ElementAt, DstByte, CopyLine, IsDirty, At, Do, Moved;
    var e := h.chans[ch];
    var h' := Do(c, h, Move(ch));
    assert SliceOk(y, h, ch, jobs[ch]);
    assert SliceDesc(y, ch, e.d) && Arrived(y, h, ch, 4 * e.k) && 4 * Elements(e.d) == y.slice && Copies(e.d);
    ElementPlace(y, ch, e.d, e.k);
    MoveEffect(c, h, ch);
    hide SliceDesc;
    OffsetBounds(y, ch, y.used);
    ArrivedKept(c, h, y, begun, jobs, Move(ch), ch, 4 * e.k);
    forall i | 4 * e.k <= i < 4 * e.k + 4
      ensures h'.raw(DstByte(y, ch, i)) == y.want(Offset(y, ch) + i)
    {
      ElementByte(y, h.raw, ch, e.k, i);
    }
  }

  lemma MoveEffect(c: Chip, h: Hw, ch: nat)
    requires ch < |h.chans| && h.chans[ch].Moving? && Copies(h.chans[ch].d) && h.chans[ch].k < Elements(h.chans[ch].d)
    ensures var e, h' := h.chans[ch], Do(c, h, Move(ch));
      && h'.chans == h.chans[ch := Moving(e.d, e.k + 1)]
      && h'.raw == Moved(h.raw, ElementAt(e.d.sar, Elements(e.d), e.k), ElementAt(e.d.dar, Elements(e.d), e.k))
  {}

  lemma ElementByte(y: Copy, raw: u32 -> byte, ch: nat, k: nat, i: nat)
    requires y.dst + y.size <= TWO32 && 4 * k <= i < 4 * k + 4 && Offset(y, ch) + 4 * k + 4 <= y.size
    requires forall j | 0 <= j < y.size :: raw(At(y.src, j)) == y.want(j)
    ensures Moved(raw, At(y.src, Offset(y, ch) + 4 * k), At(y.dst, Offset(y, ch) + 4 * k))(DstByte(y, ch, i))
              == y.want(Offset(y, ch) + i)
  {
    hide Offset, At, Moved;
    MovedAt(raw, y.src, y.dst, y.size, Offset(y, ch) + 4 * k, i - 4 * k);
  }

  lemma MovedAt(raw: u32 -> byte, src: u32, dst: u32, size: nat, o: nat, j: nat)
    requires dst + size <= TWO32 && o + 4 <= size && j < 4
    ensures Moved(raw, At(src, o), At(dst, o))(At(dst, o + j)) == raw(At(src, o + j))
  {
    var a := At(dst, o + j);
    InArea(dst, size, o + j);
    PastInArea(a, dst, size, o);
    AtAt(src, o, j);
    hide At, Past;
  }

  lemma {:induction false} DoneCountUpdate(es: seq<Engine>, ch: nat, e: Engine)
    requires ch < |es|
    ensures DoneCount(es[ch := e]) + (if es[ch] == Done then 1 else 0) == DoneCount(es) + if e == Done then 1 else 0
  {
    var es' := es[ch := e];
    if ch == |es| - 1 {
      assert es'[..|es| - 1] == es[..|es| - 1];
    } else {
      assert es'[..|es| - 1] == es[..|es| - 1][ch := e];
      DoneCountUpdate(es[..|es| - 1], ch, e);
    }
  }

  /** The count keeps up with the channels that are done. */
  lemma CountKept(c: Chip, h: Hw, s: Step, begun: nat, extra: nat)
    requires begun <= |h.chans| && h.count == DoneCount(h.chans[..begun]) + extra
    requires forall ch | begun <= ch < |h.chans| :: Idle(h.chans[ch])
    ensures |Do(c, h, s).chans| == |h.chans|
    ensures Do(c, h, s).count == DoneCount(Do(c, h, s).chans[..begun]) + extra
  {
    hide Copies, Op, Elements, Entry, WordAt, DescAt, ElementAt, DoneCount;
    MemoryOnlyBy(c, h, s);
    var es, es' := h.chans, Do(c, h, s).chans;
    if (s.Fetch? || s.Move? || s.Finish? || s.Interrupt?) && s.ch < |es| {
      EngineEffect(c, h, s, s.ch);
      assert es' == es[s.ch := es'[s.ch]];
      if s.ch < begun {
        DoneCountUpdate(es[..begun], s.ch, es'[s.ch]);
        assert es'[..begun] == es[..begun][s.ch := es'[s.ch]];
      } else {
        assert es'[..begun] == es[..begun];
      }
    }
  }

  /** One slice, over any step. */
  lemma SliceStep(c: Chip, p: Plan, h: Hw, jobs: seq<seq<Link>>, y: Copy, begun: nat, s: Step, ch: nat)
    requires EnginesOk(c, p, h, jobs) && CopyInv(c, h, jobs, y, begun) && CopyOk(c, p, y) && ch < begun
    requires s.Store? ==> !CopyLine(c, y, LineOf(c, s.a))
    ensures ch < |Do(c, h, s).chans| && SliceOk(y, Do(c, h, s), ch, jobs[ch])
  {
    assert SliceOk(y, h, ch, jobs[ch]) && EngineOk(c, p, h, ch, jobs[ch]);
    if s == Move(ch) && h.chans[ch].Moving? && h.chans[ch].k < Elements(h.chans[ch].d) {
      MoveArrives(c, h, y, begun, jobs, ch);
    } else {
      hide CopyInv, EnginesOk, CopyOk, Copies, Elements, DescAt, WordAt, Entry, ElementAt, Offset, Op;
      OtherSlice(c, p, h, jobs, y, begun, s, ch);
    }
  }

  lemma OtherSlice(c: Chip, p: Plan, h: Hw, jobs: seq<seq<Link>>, y: Copy, begun: nat, s: Step, ch: nat)
    requires EnginesOk(c, p, h, jobs) && CopyInv(c, h, jobs, y, begun) && CopyOk(c, p, y) && ch < begun
    requires s.Store? ==> !CopyLine(c, y, LineOf(c, s.a))
    requires SliceOk(y, h, ch, jobs[ch]) && EngineOk(c, p, h, ch, jobs[ch])
    requires !(s == Move(ch) && h.chans[ch].Moving? && h.chans[ch].k < Elements(h.chans[ch].d))
    ensures ch < |Do(c, h, s).chans| && SliceOk(y, Do(c, h, s), ch, jobs[ch])
  {
    assert y.dst + y.size <= TWO32 && ch < |h.chans|;
    hide CopyInv, EnginesOk, CopyOk, Copies, Elements, DescAt, WordAt, Entry, ElementAt, Offset, Arrived, JobReady,
      Do, Moves,
      CopyLine, SliceDesc;
    var e := h.chans[ch];
    EngineEffect(c, h, s, ch);
    if e == Armed && s == Fetch(ch) {
      FetchedSlice(c, p, h, y, ch, jobs[ch]);
    } else if e.Moving? {
      MovingSlice(c, h, jobs, y, begun, s, ch);
    } else if e.Finished? || e == Done {
      ArrivedKept(c, h, y, begun, jobs, s, ch, y.slice);
    }
  }

  lemma FetchedSlice(c: Chip, p: Plan, h: Hw, y: Copy, ch: nat, job: seq<Link>)
    requires ch < |h.chans| && h.chans[ch] == Armed && SliceOk(y, h, ch, job) && EngineOk(c, p, h, ch, job)
    ensures ch < |Do(c, h, Fetch(ch)).chans| && SliceOk(y, Do(c, h, Fetch(ch)), ch, job)
  {
    hide Copies, Elements, DescAt, WordAt, Entry, ElementAt, Offset, Arrived, JobReady, Do, SliceDesc;
    var h' := Do(c, h, Fetch(ch));
    EngineEffect(c, h, Fetch(ch), ch);
    FetchesJob(c, p, h, ch, job, Fetch(ch));
    NothingArrived(y, h', ch);
    var e' := h'.chans[ch];
    assert e'.Moving? ==> e'.d == job[0].d && 4 * e'.k == 0;
  }

  lemma MovingSlice(c: Chip, h: Hw, jobs: seq<seq<Link>>, y: Copy, begun: nat, s: Step, ch: nat)
    requires CopyInv(c, h, jobs, y, begun) && y.dst + y.size <= TWO32 && ch < begun
    requires s.Store? ==> !CopyLine(c, y, LineOf(c, s.a))
    requires SliceOk(y, h, ch, jobs[ch]) && h.chans[ch].Moving? && !(s == Move(ch) && h.chans[ch].k < Elements(h.chans[ch].d))
    ensures ch < |Do(c, h, s).chans| && SliceOk(y, Do(c, h, s), ch, jobs[ch])
  {
    assert ch < |h.chans|;
    hide CopyInv, Elements, Offset, Arrived, Do, CopyLine, SliceDesc;
    var e := h.chans[ch];
    EngineEffect(c, h, s, ch);
    EnoughElements(y, ch, e.d);
    SliceDescOp(y, ch, e.d);
    ArrivedKept(c, h, y, begun, jobs, s, ch, 4 * e.k);
  }

  lemma NothingArrived(y: Copy, h: Hw, ch: nat)
    ensures Arrived(y, h, ch, 0)
  {}

  lemma SliceDescOp(y: Copy, ch: nat, d: Desc)
    requires SliceDesc(y, ch, d)
    ensures Op(d) == 1 && (Field(d.ctrl, 29, 1) == 1 <==> y.irq)
  {}

  lemma EnoughElements(y: Copy, ch: nat, d: Desc)
    requires SliceDesc(y, ch, d)
    ensures 4 * Elements(d) == y.slice
  {}

  /** How a step changes one channel's engine. */
  lemma EngineEffect(c: Chip, h: Hw, s: Step, ch: nat)
    requires ch < |h.chans|
    ensures |Do(c, h, s).chans| == |h.chans|
    ensures var e, e' := h.chans[ch], Do(c, h, s).chans[ch];
      || e' == e
      || (e == Armed && s == Fetch(ch) && e'.Moving? && e'.k == 0)
      || (e.Moving? && s == Move(ch) && e.k < Elements(e.d) && e' == Moving(e.d, e.k + 1))
      || (e.Moving? && s == Finish(ch) && e.k == Elements(e.d) && (if Op(e.d) == 1 then e' == Finished(Field(e.d.ctrl, 29, 1) == 1) else Op(e.d) == 2 && e'.Moving?))
      || (e == Finished(true) && s == Interrupt(ch) && e' == Done)
  {
    hide Elements, Copies, DescAt, Op, ElementAt, WordAt, Entry;
    MemoryOnlyBy(c, h, s);
  }

  lemma CopyStep(c: Chip, p: Plan, h: Hw, jobs: seq<seq<Link>>, y: Copy, begun: nat, s: Step)
    requires EnginesOk(c, p, h, jobs) && CopyInv(c, h, jobs, y, begun) && CopyOk(c, p, y)
    requires s.Store? ==> !CopyLine(c, y, LineOf(c, s.a))
    ensures CopyInv(c, Do(c, h, s), jobs, y, begun)
  {
    var h' := Do(c, h, s);
    SameChannels(c, h, s);
    CountKept(c, h, s, begun, y.extra);
    hide Do, IsDirty, CopyLine, SliceOk, DoneCount, EnginesOk;
    forall l: u32 | CopyLine(c, y, l) ensures !IsDirty(h', l) {
      CleanKept(c, h, s, l);
    }
    forall i | 0 <= i < y.size ensures h'.raw(At(y.src, i)) == y.want(i) {
      SourceKept(c, p, h, jobs, y, s, i);
    }
    forall ch | 0 <= ch < begun ensures SliceOk(y, h', ch, jobs[ch]) {
      SliceStep(c, p, h, jobs, y, begun, s, ch);
    }
    forall ch | begun <= ch < |jobs| ensures Idle(h'.chans[ch]) {
      EngineEffect(c, h, s, ch);
    }
  }

  lemma SourceKept(c: Chip, p: Plan, h: Hw, jobs: seq<seq<Link>>, y: Copy, s: Step, i: nat)
    requires EnginesOk(c, p, h, jobs) && CopyOk(c, p, y) && i < y.size && !IsDirty(h, LineOf(c, At(y.src, i)))
    requires s.Store? ==> !CopyLine(c, y, LineOf(c, s.a))
    ensures Do(c, h, s).raw(At(y.src, i)) == h.raw(At(y.src, i))
  {
    DstInCopyLine(c, y, i);
    InArea(y.src, y.size, i);
    hide Do, IsDirty, EnginesOk, CopyLine, Moves, LineOf;
    if Moves(h, s, At(y.src, i)) { MovesInTarget(c, p, h, jobs, s, At(y.src, i)); assert false; }
    CopyByteKept(c, h, s, At(y.src, i));
  }

  // ------------------------------------------------------------------ the invariant of a run

  ghost predicate Inv(c: Chip, p: Plan, h: Hw, jobs: seq<seq<Link>>, begun: nat) {
    && EnginesOk(c, p, h, jobs)
    && (p.copy.Some? ==> CopyOk(c, p, p.copy.value) && CopyInv(c, h, jobs, p.copy.value, begun))
  }

  /** Any step of the hardware or of other code. */
  lemma EnvStepInv(c: Chip, p: Plan, h: Hw, jobs: seq<seq<Link>>, begun: nat, s: Step)
    requires Inv(c, p, h, jobs, begun) && EnvStep(p, s)
    ensures Inv(c, p, Do(c, h, s), jobs, begun) && Keeps(c, p, h, Do(c, h, s), {})
  {
    hide Do, CopyInv, Keeps;
    StepKeeps(c, p, h, jobs, s);
    EnginesStep(c, p, h, jobs, s, {});
    if p.copy.Some? {
      CopyStep(c, p, h, jobs, p.copy.value, begun, s);
    }
  }

  /** A store by the driver to a byte that no running channel needs. */
  lemma StoreInv(c: Chip, p: Plan, h: Hw, jobs: seq<seq<Link>>, begun: nat, a: u32, v: byte)
    requires Inv(c, p, h, jobs, begun) && JobsAvoid(c, h, jobs, {a})
    requires p.copy.Some? ==> !CopyLine(c, p.copy.value, LineOf(c, a))
    ensures Inv(c, p, Do(c, h, Store(a, v)), jobs, begun) && Keeps(c, p, h, Do(c, h, Store(a, v)), {a})
    ensures View(c, Do(c, h, Store(a, v)), a) == v && Fresh(c, Do(c, h, Store(a, v)), a)
    ensures Do(c, h, Store(a, v)).chans == h.chans
  {
    Stored(c, h, a, v);
    MemoryOnlyBy(c, h, Store(a, v));
    hide Do, CopyInv, Keeps, View, Fresh;
    StepKeeps(c, p, h, jobs, Store(a, v));
    EnginesStep(c, p, h, jobs, Store(a, v), {a});
    if p.copy.Some? {
      CopyStep(c, p, h, jobs, p.copy.value, begun, Store(a, v));
    }
  }

  // ------------------------------------------------------------------ what the hardware leaves alone over time

  /** No channel starts by itself, and an idle or finished one stays so. */
  ghost predicate Settles(h: Hw, h': Hw) {
    && |h'.chans| == |h.chans|
    && (forall ch | 0 <= ch < |h.chans| ::
          && (Running(h'.chans[ch]) ==> Running(h.chans[ch])) && (Idle(h.chans[ch]) ==> h'.chans[ch] == h.chans[ch])
          && Phase(h'.chans[ch]) == Phase(h.chans[ch]))
    && (AllIdle(h) ==> h'.count == h.count)
  }

  /** Off, enabled, or triggered: only the driver moves a channel from one to the next. */
  function Phase(e: Engine): nat {
    if e == Off then 0 else if e == Enabled then 1 else 2
  }

  predicate AllIdle(h: Hw) {
    forall ch | 0 <= ch < |h.chans| :: Idle(h.chans[ch])
  }

  lemma IdleCount(c: Chip, h: Hw, s: Step)
    requires AllIdle(h)
    ensures Do(c, h, s).count == h.count
  {
    MemoryOnlyBy(c, h, s);
    hide Copies, Op, Elements, Entry, WordAt, DescAt, ElementAt;
  }

  /** No other code writes to this line. */
  ghost predicate QuietLine(c: Chip, p: Plan, l: u32) {
    forall a: u32 | LineOf(c, a) == l :: p.quiet(a)
  }

  /** In quiet lines the driver does not write, clean stays clean, and outside the target
      area what reaches memory stays the same. */
  ghost predicate LineKeptAt(c: Chip, p: Plan, h: Hw, h': Hw, a: u32) {
    && (!p.target(a) ==> Mem(c, h', a) == Mem(c, h, a))
    && (!IsDirty(h, LineOf(c, a)) ==> !IsDirty(h', LineOf(c, a)))
  }

  ghost predicate LinesKept(c: Chip, p: Plan, h: Hw, h': Hw, w: set<u32>) {
    forall a: u32 | QuietLine(c, p, LineOf(c, a)) && (forall b | b in w :: LineOf(c, b) != LineOf(c, a)) ::
      LineKeptAt(c, p, h, h', a)
  }

  ghost predicate Evolves(c: Chip, p: Plan, h: Hw, h': Hw, w: set<u32>) {
    Keeps(c, p, h, h', w) && Settles(h, h') && LinesKept(c, p, h, h', w)
  }

  lemma EvolvesRefl(c: Chip, p: Plan, h: Hw)
    ensures Evolves(c, p, h, h, {})
  {}

  lemma EvolvesTrans(c: Chip, p: Plan, h: Hw, h': Hw, h'': Hw, w: set<u32>, w': set<u32>, all: set<u32>)
    requires Evolves(c, p, h, h', w) && Evolves(c, p, h', h'', w') && w + w' <= all
    ensures Evolves(c, p, h, h'', all)
  {
    assert Keeps(c, p, h, h'', all) by {
      hide View, Fresh, Synced;
      KeepsTrans(c, p, h, h', h'', w, w');
    }
    hide Keeps, QuietLine, Mem, IsDirty, LineOf;
    forall a: u32 | QuietLine(c, p, LineOf(c, a)) && (forall b | b in all :: LineOf(c, b) != LineOf(c, a))
      ensures LineKeptAt(c, p, h, h'', a)
    {
      assert LineKeptAt(c, p, h, h', a) && LineKeptAt(c, p, h', h'', a);
    }
  }

  lemma StepEvolves(c: Chip, p: Plan, h: Hw, jobs: seq<seq<Link>>, s: Step, w: set<u32>)
    requires EnginesOk(c, p, h, jobs) && Keeps(c, p, h, Do(c, h, s), w)
    requires EnvStep(p, s) || (s.Store? && s.a in w)
    ensures Evolves(c, p, h, Do(c, h, s), w)
  {
    var h' := Do(c, h, s);
    hide Do, Keeps, EnginesOk, Mem, IsDirty, Moves, LineOf;
    SameChannels(c, h, s);
    if AllIdle(h) { IdleCount(c, h, s); }
    forall ch | 0 <= ch < |h.chans|
      ensures (Running(h'.chans[ch]) ==> Running(h.chans[ch])) && (Idle(h.chans[ch]) ==> h'.chans[ch] == h.chans[ch])
      ensures Phase(h'.chans[ch]) == Phase(h.chans[ch])
    {
      EngineEffect(c, h, s, ch);
    }
    forall a: u32 | QuietLine(c, p, LineOf(c, a)) && (forall b | b in w :: LineOf(c, b) != LineOf(c, a))
      ensures LineKeptAt(c, p, h, h', a)
    {
      CleanKept(c, h, s, LineOf(c, a));
      if !p.target(a) {
        if Moves(h, s, a) { MovesInTarget(c, p, h, jobs, s, a); }
        LineKept(c, h, s, a);
      }
    }
  }

  /** Any step of the hardware or of other code keeps the invariant. */
  lemma EnvStepEvolves(c: Chip, p: Plan, h: Hw, jobs: seq<seq<Link>>, begun: nat, s: Step)
    requires Inv(c, p, h, jobs, begun) && EnvStep(p, s)
    ensures Inv(c, p, Do(c, h, s), jobs, begun) && Evolves(c, p, h, Do(c, h, s), {})
  {
    EnvStepInv(c, p, h, jobs, begun, s);
    hide Do, Keeps, Evolves, CopyInv, EnginesOk;
    StepEvolves(c, p, h, jobs, s, {});
  }

  lemma StoreEvolves(c: Chip, p: Plan, h: Hw, jobs: seq<seq<Link>>, begun: nat, a: u32, v: byte)
    requires Inv(c, p, h, jobs, begun) && JobsAvoid(c, h, jobs, {a})
    requires p.copy.Some? ==> !CopyLine(c, p.copy.value, LineOf(c, a))
    ensures Inv(c, p, Do(c, h, Store(a, v)), jobs, begun) && Evolves(c, p, h, Do(c, h, Store(a, v)), {a})
    ensures View(c, Do(c, h, Store(a, v)), a) == v && Fresh(c, Do(c, h, Store(a, v)), a)
  {
    StoreInv(c, p, h, jobs, begun, a, v);
    hide Do, Keeps, Evolves, CopyInv, EnginesOk, View, Fresh;
    StepEvolves(c, p, h, jobs, Store(a, v), {a});
  }

  /** ... and so does every run of such steps. */
  lemma {:induction false} EnvRun(c: Chip, p: Plan, h: Hw, jobs: seq<seq<Link>>, begun: nat, steps: seq<Step>)
    requires Inv(c, p, h, jobs, begun) && forall s | s in steps :: EnvStep(p, s)
    ensures Inv(c, p, Run(c, h, steps), jobs, begun) && Evolves(c, p, h, Run(c, h, steps), {})
  {
    hide Inv, Do, Evolves;
    if steps == [] {
      EvolvesRefl(c, p, h);
    } else {
      var front, s := steps[..|steps| - 1], steps[|steps| - 1];
      EnvRun(c, p, h, jobs, begun, front);
      EnvStepEvolves(c, p, Run(c, h, front), jobs, begun, s);
      EvolvesTrans(c, p, h, Run(c, h, front), Run(c, h, steps), {}, {}, {});
    }
  }
}
