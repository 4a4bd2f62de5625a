/** The exception prologue and epilogue of include/arc/arc_asm_common.h as programs for a
    small core, and the INT_EXC_FRAME_T layouts of include/arc/arc_exception.h. */
module ExcFrame {
  import opened Bits

  // ------------------------------------------------------------------ the core

  type Reg = x: nat | x < 64

  const GP: Reg := 26
  const FP: Reg := 27
  const SP: Reg := 28
  const ILINK: Reg := 29
  const BLINK: Reg := 31
  const LP_COUNT: Reg := 60

  datatype Aux = ERSTATUS | ERRET | ERBTA | JLI_BASE | LDI_BASE | EI_BASE | LP_START | LP_END

  type RegFile = s: seq<u32> | |s| == 64 witness seq(64, i => 0)

  /** Words of memory are addressed by their lowest byte; all accesses here lie a multiple
      of four bytes apart. */
  datatype State = State(core: RegFile, aux: Aux -> u32, mem: u32 -> u32)

  /** st.a with write-back, ld.ab, lr, sr, mov, add/sub to sp, and the scaled st.as, ld.as. */
  datatype Instr =
    | StA(r: Reg) | LdAb(r: Reg) | Lr(r: Reg, a: Aux) | Sr(r: Reg, a: Aux) | Mov(d: Reg, r: Reg)
    | AddSp(k: int) | StAs(r: Reg, k: int) | LdAs(r: Reg, k: int)

  function Store(mem: u32 -> u32, addr: u32, v: u32): u32 -> u32 {
    (a: u32) => if a == addr then v else mem(a)
  }

  function SetAux(aux: Aux -> u32, a: Aux, v: u32): Aux -> u32 {
    (b: Aux) => if a == b then v else aux(b)
  }

  function Exec(s: State, i: Instr): State {
    var sp := s.core[SP];
    match i
    case StA(r) =>
      var sp' := Wrap(sp - 4);
      s.(mem := Store(s.mem, sp', s.core[r]), core := s.core[SP := sp'])
    case LdAb(r) => s.(core := s.core[r := s.mem(sp)][SP := Wrap(sp + 4)])
    case Lr(r, a) => s.(core := s.core[r := s.aux(a)])
    case Sr(r, a) => s.(aux := SetAux(s.aux, a, s.core[r]))
    case Mov(d, r) => s.(core := s.core[d := s.core[r]])
    case AddSp(k) => s.(core := s.core[SP := Wrap(sp + k)])
    case StAs(r, k) => s.(mem := Store(s.mem, Wrap(sp + 4 * k), s.core[r]))
    case LdAs(r, k) => s.(core := s.core[r := s.mem(Wrap(sp + 4 * k))])
  }

  function Steps(s: State, instrs: seq<Instr>): State {
    if instrs == [] then s else Exec(Steps(s, instrs[..|instrs| - 1]), instrs[|instrs| - 1])
  }

  // ------------------------------------------------------------------ the macros

  /** The lines the two macros are made of. */
  datatype Line =
    | Push(r: Reg) | PushAx(a: Aux) | SkipDown | SaveR10(k: int)
    | Pop(r: Reg) | PopAx(a: Aux) | SkipUp | PopLpCount | LoadR10(k: int)

  function Expand(l: Line): seq<Instr> {
    match l
    case Push(r) => [StA(r)]
    case PushAx(a) => [Lr(10, a), StA(10)]
    case SkipDown => [AddSp(-4)]
    case SaveR10(k) => [StAs(10, k)]
    case Pop(r) => [LdAb(r)]
    case PopAx(a) => [LdAb(10), Sr(10, a)]
    case SkipUp => [AddSp(4)]
    case PopLpCount => [LdAb(10), Mov(LP_COUNT, 10)]
    case LoadR10(k) => [LdAs(10, k)]
  }

  function Do(s: State, l: Line): State {
    Steps(s, Expand(l))
  }

  function Run(s: State, p: seq<Line>): State {
    if p == [] then s else Do(Run(s, p[..|p| - 1]), p[|p| - 1])
  }

  /** A preprocessor symbol that is tested both by `#if` and by `#ifdef`. */
  datatype Symbol = Undefined | Defined(value: int)

  datatype Flags = Flags(sec: Symbol, rf16: bool, codeDensity: bool, accl: bool)

  predicate Secure(f: Flags) {
    f.sec.Defined? && f.sec.value != 0
  }

  function SaveR58R59(f: Flags): seq<Line> { if f.accl then [Push(58), Push(59)] else [] }
  function RestoreR58R59(f: Flags): seq<Line> { if f.accl then [Pop(59), Pop(58)] else [] }

  function SaveCodeDensity(f: Flags): seq<Line> {
    if f.codeDensity then [PushAx(JLI_BASE), PushAx(LDI_BASE), PushAx(EI_BASE)] else []
  }

  function RestoreCodeDensity(f: Flags): seq<Line> {
    if f.codeDensity then [PopAx(EI_BASE), PopAx(LDI_BASE), PopAx(JLI_BASE)] else []
  }

  function SaveR9ToR4(f: Flags): seq<Line> {
    if f.rf16 then [] else [Push(9), Push(8), Push(7), Push(6), Push(5), Push(4)]
  }

  function RestoreR4ToR9(f: Flags): seq<Line> {
    if f.rf16 then [] else [Pop(4), Pop(5), Pop(6), Pop(7), Pop(8), Pop(9)]
  }

  const SAVE_LP_REGS := [Push(LP_COUNT), PushAx(LP_START), PushAx(LP_END)]
  const RESTORE_LP_REGS := [PopAx(LP_END), PopAx(LP_START), PopLpCount]

  function R10Slot(f: Flags): int {
    if Secure(f) then -6 else if f.codeDensity then -11 else -8
  }

  /** EXCEPTION_PROLOGUE after its first line. */
  function Pushes(f: Flags): seq<Line> {
    (if Secure(f) then
      [PushAx(ERSTATUS), SkipDown, PushAx(ERRET), Push(BLINK), Push(11), SkipDown]
      + SaveR9ToR4(f) + [Push(3), Push(2), Push(1), Push(0)] + SaveCodeDensity(f) + SAVE_LP_REGS
    else
      [PushAx(ERSTATUS), PushAx(ERRET)] + SaveCodeDensity(f) + SAVE_LP_REGS
      + [Push(BLINK), Push(11), SkipDown] + SaveR9ToR4(f) + [Push(3), Push(2), Push(1), Push(0)])
    + [Push(12)] + SaveR58R59(f) + [Push(GP), Push(FP), Push(ILINK), Push(30), PushAx(ERBTA)]
  }

  function Prologue(f: Flags): seq<Line> {
    [SaveR10(R10Slot(f))] + Pushes(f)
  }

  /** EXCEPTION_EPILOGUE before its last line. */
  function Pops(f: Flags): seq<Line> {
    [PopAx(ERBTA), Pop(30), Pop(ILINK), Pop(FP), Pop(GP)] + RestoreR58R59(f) + [Pop(12)]
    + (if Secure(f) then
      RESTORE_LP_REGS + RestoreCodeDensity(f) + [Pop(0), Pop(1), Pop(2), Pop(3)] + RestoreR4ToR9(f)
      + [SkipUp, Pop(11), Pop(BLINK), PopAx(ERRET), SkipUp, PopAx(ERSTATUS)]
    else
      [Pop(0), Pop(1), Pop(2), Pop(3)] + RestoreR4ToR9(f) + [SkipUp, Pop(11), Pop(BLINK)]
      + RESTORE_LP_REGS + RestoreCodeDensity(f) + [PopAx(ERRET), PopAx(ERSTATUS)])
  }

  function Epilogue(f: Flags): seq<Line> {
    Pops(f) + [LoadR10(R10Slot(f))]
  }

  // ------------------------------------------------------------------ the core as an object

  class Cpu {
    var core: RegFile
    var aux: Aux -> u32
    var mem: u32 -> u32

    ghost function Now(): State
      reads this
    {
      State(core, aux, mem)
    }

    method Step(i: Instr)
      modifies this
      ensures Now() == Exec(old(Now()), i)
    {
      var sp := core[SP];
      match i
      case StA(r) =>
        mem := Store(mem, Wrap(sp - 4), core[r]);
        core := core[SP := Wrap(sp - 4)];
      case LdAb(r) =>
        core := core[r := mem(sp)];
        core := core[SP := Wrap(sp + 4)];
      case Lr(r, a) => core := core[r := aux(a)];
      case Sr(r, a) => aux := SetAux(aux, a, core[r]);
      case Mov(d, r) => core := core[d := core[r]];
      case AddSp(k) => core := core[SP := Wrap(sp + k)];
      case StAs(r, k) => mem := Store(mem, Wrap(sp + 4 * k), core[r]);
      case LdAs(r, k) => core := core[r := mem(Wrap(sp + 4 * k))];
    }

    method Execute(p: seq<Line>)
      modifies this
      ensures Now() == Run(old(Now()), p)
    {
      hide Exec;
      for i := 0 to |p|
        invariant Now() == Run(old(Now()), p[..i])
      {
        var instrs := Expand(p[i]);
        assert p[..i + 1][..i] == p[..i];
        ghost var before := Now();
        for j := 0 to |instrs|
          invariant Now() == Steps(before, instrs[..j])
        {
          Step(instrs[j]);
          assert instrs[..j + 1][..j] == instrs[..j];
        }
        assert instrs[..|instrs|] == instrs;
      }
      assert p[..|p|] == p;
    }
  }

  // ------------------------------------------------------------------ what lines do

  lemma DoLine(s: State, l: Line)
    ensures l.Push? ==> Do(s, l) == Exec(s, StA(l.r))
    ensures l.PushAx? ==> Do(s, l) == Exec(Exec(s, Lr(10, l.a)), StA(10))
    ensures l.SkipDown? ==> Do(s, l) == Exec(s, AddSp(-4))
    ensures l.SaveR10? ==> Do(s, l) == Exec(s, StAs(10, l.k))
    ensures l.Pop? ==> Do(s, l) == Exec(s, LdAb(l.r))
    ensures l.PopAx? ==> Do(s, l) == Exec(Exec(s, LdAb(10)), Sr(10, l.a))
    ensures l.SkipUp? ==> Do(s, l) == Exec(s, AddSp(4))
    ensures l.PopLpCount? ==> Do(s, l) == Exec(Exec(s, LdAb(10)), Mov(LP_COUNT, 10))
    ensures l.LoadR10? ==> Do(s, l) == Exec(s, LdAs(10, l.k))
  {
    hide Exec;
    var instrs := Expand(l);
    assert Steps(s, []) == s;
    if |instrs| == 1 {
      assert instrs[..0] == [];
    } else {
      assert instrs[..1][..0] == [] && instrs[..1] == [instrs[0]];
      assert Steps(s, instrs[..1]) == Exec(s, instrs[0]);
    }
  }

  /** The word that the push number k, from 0, writes. */
  function Addr(sp: u32, k: int): u32 {
    Wrap(sp - 4 * (k + 1))
  }

  lemma AddrDistinct(sp: u32, j: int, k: int)
    requires 0 <= j < 0x1000 && 0 <= k < 0x1000
    ensures Addr(sp, j) == Addr(sp, k) <==> j == k
  {}

  lemma AddrNext(sp: u32, k: int)
    ensures Wrap(Wrap(sp - 4 * k) as int - 4) == Addr(sp, k) == Wrap(sp - 4 * (k + 1))
    ensures Wrap(Addr(sp, k) as int + 4) == Wrap(sp - 4 * k)
  {}

  predicate IsPush(l: Line) {
    l.SkipDown? || l.PushAx? || (l.Push? && l.r != SP && l.r != 10)
  }

  /** The value a saving line saves, and where its restoring line puts it back. */
  function Saved(s: State, l: Line): u32
    requires IsPush(l)
  {
    if l.Push? then s.core[l.r] else if l.PushAx? then s.aux(l.a) else 0
  }

  function Inverse(l: Line): Line
    requires IsPush(l)
  {
    match l
    case Push(r) => if r == LP_COUNT then PopLpCount else Pop(r)
    case PushAx(a) => PopAx(a)
    case SkipDown => SkipUp
  }

  /** A list of pushes in which nothing is pushed twice. */
  ghost predicate Frame(body: seq<Line>) {
    && |body| < 0x1000
    && (forall l | l in body :: IsPush(l))
    && (forall i, j | 0 <= i < j < |body| && !body[i].SkipDown? :: body[i] != body[j])
  }

  ghost predicate Pushed(body: seq<Line>, n: nat, s: State, t: State)
    requires Frame(body) && n <= |body|
  {
    && t.core[SP] == Wrap(s.core[SP] - 4 * n)
    && (forall r: Reg | r != 10 && r != SP :: t.core[r] == s.core[r])
    && t.aux == s.aux
    && (forall k | 0 <= k < n && !body[k].SkipDown? :: t.mem(Addr(s.core[SP], k)) == Saved(s, body[k]))
    && (forall a: u32 | (forall k | 0 <= k < n && !body[k].SkipDown? :: a != Addr(s.core[SP], k)) ::
         t.mem(a) == s.mem(a))
  }

  lemma {:induction false} PushesSave(body: seq<Line>, n: nat, s: State)
    requires Frame(body) && n <= |body|
    ensures Pushed(body, n, s, Run(s, body[..n]))
  {
    if n > 0 {
      PushesSave(body, n - 1, s);
      assert body[..n][..n - 1] == body[..n - 1];
      var t := Run(s, body[..n - 1]);
      PushOne(body, n - 1, s, t);
    }
  }

  lemma PushOne(body: seq<Line>, n: nat, s: State, t: State)
    requires Frame(body) && n < |body| && Pushed(body, n, s, t)
    ensures Pushed(body, n + 1, s, Do(t, body[n]))
  {
    var l, sp := body[n], s.core[SP];
    assert l in body && IsPush(l);
    PushEffect(t, l);
    AddrNext(sp, n);
    hide Do, Exec, Addr, Wrap;
    var u := Do(t, l);
    forall k | 0 <= k < n ensures Addr(sp, k) != Addr(sp, n) {
      AddrDistinct(sp, k, n);
    }
    forall a: u32 | forall k | 0 <= k < n + 1 && !body[k].SkipDown? :: a != Addr(sp, k)
      ensures u.mem(a) == s.mem(a)
    {
      if !l.SkipDown? { assert a != Addr(sp, n); }
    }
  }

  lemma PushEffect(t: State, l: Line)
    requires IsPush(l)
    ensures Do(t, l).core[SP] == Wrap(t.core[SP] as int - 4) && Do(t, l).aux == t.aux
    ensures forall r: Reg | r != 10 && r != SP :: Do(t, l).core[r] == t.core[r]
    ensures Do(t, l).mem == if l.SkipDown? then t.mem else Store(t.mem, Wrap(t.core[SP] as int - 4), Saved(t, l))
  {
    hide Do;
    DoLine(t, l);
  }

  ghost predicate Popped(body: seq<Line>, n: nat, sp: u32, t: State, e: State)
    requires Frame(body) && n <= |body|
  {
    && e.core[SP] == Wrap(sp - 4 * n)
    && e.mem == t.mem
    && (forall k | n <= k < |body| && !body[k].SkipDown? :: Saved(e, body[k]) == t.mem(Addr(sp, k)))
    && (forall r: Reg | r != 10 && r != SP && Push(r) !in body :: e.core[r] == t.core[r])
    && (forall a: Aux | PushAx(a) !in body :: e.aux(a) == t.aux(a))
  }

  function Mirror(body: seq<Line>): seq<Line>
    requires forall l | l in body :: IsPush(l)
  {
    seq(|body|, i requires 0 <= i < |body| => Inverse(body[|body| - 1 - i]))
  }

  lemma {:induction false} PopsRestore(body: seq<Line>, n: nat, sp: u32, t: State)
    requires Frame(body) && n <= |body|
    requires t.core[SP] == Wrap(sp - 4 * |body|)
    ensures Popped(body, n, sp, t, Run(t, Mirror(body)[..|body| - n]))
    decreases |body| - n
  {
    hide Popped, Do, Inverse, Mirror, Frame;
    PushesOnly(body);
    MirrorFrom(body, n);
    var m := Mirror(body)[..|body| - n];
    if n < |body| {
      PopsRestore(body, n + 1, sp, t);
      PopOne(body, n, sp, t, Run(t, m[..|m| - 1]));
    } else {
      NothingPopped(body, sp, t);
    }
  }

  lemma PushesOnly(body: seq<Line>)
    requires Frame(body)
    ensures forall l | l in body :: IsPush(l)
  {}

  lemma MirrorFrom(body: seq<Line>, n: nat)
    requires (forall l | l in body :: IsPush(l)) && n <= |body|
    ensures |Mirror(body)| == |body|
    ensures n < |body| ==>
      var m := Mirror(body)[..|body| - n];
      m[|m| - 1] == Inverse(body[n]) && m[..|m| - 1] == Mirror(body)[..|body| - n - 1]
  {}

  lemma NothingPopped(body: seq<Line>, sp: u32, t: State)
    requires Frame(body) && t.core[SP] == Wrap(sp - 4 * |body|)
    ensures Popped(body, |body|, sp, t, t)
  {}

  lemma PopOne(body: seq<Line>, n: nat, sp: u32, t: State, e: State)
    requires Frame(body) && n < |body| && Popped(body, n + 1, sp, t, e)
    ensures Popped(body, n, sp, t, Do(e, Inverse(body[n])))
  {
    var l := body[n];
    assert l in body && IsPush(l) && e.core[SP] == Addr(sp, n);
    PopEffect(e, l);
    AddrNext(sp, n);
    hide Do, Exec, Addr, Wrap;
    var u := Do(e, Inverse(l));
    forall k | n <= k < |body| && !body[k].SkipDown?
      ensures Saved(u, body[k]) == t.mem(Addr(sp, k))
    {
      if k > n {
        assert body[k] in body && body[k] != l;
        assert Saved(u, body[k]) == Saved(e, body[k]);
      }
    }
  }

  lemma PopEffect(e: State, l: Line)
    requires IsPush(l)
    ensures Do(e, Inverse(l)).core[SP] == Wrap(e.core[SP] as int + 4) && Do(e, Inverse(l)).mem == e.mem
    ensures !l.SkipDown? ==> Saved(Do(e, Inverse(l)), l) == e.mem(e.core[SP])
    ensures forall r: Reg | r != 10 && r != SP && Push(r) != l :: Do(e, Inverse(l)).core[r] == e.core[r]
    ensures forall a: Aux | PushAx(a) != l :: Do(e, Inverse(l)).aux(a) == e.aux(a)
  {
    hide Do;
    DoLine(e, Inverse(l));
  }

  lemma {:induction false} RunAppend(s: State, p: seq<Line>, q: seq<Line>)
    ensures Run(s, p + q) == Run(Run(s, p), q)
    decreases |q|
  {
    hide Do;
    if q == [] {
      assert p + q == p;
    } else {
      assert (p + q)[..|p + q| - 1] == p + q[..|q| - 1];
      RunAppend(s, p, q[..|q| - 1]);
    }
  }

  lemma RunOne(s: State, l: Line)
    ensures Run(s, [l]) == Do(s, l)
  {
    hide Do;
    assert [l][..0] == [];
  }

  // ------------------------------------------------------------------ the two macros

  /** The blocks of pushes, each with the places it saves. */
  function Block(l: Line): nat {
    match l
    case PushAx(a) => if a == ERSTATUS || a == ERRET then 1 else if a == ERBTA then 9
      else if a == LP_START || a == LP_END then 6 else 5
    case Push(r) => if r == BLINK || r == 11 then 2 else if r == LP_COUNT then 6 else if r <= 3 then 4
      else if r <= 9 then 3 else if r == 12 then 7 else if r == 58 || r == 59 then 8 else 9
    case _ => 0
  }

  ghost predicate Within(body: seq<Line>, blocks: set<nat>) {
    forall i | 0 <= i < |body| && !body[i].SkipDown? :: Block(body[i]) in blocks
  }

  /** `p` is a frame over these blocks and `q` pops it. */
  ghost predicate Undoes(q: seq<Line>, p: seq<Line>, blocks: set<nat>) {
    && Frame(p) && Within(p, blocks) && |q| == |p|
    && forall i | 0 <= i < |p| :: q[|p| - 1 - i] == Inverse(p[i])
  }

  lemma UndoesIsMirror(q: seq<Line>, p: seq<Line>, blocks: set<nat>)
    requires Undoes(q, p, blocks)
    ensures Frame(p) && (forall l | l in p :: IsPush(l)) && q == Mirror(p)
  {
    forall i | 0 <= i < |p|
      ensures q[i] == Mirror(p)[i]
    {
      assert q[|p| - 1 - (|p| - 1 - i)] == Inverse(p[|p| - 1 - i]);
    }
  }

  /** Joining pushes of different blocks pushes nothing twice, and is undone in reverse. */
  lemma Join(q: seq<Line>, p: seq<Line>, ps: set<nat>, q': seq<Line>, p': seq<Line>, ps': set<nat>)
    requires Undoes(q, p, ps) && Undoes(q', p', ps')
    requires ps !! ps' && |p| + |p'| < 0x1000
    ensures Undoes(q' + q, p + p', ps + ps')
  {
    hide Block, Inverse;
  }

  lemma Block3(f: Flags)
    ensures Undoes(RestoreR4ToR9(f), SaveR9ToR4(f), {3}) && |SaveR9ToR4(f)| <= 6
  {}

  lemma Block4()
    ensures Undoes([Pop(0), Pop(1), Pop(2), Pop(3)], [Push(3), Push(2), Push(1), Push(0)], {4})
  {}

  lemma Block5(f: Flags)
    ensures Undoes(RestoreCodeDensity(f), SaveCodeDensity(f), {5}) && |SaveCodeDensity(f)| <= 3
  {}

  lemma Block6()
    ensures Undoes(RESTORE_LP_REGS, SAVE_LP_REGS, {6}) && |SAVE_LP_REGS| == 3
  {}

  lemma Block7()
    ensures Undoes([Pop(12)], [Push(12)], {7})
  {}

  lemma Block8(f: Flags)
    ensures Undoes(RestoreR58R59(f), SaveR58R59(f), {8}) && |SaveR58R59(f)| <= 2
  {}

  lemma Block9()
    ensures Undoes([PopAx(ERBTA), Pop(30), Pop(ILINK), Pop(FP), Pop(GP)],
              [Push(GP), Push(FP), Push(ILINK), Push(30), PushAx(ERBTA)], {9})
  {}

  lemma SecureTop()
    ensures Undoes([SkipUp, Pop(11), Pop(BLINK), PopAx(ERRET), SkipUp, PopAx(ERSTATUS)],
              [PushAx(ERSTATUS), SkipDown, PushAx(ERRET), Push(BLINK), Push(11), SkipDown], {1, 2})
  {}

  lemma NormalTop()
    ensures Undoes([PopAx(ERRET), PopAx(ERSTATUS)], [PushAx(ERSTATUS), PushAx(ERRET)], {1})
    ensures Undoes([SkipUp, Pop(11), Pop(BLINK)], [Push(BLINK), Push(11), SkipDown], {2})
  {}

  lemma Assoc(a: seq<Line>, b: seq<Line>, c: seq<Line>)
    ensures a + b + c == a + (b + c)
  {}

  lemma Join3(q1: seq<Line>, p1: seq<Line>, s1: set<nat>, q2: seq<Line>, p2: seq<Line>, s2: set<nat>,
              q3: seq<Line>, p3: seq<Line>, s3: set<nat>)
    requires Undoes(q1, p1, s1) && Undoes(q2, p2, s2) && Undoes(q3, p3, s3)
    requires s1 !! s2 && s1 !! s3 && s2 !! s3 && |p1| + |p2| + |p3| < 0x1000
    ensures Undoes(q3 + q2 + q1, p1 + p2 + p3, s1 + s2 + s3)
  {
    hide Undoes;
    Join(q1, p1, s1, q2, p2, s2);
    Join(q2 + q1, p1 + p2, s1 + s2, q3, p3, s3);
    Assoc(q3, q2, q1);
  }

  lemma SecureInner(f: Flags)
    ensures Undoes(
              RESTORE_LP_REGS + RestoreCodeDensity(f) + [Pop(0), Pop(1), Pop(2), Pop(3)] + RestoreR4ToR9(f)
              + [SkipUp, Pop(11), Pop(BLINK), PopAx(ERRET), SkipUp, PopAx(ERSTATUS)],
              [PushAx(ERSTATUS), SkipDown, PushAx(ERRET), Push(BLINK), Push(11), SkipDown]
              + SaveR9ToR4(f) + [Push(3), Push(2), Push(1), Push(0)] + SaveCodeDensity(f) + SAVE_LP_REGS,
              {1, 2, 3, 4, 5, 6})
    ensures |SaveR9ToR4(f)| <= 6 && |SaveCodeDensity(f)| <= 3 && |SAVE_LP_REGS| == 3
  {
    Block3(f); Block4(); Block5(f); Block6(); SecureTop();
    hide Undoes, RestoreCodeDensity, SaveCodeDensity, RestoreR4ToR9, SaveR9ToR4, SAVE_LP_REGS, RESTORE_LP_REGS;
    SecureBlocks([PushAx(ERSTATUS), SkipDown, PushAx(ERRET), Push(BLINK), Push(11), SkipDown],
                 [SkipUp, Pop(11), Pop(BLINK), PopAx(ERRET), SkipUp, PopAx(ERSTATUS)],
                 SaveR9ToR4(f), RestoreR4ToR9(f),
                 [Push(3), Push(2), Push(1), Push(0)], [Pop(0), Pop(1), Pop(2), Pop(3)],
                 SaveCodeDensity(f), RestoreCodeDensity(f), SAVE_LP_REGS, RESTORE_LP_REGS);
  }

  lemma SecureBlocks(p1: seq<Line>, q1: seq<Line>, p3: seq<Line>, q3: seq<Line>, p4: seq<Line>, q4: seq<Line>,
                     p5: seq<Line>, q5: seq<Line>, p6: seq<Line>, q6: seq<Line>)
    requires Undoes(q1, p1, {1, 2}) && Undoes(q3, p3, {3}) && Undoes(q4, p4, {4})
    requires Undoes(q5, p5, {5}) && Undoes(q6, p6, {6}) && |p1| + |p3| + |p4| + |p5| + |p6| < 0x1000
    ensures Undoes(q6 + q5 + q4 + q3 + q1, p1 + p3 + p4 + p5 + p6, {1, 2, 3, 4, 5, 6})
  {
    hide Undoes;
    Join3(q1, p1, {1, 2}, q3, p3, {3}, q4, p4, {4});
    Join3(q4 + q3 + q1, p1 + p3 + p4, {1, 2} + {3} + {4}, q5, p5, {5}, q6, p6, {6});
    assert {1, 2} + {3} + {4} + {5} + {6} == {1, 2, 3, 4, 5, 6};
    Assoc(q6 + q5, q4 + q3, q1);
    Assoc(q6 + q5, q4, q3);
  }

  lemma NormalInner(f: Flags)
    ensures Undoes(
              [Pop(0), Pop(1), Pop(2), Pop(3)] + RestoreR4ToR9(f) + [SkipUp, Pop(11), Pop(BLINK)]
              + RESTORE_LP_REGS + RestoreCodeDensity(f) + [PopAx(ERRET), PopAx(ERSTATUS)],
              [PushAx(ERSTATUS), PushAx(ERRET)] + SaveCodeDensity(f) + SAVE_LP_REGS
              + [Push(BLINK), Push(11), SkipDown] + SaveR9ToR4(f) + [Push(3), Push(2), Push(1), Push(0)],
              {1, 2, 3, 4, 5, 6})
    ensures |SaveR9ToR4(f)| <= 6 && |SaveCodeDensity(f)| <= 3 && |SAVE_LP_REGS| == 3
  {
    Block3(f); Block4(); Block5(f); Block6(); NormalTop();
    hide Undoes, RestoreCodeDensity, SaveCodeDensity, RestoreR4ToR9, SaveR9ToR4, SAVE_LP_REGS, RESTORE_LP_REGS;
    NormalBlocks([PushAx(ERSTATUS), PushAx(ERRET)], [PopAx(ERRET), PopAx(ERSTATUS)],
                 SaveCodeDensity(f), RestoreCodeDensity(f), SAVE_LP_REGS, RESTORE_LP_REGS,
                 [Push(BLINK), Push(11), SkipDown], [SkipUp, Pop(11), Pop(BLINK)],
                 SaveR9ToR4(f), RestoreR4ToR9(f),
                 [Push(3), Push(2), Push(1), Push(0)], [Pop(0), Pop(1), Pop(2), Pop(3)]);
  }

  lemma NormalBlocks(p1: seq<Line>, q1: seq<Line>, p5: seq<Line>, q5: seq<Line>, p6: seq<Line>, q6: seq<Line>,
                     p2: seq<Line>, q2: seq<Line>, p3: seq<Line>, q3: seq<Line>, p4: seq<Line>, q4: seq<Line>)
    requires Undoes(q1, p1, {1}) && Undoes(q2, p2, {2}) && Undoes(q3, p3, {3}) && Undoes(q4, p4, {4})
    requires Undoes(q5, p5, {5}) && Undoes(q6, p6, {6})
    requires |p1| + |p2| + |p3| + |p4| + |p5| + |p6| < 0x1000
    ensures Undoes(q4 + q3 + q2 + q6 + q5 + q1, p1 + p5 + p6 + p2 + p3 + p4, {1, 2, 3, 4, 5, 6})
  {
    hide Undoes;
    Join3(q1, p1, {1}, q5, p5, {5}, q6, p6, {6});
    Join3(q6 + q5 + q1, p1 + p5 + p6, {1} + {5} + {6}, q2, p2, {2}, q3, p3, {3});
    var q, p := q3 + q2 + (q6 + q5 + q1), p1 + p5 + p6 + p2 + p3;
    Join(q, p, {1} + {5} + {6} + {2} + {3}, q4, p4, {4});
    assert {1} + {5} + {6} + {2} + {3} + {4} == {1, 2, 3, 4, 5, 6};
    assert q4 + q == q4 + q3 + q2 + q6 + q5 + q1;
  }

  /** The epilogue's pops are the prologue's pushes in reverse, under every setting. */
  lemma PopsMirrorPushes(f: Flags)
    ensures Frame(Pushes(f)) && (forall l | l in Pushes(f) :: IsPush(l))
    ensures Pops(f) == Mirror(Pushes(f))
  {
    Block7(); Block8(f); Block9();
    if Secure(f) { SecureInner(f); } else { NormalInner(f); }
    hide Undoes, Frame, Mirror, RestoreCodeDensity, SaveCodeDensity, RestoreR4ToR9, SaveR9ToR4, SAVE_LP_REGS,
      RESTORE_LP_REGS,
      SaveR58R59, RestoreR58R59;
    assert exists q, p ::
      && Undoes(q, p, {1, 2, 3, 4, 5, 6}) && |p| <= 26
      && Pushes(f) == p + [Push(12)] + SaveR58R59(f) + [Push(GP), Push(FP), Push(ILINK), Push(30), PushAx(ERBTA)]
      && Pops(f) == [PopAx(ERBTA), Pop(30), Pop(ILINK), Pop(FP), Pop(GP)] + RestoreR58R59(f) + [Pop(12)] + q;
    var q, p :|
      && Undoes(q, p, {1, 2, 3, 4, 5, 6}) && |p| <= 26
      && Pushes(f) == p + [Push(12)] + SaveR58R59(f) + [Push(GP), Push(FP), Push(ILINK), Push(30), PushAx(ERBTA)]
      && Pops(f) == [PopAx(ERBTA), Pop(30), Pop(ILINK), Pop(FP), Pop(GP)] + RestoreR58R59(f) + [Pop(12)] + q;
    hide Pushes, Pops;
    BottomBlocks(p, q, [Push(12)], [Pop(12)], SaveR58R59(f), RestoreR58R59(f),
      [Push(GP), Push(FP), Push(ILINK), Push(30), PushAx(ERBTA)],
      [PopAx(ERBTA), Pop(30), Pop(ILINK), Pop(FP), Pop(GP)]);
  }

  lemma BottomBlocks(p: seq<Line>, q: seq<Line>, p7: seq<Line>, q7: seq<Line>,
                     p8: seq<Line>, q8: seq<Line>, p9: seq<Line>, q9: seq<Line>)
    requires Undoes(q, p, {1, 2, 3, 4, 5, 6}) && Undoes(q7, p7, {7}) && Undoes(q8, p8, {8}) && Undoes(q9, p9, {9})
    requires |p| + |p7| + |p8| + |p9| < 0x1000
    ensures Frame(p + p7 + p8 + p9) && (forall l | l in p + p7 + p8 + p9 :: IsPush(l))
    ensures q9 + q8 + q7 + q == Mirror(p + p7 + p8 + p9)
  {
    hide Undoes, Frame, Mirror;
    Join3(q, p, {1, 2, 3, 4, 5, 6}, q7, p7, {7}, q8, p8, {8});
    var q', p' := q8 + q7 + q, p + p7 + p8;
    var blocks := {1, 2, 3, 4, 5, 6} + {7} + {8};
    Join(q', p', blocks, q9, p9, {9});
    UndoesIsMirror(q9 + q', p' + p9, blocks + {9});
    assert q9 + q' == q9 + q8 + q7 + q;
  }

  lemma R10HasASlot(f: Flags)
    ensures 0 <= -R10Slot(f) - 1 < |Pushes(f)| && Pushes(f)[-R10Slot(f) - 1].SkipDown?
  {}

  /** The frame: every pushed word, and r10 in the slot kept for it. */
  ghost predicate FrameHolds(f: Flags, s: State, mem: u32 -> u32) {
    var body := Pushes(f);
    && Frame(body)
    && (forall k | 0 <= k < |body| && !body[k].SkipDown? :: mem(Addr(s.core[SP], k)) == Saved(s, body[k]))
    && mem(Wrap(s.core[SP] + 4 * R10Slot(f))) == s.core[10]
  }

  lemma PrologueBuildsFrame(f: Flags, s: State)
    ensures FrameHolds(f, s, Run(s, Prologue(f)).mem)
    ensures Run(s, Prologue(f)).core[SP] == Wrap(s.core[SP] - 4 * |Pushes(f)|)
    ensures forall a: u32 | (forall k | 0 <= k < |Pushes(f)| :: a != Addr(s.core[SP], k)) ::
              Run(s, Prologue(f)).mem(a) == s.mem(a)
  {
    hide Pushes, Pops, Frame, Do, Run, Mirror, R10Slot, Expand;
    var sp := s.core[SP];
    var body := Pushes(f);
    PopsMirrorPushes(f);
    var k10 := -R10Slot(f) - 1;
    R10HasASlot(f);
    var s0 := Do(s, SaveR10(R10Slot(f)));
    DoLine(s, SaveR10(R10Slot(f)));
    RunAppend(s, [SaveR10(R10Slot(f))], body);
    RunOne(s, SaveR10(R10Slot(f)));
    PushesSave(body, |body|, s0);
    assert body[..|body|] == body;
    var t := Run(s0, body);
    assert Pushed(body, |body|, s0, t);
    assert Addr(sp, k10) == Wrap(sp + 4 * R10Slot(f));
    FrameOfPushed(body, k10, s, s0, t);
  }

  lemma FrameOfPushed(body: seq<Line>, k10: nat, s: State, s0: State, t: State)
    requires Frame(body) && k10 < |body| && body[k10].SkipDown?
    requires s0 == s.(mem := Store(s.mem, Addr(s.core[SP], k10), s.core[10]))
    requires Pushed(body, |body|, s0, t)
    ensures forall k | 0 <= k < |body| && !body[k].SkipDown? :: t.mem(Addr(s.core[SP], k)) == Saved(s, body[k])
    ensures t.mem(Addr(s.core[SP], k10)) == s.core[10] && t.core[SP] == Wrap(s.core[SP] - 4 * |body|)
    ensures forall a: u32 | (forall k | 0 <= k < |body| :: a != Addr(s.core[SP], k)) :: t.mem(a) == s.mem(a)
  {
    forall k | 0 <= k < |body| && k != k10 ensures Addr(s.core[SP], k) != Addr(s.core[SP], k10) {
      AddrDistinct(s.core[SP], k, k10);
    }
  }

  /** Everything the prologue saves. */
  predicate SavedReg(f: Flags, r: Reg) {
    r == 10 || r == SP || Push(r) in Pushes(f)
  }

  predicate SavedAux(f: Flags, a: Aux) {
    PushAx(a) in Pushes(f)
  }

  lemma WholeMirror(body: seq<Line>)
    requires forall l | l in body :: IsPush(l)
    ensures |Mirror(body)| == |body| && Mirror(body)[..|body| - 0] == Mirror(body)
  {}

  lemma EpilogueReadsFrame(f: Flags, s: State, h: State)
    requires h.core[SP] == Wrap(s.core[SP] - 4 * |Pushes(f)|) && FrameHolds(f, s, h.mem)
    ensures Restored(f, s, h, Run(h, Epilogue(f)))
  {
    hide Pushes, Pops, Frame, Do, Run, Mirror, R10Slot, Expand;
    var sp := s.core[SP];
    var body := Pushes(f);
    PopsMirrorPushes(f);
    PopsRestore(body, 0, sp, h);
    var h' := Run(h, Pops(f));
    WholeMirror(body);
    assert Popped(body, 0, sp, h, h');
    RunAppend(h, Pops(f), [LoadR10(R10Slot(f))]);
    RunOne(h', LoadR10(R10Slot(f)));
    DoLine(h', LoadR10(R10Slot(f)));
  }

  /** Every saved register is back, and nothing else the handler left has changed. */
  ghost predicate Restored(f: Flags, s: State, h: State, e: State) {
    && (forall r: Reg :: e.core[r] == if SavedReg(f, r) then s.core[r] else h.core[r])
    && (forall a: Aux :: e.aux(a) == if SavedAux(f, a) then s.aux(a) else h.aux(a))
    && e.mem == h.mem
  }

  /** What a handler must leave alone: sp and the words of the frame. */
  ghost predicate FramePreserved(f: Flags, sp: u32, t: State, h: State) {
    && h.core[SP] == t.core[SP]
    && forall k | 0 <= k < |Pushes(f)| :: h.mem(Addr(sp, k)) == t.mem(Addr(sp, k))
  }

  /** The epilogue after the prologue, around any handler that preserves the frame. */
  lemma EpilogueUndoesPrologue(f: Flags, s: State, h: State)
    requires FramePreserved(f, s.core[SP], Run(s, Prologue(f)), h)
    ensures Restored(f, s, h, Run(h, Epilogue(f)))
  {
    hide Pushes, Prologue, Epilogue, Run, Frame, Restored, R10Slot;
    PrologueBuildsFrame(f, s);
    R10HasASlot(f);
    assert Wrap(s.core[SP] + 4 * R10Slot(f)) == Addr(s.core[SP], -R10Slot(f) - 1);
    EpilogueReadsFrame(f, s, h);
  }

  /** A handler, as what it makes of the state: it must leave sp and the frame alone. */
  ghost predicate Handles(f: Flags, handler: State -> State) {
    forall s: State ::
      FramePreserved(f, s.core[SP], Run(s, Prologue(f)), handler(Run(s, Prologue(f))))
  }

  /** exc_entry_cpu around its handler, instruction by instruction on the core. */
  method TakeException(cpu: Cpu, f: Flags, handler: State -> State)
    requires Handles(f, handler)
    modifies cpu
    ensures Restored(f, old(cpu.Now()), handler(Run(old(cpu.Now()), Prologue(f))), cpu.Now())
  {
    hide Prologue, Epilogue, Run, Restored, FramePreserved;
    ghost var s := cpu.Now();
    cpu.Execute(Prologue(f));
    ghost var t := cpu.Now();
    var h := handler(State(cpu.core, cpu.aux, cpu.mem));
    cpu.core, cpu.aux, cpu.mem := h.core, h.aux, h.mem;
    assert FramePreserved(f, s.core[SP], Run(s, Prologue(f)), h);
    EpilogueUndoesPrologue(f, s, h);
    cpu.Execute(Epilogue(f));
  }

  lemma SavedInBlocks(f: Flags, l: Line)
    ensures l in SaveR9ToR4(f) <==> !f.rf16 && l.Push? && 4 <= l.r <= 9
    ensures l in SaveCodeDensity(f) <==> f.codeDensity && l.PushAx? && l.a in {JLI_BASE, LDI_BASE, EI_BASE}
    ensures l in SAVE_LP_REGS <==> l in [Push(LP_COUNT), PushAx(LP_START), PushAx(LP_END)]
    ensures l in SaveR58R59(f) <==> f.accl && l.Push? && l.r in {58, 59}
    ensures l in Pushes(f) <==>
              (l in {Push(0), Push(1), Push(2), Push(3), Push(11), Push(12), Push(GP), Push(FP), Push(ILINK), Push(30),
                     Push(BLINK), PushAx(ERSTATUS), PushAx(ERRET), PushAx(ERBTA), SkipDown}
               || l in SaveR9ToR4(f) || l in SaveCodeDensity(f) || l in SAVE_LP_REGS || l in SaveR58R59(f))
  {}

  /** What is saved, under every setting. */
  lemma SavedSet(f: Flags, r: Reg, a: Aux)
    ensures SavedReg(f, r) <==>
              (r <= 3 || (r <= 9 && !f.rf16) || r in {10, 11, 12, 26, 27, 28, 29, 30, 31, 60}
               || (r in {58, 59} && f.accl))
    ensures SavedAux(f, a) <==> (a in {ERSTATUS, ERRET, ERBTA, LP_START, LP_END} || f.codeDensity)
  {
    hide Pushes;
    SavedInBlocks(f, Push(r));
    SavedInBlocks(f, PushAx(a));
  }

  // ------------------------------------------------------------------ INT_EXC_FRAME_T

  /** The fields of the C structure, lowest address first: core registers, auxiliary
      registers and sec_stat. */
  datatype Member = Core(r: Reg) | AuxReg(a: Aux) | SecStat

  function Accl(f: Flags): seq<Member> { if f.accl then [Core(59), Core(58)] else [] }
  function R4ToR9(f: Flags): seq<Member> {
    if f.rf16 then [] else [Core(4), Core(5), Core(6), Core(7), Core(8), Core(9)]
  }
  function CodeDensity(f: Flags): seq<Member> {
    if f.codeDensity then [AuxReg(EI_BASE), AuxReg(LDI_BASE), AuxReg(JLI_BASE)] else []
  }

  const LP := [AuxReg(LP_END), AuxReg(LP_START), Core(LP_COUNT)]

  /** The structure is chosen by `#ifdef`, not by the symbol's value. */
  function Layout(f: Flags): seq<Member> {
    [AuxReg(ERBTA), Core(30), Core(ILINK), Core(FP), Core(GP)] + Accl(f) + [Core(12)]
    + (if f.sec.Defined? then
      LP + CodeDensity(f) + [Core(0), Core(1), Core(2), Core(3)] + R4ToR9(f)
      + [Core(10), Core(11), Core(BLINK), AuxReg(ERRET), SecStat, AuxReg(ERSTATUS)]
    else
      [Core(0), Core(1), Core(2), Core(3)] + R4ToR9(f) + [Core(10), Core(11), Core(BLINK)]
      + LP + CodeDensity(f) + [AuxReg(ERRET), AuxReg(ERSTATUS)])
  }

  /** What the interrupted program had in the register a member names. */
  function Value(s: State, m: Member): u32 {
    match m
    case Core(r) => s.core[r]
    case AuxReg(a) => s.aux(a)
    case SecStat => 0
  }

  /** Each member holds its register, sp being the address of the structure. */
  ghost predicate LaidOut(f: Flags, s: State, t: State) {
    forall i | 0 <= i < |Layout(f)| && Layout(f)[i] != SecStat ::
      t.mem(Wrap(t.core[SP] + 4 * i)) == Value(s, Layout(f)[i])
  }

  /** A popping line reads the word of this member. */
  predicate Reads(l: Line, m: Member) {
    match l
    case Pop(r) => m == Core(r)
    case PopAx(a) => m == AuxReg(a)
    case PopLpCount => m == Core(LP_COUNT)
    case SkipUp => m == Core(10) || m == SecStat
    case _ => false
  }

  ghost predicate Pairwise(ls: seq<Line>, ms: seq<Member>) {
    |ls| == |ms| && forall i | 0 <= i < |ls| :: Reads(ls[i], ms[i])
  }

  lemma PairwiseAppend(l1: seq<Line>, m1: seq<Member>, l2: seq<Line>, m2: seq<Member>)
    requires Pairwise(l1, m1) && Pairwise(l2, m2)
    ensures Pairwise(l1 + l2, m1 + m2)
  {
    hide Reads;
  }

  lemma Pair4(l1: seq<Line>, m1: seq<Member>, l2: seq<Line>, m2: seq<Member>,
              l3: seq<Line>, m3: seq<Member>, l4: seq<Line>, m4: seq<Member>)
    requires Pairwise(l1, m1) && Pairwise(l2, m2) && Pairwise(l3, m3) && Pairwise(l4, m4)
    ensures Pairwise(l1 + l2 + l3 + l4, m1 + m2 + m3 + m4)
  {
    hide Pairwise;
    PairwiseAppend(l1, m1, l2, m2);
    PairwiseAppend(l1 + l2, m1 + m2, l3, m3);
    PairwiseAppend(l1 + l2 + l3, m1 + m2 + m3, l4, m4);
  }

  lemma BlocksPairwise(f: Flags)
    ensures Pairwise(RestoreR58R59(f), Accl(f)) && Pairwise(RestoreR4ToR9(f), R4ToR9(f))
    ensures Pairwise(RestoreCodeDensity(f), CodeDensity(f)) && Pairwise(RESTORE_LP_REGS, LP)
  {}

  /** Where symbol and value agree, the structure lists the pops' registers in order. */
  lemma LayoutFollowsPops(f: Flags)
    requires f.sec != Defined(0)
    ensures Pairwise(Pops(f), Layout(f))
  {
    BlocksPairwise(f);
    LiteralsPairwise();
    hide Pairwise, RestoreCodeDensity, RestoreR4ToR9, RestoreR58R59, RESTORE_LP_REGS, Accl, R4ToR9, CodeDensity, LP;
    var pops0, core0 := [Pop(0), Pop(1), Pop(2), Pop(3)], [Core(0), Core(1), Core(2), Core(3)];
    if Secure(f) {
      var popsTop := [SkipUp, Pop(11), Pop(BLINK), PopAx(ERRET), SkipUp, PopAx(ERSTATUS)];
      var top := [Core(10), Core(11), Core(BLINK), AuxReg(ERRET), SecStat, AuxReg(ERSTATUS)];
      Pair4(RESTORE_LP_REGS, LP, RestoreCodeDensity(f), CodeDensity(f), pops0, core0, RestoreR4ToR9(f), R4ToR9(f));
      PairwiseAppend(RESTORE_LP_REGS + RestoreCodeDensity(f) + pops0 + RestoreR4ToR9(f),
                     LP + CodeDensity(f) + core0 + R4ToR9(f), popsTop, top);
      LayoutBottom(f, RESTORE_LP_REGS + RestoreCodeDensity(f) + pops0 + RestoreR4ToR9(f) + popsTop,
                   LP + CodeDensity(f) + core0 + R4ToR9(f) + top);
    } else {
      var popsLink, link := [SkipUp, Pop(11), Pop(BLINK)], [Core(10), Core(11), Core(BLINK)];
      Pair4(pops0, core0, RestoreR4ToR9(f), R4ToR9(f), popsLink, link, RESTORE_LP_REGS, LP);
      var l4, m4 := pops0 + RestoreR4ToR9(f) + popsLink + RESTORE_LP_REGS, core0 + R4ToR9(f) + link + LP;
      PairwiseAppend(l4, m4, RestoreCodeDensity(f), CodeDensity(f));
      PairwiseAppend(l4 + RestoreCodeDensity(f), m4 + CodeDensity(f),
                     [PopAx(ERRET), PopAx(ERSTATUS)], [AuxReg(ERRET), AuxReg(ERSTATUS)]);
      LayoutBottom(f, l4 + RestoreCodeDensity(f) + [PopAx(ERRET), PopAx(ERSTATUS)],
                   m4 + CodeDensity(f) + [AuxReg(ERRET), AuxReg(ERSTATUS)]);
    }
  }

  lemma LiteralsPairwise()
    ensures Pairwise([Pop(0), Pop(1), Pop(2), Pop(3)], [Core(0), Core(1), Core(2), Core(3)])
    ensures Pairwise([SkipUp, Pop(11), Pop(BLINK)], [Core(10), Core(11), Core(BLINK)])
    ensures Pairwise([PopAx(ERRET), PopAx(ERSTATUS)], [AuxReg(ERRET), AuxReg(ERSTATUS)])
    ensures Pairwise([SkipUp, Pop(11), Pop(BLINK), PopAx(ERRET), SkipUp, PopAx(ERSTATUS)],
              [Core(10), Core(11), Core(BLINK), AuxReg(ERRET), SecStat, AuxReg(ERSTATUS)])
  {}

  lemma LayoutBottom(f: Flags, ls: seq<Line>, ms: seq<Member>)
    requires Pairwise(ls, ms)
    ensures Pairwise([PopAx(ERBTA), Pop(30), Pop(ILINK), Pop(FP), Pop(GP)] + RestoreR58R59(f) + [Pop(12)] + ls,
              [AuxReg(ERBTA), Core(30), Core(ILINK), Core(FP), Core(GP)] + Accl(f) + [Core(12)] + ms)
  {
    BlocksPairwise(f);
    var l1 := [PopAx(ERBTA), Pop(30), Pop(ILINK), Pop(FP), Pop(GP)];
    var m1 := [AuxReg(ERBTA), Core(30), Core(ILINK), Core(FP), Core(GP)];
    assert Pairwise(l1, m1) && Pairwise([Pop(12)], [Core(12)]);
    hide Pairwise, RestoreR58R59, Accl;
    Pair4(l1, m1, RestoreR58R59(f), Accl(f), [Pop(12)], [Core(12)], ls, ms);
  }

  /** `top` starts `p`, and what follows has no gap. */
  ghost predicate GapsOnlyIn(p: seq<Line>, top: seq<Line>) {
    top <= p && forall k | |top| <= k < |p| :: !p[k].SkipDown?
  }

  lemma GapsAppend(p: seq<Line>, top: seq<Line>, q: seq<Line>)
    requires GapsOnlyIn(p, top) && SkipDown !in q
    ensures GapsOnlyIn(p + q, top)
  {}

  /** In the secure frame the first gap is sec_stat; the other gap is r10's. */
  lemma Gaps(f: Flags, k: nat)
    requires k < |Pushes(f)| && Pushes(f)[k].SkipDown?
    ensures k == -R10Slot(f) - 1 || (Secure(f) && k == 1)
  {
    SavedInBlocks(f, SkipDown);
    if Secure(f) {
      var top := [PushAx(ERSTATUS), SkipDown, PushAx(ERRET), Push(BLINK), Push(11), SkipDown];
      var p2, p4 := [Push(3), Push(2), Push(1), Push(0)], SAVE_LP_REGS;
      assert SkipDown !in p2;
      hide SAVE_LP_REGS, SaveCodeDensity, SaveR9ToR4;
      Gaps4(top, SaveR9ToR4(f), p2, SaveCodeDensity(f), p4);
      GapsBelow(f, top, top + SaveR9ToR4(f) + p2 + SaveCodeDensity(f) + p4, k);
    } else {
      var top := [PushAx(ERSTATUS), PushAx(ERRET)] + SaveCodeDensity(f) + SAVE_LP_REGS
                 + [Push(BLINK), Push(11), SkipDown];
      var p2 := [Push(3), Push(2), Push(1), Push(0)];
      assert SkipDown !in p2;
      Gaps4(top, SaveR9ToR4(f), p2, [], []);
      assert top + SaveR9ToR4(f) + p2 + [] + [] == top + SaveR9ToR4(f) + p2;
      GapsBelow(f, top, top + SaveR9ToR4(f) + p2, k);
    }
  }

  lemma Gaps4(top: seq<Line>, p1: seq<Line>, p2: seq<Line>, p3: seq<Line>, p4: seq<Line>)
    requires SkipDown !in p1 && SkipDown !in p2 && SkipDown !in p3 && SkipDown !in p4
    ensures GapsOnlyIn(top + p1 + p2 + p3 + p4, top)
  {
    assert GapsOnlyIn(top, top);
    hide GapsOnlyIn;
    GapsAppend(top, top, p1);
    GapsAppend(top + p1, top, p2);
    GapsAppend(top + p1 + p2, top, p3);
    GapsAppend(top + p1 + p2 + p3, top, p4);
  }

  lemma GapsBelow(f: Flags, top: seq<Line>, inner: seq<Line>, k: nat)
    requires GapsOnlyIn(inner, top) && k < |Pushes(f)| && Pushes(f)[k].SkipDown?
    requires Pushes(f) == inner + [Push(12)] + SaveR58R59(f) + [Push(GP), Push(FP), Push(ILINK), Push(30), PushAx(ERBTA)]
    ensures k < |top| && top[k].SkipDown?
  {
    SavedInBlocks(f, SkipDown);
    var bottom := [Push(GP), Push(FP), Push(ILINK), Push(30), PushAx(ERBTA)];
    assert SkipDown !in bottom && SkipDown !in [Push(12)];
    hide Pushes, GapsOnlyIn, SaveR58R59;
    GapsAppend(inner, top, [Push(12)]);
    GapsAppend(inner + [Push(12)], top, SaveR58R59(f));
    GapsAppend(inner + [Push(12)] + SaveR58R59(f), top, bottom);
    GapInTop(Pushes(f), top, k);
  }

  lemma GapInTop(p: seq<Line>, top: seq<Line>, k: nat)
    requires GapsOnlyIn(p, top) && k < |p| && p[k].SkipDown?
    ensures k < |top| && top[k].SkipDown?
  {}

  lemma SecStatSecondFromTop(f: Flags)
    requires Secure(f)
    ensures |Layout(f)| >= 2 && Layout(f)[|Layout(f)| - 2] == SecStat
  {}

  lemma FromBase(sp: u32, n: nat, i: int)
    ensures Wrap(Wrap(sp - 4 * n) + 4 * i) == Addr(sp, n - 1 - i)
  {}

  lemma WordOfPop(f: Flags, s: State, i: nat)
    requires i < |Pops(f)| && !Pops(f)[i].SkipUp?
    ensures |Pops(f)| == |Pushes(f)| && IsPush(Pushes(f)[|Pushes(f)| - 1 - i])
    ensures Pops(f)[i] == Inverse(Pushes(f)[|Pushes(f)| - 1 - i])
    ensures Run(s, Prologue(f)).mem(Wrap(Run(s, Prologue(f)).core[SP] + 4 * i))
              == Saved(s, Pushes(f)[|Pushes(f)| - 1 - i])
  {
    hide Pushes, Pops, Run, Prologue, Wrap, R10Slot;
    PopsMirrorPushes(f);
    PrologueBuildsFrame(f, s);
    var k := |Pushes(f)| - 1 - i;
    assert Pushes(f)[k] in Pushes(f);
    FromBase(s.core[SP], |Pushes(f)|, i);
  }

  lemma StructHolds(f: Flags, s: State)
    requires f.sec != Defined(0)
    ensures LaidOut(f, s, Run(s, Prologue(f)))
  {
    hide Pushes, Pops, Layout, Run, Prologue, Wrap, R10Slot, Frame, Pairwise;
    LayoutFollowsPops(f);
    var t := Run(s, Prologue(f));
    forall i | 0 <= i < |Layout(f)| && Layout(f)[i] != SecStat
      ensures t.mem(Wrap(t.core[SP] + 4 * i)) == Value(s, Layout(f)[i])
    {
      MemberHolds(f, s, t, i);
    }
  }

  lemma MemberHolds(f: Flags, s: State, t: State, i: nat)
    requires f.sec != Defined(0) && t == Run(s, Prologue(f)) && Pairwise(Pops(f), Layout(f))
    requires i < |Layout(f)| && Layout(f)[i] != SecStat
    ensures t.mem(Wrap(t.core[SP] + 4 * i)) == Value(s, Layout(f)[i])
  {
    hide Pushes, Pops, Layout, Run, Prologue, Wrap, R10Slot, Frame, Secure;
    assert Reads(Pops(f)[i], Layout(f)[i]);
    if Pops(f)[i].SkipUp? {
      assert Layout(f)[i] == Core(10);
      R10Member(f, s, t, i);
    } else {
      WordOfPop(f, s, i);
      hide Pairwise;
      var l := Pushes(f)[|Pushes(f)| - 1 - i];
      assert l.Push? ==> Layout(f)[i] == Core(l.r);
    }
  }

  lemma R10Member(f: Flags, s: State, t: State, i: nat)
    requires f.sec != Defined(0) && t == Run(s, Prologue(f)) && |Pops(f)| == |Layout(f)|
    requires i < |Layout(f)| && Layout(f)[i] != SecStat && Pops(f)[i].SkipUp?
    ensures t.mem(Wrap(t.core[SP] + 4 * i)) == s.core[10]
  {
    hide Pushes, Pops, Layout, Run, Prologue, R10Slot, Frame, Secure, Wrap, Addr;
    R10Position(f, i);
    R10Word(f, s);
    FromBase(s.core[SP], |Pushes(f)|, i);
  }

  /** The gap that a member other than sec_stat stands for is r10's. */
  lemma R10Position(f: Flags, i: nat)
    requires |Pops(f)| == |Layout(f)| && i < |Layout(f)| && Layout(f)[i] != SecStat && Pops(f)[i].SkipUp?
    ensures |Pushes(f)| - 1 - i == -R10Slot(f) - 1
  {
    hide Pushes, Pops, Layout, R10Slot, Frame, Secure;
    PopsMirrorPushes(f);
    var k := |Pushes(f)| - 1 - i;
    assert Pushes(f)[k] in Pushes(f) && Pops(f)[i] == Inverse(Pushes(f)[k]);
    if Secure(f) { SecStatSecondFromTop(f); }
    Gaps(f, k);
  }

  lemma R10Word(f: Flags, s: State)
    ensures Run(s, Prologue(f)).mem(Addr(s.core[SP], -R10Slot(f) - 1)) == s.core[10]
    ensures Run(s, Prologue(f)).core[SP] == Wrap(s.core[SP] - 4 * |Pushes(f)|)
  {
    hide Pushes, Pops, Run, Prologue, R10Slot, Frame, Wrap, Addr;
    PrologueBuildsFrame(f, s);
    AddrOfOffset(s.core[SP], R10Slot(f));
  }

  lemma AddrOfOffset(sp: u32, k: int)
    ensures Addr(sp, -k - 1) == Wrap(sp + 4 * k)
  {}

  /** With the symbol defined as 0 the structure has lp_end where the macro put r0. */
  lemma StructFails(f: Flags, s: State)
    requires f.sec == Defined(0) && s.aux(LP_END) != s.core[0]
    ensures !LaidOut(f, s, Run(s, Prologue(f)))
  {
    hide Pushes, Pops, Layout, Run, Prologue, Wrap;
    var i := if f.accl then 8 else 6;
    EndVersusR0(f);
    WordOfPop(f, s, i);
  }

  lemma EndVersusR0(f: Flags)
    requires f.sec == Defined(0)
    ensures var i := if f.accl then 8 else 6;
      i < |Pops(f)| && i < |Layout(f)| && Pops(f)[i] == Pop(0) && Layout(f)[i] == AuxReg(LP_END)
  {}

  /** The prologue lays out the C structure exactly when the security symbol is not
      defined as 0: the structure tests whether it is defined, the macro its value. */
  lemma FrameIsStructIff(f: Flags)
    ensures (forall s :: LaidOut(f, s, Run(s, Prologue(f)))) <==> f.sec != Defined(0)
  {
    hide LaidOut, Run, Prologue;
    if f.sec != Defined(0) {
      forall s ensures LaidOut(f, s, Run(s, Prologue(f))) {
        StructHolds(f, s);
      }
    } else {
      var s := State(seq(64, i => 0), (a: Aux) => 1, (a: u32) => 0);
      StructFails(f, s);
    }
  }
}
