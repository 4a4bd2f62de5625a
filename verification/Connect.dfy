/** arc_connect_cmd_execute (arc/arc_connect.c): a command device with shared WDATA, CMD
    and READBACK registers, used by any number of cores under the spinlock. */
module Connect {
  import opened Bits
  import Spinlock

  /** An operation; `kind` is the command type field, whose values above 3 select no case. */
  datatype Op = Op(cmd: u32, kind: u32, param: u32, wdata: u32)

  /** op->cmd | (op->param << 8) */
  function CommandWord(op: Op): nat {
    Or(op.cmd, Wrap(256 * op.param))
  }

  /** The command word holds the 8-bit command and the low 24 bits of the parameter, so it
      determines both exactly for parameters below 2^24. */
  lemma CommandWordFields(op: Op)
    requires op.cmd < 256
    ensures CommandWord(op) % 256 == op.cmd && CommandWord(op) / 256 == op.param % 0x100_0000
    ensures CommandWord(op) < TWO32
    ensures CommandWord(op) / 256 == op.param <==> op.param < 0x100_0000
  {
    var low := op.param % 0x100_0000;
    ShiftedParam(op.param);
    assert Pow2(8) == 256;
    hide Or, Shl, Pow2, Wrap;
    ShlIsMul(low, 8);
    OrDisjoint(op.cmd, low, 8);
    DivMod(CommandWord(op), 256, low, op.cmd);
  }

  lemma ShiftedParam(param: u32)
    ensures Wrap(256 * param) == 256 * (param % 0x100_0000)
  {
    assert 256 * param == TWO32 * (param / 0x100_0000) + 256 * (param % 0x100_0000);
  }

  /** The device: its state, and how a written command word with the data register moves
      it and fills the readback register. */
  datatype Device<!D> = Device(exec: (D, nat, u32) -> (D, u32))

  datatype Regs<D> = Regs(dev: D, wdata: u32, readback: u32)

  function WriteData<D>(r: Regs<D>, op: Op): Regs<D> {
    if op.kind == 2 || op.kind == 3 then r.(wdata := op.wdata) else r
  }

  function WriteCmd<D>(d: Device<D>, r: Regs<D>, op: Op): Regs<D> {
    if op.kind <= 3 then
      var (dev, rb) := d.exec(r.dev, CommandWord(op), r.wdata);
      Regs(dev, r.wdata, rb)
    else r
  }

  // ------------------------------------------------------------------ one after another

  /** One command executed alone. */
  function Alone<D>(d: Device<D>, r: Regs<D>, op: Op): Regs<D> {
    WriteCmd(d, WriteData(r, op), op)
  }

  /** The registers after a sequence of commands, each executed alone. */
  function After<D>(d: Device<D>, r: Regs<D>, ops: seq<Op>): Regs<D> {
    if ops == [] then r else Alone(d, After(d, r, ops[..|ops| - 1]), ops[|ops| - 1])
  }

  /** A command alone: where the device goes, what the data register keeps and what can be
      read back, by the kind of command and whatever the registers held before. */
  lemma AnswerIsOwn<D>(d: Device<D>, r: Regs<D>, op: Op)
    ensures op.kind == 2 || op.kind == 3 ==>
      && Alone(d, r, op).dev == d.exec(r.dev, CommandWord(op), op.wdata).0
      && Alone(d, r, op).wdata == op.wdata
      && Alone(d, r, op).readback == d.exec(r.dev, CommandWord(op), op.wdata).1
    ensures op.kind == 0 || op.kind == 1 ==>
      && Alone(d, r, op).dev == d.exec(r.dev, CommandWord(op), r.wdata).0
      && Alone(d, r, op).wdata == r.wdata
      && Alone(d, r, op).readback == d.exec(r.dev, CommandWord(op), r.wdata).1
    ensures op.kind > 3 ==> Alone(d, r, op) == r
  {}

  // ------------------------------------------------------------------ a history of commands

  /** The data register: the data of the last command that carries any. */
  function DataOf(w0: u32, ops: seq<Op>): u32 {
    if ops == [] then w0
    else
      var last := ops[|ops| - 1];
      if last.kind == 2 || last.kind == 3 then last.wdata else DataOf(w0, ops[..|ops| - 1])
  }

  /** The device's state and answer after the commands, those of no known kind left out. */
  function History<D>(d: Device<D>, dev0: D, w0: u32, rb0: u32, ops: seq<Op>): (D, u32) {
    if ops == [] then (dev0, rb0)
    else
      var before := History(d, dev0, w0, rb0, ops[..|ops| - 1]);
      var last := ops[|ops| - 1];
      if last.kind <= 3 then d.exec(before.0, CommandWord(last), DataOf(w0, ops)) else before
  }

  /** Running the commands one after another on the registers is that history. */
  lemma {:induction false} AfterIsHistory<D>(d: Device<D>, r: Regs<D>, ops: seq<Op>)
    ensures After(d, r, ops).wdata == DataOf(r.wdata, ops)
    ensures (After(d, r, ops).dev, After(d, r, ops).readback) == History(d, r.dev, r.wdata, r.readback, ops)
  {
    if ops != [] {
      AfterIsHistory(d, r, ops[..|ops| - 1]);
      AnswerIsOwn(d, After(d, r, ops[..|ops| - 1]), ops[|ops| - 1]);
      hide Alone, CommandWord;
    }
  }

  // ------------------------------------------------------------------ all at once

  /** Where a call is: waiting for the lock, past each register access, or about to
      release. `start` is how many commands had completed when the call was made. */
  datatype Call =
    | NoCall
    | Waiting(op: Op, start: nat)
    | Entered(op: Op, start: nat)
    | DataWritten(op: Op, start: nat)
    | CmdWritten(op: Op, start: nat)
    | Read(op: Op, start: nat, result: u32)

  datatype Entry = Entry(core: nat, op: Op, result: u32)

  /** The lock, the device registers, each core's call, and the commands completed so far
      in the order in which the lock was held. */
  datatype State<D> = State(lock: Spinlock.State, regs: Regs<D>, calls: seq<Call>, log: seq<Entry>)

  datatype Event = Begin(op: Op) | Lock(e: Spinlock.Event) | Data | Cmd | ReadBack | Release

  predicate Init<D(==)>(s: State<D>) {
    && Spinlock.Init(s.lock) && |s.calls| == |s.lock.pc| && s.log == []
    && forall c | 0 <= c < |s.calls| :: s.calls[c] == NoCall
  }

  function At<D>(s: State<D>, c: nat, call: Call): State<D>
    requires c < |s.calls|
  {
    s.(calls := s.calls[c := call])
  }

  /** The lock instructions of arc_spinlock_get, while core `c` waits. */
  predicate IsWait(e: Spinlock.Event) {
    e.Llock? || e.Branch? || e.Scond?
  }

  predicate Step<D(==)>(d: Device<D>, s: State<D>, s': State<D>, c: nat, e: Event) {
    && c < |s.calls| == |s.lock.pc|
    && match (e, s.calls[c])
       case (Begin(op), NoCall) =>
         && Spinlock.Step(s.lock, s'.lock, c, Spinlock.CallGet)
         && s' == At(s, c, Waiting(op, |s.log|)).(lock := s'.lock)
       case (Lock(le), Waiting(op, start)) =>
         && (IsWait(le) || le.LoseReservation?) && Spinlock.Step(s.lock, s'.lock, c, le)
         && s' == At(s, c, if Spinlock.Holds(s'.lock, c) then Entered(op, start) else Waiting(op, start)).(lock := s'.lock)
       case (Data, Entered(op, start)) =>
         s' == At(s, c, DataWritten(op, start)).(regs := WriteData(s.regs, op))
       case (Cmd, DataWritten(op, start)) =>
         s' == At(s, c, CmdWritten(op, start)).(regs := WriteCmd(d, s.regs, op))
       case (ReadBack, CmdWritten(op, start)) =>
         s' == At(s, c, Read(op, start, s.regs.readback)).(log := s.log + [Entry(c, op, s.regs.readback)])
       case (Release, Read(op, start, result)) =>
         && Spinlock.Step(s.lock, s'.lock, c, Spinlock.Release)
         && s' == At(s, c, NoCall).(lock := s'.lock)
       case _ => false
  }

  function Ops(log: seq<Entry>): (ops: seq<Op>)
    ensures |ops| == |log| && forall i | 0 <= i < |log| :: ops[i] == log[i].op
  {
    seq(|log|, i requires 0 <= i < |log| => log[i].op)
  }

  /** Every completed command was answered as if the commands had run one after another. */
  ghost predicate Sequential<D>(d: Device<D>, r0: Regs<D>, log: seq<Entry>) {
    forall k | 0 <= k < |log| :: log[k].result == After(d, r0, Ops(log[..k + 1])).readback
  }

  /** A call's position agrees with its core's position in the lock. */
  predicate Agrees(call: Call, pc: Spinlock.Pc) {
    match call
    case NoCall => pc == Spinlock.Outside
    case Waiting(_, _) => pc.GetLoad? || pc.GetBranch? || pc.GetStore?
    case _ => pc == Spinlock.Holding
  }

  /** The registers, as far as the holder of the lock has gone with its command. */
  ghost predicate Progress<D>(d: Device<D>, base: Regs<D>, regs: Regs<D>, call: Call) {
    match call
    case DataWritten(op, _) => regs == WriteData(base, op)
    case CmdWritten(op, _) => regs == Alone(d, base, op)
    case _ => regs == base
  }

  ghost predicate Inv<D>(d: Device<D>, r0: Regs<D>, s: State<D>) {
    && Spinlock.Inv(s.lock) && |s.calls| == |s.lock.pc|
    && (forall c | 0 <= c < |s.calls| :: Agrees(s.calls[c], s.lock.pc[c]))
    && Sequential(d, r0, s.log)
    && (forall c: nat | Spinlock.Holds(s.lock, c) :: Progress(d, After(d, r0, Ops(s.log)), s.regs, s.calls[c]))
    && ((forall c :: !Spinlock.Holds(s.lock, c)) ==> s.regs == After(d, r0, Ops(s.log)))
    && (forall c | 0 <= c < |s.calls| && !s.calls[c].NoCall? :: s.calls[c].start <= |s.log|)
    && (forall c | 0 <= c < |s.calls| && s.calls[c].Read? ::
          var r := s.calls[c];
          |s.log| > r.start && s.log[|s.log| - 1] == Entry(c, r.op, r.result))
  }

  // ------------------------------------------------------------------ linearizability

  lemma LockHolders(s: Spinlock.State, s': Spinlock.State, c: nat, e: Spinlock.Event)
    requires Spinlock.Inv(s) && Spinlock.Step(s, s', c, e)
    ensures Spinlock.Inv(s') && |s'.pc| == |s.pc|
    ensures forall k | 0 <= k < |s.pc| && k != c :: s'.pc[k] == s.pc[k]
    ensures forall k | k != c :: Spinlock.Holds(s', k) == Spinlock.Holds(s, k)
    ensures Spinlock.Holds(s', c) && !Spinlock.Holds(s, c) ==> forall k :: !Spinlock.Holds(s, k)
  {
    Spinlock.StepKeepsInv(s, s', c, e);
    Spinlock.HoldersAfter(s, s', c, e);
  }

  /** A new entry leaves the earlier answers and extends the sequential run by one. */
  lemma LogGrows<D>(d: Device<D>, r0: Regs<D>, log: seq<Entry>, c: nat, op: Op, regs: Regs<D>)
    requires Sequential(d, r0, log) && regs == Alone(d, After(d, r0, Ops(log)), op)
    ensures var log' := log + [Entry(c, op, regs.readback)];
            After(d, r0, Ops(log')) == regs && Sequential(d, r0, log')
  {
    var log' := log + [Entry(c, op, regs.readback)];
    var ops := Ops(log');
    assert ops[..|ops| - 1] == Ops(log);
    assert After(d, r0, ops) == regs;
    hide After, Alone;
    forall k | 0 <= k < |log'| ensures log'[k].result == After(d, r0, Ops(log'[..k + 1])).readback {
      if k < |log| { assert log'[..k + 1] == log[..k + 1]; } else { assert log'[..k + 1] == log'; }
    }
  }

  lemma WaitKeepsInv<D>(d: Device<D>, r0: Regs<D>, s: State<D>, s': State<D>, c: nat, e: Event)
    requires Inv(d, r0, s) && Step(d, s, s', c, e) && (e.Begin? || e.Lock?)
    ensures Inv(d, r0, s')
  {
    var le := if e.Lock? then e.e else Spinlock.CallGet;
    assert Spinlock.Step(s.lock, s'.lock, c, le);
    LockHolders(s.lock, s'.lock, c, le);
    assert !Spinlock.Holds(s.lock, c);
    assert Agrees(s'.calls[c], s'.lock.pc[c]) && s'.regs == s.regs && s'.log == s.log;
    assert s' == At(s, c, s'.calls[c]).(lock := s'.lock) && !s'.calls[c].Read?;
    assert s'.calls[c].start <= |s.log| && (Spinlock.Holds(s'.lock, c) ==> s'.calls[c].Entered?);
    hide After, WriteData, Alone, Spinlock.Step, Step, Sequential, Spinlock.Inv;
  }

  lemma WriteKeepsInv<D>(d: Device<D>, r0: Regs<D>, s: State<D>, s': State<D>, c: nat, e: Event)
    requires Inv(d, r0, s) && Step(d, s, s', c, e) && (e.Data? || e.Cmd?)
    ensures Inv(d, r0, s')
  {
    assert Spinlock.Holds(s.lock, c);
    assert s' == At(s, c, s'.calls[c]).(regs := s'.regs);
    assert Progress(d, After(d, r0, Ops(s.log)), s'.regs, s'.calls[c]);
    assert !s'.calls[c].Read? && s'.calls[c].start == s.calls[c].start && Agrees(s'.calls[c], s'.lock.pc[c]);
    OneHolder(s.lock, c);
    hide Step, After, WriteData, WriteCmd, Alone, Spinlock.Inv, Sequential;
  }

  lemma ReadStep<D>(d: Device<D>, s: State<D>, s': State<D>, c: nat, e: Event)
    requires Step(d, s, s', c, e) && e.ReadBack?
    ensures c < |s.calls| && s.calls[c].CmdWritten?
    ensures s' == At(s, c, Read(s.calls[c].op, s.calls[c].start, s.regs.readback))
                    .(log := s.log + [Entry(c, s.calls[c].op, s.regs.readback)])
  {}

  lemma ReadKeepsInv<D>(d: Device<D>, r0: Regs<D>, s: State<D>, s': State<D>, c: nat, e: Event)
    requires Inv(d, r0, s) && Step(d, s, s', c, e) && e.ReadBack?
    ensures Inv(d, r0, s')
  {
    hide Step, After, WriteData, WriteCmd, Alone, Spinlock.Inv, Sequential, Ops;
    ReadStep(d, s, s', c, e);
    assert Agrees(s.calls[c], s.lock.pc[c]) && Spinlock.Holds(s.lock, c);
    OneHolder(s.lock, c);
    var op := s.calls[c].op;
    assert s.regs == Alone(d, After(d, r0, Ops(s.log)), op);
    LogGrows(d, r0, s.log, c, op, s.regs);
    assert forall k | 0 <= k < |s.calls| && k != c :: !Spinlock.Holds(s.lock, k);
  }

  lemma OneHolder(s: Spinlock.State, c: nat)
    requires Spinlock.Inv(s) && Spinlock.Holds(s, c)
    ensures forall k | Spinlock.Holds(s, k) :: k == c
  {}

  lemma ReleaseKeepsInv<D>(d: Device<D>, r0: Regs<D>, s: State<D>, s': State<D>, c: nat, e: Event)
    requires Inv(d, r0, s) && Step(d, s, s', c, e) && e.Release?
    ensures Inv(d, r0, s')
  {
    LockHolders(s.lock, s'.lock, c, Spinlock.Release);
    OneHolder(s.lock, c);
    assert !Spinlock.Holds(s'.lock, c);
    hide After, WriteData, Alone, Spinlock.Step, Sequential;
  }

  lemma StepKeepsInv<D>(d: Device<D>, r0: Regs<D>, s: State<D>, s': State<D>, c: nat, e: Event)
    requires Inv(d, r0, s) && Step(d, s, s', c, e)
    ensures Inv(d, r0, s')
  {
    match e
    case Begin(_) => WaitKeepsInv(d, r0, s, s', c, e);
    case Lock(_) => WaitKeepsInv(d, r0, s, s', c, e);
    case Release => ReleaseKeepsInv(d, r0, s, s', c, e);
    case ReadBack => ReadKeepsInv(d, r0, s, s', c, e);
    case _ => WriteKeepsInv(d, r0, s, s', c, e);
  }

  datatype Move = Move(core: nat, event: Event)

  ghost predicate Run<D>(d: Device<D>, states: seq<State<D>>, moves: seq<Move>) {
    && |states| == |moves| + 1 && Init(states[0])
    && forall i | 0 <= i < |moves| :: Step(d, states[i], states[i + 1], moves[i].core, moves[i].event)
  }

  lemma {:induction false} RunInv<D>(d: Device<D>, states: seq<State<D>>, moves: seq<Move>, i: nat)
    requires Run(d, states, moves) && i < |states|
    ensures Inv(d, states[0].regs, states[i])
  {
    if i > 0 {
      RunInv(d, states, moves, i - 1);
      StepKeepsInv(d, states[0].regs, states[i - 1], states[i], moves[i - 1].core, moves[i - 1].event);
    }
  }

  /** Linearizability: whenever a call returns, in any interleaving of any number of cores,
      there is a place in the order in which the lock was held where this call's command
      stands, after everything that had completed when the call was made, and the result
      returned is the device's answer to the history of commands that ends there. */
  lemma Linearizable<D>(d: Device<D>, states: seq<State<D>>, moves: seq<Move>, i: nat)
    requires Run(d, states, moves) && i < |moves| && moves[i].event == Release
    ensures moves[i].core < |states[i].calls| && states[i].calls[moves[i].core].Read?
    ensures var call, log := states[i].calls[moves[i].core], states[i].log;
            exists k | call.start <= k < |log| ::
              && log[k] == Entry(moves[i].core, call.op, call.result)
              && var r0, ops := states[0].regs, Ops(log[..k + 1]);
                 && call.result == History(d, r0.dev, r0.wdata, r0.readback, ops).1
                 && var dev := History(d, r0.dev, r0.wdata, r0.readback, Ops(log[..k])).0;
                    var data := if call.op.kind >= 2 then call.op.wdata else DataOf(r0.wdata, Ops(log[..k]));
                    call.op.kind <= 3 ==> call.result == d.exec(dev, CommandWord(call.op), data).1
  {
    RunInv(d, states, moves, i);
    var c := moves[i].core;
    assert Step(d, states[i], states[i + 1], c, Release);
    var call, log, r0 := states[i].calls[c], states[i].log, states[0].regs;
    var k := |log| - 1;
    assert call.Read? && call.start <= k && log[k] == Entry(c, call.op, call.result);
    assert log[..k + 1] == log;
    assert log[k].result == After(d, r0, Ops(log)).readback;
    hide Run, Inv, Step, After, CommandWord;
    AfterIsHistory(d, r0, Ops(log));
    LastOfHistory(d, r0, log, k);
  }

  /** The end of a history, by its last command. */
  lemma LastOfHistory<D>(d: Device<D>, r0: Regs<D>, log: seq<Entry>, k: nat)
    requires |log| == k + 1
    ensures var op, ops := log[k].op, Ops(log[..k]);
      var dev := History(d, r0.dev, r0.wdata, r0.readback, ops).0;
      var data := if op.kind >= 2 then op.wdata else DataOf(r0.wdata, ops);
      op.kind <= 3 ==>
        History(d, r0.dev, r0.wdata, r0.readback, Ops(log)).1 == d.exec(dev, CommandWord(op), data).1
  {
    hide CommandWord;
    var all := Ops(log);
    assert all[..|all| - 1] == Ops(log[..k]);
  }

  /** The order never changes: entries are only added, so a command that completed before
      another was called stays ahead of it. */
  lemma {:induction false} LogOnlyGrows<D>(d: Device<D>, states: seq<State<D>>, moves: seq<Move>, i: nat, j: nat)
    requires Run(d, states, moves) && i <= j < |states|
    ensures states[i].log <= states[j].log
    decreases j
  {
    if i < j {
      LogOnlyGrows(d, states, moves, i, j - 1);
      assert Step(d, states[j - 1], states[j], moves[j - 1].core, moves[j - 1].event);
    }
  }

  // ------------------------------------------------------------------ every call can return

  /** There are runs with any number of cores on any device. */
  lemma RunsBegin<D>(d: Device<D>, regs: Regs<D>, n: nat)
    ensures exists s: State<D> :: s.regs == regs && |s.calls| == n && Run(d, [s], [])
  {
    var lock := Spinlock.State(Spinlock.UNLOCKED, {}, seq(n, _ => Spinlock.Outside));
    var s := State(lock, regs, seq(n, _ => NoCall), []);
    assert Run(d, [s], []);
  }

  /** `moves` goes on with the run. */
  ghost predicate Extends<D>(d: Device<D>, states: seq<State<D>>, moves: seq<Move>, states': seq<State<D>>, moves': seq<Move>) {
    states <= states' && moves <= moves' && |states| == |moves| + 1 && Run(d, states', moves')
  }

  lemma OneMore<D>(d: Device<D>, states: seq<State<D>>, moves: seq<Move>, s: State<D>, c: nat, e: Event)
    requires Run(d, states, moves) && Step(d, states[|moves|], s, c, e)
    ensures Extends(d, states, moves, states + [s], moves + [Move(c, e)])
  {
    hide Step;
  }

  lemma ExtendsTrans<D>(d: Device<D>, s0: seq<State<D>>, m0: seq<Move>, s1: seq<State<D>>, m1: seq<Move>,
                        s2: seq<State<D>>, m2: seq<Move>)
    requires Extends(d, s0, m0, s1, m1) && Extends(d, s1, m1, s2, m2)
    ensures Extends(d, s0, m0, s2, m2)
  {
    hide Run;
  }

  /** How far a call is from its return once its core holds the lock. */
  function StepsLeft(call: Call): nat {
    match call
    case Entered(_, _) => 4
    case DataWritten(_, _) => 3
    case CmdWritten(_, _) => 2
    case _ => 1
  }

  /** What a core does next while it holds the lock. */
  lemma HolderStep<D>(d: Device<D>, s: State<D>, c: nat) returns (s': State<D>, e: Event)
    requires c < |s.calls| == |s.lock.pc| && s.lock.pc[c] == Spinlock.Holding
    requires !s.calls[c].NoCall? && !s.calls[c].Waiting?
    ensures Step(d, s, s', c, e) && |s'.calls| == |s'.lock.pc| == |s.calls|
    ensures s.calls[c].Read? ==> e == Release && s'.lock.slock == Spinlock.UNLOCKED
    ensures s.calls[c].Read? ==> forall k | 0 <= k < |s.calls| && k != c :: s'.calls[k] == s.calls[k] && s'.lock.pc[k] == s.lock.pc[k]
    ensures !s.calls[c].Read? ==> s'.lock == s.lock && StepsLeft(s'.calls[c]) < StepsLeft(s.calls[c])
    ensures !s.calls[c].Read? ==> !s'.calls[c].NoCall? && !s'.calls[c].Waiting? && s'.calls[c].op == s.calls[c].op
    ensures !s.calls[c].Read? ==> forall k | 0 <= k < |s.calls| && k != c :: s'.calls[k] == s.calls[k]
  {
    match s.calls[c]
    case Entered(op, start) => s', e := At(s, c, DataWritten(op, start)).(regs := WriteData(s.regs, op)), Data;
    case DataWritten(op, start) => s', e := At(s, c, CmdWritten(op, start)).(regs := WriteCmd(d, s.regs, op)), Cmd;
    case CmdWritten(op, start) =>
      s', e := At(s, c, Read(op, start, s.regs.readback)).(log := s.log + [Entry(c, op, s.regs.readback)]), ReadBack;
    case Read(op, start, result) =>
      s', e := At(s, c, NoCall).(lock := Spinlock.At(Spinlock.Store(s.lock, Spinlock.UNLOCKED), c, Spinlock.Outside)), Release;
  }

  /** The run ends with the return of core `c`'s call of `op`, and the lock is free. */
  ghost predicate Returned<D>(states: seq<State<D>>, moves: seq<Move>, c: nat, op: Op) {
    && |states| == |moves| + 1 && |moves| > 0 && moves[|moves| - 1] == Move(c, Release)
    && c < |states[|moves| - 1].calls| && states[|moves| - 1].calls[c].Read? && states[|moves| - 1].calls[c].op == op
    && states[|moves|].lock.slock == Spinlock.UNLOCKED
  }

  /** A core that holds the lock finishes its call on its own; no other core moves. */
  lemma {:induction false} HolderReturns<D>(d: Device<D>, states: seq<State<D>>, moves: seq<Move>, c: nat)
      returns (states': seq<State<D>>, moves': seq<Move>)
    requires Run(d, states, moves) && |states| == |moves| + 1
    requires var s := states[|moves|];
      && c < |s.calls| == |s.lock.pc| && s.lock.pc[c] == Spinlock.Holding && !s.calls[c].NoCall? && !s.calls[c].Waiting?
    ensures Extends(d, states, moves, states', moves') && Returned(states', moves', c, states[|moves|].calls[c].op)
    ensures var s, s' := states[|moves|], states'[|moves'|];
      && |s'.calls| == |s'.lock.pc| == |s.calls|
      && forall k | 0 <= k < |s.calls| && k != c :: s'.calls[k] == s.calls[k] && s'.lock.pc[k] == s.lock.pc[k]
    decreases StepsLeft(states[|moves|].calls[c])
  {
    hide Run, Step, StepsLeft;
    var s := states[|moves|];
    var s', e := HolderStep(d, s, c);
    OneMore(d, states, moves, s', c, e);
    states', moves' := states + [s'], moves + [Move(c, e)];
    if !s.calls[c].Read? {
      ExtendsRuns(d, states, moves, states', moves');
      states', moves' := HolderReturns(d, states', moves', c);
      ExtendsTrans(d, states, moves, states + [s'], moves + [Move(c, e)], states', moves');
    }
  }

  lemma ExtendsRuns<D>(d: Device<D>, states: seq<State<D>>, moves: seq<Move>, states': seq<State<D>>, moves': seq<Move>)
    requires Extends(d, states, moves, states', moves')
    ensures Run(d, states', moves') && |states'| == |moves'| + 1
  {}

  /** A waiting core takes a free lock. */
  lemma {:induction false} WaiterEnters<D>(d: Device<D>, states: seq<State<D>>, moves: seq<Move>, c: nat)
      returns (states': seq<State<D>>, moves': seq<Move>)
    requires Run(d, states, moves) && |states| == |moves| + 1
    requires var s := states[|moves|];
      && c < |s.calls| == |s.lock.pc| && s.calls[c].Waiting? && Agrees(s.calls[c], s.lock.pc[c])
      && s.lock.slock == Spinlock.UNLOCKED
    ensures Extends(d, states, moves, states', moves')
    ensures var s, s' := states[|moves|], states'[|moves'|];
      && |s'.calls| == |s'.lock.pc| == |s.calls| && s'.lock.pc[c] == Spinlock.Holding
      && s'.calls[c] == Entered(s.calls[c].op, s.calls[c].start)
    decreases Spinlock.Left(states[|moves|].lock, c)
  {
    hide Run, Spinlock.Left;
    var s := states[|moves|];
    assert Spinlock.Wants(s.lock, c);
    var lock := Spinlock.OneInstruction(s.lock, c);
    var e := Spinlock.Next(s.lock.pc[c]);
    var call := s.calls[c];
    var s' := At(s, c, if Spinlock.Holds(lock, c) then Entered(call.op, call.start) else call).(lock := lock);
    assert Step(d, s, s', c, Lock(e));
    OneMore(d, states, moves, s', c, Lock(e));
    states', moves' := states + [s'], moves + [Move(c, Lock(e))];
    if !Spinlock.Holds(lock, c) {
      ExtendsRuns(d, states, moves, states', moves');
      states', moves' := WaiterEnters(d, states', moves', c);
      ExtendsTrans(d, states, moves, states + [s'], moves + [Move(c, Lock(e))], states', moves');
    }
  }

  /** However the run has gone, any call can be made where none is in progress, and any call
      in progress can return: whoever holds the lock can finish, and then this core can take
      the lock and finish. */
  lemma CallCanReturn<D>(d: Device<D>, states: seq<State<D>>, moves: seq<Move>, c: nat, op: Op)
    requires Run(d, states, moves) && |states| == |moves| + 1 && c < |states[|moves|].calls|
    requires states[|moves|].calls[c].NoCall? || states[|moves|].calls[c].op == op
    ensures exists states', moves' ::
      && Extends(d, states, moves, states', moves') && Returned(states', moves', c, op)
      && (states[|moves|].calls[c].NoCall? ==> |moves'| > |moves| && moves'[|moves|] == Move(c, Begin(op)))
  {
    var s := states[|moves|];
    LockState(d, states, moves);
    if s.calls[c].NoCall? {
      var s1 := At(s, c, Waiting(op, |s.log|)).(lock := Spinlock.At(s.lock, c, Spinlock.GetLoad));
      OneMore(d, states, moves, s1, c, Begin(op));
      var states1, moves1 := states + [s1], moves + [Move(c, Begin(op))];
      hide Run, Returned, Step;
      ExtendsRuns(d, states, moves, states1, moves1);
      var states', moves' := ReturnOf(d, states1, moves1, c);
      assert moves'[|moves|] == moves1[|moves|];
      ExtendsTrans(d, states, moves, states1, moves1, states', moves');
    } else {
      hide Run, Returned, Extends;
      var states', moves' := ReturnOf(d, states, moves, c);
    }
  }

  lemma ReturnOf<D>(d: Device<D>, states: seq<State<D>>, moves: seq<Move>, c: nat)
      returns (states': seq<State<D>>, moves': seq<Move>)
    requires Run(d, states, moves) && |states| == |moves| + 1
    requires c < |states[|moves|].calls| && !states[|moves|].calls[c].NoCall?
    ensures Extends(d, states, moves, states', moves') && Returned(states', moves', c, states[|moves|].calls[c].op)
  {
    var s := states[|moves|];
    LockState(d, states, moves);
    states', moves' := states, moves;
    assert Extends(d, states, moves, states, moves);
    hide Run, Extends, Returned, Spinlock.Holds;
    if !s.calls[c].Waiting? {
      states', moves' := HolderReturns(d, states, moves, c);
    } else {
      if k: nat :| k < |s.calls| && s.lock.pc[k] == Spinlock.Holding {
        states', moves' := HolderReturns(d, states, moves, k);
        ReturnedFree(states', moves', k, s.calls[k].op);
        ExtendsRuns(d, states, moves, states', moves');
      }
      var states1, moves1 := states', moves';
      states', moves' := WaiterEnters(d, states1, moves1, c);
      ExtendsRuns(d, states1, moves1, states', moves');
      var states2, moves2 := states', moves';
      ExtendsTrans(d, states, moves, states1, moves1, states2, moves2);
      states', moves' := HolderReturns(d, states2, moves2, c);
      ExtendsTrans(d, states, moves, states2, moves2, states', moves');
    }
  }

  lemma ReturnedFree<D>(states: seq<State<D>>, moves: seq<Move>, c: nat, op: Op)
    requires Returned(states, moves, c, op)
    ensures |states| == |moves| + 1 && states[|moves|].lock.slock == Spinlock.UNLOCKED
  {}

  /** Calls and lock positions agree, and the lock is free if nobody is past taking it. */
  lemma LockState<D>(d: Device<D>, states: seq<State<D>>, moves: seq<Move>)
    requires Run(d, states, moves) && |states| == |moves| + 1
    ensures var s := states[|moves|];
      && |s.calls| == |s.lock.pc| && (forall c | 0 <= c < |s.calls| :: Agrees(s.calls[c], s.lock.pc[c]))
      && ((forall k | 0 <= k < |s.calls| :: s.lock.pc[k] != Spinlock.Holding) ==> s.lock.slock == Spinlock.UNLOCKED)
  {
    RunInv(d, states, moves, |moves|);
    hide Run, Sequential, Progress;
    var s := states[|moves|];
    forall k | 0 <= k < |s.calls| ensures !s.lock.pc[k].TryReturn? { assert Agrees(s.calls[k], s.lock.pc[k]); }
  }
}
