/** The wake-flag handshake that starts slave cores: arc_start_slave_cpu and
    arc_slave_start (arc/arc_mp.c) against the slaves' wait loop
    (arc/startup/arc_startup.s), under every interleaving. */
module Startup {
  import opened Bits

  /** A call of arc_start_slave_cpu. Functions and arguments are any values. */
  datatype Task = Task(id: nat, stack: u32, sz: u32, fn: nat, arg: nat) {
    function Top(): u32 { Wrap(stack + sz) }
  }

  /** What a slave has done: in its wait loop, with the flag value just loaded, past the
      comparison, past the load of the stack pointer, past the store of 0, and so on. */
  datatype Slave =
    | Waiting
    | Loaded(v: nat)
    | Matched
    | GotSp(sp: u32)
    | Signalled(sp: u32)
    | GotFn(sp: u32, fn: nat)
    | Running(sp: u32, fn: nat, arg: nat)

  /** The master's position in its current call. */
  datatype Stage = WriteFn | WriteArg | WriteSp | WriteFlag | Spin

  datatype State = State(
    flag: nat, sp: u32, fns: seq<nat>, args: seq<nat>, slaves: seq<Slave>, k: nat, stage: Stage)

  /** The slots and cores are numbered from 0; core 0 is the master. */
  predicate Init(s: State, cpus: nat) {
    && |s.fns| == |s.args| == |s.slaves| == cpus && s.flag == 0 && s.k == 0 && s.stage == WriteFn
    && forall c | 0 <= c < cpus :: s.slaves[c] == Waiting
  }

  predicate MasterStep(tasks: seq<Task>, s: State, s': State) {
    && s.k < |tasks| && tasks[s.k].id < |s.fns| == |s.args|
    && var t := tasks[s.k];
       match s.stage
       case WriteFn => s' == s.(fns := s.fns[t.id := t.fn], stage := WriteArg)
       case WriteArg => s' == s.(args := s.args[t.id := t.arg], stage := WriteSp)
       case WriteSp => s' == s.(sp := Wrap(t.stack + t.sz), stage := WriteFlag)
       case WriteFlag => s' == s.(flag := t.id, stage := Spin)
       case Spin => s' == if s.flag != 0 then s else s.(k := s.k + 1, stage := WriteFn)
  }

  predicate SlaveStep(s: State, s': State, c: nat) {
    && 1 <= c < |s.slaves| == |s.fns| == |s.args|
    && match s.slaves[c]
       case Waiting => s' == At(s, c, Loaded(s.flag))
       case Loaded(v) => s' == At(s, c, if v == c then Matched else Waiting)
       case Matched => s' == At(s, c, GotSp(s.sp))
       case GotSp(sp) => s' == At(s, c, Signalled(sp)).(flag := 0)
       case Signalled(sp) => s' == At(s, c, GotFn(sp, s.fns[c]))
       case GotFn(sp, fn) => s' == At(s, c, Running(sp, fn, s.args[c]))
       case Running(_, _, _) => false
  }

  function At(s: State, c: nat, sl: Slave): State
    requires c < |s.slaves|
  {
    s.(slaves := s.slaves[c := sl])
  }

  /** Core `c` moves; core 0 is the master. */
  predicate Step(tasks: seq<Task>, s: State, s': State, c: nat) {
    if c == 0 then MasterStep(tasks, s, s') else SlaveStep(s, s', c)
  }

  ghost predicate Run(tasks: seq<Task>, cpus: nat, states: seq<State>, cores: seq<nat>) {
    && |states| == |cores| + 1 && Init(states[0], cpus)
    && forall i | 0 <= i < |cores| :: Step(tasks, states[i], states[i + 1], cores[i])
  }

  /** Every call names a slave of this machine. */
  ghost predicate IdsOk(tasks: seq<Task>, cpus: nat) {
    forall j | 0 <= j < |tasks| :: 1 <= tasks[j].id < cpus
  }

  /** Each slave is started at most once. */
  ghost predicate Proper(tasks: seq<Task>, cpus: nat) {
    && (forall j | 0 <= j < |tasks| :: 1 <= tasks[j].id < cpus)
    && forall i, j | 0 <= i < j < |tasks| :: tasks[i].id != tasks[j].id
  }

  /** Still in the wait loop, without having seen its own id. */
  predicate Idle(sl: Slave, c: nat) {
    sl.Waiting? || (sl.Loaded? && sl.v != c)
  }

  predicate Called(sl: Slave, t: Task) {
    sl.Waiting? || sl.Loaded? || sl.Matched? || sl == GotSp(t.Top())
  }

  /** Past the store that clears the flag, with the values of its own start. */
  predicate Started(sl: Slave, t: Task) {
    sl == Signalled(t.Top()) || sl == GotFn(t.Top(), t.fn) || sl == Running(t.Top(), t.fn, t.arg)
  }

  /** How far the current call has come. */
  ghost predicate InCall(t: Task, s: State)
    requires t.id < |s.slaves| == |s.fns| == |s.args|
  {
    && (!s.stage.WriteFn? ==> s.fns[t.id] == t.fn)
    && (!s.stage.WriteFn? && !s.stage.WriteArg? ==> s.args[t.id] == t.arg)
    && (s.stage.WriteFlag? || s.stage.Spin? ==> s.sp == t.Top())
    && if s.stage.Spin? then
         (s.flag == t.id && Called(s.slaves[t.id], t)) || (s.flag == 0 && Started(s.slaves[t.id], t))
       else
         s.flag == 0 && Idle(s.slaves[t.id], t.id)
  }

  ghost predicate Inv(tasks: seq<Task>, cpus: nat, s: State)
    requires Proper(tasks, cpus)
  {
    && |s.fns| == |s.args| == |s.slaves| == cpus && s.k <= |tasks|
    && (s.k == |tasks| ==> s.stage == WriteFn && s.flag == 0)
    && (forall j | 0 <= j < s.k :: var t := tasks[j];
          Started(s.slaves[t.id], t) && s.fns[t.id] == t.fn && s.args[t.id] == t.arg)
    && (s.k < |tasks| ==> InCall(tasks[s.k], s))
    && (forall c | 1 <= c < cpus && (forall j | 0 <= j < |tasks| && j <= s.k :: tasks[j].id != c) ::
          Idle(s.slaves[c], c))
  }

  lemma MasterKeepsInv(tasks: seq<Task>, cpus: nat, s: State, s': State)
    requires Proper(tasks, cpus) && Inv(tasks, cpus, s) && MasterStep(tasks, s, s')
    ensures Inv(tasks, cpus, s')
  {
    if s'.k != s.k && s'.k < |tasks| {
      assert Idle(s.slaves[tasks[s'.k].id], tasks[s'.k].id);
    }
  }

  /** A slave that has started goes on with its own values. */
  lemma StartedMoves(s: State, s': State, c: nat, t: Task)
    requires SlaveStep(s, s', c) && t.id == c && Started(s.slaves[c], t)
    requires s.fns[c] == t.fn && s.args[c] == t.arg
    ensures s' == At(s, c, s'.slaves[c]) && Started(s'.slaves[c], t)
  {}

  /** The slave being called takes this call's stack top and then clears the flag. */
  lemma CalledMoves(s: State, s': State, c: nat, t: Task)
    requires SlaveStep(s, s', c) && t.id == c && InCall(t, s)
    ensures s' == At(s, c, s'.slaves[c]).(flag := s'.flag) && InCall(t, s')
  {}

  /** Any other slave stays in its loop. */
  lemma IdleMoves(s: State, s': State, c: nat)
    requires SlaveStep(s, s', c) && Idle(s.slaves[c], c) && s.flag != c
    ensures s' == At(s, c, s'.slaves[c]) && Idle(s'.slaves[c], c)
  {}

  lemma CalledKeepsInv(tasks: seq<Task>, cpus: nat, s: State, s': State, c: nat)
    requires Proper(tasks, cpus) && Inv(tasks, cpus, s) && SlaveStep(s, s', c)
    requires s.k < |tasks| && tasks[s.k].id == c
    ensures Inv(tasks, cpus, s')
  {
    CalledMoves(s, s', c, tasks[s.k]);
    hide SlaveStep, Idle, Started, InCall, Task.Top;
  }

  lemma StartedKeepsInv(tasks: seq<Task>, cpus: nat, s: State, s': State, c: nat, j: nat)
    requires Proper(tasks, cpus) && Inv(tasks, cpus, s) && SlaveStep(s, s', c)
    requires j < s.k && tasks[j].id == c
    ensures Inv(tasks, cpus, s')
  {
    StartedMoves(s, s', c, tasks[j]);
    hide SlaveStep, Idle, Started, Called, Task.Top;
    assert s.k < |tasks| ==> tasks[s.k].id != c && InCall(tasks[s.k], s');
  }

  lemma IdleKeepsInv(tasks: seq<Task>, cpus: nat, s: State, s': State, c: nat)
    requires Proper(tasks, cpus) && Inv(tasks, cpus, s) && SlaveStep(s, s', c)
    requires forall j | 0 <= j < |tasks| && j <= s.k :: tasks[j].id != c
    ensures Inv(tasks, cpus, s')
  {
    IdleMoves(s, s', c);
    hide SlaveStep, Idle, Started, Called, Task.Top;
    assert s.k < |tasks| ==> tasks[s.k].id != c && InCall(tasks[s.k], s');
  }

  lemma SlaveKeepsInv(tasks: seq<Task>, cpus: nat, s: State, s': State, c: nat)
    requires Proper(tasks, cpus) && Inv(tasks, cpus, s) && SlaveStep(s, s', c)
    ensures Inv(tasks, cpus, s')
  {
    if s.k < |tasks| && tasks[s.k].id == c {
      CalledKeepsInv(tasks, cpus, s, s', c);
    } else if j :| 0 <= j < s.k && tasks[j].id == c {
      StartedKeepsInv(tasks, cpus, s, s', c, j);
    } else {
      IdleKeepsInv(tasks, cpus, s, s', c);
    }
  }

  // ------------------------------------------------------------------ lists that repeat an id

  predicate RepeatAt(tasks: seq<Task>, r: nat)
    requires r < |tasks|
  {
    exists j | 0 <= j < r :: tasks[j].id == tasks[r].id
  }

  /** The first call whose slave has been called before, from `k` on, or the length. */
  function RepeatFrom(tasks: seq<Task>, k: nat): (r: nat)
    requires k <= |tasks| && forall i | 0 <= i < k :: !RepeatAt(tasks, i)
    ensures k <= r <= |tasks| && (forall i | 0 <= i < r :: !RepeatAt(tasks, i))
    ensures r < |tasks| ==> RepeatAt(tasks, r)
    decreases |tasks| - k
  {
    if k == |tasks| || RepeatAt(tasks, k) then k else RepeatFrom(tasks, k + 1)
  }

  function FirstRepeat(tasks: seq<Task>): (r: nat)
    ensures r <= |tasks| && (forall i | 0 <= i < r :: !RepeatAt(tasks, i))
    ensures r < |tasks| ==> RepeatAt(tasks, r)
  {
    RepeatFrom(tasks, 0)
  }

  /** The first call for a slave, or the length. */
  function FirstFor(tasks: seq<Task>, c: nat): (j: nat)
    ensures j <= |tasks| && (j < |tasks| ==> tasks[j].id == c)
    ensures forall i | 0 <= i < j :: tasks[i].id != c
  {
    if tasks == [] then 0 else if tasks[0].id == c then 0 else 1 + FirstFor(tasks[1..], c)
  }

  /** The first call that repeats an id, if any, repeats the function and argument too. */
  ghost predicate Harmless(tasks: seq<Task>) {
    var r := FirstRepeat(tasks);
    r < |tasks| ==>
      var j := FirstFor(tasks, tasks[r].id);
      j < r && tasks[r].fn == tasks[j].fn && tasks[r].arg == tasks[j].arg
  }

  lemma PrefixIsProper(tasks: seq<Task>, cpus: nat)
    requires IdsOk(tasks, cpus)
    ensures Proper(tasks[..FirstRepeat(tasks)], cpus)
  {
    var r := FirstRepeat(tasks);
    forall i, j | 0 <= i < j < r ensures tasks[i].id != tasks[j].id {
      assert !RepeatAt(tasks, j);
    }
  }

  lemma FirstIsInPrefix(tasks: seq<Task>, j: nat)
    requires j < FirstRepeat(tasks)
    ensures FirstFor(tasks, tasks[j].id) == j
  {
    assert !RepeatAt(tasks, j);
  }

  lemma RepeatedIsInPrefix(tasks: seq<Task>)
    requires FirstRepeat(tasks) < |tasks|
    ensures FirstFor(tasks, tasks[FirstRepeat(tasks)].id) < FirstRepeat(tasks)
  {
    var r := FirstRepeat(tasks);
    var j :| 0 <= j < r && tasks[j].id == tasks[r].id;
  }

  /** Past the store that clears the flag, on the stack of its own start. */
  predicate Past(sl: Slave, t: Task) {
    (sl.Signalled? || sl.GotFn? || sl.Running?) && sl.sp == Wrap(t.stack + t.sz)
  }

  /** Every first call is over. A repeated one never returns: its slave has left the wait
      loop, so nobody clears the flag. With `keep`, slots and slaves hold the first calls' values. */
  ghost predicate Ended(tasks: seq<Task>, r: nat, cpus: nat, s: State, keep: bool)
    requires IdsOk(tasks, cpus) && r <= |tasks|
  {
    && |s.fns| == |s.args| == |s.slaves| == cpus
    && (r == |tasks| ==> s.stage == WriteFn && s.flag == 0)
    && (r < |tasks| ==> s.flag == if s.stage == Spin then tasks[r].id else 0)
    && (forall j | 0 <= j < r :: Past(s.slaves[tasks[j].id], tasks[j]))
    && (keep ==> forall j | 0 <= j < r :: var t := tasks[j];
          Started(s.slaves[t.id], t) && s.fns[t.id] == t.fn && s.args[t.id] == t.arg)
    && (forall c | 1 <= c < cpus && (forall j | 0 <= j < r :: tasks[j].id != c) :: Idle(s.slaves[c], c))
  }

  ghost predicate AnyInv(tasks: seq<Task>, cpus: nat, s: State, keep: bool)
    requires IdsOk(tasks, cpus)
  {
    var r := FirstRepeat(tasks);
    && s.k <= r
    && Proper(tasks[..r], cpus)
    && if s.k < r then Inv(tasks[..r], cpus, s) else Ended(tasks, r, cpus, s, keep)
  }

  lemma EndedMaster(tasks: seq<Task>, cpus: nat, s: State, s': State, keep: bool)
    requires IdsOk(tasks, cpus) && s.k == FirstRepeat(tasks) && MasterStep(tasks, s, s')
    requires Ended(tasks, s.k, cpus, s, keep) && (keep ==> Harmless(tasks))
    ensures s'.k == s.k && Ended(tasks, s.k, cpus, s', keep)
  {
    RepeatedIsInPrefix(tasks);
    hide FirstRepeat, FirstFor, Idle, Past, Started;
  }

  lemma PastMoves(s: State, s': State, c: nat, t: Task)
    requires SlaveStep(s, s', c) && t.id == c && Past(s.slaves[c], t)
    ensures s' == At(s, c, s'.slaves[c]) && Past(s'.slaves[c], t)
  {}

  lemma EndedSlave(tasks: seq<Task>, cpus: nat, s: State, s': State, c: nat, keep: bool)
    requires IdsOk(tasks, cpus) && s.k == FirstRepeat(tasks) && SlaveStep(s, s', c) && Proper(tasks[..s.k], cpus)
    requires Ended(tasks, s.k, cpus, s, keep)
    ensures s'.k == s.k && Ended(tasks, s.k, cpus, s', keep)
  {
    var r := s.k;
    if j :| 0 <= j < r && tasks[j].id == c {
      PastMoves(s, s', c, tasks[j]);
      if keep { StartedMoves(s, s', c, tasks[j]); }
      assert forall i | 0 <= i < r && i != j :: tasks[..r][i].id != tasks[..r][j].id;
      hide SlaveStep, Idle, Past, Started, FirstRepeat;
    } else {
      if r < |tasks| {
        assert RepeatAt(tasks, r);
        assert s.flag != c;
      }
      IdleMoves(s, s', c);
      hide SlaveStep, Idle, Past, Started, FirstRepeat;
    }
  }

  lemma AnyStep(tasks: seq<Task>, cpus: nat, s: State, s': State, c: nat, keep: bool)
    requires IdsOk(tasks, cpus) && Step(tasks, s, s', c) && AnyInv(tasks, cpus, s, keep)
    requires keep ==> Harmless(tasks)
    ensures AnyInv(tasks, cpus, s', keep)
  {
    hide Harmless, FirstRepeat, SlaveStep;
    var r := FirstRepeat(tasks);
    var pre := tasks[..r];
    if s.k < r {
      if c == 0 {
        MasterKeepsInv(pre, cpus, s, s');
        if s'.k == r { BecomesEnded(tasks, cpus, s', keep); }
      } else {
        SlaveKeepsInv(pre, cpus, s, s', c);
        SlaveKeepsPlace(s, s', c);
      }
    } else if c == 0 {
      EndedMaster(tasks, cpus, s, s', keep);
    } else {
      EndedSlave(tasks, cpus, s, s', c, keep);
    }
  }

  lemma SlaveKeepsPlace(s: State, s': State, c: nat)
    requires SlaveStep(s, s', c)
    ensures s'.k == s.k
  {}

  lemma BecomesEnded(tasks: seq<Task>, cpus: nat, s: State, keep: bool)
    requires IdsOk(tasks, cpus) && s.k == FirstRepeat(tasks)
    requires Proper(tasks[..s.k], cpus) && Inv(tasks[..s.k], cpus, s)
    ensures Ended(tasks, s.k, cpus, s, keep)
  {
    var pre := tasks[..s.k];
    assert forall j | 0 <= j < s.k :: tasks[j] == pre[j];
    hide FirstRepeat, Idle, Task.Top;
  }

  lemma {:induction false} AnyRun(tasks: seq<Task>, cpus: nat, states: seq<State>, cores: seq<nat>, i: nat, keep: bool)
    requires IdsOk(tasks, cpus) && Run(tasks, cpus, states, cores) && i < |states| && (keep ==> Harmless(tasks))
    ensures AnyInv(tasks, cpus, states[i], keep)
  {
    PrefixIsProper(tasks, cpus);
    if i == 0 {
      InitInv(tasks, cpus, states[0], keep);
    } else {
      AnyRun(tasks, cpus, states, cores, i - 1, keep);
      assert Step(tasks, states[i - 1], states[i], cores[i - 1]);
      hide AnyInv, Step, Harmless;
      AnyStep(tasks, cpus, states[i - 1], states[i], cores[i - 1], keep);
    }
  }

  lemma InitInv(tasks: seq<Task>, cpus: nat, s: State, keep: bool)
    requires IdsOk(tasks, cpus) && Init(s, cpus) && Proper(tasks[..FirstRepeat(tasks)], cpus)
    ensures AnyInv(tasks, cpus, s, keep)
  {}

  // ------------------------------------------------------------------ what every run keeps

  /** A running slave has the stack top, function and argument of the first call for its id. */
  ghost predicate OwnIn(tasks: seq<Task>, s: State) {
    forall c | 1 <= c < |s.slaves| && s.slaves[c].Running? ::
      var j := FirstFor(tasks, c);
      j < |tasks| && s.slaves[c] == Running(Wrap(tasks[j].stack + tasks[j].sz), tasks[j].fn, tasks[j].arg)
  }

  lemma RunsItsOwnTask(tasks: seq<Task>, cpus: nat, states: seq<State>, cores: seq<nat>, i: nat)
    requires IdsOk(tasks, cpus) && Harmless(tasks) && Run(tasks, cpus, states, cores) && i < |states|
    ensures OwnIn(tasks, states[i])
  {
    AnyRun(tasks, cpus, states, cores, i, true);
    var s, r := states[i], FirstRepeat(tasks);
    hide Harmless, Run, FirstRepeat, FirstFor, InCall;
    forall c | 1 <= c < |s.slaves| && s.slaves[c].Running?
      ensures var j := FirstFor(tasks, c);
        j < |tasks| && s.slaves[c] == Running(tasks[j].Top(), tasks[j].fn, tasks[j].arg)
    {
      var j := CallOf(tasks, cpus, s, c);
      FirstIsInPrefix(tasks, j);
    }
  }

  /** The call that a running slave answers. */
  lemma CallOf(tasks: seq<Task>, cpus: nat, s: State, c: nat) returns (j: nat)
    requires IdsOk(tasks, cpus) && AnyInv(tasks, cpus, s, true)
    requires 1 <= c < |s.slaves| && s.slaves[c].Running?
    ensures j < FirstRepeat(tasks) && tasks[j].id == c && Started(s.slaves[c], tasks[j])
  {
    var r := FirstRepeat(tasks);
    var pre := tasks[..r];
    assert !Idle(s.slaves[c], c);
    if s.k < r {
      j :| 0 <= j < |pre| && j <= s.k && pre[j].id == c;
      assert j < s.k ==> Started(s.slaves[c], pre[j]);
    } else {
      j :| 0 <= j < r && tasks[j].id == c;
    }
  }

  /** arc_start_slave_cpu returns only after its slave has taken the stack pointer: once the
      master is past call `j`, that slave holds exactly the stack top given for it. */
  lemma ReturnsAfterConsumed(tasks: seq<Task>, cpus: nat, states: seq<State>, cores: seq<nat>, i: nat, j: nat)
    requires IdsOk(tasks, cpus) && Run(tasks, cpus, states, cores) && i < |states| && j < |tasks|
    ensures j < states[i].k ==> tasks[j].id < |states[i].slaves| && Past(states[i].slaves[tasks[j].id], tasks[j])
  {
    AnyRun(tasks, cpus, states, cores, i, false);
    var s, r := states[i], FirstRepeat(tasks);
    hide FirstRepeat, Run, InCall, Idle;
    if j < s.k < r {
      assert Started(s.slaves[tasks[..r][j].id], tasks[..r][j]);
    }
  }

  /** A call that repeats an id does not return: the master is never past it. */
  lemma RepeatNeverReturns(tasks: seq<Task>, cpus: nat, states: seq<State>, cores: seq<nat>, i: nat, r: nat)
    requires IdsOk(tasks, cpus) && Run(tasks, cpus, states, cores) && i < |states| && r < |tasks| && RepeatAt(tasks, r)
    ensures states[i].k <= r
  {
    AnyRun(tasks, cpus, states, cores, i, false);
  }

  /** The flag protects arc_cpu_sp: at most one slave is between seeing its id and clearing
      the flag, and while it is, arc_cpu_sp is that slave's stack top. */
  lemma OneReaderAtATime(tasks: seq<Task>, cpus: nat, states: seq<State>, cores: seq<nat>, i: nat, c: nat, d: nat)
    requires IdsOk(tasks, cpus) && Run(tasks, cpus, states, cores) && i < |states|
    requires 1 <= c < |states[i].slaves| && (states[i].slaves[c].Matched? || states[i].slaves[c].GotSp?)
    requires 1 <= d < |states[i].slaves| && (states[i].slaves[d].Matched? || states[i].slaves[d].GotSp?)
    ensures c == d && states[i].k < |tasks| && tasks[states[i].k].id == c
    ensures var t := tasks[states[i].k]; states[i].sp == Wrap(t.stack + t.sz) && states[i].flag == c
  {
    AnyRun(tasks, cpus, states, cores, i, false);
    hide Run;
    ReaderIsCalled(tasks, cpus, states[i], c);
    ReaderIsCalled(tasks, cpus, states[i], d);
  }

  lemma ReaderIsCalled(tasks: seq<Task>, cpus: nat, s: State, c: nat)
    requires IdsOk(tasks, cpus) && AnyInv(tasks, cpus, s, false)
    requires 1 <= c < |s.slaves| && (s.slaves[c].Matched? || s.slaves[c].GotSp?)
    ensures s.k < |tasks| && tasks[s.k].id == c && s.sp == tasks[s.k].Top() && s.flag == c
  {
    var r := FirstRepeat(tasks);
    var pre := tasks[..r];
    assert !Idle(s.slaves[c], c);
    hide FirstRepeat;
    if s.k < r {
      var j :| 0 <= j < |pre| && j <= s.k && pre[j].id == c;
      assert !Started(s.slaves[c], pre[j]);
    }
  }

  // ------------------------------------------------------------------ a run for every harmful list

  /** Calls 0 to i-1 are over, their slaves just past clearing the flag, the others waiting. */
  ghost predicate Clean(tasks: seq<Task>, cpus: nat, s: State, i: nat)
    requires IdsOk(tasks, cpus) && i <= |tasks|
  {
    && |s.fns| == |s.args| == |s.slaves| == cpus && s.k == i && s.stage == WriteFn && s.flag == 0
    && (forall j | 0 <= j < i :: s.slaves[tasks[j].id] == Signalled(tasks[j].Top()))
    && (forall c | 0 <= c < cpus && (forall j | 0 <= j < i :: tasks[j].id != c) :: s.slaves[c] == Waiting)
  }

  lemma Grow(tasks: seq<Task>, cpus: nat, states: seq<State>, cores: seq<nat>, s: State, c: nat)
      returns (states': seq<State>, cores': seq<nat>)
    requires Run(tasks, cpus, states, cores) && Step(tasks, states[|cores|], s, c)
    ensures Run(tasks, cpus, states', cores') && |states'| == |cores'| + 1 && states'[|cores'|] == s
  {
    states', cores' := states + [s], cores + [c];
  }

  /** The master's four stores of call `i`. */
  lemma Stores(tasks: seq<Task>, cpus: nat, i: nat, states: seq<State>, cores: seq<nat>, s: State)
      returns (states': seq<State>, cores': seq<nat>)
    requires IdsOk(tasks, cpus) && i < |tasks| && Run(tasks, cpus, states, cores) && s == states[|cores|]
    requires |s.fns| == |s.args| == |s.slaves| == cpus && s.k == i && s.stage == WriteFn
    ensures Run(tasks, cpus, states', cores')
    ensures var t := tasks[i];
      states'[|cores'|] == s.(fns := s.fns[t.id := t.fn], args := s.args[t.id := t.arg], sp := t.Top(), flag := t.id, stage := Spin)
  {
    var t := tasks[i];
    var s1 := s.(fns := s.fns[t.id := t.fn], stage := WriteArg);
    var s2 := s1.(args := s1.args[t.id := t.arg], stage := WriteSp);
    var s3 := s2.(sp := t.Top(), stage := WriteFlag);
    hide Run, Task.Top;
    states', cores' := Grow(tasks, cpus, states, cores, s1, 0);
    states', cores' := Grow(tasks, cpus, states', cores', s2, 0);
    states', cores' := Grow(tasks, cpus, states', cores', s3, 0);
    states', cores' := Grow(tasks, cpus, states', cores', s3.(flag := t.id, stage := Spin), 0);
  }

  /** The called slave leaves its loop and clears the flag. */
  lemma Answers(tasks: seq<Task>, cpus: nat, states: seq<State>, cores: seq<nat>, s: State, c: nat)
      returns (states': seq<State>, cores': seq<nat>)
    requires Run(tasks, cpus, states, cores) && s == states[|cores|] && 1 <= c < cpus
    requires |s.fns| == |s.args| == |s.slaves| == cpus && s.flag == c && s.slaves[c] == Waiting
    ensures Run(tasks, cpus, states', cores') && states'[|cores'|] == At(s, c, Signalled(s.sp)).(flag := 0)
  {
    hide Run;
    states', cores' := Grow(tasks, cpus, states, cores, At(s, c, Loaded(c)), c);
    states', cores' := Grow(tasks, cpus, states', cores', At(s, c, Matched), c);
    states', cores' := Grow(tasks, cpus, states', cores', At(s, c, GotSp(s.sp)), c);
    states', cores' := Grow(tasks, cpus, states', cores', At(s, c, Signalled(s.sp)).(flag := 0), c);
  }

  /** One call served at once. */
  lemma Serve(tasks: seq<Task>, cpus: nat, i: nat, states: seq<State>, cores: seq<nat>)
      returns (states': seq<State>, cores': seq<nat>)
    requires IdsOk(tasks, cpus) && i < FirstRepeat(tasks)
    requires Run(tasks, cpus, states, cores) && Clean(tasks, cpus, states[|cores|], i)
    ensures Run(tasks, cpus, states', cores') && Clean(tasks, cpus, states'[|cores'|], i + 1)
  {
    assert !RepeatAt(tasks, i);
    hide Run, FirstRepeat, Task.Top;
    var t, s := tasks[i], states[|cores|];
    states', cores' := Stores(tasks, cpus, i, states, cores, s);
    var s4 := states'[|cores'|];
    states', cores' := Answers(tasks, cpus, states', cores', s4, t.id);
    var s8 := states'[|cores'|];
    states', cores' := Grow(tasks, cpus, states', cores', s8.(k := i + 1, stage := WriteFn), 0);
  }

  lemma {:induction false} ServeAll(tasks: seq<Task>, cpus: nat, i: nat) returns (states: seq<State>, cores: seq<nat>)
    requires IdsOk(tasks, cpus) && i <= FirstRepeat(tasks)
    ensures Run(tasks, cpus, states, cores) && Clean(tasks, cpus, states[|cores|], i)
  {
    if i == 0 {
      var zeros := seq(cpus, _ => 0);
      states, cores := [State(0, 0, zeros, zeros, seq(cpus, _ => Waiting), 0, WriteFn)], [];
    } else {
      states, cores := ServeAll(tasks, cpus, i - 1);
      states, cores := Serve(tasks, cpus, i - 1, states, cores);
    }
  }

  /** The slave of the first repeated call runs that call's function and argument on the
      stack of its first call. */
  ghost predicate TookSecond(tasks: seq<Task>, s: State) {
    var r := FirstRepeat(tasks);
    && r < |tasks| && tasks[r].id < |s.slaves|
    && var j := FirstFor(tasks, tasks[r].id);
       j < r && s.slaves[tasks[r].id] == Running(Wrap(tasks[j].stack + tasks[j].sz), tasks[r].fn, tasks[r].arg)
  }

  /** For every list whose first repeated call has another function or argument there is a
      run in which that slave takes them on the first call's stack. */
  lemma StartedTwice(tasks: seq<Task>, cpus: nat)
    requires IdsOk(tasks, cpus) && !Harmless(tasks)
    ensures exists states, cores :: Run(tasks, cpus, states, cores) && TookSecond(tasks, states[|cores|])
  {
    hide Run, TookSecond, Harmless, OwnIn;
    var states, cores := SecondTaken(tasks, cpus);
  }

  lemma SecondTaken(tasks: seq<Task>, cpus: nat) returns (states: seq<State>, cores: seq<nat>)
    requires IdsOk(tasks, cpus) && !Harmless(tasks)
    ensures |states| == |cores| + 1 && Run(tasks, cpus, states, cores)
    ensures TookSecond(tasks, states[|cores|]) && !OwnIn(tasks, states[|cores|])
  {
    var r := FirstRepeat(tasks);
    RepeatedIsInPrefix(tasks);
    var t := tasks[r];
    var j := FirstFor(tasks, t.id);
    assert tasks[j].fn != t.fn || tasks[j].arg != t.arg;
    hide Run, FirstRepeat, FirstFor, Task.Top, Harmless;
    states, cores := ServeAll(tasks, cpus, r);
    var s := states[|cores|];
    states, cores := Stores(tasks, cpus, r, states, cores, s);
    var s4 := states[|cores|];
    states, cores := Grow(tasks, cpus, states, cores, At(s4, t.id, GotFn(tasks[j].Top(), t.fn)), t.id);
    states, cores := Grow(tasks, cpus, states, cores, At(s4, t.id, Running(tasks[j].Top(), t.fn, t.arg)), t.id);
  }

  // ------------------------------------------------------------------ every slave can be started

  /** All calls have returned and the first `n` of their slaves run. */
  ghost predicate RunningUpTo(tasks: seq<Task>, s: State, n: nat) {
    && s.k == |tasks|
    && forall j | 0 <= j < |tasks| :: tasks[j].id < |s.slaves| &&
         s.slaves[tasks[j].id] == if j < n then Running(Wrap(tasks[j].stack + tasks[j].sz), tasks[j].fn, tasks[j].arg)
                                  else Signalled(Wrap(tasks[j].stack + tasks[j].sz))
  }

  /** Slots hold what the calls stored. */
  lemma SlotsKept(tasks: seq<Task>, cpus: nat, states: seq<State>, cores: seq<nat>, j: nat)
    requires Proper(tasks, cpus) && Run(tasks, cpus, states, cores) && states[|cores|].k == |tasks| && j < |tasks|
    ensures var s := states[|cores|];
      && |s.fns| == |s.args| == |s.slaves| == cpus
      && s.fns[tasks[j].id] == tasks[j].fn && s.args[tasks[j].id] == tasks[j].arg
  {
    NoRepeat(tasks, cpus);
    AnyRun(tasks, cpus, states, cores, |cores|, true);
    hide Run, FirstRepeat;
  }

  lemma NoRepeat(tasks: seq<Task>, cpus: nat)
    requires Proper(tasks, cpus)
    ensures IdsOk(tasks, cpus) && FirstRepeat(tasks) == |tasks| && Harmless(tasks)
  {
    forall r | 0 <= r < |tasks| ensures !RepeatAt(tasks, r) {}
  }

  lemma {:induction false} RunFirst(tasks: seq<Task>, cpus: nat, n: nat) returns (states: seq<State>, cores: seq<nat>)
    requires Proper(tasks, cpus) && n <= |tasks|
    ensures Run(tasks, cpus, states, cores) && |states| == |cores| + 1 && RunningUpTo(tasks, states[|cores|], n)
  {
    if n == 0 {
      NoRepeat(tasks, cpus);
      states, cores := ServeAll(tasks, cpus, |tasks|);
    } else {
      states, cores := RunFirst(tasks, cpus, n - 1);
      var s, t := states[|cores|], tasks[n - 1];
      SlotsKept(tasks, cpus, states, cores, n - 1);
      hide Run;
      var top := Wrap(t.stack + t.sz);
      states, cores := Grow(tasks, cpus, states, cores, At(s, t.id, GotFn(top, t.fn)), t.id);
      states, cores := Grow(tasks, cpus, states, cores, At(s, t.id, Running(top, t.fn, t.arg)), t.id);
    }
  }

  /** Every list that names each slave at most once has a run in which all calls return and
      every slave runs its own function with its own argument on its own stack. */
  lemma AllCanRun(tasks: seq<Task>, cpus: nat)
    requires Proper(tasks, cpus)
    ensures exists states, cores :: Run(tasks, cpus, states, cores) && RunningUpTo(tasks, states[|cores|], |tasks|)
  {
    hide Run, RunningUpTo;
    var states, cores := RunFirst(tasks, cpus, |tasks|);
  }

  ghost predicate OwnAlways(tasks: seq<Task>, cpus: nat) {
    forall states, cores | Run(tasks, cpus, states, cores) :: forall i | 0 <= i < |states| :: OwnIn(tasks, states[i])
  }

  /** In all runs every running slave has the values of the first call for it, exactly if the
      first call that repeats an id, if any, repeats its function and argument as well. */
  lemma OwnAlwaysIff(tasks: seq<Task>, cpus: nat)
    requires IdsOk(tasks, cpus)
    ensures OwnAlways(tasks, cpus) <==> Harmless(tasks)
  {
    hide OwnIn, Harmless, FirstRepeat, FirstFor;
    if Harmless(tasks) {
      forall states, cores | Run(tasks, cpus, states, cores)
        ensures forall i | 0 <= i < |states| :: OwnIn(tasks, states[i])
      {
        forall i | 0 <= i < |states| ensures OwnIn(tasks, states[i]) {
          RunsItsOwnTask(tasks, cpus, states, cores, i);
        }
      }
    } else {
      var states, cores := SecondTaken(tasks, cpus);
      assert !OwnIn(tasks, states[|cores|]);
    }
  }
}
