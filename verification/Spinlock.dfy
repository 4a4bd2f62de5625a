/** The load-locked/store-conditional spinlock of include/arc/arc_mp.h (the ARC HS branch),
    run by any number of cores under every interleaving. */
module Spinlock {

  const LOCKED: nat := 1
  const UNLOCKED: nat := 0

  /** Where a core is in arc_spinlock_get, arc_spinlock_try or arc_spinlock_release.
      `val` is the register loaded by llock. */
  datatype Pc =
    | Outside
    | GetLoad | GetBranch(val: nat) | GetStore
    | TryLoad | TryBranch(val: nat) | TryStore
    | TryReturn(gotIt: nat)
    | Holding

  /** The lock word, the cores whose load reservation on it is still alive, and every
      core's position. */
  datatype State = State(slock: nat, reserved: set<nat>, pc: seq<Pc>)

  predicate Init(s: State) {
    s.slock == UNLOCKED && s.reserved == {} && forall c | 0 <= c < |s.pc| :: s.pc[c] == Outside
  }

  /** The instructions, and the events around them. */
  datatype Event = CallGet | CallTry | Llock | Branch | Scond(spurious: bool) | Return | Release | LoseReservation

  function At(s: State, c: nat, p: Pc): State
    requires c < |s.pc|
  {
    s.(pc := s.pc[c := p])
  }

  /** A store to the lock word ends every reservation on it. */
  function Store(s: State, v: nat): State {
    s.(slock := v, reserved := {})
  }

  /** Core `c` performs event `e`. A store-conditional succeeds only while the core's
      reservation lives, and may fail even then. */
  predicate Step(s: State, s': State, c: nat, e: Event) {
    && c < |s.pc|
    && match (e, s.pc[c])
       case (CallGet, Outside) => s' == At(s, c, GetLoad)
       case (CallTry, Outside) => s' == At(s, c, TryLoad)
       case (Llock, GetLoad) => s' == At(s, c, GetBranch(s.slock)).(reserved := s.reserved + {c})
       case (Llock, TryLoad) => s' == At(s, c, TryBranch(s.slock)).(reserved := s.reserved + {c})
       case (Branch, GetBranch(val)) => s' == At(s, c, if val == LOCKED then GetLoad else GetStore)
       case (Branch, TryBranch(val)) => s' == At(s, c, if val == LOCKED then TryReturn(0) else TryStore)
       case (Scond(spurious), GetStore) =>
         if c in s.reserved && !spurious then s' == At(Store(s, LOCKED), c, Holding)
         else s' == At(s, c, GetLoad).(reserved := s.reserved - {c})
       case (Scond(spurious), TryStore) =>
         if c in s.reserved && !spurious then s' == At(Store(s, LOCKED), c, TryReturn(1))
         else s' == At(s, c, TryLoad).(reserved := s.reserved - {c})
       case (Return, TryReturn(gotIt)) => s' == At(s, c, if gotIt == 1 then Holding else Outside)
       case (Release, Holding) => s' == At(Store(s, UNLOCKED), c, Outside)
       case (LoseReservation, _) => s' == s.(reserved := s.reserved - {c})
       case _ => false
  }

  /** A core holds the lock from its successful store to its release. */
  predicate Holds(s: State, c: nat) {
    c < |s.pc| && (s.pc[c] == Holding || s.pc[c] == TryReturn(1))
  }

  /** The state a run keeps: a lock word that tells whether there is a holder, at most one
      holder, and live reservations that vouch for the value loaded under them. */
  ghost predicate Inv(s: State) {
    && (s.slock == LOCKED || s.slock == UNLOCKED)
    && (forall c, d | Holds(s, c) && Holds(s, d) :: c == d)
    && (s.slock == LOCKED <==> exists c :: Holds(s, c))
    && (forall c | 0 <= c < |s.pc| && c in s.reserved ::
          && ((s.pc[c].GetBranch? || s.pc[c].TryBranch?) ==> s.pc[c].val == s.slock)
          && ((s.pc[c].GetStore? || s.pc[c].TryStore?) ==> s.slock == UNLOCKED))
    && (forall c | 0 <= c < |s.pc| && s.pc[c].TryReturn? :: s.pc[c].gotIt == 0 || s.pc[c].gotIt == 1)
  }

  /** What a step does to the set of holders. */
  lemma HoldersAfter(s: State, s': State, c: nat, e: Event)
    requires Inv(s) && Step(s, s', c, e)
    ensures forall d | d != c :: Holds(s', d) == Holds(s, d)
    ensures s'.slock != s.slock && s'.slock == LOCKED ==> Holds(s', c) && forall d :: !Holds(s, d)
    ensures s'.slock != s.slock && s'.slock == UNLOCKED ==> Holds(s, c) && !Holds(s', c)
    ensures s'.slock == s.slock ==> Holds(s', c) == Holds(s, c)
  {}

  lemma StepKeepsHolder(s: State, s': State, c: nat, e: Event)
    requires Inv(s) && Step(s, s', c, e)
    ensures s'.slock == LOCKED || s'.slock == UNLOCKED
    ensures forall c, d | Holds(s', c) && Holds(s', d) :: c == d
    ensures s'.slock == LOCKED <==> exists c :: Holds(s', c)
  {
    HoldersAfter(s, s', c, e);
    assert s'.slock == LOCKED || s'.slock == UNLOCKED;
    hide Step;
    if s'.slock == s.slock {
      assert forall d :: Holds(s', d) == Holds(s, d);
    }
  }

  lemma StepKeepsReservations(s: State, s': State, c: nat, e: Event)
    requires Inv(s) && Step(s, s', c, e)
    ensures forall c | 0 <= c < |s'.pc| && c in s'.reserved ::
              && ((s'.pc[c].GetBranch? || s'.pc[c].TryBranch?) ==> s'.pc[c].val == s'.slock)
              && ((s'.pc[c].GetStore? || s'.pc[c].TryStore?) ==> s'.slock == UNLOCKED)
    ensures forall c | 0 <= c < |s'.pc| && s'.pc[c].TryReturn? :: s'.pc[c].gotIt == 0 || s'.pc[c].gotIt == 1
  {
    assert |s'.pc| == |s.pc| && forall d | 0 <= d < |s.pc| && d != c :: s'.pc[d] == s.pc[d];
  }

  lemma StepKeepsInv(s: State, s': State, c: nat, e: Event)
    requires Inv(s) && Step(s, s', c, e)
    ensures Inv(s')
  {
    StepKeepsHolder(s, s', c, e);
    StepKeepsReservations(s, s', c, e);
  }

  /** A run: states linked by steps of the cores named. */
  datatype Move = Move(core: nat, event: Event)

  ghost predicate Run(states: seq<State>, moves: seq<Move>) {
    && |states| == |moves| + 1 && Init(states[0])
    && forall i | 0 <= i < |moves| :: Step(states[i], states[i + 1], moves[i].core, moves[i].event)
  }

  lemma {:induction false} RunInv(states: seq<State>, moves: seq<Move>, i: nat)
    requires Run(states, moves) && i < |states|
    ensures Inv(states[i])
  {
    if i > 0 {
      RunInv(states, moves, i - 1);
      StepKeepsInv(states[i - 1], states[i], moves[i - 1].core, moves[i - 1].event);
    }
  }

  /** Mutual exclusion: in every reachable state the word is LOCKED exactly when one core
      holds the lock, UNLOCKED exactly when none does, and never two do. */
  lemma MutualExclusion(states: seq<State>, moves: seq<Move>, i: nat)
    requires Run(states, moves) && i < |states|
    ensures var s := states[i];
            && (s.slock == LOCKED <==> exists c :: Holds(s, c) && forall d | Holds(s, d) :: d == c)
            && (s.slock == UNLOCKED <==> forall c :: !Holds(s, c))
  {
    RunInv(states, moves, i);
  }

  predicate PcIs(s: State, c: nat, p: Pc) {
    c < |s.pc| && s.pc[c] == p
  }

  predicate InTry(s: State, c: nat) {
    c < |s.pc| && (s.pc[c].TryLoad? || s.pc[c].TryBranch? || s.pc[c].TryStore?)
  }

  /** Step `k` passes the lock from nobody to core `c`. */
  ghost predicate Acquires(states: seq<State>, moves: seq<Move>, k: nat, c: nat)
    requires |states| == |moves| + 1 && k < |moves|
  {
    && moves[k].core == c
    && states[k].slock == UNLOCKED && (forall d :: !Holds(states[k], d))
    && states[k + 1].slock == LOCKED && Holds(states[k + 1], c)
  }

  /** Move `ret` is the return of the call of arc_spinlock_try made at move `call`. */
  ghost predicate TryCall(moves: seq<Move>, call: nat, ret: nat, c: nat) {
    && call < ret < |moves| && moves[call] == Move(c, CallTry) && moves[ret] == Move(c, Return)
    && forall i | call < i < ret && moves[i].core == c :: !moves[i].event.CallTry? && !moves[i].event.Return?
  }

  /** arc_spinlock_try returns 1 exactly when this very call made its core the holder, and
      the core still holds the lock on return; it returns 0 otherwise. */
  lemma TryReturnsOneIffHolder(states: seq<State>, moves: seq<Move>, call: nat, ret: nat, c: nat)
    requires Run(states, moves) && TryCall(moves, call, ret, c)
    ensures PcIs(states[ret], c, TryReturn(1)) || PcIs(states[ret], c, TryReturn(0))
    ensures PcIs(states[ret], c, TryReturn(1)) <==> Holds(states[ret + 1], c)
    ensures PcIs(states[ret], c, TryReturn(1)) <==> exists k | call < k < ret :: Acquires(states, moves, k, c)
  {
    assert Step(states[ret], states[ret + 1], c, Return);
    var k := TryHistory(states, moves, call, ret, c);
    if PcIs(states[ret], c, TryReturn(1)) { assert Acquires(states, moves, k, c); }
  }

  /** During a call of arc_spinlock_try the core is trying, or has failed, or has taken
      the lock at a definite step. */
  lemma {:induction false} TryHistory(states: seq<State>, moves: seq<Move>, call: nat, i: nat, c: nat)
      returns (k: nat)
    requires Run(states, moves) && call < i <= |moves| && moves[call] == Move(c, CallTry)
    requires forall j | call < j < i && moves[j].core == c :: !moves[j].event.CallTry? && !moves[j].event.Return?
    ensures InTry(states[i], c) || PcIs(states[i], c, TryReturn(0)) || PcIs(states[i], c, TryReturn(1))
    ensures !PcIs(states[i], c, TryReturn(1)) ==> forall j | call < j <= i :: !Holds(states[j], c)
    ensures PcIs(states[i], c, TryReturn(1)) ==> call < k < i && Acquires(states, moves, k, c)
  {
    k := 0;
    if i == call + 1 {
      assert Step(states[call], states[i], c, CallTry);
    } else {
      k := TryHistory(states, moves, call, i - 1, c);
      var m := moves[i - 1];
      assert Step(states[i - 1], states[i], m.core, m.event);
      RunInv(states, moves, i - 1);
      if PcIs(states[i], c, TryReturn(1)) && !PcIs(states[i - 1], c, TryReturn(1)) {
        k := i - 1;
        TakesLock(states[k], states[i], m.core, m.event, c);
      } else {
        StaysTrying(states[i - 1], states[i], m.core, m.event, c);
      }
    }
  }

  lemma TakesLock(s: State, s': State, core: nat, e: Event, c: nat)
    requires Inv(s) && Step(s, s', core, e)
    requires PcIs(s', c, TryReturn(1)) && !PcIs(s, c, TryReturn(1))
    ensures core == c && s.slock == UNLOCKED && (forall d :: !Holds(s, d)) && s'.slock == LOCKED && Holds(s', c)
  {}

  /** A load of the lock word by core `c`, during the call, that finds `v` in it. */
  ghost predicate Loads(states: seq<State>, moves: seq<Move>, call: nat, i: nat, c: nat, v: nat) {
    exists k | call < k < i :: k < |moves| && k < |states| && moves[k] == Move(c, Llock) && states[k].slock == v
  }

  /** arc_spinlock_try returns 0 exactly when one of its own loads found the lock taken. */
  lemma TryReturnsZeroIff(states: seq<State>, moves: seq<Move>, call: nat, ret: nat, c: nat)
    requires Run(states, moves) && TryCall(moves, call, ret, c)
    ensures PcIs(states[ret], c, TryReturn(0)) <==>
              exists k | call < k < ret :: moves[k] == Move(c, Llock) && states[k].slock == LOCKED
  {
    assert Step(states[ret], states[ret + 1], c, Return);
    LoadHistory(states, moves, call, ret, c);
  }

  /** During the call: nothing but UNLOCKED has been loaded, or the last load found the lock
      taken and the call can only fail. */
  lemma {:induction false} LoadHistory(states: seq<State>, moves: seq<Move>, call: nat, i: nat, c: nat)
    requires Run(states, moves) && call < i <= |moves| && moves[call] == Move(c, CallTry)
    requires forall j | call < j < i && moves[j].core == c :: !moves[j].event.CallTry? && !moves[j].event.Return?
    ensures InTry(states[i], c) || PcIs(states[i], c, TryReturn(0)) || PcIs(states[i], c, TryReturn(1))
    ensures Loads(states, moves, call, i, c, LOCKED) <==>
              PcIs(states[i], c, TryBranch(LOCKED)) || PcIs(states[i], c, TryReturn(0))
  {
    if i == call + 1 {
      assert Step(states[call], states[i], c, CallTry);
    } else {
      LoadHistory(states, moves, call, i - 1, c);
      var m := moves[i - 1];
      assert Step(states[i - 1], states[i], m.core, m.event);
      OneMoreLoad(states, moves, call, i - 1, c);
      StaysTrying(states[i - 1], states[i], m.core, m.event, c);
      LoadMoves(states[i - 1], states[i], m.core, m.event, c);
      hide Step, Loads, Run;
    }
  }

  lemma OneMoreLoad(states: seq<State>, moves: seq<Move>, call: nat, i: nat, c: nat)
    requires call < i < |moves| && |states| == |moves| + 1
    ensures Loads(states, moves, call, i + 1, c, LOCKED) <==>
              Loads(states, moves, call, i, c, LOCKED) || (moves[i] == Move(c, Llock) && states[i].slock == LOCKED)
  {}

  lemma LoadMoves(s: State, s': State, core: nat, e: Event, c: nat)
    requires Step(s, s', core, e) && (core == c ==> !e.CallTry? && !e.Return?)
    requires InTry(s, c) || PcIs(s, c, TryReturn(0)) || PcIs(s, c, TryReturn(1))
    ensures PcIs(s', c, TryBranch(LOCKED)) || PcIs(s', c, TryReturn(0)) <==>
              PcIs(s, c, TryBranch(LOCKED)) || PcIs(s, c, TryReturn(0)) || (core == c && e == Llock && s.slock == LOCKED)
  {}

  // ------------------------------------------------------------------ taking a free lock

  /** A core that may still come to hold the lock: it is in arc_spinlock_get, or in an
      arc_spinlock_try that has not found the lock taken. */
  predicate Wants(s: State, c: nat) {
    && c < |s.pc|
    && (s.pc[c].GetLoad? || s.pc[c].GetBranch? || s.pc[c].GetStore? || s.pc[c].TryLoad? || s.pc[c].TryStore?
        || (s.pc[c].TryBranch? && s.pc[c].val != LOCKED))
  }

  /** How many instructions are left until core `c` holds a free lock. */
  function Left(s: State, c: nat): (n: nat)
    requires Wants(s, c)
    ensures 1 <= n <= 5
  {
    match s.pc[c]
    case GetLoad => 3
    case TryLoad => 3
    case GetBranch(val) => if val == LOCKED then 4 else if c in s.reserved then 2 else 5
    case TryBranch(val) => if c in s.reserved then 2 else 5
    case _ => if c in s.reserved then 1 else 4
  }

  /** The next instruction of a core. */
  function Next(p: Pc): Event {
    if p.GetLoad? || p.TryLoad? then Llock else if p.GetBranch? || p.TryBranch? then Branch else Scond(false)
  }

  /** `moves` continues a run by undisturbed instructions of core `c` alone. */
  ghost predicate Alone(states: seq<State>, moves: seq<Move>, states': seq<State>, moves': seq<Move>, c: nat) {
    && states <= states' && moves <= moves' && Run(states', moves')
    && forall i | |moves| <= i < |moves'| ::
         moves'[i].core == c && !moves'[i].event.LoseReservation? && moves'[i].event != Scond(true)
  }

  /** The state after that instruction. */
  lemma OneInstruction(s: State, c: nat) returns (s': State)
    requires Wants(s, c) && s.slock == UNLOCKED
    ensures Step(s, s', c, Next(s.pc[c]))
    ensures Holds(s', c) || (Wants(s', c) && s'.slock == UNLOCKED && Left(s', c) < Left(s, c))
  {
    match s.pc[c]
    case GetLoad => s' := At(s, c, GetBranch(s.slock)).(reserved := s.reserved + {c});
    case TryLoad => s' := At(s, c, TryBranch(s.slock)).(reserved := s.reserved + {c});
    case GetBranch(val) => s' := At(s, c, if val == LOCKED then GetLoad else GetStore);
    case TryBranch(_) => s' := At(s, c, TryStore);
    case GetStore =>
      if c in s.reserved { s' := At(Store(s, LOCKED), c, Holding); }
      else { s' := At(s, c, GetLoad).(reserved := s.reserved - {c}); }
    case TryStore =>
      if c in s.reserved { s' := At(Store(s, LOCKED), c, TryReturn(1)); }
      else { s' := At(s, c, TryLoad).(reserved := s.reserved - {c}); }
  }

  lemma Extend(states: seq<State>, moves: seq<Move>, s: State, c: nat, e: Event)
    requires Run(states, moves) && Step(states[|moves|], s, c, e)
    requires !e.LoseReservation? && e != Scond(true)
    ensures Alone(states, moves, states + [s], moves + [Move(c, e)], c)
  {}

  lemma {:induction false} TakeFreeLock(states: seq<State>, moves: seq<Move>, c: nat)
      returns (states': seq<State>, moves': seq<Move>)
    requires Run(states, moves) && Wants(states[|moves|], c) && states[|moves|].slock == UNLOCKED
    ensures Alone(states, moves, states', moves', c)
    ensures |states'| == |moves'| + 1 && |moves'| <= |moves| + Left(states[|moves|], c) && Holds(states'[|moves'|], c)
    decreases Left(states[|moves|], c)
  {
    assert |states| == |moves| + 1;
    hide Run, Alone, Step, Left, Wants, Holds;
    var s := states[|moves|];
    var s' := OneInstruction(s, c);
    Extend(states, moves, s', c, Next(s.pc[c]));
    AloneRuns(states, moves, states + [s'], moves + [Move(c, Next(s.pc[c]))], c);
    states', moves' := states + [s'], moves + [Move(c, Next(s.pc[c]))];
    if !Holds(s', c) {
      states', moves' := TakeFreeLock(states', moves', c);
      AloneTrans(states, moves, states + [s'], moves + [Move(c, Next(s.pc[c]))], states', moves', c);
    }
  }

  lemma AloneRuns(states: seq<State>, moves: seq<Move>, states': seq<State>, moves': seq<Move>, c: nat)
    requires Alone(states, moves, states', moves', c)
    ensures Run(states', moves') && |states'| == |moves'| + 1
  {}

  lemma AloneTrans(s0: seq<State>, m0: seq<Move>, s1: seq<State>, m1: seq<Move>, s2: seq<State>, m2: seq<Move>, c: nat)
    requires Alone(s0, m0, s1, m1, c) && Alone(s1, m1, s2, m2, c)
    ensures Alone(s0, m0, s2, m2, c)
  {
    hide Run;
  }

  /** However a run has gone: if the lock is free, a core that calls arc_spinlock_get or
      arc_spinlock_try, or still wants the lock, can take it by at most six undisturbed
      events of its own. */
  lemma FreeLockIsTaken(states: seq<State>, moves: seq<Move>, c: nat, call: Event)
    requires Run(states, moves) && states[|moves|].slock == UNLOCKED
    requires Wants(states[|moves|], c) || (PcIs(states[|moves|], c, Outside) && (call == CallGet || call == CallTry))
    ensures exists states', moves' :: Alone(states, moves, states', moves', c)
              && |moves| < |moves'| <= |moves| + 6 && |states'| == |moves'| + 1 && Holds(states'[|moves'|], c)
              && (PcIs(states[|moves|], c, Outside) ==> moves'[|moves|] == Move(c, call))
  {
    var s := states[|moves|];
    if Wants(s, c) {
      var states', moves' := TakeFreeLock(states, moves, c);
      assert |moves'| > |moves| by { RunInv(states, moves, |moves|); NobodyHolds(s, c); }
      AloneRuns(states, moves, states', moves', c);
    } else {
      var s' := At(s, c, if call == CallGet then GetLoad else TryLoad);
      Extend(states, moves, s', c, call);
      hide Alone, Run;
      var states1, moves1 := states + [s'], moves + [Move(c, call)];
      AloneRuns(states, moves, states1, moves1, c);
      var states', moves' := TakeFreeLock(states1, moves1, c);
      AloneTrans(states, moves, states1, moves1, states', moves', c);
      AloneRuns(states, moves, states', moves', c);
      AloneExtends(states1, moves1, states', moves', c);
      assert moves'[|moves|] == moves1[|moves|];
    }
  }

  lemma AloneExtends(states: seq<State>, moves: seq<Move>, states': seq<State>, moves': seq<Move>, c: nat)
    requires Alone(states, moves, states', moves', c)
    ensures moves <= moves' && states <= states'
  {}

  lemma NobodyHolds(s: State, c: nat)
    requires Inv(s) && s.slock == UNLOCKED
    ensures !Holds(s, c)
  {}

  lemma StaysTrying(s: State, s': State, core: nat, e: Event, c: nat)
    requires Step(s, s', core, e) && (core == c ==> !e.CallTry? && !e.Return?)
    requires InTry(s, c) || PcIs(s, c, TryReturn(0)) || PcIs(s, c, TryReturn(1))
    ensures InTry(s', c) || PcIs(s', c, TryReturn(0)) || PcIs(s', c, TryReturn(1))
    ensures PcIs(s, c, TryReturn(1)) ==> PcIs(s', c, TryReturn(1))
  {}
}
