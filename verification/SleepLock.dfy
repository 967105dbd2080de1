/**
 Sleep locks (sleeplock.c) over sleep, wakeup and kill (proc.c), as interleaved steps of any
 number of processes. A spinlock is taken or released in one step; every other step reads
 or writes the fields its lock protects.
 */
module SleepLock {

  /** What a process does next. */
  datatype Pc =
    | Idle
    // acquiresleep
    | AcqLk | Check | SetLocked | SetPid | AcqDone
    // sleep, called from acquiresleep
    | SleepPt | SleepRel | SleepSet | Sched | Asleep | Woken | SleepEnd | ReAcq
    // the holder's critical section
    | Held
    // releasesleep, with wakeup's scan at slot `next`
    | RelAcq | RelClear | RelPid | WakePt | Wake(next: nat) | WakeEnd | RelDone
    // holdingsleep, called by the holder (`mine`) or another process
    | HoldAcq(mine: bool) | HoldTest(mine: bool) | HoldEnd(mine: bool, answer: bool)
    // kill
    | KillPt(target: nat) | Kill(target: nat) | KillEnd

  datatype Run = Running | Runnable | Sleeping

  datatype Proc = Proc(pc: Pc, run: Run, chan: bool, killed: bool)

  const NONE: int := -1

  /**
   The lock's fields, the holders of its inner spinlock `lk` and of ptable.lock `pt`, the
   processes, and (for the argument only) which process owns the sleep lock.
   */
  datatype State = State(locked: bool, pid: int, lk: int, pt: int, procs: seq<Proc>, owner: int)

  datatype Action = Acquire(p: nat) | Release(p: nat) | Ask(p: nat) | DoKill(p: nat, target: nat) | Resume(p: nat) |
    Go(p: nat)

  function Init(n: nat): State {
    State(false, 0, NONE, NONE, seq(n, _ => Proc(Idle, Running, false, false)), NONE)
  }

  function At(s: State, p: nat, pc: Pc): State
    requires p < |s.procs|
  {
    s.(procs := s.procs[p := s.procs[p].(pc := pc)])
  }

  function Awaken(q: Proc): Proc {
    if q.run == Sleeping then q.(run := Runnable) else q
  }

  /** Whether a process can take its next step: a spinlock it wants must be free. */
  predicate CanGo(s: State, p: nat)
    requires p < |s.procs|
  {
    match s.procs[p].pc
    case Idle | Asleep | Held => false
    case AcqLk | ReAcq | RelAcq | HoldAcq(_) => s.lk == NONE
    case SleepPt | WakePt | KillPt(_) => s.pt == NONE
    case _ => true
  }

  /** A process's next step. */
  function Go1(s: State, p: nat): State
    requires p < |s.procs| && CanGo(s, p)
  {
    match s.procs[p].pc
    case AcqLk => At(s, p, Check).(lk := p)
    case Check => At(s, p, if s.locked then SleepPt else SetLocked)
    case SetLocked => At(s, p, SetPid).(locked := true, owner := p)
    case SetPid => At(s, p, AcqDone).(pid := p + 1)
    case AcqDone => At(s, p, Held).(lk := NONE)
    case SleepPt => At(s, p, SleepRel).(pt := p)
    case SleepRel => At(s, p, SleepSet).(lk := NONE)
    case SleepSet => s.(procs := s.procs[p := s.procs[p].(pc := Sched, run := Sleeping, chan := true)])
    case Sched => At(s, p, Asleep).(pt := NONE)
    case Woken => s.(procs := s.procs[p := s.procs[p].(pc := SleepEnd, chan := false)])
    case SleepEnd => At(s, p, ReAcq).(pt := NONE)
    case ReAcq => At(s, p, Check).(lk := p)
    case RelAcq => At(s, p, RelClear).(lk := p)
    case RelClear => At(s, p, RelPid).(locked := false, owner := NONE)
    case RelPid => At(s, p, WakePt).(pid := 0)
    case WakePt => At(s, p, Wake(0)).(pt := p)
    case Wake(i) => if i < |s.procs| then ScanSlot(s, p, i) else At(s, p, WakeEnd)
    case WakeEnd => At(s, p, RelDone).(pt := NONE)
    case RelDone => At(s, p, Idle).(lk := NONE)
    case HoldAcq(mine) => At(s, p, HoldTest(mine)).(lk := p)
    case HoldTest(mine) => At(s, p, HoldEnd(mine, s.locked && s.pid == p + 1))
    case HoldEnd(mine, _) => At(s, p, if mine then Held else Idle).(lk := NONE)
    case KillPt(t) => At(s, p, Kill(t)).(pt := p)
    case Kill(t) => KillSlot(s, p, t)
    case KillEnd => At(s, p, Idle).(pt := NONE)
  }

  /** wakeup1 at slot `i`: a process asleep on the lock becomes runnable. */
  function ScanSlot(s: State, p: nat, i: nat): State
    requires p < |s.procs| && i < |s.procs|
  {
    var s1 := if s.procs[i].run == Sleeping &&
      s.procs[i].chan then s.(procs := s.procs[i := Awaken(s.procs[i])]) else s;
    At(s1, p, Wake(i + 1))
  }

  /** kill: the target is marked, and woken from any sleep. */
  function KillSlot(s: State, p: nat, t: nat): State
    requires p < |s.procs|
  {
    var s1 := if t < |s.procs| then s.(procs := s.procs[t := Awaken(s.procs[t]).(killed := true)]) else s;
    At(s1, p, KillEnd)
  }

  predicate Enabled(s: State, a: Action) {
    && a.p < |s.procs|
    && match a
       case Acquire(p) => s.procs[p].pc == Idle
       case Release(p) => s.procs[p].pc == Held
       case Ask(p) => s.procs[p].pc == Idle || s.procs[p].pc == Held
       case DoKill(p, _) => s.procs[p].pc == Idle
       case Resume(p) => s.procs[p].pc == Asleep && s.procs[p].run == Runnable && s.pt == NONE
       case Go(p) => CanGo(s, p)
  }

  /** One step of some process; `Resume` is the scheduler handing it ptable.lock and a CPU. */
  function Apply(s: State, a: Action): State
    requires Enabled(s, a)
  {
    match a
    case Acquire(p) => At(s, p, AcqLk)
    case Release(p) => At(s, p, RelAcq)
    case Ask(p) => At(s, p, HoldAcq(s.procs[p].pc == Held))
    case DoKill(p, t) => At(s, p, KillPt(t))
    case Resume(p) => s.(procs := s.procs[p := s.procs[p].(pc := Woken, run := Running)], pt := p)
    case Go(p) => Go1(s, p)
  }

  // ---- The invariant ------------------------------------------------------------------------

  predicate HoldsLk(pc: Pc) {
    || pc.Check? || pc.SetLocked? || pc.SetPid? || pc.AcqDone? || pc.SleepPt? || pc.SleepRel? || pc.RelClear? ||
      pc.RelPid?
    || pc.WakePt? || pc.Wake? || pc.WakeEnd? || pc.RelDone? || pc.HoldTest? || pc.HoldEnd?
  }

  predicate HoldsPt(pc: Pc) {
    || pc.SleepRel? || pc.SleepSet? || pc.Sched? || pc.Woken? || pc.SleepEnd?
    || pc.Wake? || pc.WakeEnd? || pc.Kill? || pc.KillEnd?
  }

  /** Between setting `locked` and clearing it. */
  predicate Owns(pc: Pc) {
    || pc.SetPid? || pc.AcqDone? || pc.Held? || pc.RelAcq? || pc.RelClear?
    || (pc.HoldAcq? && pc.mine) || (pc.HoldTest? && pc.mine) || (pc.HoldEnd? && pc.mine)
  }

  /** Between clearing `locked` and letting go of the inner spinlock. */
  predicate Releasing(pc: Pc) {
    pc.RelPid? || pc.WakePt? || pc.Wake? || pc.WakeEnd? || pc.RelDone?
  }

  /** The releaser's wakeup has yet to reach slot `p`. */
  predicate WakeupComing(s: State, p: nat) {
    && 0 <= s.lk < |s.procs|
    && match s.procs[s.lk].pc
       case RelPid | WakePt => true
       case Wake(i) => i <= p
       case _ => false
  }

  ghost predicate ProcOk(s: State, p: nat)
    requires p < |s.procs|
  {
    var q := s.procs[p];
    && (s.lk == p <==> HoldsLk(q.pc)) && (s.pt == p <==> HoldsPt(q.pc)) && (s.owner == p <==> Owns(q.pc))
    && (q.run == Sleeping ==> q.pc.Sched? || q.pc.Asleep?) && (q.pc.Sched? ==> q.run == Sleeping)
    && (q.run == Runnable ==> q.pc.Asleep?) && (q.pc.Asleep? ==> q.run != Running)
    && (q.chan <==> q.pc.Sched? || q.pc.Asleep? || q.pc.Woken?)
    && (q.pc.SleepPt? || q.pc.SleepRel? ==> s.locked) && (q.pc.SetLocked? || Releasing(q.pc) ==> !s.locked)
    && (q.pc.SleepSet? || q.run == Sleeping ==> s.locked || WakeupComing(s, p))
    && (Owns(q.pc) && !q.pc.SetPid? ==> s.pid == p + 1)
    && (q.pc.HoldEnd? ==> q.pc.answer == q.pc.mine)
  }

  ghost predicate Inv(s: State) {
    && (s.locked <==> s.owner != NONE) && NONE <= s.lk < |s.procs| && NONE <= s.pt < |s.procs| &&
      NONE <= s.owner < |s.procs|
    && forall p {:trigger ProcOk(s, p)} :: 0 <= p < |s.procs| ==> ProcOk(s, p)
  }

  lemma InitInv(n: nat)
    ensures Inv(Init(n))
  {
  }

  /** Steps of one process keep what holds of every process `q`, itself included. */
  lemma EnterStep(s: State, p: nat, q: nat)
    requires Inv(s) && p < |s.procs| && q < |s.procs| && CanGo(s, p)
    requires var pc := s.procs[p].pc; pc.AcqLk? || pc.Check? || pc.ReAcq?
    ensures ProcOk(Go1(s, p), q)
  {
    assert ProcOk(s, p) && ProcOk(s, q);
  }

  lemma ClaimStep(s: State, p: nat, q: nat)
    requires Inv(s) && p < |s.procs| && q < |s.procs| && CanGo(s, p)
    requires var pc := s.procs[p].pc; pc.SetLocked? || pc.SetPid? || pc.AcqDone?
    ensures ProcOk(Go1(s, p), q)
  {
    assert ProcOk(s, p) && ProcOk(s, q);
  }

  lemma DozeStep(s: State, p: nat, q: nat)
    requires Inv(s) && p < |s.procs| && q < |s.procs| && CanGo(s, p)
    requires var pc := s.procs[p].pc; pc.SleepPt? || pc.SleepRel? || pc.SleepSet?
    ensures ProcOk(Go1(s, p), q)
  {
    assert ProcOk(s, p) && ProcOk(s, q);
  }

  lemma RouseStep(s: State, p: nat, q: nat)
    requires Inv(s) && p < |s.procs| && q < |s.procs| && CanGo(s, p)
    requires var pc := s.procs[p].pc; pc.Sched? || pc.Woken? || pc.SleepEnd?
    ensures ProcOk(Go1(s, p), q)
  {
    assert ProcOk(s, p) && ProcOk(s, q);
  }

  lemma ReleaseStep(s: State, p: nat, q: nat)
    requires Inv(s) && p < |s.procs| && q < |s.procs| && CanGo(s, p)
    requires var pc := s.procs[p].pc; pc.RelAcq? || pc.RelClear? || pc.RelPid?
    ensures ProcOk(Go1(s, p), q)
  {
    assert ProcOk(s, p) && ProcOk(s, q);
  }

  lemma FinishStep(s: State, p: nat, q: nat)
    requires Inv(s) && p < |s.procs| && q < |s.procs| && CanGo(s, p)
    requires var pc := s.procs[p].pc; pc.WakePt? || pc.WakeEnd? || pc.RelDone?
    ensures ProcOk(Go1(s, p), q)
  {
    assert ProcOk(s, p) && ProcOk(s, q);
  }

  lemma WakeStep(s: State, p: nat, q: nat)
    requires Inv(s) && p < |s.procs| && q < |s.procs| && s.procs[p].pc.Wake?
    ensures ProcOk(Go1(s, p), q)
  {
    assert ProcOk(s, p) && ProcOk(s, q);
  }

  lemma AskStep(s: State, p: nat, q: nat)
    requires Inv(s) && p < |s.procs| && q < |s.procs| && CanGo(s, p)
    requires var pc := s.procs[p].pc; pc.HoldTest?
    ensures ProcOk(Go1(s, p), q)
  {
    assert ProcOk(s, p) && ProcOk(s, q);
    if s.owner != NONE {
      assert ProcOk(s, s.owner);
    }
  }

  lemma AnswerStep(s: State, p: nat, q: nat)
    requires Inv(s) && p < |s.procs| && q < |s.procs| && CanGo(s, p)
    requires var pc := s.procs[p].pc; pc.HoldAcq? || pc.HoldEnd?
    ensures ProcOk(Go1(s, p), q)
  {
    assert ProcOk(s, p) && ProcOk(s, q);
  }

  lemma MarkStep(s: State, p: nat, q: nat)
    requires Inv(s) && p < |s.procs| && q < |s.procs| && CanGo(s, p)
    requires var pc := s.procs[p].pc; pc.Kill?
    ensures ProcOk(Go1(s, p), q)
  {
    assert ProcOk(s, p) && ProcOk(s, q);
  }

  lemma KillStep(s: State, p: nat, q: nat)
    requires Inv(s) && p < |s.procs| && q < |s.procs| && CanGo(s, p)
    requires var pc := s.procs[p].pc; pc.KillPt? || pc.KillEnd?
    ensures ProcOk(Go1(s, p), q)
  {
    assert ProcOk(s, p) && ProcOk(s, q);
  }

  lemma GoStep(s: State, p: nat, q: nat)
    requires Inv(s) && p < |s.procs| && q < |s.procs| && CanGo(s, p)
    ensures ProcOk(Go1(s, p), q)
  {
    match s.procs[p].pc
    case AcqLk | Check | ReAcq => EnterStep(s, p, q);
    case SetLocked | SetPid | AcqDone => ClaimStep(s, p, q);
    case SleepPt | SleepRel | SleepSet => DozeStep(s, p, q);
    case Sched | Woken | SleepEnd => RouseStep(s, p, q);
    case RelAcq | RelClear | RelPid => ReleaseStep(s, p, q);
    case WakePt | WakeEnd | RelDone => FinishStep(s, p, q);
    case Wake(_) => WakeStep(s, p, q);
    case HoldTest(_) => AskStep(s, p, q);
    case HoldAcq(_) | HoldEnd(_, _) => AnswerStep(s, p, q);
    case Kill(_) => MarkStep(s, p, q);
    case KillPt(_) | KillEnd => KillStep(s, p, q);
  }

  /** The scheduler's step. */
  lemma ResumeStep(s: State, a: Action, q: nat)
    requires Inv(s) && Enabled(s, a) && a.Resume? && q < |s.procs|
    ensures ProcOk(Apply(s, a), q)
  {
    assert ProcOk(s, a.p) && ProcOk(s, q);
  }

  /** Steps that begin an operation. */
  lemma BeginStep(s: State, a: Action, q: nat)
    requires Inv(s) && Enabled(s, a) && (a.Acquire? || a.DoKill?) && q < |s.procs|
    ensures ProcOk(Apply(s, a), q)
  {
    assert ProcOk(s, a.p) && ProcOk(s, q);
  }

  lemma HolderStep(s: State, a: Action, q: nat)
    requires Inv(s) && Enabled(s, a) && (a.Release? || a.Ask?) && q < |s.procs|
    ensures ProcOk(Apply(s, a), q)
  {
    assert ProcOk(s, a.p) && ProcOk(s, q);
  }

  lemma GlobalStep(s: State, a: Action)
    requires Inv(s) && Enabled(s, a)
    ensures var s' := Apply(s, a);
            && |s'.procs| == |s.procs| && (s'.locked <==> s'.owner != NONE)
            && NONE <= s'.lk < |s.procs| && NONE <= s'.pt < |s.procs| && NONE <= s'.owner < |s.procs|
  {
    assert ProcOk(s, a.p);
  }

  lemma StepInv(s: State, a: Action)
    requires Inv(s) && Enabled(s, a)
    ensures Inv(Apply(s, a)) && |Apply(s, a).procs| == |s.procs|
  {
    var s' := Apply(s, a);
    GlobalStep(s, a);
    forall q | 0 <= q < |s'.procs| ensures ProcOk(s', q) {
      if a.Go? {
        GoStep(s, a.p, q);
      } else if a.Resume? {
        ResumeStep(s, a, q);
      } else if a.Release? || a.Ask? {
        HolderStep(s, a, q);
      } else {
        BeginStep(s, a, q);
      }
    }
  }

  // ---- Every run -------------------------------------------------------------------------------

  /** A run: each state is an enabled step from the one before. */
  ghost predicate IsRun(run: seq<State>, acts: seq<Action>) {
    && |run| == |acts| + 1
    && run[0] == Init(|run[0].procs|)
    && forall k :: 0 <= k < |acts| ==> Enabled(run[k], acts[k]) && run[k + 1] == Apply(run[k], acts[k])
  }

  lemma {:induction false} RunInv(run: seq<State>, acts: seq<Action>, k: nat)
    requires IsRun(run, acts) && k < |run|
    ensures Inv(run[k])
  {
    if k == 0 {
      InitInv(|run[0].procs|);
    } else {
      RunInv(run, acts, k - 1);
      StepInv(run[k - 1], acts[k - 1]);
    }
  }

  /**
   In every state of every run, at most one process owns the lock, from its setting of `locked`
   to its clearing of it; `locked` is set exactly while one does, and holds its pid but for the
   moment between the two assignments.
   */
  lemma MutualExclusion(run: seq<State>, acts: seq<Action>, k: nat, p: nat, q: nat)
    requires IsRun(run, acts) && k < |run| && p < |run[k].procs| && q < |run[k].procs|
    requires Owns(run[k].procs[p].pc)
    ensures run[k].locked && (run[k].procs[p].pc != SetPid ==> run[k].pid == p + 1)
    ensures Owns(run[k].procs[q].pc) ==> p == q
  {
    RunInv(run, acts, k);
    assert ProcOk(run[k], p) && ProcOk(run[k], q);
  }

  lemma LockedIsOwned(run: seq<State>, acts: seq<Action>, k: nat)
    requires IsRun(run, acts) && k < |run|
    ensures run[k].locked <==> exists p :: 0 <= p < |run[k].procs| && Owns(run[k].procs[p].pc)
  {
    RunInv(run, acts, k);
    if run[k].locked {
      assert ProcOk(run[k], run[k].owner);
    }
    if p :| 0 <= p < |run[k].procs| && Owns(run[k].procs[p].pc) {
      assert ProcOk(run[k], p);
    }
  }

  /** In every state of every run, when the lock and its spinlock are free nobody sleeps on it. */
  lemma NoLostWakeup(run: seq<State>, acts: seq<Action>, k: nat, p: nat)
    requires IsRun(run, acts) && k < |run| && p < |run[k].procs|
    requires !run[k].locked && run[k].lk == NONE
    ensures run[k].procs[p].run != Sleeping
  {
    RunInv(run, acts, k);
    assert ProcOk(run[k], p);
  }

  /** In every state of every run, holdingsleep answers whether its caller holds the lock. */
  lemma HoldingIsExact(run: seq<State>, acts: seq<Action>, k: nat, p: nat)
    requires IsRun(run, acts) && k < |run| && p < |run[k].procs| && run[k].procs[p].pc.HoldEnd?
    ensures run[k].procs[p].pc.answer == run[k].procs[p].pc.mine == (run[k].owner == p)
  {
    RunInv(run, acts, k);
    assert ProcOk(run[k], p);
  }
}
