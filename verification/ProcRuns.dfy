/**
 Process lifetimes (proc.c: fork, exit, wait, yield, sleep, wakeup, kill, scheduler), as
 steps of any number of CPUs. A section that runs with ptable.lock held is one step; the
 writes that fork makes to the new slot without the lock are steps of their own.
 */
module ProcRuns {
  import opened ProcTable

  /** What a process is in the middle of: fork, with the new slot and whether it has its parent; or wait. */
  datatype Doing = User | Forking(np: int, named: bool) | Waiting

  /**
   The table, each CPU's process, the pid counter and init's slot; where each process is in
   its calls; and, for the argument, each process's CPU, each embryo's forker, each pid's
   slot, and the pids that wait has returned.
   */
  datatype State = State(
    procs: seq<Proc>, cpus: seq<int>, nextpid: int, init: int, doing: seq<Doing>,
    on: seq<int>, forker: seq<int>, slots: map<int, int>, reaped: seq<int>)

  datatype Action =
    | Alloc(c: nat, np: nat) | ForkFail(c: nat) | ForkName(c: nat) | ForkDone(c: nat)
    | Exit(c: nat)
    | WaitCall(c: nat) | Wait(c: nat, r: Scan)
    | Yield(c: nat) | SleepOn(c: nat, k: int) | Dispatch(c: nat, p: nat)
    | WakeOn(k: int) | Kill(slot: nat)

  /** userinit: init is runnable and every other slot is unused. */
  function Init(n: nat, ncpu: nat): State
    requires n > 0
  {
    State(seq(n, i => if i == 0 then Proc(RUNNABLE, 1, NULL, Nothing, false)
      else Proc(UNUSED, 0, NULL, Nothing, false)),
          seq(ncpu, _ => NULL), 2, 0, seq(n, _ => User), seq(n, _ => NULL), seq(n, _ => NULL), map[1 := 0], [])
  }

  predicate Alive(p: Proc) {
    p.state == SLEEPING || p.state == RUNNABLE || p.state == RUNNING
  }

  predicate AsleepInWait(p: Proc, i: int) {
    p.state == SLEEPING && p.chan == Slot(i)
  }

  predicate Sized(s: State) {
    && |s.doing| == |s.on| == |s.forker| == |s.procs|
    && forall c :: 0 <= c < |s.cpus| ==> NULL <= s.cpus[c] < |s.procs|
  }

  /** CPU `c` runs a process that is at `d` in its calls. */
  predicate Runs(s: State, c: int) {
    Sized(s) && 0 <= c < |s.cpus| && s.cpus[c] != NULL
  }

  predicate Enabled(s: State, a: Action) {
    match a
    case Alloc(c, np) => Runs(s, c) && s.doing[s.cpus[c]] == User && np < |s.procs| && s.procs[np].state == UNUSED
    case ForkFail(c) => Runs(s, c) && s.doing[s.cpus[c]].Forking? && !s.doing[s.cpus[c]].named &&
      0 <= s.doing[s.cpus[c]].np < |s.procs|
    case ForkName(c) => Runs(s, c) && s.doing[s.cpus[c]].Forking? && !s.doing[s.cpus[c]].named &&
      0 <= s.doing[s.cpus[c]].np < |s.procs|
    case ForkDone(c) => Runs(s, c) && s.doing[s.cpus[c]].Forking? && s.doing[s.cpus[c]].named &&
      0 <= s.doing[s.cpus[c]].np < |s.procs|
    case Exit(c) => Runs(s, c) && s.doing[s.cpus[c]] == User && s.cpus[c] != s.init
    case WaitCall(c) => Runs(s, c) && s.doing[s.cpus[c]] == User
    case Wait(c, r) => Runs(s, c) && s.doing[s.cpus[c]] == Waiting && ScanIs(s.procs, s.cpus[c], r)
    case Yield(c) => Runs(s, c)
    case SleepOn(c, _) => Runs(s, c) && s.doing[s.cpus[c]] == User
    case Dispatch(c, p) => Sized(s) && c < |s.cpus| && s.cpus[c] == NULL && p < |s.procs| &&
      s.procs[p].state == RUNNABLE
    case WakeOn(_) => Sized(s)
    case Kill(k) => Sized(s) && k < |s.procs|
  }

  function SetProc(s: State, i: int, p: Proc): State
    requires 0 <= i < |s.procs|
  {
    s.(procs := s.procs[i := p])
  }

  function Now(s: State, i: int, d: Doing): State
    requires 0 <= i < |s.doing|
  {
    s.(doing := s.doing[i := d])
  }

  /** Off the CPU, back in the scheduler. */
  function Off(s: State, c: nat): State
    requires c < |s.cpus|
  {
    s.(cpus := s.cpus[c := NULL])
  }

  function Apply(s: State, a: Action): State
    requires Enabled(s, a)
  {
    match a
    case Alloc(c, np) =>
      Now(SetProc(s, np, s.procs[np].(state := EMBRYO, pid := s.nextpid)), s.cpus[c], Forking(np, false))
        .(nextpid := s.nextpid + 1, forker := s.forker[np := s.cpus[c]], slots := s.slots[s.nextpid := np])
    case ForkFail(c) =>
      var np := s.doing[s.cpus[c]].np;
      Now(SetProc(s, np, s.procs[np].(state := UNUSED)), s.cpus[c], User)
    case ForkName(c) =>
      var np := s.doing[s.cpus[c]].np;
      Now(SetProc(s, np, s.procs[np].(parent := s.cpus[c])), s.cpus[c], Forking(np, true))
    case ForkDone(c) =>
      var np := s.doing[s.cpus[c]].np;
      Now(SetProc(s, np, s.procs[np].(state := RUNNABLE)), s.cpus[c], User)
    case Exit(c) => Off(s.(procs := Exited(s.procs, s.cpus[c], s.init)), c)
    case WaitCall(c) => Now(s, s.cpus[c], Waiting)
    case Wait(c, r) => WaitStep(s, c, r)
    case Yield(c) => Off(SetProc(s, s.cpus[c], s.procs[s.cpus[c]].(state := RUNNABLE)), c)
    case SleepOn(c, k) => Off(SetProc(s, s.cpus[c], s.procs[s.cpus[c]].(state := SLEEPING, chan := Other(k))), c)
    case Dispatch(c, p) =>
      SetProc(s, p, s.procs[p].(state := RUNNING, chan := Nothing)).(cpus := s.cpus[c := p], on := s.on[p := c])
    case WakeOn(k) => s.(procs := WakeAll(s.procs, Other(k)))
    case Kill(k) => SetProc(s, k, Killed(s.procs[k]))
  }

  /** wait: reap a zombie child, or return if there are no children or it was killed, or sleep. */
  function WaitStep(s: State, c: nat, r: Scan): State
    requires Runs(s, c) && ScanIs(s.procs, s.cpus[c], r)
  {
    var cur := s.cpus[c];
    match r
    case Reap(k) => Now(SetProc(s, k, Reaped(s.procs[k])), cur, User).(reaped := s.reaped + [s.procs[k].pid])
    case NoZombie(kids) =>
      if !kids || s.procs[cur].killed then Now(s, cur, User)
      else Off(SetProc(s, cur, s.procs[cur].(state := SLEEPING, chan := Slot(cur))), c)
  }

  // ---- The invariant ----------------------------------------------------------------------------

  /** A parent is alive, and not asleep in wait beside a zombie child. */
  ghost predicate ParentOk(s: State, i: int)
    requires 0 <= i < |s.procs|
  {
    var q := s.procs[i];
    && (q.state == UNUSED || i == s.init ==> q.parent == NULL) && q.parent != i
    && (q.parent != NULL ==> 0 <= q.parent < |s.procs| && Alive(s.procs[q.parent]))
    && (q.parent != NULL && q.state == ZOMBIE ==> !AsleepInWait(s.procs[q.parent], q.parent))
    && ((Alive(q) || q.state == ZOMBIE) && i != s.init ==> q.parent != NULL)
  }

  /** Running exactly when on a CPU, and then on one. */
  ghost predicate CpuOk(s: State, i: int)
    requires Sized(s) && 0 <= i < |s.procs|
  {
    && (s.procs[i].state == RUNNING <==> 0 <= s.on[i] < |s.cpus| && s.cpus[s.on[i]] == i)
    && (forall c :: 0 <= c < |s.cpus| && s.cpus[c] == i ==> s.on[i] == c)
  }

  /** Calls under way: a forker and its embryo know each other, and a waiter sleeps on itself. */
  ghost predicate CallOk(s: State, i: int)
    requires Sized(s) && 0 <= i < |s.procs|
  {
    var q, d := s.procs[i], s.doing[i];
    && (d != User || i == s.init ==> Alive(q))
    && (d.Forking? ==>
          q.state != SLEEPING && 0 <= d.np < |s.procs| && s.procs[d.np].state == EMBRYO &&
          s.forker[d.np] == i)
    && (q.state == EMBRYO ==>
          0 <= s.forker[i] < |s.procs| && s.doing[s.forker[i]].Forking? &&
          s.doing[s.forker[i]].np == i)
    && (q.state == EMBRYO ==> q.parent == if s.doing[s.forker[i]].named then s.forker[i] else NULL)
    && (q.state == SLEEPING && q.chan.Slot? ==> q.chan.index == i && d == Waiting)
  }

  /** A pid in use belongs to one slot and has not been returned by wait. */
  ghost predicate PidOk(s: State, i: int)
    requires 0 <= i < |s.procs|
  {
    var q := s.procs[i];
    q.state != UNUSED ==> q.pid < s.nextpid && q.pid in s.slots && s.slots[q.pid] == i && q.pid !in s.reaped
  }

  ghost predicate ReapedOk(s: State) {
    && (forall j :: 0 <= j < |s.reaped| ==> s.reaped[j] < s.nextpid)
    && (forall j, k :: 0 <= j < k < |s.reaped| ==> s.reaped[j] != s.reaped[k])
  }

  ghost predicate ParentsOk(s: State) {
    forall i {:trigger ParentOk(s, i)} :: 0 <= i < |s.procs| ==> ParentOk(s, i)
  }

  ghost predicate CpusOk(s: State)
    requires Sized(s)
  {
    forall i {:trigger CpuOk(s, i)} :: 0 <= i < |s.procs| ==> CpuOk(s, i)
  }

  ghost predicate CallsOk(s: State)
    requires Sized(s)
  {
    forall i {:trigger CallOk(s, i)} :: 0 <= i < |s.procs| ==> CallOk(s, i)
  }

  ghost predicate PidsOk(s: State) {
    ReapedOk(s) && forall i {:trigger PidOk(s, i)} :: 0 <= i < |s.procs| ==> PidOk(s, i)
  }

  ghost predicate Inv(s: State) {
    Sized(s) && 0 <= s.init < |s.procs| && ParentsOk(s) && CpusOk(s) && CallsOk(s) && PidsOk(s)
  }

  lemma InitInv(n: nat, ncpu: nat)
    requires n > 0
    ensures Inv(Init(n, ncpu))
  {
    var s := Init(n, ncpu);
    forall i | 0 <= i < n ensures ParentOk(s, i) && CpuOk(s, i) && CallOk(s, i) && PidOk(s, i) {
    }
  }

  // ---- Steps ------------------------------------------------------------------------------------

  /** The process on a CPU is running there. */
  lemma CurrentRuns(s: State, c: nat)
    requires Inv(s) && Runs(s, c)
    ensures s.procs[s.cpus[c]].state == RUNNING && s.on[s.cpus[c]] == c
  {
    assert CpuOk(s, s.cpus[c]);
  }

  ghost predicate UsesCpu(a: Action) {
    !a.Dispatch? && !a.WakeOn? && !a.Kill?
  }

  lemma StepPids(s: State, a: Action)
    requires Inv(s) && Enabled(s, a)
    ensures PidsOk(Apply(s, a))
  {
    var s' := Apply(s, a);
    if a.Wait? && a.r.Reap? {
      assert PidOk(s, a.r.slot);
    }
    if UsesCpu(a) {
      CurrentRuns(s, a.c);
      assert CallOk(s, s.cpus[a.c]);
    }
    forall i | 0 <= i < |s'.procs| ensures PidOk(s', i) {
      assert PidOk(s, i);
    }
  }

  lemma StepSized(s: State, a: Action)
    requires Sized(s) && Enabled(s, a)
    ensures Sized(Apply(s, a)) && |Apply(s, a).procs| == |s.procs|
  {
  }

  /** Steps that leave every CPU with its process. */
  ghost predicate KeepsCpus(a: Action) {
    ForkAction(a) || a.WaitCall? || (a.Wait? && a.r.Reap?) || a.WakeOn? || a.Kill?
  }

  lemma SameCpus(s: State, a: Action)
    requires Inv(s) && Enabled(s, a) && KeepsCpus(a) && Sized(Apply(s, a)) && |Apply(s, a).procs| == |s.procs|
    ensures CpusOk(Apply(s, a))
  {
    var s' := Apply(s, a);
    if UsesCpu(a) {
      CurrentRuns(s, a.c);
      assert CallOk(s, s.cpus[a.c]);
    }
    forall i | 0 <= i < |s'.procs| ensures CpuOk(s', i) {
      assert CpuOk(s, i);
    }
  }

  lemma SwitchCpus(s: State, a: Action)
    requires Inv(s) && Enabled(s, a) && !KeepsCpus(a) && Sized(Apply(s, a)) && |Apply(s, a).procs| == |s.procs|
    ensures CpusOk(Apply(s, a))
  {
    var s' := Apply(s, a);
    if UsesCpu(a) {
      CurrentRuns(s, a.c);
    }
    forall i | 0 <= i < |s'.procs| ensures CpuOk(s', i) {
      assert CpuOk(s, i);
    }
  }

  ghost predicate ForkAction(a: Action) {
    a.Alloc? || a.ForkFail? || a.ForkName? || a.ForkDone?
  }

  lemma ForkCalls(s: State, a: Action)
    requires Inv(s) && Enabled(s, a) && Sized(Apply(s, a)) && ForkAction(a)
    ensures CallsOk(Apply(s, a))
  {
    var s' := Apply(s, a);
    CurrentRuns(s, a.c);
    assert CallOk(s, s.cpus[a.c]);
    forall i | 0 <= i < |s'.procs| ensures CallOk(s', i) {
      assert CallOk(s, i) && ParentOk(s, i);
    }
  }

  lemma ExitCalls(s: State, a: Action)
    requires Inv(s) && Enabled(s, a) && Sized(Apply(s, a)) && a.Exit?
    ensures CallsOk(Apply(s, a))
  {
    var s' := Apply(s, a);
    CurrentRuns(s, a.c);
    forall i | 0 <= i < |s'.procs| ensures CallOk(s', i) {
      assert CallOk(s, i);
    }
  }

  lemma WaitCalls(s: State, a: Action)
    requires Inv(s) && Enabled(s, a) && Sized(Apply(s, a)) && (a.WaitCall? || a.Wait?)
    ensures CallsOk(Apply(s, a))
  {
    var s' := Apply(s, a);
    CurrentRuns(s, a.c);
    forall i | 0 <= i < |s'.procs| ensures CallOk(s', i) {
      assert CallOk(s, i);
    }
  }

  lemma OtherCalls(s: State, a: Action)
    requires Inv(s) && Enabled(s, a) && Sized(Apply(s, a)) && !ForkAction(a) && !a.Exit? && !a.WaitCall? && !a.Wait?
    ensures CallsOk(Apply(s, a))
  {
    var s' := Apply(s, a);
    if UsesCpu(a) {
      CurrentRuns(s, a.c);
    }
    forall i | 0 <= i < |s'.procs| ensures CallOk(s', i) {
      assert CallOk(s, i);
    }
  }

  lemma ForkParents(s: State, a: Action)
    requires Inv(s) && Enabled(s, a) && ForkAction(a)
    ensures ParentsOk(Apply(s, a))
  {
    var s' := Apply(s, a);
    CurrentRuns(s, a.c);
    assert CallOk(s, s.cpus[a.c]);
    forall i | 0 <= i < |s'.procs| ensures ParentOk(s', i) {
      assert ParentOk(s, i) && CallOk(s, i);
    }
  }

  /** exit: the new zombie's parent is awake, and so is init if it inherits one. */
  lemma ExitParents(s: State, a: Action)
    requires Inv(s) && Enabled(s, a) && a.Exit?
    ensures ParentsOk(Apply(s, a))
  {
    var s' := Apply(s, a);
    CurrentRuns(s, a.c);
    assert CallOk(s, s.init) && ParentOk(s, s.cpus[a.c]) && ParentOk(s, s.init);
    forall i | 0 <= i < |s'.procs| ensures ParentOk(s', i) {
      assert ParentOk(s, i);
    }
  }

  lemma OtherParents(s: State, a: Action)
    requires Inv(s) && Enabled(s, a) && !ForkAction(a) && !a.Exit?
    ensures ParentsOk(Apply(s, a))
  {
    var s' := Apply(s, a);
    if UsesCpu(a) {
      CurrentRuns(s, a.c);
    }
    assert CallOk(s, s.init);
    forall i | 0 <= i < |s'.procs| ensures ParentOk(s', i) {
      assert ParentOk(s, i);
    }
  }

  lemma StepInv(s: State, a: Action)
    requires Inv(s) && Enabled(s, a)
    ensures Inv(Apply(s, a))
  {
    StepPids(s, a);
    StepSized(s, a);
    if KeepsCpus(a) {
      SameCpus(s, a);
    } else {
      SwitchCpus(s, a);
    }
    if ForkAction(a) {
      ForkCalls(s, a);
      ForkParents(s, a);
    } else if a.Exit? {
      ExitCalls(s, a);
      ExitParents(s, a);
    } else {
      if a.WaitCall? || a.Wait? {
        WaitCalls(s, a);
      } else {
        OtherCalls(s, a);
      }
      OtherParents(s, a);
    }
  }

  // ---- Every run -------------------------------------------------------------------------------

  ghost predicate IsRun(run: seq<State>, acts: seq<Action>) {
    && |run| == |acts| + 1
    && |run[0].procs| > 0 && run[0] == Init(|run[0].procs|, |run[0].cpus|)
    && forall k :: 0 <= k < |acts| ==> Enabled(run[k], acts[k]) && run[k + 1] == Apply(run[k], acts[k])
  }

  lemma {:induction false} RunInv(run: seq<State>, acts: seq<Action>, k: nat)
    requires IsRun(run, acts) && k < |run|
    ensures Inv(run[k])
  {
    if k == 0 {
      InitInv(|run[0].procs|, |run[0].cpus|);
    } else {
      RunInv(run, acts, k - 1);
      StepInv(run[k - 1], acts[k - 1]);
    }
  }

  /** In every state of every run, no process asleep in wait has a zombie child. */
  lemma NoZombieMissed(run: seq<State>, acts: seq<Action>, k: nat, p: nat, q: nat)
    requires IsRun(run, acts) && k < |run| && p < |run[k].procs| && q < |run[k].procs|
    requires run[k].procs[p].state == SLEEPING && run[k].procs[p].chan.Slot?
    ensures !IsZombieChild(run[k].procs[q], p)
  {
    RunInv(run, acts, k);
    assert CallOk(run[k], p) && ParentOk(run[k], q);
  }

  /** In every state of every run, a parent pointer names a process that is alive. */
  lemma ParentsAlive(run: seq<State>, acts: seq<Action>, k: nat, q: nat)
    requires IsRun(run, acts) && k < |run| && q < |run[k].procs| && run[k].procs[q].parent != NULL
    ensures 0 <= run[k].procs[q].parent < |run[k].procs| && Alive(run[k].procs[run[k].procs[q].parent])
  {
    RunInv(run, acts, k);
    assert ParentOk(run[k], q);
  }

  /** In every state of every run, every zombie has a living parent that can reap it. */
  lemma ZombiesHaveParents(run: seq<State>, acts: seq<Action>, k: nat, q: nat)
    requires IsRun(run, acts) && k < |run| && q < |run[k].procs| && run[k].procs[q].state == ZOMBIE
    ensures run[k].procs[q].parent != NULL && q != run[k].init
  {
    RunInv(run, acts, k);
    assert ParentOk(run[k], q) && CallOk(run[k], q);
  }

  /** In every run, wait returns no pid twice. */
  lemma ReapedOnce(run: seq<State>, acts: seq<Action>, k: nat, i: nat, j: nat)
    requires IsRun(run, acts) && k < |run| && i < j < |run[k].reaped|
    ensures run[k].reaped[i] != run[k].reaped[j]
  {
    RunInv(run, acts, k);
  }

  /** In every state of every run, a process is running exactly when one CPU, and no other, has it. */
  lemma RunningIffOnCpu(run: seq<State>, acts: seq<Action>, k: nat, p: nat)
    requires IsRun(run, acts) && k < |run| && p < |run[k].procs|
    ensures run[k].procs[p].state == RUNNING <==>
              exists c :: 0 <= c < |run[k].cpus| && run[k].cpus[c] == p && forall d ::
                0 <= d < |run[k].cpus| && run[k].cpus[d] == p ==> d == c
  {
    var s := run[k];
    RunInv(run, acts, k);
    assert CpuOk(s, p);
    if s.procs[p].state == RUNNING {
      assert s.cpus[s.on[p]] == p;
    }
  }
}
