/**
 Admission to the log (log.c: begin_op, end_op, log_write), as interleaved steps of any
 number of processes. A stretch of code that runs with log.lock held is one step, so its
 sleep is one with the test that led to it; log_write's test comes before it takes the lock
 and is a step of its own.
 */
module LogAdmission {
  import opened Params

  datatype Pc =
    | Idle
    | Begin            // about to test, or test again, in begin_op
    | Asleep           // in begin_op
    | InOp
    | Writing(b: int)  // in log_write, past its test
    | Commit           // last out: commits without the lock
    | Clear            // committed: about to clear `committing`

  /** A process, and the blocks that its current operation has logged. */
  datatype Proc = Proc(pc: Pc, wrote: set<int>)

  const NONE: int := -1

  /** log.size, the blocks in log.lh, the counters, and (for the argument) who commits. */
  datatype State = State(size: int, logged: set<int>, outstanding: int, committing: bool, procs: seq<Proc>,
    committer: int)

  datatype Action =
    | Enter(p: nat)             // calls begin_op
    | TryBegin(p: nat)
    | Kill(p: nat)              // wakes a sleeper
    | LogWrite(p: nat, b: int)  // log_write's test
    | Append(p: nat)            // log_write's update
    | End(p: nat)               // end_op
    | Committed(p: nat)         // commit() has run
    | Done(p: nat)              // end_op, after the commit

  function Init(size: int, n: nat): State {
    State(size, {}, 0, false, seq(n, _ => Proc(Idle, {})), NONE)
  }

  /** begin_op must wait. */
  predicate Blocked(s: State) {
    s.committing || |s.logged| + (s.outstanding + 1) * MAXOPBLOCKS > LOGSIZE
  }

  /** log_write panics. */
  predicate Refused(s: State) {
    |s.logged| >= LOGSIZE || |s.logged| >= s.size - 1 || s.outstanding < 1
  }

  /** An operation within its budget: the block is one of its own, or it has room for another. */
  predicate InBudget(q: Proc, b: int) {
    b in q.wrote || |q.wrote| < MAXOPBLOCKS
  }

  function At(s: State, p: nat, pc: Pc): State
    requires p < |s.procs|
  {
    s.(procs := s.procs[p := s.procs[p].(pc := pc)])
  }

  function Woken(q: Proc): Proc {
    if q.pc == Asleep then q.(pc := Begin) else q
  }

  function WakeAll(s: State): State {
    s.(procs := seq(|s.procs|, i requires 0 <= i < |s.procs| => Woken(s.procs[i])))
  }

  predicate Enabled(s: State, a: Action) {
    && a.p < |s.procs|
    && var q := s.procs[a.p];
       match a
       case Enter(_) => q.pc == Idle
       case TryBegin(_) => q.pc == Begin
       case Kill(_) => q.pc == Asleep
       case LogWrite(_, b) => q.pc == InOp && InBudget(q, b) && !Refused(s)
       case Append(_) => q.pc.Writing?
       case End(_) => q.pc == InOp
       case Committed(_) => q.pc == Commit
       case Done(_) => q.pc == Clear
  }

  function Apply(s: State, a: Action): State
    requires Enabled(s, a)
  {
    var p := a.p;
    match a
    case Enter(_) => At(s, p, Begin)
    case TryBegin(_) =>
      if Blocked(s) then At(s, p, Asleep)
      else s.(procs := s.procs[p := Proc(InOp, {})], outstanding := s.outstanding + 1)
    case Kill(_) => At(s, p, Begin)
    case LogWrite(_, b) => At(s, p, Writing(b))
    case Append(_) =>
      var b := s.procs[p].pc.b;
      s.(logged := s.logged + {b}, procs := s.procs[p := Proc(InOp, s.procs[p].wrote + {b})])
    case End(_) => Leave(s, p)
    case Committed(_) => At(s, p, Clear).(logged := {})
    case Done(_) => WakeAll(At(s, p, Idle)).(committing := false, committer := NONE)
  }

  /** end_op, first half: the last one out commits, the others wake the waiting. */
  function Leave(s: State, p: nat): State
    requires p < |s.procs|
  {
    if s.outstanding == 1
    then s.(outstanding := 0, committing := true, committer := p, procs := s.procs[p := Proc(Commit, {})])
    else WakeAll(s.(outstanding := s.outstanding - 1, procs := s.procs[p := Proc(Idle, {})]))
  }

  // ---- Budgets ------------------------------------------------------------------------------

  predicate Inside(q: Proc) {
    q.pc.InOp? || q.pc.Writing?
  }

  /** Blocks that an operation may still add. */
  function Spare(q: Proc): int {
    if Inside(q) then MAXOPBLOCKS - |q.wrote| else 0
  }

  function Count(q: Proc): int {
    if Inside(q) then 1 else 0
  }

  /** Operations under way, and the budget they have left, among the first `k` processes. */
  ghost function Ops(ps: seq<Proc>, k: nat): int
    requires k <= |ps|
  {
    if k == 0 then 0 else Ops(ps, k - 1) + Count(ps[k - 1])
  }

  ghost function Unused(ps: seq<Proc>, k: nat): int
    requires k <= |ps|
  {
    if k == 0 then 0 else Unused(ps, k - 1) + Spare(ps[k - 1])
  }

  /** Changing one process changes the sums by what it contributes. */
  lemma {:induction false} SumsUpdate(ps: seq<Proc>, p: nat, q: Proc, k: nat)
    requires p < |ps| && k <= |ps|
    ensures Ops(ps[p := q], k) == Ops(ps, k) + if p < k then Count(q) - Count(ps[p]) else 0
    ensures Unused(ps[p := q], k) == Unused(ps, k) + if p < k then Spare(q) - Spare(ps[p]) else 0
  {
    if k > 0 {
      SumsUpdate(ps, p, q, k - 1);
    }
  }

  lemma {:induction false} SumsSame(ps: seq<Proc>, qs: seq<Proc>, k: nat)
    requires |ps| == |qs| && k <= |ps| && forall i :: 0 <= i < |ps| ==> qs[i] == Woken(ps[i])
    ensures Ops(qs, k) == Ops(ps, k) && Unused(qs, k) == Unused(ps, k)
  {
    if k > 0 {
      SumsSame(ps, qs, k - 1);
    }
  }

  /** Bounds: each operation under way counts once, and has at most its whole budget left. */
  lemma {:induction false} SumsBounds(ps: seq<Proc>, p: nat, k: nat)
    requires k <= |ps| && forall i :: 0 <= i < |ps| && Inside(ps[i]) ==> |ps[i].wrote| <= MAXOPBLOCKS
    ensures 0 <= Ops(ps, k) && 0 <= Unused(ps, k) <= MAXOPBLOCKS * Ops(ps, k)
    ensures p < k && Inside(ps[p]) ==> Ops(ps, k) >= 1 && Unused(ps, k) >= Spare(ps[p])
  {
    if k > 0 {
      SumsBounds(ps, p, k - 1);
    }
  }

  // ---- The invariant ------------------------------------------------------------------------

  ghost predicate ProcOk(s: State, p: nat)
    requires p < |s.procs|
  {
    var q := s.procs[p];
    && (Inside(q) ==> |q.wrote| <= MAXOPBLOCKS && q.wrote <= s.logged)
    && (q.pc.Writing? ==> InBudget(q, q.pc.b))
    && (q.pc.Asleep? ==> Blocked(s))
    && (q.pc.Commit? || q.pc.Clear? <==> s.committer == p)
    && (q.pc.Clear? ==> s.logged == {})
  }

  ghost predicate Totals(s: State) {
    && s.outstanding == Ops(s.procs, |s.procs|)
    && |s.logged| + Unused(s.procs, |s.procs|) <= LOGSIZE
  }

  ghost predicate Inv(s: State) {
    && (forall p {:trigger ProcOk(s, p)} :: 0 <= p < |s.procs| ==> ProcOk(s, p))
    && Totals(s)
    && (s.committing <==> s.committer != NONE) && NONE <= s.committer < |s.procs|
    && (s.committing ==> s.outstanding == 0)
    && (s.outstanding == 0 && !s.committing ==> s.logged == {})
  }

  lemma InitInv(size: int, n: nat)
    ensures Inv(Init(size, n))
  {
    var s := Init(size, n);
    IdleSums(s.procs, n);
  }

  lemma {:induction false} IdleSums(ps: seq<Proc>, k: nat)
    requires k <= |ps| && forall i :: 0 <= i < |ps| ==> ps[i] == Proc(Idle, {})
    ensures Ops(ps, k) == 0 && Unused(ps, k) == 0
  {
    if k > 0 {
      IdleSums(ps, k - 1);
    }
  }

  lemma AddedSize(x: set<int>, b: int)
    ensures |x + {b}| == if b in x then |x| else |x| + 1
  {
    if b in x {
      assert x + {b} == x;
    }
  }

  /** The bounds that the totals give for one process. */
  lemma Bounds(s: State, p: nat)
    requires Inv(s) && p < |s.procs|
    ensures 0 <= s.outstanding && 0 <= Unused(s.procs, |s.procs|) <= MAXOPBLOCKS * s.outstanding
    ensures Inside(s.procs[p]) ==>
              s.outstanding >= 1 && !s.committing && Unused(s.procs, |s.procs|) >= Spare(s.procs[p])
  {
    forall i | 0 <= i < |s.procs| && Inside(s.procs[i]) ensures |s.procs[i].wrote| <= MAXOPBLOCKS {
      assert ProcOk(s, i);
    }
    SumsBounds(s.procs, p, |s.procs|);
  }

  // ---- Steps ------------------------------------------------------------------------------------

  /** Steps that move a process outside its operation keep the sums. */
  lemma MoveInv(s: State, a: Action)
    requires Inv(s) && Enabled(s, a) && (a.Enter? || a.Kill? || a.LogWrite? || (a.TryBegin? && Blocked(s)))
    ensures Inv(Apply(s, a))
  {
    var s' := Apply(s, a);
    SumsUpdate(s.procs, a.p, s'.procs[a.p], |s.procs|);
    forall q | 0 <= q < |s'.procs| ensures ProcOk(s', q) {
      assert ProcOk(s, q);
    }
  }

  lemma BeginInv(s: State, a: Action)
    requires Inv(s) && Enabled(s, a) && a.TryBegin? && !Blocked(s)
    ensures Inv(Apply(s, a))
  {
    var s' := Apply(s, a);
    Bounds(s, a.p);
    SumsUpdate(s.procs, a.p, Proc(InOp, {}), |s.procs|);
    forall q | 0 <= q < |s'.procs| ensures ProcOk(s', q) {
      assert ProcOk(s, q);
    }
  }

  lemma AppendInv(s: State, a: Action)
    requires Inv(s) && Enabled(s, a) && a.Append?
    ensures Inv(Apply(s, a))
  {
    var s' := Apply(s, a);
    var q0 := s.procs[a.p];
    assert ProcOk(s, a.p);
    Bounds(s, a.p);
    AddedSize(s.logged, q0.pc.b);
    AddedSize(q0.wrote, q0.pc.b);
    SumsUpdate(s.procs, a.p, s'.procs[a.p], |s.procs|);
    forall q | 0 <= q < |s'.procs| ensures ProcOk(s', q) {
      assert ProcOk(s, q);
    }
  }

  lemma EndInv(s: State, a: Action)
    requires Inv(s) && Enabled(s, a) && a.End?
    ensures Inv(Apply(s, a))
  {
    var s' := Apply(s, a);
    Bounds(s, a.p);
    var pc := if s.outstanding == 1 then Commit else Idle;
    var ps := s.procs[a.p := Proc(pc, {})];
    SumsUpdate(s.procs, a.p, Proc(pc, {}), |s.procs|);
    assert ProcOk(s, a.p);
    if s.outstanding > 1 {
      SumsSame(ps, s'.procs, |ps|);
    }
    forall q | 0 <= q < |s'.procs| ensures ProcOk(s', q) {
      assert ProcOk(s, q);
      if s.outstanding == 1 && q != a.p {
        NoneInside(s, a.p, q);
      }
    }
  }

  /** With one operation under way, no other process is in one. */
  lemma NoneInside(s: State, p: nat, q: nat)
    requires Inv(s) && p < |s.procs| && q < |s.procs| && p != q && Inside(s.procs[p]) && s.outstanding == 1
    ensures !Inside(s.procs[q])
  {
    forall i | 0 <= i < |s.procs| && Inside(s.procs[i]) ensures |s.procs[i].wrote| <= MAXOPBLOCKS {
      assert ProcOk(s, i);
    }
    var ps := s.procs[p := Proc(Idle, {})];
    SumsUpdate(s.procs, p, Proc(Idle, {}), |s.procs|);
    SumsBounds(ps, q, |ps|);
    assert ps[q] == s.procs[q];
  }

  lemma CommittedInv(s: State, a: Action)
    requires Inv(s) && Enabled(s, a) && a.Committed?
    ensures Inv(Apply(s, a))
  {
    var s' := Apply(s, a);
    Bounds(s, a.p);
    assert ProcOk(s, a.p);
    SumsUpdate(s.procs, a.p, s'.procs[a.p], |s.procs|);
    forall q | 0 <= q < |s'.procs| ensures ProcOk(s', q) {
      assert ProcOk(s, q);
      Bounds(s, q);
    }
  }

  lemma DoneInv(s: State, a: Action)
    requires Inv(s) && Enabled(s, a) && a.Done?
    ensures Inv(Apply(s, a))
  {
    var s' := Apply(s, a);
    Bounds(s, a.p);
    assert ProcOk(s, a.p);
    var ps := At(s, a.p, Idle).procs;
    SumsUpdate(s.procs, a.p, ps[a.p], |s.procs|);
    SumsSame(ps, s'.procs, |ps|);
    forall q | 0 <= q < |s'.procs| ensures ProcOk(s', q) {
      assert ProcOk(s, q);
      Bounds(s, q);
    }
  }

  lemma StepInv(s: State, a: Action)
    requires Inv(s) && Enabled(s, a)
    ensures Inv(Apply(s, a))
  {
    match a
    case Enter(_) | Kill(_) | LogWrite(_, _) => MoveInv(s, a);
    case TryBegin(_) => if Blocked(s) { MoveInv(s, a); } else { BeginInv(s, a); }
    case Append(_) => AppendInv(s, a);
    case End(_) => EndInv(s, a);
    case Committed(_) => CommittedInv(s, a);
    case Done(_) => DoneInv(s, a);
  }

  // ---- Every run -------------------------------------------------------------------------------

  ghost predicate IsRun(size: int, run: seq<State>, acts: seq<Action>) {
    && |run| == |acts| + 1
    && run[0] == Init(size, |run[0].procs|)
    && forall k :: 0 <= k < |acts| ==> Enabled(run[k], acts[k]) && run[k + 1] == Apply(run[k], acts[k])
  }

  lemma {:induction false} RunInv(size: int, run: seq<State>, acts: seq<Action>, k: nat)
    requires IsRun(size, run, acts) && k < |run|
    ensures Inv(run[k]) && run[k].size == size
  {
    if k == 0 {
      InitInv(size, |run[0].procs|);
    } else {
      RunInv(size, run, acts, k - 1);
      StepInv(run[k - 1], acts[k - 1]);
    }
  }

  /**
   In every state of every run: the log and the budgets under way fit, nobody is in an
   operation during a commit, an idle log is empty, and whoever sleeps in begin_op must.
   */
  lemma Admission(size: int, run: seq<State>, acts: seq<Action>, k: nat)
    requires IsRun(size, run, acts) && k < |run|
    ensures |run[k].logged| + Unused(run[k].procs, |run[k].procs|) <= LOGSIZE
    ensures run[k].outstanding == Ops(run[k].procs, |run[k].procs|)
    ensures run[k].committing ==> run[k].outstanding == 0
    ensures run[k].outstanding == 0 && !run[k].committing ==> run[k].logged == {}
    ensures forall p :: 0 <= p < |run[k].procs| && run[k].procs[p].pc == Asleep ==> Blocked(run[k])
  {
    RunInv(size, run, acts, k);
    forall p | 0 <= p < |run[k].procs| && run[k].procs[p].pc == Asleep ensures Blocked(run[k]) {
      assert ProcOk(run[k], p);
    }
  }

  /** A process in its operation, with room in its budget, that log_write turns away. */
  ghost predicate TurnedAway(s: State, p: int) {
    0 <= p < |s.procs| && s.procs[p].pc == InOp && |s.procs[p].wrote| < MAXOPBLOCKS && Refused(s)
  }

  /** With a log long enough, log_write never refuses an operation a block its budget has room for. */
  lemma NeverRefused(size: int, run: seq<State>, acts: seq<Action>, k: nat, p: nat)
    requires IsRun(size, run, acts) && k < |run| && size - 1 >= LOGSIZE
    ensures !TurnedAway(run[k], p)
  {
    RunInv(size, run, acts, k);
    if p < |run[k].procs| {
      Bounds(run[k], p);
    }
  }

  // ---- A log of LOGSIZE blocks is one too short ----------------------------------------------

  function Range(lo: int, hi: int): set<int>
    decreases hi - lo
  {
    if lo >= hi then {} else Range(lo, hi - 1) + {hi - 1}
  }

  lemma {:induction false} RangeIs(lo: int, hi: int, x: int)
    ensures |Range(lo, hi)| == if lo < hi then hi - lo else 0
    ensures x in Range(lo, hi) <==> lo <= x < hi
    decreases hi - lo
  {
    if lo < hi {
      RangeIs(lo, hi - 1, x);
      RangeIs(lo, hi - 1, hi - 1);
    }
  }

  /** What operation `j` has logged once blocks 0 to `k` are: nine each, and then one each. */
  function Share(j: int, k: int): set<int> {
    Range(9 * j, if k < 9 * j + 9 then k else 9 * j + 9) + if k > 27 + j then {27 + j} else {}
  }

  /** Which operation logs block `k`. */
  function Writer(k: int): nat {
    if k < 9 || k == 27 then 0 else if k < 18 || k == 28 then 1 else 2
  }

  lemma InShare(j: int, k: int, x: int)
    ensures x in Share(j, k) <==> (9 * j <= x < 9 * j + 9 && x < k) || (x == 27 + j && k > 27 + j)
  {
    RangeIs(9 * j, if k < 9 * j + 9 then k else 9 * j + 9, x);
  }

  lemma ShareSize(j: int, k: int)
    requires k <= 27 + j
    ensures |Share(j, k)| < MAXOPBLOCKS
  {
    var r := Range(9 * j, if k < 9 * j + 9 then k else 9 * j + 9);
    RangeIs(9 * j, if k < 9 * j + 9 then k else 9 * j + 9, 0);
    assert Share(j, k) == r;
  }

  lemma ShareGains(j: int, k: int, x: int)
    requires 0 <= k < LOGSIZE && 0 <= j < 3
    ensures x in Share(j, k + 1) <==> x in Share(j, k) || (j == Writer(k) && x == k)
  {
    InShare(j, k, x);
    InShare(j, k + 1, x);
  }

  lemma ShareStep(j: int, k: int)
    requires 0 <= k < LOGSIZE && 0 <= j < 3
    ensures Share(j, k + 1) == if j == Writer(k) then Share(j, k) + {k} else Share(j, k)
    ensures j == Writer(k) ==> |Share(j, k)| < MAXOPBLOCKS
  {
    var before, after := Share(j, k), Share(j, k + 1);
    forall x ensures x in after <==> x in before || (j == Writer(k) && x == k) {
      ShareGains(j, k, x);
    }
    assert after == if j == Writer(k) then before + {k} else before;
    if j == Writer(k) {
      ShareSize(j, k);
    }
  }

  /** Three operations that have logged blocks 0 to `k` between them. */
  function Filled(size: int, k: nat): State {
    Three(size, Range(0, k), Share(0, k), Share(1, k), Share(2, k))
  }

  function Three(size: int, logged: set<int>, w0: set<int>, w1: set<int>, w2: set<int>): State {
    State(size, logged, 3, false, [Proc(InOp, w0), Proc(InOp, w1), Proc(InOp, w2)], NONE)
  }

  lemma ThreeAppend(size: int, logged: set<int>, w0: set<int>, w1: set<int>, w2: set<int>, j: nat, k: int)
    requires j < 3
    ensures var s := At(Three(size, logged, w0, w1, w2), j, Writing(k));
            && Enabled(s, Append(j))
            && Apply(s, Append(j)) == Three(size, logged + {k}, if j == 0 then w0 + {k} else w0,
              if j == 1 then w1 + {k} else w1, if j == 2 then w2 + {k} else w2)
  {
  }

  lemma Extend(size: int, run: seq<State>, acts: seq<Action>, a: Action) returns (run': seq<State>, acts': seq<Action>)
    requires IsRun(size, run, acts) && Enabled(run[|acts|], a)
    ensures IsRun(size, run', acts') && |acts'| == |acts| + 1 && run'[|acts'|] == Apply(run[|acts|], a)
  {
    run', acts' := run + [Apply(run[|acts|], a)], acts + [a];
  }

  lemma Start(size: int) returns (run: seq<State>, acts: seq<Action>)
    ensures IsRun(size, run, acts) && run[|acts|] == Filled(size, 0)
  {
    run, acts := [Init(size, 3)], [];
    run, acts := Extend(size, run, acts, Enter(0));
    run, acts := Extend(size, run, acts, TryBegin(0));
    run, acts := Extend(size, run, acts, Enter(1));
    run, acts := Extend(size, run, acts, TryBegin(1));
    run, acts := Extend(size, run, acts, Enter(2));
    run, acts := Extend(size, run, acts, TryBegin(2));
    assert Range(0, 0) == {} && Share(0, 0) == {} && Share(1, 0) == {} && Share(2, 0) == {};
  }

  /** Three operations, the next of which is in the middle of logging block `k`. */
  function Filling(size: int, k: nat): State {
    At(Filled(size, k), Writer(k), Writing(k))
  }

  lemma FillTest(size: int, k: nat)
    requires k < LOGSIZE && k < size - 1
    ensures Enabled(Filled(size, k), LogWrite(Writer(k), k)) &&
            Apply(Filled(size, k), LogWrite(Writer(k), k)) == Filling(size, k)
  {
    RangeIs(0, k, 0);
    ShareStep(Writer(k), k);
  }

  lemma FillAppend(size: int, k: nat)
    requires k < LOGSIZE
    ensures Enabled(Filling(size, k), Append(Writer(k))) &&
            Apply(Filling(size, k), Append(Writer(k))) == Filled(size, k + 1)
  {
    assert Range(0, k + 1) == Range(0, k) + {k};
    ShareStep(0, k);
    ShareStep(1, k);
    ShareStep(2, k);
    ThreeAppend(size, Range(0, k), Share(0, k), Share(1, k), Share(2, k), Writer(k), k);
  }

  lemma {:induction false} Fill(size: int, k: nat) returns (run: seq<State>, acts: seq<Action>)
    requires k <= LOGSIZE && (k > 0 ==> k <= size - 1)
    ensures IsRun(size, run, acts) && run[|acts|] == Filled(size, k)
  {
    if k == 0 {
      run, acts := Start(size);
    } else {
      run, acts := Fill(size, k - 1);
      FillTest(size, k - 1);
      run, acts := Extend(size, run, acts, LogWrite(Writer(k - 1), k - 1));
      FillAppend(size, k - 1);
      run, acts := Extend(size, run, acts, Append(Writer(k - 1)));
    }
  }

  /** A shorter log turns an operation away in some run. */
  lemma ShortLog(size: int) returns (run: seq<State>, acts: seq<Action>, p: nat)
    requires size - 1 < LOGSIZE
    ensures IsRun(size, run, acts) && TurnedAway(run[|acts|], p)
  {
    var k := if size > 0 then size - 1 else 0;
    run, acts := Fill(size, k);
    RangeIs(0, k, 0);
    p := Writer(k);
    ShareStep(p, k);
  }

  /** The log is long enough for every run: no operation within its budget is turned away. */
  ghost predicate LongEnough(size: int) {
    forall run, acts, k, p {:trigger IsRun(size, run, acts), TurnedAway(run[k], p)} ::
      IsRun(size, run, acts) && 0 <= k < |run| ==> !TurnedAway(run[k], p)
  }

  /** Exactly the logs with LOGSIZE blocks besides the header are; mkfs makes one with LOGSIZE in all. */
  lemma LongEnoughIff(size: int)
    ensures LongEnough(size) <==> size - 1 >= LOGSIZE
  {
    if size - 1 >= LOGSIZE {
      forall run, acts, k, p | IsRun(size, run, acts) && 0 <= k < |run| ensures !TurnedAway(run[k], p) {
        if p >= 0 {
          NeverRefused(size, run, acts, k, p);
        }
      }
    } else {
      var run, acts, p := ShortLog(size);
      assert TurnedAway(run[|acts|], p);
    }
  }

  // ---- Blocks that are logged already ----------------------------------------------------------

  /**
   In every run log_write turns away whoever is in an operation exactly when the log is full.
   If it is long enough, that is at LOGSIZE blocks, with every budget under way spent.
   */
  lemma RefusedIffFull(size: int, run: seq<State>, acts: seq<Action>, k: nat, p: nat)
    requires IsRun(size, run, acts) && k < |run| && p < |run[k].procs| && run[k].procs[p].pc == InOp
    ensures Refused(run[k]) <==> |run[k].logged| >= LOGSIZE || |run[k].logged| >= size - 1
    ensures size - 1 >= LOGSIZE ==> (Refused(run[k]) <==> |run[k].logged| == LOGSIZE)
    ensures size - 1 >= LOGSIZE && Refused(run[k]) ==>
              Unused(run[k].procs, |run[k].procs|) == 0 && |run[k].procs[p].wrote| == MAXOPBLOCKS
  {
    RunInv(size, run, acts, k);
    Bounds(run[k], p);
    assert ProcOk(run[k], p);
  }

  /** An operation that log_write turns away although it has logged the block before. */
  ghost predicate RewriteRefused(s: State, p: int, b: int) {
    0 <= p < |s.procs| && s.procs[p].pc == InOp && b in s.procs[p].wrote && b in s.logged && Refused(s)
  }

  /** A full log refuses even a block it already holds, which would take no room. */
  lemma FullLogRefusesRewrite(size: int) returns (run: seq<State>, acts: seq<Action>)
    requires size - 1 >= 1
    ensures IsRun(size, run, acts) && RewriteRefused(run[|acts|], 0, 0)
    ensures |run[|acts|].logged| == if size - 1 < LOGSIZE then size - 1 else LOGSIZE
  {
    var k := if size - 1 < LOGSIZE then size - 1 else LOGSIZE;
    run, acts := Fill(size, k);
    RangeIs(0, k, 0);
    RangeIs(0, if k < 9 then k else 9, 0);
  }

  /** A log without a block besides its header takes nothing. */
  lemma {:induction false} NothingLogged(size: int, run: seq<State>, acts: seq<Action>, k: nat)
    requires IsRun(size, run, acts) && k < |run| && size - 1 < 1
    ensures run[k].logged == {} && forall p :: 0 <= p < |run[k].procs| ==> !run[k].procs[p].pc.Writing?
  {
    if k > 0 {
      NothingLogged(size, run, acts, k - 1);
      RunInv(size, run, acts, k - 1);
    }
  }

  /** No run of a log of this size turns an operation away for a block that it has logged. */
  ghost predicate AcceptsRewrites(size: int) {
    forall run, acts, k, p, b {:trigger IsRun(size, run, acts), RewriteRefused(run[k], p, b)} ::
      IsRun(size, run, acts) && 0 <= k < |run| ==> !RewriteRefused(run[k], p, b)
  }

  /** No length helps: only a log that takes no block at all never refuses one again. */
  lemma AcceptsRewritesIff(size: int)
    ensures AcceptsRewrites(size) <==> size - 1 < 1
  {
    if size - 1 < 1 {
      forall run, acts, k, p, b | IsRun(size, run, acts) && 0 <= k < |run| ensures !RewriteRefused(run[k], p, b) {
        NothingLogged(size, run, acts, k);
      }
    } else {
      var run, acts := FullLogRefusesRewrite(size);
      assert RewriteRefused(run[|acts|], 0, 0);
    }
  }

  // ---- How full the log gets ---------------------------------------------------------------------

  /** Operations that are past log_write's test, among the first `k` processes. */
  ghost function Past(ps: seq<Proc>, k: nat): int
    requires k <= |ps|
  {
    if k == 0 then 0 else Past(ps, k - 1) + if ps[k - 1].pc.Writing? then 1 else 0
  }

  lemma {:induction false} PastUpdate(ps: seq<Proc>, p: nat, q: Proc, k: nat)
    requires p < |ps| && k <= |ps|
    ensures Past(ps[p := q], k) ==
            Past(ps, k) + (if p < k && q.pc.Writing? then 1 else 0) - (if p < k && ps[p].pc.Writing? then 1 else 0)
  {
    if k > 0 {
      PastUpdate(ps, p, q, k - 1);
    }
  }

  lemma {:induction false} PastWoken(ps: seq<Proc>, qs: seq<Proc>, k: nat)
    requires |ps| == |qs| && k <= |ps| && forall i :: 0 <= i < |ps| ==> qs[i] == Woken(ps[i])
    ensures Past(qs, k) == Past(ps, k)
  {
    if k > 0 {
      PastWoken(ps, qs, k - 1);
    }
  }

  lemma {:induction false} PastBounds(ps: seq<Proc>, k: nat)
    requires k <= |ps|
    ensures 0 <= Past(ps, k) <= Ops(ps, k)
  {
    if k > 0 {
      PastBounds(ps, k - 1);
    }
  }

  const MAXOPS: nat := LOGSIZE / MAXOPBLOCKS

  /** The test and the update of log_write are apart, so as many as pass the test together go on. */
  ghost predicate Crowded(s: State, size: int) {
    && s.outstanding <= MAXOPS
    && |s.logged| + Past(s.procs, |s.procs|) <= size - 2 + MAXOPS
  }

  lemma CrowdedInit(size: int, n: nat)
    requires size - 1 >= 1
    ensures Crowded(Init(size, n), size)
  {
    var s := Init(size, n);
    IdleSums(s.procs, n);
    PastBounds(s.procs, n);
  }

  lemma CrowdedStep(s: State, a: Action, size: int)
    requires Inv(s) && Enabled(s, a) && s.size == size && size - 1 >= 1 && Crowded(s, size)
    ensures Crowded(Apply(s, a), size)
  {
    var s' := Apply(s, a);
    PastBounds(s.procs, |s.procs|);
    match a
    case Enter(_) | TryBegin(_) | Kill(_) | LogWrite(_, _) | Committed(_) =>
      PastUpdate(s.procs, a.p, s'.procs[a.p], |s.procs|);
      StepInv(s, a);
      PastBounds(s'.procs, |s'.procs|);
    case Append(_) =>
      PastUpdate(s.procs, a.p, s'.procs[a.p], |s.procs|);
      AddedSize(s.logged, s.procs[a.p].pc.b);
    case End(_) =>
      var pc := if s.outstanding == 1 then Commit else Idle;
      var ps := s.procs[a.p := Proc(pc, {})];
      PastUpdate(s.procs, a.p, Proc(pc, {}), |s.procs|);
      if s.outstanding != 1 {
        PastWoken(ps, s'.procs, |ps|);
      }
    case Done(_) =>
      var ps := At(s, a.p, Idle).procs;
      PastUpdate(s.procs, a.p, ps[a.p], |s.procs|);
      PastWoken(ps, s'.procs, |ps|);
  }

  /** The most blocks that the log names in a run: each operation may go one past the log's length. */
  function MostLogged(size: int): nat {
    if size - 1 < 1 then 0 else if size - 2 + MAXOPS < LOGSIZE then size - 2 + MAXOPS else LOGSIZE
  }

  lemma {:induction false} CrowdedRun(size: int, run: seq<State>, acts: seq<Action>, k: nat)
    requires IsRun(size, run, acts) && k < |run| && size - 1 >= 1
    ensures Crowded(run[k], size)
  {
    if k == 0 {
      CrowdedInit(size, |run[0].procs|);
    } else {
      CrowdedRun(size, run, acts, k - 1);
      RunInv(size, run, acts, k - 1);
      CrowdedStep(run[k - 1], acts[k - 1], size);
    }
  }

  lemma AtMost(size: int, run: seq<State>, acts: seq<Action>, k: nat)
    requires IsRun(size, run, acts) && k < |run|
    ensures |run[k].logged| <= MostLogged(size)
  {
    RunInv(size, run, acts, k);
    forall i | 0 <= i < |run[k].procs| && Inside(run[k].procs[i]) ensures |run[k].procs[i].wrote| <= MAXOPBLOCKS {
      assert ProcOk(run[k], i);
    }
    SumsBounds(run[k].procs, 0, |run[k].procs|);
    PastBounds(run[k].procs, |run[k].procs|);
    if size - 1 < 1 {
      NothingLogged(size, run, acts, k);
    } else {
      CrowdedRun(size, run, acts, k);
    }
  }

  /** `k` blocks are logged; three operations then pass the test, one after another. */
  lemma ThreePast(size: int, k: nat) returns (run: seq<State>, acts: seq<Action>)
    requires k <= LOGSIZE - MAXOPS && k < size - 1
    ensures IsRun(size, run, acts)
    ensures run[|acts|] == Pass(Pass(Pass(Filled(size, k), 0, 27), 1, 28), 2, 29)
  {
    run, acts := Fill(size, k);
    RangeIs(0, k, 0);
    ShareSize(0, k);
    ShareSize(1, k);
    ShareSize(2, k);
    run, acts := Extend(size, run, acts, LogWrite(0, 27));
    run, acts := Extend(size, run, acts, LogWrite(1, 28));
    run, acts := Extend(size, run, acts, LogWrite(2, 29));
  }

  function Pass(s: State, p: nat, b: int): State
    requires p < |s.procs|
  {
    At(s, p, Writing(b))
  }

  /** They all go on, whatever the log's length. */
  lemma ThreeMore(size: int, k: nat) returns (run: seq<State>, acts: seq<Action>)
    requires k <= LOGSIZE - MAXOPS && k < size - 1
    ensures IsRun(size, run, acts) && |run[|acts|].logged| == k + MAXOPS
  {
    run, acts := ThreePast(size, k);
    run, acts := Extend(size, run, acts, Append(0));
    run, acts := Extend(size, run, acts, Append(1));
    run, acts := Extend(size, run, acts, Append(2));
    ThreeAdded(k);
  }

  lemma ThreeAdded(k: nat)
    requires k <= LOGSIZE - MAXOPS
    ensures |Range(0, k) + {27} + {28} + {29}| == k + MAXOPS
  {
    RangeIs(0, k, 27);
    RangeIs(0, k, 28);
    RangeIs(0, k, 29);
    AddedSize(Range(0, k), 27);
    AddedSize(Range(0, k) + {27}, 28);
    AddedSize(Range(0, k) + {27} + {28}, 29);
  }

  /** Some run of a log of this size names `n` blocks at once. */
  ghost predicate Reaches(size: int, n: nat) {
    exists run: seq<State>, acts: seq<Action>, k: int {:trigger IsRun(size, run, acts), run[k]} ::
      IsRun(size, run, acts) && 0 <= k < |run| && |run[k].logged| >= n
  }

  /** The bound is met: the fullest log of a given length. */
  lemma ReachesIff(size: int, n: nat)
    ensures Reaches(size, n) <==> n <= MostLogged(size)
  {
    if n <= MostLogged(size) {
      var run, acts;
      if size - 1 < 1 {
        run, acts := Start(size);
      } else {
        run, acts := ThreeMore(size, if size - 2 < LOGSIZE - MAXOPS then size - 2 else LOGSIZE - MAXOPS);
      }
      assert |run[|acts|].logged| >= n;
    }
    forall run: seq<State>, acts: seq<Action>, k: int {:trigger IsRun(size, run, acts), run[k]} |
      IsRun(size, run, acts) && 0 <= k < |run|
      ensures |run[k].logged| <= MostLogged(size)
    {
      AtMost(size, run, acts, k);
    }
  }

  /** Every run's blocks fit the log's slots. */
  ghost predicate NeverOverflows(size: int) {
    !Reaches(size, if size - 1 < 1 then 1 else size)
  }

  /** Exactly if the log has LOGSIZE slots, or none: in between, operations that pass the test together overflow it. */
  lemma NeverOverflowsIff(size: int)
    ensures NeverOverflows(size) <==> size - 1 >= LOGSIZE || size - 1 < 1
  {
    ReachesIff(size, if size - 1 < 1 then 1 else size);
  }

  /** Every run leaves a buffer that no logged block pins. */
  ghost predicate LeavesBuffer(size: int) {
    !Reaches(size, NBUF)
  }

  /** Exactly if the log is shorter than the cache by two; so a log that is long enough never does. */
  lemma LeavesBufferIff(size: int)
    ensures LeavesBuffer(size) <==> size - 2 + MAXOPS < NBUF
    ensures LongEnough(size) ==> !LeavesBuffer(size)
  {
    ReachesIff(size, NBUF);
    LongEnoughIff(size);
  }
}
