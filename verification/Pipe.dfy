/**
 Pipes (pipe.c), as interleaved steps of any number of readers and writers. The pipe's
 spinlock is taken or released in one step; with it held, every turn of a loop is a step.
 Going to sleep lets the spinlock go in the same step, and waking a channel is one step.
 */
module Pipe {

  const PIPESIZE: nat := 512
  const WORD: int := 0x1_0000_0000  // the counters are 32-bit

  datatype Pc =
    | Idle
    // pipewrite, with `i` bytes of `src` stored
    | WAcq(src: seq<int>, i: nat) | WLoop(src: seq<int>, i: nat) | WNotify(src: seq<int>, i: nat)
    | WDoze(src: seq<int>, i: nat) | WSleep(src: seq<int>, i: nat) | WWake | WOut
    // piperead of `n` bytes, with `got` copied
    | RAcq(n: nat) | RTest(n: nat) | RSleep(n: nat) | RLoop(n: nat, got: seq<int>) | RWake | ROut
    // pipeclose of the write end or the read end
    | CAcq(writable: bool) | CSet(writable: bool) | CWake(writable: bool) | COut

  datatype Proc = Proc(pc: Pc, killed: bool)

  const NONE: int := -1

  /** The buffer and its counters; and, for the argument, the bytes stored and delivered so far. */
  datatype Ring = Ring(data: seq<int>, nread: int, nwrite: int, stored: seq<int>, delivered: seq<int>)

  /**
   The pipe: its ring, its flags and its spinlock's holder; the processes; which ends files
   still refer to; and whether a killed writer has left since readers were last woken and
   the ring was last empty.
   */
  datatype State = State(ring: Ring, readopen: bool, writeopen: bool, lock: int, procs: seq<Proc>, readref: bool,
    writeref: bool, strayed: bool)

  datatype Action =
    | Write(p: nat, src: seq<int>) | Read(p: nat, n: nat) | Close(p: nat, writable: bool) | Kill(p: nat) | Go(p: nat)

  function Init(n: nat): State {
    State(Ring(seq(PIPESIZE, _ => 0), 0, 0, [], []), true, true, NONE, seq(n, _ => Proc(Idle, false)), true, true,
      false)
  }

  function At(s: State, p: nat, pc: Pc): (t: State)
    requires p < |s.procs|
    ensures |t.procs| == |s.procs| && t.lock == s.lock && t.ring == s.ring
  {
    s.(procs := s.procs[p := s.procs[p].(pc := pc)])
  }

  predicate InWrite(pc: Pc) {
    pc.WAcq? || pc.WLoop? || pc.WNotify? || pc.WDoze? || pc.WSleep? || pc.WWake? || pc.WOut?
  }

  predicate InRead(pc: Pc) {
    pc.RAcq? || pc.RTest? || pc.RSleep? || pc.RLoop? || pc.RWake? || pc.ROut?
  }

  /** The tests of the source, on 32-bit counters. */
  predicate IsFull(r: Ring) {
    r.nwrite == (r.nread + PIPESIZE) % WORD
  }

  predicate IsEmpty(r: Ring) {
    r.nread == r.nwrite
  }

  function Put(r: Ring, b: int): Ring
    requires |r.data| == PIPESIZE
  {
    Ring(r.data[r.nwrite % PIPESIZE := b], r.nread, (r.nwrite + 1) % WORD, r.stored + [b], r.delivered)
  }

  function Front(r: Ring): int
    requires |r.data| == PIPESIZE
  {
    r.data[r.nread % PIPESIZE]
  }

  function Take(r: Ring): Ring
    requires |r.data| == PIPESIZE
  {
    r.(nread := (r.nread + 1) % WORD, delivered := r.delivered + [Front(r)])
  }

  /** wakeup of the readers' channel, and of the writers'. */
  function WokenReader(q: Proc): Proc {
    if q.pc.RSleep? then q.(pc := RAcq(q.pc.n)) else q
  }

  function WokenWriter(q: Proc): Proc {
    if q.pc.WSleep? then q.(pc := WAcq(q.pc.src, q.pc.i)) else q
  }

  function WakeReaders(s: State): (t: State)
    ensures |t.procs| == |s.procs| && t.lock == s.lock && t.ring == s.ring
  {
    s.(procs := seq(|s.procs|, i requires 0 <= i < |s.procs| => WokenReader(s.procs[i])), strayed := false)
  }

  function WakeWriters(s: State): (t: State)
    ensures |t.procs| == |s.procs| && t.lock == s.lock && t.ring == s.ring
  {
    s.(procs := seq(|s.procs|, i requires 0 <= i < |s.procs| => WokenWriter(s.procs[i])))
  }

  predicate CanGo(s: State, p: nat)
    requires p < |s.procs|
  {
    match s.procs[p].pc
    case Idle | WSleep(_, _) | RSleep(_) => false
    case WAcq(_, _) | RAcq(_) | CAcq(_) => s.lock == NONE
    case _ => true
  }

  /** One turn of pipewrite's loops. */
  function WriteTurn(s: State, p: nat, src: seq<int>, i: nat): (t: State)
    requires p < |s.procs| && |s.ring.data| == PIPESIZE
    ensures |t.procs| == |s.procs| && t.lock == s.lock
  {
    if i >= |src| then At(s, p, WWake)
    else if IsFull(s.ring) then
      if !s.readopen || s.procs[p].killed then At(s, p, WOut).(strayed := s.strayed || s.readopen)
      else At(s, p, WNotify(src, i))
    else
      At(s, p, WLoop(src, i + 1)).(ring := Put(s.ring, src[i]))
  }

  /** One turn of piperead's copying loop. */
  function ReadTurn(s: State, p: nat, n: nat, got: seq<int>): (t: State)
    requires p < |s.procs| && |s.ring.data| == PIPESIZE
    ensures |t.procs| == |s.procs| && t.lock == s.lock
  {
    if |got| >= n || IsEmpty(s.ring) then At(s, p, RWake)
    else
      At(s, p, RLoop(n, got + [Front(s.ring)])).(ring := Take(s.ring), strayed := s.strayed && !IsEmpty(Take(s.ring)))
  }

  function Step(s: State, p: nat): (t: State)
    requires p < |s.procs| && CanGo(s, p) && |s.ring.data| == PIPESIZE
    ensures |t.procs| == |s.procs| && (t.lock == s.lock || t.lock == p || t.lock == NONE)
  {
    match s.procs[p].pc
    case WAcq(src, i) => At(s, p, WLoop(src, i)).(lock := p)
    case WLoop(src, i) => WriteTurn(s, p, src, i)
    case WNotify(src, i) => At(WakeReaders(s), p, WDoze(src, i))
    case WDoze(src, i) => At(s, p, WSleep(src, i)).(lock := NONE)
    case WWake => At(WakeReaders(s), p, WOut)
    case WOut => At(s, p, Idle).(lock := NONE)
    case RAcq(n) => At(s, p, RTest(n)).(lock := p)
    case RTest(n) =>
      if !(IsEmpty(s.ring) && s.writeopen) then At(s, p, RLoop(n, []))
      else if s.procs[p].killed then At(s, p, ROut)
      else At(s, p, RSleep(n)).(lock := NONE)
    case RLoop(n, got) => ReadTurn(s, p, n, got)
    case RWake => At(WakeWriters(s), p, ROut)
    case ROut => At(s, p, Idle).(lock := NONE)
    case CAcq(w) => At(s, p, CSet(w)).(lock := p)
    case CSet(w) => if w then At(s, p, CWake(w)).(writeopen := false) else At(s, p, CWake(w)).(readopen := false)
    case CWake(w) => At(if w then WakeReaders(s) else WakeWriters(s), p, COut)
    case COut => At(s, p, Idle).(lock := NONE)
  }

  /** An end is closed when the last file that refers to it is, so no call on it is under way. */
  predicate Enabled(s: State, a: Action) {
    && a.p < |s.procs| && |s.ring.data| == PIPESIZE
    && match a
       case Write(p, _) => s.procs[p].pc == Idle && s.writeref
       case Read(p, _) => s.procs[p].pc == Idle && s.readref
       case Close(p, w) => s.procs[p].pc == Idle &&
         if w then s.writeref && forall q :: 0 <= q < |s.procs| ==> !InWrite(s.procs[q].pc)
         else s.readref && forall q :: 0 <= q < |s.procs| ==> !InRead(s.procs[q].pc)
       case Kill(_) => true
       case Go(p) => CanGo(s, p)
  }

  function Apply(s: State, a: Action): State
    requires Enabled(s, a)
  {
    match a
    case Write(p, src) => At(s, p, WAcq(src, 0))
    case Read(p, n) => At(s, p, RAcq(n))
    case Close(p, w) => if w then At(s, p, CAcq(w)).(writeref := false) else At(s, p, CAcq(w)).(readref := false)
    case Kill(p) => s.(procs := s.procs[p := WokenReader(WokenWriter(s.procs[p])).(killed := true)])
    case Go(p) => Step(s, p)
  }

  // ---- The invariant ----------------------------------------------------------------------------

  ghost function Occupancy(r: Ring): int {
    |r.stored| - |r.delivered|
  }

  /** The counters count, and the ring holds the bytes stored and not yet delivered. */
  ghost predicate RingOk(r: Ring) {
    && |r.data| == PIPESIZE && 0 <= Occupancy(r) <= PIPESIZE
    && r.nwrite == |r.stored| % WORD && r.nread == |r.delivered| % WORD
    && (forall j :: 0 <= j < |r.delivered| ==> r.delivered[j] == r.stored[j])
    && (forall j :: |r.delivered| <= j < |r.stored| ==> r.data[j % PIPESIZE] == r.stored[j])
  }

  predicate HoldsLock(pc: Pc) {
    || pc.WLoop? || pc.WNotify? || pc.WDoze? || pc.WWake? || pc.WOut? || pc.RTest? || pc.RLoop? || pc.RWake? || pc.ROut?
    || pc.CSet? || pc.CWake? || pc.COut?
  }

  /** The spinlock's holder will wake the writers, or the readers, before it lets go. */
  predicate WritersWakeComing(s: State) {
    0 <= s.lock < |s.procs| && var pc := s.procs[s.lock].pc; pc.RLoop? || pc.RWake? || (pc.CWake? && !pc.writable)
  }

  predicate ReadersWakeComing(s: State) {
    0 <= s.lock < |s.procs| && var pc := s.procs[s.lock].pc;
       pc.WLoop? || pc.WNotify? || pc.WWake? ||
       (pc.CWake? && pc.writable)
  }

  /** The bytes that a reader has copied are the last ones delivered. */
  predicate IsSuffix(got: seq<int>, all: seq<int>) {
    |got| <= |all| && all[|all| - |got|..] == got
  }

  ghost predicate ProcOk(s: State, p: nat)
    requires p < |s.procs|
  {
    var pc := s.procs[p].pc;
    && (s.lock == p <==> HoldsLock(pc))
    && (InWrite(pc) ==> s.writeref) && (InRead(pc) ==> s.readref)
    && (pc.RLoop? ==> IsSuffix(pc.got, s.ring.delivered))
    && (pc.CAcq? || pc.CSet? ==> if pc.writable then !s.writeref else !s.readref)
    && (pc.WNotify? || pc.WDoze? ==> Occupancy(s.ring) == PIPESIZE && s.readopen)
    && (pc.WSleep? ==> (Occupancy(s.ring) == PIPESIZE && s.readopen) || WritersWakeComing(s))
    && (pc.RSleep? ==> Occupancy(s.ring) == 0 || ReadersWakeComing(s) || s.strayed)
    && (pc.RSleep? ==> s.writeopen || ReadersWakeComing(s))
  }

  ghost predicate Inv(s: State) {
    && RingOk(s.ring) && (s.strayed ==> Occupancy(s.ring) > 0)
    && NONE <= s.lock < |s.procs| && (s.writeref ==> s.writeopen) && (s.readref ==> s.readopen)
    && forall p {:trigger ProcOk(s, p)} :: 0 <= p < |s.procs| ==> ProcOk(s, p)
  }

  // ---- The ring ----------------------------------------------------------------------------------

  /** Within 0 to PIPESIZE the 32-bit tests are exact, wherever the counters wrapped. */
  lemma TestsExact(r: Ring)
    requires RingOk(r)
    ensures IsFull(r) <==> Occupancy(r) == PIPESIZE
    ensures IsEmpty(r) <==> Occupancy(r) == 0
  {
    WrapExact(|r.delivered|, |r.stored|);
  }

  lemma WrapExact(a: nat, b: nat)
    requires a <= b <= a + PIPESIZE
    ensures b % WORD == (a % WORD + PIPESIZE) % WORD <==> b == a + PIPESIZE
    ensures a % WORD == b % WORD <==> a == b
  {
    var x, y := a / WORD, b / WORD;
    assert a == WORD * x + a % WORD && b == WORD * y + b % WORD;
    assert y == x || y == x + 1;
  }

  lemma WrapNext(a: nat)
    ensures (a % WORD + 1) % WORD == (a + 1) % WORD
  {
    var x := a / WORD;
    assert a == WORD * x + a % WORD;
    assert a % WORD < WORD - 1 ==> a + 1 == WORD * x + (a % WORD + 1);
    assert a % WORD == WORD - 1 ==> a + 1 == WORD * (x + 1);
  }

  /** The ring's length divides the counters' range, so wrapping keeps the place in the ring. */
  lemma WrapSlot(a: nat)
    ensures a % WORD % PIPESIZE == a % PIPESIZE
  {
    var x, r := a / WORD, a % WORD;
    var y, t := r / PIPESIZE, r % PIPESIZE;
    assert a == PIPESIZE * (0x80_0000 * x + y) + t;
    PlaceIn(a, 0x80_0000 * x + y, t);
  }

  lemma PlaceIn(a: nat, q: int, t: int)
    requires a == PIPESIZE * q + t && 0 <= t < PIPESIZE
    ensures a % PIPESIZE == t
  {
  }

  lemma SlotsDiffer(j: nat, k: nat)
    requires j < k < j + PIPESIZE
    ensures j % PIPESIZE != k % PIPESIZE
  {
  }

  lemma PutKeepsRing(r: Ring, b: int)
    requires RingOk(r) && Occupancy(r) < PIPESIZE
    ensures RingOk(Put(r, b))
  {
    var n := |r.stored|;
    WrapNext(n);
    WrapSlot(n);
    var r' := Put(r, b);
    forall j | |r.delivered| <= j < n + 1 ensures r'.data[j % PIPESIZE] == r'.stored[j] {
      if j < n {
        SlotsDiffer(j, n);
      }
    }
  }

  lemma TakeKeepsRing(r: Ring)
    requires RingOk(r) && Occupancy(r) > 0
    ensures RingOk(Take(r))
  {
    WrapNext(|r.delivered|);
    WrapSlot(|r.delivered|);
  }

  // ---- Steps ------------------------------------------------------------------------------------

  lemma InitInv(n: nat)
    ensures Inv(Init(n))
  {
    var s := Init(n);
    forall p | 0 <= p < n ensures ProcOk(s, p) {
    }
  }

  lemma WriteTurnStep(s: State, p: nat, q: nat)
    requires Inv(s) && p < |s.procs| && q < |s.procs| && s.procs[p].pc.WLoop?
    ensures ProcOk(Step(s, p), q)
  {
    TestsExact(s.ring);
    assert ProcOk(s, p) && ProcOk(s, q);
  }

  lemma WriteStep(s: State, p: nat, q: nat)
    requires Inv(s) && p < |s.procs| && q < |s.procs| && CanGo(s, p) && InWrite(s.procs[p].pc) && !s.procs[p].pc.WLoop?
    ensures ProcOk(Step(s, p), q)
  {
    assert ProcOk(s, p) && ProcOk(s, q);
  }

  lemma SuffixGrows(got: seq<int>, all: seq<int>, b: int)
    requires IsSuffix(got, all)
    ensures IsSuffix(got + [b], all + [b])
  {
  }

  lemma ReadTurnStep(s: State, p: nat, q: nat)
    requires Inv(s) && p < |s.procs| && q < |s.procs| && s.procs[p].pc.RLoop?
    ensures ProcOk(Step(s, p), q)
  {
    TestsExact(s.ring);
    if !IsEmpty(s.ring) {
      TakeKeepsRing(s.ring);
      TestsExact(Take(s.ring));
    }
    assert ProcOk(s, p) && ProcOk(s, q);
    SuffixGrows(s.procs[p].pc.got, s.ring.delivered, Front(s.ring));
  }

  lemma ReadStep(s: State, p: nat, q: nat)
    requires Inv(s) && p < |s.procs| && q < |s.procs| && CanGo(s, p) && InRead(s.procs[p].pc) && !s.procs[p].pc.RLoop?
    ensures ProcOk(Step(s, p), q)
  {
    TestsExact(s.ring);
    assert ProcOk(s, p) && ProcOk(s, q);
  }

  lemma CloseStep(s: State, p: nat, q: nat)
    requires Inv(s) && p < |s.procs| && q < |s.procs| && CanGo(s, p)
    requires var pc := s.procs[p].pc; pc.CAcq? || pc.CSet? || pc.COut?
    ensures ProcOk(Step(s, p), q)
  {
    assert ProcOk(s, p) && ProcOk(s, q);
  }

  lemma CloseWakeStep(s: State, p: nat, q: nat)
    requires Inv(s) && p < |s.procs| && q < |s.procs| && s.procs[p].pc.CWake?
    ensures ProcOk(Step(s, p), q)
  {
    assert ProcOk(s, p) && ProcOk(s, q);
  }

  lemma BeginStep(s: State, a: Action, q: nat)
    requires Inv(s) && Enabled(s, a) && (a.Write? || a.Read? || a.Close?) && q < |s.procs|
    ensures ProcOk(Apply(s, a), q)
  {
    assert ProcOk(s, a.p) && ProcOk(s, q);
  }

  lemma KillStep(s: State, a: Action, q: nat)
    requires Inv(s) && Enabled(s, a) && a.Kill? && q < |s.procs|
    ensures ProcOk(Apply(s, a), q)
  {
    assert ProcOk(s, a.p) && ProcOk(s, q);
  }

  lemma OtherRing(s: State, p: nat)
    requires p < |s.procs| && CanGo(s, p) && |s.ring.data| == PIPESIZE && !s.procs[p].pc.WLoop? && !s.procs[p].pc.RLoop?
    ensures Step(s, p).ring == s.ring
  {
    match s.procs[p].pc
    case WAcq(_, _) =>
    case WNotify(_, _) =>
    case WDoze(_, _) =>
    case RTest(_) =>
    case CWake(_) =>
    case _ =>
  }

  lemma WriteTurnRing(s: State, p: nat, src: seq<int>, i: nat)
    requires p < |s.procs| && RingOk(s.ring)
    ensures RingOk(WriteTurn(s, p, src, i).ring)
  {
    TestsExact(s.ring);
    if i < |src| && !IsFull(s.ring) {
      PutKeepsRing(s.ring, src[i]);
    }
  }

  lemma ReadTurnRing(s: State, p: nat, n: nat, got: seq<int>)
    requires p < |s.procs| && RingOk(s.ring)
    ensures RingOk(ReadTurn(s, p, n, got).ring)
  {
    TestsExact(s.ring);
    if !IsEmpty(s.ring) {
      TakeKeepsRing(s.ring);
    }
  }

  /** A step stores a byte in a ring with room, or takes one from a ring with bytes, or neither. */
  lemma StepRing(s: State, p: nat)
    requires p < |s.procs| && CanGo(s, p) && RingOk(s.ring)
    ensures RingOk(Step(s, p).ring)
  {
    var pc := s.procs[p].pc;
    if pc.WLoop? {
      WriteTurnRing(s, p, pc.src, pc.i);
    } else if pc.RLoop? {
      ReadTurnRing(s, p, pc.n, pc.got);
    } else {
      OtherRing(s, p);
    }
  }

  /** Only a writer that gives up sets `strayed`. */
  lemma OtherFlags(s: State, p: nat)
    requires p < |s.procs| && CanGo(s, p) && |s.ring.data| == PIPESIZE && !s.procs[p].pc.WLoop? && !s.procs[p].pc.RLoop?
    ensures Step(s, p).strayed ==> s.strayed
  {
    match s.procs[p].pc
    case WAcq(_, _) =>
    case WNotify(_, _) =>
    case WDoze(_, _) =>
    case RTest(_) =>
    case CWake(_) =>
    case _ =>
  }

  /** A killed writer is remembered only while there are bytes to read. */
  lemma StepStrayed(s: State, p: nat)
    requires Inv(s) && p < |s.procs| && CanGo(s, p)
    ensures Step(s, p).strayed ==> Occupancy(Step(s, p).ring) > 0
  {
    var pc := s.procs[p].pc;
    TestsExact(s.ring);
    if pc.RLoop? {
      if !IsEmpty(s.ring) {
        TakeKeepsRing(s.ring);
        TestsExact(Take(s.ring));
      }
    } else if !pc.WLoop? {
      OtherRing(s, p);
      OtherFlags(s, p);
    }
  }

  lemma StepEnds(s: State, p: nat)
    requires Inv(s) && p < |s.procs| && CanGo(s, p)
    ensures var s' := Step(s, p); (s'.writeref ==> s'.writeopen) && (s'.readref ==> s'.readopen)
  {
    assert ProcOk(s, p);
  }

  lemma StepInv(s: State, a: Action)
    requires Inv(s) && Enabled(s, a)
    ensures Inv(Apply(s, a))
  {
    var s' := Apply(s, a);
    if a.Go? {
      StepRing(s, a.p);
      StepStrayed(s, a.p);
      StepEnds(s, a.p);
    }
    forall q | 0 <= q < |s'.procs| ensures ProcOk(s', q) {
      if a.Kill? {
        KillStep(s, a, q);
      } else if !a.Go? {
        BeginStep(s, a, q);
      } else if s.procs[a.p].pc.WLoop? {
        WriteTurnStep(s, a.p, q);
      } else if InWrite(s.procs[a.p].pc) {
        WriteStep(s, a.p, q);
      } else if s.procs[a.p].pc.RLoop? {
        ReadTurnStep(s, a.p, q);
      } else if InRead(s.procs[a.p].pc) {
        ReadStep(s, a.p, q);
      } else if s.procs[a.p].pc.CWake? {
        CloseWakeStep(s, a.p, q);
      } else {
        CloseStep(s, a.p, q);
      }
    }
  }

  // ---- Every run -------------------------------------------------------------------------------

  ghost predicate IsRun(run: seq<State>, acts: seq<Action>) {
    && |run| == |acts| + 1
    && run[0] == Init(|run[0].procs|)
    && forall k :: 0 <= k < |acts| ==> Enabled(run[k], acts[k]) && run[k + 1] == Apply(run[k], acts[k])
  }

  lemma {:induction false} RunInv(run: seq<State>, acts: seq<Action>, k: nat)
    requires IsRun(run, acts) && k < |run|
    ensures Inv(run[k])
  {
    if k == 0 {
      InitInv(|run[0].procs|);
    } else {
      RunInv(run, acts, k - 1);
      StepInv(run[k - 1], acts[k - 1]);
    }
  }

  /** In every state of every run, what was delivered is a prefix of what was stored, in order. */
  lemma Fifo(run: seq<State>, acts: seq<Action>, k: nat)
    requires IsRun(run, acts) && k < |run|
    ensures run[k].ring.delivered <= run[k].ring.stored
    ensures 0 <= Occupancy(run[k].ring) <= PIPESIZE
    ensures (run[k].ring.nwrite - run[k].ring.nread) % WORD == Occupancy(run[k].ring)
  {
    RunInv(run, acts, k);
    WrapDifference(|run[k].ring.delivered|, |run[k].ring.stored|);
  }

  lemma WrapDifference(a: nat, b: nat)
    requires a <= b <= a + PIPESIZE
    ensures (b % WORD - a % WORD) % WORD == b - a
  {
    var x, y := a / WORD, b / WORD;
    assert a == WORD * x + a % WORD && b == WORD * y + b % WORD;
    assert y == x || y == x + 1;
  }

  /** In every state of every run with the spinlock free, a writer asleep has reason to be. */
  lemma WriterSleeps(run: seq<State>, acts: seq<Action>, k: nat, p: nat)
    requires IsRun(run, acts) && k < |run| && p < |run[k].procs|
    requires run[k].lock == NONE && run[k].procs[p].pc.WSleep?
    ensures Occupancy(run[k].ring) == PIPESIZE && run[k].readopen
  {
    RunInv(run, acts, k);
    assert ProcOk(run[k], p);
  }

  /**
   A reader asleep has reason to be exactly when no killed writer has left since readers were
   last woken with bytes still to read; the write end is open either way.
   */
  lemma ReaderSleeps(run: seq<State>, acts: seq<Action>, k: nat, p: nat)
    requires IsRun(run, acts) && k < |run| && p < |run[k].procs|
    requires run[k].lock == NONE && run[k].procs[p].pc.RSleep?
    ensures run[k].writeopen
    ensures Occupancy(run[k].ring) == 0 <==> !run[k].strayed
  {
    RunInv(run, acts, k);
    assert ProcOk(run[k], p);
  }

  /** In every state of every run, what a reader has copied is what was delivered last. */
  lemma ReaderGets(run: seq<State>, acts: seq<Action>, k: nat, p: nat)
    requires IsRun(run, acts) && k < |run| && p < |run[k].procs| && run[k].procs[p].pc.RLoop?
    ensures IsSuffix(run[k].procs[p].pc.got, run[k].ring.delivered)
  {
    RunInv(run, acts, k);
    assert ProcOk(run[k], p);
  }

  // ---- A wakeup that is lost -------------------------------------------------------------------

  function Zeros(n: nat): (z: seq<int>)
    ensures |z| == n && forall i :: 0 <= i < n ==> z[i] == 0
  {
    seq(n, _ => 0)
  }

  /** A reader asleep, and a killed writer that has stored `k` of its 513 bytes. */
  function Filling(k: nat): State {
    State(Ring(Zeros(PIPESIZE), 0, k % WORD, Zeros(k), []), true, true, 1,
          [Proc(RSleep(1), false), Proc(WLoop(Zeros(PIPESIZE + 1), k), true)], true, true, false)
  }

  lemma Extend(run: seq<State>, acts: seq<Action>, a: Action) returns (run': seq<State>, acts': seq<Action>)
    requires IsRun(run, acts) && Enabled(run[|acts|], a)
    ensures IsRun(run', acts') && |acts'| == |acts| + 1 && run'[|acts'|] == Apply(run[|acts|], a)
  {
    run', acts' := run + [Apply(run[|acts|], a)], acts + [a];
  }

  lemma Start() returns (run: seq<State>, acts: seq<Action>)
    ensures IsRun(run, acts) && run[|acts|] == Filling(0)
  {
    run, acts := [Init(2)], [];
    run, acts := Extend(run, acts, Read(0, 1));
    run, acts := Extend(run, acts, Go(0));
    run, acts := Extend(run, acts, Go(0));
    run, acts := Extend(run, acts, Write(1, Zeros(PIPESIZE + 1)));
    run, acts := Extend(run, acts, Kill(1));
    run, acts := Extend(run, acts, Go(1));
    assert run[|acts|].ring.data == Zeros(PIPESIZE) && Zeros(0) == [];
  }

  lemma FillStep(k: nat)
    requires k < PIPESIZE
    ensures Enabled(Filling(k), Go(1)) && Apply(Filling(k), Go(1)) == Filling(k + 1)
  {
    var r := Put(Filling(k).ring, 0);
    assert r.data == Zeros(PIPESIZE) && r.stored == Zeros(k + 1);
  }

  lemma {:induction false} Fill(k: nat) returns (run: seq<State>, acts: seq<Action>)
    requires k <= PIPESIZE
    ensures IsRun(run, acts) && run[|acts|] == Filling(k)
  {
    if k == 0 {
      run, acts := Start();
    } else {
      run, acts := Fill(k - 1);
      FillStep(k - 1);
      run, acts := Extend(run, acts, Go(1));
    }
  }

  /** A run after which a reader sleeps beside a full pipe: the killed writer woke nobody. */
  lemma LostWakeup() returns (run: seq<State>, acts: seq<Action>)
    ensures IsRun(run, acts)
    ensures var s := run[|acts|];
            s.lock == NONE && |s.procs| == 2 && s.procs[0].pc.RSleep? && Occupancy(s.ring) == PIPESIZE && s.strayed
  {
    run, acts := Fill(PIPESIZE);
    run, acts := Extend(run, acts, Go(1));
    run, acts := Extend(run, acts, Go(1));
  }
}
