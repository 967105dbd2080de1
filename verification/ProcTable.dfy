/**
 The process table (proc.c): the scans that run with ptable.lock held, each as a loop over
 the table and as the table it leaves behind.
 */
module ProcTable {

  datatype ProcState = UNUSED | EMBRYO | SLEEPING | RUNNABLE | RUNNING | ZOMBIE

  /** What a process sleeps on: a process's slot (in wait), or something else. */
  datatype Chan = Nothing | Slot(index: int) | Other(c: int)

  const NULL: int := -1

  datatype Proc = Proc(state: ProcState, pid: int, parent: int, chan: Chan, killed: bool)

  // ---- wakeup1 ----------------------------------------------------------------------------------

  function Woken(p: Proc, c: Chan): Proc {
    if p.state == SLEEPING && p.chan == c then p.(state := RUNNABLE) else p
  }

  /** The table with everyone asleep on `c` runnable. */
  function WakeAll(ps: seq<Proc>, c: Chan): seq<Proc> {
    seq(|ps|, i requires 0 <= i < |ps| => Woken(ps[i], c))
  }

  // ---- exit -------------------------------------------------------------------------------------

  predicate ZombieChildBelow(ps: seq<Proc>, cur: int, k: int)
    requires 0 <= k <= |ps|
  {
    exists i :: 0 <= i < k && ps[i].parent == cur && ps[i].state == ZOMBIE
  }

  /** Slot `i` after the process in slot `cur`, whose parent is `parent`, has exited. */
  function ExitSlot(p: Proc, i: int, cur: int, parent: int, init: int, zombies: bool): Proc {
    var q := p.(parent := if p.parent == cur then init else p.parent);
    if i == cur then q.(state := ZOMBIE)
    else if zombies then Woken(Woken(q, Slot(parent)), Slot(init))
    else Woken(q, Slot(parent))
  }

  /** The table after `cur` exits: its parent woken, its children init's, and init woken for zombies. */
  function Exited(ps: seq<Proc>, cur: int, init: int): seq<Proc>
    requires 0 <= cur < |ps|
  {
    seq(|ps|, i requires 0 <= i < |ps| => ExitSlot(ps[i], i, cur, ps[cur].parent, init,
      ZombieChildBelow(ps, cur, |ps|)))
  }

  // ---- wait, allocproc, kill ------------------------------------------------------------------------

  predicate IsChild(p: Proc, cur: int) {
    p.parent == cur
  }

  predicate IsZombieChild(p: Proc, cur: int) {
    p.parent == cur && p.state == ZOMBIE
  }

  /** What wait's scan of the table comes to. */
  datatype Scan = Reap(slot: nat) | NoZombie(kids: bool)

  predicate ScanIs(ps: seq<Proc>, cur: int, r: Scan) {
    match r
    case Reap(k) => k < |ps| && IsZombieChild(ps[k], cur) && forall i :: 0 <= i < k ==> !IsZombieChild(ps[i], cur)
    case NoZombie(kids) =>
      && (forall i :: 0 <= i < |ps| ==> !IsZombieChild(ps[i], cur))
      && (kids <==> exists i :: 0 <= i < |ps| && IsChild(ps[i], cur))
  }

  /** A reaped slot. */
  function Reaped(p: Proc): Proc {
    p.(state := UNUSED, pid := 0, parent := NULL, killed := false)
  }

  function Killed(p: Proc): Proc {
    p.(killed := true, state := if p.state == SLEEPING then RUNNABLE else p.state)
  }

  /** The first slot with the pid, if any, is killed. */
  predicate KillIs(ps: seq<Proc>, pid: int, ps': seq<Proc>, ok: bool) {
    if ok then
      exists k :: 0 <= k < |ps| && ps[k].pid == pid && (forall i :: 0 <= i < k ==> ps[i].pid != pid) &&
        ps' == ps[k := Killed(ps[k])]
    else ps' == ps && forall i :: 0 <= i < |ps| ==> ps[i].pid != pid
  }

  class PTable {
    var procs: seq<Proc>
    var nextpid: int
    const init: nat

    method Wakeup1(c: Chan)
      modifies `procs
      ensures procs == WakeAll(old(procs), c)
    {
      var i := 0;
      while i < |procs|
        invariant 0 <= i <= |procs| == |old(procs)|
        invariant forall j :: 0 <= j < i ==> procs[j] == Woken(old(procs)[j], c)
        invariant forall j :: i <= j < |procs| ==> procs[j] == old(procs)[j]
      {
        if procs[i].state == SLEEPING && procs[i].chan == c {
          procs := procs[i := procs[i].(state := RUNNABLE)];
        }
        i := i + 1;
      }
    }

    /** allocproc's search: the first free slot, made an embryo with a new pid. */
    method Allocproc() returns (np: int)
      modifies `procs, `nextpid
      ensures np == NULL ==> procs == old(procs) && nextpid == old(nextpid) && forall i :: 0 <= i < |procs| ==>
                procs[i].state != UNUSED
      ensures np != NULL ==> 0 <= np < |old(procs)| && old(procs)[np].state == UNUSED
      ensures np != NULL ==> forall i :: 0 <= i < np ==> old(procs)[i].state != UNUSED
      ensures np != NULL ==>
                procs == old(procs)[np := old(procs)[np].(state := EMBRYO, pid := old(nextpid))] &&
                nextpid == old(nextpid) + 1
    {
      var i := 0;
      while i < |procs|
        invariant 0 <= i <= |procs| && procs == old(procs) && nextpid == old(nextpid)
        invariant forall j :: 0 <= j < i ==> procs[j].state != UNUSED
      {
        if procs[i].state == UNUSED {
          procs := procs[i := procs[i].(state := EMBRYO, pid := nextpid)];
          nextpid := nextpid + 1;
          return i;
        }
        i := i + 1;
      }
      return NULL;
    }

    /** exit's section: wake the parent, hand the children to init, become a zombie. */
    method ExitSection(cur: nat)
      requires cur < |procs| && procs[cur].state == RUNNING && cur != init < |procs|
      modifies `procs
      ensures procs == Exited(old(procs), cur, init)
    {
      ghost var ps := procs;
      ghost var par := ps[cur].parent;
      Wakeup1(Slot(procs[cur].parent));
      var i := 0;
      while i < |procs|
        invariant 0 <= i <= |procs| == |ps|
        invariant forall j {:trigger procs[j]} :: 0 <= j < |ps| ==>
          procs[j] == Handed(ps[j], cur, par, init, j < i, ZombieChildBelow(ps, cur, i))
      {
        if procs[i].parent == cur {
          procs := procs[i := procs[i].(parent := init)];
          if procs[i].state == ZOMBIE {
            Wakeup1(Slot(init));
          }
        }
        i := i + 1;
      }
      procs := procs[cur := procs[cur].(state := ZOMBIE)];
    }

    /** wait's scan: the first zombie child is reaped; otherwise whether there are children at all. */
    method WaitScan(cur: nat) returns (r: Scan, pid: int)
      modifies `procs
      ensures ScanIs(old(procs), cur, r)
      ensures r.NoZombie? ==> procs == old(procs)
      ensures r.Reap? ==> procs == old(procs)[r.slot := Reaped(old(procs)[r.slot])] && pid == old(procs)[r.slot].pid
    {
      pid := 0;
      var havekids := false;
      var i := 0;
      while i < |procs|
        invariant 0 <= i <= |procs| && procs == old(procs)
        invariant forall j :: 0 <= j < i ==> !IsZombieChild(procs[j], cur)
        invariant havekids <==> exists j :: 0 <= j < i && IsChild(procs[j], cur)
      {
        if procs[i].parent == cur {
          havekids := true;
          assert IsChild(procs[i], cur);
          if procs[i].state == ZOMBIE {
            pid := procs[i].pid;
            procs := procs[i := procs[i].(pid := 0, parent := NULL, killed := false, state := UNUSED)];
            return Reap(i), pid;
          }
        }
        i := i + 1;
      }
      return NoZombie(havekids), pid;
    }

    /** The scheduler's scan, from slot `start` on. */
    method NextRunnable(start: nat) returns (p: nat)
      requires start <= |procs|
      ensures start <= p <= |procs| && (p < |procs| ==> procs[p].state == RUNNABLE)
      ensures forall i :: start <= i < p ==> procs[i].state != RUNNABLE
    {
      p := start;
      while p < |procs| && procs[p].state != RUNNABLE
        invariant start <= p <= |procs|
        invariant forall i :: start <= i < p ==> procs[i].state != RUNNABLE
      {
        p := p + 1;
      }
    }

    /** kill's scan. */
    method KillScan(pid: int) returns (ok: bool)
      modifies `procs
      ensures KillIs(old(procs), pid, procs, ok)
    {
      var i := 0;
      while i < |procs|
        invariant 0 <= i <= |procs| && procs == old(procs)
        invariant forall j :: 0 <= j < i ==> procs[j].pid != pid
      {
        if procs[i].pid == pid {
          procs := procs[i := procs[i].(killed := true)];
          if procs[i].state == SLEEPING {
            procs := procs[i := procs[i].(state := RUNNABLE)];
          }
          assert procs == old(procs)[i := Killed(old(procs)[i])];
          return true;
        }
        i := i + 1;
      }
      return false;
    }
  }

  /** A slot during exit's scan: woken for the parent, handed over if passed, woken for init. */
  function Handed(p: Proc, cur: int, parent: int, init: int, passed: bool, zombies: bool): Proc {
    var q := if passed && p.parent == cur then p.(parent := init) else p;
    if zombies then Woken(Woken(q, Slot(parent)), Slot(init)) else Woken(q, Slot(parent))
  }
}
