/** Shrinking address spaces (vm.c): free_range_1..4 and deallocuvm. */
module VmFree {
  import opened Memory
  import opened PageTable
  import opened Vm

  /**
   ALIGN(v + size, size): the next page whose index in the level-(l + 1) table is different,
   one such entry serving 2 MB, 1 GB or 512 GB.
   */
  function NextBoundary(l: nat, v: nat): nat
    requires 1 <= l <= 3
  {
    if l == 1 then (v + 0x200) / 0x200 * 0x200
    else if l == 2 then (v + 0x4_0000) / 0x4_0000 * 0x4_0000
    else (v + 0x800_0000) / 0x800_0000 * 0x800_0000
  }

  lemma PIsDiv(v: nat)
    ensures P(1, v) == v / 0x200
    ensures P(2, v) == v / 0x4_0000
    ensures P(3, v) == v / 0x800_0000
    ensures P(4, v) == v / 0x10_0000_0000
  {
    assert P(1, v) == v / 0x200;
    assert P(2, v) == v / 0x200 / 0x200 == v / 0x4_0000;
    assert P(3, v) == v / 0x4_0000 / 0x200 == v / 0x800_0000;
    assert P(4, v) == v / 0x800_0000 / 0x200 == v / 0x10_0000_0000;
  }

  /** Up to the next boundary, all pages share the table entry of `v`. */
  lemma BoundaryShares(l: nat, v: nat, u: nat)
    requires 1 <= l <= 3
    ensures v < NextBoundary(l, v)
    ensures v <= u < NextBoundary(l, v) ==> P(l, u) == P(l, v)
  {
    PIsDiv(v);
    PIsDiv(u);
  }

  /** Inside a table's range, so is the next boundary, unless it is the end of that range. */
  lemma BoundaryInside(l: nat, v: nat, end: nat)
    requires 1 <= l <= 3 && NextBoundary(l, v) < end && P(l + 1, end - 1) == P(l + 1, v)
    ensures P(l + 1, NextBoundary(l, v)) == P(l + 1, v)
  {
    PIsDiv(v);
    PIsDiv(end - 1);
    PIsDiv(NextBoundary(l, v));
  }

  // ---- The naive loop -------------------------------------------------------------

  /** The free list after a page-by-page loop over [lo, hi) has freed every present page. */
  ghost function Naive(mem: seq<Page>, t: Tabs, free: seq<nat>, lo: nat, hi: nat): seq<nat>
    requires Tables(mem, t)
    decreases hi
  {
    if lo >= hi then free
    else
      var rest := Naive(mem, t, free, lo, hi - 1);
      var e := Lookup(mem, t, hi - 1);
      if Present(e) then [e.frame] + rest else rest
  }

  lemma {:induction false} NaiveSplit(mem: seq<Page>, t: Tabs, free: seq<nat>, mem': seq<Page>, lo: nat, mid: nat,
                                      hi: nat)
    requires Tables(mem, t) && Tables(mem', t) && lo <= mid <= hi <= PAGES
    requires forall v :: mid <= v < hi ==> Lookup(mem', t, v) == Lookup(mem, t, v)
    ensures Naive(mem', t, Naive(mem, t, free, lo, mid), mid, hi) == Naive(mem, t, free, lo, hi)
    decreases hi
  {
    if mid < hi {
      NaiveSplit(mem, t, free, mem', lo, mid, hi - 1);
    }
  }

  ghost predicate FrameIn(mem: seq<Page>, t: Tabs, lo: nat, hi: nat, f: nat)
    requires Tables(mem, t)
  {
    exists v :: lo <= v < hi && Present(Lookup(mem, t, v)) && Lookup(mem, t, v).frame == f
  }

  lemma {:induction false} NaiveMembers(mem: seq<Page>, t: Tabs, free: seq<nat>, lo: nat, hi: nat)
    requires Tables(mem, t)
    ensures forall f :: f in Naive(mem, t, free, lo, hi) <==> f in free || FrameIn(mem, t, lo, hi, f)
    decreases hi
  {
    if lo < hi {
      NaiveMembers(mem, t, free, lo, hi - 1);
      var e := Lookup(mem, t, hi - 1);
      assert forall f :: FrameIn(mem, t, lo, hi, f) <==> FrameIn(mem, t, lo, hi - 1, f) || (Present(e) && f == e.frame);
    }
  }

  /** The frames mapped in [lo, hi) belong to this address space alone, each mapped once. */
  ghost predicate Owned(mem: seq<Page>, t: Tabs, free: seq<nat>, lo: nat, hi: nat)
    requires Tables(mem, t)
  {
    && (forall v :: lo <= v < hi && Present(Lookup(mem, t, v)) ==>
          var f := Lookup(mem, t, v).frame; 0 < f < |mem| && f !in free && f !in t.Values)
    && (forall u, v :: lo <= u < v < hi && Present(Lookup(mem, t, u)) && Present(Lookup(mem, t, v)) ==>
          Lookup(mem, t, u).frame != Lookup(mem, t, v).frame)
  }

  /** What freeing [lo, hi) does: unmaps its present pages and frees their frames, as the naive loop would. */
  ghost predicate Freed(mem: seq<Page>, t: Tabs, free: seq<nat>, mem': seq<Page>, free': seq<nat>, lo: nat, hi: nat)
    requires Tables(mem, t) && Tables(mem', t)
  {
    && |mem'| == |mem|
    && free' == Naive(mem, t, free, lo, hi)
    && (forall v :: 0 <= v < PAGES ==>
          Lookup(mem', t, v) == if lo <= v < hi && Present(Lookup(mem, t, v)) then ZERO else Lookup(mem, t, v))
    && (forall f :: 0 <= f < |mem| && f !in t.Values && f !in free' ==> mem'[f] == mem[f])
  }

  lemma FreedNothing(mem: seq<Page>, t: Tabs, free: seq<nat>, lo: nat, hi: nat)
    requires Tables(mem, t) && forall v :: lo <= v < hi ==> !Present(Lookup(mem, t, v))
    ensures Freed(mem, t, free, mem, free, lo, hi)
    decreases hi
  {
    if lo < hi {
      FreedNothing(mem, t, free, lo, hi - 1);
    }
  }

  lemma FreedTrans(mem: seq<Page>, t: Tabs, free: seq<nat>, mem1: seq<Page>, free1: seq<nat>,
                   mem2: seq<Page>, free2: seq<nat>, lo: nat, mid: nat, hi: nat)
    requires Tables(mem, t) && Tables(mem1, t) && Tables(mem2, t) && lo <= mid <= hi <= PAGES
    requires Freed(mem, t, free, mem1, free1, lo, mid) && Freed(mem1, t, free1, mem2, free2, mid, hi)
    ensures Freed(mem, t, free, mem2, free2, lo, hi)
  {
    NaiveSplit(mem, t, free, mem1, lo, mid, hi);
    NaiveMembers(mem1, t, free1, mid, hi);
  }

  /** Freeing a first part leaves the rest owned. */
  lemma StillOwned(mem: seq<Page>, t: Tabs, free: seq<nat>, mem': seq<Page>, free': seq<nat>, lo: nat, mid: nat,
                   hi: nat)
    requires Tables(mem, t) && Tables(mem', t) && lo <= mid <= hi <= PAGES
    requires Owned(mem, t, free, lo, hi) && Freed(mem, t, free, mem', free', lo, mid)
    ensures Owned(mem', t, free', mid, hi)
  {
    NaiveMembers(mem, t, free, lo, mid);
    forall v | mid <= v < hi && Present(Lookup(mem', t, v)) ensures Lookup(mem', t, v).frame !in free' {
      assert !FrameIn(mem, t, lo, mid, Lookup(mem, t, v).frame);
    }
  }

  /** Part of the way through freeing [lo, hi): done up to `mid`, the rest still owned. */
  ghost predicate Freeing(mem: seq<Page>, t: Tabs, free: seq<nat>, mem': seq<Page>, free': seq<nat>, lo: nat,
                          mid: nat, hi: nat) {
    && Tables(mem, t) && Tables(mem', t) && lo <= mid <= hi <= PAGES
    && Freed(mem, t, free, mem', free', lo, mid) && Owned(mem', t, free', mid, hi)
  }

  lemma FreeingStep(mem: seq<Page>, t: Tabs, free: seq<nat>, mem1: seq<Page>, free1: seq<nat>,
                    mem2: seq<Page>, free2: seq<nat>, lo: nat, mid: nat, mid': nat, hi: nat)
    requires Freeing(mem, t, free, mem1, free1, lo, mid, hi) && Tables(mem2, t) && mid <= mid' <= hi
    requires Freed(mem1, t, free1, mem2, free2, mid, mid')
    ensures Freeing(mem, t, free, mem2, free2, lo, mid', hi)
  {
    FreedTrans(mem, t, free, mem1, free1, mem2, free2, lo, mid, mid');
    StillOwned(mem1, t, free1, mem2, free2, mid, mid', hi);
  }

  // ---- The range frees --------------------------------------------------------------

  /** One turn of free_range_1: free a present page and clear its entry. */
  method FreePage(m: Machine, root: nat, ghost t: Tabs, pml1: nat, v: nat)
    requires Space(m, root, t) && v < PAGES && Path(1, v) in t && pml1 == t[Path(1, v)]
    requires Owned(m.mem, t, m.free, v, v + 1)
    modifies m
    ensures Space(m, root, t) && Freed(old(m.mem), t, old(m.free), m.mem, m.free, v, v + 1)
  {
    var e := m.Entry(pml1, X(1, v));
    assert e == Lookup(m.mem, t, v);
    assert Naive(m.mem, t, m.free, v, v) == m.free;
    if Present(e) {
      ghost var mem0 := m.mem;
      assert forall k :: k in t ==> t[k] in t.Values;
      m.Kfree(e.frame);
      TablesUntouched(mem0, root, t, m.mem);
      SetPte(m, root, t, pml1, v, ZERO);
    }
  }

  lemma SharedBetween(start: nat, v: nat, end: nat)
    requires start <= v < end && P(1, start) == P(1, end - 1)
    ensures Path(1, v) == Path(1, start)
  {
    PIsDiv(start);
    PIsDiv(v);
    PIsDiv(end - 1);
  }

  /** One turn of free_range_1, which started from `mem0` and `free0`. */
  method FreeNextPage(m: Machine, root: nat, ghost t: Tabs, pml1: nat, v: nat, ghost start: nat, ghost next: nat,
                      ghost end: nat,
                      ghost mem0: seq<Page>, ghost free0: seq<nat>)
    requires Space(m, root, t) && start <= v < end <= PAGES && next == v + 1 && Path(1, v) in t && pml1 == t[Path(1, v)]
    requires Tables(mem0, t) && Freeing(mem0, t, free0, m.mem, m.free, start, v, end)
    modifies m
    ensures Space(m, root, t) && Freeing(mem0, t, free0, m.mem, m.free, start, next, end)
  {
    FreePage(m, root, t, pml1, v);
    FreeingStep(mem0, t, free0, old(m.mem), old(m.free), m.mem, m.free, start, v, v + 1, end);
  }

  /** free_range_1: free the present pages of [start, end), all served by one level-1 table. */
  method FreeRange1(m: Machine, root: nat, ghost t: Tabs, pml1: nat, start: nat, end: nat)
    requires Space(m, root, t) && start < end <= PAGES && P(1, start) == P(1, end - 1)
    requires Path(1, start) in t && pml1 == t[Path(1, start)]
    requires Owned(m.mem, t, m.free, start, end)
    modifies m
    ensures Space(m, root, t) && Freed(old(m.mem), t, old(m.free), m.mem, m.free, start, end)
  {
    var v := start;
    while v < end
      invariant start <= v <= end
      invariant Space(m, root, t) && Freeing(old(m.mem), t, old(m.free), m.mem, m.free, start, v, end)
    {
      SharedBetween(start, v, end);
      var next := v + 1;
      FreeNextPage(m, root, t, pml1, v, start, next, end, old(m.mem), old(m.free));
      v := next;
    }
    assert v == end;
  }

  /** The pages [v, stop) all hang under one entry of a table of level l + 1. */
  ghost predicate OneEntry(l: nat, v: nat, stop: nat) {
    forall u :: v <= u < stop ==> P(l, u) == P(l, v)
  }

  /** The end of the next stretch that a range free looks at: a boundary, or the end of the range. */
  method NextStop(l: nat, start: nat, end: nat) returns (stop: nat)
    requires 1 <= l <= 3 && start < end && P(l + 1, end - 1) == P(l + 1, start)
    ensures start < stop <= end && OneEntry(l, start, stop)
    ensures stop < end ==> P(l + 1, stop) == P(l + 1, start)
  {
    var nb := NextBoundary(l, start);
    forall u | start <= u < nb ensures P(l, u) == P(l, start) {
      BoundaryShares(l, start, u);
    }
    BoundaryShares(l, start, nb - 1);
    if nb < end {
      BoundaryInside(l, start, end);
    }
    stop := if end < nb then end else nb;
  }

  /**
   free_range_2, free_range_3 and free_range_4: skip from boundary to boundary, descending
   only where a table exists.
   */
  method FreeRange(m: Machine, root: nat, ghost t: Tabs, level: nat, table: nat, start: nat, end: nat)
    requires Space(m, root, t) && 2 <= level <= 4 && start <= end <= PAGES
    requires start < end ==> P(level, start) == P(level, end - 1)
    requires start < end ==> Path(level, start) in t && table == t[Path(level, start)]
    requires Owned(m.mem, t, m.free, start, end)
    modifies m
    ensures Space(m, root, t) && Freed(old(m.mem), t, old(m.free), m.mem, m.free, start, end)
    decreases level
  {
    var v := start;
    while v < end
      invariant start <= v <= end
      invariant v < end ==> P(level, v) == P(level, start)
      invariant Space(m, root, t) && Freeing(old(m.mem), t, old(m.free), m.mem, m.free, start, v, end)
    {
      var stop := NextStop(level - 1, v, end);
      assert Path(level, v) == Path(level, start);
      FreeNextStretch(m, root, t, level, table, v, stop, start, end, old(m.mem), old(m.free));
      v := stop;
    }
    assert v == end;
  }

  /** One turn of the loop, which started from `mem0` and `free0`. */
  method FreeNextStretch(m: Machine, root: nat, ghost t: Tabs, level: nat, table: nat, v: nat, stop: nat,
                         ghost start: nat, ghost end: nat, ghost mem0: seq<Page>, ghost free0: seq<nat>)
    requires Space(m, root, t) && 2 <= level <= 4 && start <= v < stop <= end <= PAGES
    requires Path(level, v) in t && table == t[Path(level, v)] && OneEntry(level - 1, v, stop)
    requires Tables(mem0, t) && Freeing(mem0, t, free0, m.mem, m.free, start, v, end)
    modifies m
    ensures Space(m, root, t) && Freeing(mem0, t, free0, m.mem, m.free, start, stop, end)
    decreases level, 1
  {
    FreeStretch(m, root, t, level, table, v, stop);
    FreeingStep(mem0, t, free0, old(m.mem), old(m.free), m.mem, m.free, start, v, stop, end);
  }

  /** The body of the loop: descend into the child table, or skip what it would have served. */
  method FreeStretch(m: Machine, root: nat, ghost t: Tabs, level: nat, table: nat, v: nat, stop: nat)
    requires Space(m, root, t) && 2 <= level <= 4 && v < stop <= PAGES
    requires Path(level, v) in t && table == t[Path(level, v)]
    requires OneEntry(level - 1, v, stop)
    requires Owned(m.mem, t, m.free, v, stop)
    modifies m
    ensures Space(m, root, t) && Freed(old(m.mem), t, old(m.free), m.mem, m.free, v, stop)
    decreases level, 0
  {
    Descend(m.mem, root, t, level, v);
    var e := m.Entry(table, X(level, v));
    if Present(e) {
      if level == 2 {
        FreeRange1(m, root, t, e.frame, v, stop);
      } else {
        FreeRange(m, root, t, level - 1, e.frame, v, stop);
      }
    } else {
      forall u | v <= u < stop ensures !Present(Lookup(m.mem, t, u)) {
        NoTable(m.mem, root, t, level - 1, u);
      }
      FreedNothing(m.mem, t, m.free, v, stop);
    }
  }

  const KERNBASE: nat := 0xffff_8000_0000_0000
  const USER_BYTES: nat := 0x8000_0000_0000

  /** The number of pages that hold `sz` bytes. */
  function PagesFor(sz: nat): nat {
    (sz + PGSIZE - 1) / PGSIZE
  }

  lemma VpnOfSize(sz: nat)
    requires sz <= USER_BYTES || sz == KERNBASE
    ensures Vpn(RoundUp(sz)) == if sz == KERNBASE then USER_PAGES else PagesFor(sz)
    ensures sz <= USER_BYTES ==> PagesFor(sz) <= USER_PAGES
  {
    if sz <= USER_BYTES {
      assert RoundUp(sz) / PGSIZE == PagesFor(sz) <= USER_PAGES;
    }
  }

  /** deallocuvm: bring the process size down to `newsz`, freeing the pages beyond it. */
  method DeallocUvm(m: Machine, root: nat, ghost t: Tabs, oldsz: nat, newsz: nat) returns (sz: nat)
    requires Space(m, root, t) && newsz <= USER_BYTES && (oldsz <= USER_BYTES || oldsz == KERNBASE)
    requires newsz < oldsz ==> Owned(m.mem, t, m.free, PagesFor(newsz), Vpn(RoundUp(oldsz)))
    modifies m
    ensures Space(m, root, t) && sz == if newsz < oldsz then newsz else oldsz
    ensures if newsz < oldsz
            then Freed(old(m.mem), t, old(m.free), m.mem, m.free, PagesFor(newsz), Vpn(RoundUp(oldsz)))
            else m.mem == old(m.mem) && m.free == old(m.free)
  {
    if newsz >= oldsz {
      return oldsz;
    }
    VpnOfSize(newsz);
    VpnOfSize(oldsz);
    var start, end := Vpn(RoundUp(newsz)), Vpn(RoundUp(oldsz));
    assert start <= end;
    if start < end {
      PathRoot(start);
      PathRoot(end - 1);
    }
    FreeRange(m, root, t, 4, root, start, end);
    return newsz;
  }
}
