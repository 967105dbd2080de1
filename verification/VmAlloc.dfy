/** Growing address spaces (vm.c): allocuvm, the pages it needs, and its undoing when there are too few. */
module VmAlloc {
  import opened Memory
  import opened PageTable
  import opened SetSizes
  import opened Vm
  import opened VmFree
  import opened VmNeed

  /** One more user page: a free frame `f` is now mapped at `v` with entry `w`. */
  ghost predicate Added(mem: seq<Page>, t: Tabs, free: seq<nat>, mem': seq<Page>, t': Tabs, free': seq<nat>,
                        v: nat, f: nat, w: Word)
    requires Tables(mem, t) && Tables(mem', t')
  {
    && |mem'| == |mem| && 0 < f < |mem|
    && (forall k :: k in t ==> k in t' && t'[k] == t[k])
    && (forall x :: x in free' ==> x in free)
    && f in free && f !in free' && f !in t'.Values
    && (forall x :: (x in free || x in t.Values) <==> (x in free' || x in t'.Values || x == f))
    && (forall x :: 0 <= x < |mem| && x !in free && x !in t.Values ==> mem'[x] == mem[x])
    && Present(w) && w.frame == f
    && (forall u :: 0 <= u < PAGES ==> Lookup(mem', t', u) == if u == v then w else Lookup(mem, t, u))
  }

  lemma AddedKeepsOwned(mem: seq<Page>, t: Tabs, free: seq<nat>, mem': seq<Page>, t': Tabs, free': seq<nat>,
                        v: nat, f: nat, w: Word)
    requires Tables(mem, t) && Tables(mem', t') && Added(mem, t, free, mem', t', free', v, f, w)
    requires Owned(mem, t, free, 0, USER_PAGES) && v < USER_PAGES
    ensures Owned(mem', t', free', 0, USER_PAGES)
  {
  }

  /** A page-aligned page of user space is one page of the flat map. */
  lemma OnePage(v: nat, f: nat)
    requires v < PAGES
    ensures Touched(v * PGSIZE, PGSIZE) == 1 && Vpn(v * PGSIZE) == v
    ensures f * PGSIZE % PGSIZE == 0 && f * PGSIZE / PGSIZE == f
  {
    assert v * PGSIZE / PGSIZE == v;
  }

  datatype Outcome = Done(frame: nat) | NoPage | NoTables(spare: nat)

  lemma SameLeaf(t: Tabs, u: nat, v: nat)
    requires u == v
    ensures Leaf(t, u) == Leaf(t, v)
  {
  }

  lemma SameTables(lo: nat, hi: nat, lo': nat, hi': nat)
    requires lo == lo' && hi == hi'
    ensures TablesFor(lo, hi) == TablesFor(lo', hi')
  {
  }

  /** mappages for a single page-aligned page. */
  method MapOne(m: Machine, root: nat, ghost t: Tabs, v: nat, f: nat, perm: Perm) returns (ok: bool, ghost t': Tabs)
    requires Space(m, root, t) && v < USER_PAGES && !Present(Lookup(m.mem, t, v))
    modifies m
    ensures Space(m, root, t') && Grow(old(m.mem), t, old(m.free), m.mem, t', m.free)
    ensures Mapped(old(m.mem), t, m.mem, t', v, if ok then v + 1 else v, f, perm)
    ensures Strays(t, t', TablesFor(v, v + 1)) == {}
    ensures !ok ==> m.free == [] && Leaf(t', v) == 0
  {
    OnePage(v, f);
    ghost var stop;
    ok, t', stop := MapPages(m, root, t, v * PGSIZE, PGSIZE, f * PGSIZE, perm);
    SameTables(Vpn(v * PGSIZE), Vpn(v * PGSIZE) + Touched(v * PGSIZE, PGSIZE), v, v + 1);
    if !ok {
      SameLeaf(t', stop, v);
    }
  }

  /** kalloc, fill and map one user page; on failure the caller still holds the spare frame, if any. */
  method AddPage(m: Machine, root: nat, ghost t: Tabs, v: nat, data: Page, perm: Perm)
    returns (r: Outcome, ghost t': Tabs)
    requires Space(m, root, t) && v < USER_PAGES && |data| == NR_PTE
    requires !Present(Lookup(m.mem, t, v))
    modifies m
    ensures Space(m, root, t')
    ensures r.Done? ==>
              && Added(old(m.mem), t, old(m.free), m.mem, t', m.free, v, r.frame, Pte(r.frame, perm))
              && m.mem[r.frame] == data
    ensures r.NoPage? ==> t' == t && m.mem == old(m.mem) && m.free == old(m.free) == []
    ensures Strays(t, t', TablesFor(v, v + 1)) == {}
    ensures r.NoTables? ==> m.free == [] && Leaf(t', v) == 0
    ensures r.NoTables? ==>
              && 0 < r.spare < |m.mem| && old(m.free) != [] && r.spare == old(m.free)[0]
              && Grow(old(m.mem)[r.spare := data], t, old(m.free)[1..], m.mem, t', m.free)
              && SameLookups(old(m.mem), t, m.mem, t')
  {
    t' := t;
    NoneNew(t, TablesFor(v, v + 1));
    var f := m.Kalloc();
    if f == 0 {
      return NoPage, t';
    }
    ghost var free1 := m.free;
    assert old(m.free)[1..] == free1;
    m.SetPage(f, data);
    ghost var mem1 := m.mem;
    TablesUntouched(old(m.mem), root, t, mem1);
    var ok;
    ok, t' := MapOne(m, root, t, v, f, perm);
    if ok {
      r := Done(f);
      AddedOne(old(m.mem), t, old(m.free), f, data, m.mem, t', m.free, v, perm);
    } else {
      r := NoTables(f);
    }
  }

  /** Taking the first free page, filling it and mapping it. */
  lemma AddedOne(mem: seq<Page>, t: Tabs, free: seq<nat>, f: nat, data: Page,
                 mem': seq<Page>, t': Tabs, free': seq<nat>, v: nat, perm: Perm)
    requires Tables(mem, t) && 0 < f < |mem| && free != [] && free[0] == f && NoRepeats(free)
    requires forall k :: k in t ==> t[k] !in free
    requires Tables(mem[f := data], t) && Tables(mem', t') && SameLookups(mem, t, mem[f := data], t)
    requires Grow(mem[f := data], t, free[1..], mem', t', free')
    requires Mapped(mem[f := data], t, mem', t', v, v + 1, f, perm)
    ensures Added(mem, t, free, mem', t', free', v, f, Pte(f, perm)) && mem'[f] == data
  {
    assert free == [f] + free[1..];
    assert f !in free[1..];
  }

  /**
   An address space that has gained the pages [lo, hi): free pages, tables and the frames of
   those pages are conserved, every other mapping and every other page is as before.
   */
  ghost predicate GrowPages(mem0: seq<Page>, t0: Tabs, free0: seq<nat>, mem: seq<Page>, t: Tabs, free: seq<nat>,
                            lo: nat, hi: nat)
    requires Tables(mem0, t0) && Tables(mem, t)
  {
    && |mem| == |mem0|
    && (forall k :: k in t0 ==> k in t && t[k] == t0[k])
    && (forall x :: x in free ==> x in free0)
    && (forall x {:trigger FrameIn(mem, t, lo, hi, x)} ::
          (x in free0 || x in t0.Values) <==> (x in free || x in t.Values || FrameIn(mem, t, lo, hi, x)))
    && (forall x :: 0 <= x < |mem0| && x !in free0 && x !in t0.Values ==> mem[x] == mem0[x])
    && (forall u :: 0 <= u < PAGES && !(lo <= u < hi) ==> Lookup(mem, t, u) == Lookup(mem0, t0, u))
  }

  lemma FrameInStep(mem1: seq<Page>, t1: Tabs, mem2: seq<Page>, t2: Tabs, lo: nat, v: nat, w: Word)
    requires Tables(mem1, t1) && Tables(mem2, t2) && lo <= v < PAGES && Present(w)
    requires forall u :: 0 <= u < PAGES ==> Lookup(mem2, t2, u) == if u == v then w else Lookup(mem1, t1, u)
    ensures forall x :: FrameIn(mem2, t2, lo, v + 1, x) <==> FrameIn(mem1, t1, lo, v, x) || x == w.frame
  {
    forall x ensures FrameIn(mem2, t2, lo, v + 1, x) <==> FrameIn(mem1, t1, lo, v, x) || x == w.frame {
      if x == w.frame {
        assert Present(Lookup(mem2, t2, v)) && Lookup(mem2, t2, v).frame == x;
      }
      if FrameIn(mem1, t1, lo, v, x) {
        var u :| lo <= u < v && Present(Lookup(mem1, t1, u)) && Lookup(mem1, t1, u).frame == x;
        assert Lookup(mem2, t2, u) == Lookup(mem1, t1, u);
      }
      if FrameIn(mem2, t2, lo, v + 1, x) {
        var u :| lo <= u < v + 1 && Present(Lookup(mem2, t2, u)) && Lookup(mem2, t2, u).frame == x;
        assert u != v ==> Lookup(mem2, t2, u) == Lookup(mem1, t1, u);
      }
    }
  }

  lemma GrowPagesStep(mem0: seq<Page>, t0: Tabs, free0: seq<nat>, mem1: seq<Page>, t1: Tabs, free1: seq<nat>,
                      mem2: seq<Page>, t2: Tabs, free2: seq<nat>, lo: nat, v: nat, f: nat, w: Word)
    requires Tables(mem0, t0) && Tables(mem1, t1) && Tables(mem2, t2) && lo <= v < PAGES
    requires GrowPages(mem0, t0, free0, mem1, t1, free1, lo, v)
    requires Added(mem1, t1, free1, mem2, t2, free2, v, f, w)
    ensures GrowPages(mem0, t0, free0, mem2, t2, free2, lo, v + 1)
  {
    FrameInStep(mem1, t1, mem2, t2, lo, v, w);
    forall x ensures (x in free0 || x in t0.Values) <==>
      (x in free2 || x in t2.Values || FrameIn(mem2, t2, lo, v + 1, x)) {
      assert (x in free0 || x in t0.Values) <==> (x in free1 || x in t1.Values || FrameIn(mem1, t1, lo, v, x));
      assert (x in free1 || x in t1.Values) <==> (x in free2 || x in t2.Values || x == f);
      assert FrameIn(mem2, t2, lo, v + 1, x) <==> FrameIn(mem1, t1, lo, v, x) || x == f;
    }
    forall x | 0 <= x < |mem0| && x !in free0 && x !in t0.Values ensures mem2[x] == mem0[x] {
      assert x !in free1 && x !in t1.Values;
    }
  }

  /** What a page is to look like: its permissions and its content. */
  datatype Want = Want(perm: Perm, data: Page)

  /** The pages [lo, hi) are mapped with the wanted permissions to frames with the wanted content. */
  ghost predicate Holding(mem: seq<Page>, t: Tabs, lo: nat, hi: nat, want: seq<Want>)
    requires Tables(mem, t) && hi <= |want|
  {
    forall u :: lo <= u < hi ==>
      var e := Lookup(mem, t, u);
      e.frame < |mem| && e == Pte(e.frame, want[u].perm) && mem[e.frame] == want[u].data
  }

  lemma HoldingStep(mem1: seq<Page>, t1: Tabs, free1: seq<nat>, mem2: seq<Page>, t2: Tabs, free2: seq<nat>,
                    lo: nat, v: nat, f: nat, want: seq<Want>)
    requires Tables(mem1, t1) && Tables(mem2, t2) && lo <= v < USER_PAGES && v < |want|
    requires Holding(mem1, t1, lo, v, want) && Owned(mem1, t1, free1, 0, USER_PAGES)
    requires Added(mem1, t1, free1, mem2, t2, free2, v, f, Pte(f, want[v].perm)) && mem2[f] == want[v].data
    ensures Holding(mem2, t2, lo, v + 1, want)
  {
    forall u | lo <= u < v + 1
      ensures var e := Lookup(mem2, t2, u);
              e.frame < |mem2| && e == Pte(e.frame, want[u].perm) && mem2[e.frame] == want[u].data
    {
      if u < v {
        assert Lookup(mem2, t2, u) == Lookup(mem1, t1, u);
      }
    }
  }

  /** perm | PTE_U */
  function User(perm: Perm): Perm {
    if perm.low / 4 % 2 == 1 then perm else perm.(low := perm.low + PTE_U)
  }

  /** Byte addresses of pages, as the loops count them. */
  lemma PageAddress(sz: nat, v: nat)
    ensures v * PGSIZE < sz <==> v < PagesFor(sz)
    ensures RoundUp(sz) == PagesFor(sz) * PGSIZE
    ensures v * PGSIZE / PGSIZE == v
  {
  }

  function WithSpare(spare: nat, free: seq<nat>): seq<nat> {
    if spare == 0 then free else [spare] + free
  }

  /** A page whose tables could not be had: counting its frame as free, nothing has happened. */
  lemma SpareCounts(mem0: seq<Page>, t0: Tabs, free0: seq<nat>, mem1: seq<Page>, t1: Tabs, free1: seq<nat>, data: Page,
                    mem2: seq<Page>, t2: Tabs, free2: seq<nat>, lo: nat, v: nat)
    requires Tables(mem0, t0) && Tables(mem1, t1) && Tables(mem2, t2) && free1 != [] && free1[0] < |mem1|
    requires GrowPages(mem0, t0, free0, mem1, t1, free1, lo, v) && v <= USER_PAGES
    requires Grow(mem1[free1[0] := data], t1, free1[1..], mem2, t2, free2) && SameLookups(mem1, t1, mem2, t2)
    ensures GrowPages(mem0, t0, free0, mem2, t2, [free1[0]] + free2, lo, v)
  {
    assert free1 == [free1[0]] + free1[1..];
    assert forall u :: 0 <= u < v ==> Lookup(mem2, t2, u) == Lookup(mem1, t1, u);
    forall x
      ensures (x in free0 || x in t0.Values) <==>
                (x in [free1[0]] + free2 || x in t2.Values || FrameIn(mem2, t2, lo, v, x))
    {
      assert FrameIn(mem2, t2, lo, v, x) <==> FrameIn(mem1, t1, lo, v, x);
    }
    forall x | 0 <= x < |mem0| && x !in free0 && x !in t0.Values ensures mem2[x] == mem0[x] {
      assert !FrameIn(mem1, t1, lo, v, x);
      assert x !in free1 && x !in t1.Values;
    }
  }

  lemma SpareOwned(mem1: seq<Page>, t1: Tabs, free1: seq<nat>, data: Page, mem2: seq<Page>, t2: Tabs, free2: seq<nat>)
    requires Tables(mem1, t1) && Tables(mem2, t2) && free1 != [] && free1[0] < |mem1|
    requires Owned(mem1, t1, free1, 0, USER_PAGES)
    requires Grow(mem1[free1[0] := data], t1, free1[1..], mem2, t2, free2) && SameLookups(mem1, t1, mem2, t2)
    ensures Owned(mem2, t2, [free1[0]] + free2, 0, USER_PAGES)
  {
    assert free1 == [free1[0]] + free1[1..];
  }

  /** Same pages mapped, to the same entries. */
  ghost predicate SameMappings(mem0: seq<Page>, t0: Tabs, mem: seq<Page>, t: Tabs)
    requires Tables(mem0, t0) && Tables(mem, t)
  {
    forall u :: 0 <= u < PAGES ==>
      && (Present(Lookup(mem, t, u)) <==> Present(Lookup(mem0, t0, u)))
      && (Present(Lookup(mem, t, u)) ==> Lookup(mem, t, u) == Lookup(mem0, t0, u))
  }

  /** Free pages and tables together are what they were, and so is every other page. */
  ghost predicate Conserved(mem0: seq<Page>, t0: Tabs, free0: seq<nat>, mem: seq<Page>, t: Tabs, free: seq<nat>) {
    && |mem| == |mem0|
    && (forall k :: k in t0 ==> k in t && t[k] == t0[k])
    && (forall x :: (x in free0 || x in t0.Values) <==> (x in free || x in t.Values))
    && (forall x :: 0 <= x < |mem0| && x !in free0 && x !in t0.Values ==> mem[x] == mem0[x])
  }

  /** Unmapping the gained pages and returning the spare frame gives every leaf frame back. */
  lemma UndoneGrowth(mem0: seq<Page>, t0: Tabs, free0: seq<nat>, mem: seq<Page>, t: Tabs, free: seq<nat>, spare: nat,
                     mem1: seq<Page>, free1: seq<nat>, mem2: seq<Page>, lo: nat, v: nat, hi: nat)
    requires Tables(mem0, t0) && Tables(mem, t) && Tables(mem1, t) && lo <= v <= hi <= USER_PAGES
    requires GrowPages(mem0, t0, free0, mem, t, WithSpare(spare, free), lo, v)
    requires Freed(mem, t, free, mem1, free1, lo, hi)
    requires forall u :: v <= u < hi ==> !Present(Lookup(mem, t, u))
    requires |mem2| == |mem1| && forall x :: 0 <= x < |mem1| && x != spare ==> mem2[x] == mem1[x]
    requires spare == 0 ==> mem2 == mem1
    ensures Conserved(mem0, t0, free0, mem2, t, WithSpare(spare, free1))
  {
    assert forall x :: FrameIn(mem, t, lo, hi, x) <==> FrameIn(mem, t, lo, v, x);
    NaiveMembers(mem, t, free, lo, hi);
    forall x | 0 <= x < |mem0| && x !in free0 && x !in t0.Values ensures mem2[x] == mem0[x] {
      assert x !in WithSpare(spare, free) && x !in t.Values && !FrameIn(mem, t, lo, v, x);
    }
  }

  /** kfree of a page that is neither free nor a table. */
  method ReturnSpare(m: Machine, root: nat, ghost t: Tabs, spare: nat)
    requires Space(m, root, t) && (spare != 0 ==> spare < |m.mem| && spare !in m.free && spare !in t.Values)
    modifies m
    ensures Space(m, root, t) && m.free == WithSpare(spare, old(m.free)) && SameLookups(old(m.mem), t, m.mem, t)
    ensures |m.mem| == |old(m.mem)| && forall x :: 0 <= x < |m.mem| && x != spare ==> m.mem[x] == old(m.mem)[x]
    ensures spare == 0 ==> m.mem == old(m.mem)
  {
    if spare != 0 {
      m.Kfree(spare);
      assert forall k :: k in t ==> t[k] in t.Values;
      TablesUntouched(old(m.mem), root, t, m.mem);
    }
  }

  lemma SpareStaysOut(mem: seq<Page>, t: Tabs, free: seq<nat>, mem1: seq<Page>, free1: seq<nat>, spare: nat, lo: nat,
                      hi: nat)
    requires Tables(mem, t) && Tables(mem1, t) && hi <= USER_PAGES && spare != 0 && spare !in free
    requires Owned(mem, t, WithSpare(spare, free), 0, USER_PAGES) && Freed(mem, t, free, mem1, free1, lo, hi)
    ensures spare !in free1
  {
    NaiveMembers(mem, t, free, lo, hi);
    assert spare in WithSpare(spare, free);
  }

  lemma OwnedPart(mem: seq<Page>, t: Tabs, free: seq<nat>, spare: nat, lo: nat, hi: nat)
    requires Tables(mem, t) && Owned(mem, t, WithSpare(spare, free), 0, USER_PAGES) && hi <= USER_PAGES
    ensures Owned(mem, t, free, lo, hi)
  {
    assert forall x :: x in free ==> x in WithSpare(spare, free);
  }

  lemma UndoneMappings(mem0: seq<Page>, t0: Tabs, mem: seq<Page>, t: Tabs, mem1: seq<Page>, mem2: seq<Page>, lo: nat,
                       hi: nat)
    requires Tables(mem0, t0) && Tables(mem, t) && Tables(mem1, t) && Tables(mem2, t)
    requires forall u :: 0 <= u < PAGES && !(lo <= u < hi) ==> Lookup(mem, t, u) == Lookup(mem0, t0, u)
    requires forall u :: lo <= u < hi ==> !Present(Lookup(mem0, t0, u))
    requires forall u :: 0 <= u < PAGES ==>
               Lookup(mem1, t, u) == if lo <= u < hi && Present(Lookup(mem, t, u)) then ZERO else Lookup(mem, t, u)
    requires SameLookups(mem1, t, mem2, t)
    ensures SameMappings(mem0, t0, mem2, t)
  {
    assert !Present(ZERO);
  }

  /** A loop that has run out of memory at page `v`, perhaps holding a spare frame that lacks a table. */
  ghost predicate Stuck(mem0: seq<Page>, t0: Tabs, free0: seq<nat>, mem: seq<Page>, t: Tabs, free: seq<nat>,
                        lo: nat, v: nat, spare: nat)
  {
    && Tables(mem0, t0) && Tables(mem, t) && v <= USER_PAGES
    && free == [] && (spare != 0 ==> Leaf(t, v) == 0)
    && (spare != 0 ==> spare < |mem| && spare !in free && spare !in t.Values)
    && GrowPages(mem0, t0, free0, mem, t, WithSpare(spare, free), lo, v)
    && Owned(mem, t, WithSpare(spare, free), 0, USER_PAGES)
  }

  /** The failure path of allocuvm: unmap what was mapped, then return the page that was not. */
  method Undo(m: Machine, root: nat, ghost t: Tabs, oldsz: nat, newsz: nat, spare: nat,
              ghost mem0: seq<Page>, ghost t0: Tabs, ghost free0: seq<nat>, ghost v: nat)
    requires Space(m, root, t) && Tables(mem0, t0) && oldsz < newsz <= USER_BYTES
    requires PagesFor(oldsz) <= v <= PagesFor(newsz)
    requires Stuck(mem0, t0, free0, m.mem, t, m.free, PagesFor(oldsz), v, spare)
    requires forall u :: PagesFor(oldsz) <= u < PagesFor(newsz) ==> !Present(Lookup(mem0, t0, u))
    modifies m
    ensures Space(m, root, t) && Conserved(mem0, t0, free0, m.mem, t, m.free) && SameMappings(mem0, t0, m.mem, t)
  {
    ghost var mem, free, lo, hi := m.mem, m.free, PagesFor(oldsz), PagesFor(newsz);
    VpnOfSize(newsz);
    OwnedPart(mem, t, free, spare, lo, hi);
    var _ := DeallocUvm(m, root, t, newsz, oldsz);
    ghost var mem1, free1 := m.mem, m.free;
    if spare != 0 {
      SpareStaysOut(mem, t, free, mem1, free1, spare, lo, hi);
    }
    ReturnSpare(m, root, t, spare);
    UndoneGrowth(mem0, t0, free0, mem, t, free, spare, mem1, free1, m.mem, lo, v, hi);
    UndoneMappings(mem0, t0, mem, t, mem1, m.mem, lo, hi);
  }

  lemma ConservedKeepsOwned(mem0: seq<Page>, t0: Tabs, free0: seq<nat>, mem: seq<Page>, t: Tabs, free: seq<nat>)
    requires Tables(mem0, t0) && Tables(mem, t)
    requires Conserved(mem0, t0, free0, mem, t, free) && SameMappings(mem0, t0, mem, t)
    requires Owned(mem0, t0, free0, 0, USER_PAGES)
    ensures Owned(mem, t, free, 0, USER_PAGES)
  {
    forall u | 0 <= u < USER_PAGES && Present(Lookup(mem, t, u))
      ensures var f := Lookup(mem, t, u).frame; 0 < f < |mem| && f !in free && f !in t.Values
    {
      var f := Lookup(mem0, t0, u).frame;
      assert Lookup(mem, t, u) == Lookup(mem0, t0, u);
      assert !(f in free0 || f in t0.Values);
    }
  }

  /** Growth that has not started. */
  lemma NoGrowth(mem: seq<Page>, t: Tabs, free: seq<nat>, lo: nat)
    requires Tables(mem, t)
    ensures GrowPages(mem, t, free, mem, t, free, lo, lo)
  {
    assert forall x :: !FrameIn(mem, t, lo, lo, x);
  }

  const LIMIT: nat := 0x8000_0000  // sizes are returned as int

  /** The progress of a loop that adds pages from `lo`: it has come to page `v`. */
  ghost predicate Progress(mem0: seq<Page>, t0: Tabs, free0: seq<nat>, mem: seq<Page>, t: Tabs, free: seq<nat>,
                           lo: nat, v: nat, want: seq<Want>)
  {
    && Tables(mem0, t0) && Tables(mem, t) && lo <= v <= |want|
    && GrowPages(mem0, t0, free0, mem, t, free, lo, v)
    && Holding(mem, t, lo, v, want)
    && Owned(mem, t, free, 0, USER_PAGES)
  }

  lemma ProgressStep(mem0: seq<Page>, t0: Tabs, free0: seq<nat>, mem1: seq<Page>, t1: Tabs, free1: seq<nat>,
                     mem2: seq<Page>, t2: Tabs, free2: seq<nat>, lo: nat, v: nat, f: nat, want: seq<Want>)
    requires Progress(mem0, t0, free0, mem1, t1, free1, lo, v, want) && Tables(mem2, t2)
    requires v < USER_PAGES && v < |want|
    requires Added(mem1, t1, free1, mem2, t2, free2, v, f, Pte(f, want[v].perm)) && mem2[f] == want[v].data
    ensures Progress(mem0, t0, free0, mem2, t2, free2, lo, v + 1, want)
  {
    GrowPagesStep(mem0, t0, free0, mem1, t1, free1, mem2, t2, free2, lo, v, f, Pte(f, want[v].perm));
    HoldingStep(mem1, t1, free1, mem2, t2, free2, lo, v, f, want);
    AddedKeepsOwned(mem1, t1, free1, mem2, t2, free2, v, f, Pte(f, want[v].perm));
  }

  lemma GotStuck(mem0: seq<Page>, t0: Tabs, free0: seq<nat>, mem1: seq<Page>, t1: Tabs, free1: seq<nat>, data: Page,
                 mem2: seq<Page>, t2: Tabs, free2: seq<nat>, lo: nat, v: nat, want: seq<Want>)
    requires Progress(mem0, t0, free0, mem1, t1, free1, lo, v, want) && Tables(mem2, t2) && v <= USER_PAGES
    requires free1 != [] && 0 < free1[0] < |mem1| && NoRepeats(free1) && forall k :: k in t1 ==> t1[k] !in free1
    requires Grow(mem1[free1[0] := data], t1, free1[1..], mem2, t2, free2) && SameLookups(mem1, t1, mem2, t2)
    requires free2 == [] && Leaf(t2, v) == 0
    ensures Stuck(mem0, t0, free0, mem2, t2, free2, lo, v, free1[0])
  {
    SpareCounts(mem0, t0, free0, mem1, t1, free1, data, mem2, t2, free2, lo, v);
    SpareOwned(mem1, t1, free1, data, mem2, t2, free2);
    assert free1[0] !in free1[1..];
  }

  /** The loop has added every page: there were enough free pages. */
  lemma GrewEnough(mem0: seq<Page>, t0: Tabs, free0: seq<nat>, mem: seq<Page>, root: nat, t: Tabs, free: seq<nat>,
                   lo: nat, hi: nat, want: seq<Want>)
    requires Progress(mem0, t0, free0, mem, t, free, lo, hi, want) && Strays(t0, t, TablesFor(lo, hi)) == {}
    requires WellFormed(mem, root, t) && hi <= USER_PAGES && Apart(free0, t0) && Apart(free, t)
    ensures !TooFew(t0, free0, lo, hi)
  {
    forall u | lo <= u < hi ensures Present(Lookup(mem, t, u)) {
      var e := Lookup(mem, t, u);
      assert e == Pte(e.frame, want[u].perm);
    }
    NaiveApart(mem, t, free, lo, hi);
    NaiveLength(mem, t, free, lo, hi);
    NaiveMembers(mem, t, free, lo, hi);
    SameCount(free0, t0, Naive(mem, t, free, lo, hi), t);
    Enough(t0, free0, mem, root, t, Naive(mem, t, free, lo, hi), lo, hi);
  }

  /** The loop has got stuck: there were too few. */
  lemma StuckTooFew(mem0: seq<Page>, t0: Tabs, free0: seq<nat>, mem: seq<Page>, t: Tabs, free: seq<nat>,
                    lo: nat, v: nat, spare: nat, hi: nat)
    requires Stuck(mem0, t0, free0, mem, t, free, lo, v, spare) && Strays(t0, t, TablesFor(lo, hi)) == {}
    requires lo <= v < hi && Apart(free0, t0)
    ensures TooFew(t0, free0, lo, hi)
  {
    var rest := WithSpare(spare, free);
    NaiveApart(mem, t, rest, lo, v);
    NaiveLength(mem, t, rest, lo, v);
    NaiveMembers(mem, t, rest, lo, v);
    SameCount(free0, t0, Naive(mem, t, rest, lo, v), t);
    NotEnough(t0, free0, t, |Naive(mem, t, rest, lo, v)|, lo, v, hi);
  }

  /** Add the wanted page, or get stuck. */
  method GrowOne(m: Machine, root: nat, ghost t: Tabs, v: nat, data: Page, perm: Perm,
                 ghost mem0: seq<Page>, ghost t0: Tabs, ghost free0: seq<nat>, ghost lo: nat, ghost hi: nat,
                   ghost want: seq<Want>)
    returns (ok: bool, spare: nat, ghost t': Tabs)
    requires Space(m, root, t) && v < USER_PAGES && |data| == NR_PTE
    requires Progress(mem0, t0, free0, m.mem, t, m.free, lo, v, want)
    requires v < |want| && want[v] == Want(perm, data) && !Present(Lookup(mem0, t0, v))
    requires v < hi && Strays(t0, t, TablesFor(lo, hi)) == {}
    modifies m
    ensures Space(m, root, t') && Strays(t0, t', TablesFor(lo, hi)) == {}
    ensures ok ==> Progress(mem0, t0, free0, m.mem, t', m.free, lo, v + 1, want)
    ensures !ok ==> Stuck(mem0, t0, free0, m.mem, t', m.free, lo, v, spare)
  {
    ghost var mem1, free1 := m.mem, m.free;
    var r;
    r, t' := AddPage(m, root, t, v, data, perm);
    ok := r.Done?;
    spare := if r.NoTables? then r.spare else 0;
    TablesForPart(lo, v, v + 1, hi);
    StraysTrans(t0, t, t', TablesFor(lo, hi), TablesFor(v, v + 1), TablesFor(lo, hi));
    if ok {
      ProgressStep(mem0, t0, free0, mem1, t, free1, m.mem, t', m.free, lo, v, r.frame, want);
    } else if spare != 0 {
      GotStuck(mem0, t0, free0, mem1, t, free1, data, m.mem, t', m.free, lo, v, want);
    }
  }

  /**
   allocuvm: grow the process to `newsz` with fresh zeroed pages, which it does exactly when
   there are free pages for them and for the tables that they lack.  When there are not, the
   mappings are as before and every leaf frame is free again; new tables stay.
   */
  method AllocUvm(m: Machine, root: nat, ghost t: Tabs, oldsz: nat, newsz: nat, perm: Perm)
    returns (sz: nat, ghost t': Tabs, ghost ok: bool)
    requires Space(m, root, t) && Owned(m.mem, t, m.free, 0, USER_PAGES)
    requires oldsz < LIMIT && (newsz < LIMIT || newsz >= KERNBASE)
    requires newsz < LIMIT ==> forall u :: PagesFor(oldsz) <= u < PagesFor(newsz) ==> !Present(Lookup(m.mem, t, u))
    modifies m
    ensures Space(m, root, t') && Owned(m.mem, t', m.free, 0, USER_PAGES)
    ensures newsz >= KERNBASE ==> sz == 0 && !ok
    ensures newsz < oldsz ==> sz == oldsz && !ok
    ensures newsz >= KERNBASE || newsz < oldsz ==> t' == t && m.mem == old(m.mem) && m.free == old(m.free)
    ensures ok ==>
              && sz == newsz < LIMIT
              && GrowPages(old(m.mem), t, old(m.free), m.mem, t', m.free, PagesFor(oldsz), PagesFor(newsz))
              && forall u :: PagesFor(oldsz) <= u < PagesFor(newsz) ==>
                   var e := Lookup(m.mem, t', u);
                   e.frame < |m.mem| && e == Pte(e.frame, User(perm)) && m.mem[e.frame] == ZERO_PAGE
    ensures oldsz <= newsz < LIMIT ==> (ok <==> !TooFew(t, old(m.free), PagesFor(oldsz), PagesFor(newsz)))
    ensures oldsz <= newsz < LIMIT && !ok ==>
              && sz == 0
              && Conserved(old(m.mem), t, old(m.free), m.mem, t', m.free)
              && SameMappings(old(m.mem), t, m.mem, t')
  {
    t', ok := t, false;
    if newsz >= KERNBASE {
      return 0, t', ok;
    }
    if newsz < oldsz {
      return oldsz, t', ok;
    }
    ghost var lo, hi, mem0, free0 := PagesFor(oldsz), PagesFor(newsz), m.mem, m.free;
    ghost var want := seq(hi, _ => Want(User(perm), ZERO_PAGE));
    PageAddress(oldsz, lo);
    var good, spare; ghost var v;
    good, spare, t', v := AllocLoop(m, root, t, RoundUp(oldsz) / PGSIZE, newsz, User(perm), hi, want);
    if good {
      GrewEnough(mem0, t, free0, m.mem, root, t', m.free, lo, hi, want);
      return newsz, t', true;
    }
    StuckTooFew(mem0, t, free0, m.mem, t', m.free, lo, v, spare, hi);
    Undo(m, root, t', oldsz, newsz, spare, mem0, t, free0, v);
    ConservedKeepsOwned(mem0, t, free0, m.mem, t', m.free);
    return 0, t', ok;
  }

  /** The loop of allocuvm, counting pages up to `hi`; it stops where it gets stuck. */
  method AllocLoop(m: Machine, root: nat, ghost t: Tabs, lo: nat, newsz: nat, perm: Perm, ghost hi: nat,
                   ghost want: seq<Want>)
    returns (ok: bool, spare: nat, ghost t': Tabs, ghost v: nat)
    requires Space(m, root, t) && Owned(m.mem, t, m.free, 0, USER_PAGES)
    requires lo <= hi <= USER_PAGES && hi == PagesFor(newsz) && want == seq(hi, _ => Want(perm, ZERO_PAGE))
    requires forall u :: lo <= u < hi ==> !Present(Lookup(m.mem, t, u))
    modifies m
    ensures Space(m, root, t') && lo <= v <= hi
    ensures ok ==> v == hi && Progress(old(m.mem), t, old(m.free), m.mem, t', m.free, lo, v, want)
    ensures !ok ==> v < hi && Stuck(old(m.mem), t, old(m.free), m.mem, t', m.free, lo, v, spare)
    ensures Strays(t, t', TablesFor(lo, hi)) == {}
  {
    NoGrowth(m.mem, t, m.free, lo);
    NoneNew(t, TablesFor(lo, hi));
    var a := lo;
    t', v, ok, spare := t, lo, true, 0;
    PageAddress(newsz, a);
    while a * PGSIZE < newsz
      invariant lo <= a <= hi && ok && Space(m, root, t')
      invariant a * PGSIZE < newsz <==> a < hi
      invariant Progress(old(m.mem), t, old(m.free), m.mem, t', m.free, lo, a, want)
      invariant Strays(t, t', TablesFor(lo, hi)) == {}
      decreases hi - a
    {
      v := a;
      ok, spare, t' := GrowOne(m, root, t', a, ZERO_PAGE, perm, old(m.mem), t, old(m.free), lo, hi, want);
      if !ok {
        return;
      }
      a := a + 1;
      PageAddress(newsz, a);
    }
    v := a;
  }
}
