/** New address spaces (vm.c): setupkvm builds the kernel half, copyuvm clones a process; and the pages each needs. */
module VmSetup {
  import opened Memory
  import opened PageTable
  import opened SetSizes
  import opened Vm
  import opened VmFree
  import opened VmNeed
  import opened VmTeardown
  import opened VmAlloc

  /** A range of physical frames that every address space maps above KERNBASE. */
  datatype Kmap = Kmap(first: nat, end: nat, perm: Perm)

  ghost predicate KmapOk(kmap: seq<Kmap>) {
    && (forall j :: 0 <= j < |kmap| ==>
          kmap[j].first < kmap[j].end <= USER_PAGES)
    && (forall i, j :: 0 <= i < j < |kmap| ==> kmap[i].end <= kmap[j].first || kmap[j].end <= kmap[i].first)
  }

  /** The pages [Lo, Hi) of a range. */
  function Lo(k: Kmap): nat {
    USER_PAGES + k.first
  }

  function Hi(k: Kmap): nat {
    USER_PAGES + k.end
  }

  predicate InRange(k: Kmap, v: nat) {
    Lo(k) <= v < Hi(k)
  }

  /** `w` is the entry of page `v` once the first `n` ranges are mapped. */
  ghost predicate EntryOk(w: Word, kmap: seq<Kmap>, n: nat, v: nat)
    requires n <= |kmap|
  {
    && (forall i :: 0 <= i < n && InRange(kmap[i], v) ==> w == Pte(v - USER_PAGES, kmap[i].perm))
    && ((forall i :: 0 <= i < n ==> !InRange(kmap[i], v)) ==> w == ZERO)
  }

  lemma NotYetMapped(kmap: seq<Kmap>, n: nat, j: nat, v: nat)
    requires KmapOk(kmap) && n <= j < |kmap| && InRange(kmap[j], v)
    ensures forall i :: 0 <= i < n ==> !InRange(kmap[i], v)
  {
    forall i | 0 <= i < n ensures !InRange(kmap[i], v) {
      assert kmap[i].end <= kmap[j].first || kmap[j].end <= kmap[i].first;
    }
  }

  lemma KernelRange(k: Kmap)
    requires k.first < k.end <= USER_PAGES
    ensures var va, size, pa := KERNBASE + k.first * PGSIZE, (k.end - k.first) * PGSIZE, k.first * PGSIZE;
            && Vpn(va) == USER_PAGES + k.first && size > 0 && Touched(va, size) == k.end - k.first
            && pa % PGSIZE == 0 && pa / PGSIZE == k.first
  {
    var base := 0xffff_8000_0000_0;
    assert KERNBASE == base * PGSIZE;
    assert (KERNBASE + k.first * PGSIZE) / PGSIZE == base + k.first;
    assert (KERNBASE + k.end * PGSIZE - 1) / PGSIZE == base + k.end - 1;
    assert (base + k.first) % PAGES == USER_PAGES + k.first;
  }

  ghost predicate EntriesAre(mem: seq<Page>, t: Tabs, kmap: seq<Kmap>, n: nat)
    requires Tables(mem, t) && n <= |kmap|
  {
    forall v :: 0 <= v < PAGES ==> EntryOk(Lookup(mem, t, v), kmap, n, v)
  }

  const NO_TABS: Tabs := map[]

  /** A zeroed root maps nothing. */
  lemma EmptySpace(mem: seq<Page>, free: seq<nat>, free': seq<nat>, root: nat, kmap: seq<Kmap>)
    requires 0 < root < |mem| && free == [root] + free'
    ensures var mem', t := mem[root := ZERO_PAGE], map[ROOT := root];
            && WellFormed(mem', root, t) && EntriesAre(mem', t, kmap, 0)
            && Grow(mem, NO_TABS, free, mem', t, free')
  {
    var t := map[ROOT := root];
    assert forall x :: x in t.Values <==> x == root by { assert t[ROOT] == root; }
  }

  lemma RangeMapped(mem: seq<Page>, t: Tabs, mem': seq<Page>, t': Tabs, kmap: seq<Kmap>, j: nat)
    requires Tables(mem, t) && Tables(mem', t') && j < |kmap| && kmap[j].first <= kmap[j].end
    requires EntriesAre(mem, t, kmap, j)
    requires Mapped(mem, t, mem', t', Lo(kmap[j]), Hi(kmap[j]), kmap[j].first, kmap[j].perm)
    requires KmapOk(kmap)
    ensures EntriesAre(mem', t', kmap, j + 1)
  {
    forall v | 0 <= v < PAGES ensures EntryOk(Lookup(mem', t', v), kmap, j + 1, v) {
      assert EntryOk(Lookup(mem, t, v), kmap, j, v);
      if InRange(kmap[j], v) {
        NotYetMapped(kmap, j, j, v);
      }
    }
  }

  /** Nothing of the user half is mapped. */
  ghost predicate NoUser(mem: seq<Page>, t: Tabs)
    requires Tables(mem, t)
  {
    forall u :: 0 <= u < USER_PAGES ==> !Present(Lookup(mem, t, u))
  }

  lemma EntriesNoUser(mem: seq<Page>, t: Tabs, kmap: seq<Kmap>, n: nat)
    requires Tables(mem, t) && n <= |kmap| && EntriesAre(mem, t, kmap, n)
    ensures NoUser(mem, t)
  {
    forall u | 0 <= u < USER_PAGES ensures !Present(Lookup(mem, t, u)) {
      assert EntryOk(Lookup(mem, t, u), kmap, n, u);
    }
  }

  lemma StillNoUser(mem: seq<Page>, t: Tabs, mem': seq<Page>, t': Tabs, lo: nat, hi: nat, f0: nat, perm: Perm)
    requires Tables(mem, t) && Tables(mem', t') && NoUser(mem, t) && lo >= USER_PAGES
    requires Mapped(mem, t, mem', t', lo, hi, f0, perm)
    ensures NoUser(mem', t')
  {
  }

  /** The tables below the root that the first `n` ranges take. */
  ghost function KernelTables(kmap: seq<Kmap>, n: nat): set<Key>
    requires n <= |kmap|
  {
    if n == 0 then {} else KernelTables(kmap, n - 1) + TablesFor(Lo(kmap[n - 1]), Hi(kmap[n - 1]))
  }

  lemma {:induction false} KernelTablesPart(kmap: seq<Kmap>, j: nat, n: nat)
    requires j < n <= |kmap|
    ensures TablesFor(Lo(kmap[j]), Hi(kmap[j])) <= KernelTables(kmap, n)
  {
    if j < n - 1 {
      KernelTablesPart(kmap, j, n - 1);
    }
  }

  /** mappages for one range. */
  method MapRange(m: Machine, root: nat, ghost t: Tabs, k: Kmap) returns (ok: bool, ghost t': Tabs, ghost stop: nat)
    requires Space(m, root, t) && k.first < k.end <= USER_PAGES
    requires forall v :: Lo(k) <= v < Hi(k) ==> !Present(Lookup(m.mem, t, v))
    modifies m
    ensures Space(m, root, t') && Grow(old(m.mem), t, old(m.free), m.mem, t', m.free)
    ensures Lo(k) <= stop <= Hi(k) && Mapped(old(m.mem), t, m.mem, t', Lo(k), stop, k.first, k.perm)
    ensures Strays(t, t', TablesFor(Lo(k), Hi(k))) == {}
    ensures if ok then stop == Hi(k) else stop < Hi(k) && m.free == [] && Leaf(t', stop) == 0
  {
    KernelRange(k);
    ghost var va, size := KERNBASE + k.first * PGSIZE, (k.end - k.first) * PGSIZE;
    SameTables(Vpn(va), Vpn(va) + Touched(va, size), Lo(k), Hi(k));
    ok, t', stop := MapPages(m, root, t, KERNBASE + k.first * PGSIZE, (k.end - k.first) * PGSIZE, k.first * PGSIZE,
      k.perm);
  }

  /** Map one range, keeping the user half empty even if memory runs out. */
  method MapKernelRange(m: Machine, root: nat, ghost t: Tabs, kmap: seq<Kmap>, j: nat)
    returns (ok: bool, ghost t': Tabs, ghost stop: nat)
    requires Space(m, root, t) && KmapOk(kmap) && j < |kmap| && EntriesAre(m.mem, t, kmap, j)
    modifies m
    ensures Space(m, root, t') && Grow(old(m.mem), t, old(m.free), m.mem, t', m.free)
    ensures Strays(t, t', TablesFor(Lo(kmap[j]), Hi(kmap[j]))) == {}
    ensures ok ==> EntriesAre(m.mem, t', kmap, j + 1)
    ensures !ok ==> NoUser(m.mem, t') && m.free == [] && InRange(kmap[j], stop) && Leaf(t', stop) == 0
  {
    var k := kmap[j];
    forall v | InRange(k, v) ensures !Present(Lookup(m.mem, t, v)) {
      NotYetMapped(kmap, j, j, v);
      assert EntryOk(Lookup(m.mem, t, v), kmap, j, v);
    }
    EntriesNoUser(m.mem, t, kmap, j);
    ok, t', stop := MapRange(m, root, t, k);
    if ok {
      RangeMapped(old(m.mem), t, m.mem, t', kmap, j);
    } else {
      StillNoUser(old(m.mem), t, m.mem, t', Lo(k), stop, k.first, k.perm);
    }
  }

  /** The free pages are exactly those there were, and no other page has changed. */
  ghost predicate Restored(mem0: seq<Page>, free0: seq<nat>, mem: seq<Page>, free: seq<nat>) {
    && |mem| == |mem0|
    && (forall x :: x in free <==> x in free0)
    && (forall x :: 0 <= x < |mem| && x !in free ==> mem[x] == mem0[x])
  }

  /** Freeing a new address space whose user half is empty undoes its construction. */
  method Abandon(m: Machine, root: nat, ghost t: Tabs, ghost mem0: seq<Page>, ghost free0: seq<nat>)
    requires Space(m, root, t) && NoUser(m.mem, t) && Grow(mem0, NO_TABS, free0, m.mem, t, m.free)
    modifies m
    ensures m.Valid() && Restored(mem0, free0, m.mem, m.free)
  {
    ghost var mem1, free1 := m.mem, m.free;
    assert forall x :: !FrameIn(mem1, t, 0, USER_PAGES, x);
    FreeVm(m, root, t);
    forall x ensures x in m.free <==> x in free0 {
      assert x !in NO_TABS.Values;
    }
  }

  /** The loop of setupkvm has mapped the first `j` ranges. */
  ghost predicate Building(mem0: seq<Page>, t0: Tabs, free0: seq<nat>, mem: seq<Page>, t: Tabs, free: seq<nat>,
                           kmap: seq<Kmap>, j: nat)
  {
    && j <= |kmap| && Tables(mem, t) && Grow(mem0, t0, free0, mem, t, free) && EntriesAre(mem, t, kmap, j)
    && Strays(t0, t, KernelTables(kmap, |kmap|)) == {}
  }

  /** It has run out of memory, for want of a table for page `stop`. */
  ghost predicate RanOut(mem0: seq<Page>, t0: Tabs, free0: seq<nat>, mem: seq<Page>, t: Tabs, free: seq<nat>,
                         kmap: seq<Kmap>, j: nat, stop: nat)
  {
    && j < |kmap| && Tables(mem, t) && Grow(mem0, t0, free0, mem, t, free) && NoUser(mem, t)
    && Strays(t0, t, KernelTables(kmap, |kmap|)) == {}
    && free == [] && InRange(kmap[j], stop) && Leaf(t, stop) == 0
  }

  /** One turn of the loop. */
  method MapOneMore(m: Machine, root: nat, ghost t: Tabs, kmap: seq<Kmap>, j: nat,
                    ghost mem0: seq<Page>, ghost t0: Tabs, ghost free0: seq<nat>)
    returns (ok: bool, ghost t': Tabs, ghost stop: nat)
    requires Space(m, root, t) && KmapOk(kmap) && j < |kmap| && Building(mem0, t0, free0, m.mem, t, m.free, kmap, j)
    modifies m
    ensures Space(m, root, t')
    ensures ok ==> Building(mem0, t0, free0, m.mem, t', m.free, kmap, j + 1)
    ensures !ok ==> RanOut(mem0, t0, free0, m.mem, t', m.free, kmap, j, stop)
  {
    ok, t', stop := MapKernelRange(m, root, t, kmap, j);
    GrowTrans(mem0, t0, free0, old(m.mem), t, old(m.free), m.mem, t', m.free);
    ghost var all := KernelTables(kmap, |kmap|);
    KernelTablesPart(kmap, j, |kmap|);
    StraysTrans(t0, t, t', all, TablesFor(Lo(kmap[j]), Hi(kmap[j])), all);
  }

  /** The loop of setupkvm. */
  method MapKernel(m: Machine, root: nat, ghost t0: Tabs, kmap: seq<Kmap>)
    returns (ok: bool, ghost t: Tabs, ghost i: nat, ghost stop: nat)
    requires Space(m, root, t0) && KmapOk(kmap) && EntriesAre(m.mem, t0, kmap, 0)
    modifies m
    ensures Space(m, root, t)
    ensures ok ==> Building(old(m.mem), t0, old(m.free), m.mem, t, m.free, kmap, |kmap|)
    ensures !ok ==> RanOut(old(m.mem), t0, old(m.free), m.mem, t, m.free, kmap, i, stop)
  {
    t, ok, i, stop := t0, true, 0, 0;
    NoneNew(t0, KernelTables(kmap, |kmap|));
    var j := 0;
    while j < |kmap|
      invariant 0 <= j <= |kmap| && ok && Space(m, root, t)
      invariant Building(old(m.mem), t0, old(m.free), m.mem, t, m.free, kmap, j)
    {
      i := j;
      ok, t, stop := MapOneMore(m, root, t, kmap, j, old(m.mem), t0, old(m.free));
      if !ok {
        return;
      }
      j := j + 1;
    }
    assert j == |kmap|;
  }

  lemma {:induction false} KernelServed(mem: seq<Page>, root: nat, t: Tabs, kmap: seq<Kmap>, n: nat)
    requires WellFormed(mem, root, t) && n <= |kmap| && KmapOk(kmap) && EntriesAre(mem, t, kmap, |kmap|)
    ensures forall k :: k in KernelTables(kmap, n) ==> k in t
  {
    if n > 0 {
      KernelServed(mem, root, t, kmap, n - 1);
      var r := kmap[n - 1];
      forall v | Lo(r) <= v < Hi(r) ensures Path(1, v) in t {
        assert EntryOk(Lookup(mem, t, v), kmap, |kmap|, v);
        assert InRange(kmap[n - 1], v);
      }
      ServedPaths(mem, root, t, Lo(r), Hi(r));
    }
  }

  lemma {:induction false} KernelBelowRoot(kmap: seq<Kmap>, n: nat)
    requires n <= |kmap|
    ensures ROOT !in KernelTables(kmap, n)
  {
    if n > 0 {
      KernelBelowRoot(kmap, n - 1);
    }
  }

  /** What a new address space takes: its root, and the kernel's tables. */
  ghost function KernelNeed(kmap: seq<Kmap>): nat {
    1 + |KernelTables(kmap, |kmap|)|
  }

  lemma RootAlone(root: nat, kmap: seq<Kmap>)
    ensures |map[ROOT := root]| + |Missing(map[ROOT := root], KernelTables(kmap, |kmap|))| == KernelNeed(kmap)
  {
    KernelBelowRoot(kmap, |kmap|);
    var t: Tabs := map[];
    assert map[ROOT := root] == t[ROOT := root] && |t| == 0;
    assert Missing(map[ROOT := root], KernelTables(kmap, |kmap|)) == KernelTables(kmap, |kmap|);
  }

  lemma NewSpaceCount(mem0: seq<Page>, free0: seq<nat>, mem: seq<Page>, t: Tabs, free: seq<nat>)
    requires Grow(mem0, NO_TABS, free0, mem, t, free) && NoRepeats(free0) && Apart(free, t)
    ensures |free0| == |free| + |t|
  {
    SameCount(free0, NO_TABS, free, t);
  }

  /** A finished kernel half has exactly the tables it needs. */
  lemma KernelBuilt(mem: seq<Page>, root: nat, t: Tabs, kmap: seq<Kmap>)
    requires WellFormed(mem, root, t) && KmapOk(kmap) && EntriesAre(mem, t, kmap, |kmap|)
    requires Strays(map[ROOT := root], t, KernelTables(kmap, |kmap|)) == {}
    ensures t.Keys == {ROOT} + KernelTables(kmap, |kmap|) && |t| == KernelNeed(kmap)
  {
    KernelServed(mem, root, t, kmap, |kmap|);
    KernelKeys(root, t, kmap);
  }

  lemma KernelKeys(root: nat, t: Tabs, kmap: seq<Kmap>)
    requires ROOT in t && forall k :: k in KernelTables(kmap, |kmap|) ==> k in t
    requires Strays(map[ROOT := root], t, KernelTables(kmap, |kmap|)) == {}
    ensures t.Keys == {ROOT} + KernelTables(kmap, |kmap|) && |t| == KernelNeed(kmap)
  {
    KernelBelowRoot(kmap, |kmap|);
    AllAdded(map[ROOT := root], t, KernelTables(kmap, |kmap|));
    assert |t| == |t.Keys|;
  }

  lemma KernelShort(mem0: seq<Page>, free0: seq<nat>, mem: seq<Page>, root: nat, t: Tabs, kmap: seq<Kmap>, j: nat,
                    stop: nat)
    requires Grow(mem0, NO_TABS, free0, mem, t, []) && NoRepeats(free0) && WellFormed(mem, root, t)
    requires j < |kmap| && InRange(kmap[j], stop) && Leaf(t, stop) == 0
    requires Strays(map[ROOT := root], t, KernelTables(kmap, |kmap|)) == {}
    ensures |free0| < KernelNeed(kmap)
  {
    NewSpaceCount(mem0, free0, mem, t, []);
    TablesAdded(map[ROOT := root], t, KernelTables(kmap, |kmap|));
    RootAlone(root, kmap);
    KernelTablesPart(kmap, j, |kmap|);
    assert Path(1, stop) in TablesFor(Lo(kmap[j]), Hi(kmap[j]));
    NoLeaf(t, stop);
  }

  /**
   setupkvm: a new address space with exactly the kernel ranges mapped, which it builds exactly
   when there are free pages for its tables.  If not, the free pages are those there were.
   */
  method SetupKvm(m: Machine, kmap: seq<Kmap>) returns (root: nat, ghost t: Tabs)
    requires m.Valid() && KmapOk(kmap)
    modifies m
    ensures m.Valid()
    ensures root != 0 <==> |old(m.free)| >= KernelNeed(kmap)
    ensures root != 0 ==>
              && Space(m, root, t) && Grow(old(m.mem), NO_TABS, old(m.free), m.mem, t, m.free)
              && EntriesAre(m.mem, t, kmap, |kmap|)
              && |old(m.free)| == |m.free| + KernelNeed(kmap) && t.Keys == {ROOT} + KernelTables(kmap, |kmap|)
    ensures root == 0 ==> Restored(old(m.mem), old(m.free), m.mem, m.free)
  {
    t := NO_TABS;
    root := m.Kalloc();
    if root == 0 {
      return;
    }
    EmptySpace(m.mem, old(m.free), m.free, root, kmap);
    m.SetPage(root, ZERO_PAGE);
    ghost var mem1, t1, free1 := m.mem, map[ROOT := root], m.free;
    var ok; ghost var i, stop;
    ok, t, i, stop := MapKernel(m, root, t1, kmap);
    GrowTrans(old(m.mem), NO_TABS, old(m.free), mem1, t1, free1, m.mem, t, m.free);
    if ok {
      NewSpaceCount(old(m.mem), old(m.free), m.mem, t, m.free);
      KernelBuilt(m.mem, root, t, kmap);
    } else {
      KernelShort(old(m.mem), old(m.free), m.mem, root, t, kmap, i, stop);
      Abandon(m, root, t, old(m.mem), old(m.free));
      return 0, t;
    }
  }

  // ---- copyuvm --------------------------------------------------------------------

  /** PTE_FLAGS: the low twelve bits and the execute-disable bit. */
  function Flags(e: Word): Perm {
    Perm(e.low, if e.high / 0x8000 % 2 == 1 then 0x8000 else 0)
  }

  /** Pages that were not free are as they were; nothing else has become free. */
  ghost predicate OnlyFree(mem0: seq<Page>, free0: seq<nat>, mem: seq<Page>, free: seq<nat>) {
    && |mem| == |mem0|
    && (forall x :: x in free ==> x in free0)
    && (forall x :: 0 <= x < |mem0| && x !in free0 ==> mem[x] == mem0[x])
  }

  lemma CloneUsesOnlyFree(mem0: seq<Page>, free0: seq<nat>, mem1: seq<Page>, t1: Tabs, free1: seq<nat>,
                          mem: seq<Page>, t: Tabs, free: seq<nat>, hi: nat)
    requires Tables(mem1, t1) && Tables(mem, t) && Grow(mem0, NO_TABS, free0, mem1, t1, free1)
    requires GrowPages(mem1, t1, free1, mem, t, free, 0, hi)
    ensures OnlyFree(mem0, free0, mem, free)
  {
    forall x | 0 <= x < |mem0| && x !in free0 ensures mem[x] == mem0[x] {
      assert x !in NO_TABS.Values;
      assert x !in free1 && x !in t1.Values;
    }
  }

  /** An address space none of whose tables was free is untouched. */
  lemma ParentIntact(mem0: seq<Page>, free0: seq<nat>, root: nat, t: Tabs, mem: seq<Page>, free: seq<nat>)
    requires WellFormed(mem0, root, t) && OnlyFree(mem0, free0, mem, free)
    requires forall k :: k in t ==> t[k] !in free0
    ensures WellFormed(mem, root, t) && SameLookups(mem0, t, mem, t) && forall k :: k in t ==> t[k] !in free
  {
    TablesUntouched(mem0, root, t, mem);
  }

  /** The pages of a parent as its child is to have them. */
  ghost function ParentPages(mem: seq<Page>, t: Tabs, n: nat): (want: seq<Want>)
    requires Tables(mem, t) && forall u :: 0 <= u < n ==> Lookup(mem, t, u).frame < |mem|
    ensures |want| == n
  {
    seq(n, u requires 0 <= u < n => Want(Flags(Lookup(mem, t, u)), mem[Lookup(mem, t, u).frame]))
  }

  /** What copyuvm reads of the parent at page `v`: its entry. */
  method ParentEntry(m: Machine, root: nat, ghost t: Tabs, v: nat) returns (e: Word)
    requires Space(m, root, t) && v < PAGES && Present(Lookup(m.mem, t, v))
    modifies m
    ensures m.Valid() && m.mem == old(m.mem) && m.free == old(m.free) && e == Lookup(m.mem, t, v)
  {
    var pml1; ghost var t';
    pml1, t' := Walk(m, root, t, v, false);
    e := m.Entry(pml1, X(1, v));
  }

  /** One turn of copyuvm: copy page `v` of the parent into a fresh frame of the child. */
  method CopyOne(m: Machine, d: nat, ghost t: Tabs, proot: nat, ghost pt: Tabs, v: nat, ghost mem0: seq<Page>,
                 ghost free0: seq<nat>,
                 ghost mem1: seq<Page>, ghost t1: Tabs, ghost free1: seq<nat>, ghost hi: nat, ghost want: seq<Want>)
    returns (ok: bool, spare: nat, ghost t': Tabs)
    requires v < hi && Strays(t1, t, TablesFor(0, hi)) == {}
    requires Space(m, d, t) && v < |want| <= USER_PAGES && WellFormed(mem0, proot, pt)
    requires (forall k :: k in pt ==> pt[k] !in free0) && OnlyFree(mem0, free0, m.mem, m.free)
    requires Progress(mem1, t1, free1, m.mem, t, m.free, 0, v, want) && NoUser(mem1, t1)
    requires var e := Lookup(mem0, pt, v);
             Present(e) && e.frame < |mem0| && e.frame !in free0 && want[v] == Want(Flags(e), mem0[e.frame])
    modifies m
    ensures Space(m, d, t') && Strays(t1, t', TablesFor(0, hi)) == {}
    ensures ok ==> Progress(mem1, t1, free1, m.mem, t', m.free, 0, v + 1, want)
    ensures !ok ==> Stuck(mem1, t1, free1, m.mem, t', m.free, 0, v, spare)
  {
    ParentIntact(mem0, free0, proot, pt, m.mem, m.free);
    var e := ParentEntry(m, proot, pt, v);
    ok, spare, t' := GrowOne(m, d, t, v, m.mem[e.frame], Flags(e), mem1, t1, free1, 0, hi, want);
  }

  /** What the loop of copyuvm needs of a parent whose first `n` pages it copies. */
  ghost predicate CanCopy(mem0: seq<Page>, free0: seq<nat>, proot: nat, pt: Tabs, n: nat) {
    && WellFormed(mem0, proot, pt) && (forall k :: k in pt ==> pt[k] !in free0)
    && n <= USER_PAGES
    && forall u :: 0 <= u < n ==>
         var e := Lookup(mem0, pt, u); Present(e) && e.frame < |mem0| && e.frame !in free0
  }

  /** The loop of copyuvm, counting pages up to `hi`; it stops where it gets stuck. */
  method CopyLoop(m: Machine, d: nat, ghost t1: Tabs, proot: nat, ghost pt: Tabs, sz: nat, ghost hi: nat,
                  ghost mem0: seq<Page>, ghost free0: seq<nat>, ghost want: seq<Want>)
    returns (ok: bool, spare: nat, ghost t: Tabs, ghost n: nat)
    requires Space(m, d, t1) && NoUser(m.mem, t1) && Grow(mem0, NO_TABS, free0, m.mem, t1, m.free)
    requires hi == PagesFor(sz) && CanCopy(mem0, free0, proot, pt, hi) && want == ParentPages(mem0, pt, hi)
    modifies m
    ensures Space(m, d, t) && n <= hi && Strays(t1, t, TablesFor(0, hi)) == {}
    ensures ok ==> n == hi && Progress(old(m.mem), t1, old(m.free), m.mem, t, m.free, 0, n, want)
    ensures !ok ==> n < hi && Stuck(old(m.mem), t1, old(m.free), m.mem, t, m.free, 0, n, spare)
  {
    NoGrowth(m.mem, t1, m.free, 0);
    NoneNew(t1, TablesFor(0, hi));
    ok, spare, t, n := true, 0, t1, 0;
    var v := 0;
    PageAddress(sz, v);
    while v * PGSIZE < sz
      invariant 0 <= v <= hi && ok && Space(m, d, t)
      invariant v * PGSIZE < sz <==> v < hi
      invariant Progress(old(m.mem), t1, old(m.free), m.mem, t, m.free, 0, v, want)
      invariant Strays(t1, t, TablesFor(0, hi)) == {}
      decreases hi - v
    {
      n := v;
      CloneUsesOnlyFree(mem0, free0, old(m.mem), t1, old(m.free), m.mem, t, m.free, v);
      ok, spare, t := CopyOne(m, d, t, proot, pt, v, mem0, free0, old(m.mem), t1, old(m.free), hi, want);
      if !ok {
        return;
      }
      v := v + 1;
      PageAddress(sz, v);
    }
    n := v;
    assert v == hi;
  }

  lemma OwnedAsBefore(mem: seq<Page>, t: Tabs, free: seq<nat>, mem': seq<Page>)
    requires Tables(mem, t) && Tables(mem', t) && |mem'| == |mem| && SameLookups(mem, t, mem', t)
    requires Owned(mem, t, free, 0, USER_PAGES)
    ensures Owned(mem', t, free, 0, USER_PAGES)
  {
  }

  /** Freeing the tables and pages of an unfinished clone leaves the free pages it started with. */
  lemma CloneUndone(mem0: seq<Page>, free0: seq<nat>, mem1: seq<Page>, t1: Tabs, free1: seq<nat>,
                    mem: seq<Page>, t: Tabs, free: seq<nat>, n: nat, x: nat)
    requires Tables(mem1, t1) && Tables(mem, t) && n <= USER_PAGES && NoUser(mem1, t1)
    requires Grow(mem0, NO_TABS, free0, mem1, t1, free1) && GrowPages(mem1, t1, free1, mem, t, free, 0, n)
    ensures x in free0 <==> x in free || x in t.Values || FrameIn(mem, t, 0, USER_PAGES, x)
  {
    assert x !in NO_TABS.Values;
    assert (x in free1 || x in t1.Values) <==> (x in free || x in t.Values || FrameIn(mem, t, 0, n, x));
    assert forall u :: n <= u < USER_PAGES ==> Lookup(mem, t, u) == Lookup(mem1, t1, u);
    assert FrameIn(mem, t, 0, USER_PAGES, x) <==> FrameIn(mem, t, 0, n, x);
  }

  /** The failure path of copyuvm: return the page that was not mapped, then free the clone. */
  method AbandonClone(m: Machine, d: nat, ghost t: Tabs, spare: nat, ghost n: nat, ghost mem0: seq<Page>,
                      ghost free0: seq<nat>,
                      ghost mem1: seq<Page>, ghost t1: Tabs, ghost free1: seq<nat>)
    requires Space(m, d, t) && Tables(mem1, t1) && NoUser(mem1, t1) && Grow(mem0, NO_TABS, free0, mem1, t1, free1)
    requires Stuck(mem1, t1, free1, m.mem, t, m.free, 0, n, spare)
    modifies m
    ensures m.Valid() && Restored(mem0, free0, m.mem, m.free)
  {
    ghost var mem, free := m.mem, WithSpare(spare, m.free);
    CloneUsesOnlyFree(mem0, free0, mem1, t1, free1, mem, t, free, n);
    ReturnSpare(m, d, t, spare);
    ghost var mem2 := m.mem;
    OwnedAsBefore(mem, t, free, mem2);
    FreeVm(m, d, t);
    assert forall x :: FrameIn(mem2, t, 0, USER_PAGES, x) <==> FrameIn(mem, t, 0, USER_PAGES, x);
    forall x ensures x in m.free <==> x in free0 {
      CloneUndone(mem0, free0, mem1, t1, free1, mem, t, free, n, x);
    }
    assert spare != 0 ==> spare in free;
  }

  /** Entry `e` maps a page that was free, with the flags and the bytes of the page that `p` maps. */
  ghost predicate PageCloned(mem0: seq<Page>, free0: seq<nat>, p: Word, mem: seq<Page>, e: Word) {
    && e == Pte(e.frame, Flags(p)) && e.frame in free0
    && p.frame < |mem0| && e.frame < |mem| && mem[e.frame] == mem0[p.frame]
  }

  /**
   The child has the parent's pages: same flags, same bytes, on frames that were free and are
   mapped once; nothing else of its user half is mapped, and its kernel half is the kernel's.
   */
  ghost predicate IsClone(mem0: seq<Page>, free0: seq<nat>, pt: Tabs, mem: seq<Page>, t: Tabs, n: nat, kmap: seq<Kmap>)
    requires Tables(mem0, pt) && Tables(mem, t)
  {
    && (forall u :: 0 <= u < n ==> PageCloned(mem0, free0, Lookup(mem0, pt, u), mem, Lookup(mem, t, u)))
    && (forall u, v :: 0 <= u < v < n ==> Lookup(mem, t, u).frame != Lookup(mem, t, v).frame)
    && (forall u :: n <= u < PAGES ==> EntryOk(Lookup(mem, t, u), kmap, |kmap|, u))
  }

  lemma CloneIsDone(mem0: seq<Page>, free0: seq<nat>, proot: nat, pt: Tabs, mem1: seq<Page>, t1: Tabs, free1: seq<nat>,
                    mem: seq<Page>, t: Tabs, free: seq<nat>, n: nat, kmap: seq<Kmap>)
    requires CanCopy(mem0, free0, proot, pt, n) && Tables(mem1, t1) && EntriesAre(mem1, t1, kmap, |kmap|)
    requires Grow(mem0, NO_TABS, free0, mem1, t1, free1)
    requires Progress(mem1, t1, free1, mem, t, free, 0, n, ParentPages(mem0, pt, n))
    ensures IsClone(mem0, free0, pt, mem, t, n, kmap)
  {
    forall u | 0 <= u < n ensures PageCloned(mem0, free0, Lookup(mem0, pt, u), mem, Lookup(mem, t, u)) {
      var f := Lookup(mem, t, u).frame;
      assert FrameIn(mem, t, 0, n, f);
      assert f in free1 || f in t1.Values;
      assert f !in NO_TABS.Values;
    }
    forall u | n <= u < PAGES ensures EntryOk(Lookup(mem, t, u), kmap, |kmap|, u) {
      assert EntryOk(Lookup(mem1, t1, u), kmap, |kmap|, u);
    }
  }

  /** What a clone of `n` pages takes: its root, the tables it needs, and a frame for each page. */
  ghost function CloneNeed(kmap: seq<Kmap>, n: nat): nat {
    1 + |KernelTables(kmap, |kmap|) + TablesFor(0, n)| + n
  }

  lemma CloneNeeds(t: Tabs, free: seq<nat>, kmap: seq<Kmap>, n: nat)
    requires t.Keys == {ROOT} + KernelTables(kmap, |kmap|)
    ensures TooFew(t, free, 0, n) <==> |free| + KernelNeed(kmap) < CloneNeed(kmap, n)
    ensures KernelNeed(kmap) <= CloneNeed(kmap, n)
  {
    var kt, ut := KernelTables(kmap, |kmap|), TablesFor(0, n);
    assert ROOT !in ut;
    assert Missing(t, ut) == ut - kt;
    assert kt + ut == kt + (ut - kt);
    assert |kt + (ut - kt)| == |kt| + |ut - kt|;
  }

  /**
   copyuvm: a clone of the parent's first `sz` bytes, which it makes exactly when there are free
   pages for it, or else exactly the free pages there were.  The parent is untouched either way.
   */
  method CopyUvm(m: Machine, kmap: seq<Kmap>, proot: nat, ghost pt: Tabs, sz: nat) returns (d: nat, ghost t: Tabs)
    requires Space(m, proot, pt) && Owned(m.mem, pt, m.free, 0, USER_PAGES) && KmapOk(kmap)
    requires PagesFor(sz) <= USER_PAGES && forall u :: 0 <= u < PagesFor(sz) ==> Present(Lookup(m.mem, pt, u))
    modifies m
    ensures Space(m, proot, pt) && SameLookups(old(m.mem), pt, m.mem, pt)
    ensures |m.mem| == |old(m.mem)| && forall x :: 0 <= x < |m.mem| && x !in old(m.free) ==> m.mem[x] == old(m.mem[x])
    ensures d != 0 <==> |old(m.free)| >= CloneNeed(kmap, PagesFor(sz))
    ensures d != 0 ==> Space(m, d, t) && IsClone(old(m.mem), old(m.free), pt, m.mem, t, PagesFor(sz), kmap)
    ensures d != 0 ==> Owned(m.mem, t, m.free, 0, USER_PAGES)
    ensures d == 0 ==> Restored(old(m.mem), old(m.free), m.mem, m.free)
  {
    ghost var mem0, free0, hi := m.mem, m.free, PagesFor(sz);
    d, t := SetupKvm(m, kmap);
    if d == 0 {
      SubsetSize(KernelTables(kmap, |kmap|), KernelTables(kmap, |kmap|) + TablesFor(0, hi));
    } else {
      ghost var mem1, t1, free1, want := m.mem, t, m.free, ParentPages(mem0, pt, hi);
      EntriesNoUser(mem1, t1, kmap, |kmap|);
      CloneNeeds(t1, free1, kmap, hi);
      var ok, spare; ghost var n;
      ok, spare, t, n := CopyLoop(m, d, t1, proot, pt, sz, hi, mem0, free0, want);
      if ok {
        GrewEnough(mem1, t1, free1, m.mem, d, t, m.free, 0, hi, want);
        CloneIsDone(mem0, free0, proot, pt, mem1, t1, free1, m.mem, t, m.free, n, kmap);
        CloneUsesOnlyFree(mem0, free0, mem1, t1, free1, m.mem, t, m.free, n);
      } else {
        StuckTooFew(mem1, t1, free1, m.mem, t, m.free, 0, n, spare, hi);
        AbandonClone(m, d, t, spare, n, mem0, free0, mem1, t1, free1);
        d := 0;
      }
    }
    ParentIntact(mem0, free0, proot, pt, m.mem, m.free);
  }
}
