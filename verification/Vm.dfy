/** Address spaces (vm.c): walking, mapping and growing four-level page tables in place. */
module Vm {
  import opened Memory
  import opened PageTable

  const PGSIZE: nat := 4096

  /** Permission bits of an entry: bits 0-11 and bits 48-63. */
  datatype Perm = Perm(low: nat, high: nat)

  const PTE_U: nat := 4

  /** pa | perm | PTE_P */
  function Pte(frame: nat, perm: Perm): (w: Word)
    ensures Present(w) && w.frame == frame
  {
    Word(perm.low - perm.low % 2 + 1, frame, perm.high)
  }

  /** The page number of a virtual address: the bits that the four indices look at. */
  function Vpn(va: nat): (v: nat)
    ensures v < PAGES
  {
    va / PGSIZE % PAGES
  }

  function RoundUp(x: nat): nat {
    (x + PGSIZE - 1) / PGSIZE * PGSIZE
  }

  function RoundDown(x: nat): nat {
    x / PGSIZE * PGSIZE
  }

  /** An address space in a machine: its tables are well formed and none of them is free. */
  ghost predicate Space(m: Machine, root: nat, t: Tabs)
    reads m
  {
    && m.Valid()
    && WellFormed(m.mem, root, t)
    && (forall k :: k in t ==> t[k] !in m.free)
  }

  /**
   Growing an address space: its tables stay, new ones come out of the free pages, free
   pages and tables together are conserved, and no other page changes.
   */
  ghost predicate Grow(mem: seq<Page>, t: Tabs, free: seq<nat>, mem': seq<Page>, t': Tabs, free': seq<nat>) {
    && |mem'| == |mem|
    && (forall k :: k in t ==> k in t' && t'[k] == t[k])
    && (forall f :: f in free' ==> f in free)
    && (forall f :: (f in free || f in t.Values) <==> (f in free' || f in t'.Values))
    && (forall f :: 0 <= f < |mem| && f !in free && f !in t.Values ==> mem'[f] == mem[f])
  }

  lemma GrowTrans(mem: seq<Page>, t: Tabs, free: seq<nat>, mem1: seq<Page>, t1: Tabs, free1: seq<nat>,
                  mem2: seq<Page>, t2: Tabs, free2: seq<nat>)
    requires Grow(mem, t, free, mem1, t1, free1) && Grow(mem1, t1, free1, mem2, t2, free2)
    ensures Grow(mem, t, free, mem2, t2, free2)
  {
  }

  lemma ValuesOfUpdate(t: Tabs, k: Key, f: nat)
    requires k !in t
    ensures forall x :: x in t[k := f].Values <==> x in t.Values || x == f
  {
    var t' := t[k := f];
    forall x ensures x in t'.Values <==> x in t.Values || x == f {
      if x in t.Values {
        var j :| j in t && t[j] == x;
        assert t'[j] == x;
      }
      if x in t'.Values {
        var j :| j in t' && t'[j] == x;
        assert j != k ==> t[j] == x;
      }
      assert t'[k] == f;
    }
  }

  lemma TakenAsTable(t: Tabs, free: seq<nat>, c: Key, f: nat, free': seq<nat>, x: nat)
    requires c !in t && free == [f] + free'
    ensures (x in free || x in t.Values) <==> (x in free' || x in t[c := f].Values)
  {
    ValuesOfUpdate(t, c, f);
    assert x in free <==> x == f || x in free';
    assert x in t[c := f].Values <==> x in t.Values || x == f;
  }

  /** A free page becomes the table that entry `i` of table `k` points to. */
  lemma TableGrown(mem: seq<Page>, t: Tabs, free: seq<nat>, k: Key, i: nat, f: nat, mem': seq<Page>, free': seq<nat>)
    requires k in t && k.level >= 1 && Child(k, i) !in t && free == [f] + free' && f < |mem|
    requires t[k] < |mem| && |mem'| == |mem| && forall x :: 0 <= x < |mem| && x != f && x != t[k] ==> mem'[x] == mem[x]
    ensures Grow(mem, t, free, mem', t[Child(k, i) := f], free')
  {
    assert t[k] in t.Values;
    forall x ensures (x in free || x in t.Values) <==> (x in free' || x in t[Child(k, i) := f].Values) {
      TakenAsTable(t, free, Child(k, i), f, free', x);
    }
  }

  /** The part of get_pml3, get_pml2 and get_pml1 that allocates. */
  method NewTable(m: Machine, root: nat, ghost t: Tabs, ghost level: nat, table: nat, i: nat, ghost v: nat)
    returns (child: nat, ghost t': Tabs)
    requires Space(m, root, t) && 2 <= level <= 4 && Path(level, v) in t && Path(level - 1, v) !in t
    requires table == t[Path(level, v)] && i == X(level, v)
    modifies m
    ensures Space(m, root, t') && Grow(old(m.mem), t, old(m.free), m.mem, t', m.free)
    ensures SameLookups(old(m.mem), t, m.mem, t') && Strays(t, t', TablesFor(v, v + 1)) == {}
    ensures if child != 0 then t' == t[Path(level - 1, v) := child] else t' == t && m.free == []
  {
    t' := t;
    NoneNew(t, TablesFor(v, v + 1));
    child := m.Kalloc();
    if child == 0 {
      return;
    }
    ghost var k, c := Path(level, v), Path(level - 1, v);
    PathStep(level, v);
    assert child !in t.Values;
    AddTable(m.mem, root, t, k, i, child);
    m.SetPage(child, ZERO_PAGE);
    m.SetEntry(table, i, Word(7, child, 0));
    t' := t[c := child];
    TableGrown(old(m.mem), t, old(m.free), k, i, child, m.mem, m.free);
    OneNew(t, level - 1, v, child);
  }

  /**
   get_pml3, get_pml2 and get_pml1: the child of a table on the path to page `v`, created
   if asked for.  0 if absent or out of memory.
   */
  method GetTable(m: Machine, root: nat, ghost t: Tabs, level: nat, table: nat, v: nat, alloc: bool)
    returns (child: nat, ghost t': Tabs)
    requires Space(m, root, t) && 2 <= level <= 4 && Path(level, v) in t && table == t[Path(level, v)]
    modifies m
    ensures Space(m, root, t') && Grow(old(m.mem), t, old(m.free), m.mem, t', m.free)
    ensures SameLookups(old(m.mem), t, m.mem, t')
    ensures child != 0 ==> Path(level - 1, v) in t' && child == t'[Path(level - 1, v)]
    ensures child == 0 ==> t' == t && Path(level - 1, v) !in t && (alloc ==> m.free == [])
    ensures Strays(t, t', TablesFor(v, v + 1)) == {}
    ensures !alloc ==> t' == t && m.mem == old(m.mem) && m.free == old(m.free)
  {
    t' := t;
    NoneNew(t, TablesFor(v, v + 1));
    Descend(m.mem, root, t, level, v);
    var e := m.Entry(table, X(level, v));
    if Present(e) {
      return e.frame, t';
    }
    if !alloc {
      return 0, t';
    }
    child, t' := NewTable(m, root, t, level, table, X(level, v), v);
  }

  /** The chain of table lookups from a table of the given level down to level 1. */
  method WalkFrom(m: Machine, root: nat, ghost t: Tabs, level: nat, table: nat, v: nat, alloc: bool)
    returns (pml1: nat, ghost t': Tabs)
    requires Space(m, root, t) && 1 <= level <= 4 && Path(level, v) in t && table == t[Path(level, v)]
    modifies m
    ensures Space(m, root, t') && Grow(old(m.mem), t, old(m.free), m.mem, t', m.free)
    ensures SameLookups(old(m.mem), t, m.mem, t')
    ensures pml1 != 0 ==> Path(1, v) in t' && pml1 == t'[Path(1, v)]
    ensures pml1 == 0 ==> Path(1, v) !in t' && (alloc ==> m.free == [])
    ensures Strays(t, t', TablesFor(v, v + 1)) == {}
    ensures !alloc ==> t' == t && m.mem == old(m.mem) && m.free == old(m.free)
    decreases level
  {
    if level == 1 {
      NoneNew(t, TablesFor(v, v + 1));
      return table, t;
    }
    var child;
    child, t' := GetTable(m, root, t, level, table, v, alloc);
    if child == 0 {
      NoTable(m.mem, root, t', level - 1, v);
      return 0, t';
    }
    ghost var mem1, t1, free1 := m.mem, t', m.free;
    pml1, t' := WalkFrom(m, root, t1, level - 1, child, v, alloc);
    GrowTrans(old(m.mem), t, old(m.free), mem1, t1, free1, m.mem, t', m.free);
    StraysTrans(t, t1, t', TablesFor(v, v + 1), TablesFor(v, v + 1), TablesFor(v, v + 1));
  }

  /** walkpml4: the level-1 table that holds the entry of page `v`; 0 if absent or out of memory. */
  method Walk(m: Machine, root: nat, ghost t: Tabs, v: nat, alloc: bool) returns (pml1: nat, ghost t': Tabs)
    requires Space(m, root, t) && v < PAGES
    modifies m
    ensures Space(m, root, t') && Grow(old(m.mem), t, old(m.free), m.mem, t', m.free)
    ensures SameLookups(old(m.mem), t, m.mem, t')
    ensures pml1 != 0 ==> Path(1, v) in t' && pml1 == t'[Path(1, v)]
    ensures pml1 == 0 ==> Path(1, v) !in t' && (alloc ==> m.free == [])
    ensures Strays(t, t', TablesFor(v, v + 1)) == {}
    ensures !alloc ==> t' == t && m.mem == old(m.mem) && m.free == old(m.free)
  {
    PathRoot(v);
    pml1, t' := WalkFrom(m, root, t, 4, root, v, alloc);
  }

  /** The pages [lo, hi) now map consecutive frames from `f0`; the rest is as before. */
  ghost predicate Mapped(mem: seq<Page>, t: Tabs, mem': seq<Page>, t': Tabs, lo: nat, hi: nat, f0: nat, perm: Perm)
    requires Tables(mem, t) && Tables(mem', t')
  {
    forall v :: 0 <= v < PAGES ==>
      Lookup(mem', t', v) == if lo <= v < hi then Pte(f0 + v - lo, perm) else Lookup(mem, t, v)
  }

  /** Write the entry of page `v` in its level-1 table. */
  method SetPte(m: Machine, root: nat, ghost t: Tabs, pml1: nat, v: nat, w: Word)
    requires Space(m, root, t) && v < PAGES && Path(1, v) in t && pml1 == t[Path(1, v)]
    modifies m
    ensures Space(m, root, t) && m.free == old(m.free) && Grow(old(m.mem), t, m.free, m.mem, t, m.free)
    ensures forall u :: 0 <= u < PAGES ==> Lookup(m.mem, t, u) == if u == v then w else Lookup(old(m.mem), t, u)
  {
    SetLeaf(m.mem, root, t, v, w);
    m.SetEntry(pml1, X(1, v), w);
    assert pml1 in t.Values;
  }

  /** Set the entry of page `v`, creating tables on the way. */
  method MapPage(m: Machine, root: nat, ghost t: Tabs, v: nat, frame: nat, perm: Perm)
    returns (ok: bool, ghost t': Tabs)
    requires Space(m, root, t) && v < PAGES && !Present(Lookup(m.mem, t, v))
    modifies m
    ensures Space(m, root, t') && Grow(old(m.mem), t, old(m.free), m.mem, t', m.free)
    ensures Mapped(old(m.mem), t, m.mem, t', v, if ok then v + 1 else v, frame, perm)
    ensures Strays(t, t', TablesFor(v, v + 1)) == {}
    ensures !ok ==> m.free == [] && Leaf(t', v) == 0
  {
    var pml1;
    pml1, t' := Walk(m, root, t, v, true);
    ok := pml1 != 0;
    if ok {
      ghost var mem1 := m.mem;
      assert !Present(m.Entry(pml1, X(1, v)));
      SetPte(m, root, t', pml1, v, Pte(frame, perm));
      GrowTrans(old(m.mem), t, old(m.free), mem1, t', m.free, m.mem, t', m.free);
    }
  }

  /** Pages that a byte range of positive size touches. */
  function Touched(va: nat, size: nat): nat
    requires size > 0
  {
    (va + size - 1) / PGSIZE - va / PGSIZE + 1
  }

  lemma MappedStep(mem: seq<Page>, t: Tabs, mem1: seq<Page>, t1: Tabs, mem2: seq<Page>, t2: Tabs,
                   lo: nat, v: nat, hi: nat, f0: nat, f: nat, perm: Perm)
    requires Tables(mem, t) && Tables(mem1, t1) && Tables(mem2, t2) && lo <= v <= hi && f == f0 + v - lo
    requires Mapped(mem, t, mem1, t1, lo, v, f0, perm) && Mapped(mem1, t1, mem2, t2, v, hi, f, perm)
    ensures Mapped(mem, t, mem2, t2, lo, hi, f0, perm)
  {
  }

  /** One turn of mappages' loop, which started from `mem0`, `t0` and `free0`. */
  method MapNext(m: Machine, root: nat, ghost t: Tabs, a: nat, f: nat, perm: Perm,
                 ghost mem0: seq<Page>, ghost t0: Tabs, ghost free0: seq<nat>, ghost v0: nat, ghost last: nat,
                   ghost f0: nat)
    returns (ok: bool, ghost t': Tabs)
    requires Space(m, root, t) && v0 <= a <= last < PAGES && f == f0 + a - v0
    requires Tables(mem0, t0) && !Present(Lookup(mem0, t0, a))
    requires Grow(mem0, t0, free0, m.mem, t, m.free) && Mapped(mem0, t0, m.mem, t, v0, a, f0, perm)
    requires Strays(t0, t, TablesFor(v0, last + 1)) == {}
    modifies m
    ensures Space(m, root, t') && Grow(mem0, t0, free0, m.mem, t', m.free)
    ensures Mapped(mem0, t0, m.mem, t', v0, if ok then a + 1 else a, f0, perm)
    ensures Strays(t0, t', TablesFor(v0, last + 1)) == {}
    ensures !ok ==> m.free == [] && Leaf(t', a) == 0
  {
    ok, t' := MapPage(m, root, t, a, f, perm);
    GrowTrans(mem0, t0, free0, old(m.mem), t, old(m.free), m.mem, t', m.free);
    MappedStep(mem0, t0, old(m.mem), t, m.mem, t', v0, a, if ok then a + 1 else a, f0, f, perm);
    TablesForPart(v0, a, a + 1, last + 1);
    StraysTrans(t0, t, t', TablesFor(v0, last + 1), TablesFor(a, a + 1), TablesFor(v0, last + 1));
  }

  /**
   The loop of mappages, counting pages: from page `v0` to page `last`, with frames from `f0`.
   It has mapped the pages before `stop`.
   */
  method MapRun(m: Machine, root: nat, ghost t: Tabs, v0: nat, last: nat, f0: nat, perm: Perm)
    returns (ok: bool, ghost t': Tabs, ghost stop: nat)
    requires Space(m, root, t) && v0 <= last < PAGES
    requires forall v :: v0 <= v <= last ==> !Present(Lookup(m.mem, t, v))
    modifies m
    ensures Space(m, root, t') && Grow(old(m.mem), t, old(m.free), m.mem, t', m.free)
    ensures v0 <= stop && Mapped(old(m.mem), t, m.mem, t', v0, stop, f0, perm)
    ensures if ok then stop == last + 1 else stop <= last && m.free == [] && Leaf(t', stop) == 0
    ensures Strays(t, t', TablesFor(v0, last + 1)) == {}
  {
    var a, f := v0, f0;
    t', stop, ok := t, v0, true;
    NoneNew(t, TablesFor(v0, last + 1));
    while true
      invariant v0 <= a <= last && f == f0 + a - v0
      invariant Space(m, root, t') && Grow(old(m.mem), t, old(m.free), m.mem, t', m.free)
      invariant Mapped(old(m.mem), t, m.mem, t', v0, a, f0, perm)
      invariant Strays(t, t', TablesFor(v0, last + 1)) == {}
      decreases last - a
    {
      ok, t' := MapNext(m, root, t', a, f, perm, old(m.mem), t, old(m.free), v0, last, f0);
      stop := if ok then a + 1 else a;
      if !ok || a == last {
        return;
      }
      a := a + 1;
      f := f + 1;
    }
  }

  /**
   mappages: map the pages that [va, va + size) touches to consecutive frames from `pa`.
   When memory runs out, the pages before `stop` are mapped, and `stop` has no table.
   */
  method MapPages(m: Machine, root: nat, ghost t: Tabs, va: nat, size: nat, pa: nat, perm: Perm)
    returns (ok: bool, ghost t': Tabs, ghost stop: nat)
    requires Space(m, root, t) && size > 0 && pa % PGSIZE == 0
    requires Vpn(va) + Touched(va, size) <= PAGES
    requires forall v :: Vpn(va) <= v < Vpn(va) + Touched(va, size) ==> !Present(Lookup(m.mem, t, v))
    modifies m
    ensures Space(m, root, t') && Grow(old(m.mem), t, old(m.free), m.mem, t', m.free)
    ensures Vpn(va) <= stop && Mapped(old(m.mem), t, m.mem, t', Vpn(va), stop, pa / PGSIZE, perm)
    ensures if ok then stop == Vpn(va) + Touched(va, size)
            else stop < Vpn(va) + Touched(va, size) && m.free == [] && Leaf(t', stop) == 0
    ensures Strays(t, t', TablesFor(Vpn(va), Vpn(va) + Touched(va, size))) == {}
  {
    LastPage(va, size);
    ok, t', stop := MapRun(m, root, t, Vpn(RoundDown(va)), Vpn(RoundDown(va + size - 1)), pa / PGSIZE, perm);
  }

  lemma LastPage(va: nat, size: nat)
    requires size > 0 && Vpn(va) + Touched(va, size) <= PAGES
    ensures Vpn(RoundDown(va)) == Vpn(va)
    ensures Vpn(RoundDown(va + size - 1)) == Vpn(va) + Touched(va, size) - 1
  {
    assert RoundDown(va) / PGSIZE == va / PGSIZE;
    var n := Touched(va, size) - 1;
    assert RoundDown(va + size - 1) / PGSIZE == va / PGSIZE + n;
    assert (va / PGSIZE + n) % PAGES == va / PGSIZE % PAGES + n;
  }
}
