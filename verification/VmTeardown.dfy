/** Freeing the tables of an address space (vm.c): free_pml2..4 and freevm. */
module VmTeardown {
  import opened Memory
  import opened PageTable
  import opened Vm
  import opened VmFree

  /** The ancestor of a key at level `l`. */
  function Anc(k: Key, l: nat): (a: Key)
    ensures k.level <= l ==> a.level == l
    decreases l - k.level
  {
    if k.level >= l then k else Anc(Up(k), l)
  }

  ghost predicate Under(k: Key, top: Key) {
    k.level <= top.level && Anc(k, top.level) == top
  }

  /** Strictly below `top`, through one of its first `i` entries. */
  ghost predicate Before(k: Key, top: Key, i: nat) {
    && 1 <= top.level && k.level < top.level && Anc(k, top.level) == top
    && Anc(k, top.level - 1).prefix % NR_PTE < i
  }

  lemma {:induction false} AncUp(k: Key, l: nat)
    requires k.level < l
    ensures Anc(k, l) == Up(Anc(k, l - 1))
    decreases l - k.level
  {
    if k.level + 1 < l {
      AncUp(Up(k), l);
    }
  }

  /** The keys below entry `i` are the ones below the child it belongs to. */
  lemma BeforeStep(k: Key, top: Key, i: nat)
    requires 1 <= top.level && i < NR_PTE
    ensures Before(k, top, i + 1) <==> Before(k, top, i) || Under(k, Child(top, i))
  {
    ChildUp(top, i);
    if k.level < top.level {
      AncUp(k, top.level);
      var a := Anc(k, top.level - 1);
      assert a.level == top.level - 1;
      if a.prefix % NR_PTE == i && Up(a) == top {
        assert a == Child(top, i);
      }
    }
  }

  lemma BeforeAll(k: Key, top: Key)
    requires 1 <= top.level
    ensures Under(k, top) <==> k == top || Before(k, top, NR_PTE)
  {
  }

  ghost predicate UpClosed(t: Tabs) {
    forall k :: k in t && k.level < 4 ==> Up(k) in t
  }

  lemma {:induction false} NothingUnder(t: Tabs, k: Key, top: Key)
    requires UpClosed(t) && k in t && top.level <= 4 && Under(k, top)
    ensures top in t
    decreases top.level - k.level
  {
    if k.level < top.level {
      NothingUnder(t, Up(k), top);
    }
  }

  /** A frame of a table below `top`, through one of its first `i` entries. */
  ghost predicate Doomed(t: Tabs, top: Key, i: nat, f: nat) {
    exists k :: k in t && Before(k, top, i) && t[k] == f
  }

  ghost predicate DoomedUnder(t: Tabs, top: Key, f: nat) {
    exists k :: k in t && Under(k, top) && t[k] == f
  }

  lemma DoomedStep(t: Tabs, top: Key, i: nat)
    requires 1 <= top.level <= 4 && i < NR_PTE
    ensures forall f :: Doomed(t, top, i + 1, f) <==> Doomed(t, top, i, f) || DoomedUnder(t, Child(top, i), f)
  {
    forall k ensures Before(k, top, i + 1) <==> Before(k, top, i) || Under(k, Child(top, i)) {
      BeforeStep(k, top, i);
    }
  }

  lemma DoomedNone(t: Tabs, top: Key)
    requires UpClosed(t) && top !in t && top.level <= 4
    ensures forall f :: !DoomedUnder(t, top, f)
  {
    forall k | k in t && Under(k, top) ensures false {
      NothingUnder(t, k, top);
    }
  }

  lemma DoomedAll(t: Tabs, top: Key)
    requires 1 <= top.level <= 4 && top in t
    ensures forall f :: DoomedUnder(t, top, f) <==> f == t[top] || Doomed(t, top, NR_PTE, f)
  {
    forall k ensures Under(k, top) <==> k == top || Before(k, top, NR_PTE) {
      BeforeAll(k, top);
    }
  }

  lemma DoomedLeaf(t: Tabs, top: Key)
    requires top in t && top.level == 1 && forall k :: k in t ==> k.level >= 1
    ensures forall f :: DoomedUnder(t, top, f) <==> f == t[top]
  {
    assert Under(top, top);
  }

  /** Different subtrees hold different tables. */
  lemma SubtreesApart(mem: seq<Page>, t: Tabs, top: Key, i: nat, k: Key)
    requires Tables(mem, t) && 1 <= top.level <= 4 && i < NR_PTE && k in t
    requires k == top || Under(k, Child(top, i))
    ensures !Doomed(t, top, i, t[k])
  {
    ChildUp(top, i);
    assert !Before(k, top, i);
  }

  /** Entry by entry, a table that still has its content agrees with `t` about its children. */
  ghost predicate LinkedUnder(mem: seq<Page>, t: Tabs, top: Key)
    requires Tables(mem, t)
  {
    forall k, i :: k in t && Under(k, top) && k.level >= 2 && 0 <= i < NR_PTE ==>
      && (Present(mem[t[k]][i]) <==> Child(k, i) in t)
      && (Child(k, i) in t ==> mem[t[k]][i].frame == t[Child(k, i)])
  }

  ghost predicate NoneFreed(t: Tabs, top: Key, free: seq<nat>) {
    forall k :: k in t && Under(k, top) ==> t[k] !in free
  }

  /** The state after the subtrees of the first `i` entries of `top` are gone. */
  ghost predicate Falling(mem: seq<Page>, t: Tabs, free: seq<nat>, mem': seq<Page>, free': seq<nat>, top: Key, i: nat) {
    && |mem'| == |mem|
    && (forall f :: f in free' <==> f in free || Doomed(t, top, i, f))
    && (forall f :: 0 <= f < |mem| && !Doomed(t, top, i, f) ==> mem'[f] == mem[f])
  }

  ghost predicate FreedUnder(mem: seq<Page>, t: Tabs, free: seq<nat>, mem': seq<Page>, free': seq<nat>, top: Key) {
    && |mem'| == |mem|
    && (forall f :: f in free' <==> f in free || DoomedUnder(t, top, f))
    && (forall f :: 0 <= f < |mem| && !DoomedUnder(t, top, f) ==> mem'[f] == mem[f])
  }

  lemma FallingStep(mem: seq<Page>, t: Tabs, free: seq<nat>, mem1: seq<Page>, free1: seq<nat>,
                    mem2: seq<Page>, free2: seq<nat>, top: Key, i: nat)
    requires 1 <= top.level <= 4 && i < NR_PTE
    requires Falling(mem, t, free, mem1, free1, top, i) && FreedUnder(mem1, t, free1, mem2, free2, Child(top, i))
    ensures Falling(mem, t, free, mem2, free2, top, i + 1)
  {
    DoomedStep(t, top, i);
  }

  /** After the first subtrees are gone, the next one is intact. */
  lemma NextIntact(mem: seq<Page>, t: Tabs, free: seq<nat>, mem1: seq<Page>, free1: seq<nat>, top: Key, i: nat)
    requires Tables(mem, t) && Tables(mem1, t) && 2 <= top.level <= 4 && i < NR_PTE && top in t
    requires Falling(mem, t, free, mem1, free1, top, i)
    requires LinkedUnder(mem, t, top) && NoneFreed(t, top, free)
    ensures mem1[t[top]] == mem[t[top]] && t[top] !in free1
    ensures LinkedUnder(mem1, t, Child(top, i)) && NoneFreed(t, Child(top, i), free1)
  {
    SubtreesApart(mem, t, top, i, top);
    forall k | k in t && Under(k, Child(top, i)) ensures mem1[t[k]] == mem[t[k]] && t[k] !in free1 && Under(k, top) {
      SubtreesApart(mem, t, top, i, k);
      BeforeStep(k, top, i);
    }
  }

  /**
   free_pml2, free_pml3 and free_pml4: free every table below, then the table itself.  Each
   page is read before it is freed and never after.
   */
  method FreeTables(m: Machine, table: nat, ghost t: Tabs, level: nat, ghost top: Key)
    requires m.Valid() && Tables(m.mem, t) && UpClosed(t)
    requires top in t && 2 <= top.level == level && table == t[top]
    requires LinkedUnder(m.mem, t, top) && NoneFreed(t, top, m.free)
    modifies m
    ensures m.Valid() && FreedUnder(old(m.mem), t, old(m.free), m.mem, m.free, top)
    decreases level
  {
    var i := 0;
    while i < NR_PTE
      invariant 0 <= i <= NR_PTE && m.Valid()
      invariant Falling(old(m.mem), t, old(m.free), m.mem, m.free, top, i)
    {
      ghost var mem1, free1 := m.mem, m.free;
      NextIntact(old(m.mem), t, old(m.free), mem1, free1, top, i);
      FreeChild(m, table, t, level, top, i);
      FallingStep(old(m.mem), t, old(m.free), mem1, free1, m.mem, m.free, top, i);
      i := i + 1;
    }
    assert !Doomed(t, top, NR_PTE, table);
    assert Under(top, top);
    DoomedAll(t, top);
    m.Kfree(table);
  }

  /** The body of the loop: free the subtree of entry `i`, if there is one. */
  method FreeChild(m: Machine, table: nat, ghost t: Tabs, level: nat, ghost top: Key, i: nat)
    requires m.Valid() && Tables(m.mem, t) && UpClosed(t) && i < NR_PTE
    requires top in t && 2 <= top.level == level && table == t[top] && table !in m.free
    requires (Present(m.mem[table][i]) <==> Child(top, i) in t)
    requires Child(top, i) in t ==> m.mem[table][i].frame == t[Child(top, i)]
    requires LinkedUnder(m.mem, t, Child(top, i)) && NoneFreed(t, Child(top, i), m.free)
    modifies m
    ensures m.Valid() && FreedUnder(old(m.mem), t, old(m.free), m.mem, m.free, Child(top, i))
    decreases level, 0
  {
    ghost var c := Child(top, i);
    var e := m.Entry(table, i);
    if Present(e) {
      assert Under(c, c);
      if level == 2 {
        DoomedLeaf(t, c);
        m.Kfree(e.frame);
      } else {
        FreeTables(m, e.frame, t, level - 1, c);
      }
    } else {
      DoomedNone(t, c);
    }
  }

  lemma {:induction false} AncIsTable(t: Tabs, k: Key, l: nat)
    requires UpClosed(t) && k in t && k.level <= l <= 4
    ensures Anc(k, l) in t
    decreases l - k.level
  {
    if k.level < l {
      AncIsTable(t, Up(k), l);
    }
  }

  /** Every table hangs under the root. */
  lemma AllUnderRoot(mem: seq<Page>, root: nat, t: Tabs)
    requires WellFormed(mem, root, t)
    ensures forall f :: DoomedUnder(t, ROOT, f) <==> f in t.Values
  {
    forall k | k in t ensures Under(k, ROOT) {
      AncIsTable(t, k, 4);
    }
  }

  /** free_pml4: all tables and nothing else. */
  method FreePml4(m: Machine, root: nat, ghost t: Tabs)
    requires Space(m, root, t)
    modifies m
    ensures m.Valid() && |m.mem| == |old(m.mem)|
    ensures forall f :: f in m.free <==> f in old(m.free) || f in t.Values
    ensures forall f :: 0 <= f < |m.mem| && f !in t.Values ==> m.mem[f] == old(m.mem[f])
  {
    AllUnderRoot(m.mem, root, t);
    FreeTables(m, root, t, 4, ROOT);
  }

  /**
   freevm: free exactly the root, every table and every frame of the user half.  The free
   list has no repeats, so each is freed once; frames of the kernel half stay as they are.
   */
  method FreeVm(m: Machine, root: nat, ghost t: Tabs)
    requires Space(m, root, t) && Owned(m.mem, t, m.free, 0, USER_PAGES)
    modifies m
    ensures m.Valid() && |m.mem| == |old(m.mem)|
    ensures forall f :: f in m.free <==>
              f in old(m.free) || f in t.Values || FrameIn(old(m.mem), t, 0, USER_PAGES, f)
    ensures forall f :: 0 <= f < |m.mem| && f !in m.free ==> m.mem[f] == old(m.mem[f])
  {
    VpnOfSize(KERNBASE);
    var _ := DeallocUvm(m, root, t, KERNBASE, 0);
    NaiveMembers(old(m.mem), t, old(m.free), 0, USER_PAGES);
    FreePml4(m, root, t);
  }
}
