/**
 Four-level page tables as a flat map from page number to entry.

 A table is named by its level and by the page-number prefix it serves; entry `i` of
 the table (l, p) belongs to the child (l - 1, 512 p + i).  The children at level 0
 are the pages themselves.
 */
module PageTable {
  import opened Memory

  datatype Key = Key(level: nat, prefix: nat)

  /** The table frames of one address space. */
  type Tabs = map<Key, nat>

  const ROOT: Key := Key(4, 0)

  /** Pages of a 48-bit address space, and of its user half. */
  const PAGES: nat := 0x10_0000_0000
  const USER_PAGES: nat := 0x8_0000_0000

  /** The page number `v` without its last `l` 9-bit indices. */
  function P(l: nat, v: nat): nat {
    if l == 0 then v else P(l - 1, v) / NR_PTE
  }

  /** Index into the level-`l` table on the path to page `v`: PML1X .. PML4X. */
  function X(l: nat, v: nat): (i: nat)
    requires l >= 1
    ensures i < NR_PTE
  {
    P(l - 1, v) % NR_PTE
  }

  function Path(l: nat, v: nat): Key {
    Key(l, P(l, v))
  }

  function Up(k: Key): Key {
    Key(k.level + 1, k.prefix / NR_PTE)
  }

  function Child(k: Key, i: nat): (c: Key)
    requires k.level >= 1
  {
    Key(k.level - 1, k.prefix * NR_PTE + i)
  }

  lemma ChildUp(k: Key, i: nat)
    requires k.level >= 1 && i < NR_PTE
    ensures Up(Child(k, i)) == k && Child(k, i).prefix % NR_PTE == i
  {
  }

  lemma PathStep(l: nat, v: nat)
    requires l >= 1
    ensures Child(Path(l, v), X(l, v)) == Path(l - 1, v)
    ensures Up(Path(l - 1, v)) == Path(l, v)
  {
  }

  lemma PathRoot(v: nat)
    requires v < PAGES
    ensures Path(4, v) == ROOT
  {
    assert P(1, v) < 0x800_0000;
    assert P(2, v) < 0x4_0000;
    assert P(3, v) < 0x200;
    assert P(4, v) == P(3, v) / NR_PTE;
  }

  ghost predicate Tables(mem: seq<Page>, t: Tabs) {
    && (forall k :: k in t ==> 1 <= k.level <= 4 && 0 < t[k] < |mem| && |mem[t[k]]| == NR_PTE)
    && (forall j, k :: j in t && k in t && j != k ==> t[j] != t[k])
  }

  /** An entry of an inner table is present exactly when the child table exists, and points to it. */
  ghost predicate Linked(mem: seq<Page>, t: Tabs)
    requires Tables(mem, t)
  {
    forall k, i :: k in t && k.level >= 2 && 0 <= i < NR_PTE ==>
      && (Present(mem[t[k]][i]) <==> Child(k, i) in t)
      && (Child(k, i) in t ==> mem[t[k]][i].frame == t[Child(k, i)])
  }

  ghost predicate WellFormed(mem: seq<Page>, root: nat, t: Tabs) {
    && ROOT in t && t[ROOT] == root
    && Tables(mem, t)
    && (forall k :: k in t && k.level == 4 ==> k == ROOT)
    && (forall k :: k in t && k.level < 4 ==> Up(k) in t)
    && Linked(mem, t)
  }

  /** The flat map: the entry of page `v`, zero where no table serves it. */
  ghost function Lookup(mem: seq<Page>, t: Tabs, v: nat): Word
    requires Tables(mem, t)
  {
    if Path(1, v) in t then mem[t[Path(1, v)]][v % NR_PTE] else ZERO
  }

  ghost predicate SameLookups(mem: seq<Page>, t: Tabs, mem': seq<Page>, t': Tabs)
    requires Tables(mem, t) && Tables(mem', t')
  {
    forall v :: 0 <= v < PAGES ==> Lookup(mem', t', v) == Lookup(mem, t, v)
  }

  /** The table on the path exists iff the entry above it is present; then the entry holds its frame. */
  lemma Descend(mem: seq<Page>, root: nat, t: Tabs, l: nat, v: nat)
    requires WellFormed(mem, root, t) && 2 <= l <= 4 && Path(l, v) in t
    ensures var e := mem[t[Path(l, v)]][X(l, v)];
            && (Present(e) <==> Path(l - 1, v) in t)
            && (Path(l - 1, v) in t ==> e.frame == t[Path(l - 1, v)])
  {
    PathStep(l, v);
  }

  /** A missing table on the path means that nothing below it exists. */
  lemma {:induction false} NoTable(mem: seq<Page>, root: nat, t: Tabs, l: nat, v: nat)
    requires WellFormed(mem, root, t) && 1 <= l <= 4 && Path(l, v) !in t
    ensures Path(1, v) !in t
  {
    if l > 1 {
      PathStep(l, v);
      NoTable(mem, root, t, l - 1, v);
    }
  }

  /** The level-1 table that serves page `v`, 0 if there is none. */
  ghost function Leaf(t: Tabs, v: nat): nat {
    if Path(1, v) in t then t[Path(1, v)] else 0
  }

  /** The tables below the root on the paths to the pages [lo, hi). */
  ghost function TablesFor(lo: nat, hi: nat): set<Key> {
    set l: nat, v: nat | 1 <= l <= 3 && lo <= v < hi :: Path(l, v)
  }

  lemma TablesForPart(lo: nat, a: nat, b: nat, hi: nat)
    requires lo <= a && b <= hi
    ensures TablesFor(a, b) <= TablesFor(lo, hi)
  {
  }

  /** New tables that are none of `ks`. */
  ghost function Strays(t: Tabs, t': Tabs, ks: set<Key>): set<Key> {
    set k | k in t' && k !in t && k !in ks
  }

  lemma NoneNew(t: Tabs, ks: set<Key>)
    ensures Strays(t, t, ks) == {}
  {
  }

  lemma OneNew(t: Tabs, l: nat, v: nat, f: nat)
    requires 1 <= l <= 3
    ensures Strays(t, t[Path(l, v) := f], TablesFor(v, v + 1)) == {}
  {
    assert Path(l, v) in TablesFor(v, v + 1);
  }

  lemma StraysTrans(t: Tabs, t1: Tabs, t2: Tabs, some: set<Key>, more: set<Key>, ks: set<Key>)
    requires Strays(t, t1, some) == {} && Strays(t1, t2, more) == {} && some <= ks && more <= ks
    ensures Strays(t, t2, ks) == {}
  {
    forall k | k in t2 && k !in t ensures k in ks {
      assert k !in Strays(t, t1, some) && k !in Strays(t1, t2, more);
    }
  }

  /** Changing memory outside the tables changes nothing. */
  lemma TablesUntouched(mem: seq<Page>, root: nat, t: Tabs, mem': seq<Page>)
    requires WellFormed(mem, root, t) && |mem'| >= |mem|
    requires forall k :: k in t ==> mem'[t[k]] == mem[t[k]]
    ensures WellFormed(mem', root, t) && SameLookups(mem, t, mem', t)
  {
    forall k, i | k in t && k.level >= 2 && 0 <= i < NR_PTE
      ensures && (Present(mem'[t[k]][i]) <==> Child(k, i) in t)
              && (Child(k, i) in t ==> mem'[t[k]][i].frame == t[Child(k, i)])
    {
      assert mem'[t[k]][i] == mem[t[k]][i];
    }
  }

  /** Hanging a zeroed table under an absent entry changes no mapping. */
  lemma AddTable(mem: seq<Page>, root: nat, t: Tabs, k: Key, i: nat, f: nat)
    requires WellFormed(mem, root, t) && k in t && k.level >= 2 && i < NR_PTE
    requires Child(k, i) !in t && 0 < f < |mem| && f !in t.Values
    ensures var mem' := mem[f := ZERO_PAGE][t[k] := mem[t[k]][i := Word(7, f, 0)]];
            var t' := t[Child(k, i) := f];
            WellFormed(mem', root, t') && SameLookups(mem, t, mem', t')
  {
    ChildUp(k, i);
    assert forall j :: j in t ==> t[j] in t.Values;
    AddedLinks(mem, t, k, i, f);
    AddedLookups(mem, t, k, i, f);
  }

  lemma AddedLookups(mem: seq<Page>, t: Tabs, k: Key, i: nat, f: nat)
    requires Tables(mem, t) && k in t && k.level >= 2 && i < NR_PTE
    requires Child(k, i) !in t && 0 < f < |mem| && forall j :: j in t ==> t[j] != f
    ensures var mem' := mem[f := ZERO_PAGE][t[k] := mem[t[k]][i := Word(7, f, 0)]];
            var t' := t[Child(k, i) := f];
            Tables(mem', t') && SameLookups(mem, t, mem', t')
  {
    var c := Child(k, i);
    var mem' := mem[f := ZERO_PAGE][t[k] := mem[t[k]][i := Word(7, f, 0)]];
    var t' := t[c := f];
    forall v | 0 <= v < PAGES ensures Lookup(mem', t', v) == Lookup(mem, t, v) {
      var p := Path(1, v);
      if p == c {
        assert mem'[t'[p]] == ZERO_PAGE;
      } else if p in t {
        assert mem'[t'[p]] == mem[t[p]];
      }
    }
  }

  lemma AddedLinks(mem: seq<Page>, t: Tabs, k: Key, i: nat, f: nat)
    requires Tables(mem, t) && Linked(mem, t) && k in t && k.level >= 2 && i < NR_PTE
    requires Child(k, i) !in t && 0 < f < |mem| && forall j :: j in t ==> t[j] != f
    requires forall j :: j in t && j.level < 4 ==> Up(j) in t
    ensures var mem' := mem[f := ZERO_PAGE][t[k] := mem[t[k]][i := Word(7, f, 0)]];
            var t' := t[Child(k, i) := f];
            Tables(mem', t') && Linked(mem', t')
  {
    var c := Child(k, i);
    var mem' := mem[f := ZERO_PAGE][t[k] := mem[t[k]][i := Word(7, f, 0)]];
    var t' := t[c := f];
    forall j, n | j in t' && j.level >= 2 && 0 <= n < NR_PTE
      ensures && (Present(mem'[t'[j]][n]) <==> Child(j, n) in t')
              && (Child(j, n) in t' ==> mem'[t'[j]][n].frame == t'[Child(j, n)])
    {
      ChildUp(j, n);
      ChildUp(k, i);
      if j == c {
        assert Up(Child(c, n)) == c;
      } else if j == k && n == i {
      } else {
        assert Child(j, n) != c;
        assert mem'[t'[j]][n] == mem[t[j]][n];
      }
    }
  }

  /** Writing the entry of one page changes that page's entry only. */
  lemma SetLeaf(mem: seq<Page>, root: nat, t: Tabs, v: nat, w: Word)
    requires WellFormed(mem, root, t) && v < PAGES && Path(1, v) in t
    ensures var f := t[Path(1, v)];
            var mem' := mem[f := mem[f][v % NR_PTE := w]];
            && WellFormed(mem', root, t)
            && (forall u :: 0 <= u < PAGES ==> Lookup(mem', t, u) == if u == v then w else Lookup(mem, t, u))
  {
    var f := t[Path(1, v)];
    var mem' := mem[f := mem[f][v % NR_PTE := w]];
    forall k, i | k in t && k.level >= 2 && 0 <= i < NR_PTE
      ensures && (Present(mem'[t[k]][i]) <==> Child(k, i) in t)
              && (Child(k, i) in t ==> mem'[t[k]][i].frame == t[Child(k, i)])
    {
      assert mem'[t[k]][i] == mem[t[k]][i];
    }
    forall u | 0 <= u < PAGES ensures Lookup(mem', t, u) == if u == v then w else Lookup(mem, t, u) {
      if Path(1, u) == Path(1, v) && u != v {
        assert P(1, u) == u / NR_PTE && P(1, v) == v / NR_PTE;
        assert u % NR_PTE != v % NR_PTE;
      }
    }
  }
}
