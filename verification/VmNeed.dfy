/**
 How many free pages the growth of an address space takes (vm.c): a frame for each page and
 the tables on their paths that are not there yet.
 */
module VmNeed {
  import opened Memory
  import opened PageTable
  import opened SetSizes
  import opened Vm
  import opened VmFree

  ghost function Missing(t: Tabs, ks: set<Key>): set<Key> {
    ks - t.Keys
  }

  /** The free pages that mapping the pages [lo, hi) takes. */
  ghost function Need(t: Tabs, lo: nat, hi: nat): nat
    requires lo <= hi
  {
    hi - lo + |Missing(t, TablesFor(lo, hi))|
  }

  ghost predicate TooFew(t: Tabs, free: seq<nat>, lo: nat, hi: nat) {
    lo <= hi && |free| < Need(t, lo, hi)
  }

  // ---- Counting tables ---------------------------------------------------------------------

  /** With the last table on a path, all of them exist. */
  lemma {:induction false} WholePath(mem: seq<Page>, root: nat, t: Tabs, l: nat, v: nat)
    requires WellFormed(mem, root, t) && 1 <= l <= 4 && Path(1, v) in t
    ensures Path(l, v) in t
  {
    if l > 1 {
      WholePath(mem, root, t, l - 1, v);
      PathStep(l, v);
    }
  }

  lemma ServedPaths(mem: seq<Page>, root: nat, t: Tabs, lo: nat, hi: nat)
    requires WellFormed(mem, root, t) && forall v :: lo <= v < hi ==> Path(1, v) in t
    ensures forall k :: k in TablesFor(lo, hi) ==> k in t
  {
    forall k | k in TablesFor(lo, hi) ensures k in t {
      var l: nat, v: nat :| 1 <= l <= 3 && lo <= v < hi && k == Path(l, v);
      WholePath(mem, root, t, l, v);
    }
  }

  lemma NoLeaf(t: Tabs, v: nat)
    requires Leaf(t, v) == 0 && forall k :: k in t ==> t[k] > 0
    ensures Path(1, v) !in t
  {
  }

  lemma AllAdded(t: Tabs, t': Tabs, ks: set<Key>)
    requires (forall k :: k in t ==> k in t') && Strays(t, t', ks) == {} && forall k :: k in ks ==> k in t'
    ensures t'.Keys == t.Keys + ks
  {
    assert forall k :: k in t' ==> k in t || k in ks || k in Strays(t, t', ks);
  }

  /** New tables out of `ks` are no more than the missing ones, and as many only if none is missing. */
  lemma TablesAdded(t: Tabs, t': Tabs, ks: set<Key>)
    requires (forall k :: k in t ==> k in t') && Strays(t, t', ks) == {}
    ensures |t'| <= |t| + |Missing(t, ks)|
    ensures |t'| == |t| + |Missing(t, ks)| <==> forall k :: k in ks ==> k in t'
  {
    var all := t.Keys + Missing(t, ks);
    assert |t| == |t.Keys| && |t'| == |t'.Keys|;
    assert |all| == |t| + |Missing(t, ks)|;
    assert forall k :: k in t' ==> k in t || k in ks || k in Strays(t, t', ks);
    SubsetSize(t'.Keys, all);
    if forall k :: k in ks ==> k in t' {
      assert t'.Keys == all;
    } else {
      var k :| k in ks && k !in t';
      assert k in all;
    }
  }

  // ---- Counting pages ------------------------------------------------------------------------

  /** Pages on a free list and tables, each counted once. */
  ghost predicate Apart(free: seq<nat>, t: Tabs) {
    && NoRepeats(free)
    && (forall j, k :: j in t && k in t && j != k ==> t[j] != t[k])
    && (forall k :: k in t ==> t[k] !in free)
  }

  lemma {:induction false} ValuesSize(t: Tabs)
    requires forall j, k :: j in t && k in t && j != k ==> t[j] != t[k]
    ensures |t.Values| == |t|
    decreases |t|
  {
    if t == map[] {
      assert t.Values == {};
    } else {
      var k :| k in t;
      var rest := t - {k};
      assert t == rest[k := t[k]];
      ValuesSize(rest);
      ValuesOfUpdate(rest, k, t[k]);
      assert t.Values == rest.Values + {t[k]};
    }
  }

  lemma UnionSize(a: set<nat>, b: set<nat>, a': set<nat>, b': set<nat>)
    requires a !! b && a' !! b' && forall x :: (x in a || x in b) <==> (x in a' || x in b')
    ensures |a| + |b| == |a'| + |b'|
  {
    assert |a + b| == |a| + |b| && |a' + b'| == |a'| + |b'|;
    assert a + b == a' + b';
  }

  lemma ApartSize(free: seq<nat>, t: Tabs)
    requires Apart(free, t)
    ensures Members(free) !! t.Values && |Members(free)| == |free| && |t.Values| == |t|
  {
    MembersSize(free);
    ValuesSize(t);
  }

  /** Conserved as sets, free pages and tables are conserved in number. */
  lemma SameCount(free: seq<nat>, t: Tabs, free': seq<nat>, t': Tabs)
    requires Apart(free, t) && Apart(free', t')
    requires forall x :: (x in free || x in t.Values) <==> (x in free' || x in t'.Values)
    ensures |free| + |t| == |free'| + |t'|
  {
    ApartSize(free, t);
    ApartSize(free', t');
    UnionSize(Members(free), t.Values, Members(free'), t'.Values);
  }

  lemma {:induction false} NaiveLength(mem: seq<Page>, t: Tabs, free: seq<nat>, lo: nat, hi: nat)
    requires Tables(mem, t) && lo <= hi
    ensures |Naive(mem, t, free, lo, hi)| <= |free| + hi - lo
    ensures (forall v :: lo <= v < hi ==> Present(Lookup(mem, t, v))) ==>
              |Naive(mem, t, free, lo, hi)| == |free| + hi - lo
    decreases hi
  {
    if lo < hi {
      NaiveLength(mem, t, free, lo, hi - 1);
      assert (forall v :: lo <= v < hi ==> Present(Lookup(mem, t, v))) ==> Present(Lookup(mem, t, hi - 1));
    }
  }

  /** Counting the frames of owned pages among the free pages keeps all apart. */
  lemma {:induction false} NaiveApart(mem: seq<Page>, t: Tabs, free: seq<nat>, lo: nat, hi: nat)
    requires Tables(mem, t) && Apart(free, t) && Owned(mem, t, free, lo, hi)
    ensures Apart(Naive(mem, t, free, lo, hi), t)
    decreases hi
  {
    if lo < hi {
      NaiveApart(mem, t, free, lo, hi - 1);
      NaiveMembers(mem, t, free, lo, hi - 1);
      var e := Lookup(mem, t, hi - 1);
      if Present(e) {
        assert e.frame !in Naive(mem, t, free, lo, hi - 1);
      }
    }
  }

  // ---- Enough, or too few ----------------------------------------------------------------------

  /** Every page has its frame and its tables: there were enough. */
  lemma Enough(t0: Tabs, free0: seq<nat>, mem: seq<Page>, root: nat, t: Tabs, free: seq<nat>, lo: nat, hi: nat)
    requires WellFormed(mem, root, t) && lo <= hi <= PAGES && Strays(t0, t, TablesFor(lo, hi)) == {}
    requires forall k :: k in t0 ==> k in t
    requires forall u :: lo <= u < hi ==> Present(Lookup(mem, t, u))
    requires |free0| + |t0| == |free| + |t| && |free| >= hi - lo
    ensures !TooFew(t0, free0, lo, hi)
  {
    forall u | lo <= u < hi ensures Path(1, u) in t {
      assert Present(Lookup(mem, t, u));
    }
    ServedPaths(mem, root, t, lo, hi);
    TablesAdded(t0, t, TablesFor(lo, hi));
  }

  /** All free pages have become frames or tables, and a frame or a table is still to be had. */
  lemma NotEnough(t0: Tabs, free0: seq<nat>, t: Tabs, frames: nat, lo: nat, v: nat, hi: nat)
    requires lo <= v < hi && (forall k :: k in t ==> t[k] > 0) && Strays(t0, t, TablesFor(lo, hi)) == {}
    requires forall k :: k in t0 ==> k in t
    requires |free0| + |t0| == frames + |t|
    requires frames <= v - lo || (frames == v - lo + 1 && Leaf(t, v) == 0)
    ensures TooFew(t0, free0, lo, hi)
  {
    TablesAdded(t0, t, TablesFor(lo, hi));
    assert Path(1, v) in TablesFor(lo, hi);
    if frames == v - lo + 1 {
      NoLeaf(t, v);
    }
  }
}
