/**
 The Kernighan and Ritchie allocator (umalloc.c).

 Addresses count header-sized units.  A block at `a` with size `n` is the units
 [a, a + n), the first of which is its header.  Free blocks form a ring through their
 headers, in address order from `base`, which has size 0.
 */
module Umalloc {

  const HEADER: nat := 16  // sizeof(Header)
  const CHUNK: nat := 4096 // least number of units asked of sbrk

  /** One field of all headers in memory, by address. */
  type Field = map<int, int>

  function Get(m: Field, a: int): int {
    if a in m then m[a] else 0
  }

  datatype Block = Block(addr: int, units: int)

  predicate Apart(a: int, n: int, b: int, m: int) {
    a + n <= b || b + m <= a
  }

  /** The position after `i` in a ring of length `n`. */
  function Next(i: int, n: int): (j: int)
    requires 0 <= i < n
    ensures 0 <= j < n
  {
    if i + 1 == n then 0 else i + 1
  }

  ghost predicate Ascending(ring: seq<int>) {
    forall i, j :: 0 <= i < j < |ring| ==> ring[i] < ring[j]
  }

  ghost predicate Links(ptr: Field, ring: seq<int>) {
    forall i {:trigger Get(ptr, ring[i])} :: 0 <= i < |ring| ==> Get(ptr, ring[i]) == ring[Next(i, |ring|)]
  }

  ghost predicate Sizes(base: int, size: Field, ring: seq<int>) {
    |ring| >= 1 && ring[0] == base && Get(size, base) == 0 && forall i :: 1 <= i < |ring| ==> Get(size, ring[i]) >= 1
  }

  /** Where the block at position `i` ends. */
  function End(size: Field, ring: seq<int>, i: int): int
    requires 0 <= i < |ring|
  {
    ring[i] + Get(size, ring[i])
  }

  /** Each block ends before the next one starts; right at its start only for positions in [lo, hi). */
  ghost predicate Gaps(size: Field, ring: seq<int>, lo: int, hi: int) {
    forall i {:trigger End(size, ring, i)} :: 0 <= i < |ring| - 1 ==>
      && End(size, ring, i) <= ring[i + 1]
      && (!(lo <= i < hi) ==> End(size, ring, i) < ring[i + 1])
  }

  /** A ring in address order with one wrap point, its blocks apart except perhaps in [lo, hi). */
  ghost predicate Near(base: int, ptr: Field, size: Field, ring: seq<int>, lo: int, hi: int) {
    Sizes(base, size, ring) && Ascending(ring) && Links(ptr, ring) && Gaps(size, ring, lo, hi)
  }

  /** The free list: a ring in address order with one wrap point and no two blocks adjacent. */
  ghost predicate RingOk(base: int, ptr: Field, size: Field, ring: seq<int>) {
    Near(base, ptr, size, ring, 0, 0)
  }

  /** Two live blocks do not overlap. */
  ghost predicate LiveSep(live: seq<Block>, i: int, j: int)
    requires 0 <= i < |live| && 0 <= j < |live|
  {
    Apart(live[i].addr, live[i].units, live[j].addr, live[j].units)
  }

  /** A live block and a free block do not overlap. */
  ghost predicate FreeSep(size: Field, ring: seq<int>, live: seq<Block>, i: int, j: int)
    requires 0 <= i < |live| && 0 <= j < |ring|
  {
    Apart(live[i].addr, live[i].units, ring[j], Get(size, ring[j]))
  }

  /** Live blocks keep their size in their header and overlap neither each other nor free blocks. */
  ghost predicate LiveOk(base: int, size: Field, ring: seq<int>, live: seq<Block>) {
    && (forall i :: 0 <= i < |live| ==>
          live[i].addr > base && live[i].units >= 1 && Get(size, live[i].addr) == live[i].units)
    && (forall i, j {:trigger LiveSep(live, i, j)} :: 0 <= i < j < |live| ==> LiveSep(live, i, j))
    && (forall i, j {:trigger FreeSep(size, ring, live, i, j)} :: 0 <= i < |live| && 1 <= j < |ring| ==>
          FreeSep(size, ring, live, i, j))
  }

  /** Units in the first `n` free blocks. */
  ghost function UnitsUpTo(size: Field, ring: seq<int>, n: int): int
    requires n <= |ring|
  {
    if n <= 0 then 0 else Get(size, ring[n - 1]) + UnitsUpTo(size, ring, n - 1)
  }

  ghost function FreeUnits(size: Field, ring: seq<int>): int {
    UnitsUpTo(size, ring, |ring|)
  }

  ghost function LiveUpTo(live: seq<Block>, n: int): int
    requires n <= |live|
  {
    if n <= 0 then 0 else live[n - 1].units + LiveUpTo(live, n - 1)
  }

  ghost function LiveUnits(live: seq<Block>): int {
    LiveUpTo(live, |live|)
  }

  // ---- Sums ------------------------------------------------------------------------

  lemma {:induction false} UnitsSame(size: Field, ring: seq<int>, size': Field, ring': seq<int>, n: int)
    requires n <= |ring| && n <= |ring'|
    requires forall i :: 0 <= i < n ==> Get(size, ring[i]) == Get(size', ring'[i])
    ensures UnitsUpTo(size, ring, n) == UnitsUpTo(size', ring', n)
  {
    if n > 0 {
      UnitsSame(size, ring, size', ring', n - 1);
    }
  }

  lemma {:induction false} UnitsDrop(size: Field, ring: seq<int>, j: int, n: int)
    requires 0 <= j < n <= |ring|
    ensures UnitsUpTo(size, Drop(ring, j), n - 1) == UnitsUpTo(size, ring, n) - Get(size, ring[j])
  {
    if n == j + 1 {
      UnitsSame(size, ring, size, Drop(ring, j), j);
    } else {
      UnitsDrop(size, ring, j, n - 1);
    }
  }

  lemma {:induction false} UnitsInsert(size: Field, ring: seq<int>, k: int, bp: int, n: int)
    requires 0 <= k < n <= |ring|
    ensures UnitsUpTo(size, Insert(ring, k, bp), n + 1) == UnitsUpTo(size, ring, n) + Get(size, bp)
  {
    var r := Insert(ring, k, bp);
    if n == k + 1 {
      UnitsSame(size, ring, size, r, k + 1);
    } else {
      UnitsInsert(size, ring, k, bp, n - 1);
    }
  }

  /** Changing the size of block `j` alone changes the sum by as much. */
  lemma ResizeUnits(size: Field, size': Field, ring: seq<int>, j: int)
    requires 0 <= j < |ring|
    requires forall i :: 0 <= i < |ring| && i != j ==> Get(size', ring[i]) == Get(size, ring[i])
    ensures FreeUnits(size', ring) == FreeUnits(size, ring) - Get(size, ring[j]) + Get(size', ring[j])
  {
    UnitsDrop(size, ring, j, |ring|);
    UnitsDrop(size', ring, j, |ring|);
    UnitsSame(size, Drop(ring, j), size', Drop(ring, j), |ring| - 1);
  }

  lemma {:induction false} LiveSame(live: seq<Block>, live': seq<Block>, n: int)
    requires n <= |live| && n <= |live'| && forall i :: 0 <= i < n ==> live[i] == live'[i]
    ensures LiveUpTo(live, n) == LiveUpTo(live', n)
  {
    if n > 0 {
      LiveSame(live, live', n - 1);
    }
  }

  lemma {:induction false} LiveUnitsRemove(live: seq<Block>, i: int, n: int)
    requires 0 <= i < n <= |live|
    ensures LiveUpTo(Without(live, i), n - 1) == LiveUpTo(live, n) - live[i].units
  {
    if n == i + 1 {
      LiveSame(live, Without(live, i), i);
    } else {
      LiveUnitsRemove(live, i, n - 1);
    }
  }

  lemma LiveUnitsAdd(live: seq<Block>, b: Block)
    ensures LiveUnits(live + [b]) == LiveUnits(live) + b.units
  {
    LiveSame(live, live + [b], |live|);
  }

  // ---- Inserting a block into the ring ------------------------------------------------

  /** `k` is the ring position that a block at `bp` comes after. */
  ghost predicate Slot(ring: seq<int>, bp: int, k: int) {
    0 <= k < |ring| && ring[k] < bp && (k + 1 < |ring| ==> bp < ring[k + 1])
  }

  /** The block fits between its neighbours in the ring. */
  ghost predicate Fits(size: Field, ring: seq<int>, bp: int, k: int) {
    && Slot(ring, bp, k) && Get(size, bp) >= 1
    && ring[k] + Get(size, ring[k]) <= bp
    && (k + 1 < |ring| ==> bp + Get(size, bp) <= ring[k + 1])
  }

  function Insert(ring: seq<int>, k: int, bp: int): (r: seq<int>)
    requires 0 <= k < |ring|
    ensures |r| == |ring| + 1 && r[k + 1] == bp
    ensures forall i :: 0 <= i <= k ==> r[i] == ring[i]
    ensures forall i :: k + 1 < i < |r| ==> r[i] == ring[i - 1]
  {
    ring[..k + 1] + [bp] + ring[k + 1..]
  }

  function Drop(ring: seq<int>, j: int): (r: seq<int>)
    requires 0 <= j < |ring|
    ensures |r| == |ring| - 1
    ensures forall i :: 0 <= i < j ==> r[i] == ring[i]
    ensures forall i :: j <= i < |r| ==> r[i] == ring[i + 1]
  {
    ring[..j] + ring[j + 1..]
  }

  lemma InsertAscends(ring: seq<int>, k: int, bp: int)
    requires Ascending(ring) && Slot(ring, bp, k)
    ensures Ascending(Insert(ring, k, bp)) && bp !in ring
  {
    var r := Insert(ring, k, bp);
    forall i, j | 0 <= i < j < |r| ensures r[i] < r[j] {
      assert i <= k ==> r[i] <= ring[k];
      assert j > k + 1 ==> r[j] >= ring[k + 1];
    }
  }

  lemma InsertLinks(ptr: Field, ring: seq<int>, k: int, bp: int)
    requires Ascending(ring) && Links(ptr, ring) && 0 <= k < |ring| && bp !in ring
    ensures Links(ptr[bp := Get(ptr, ring[k])][ring[k] := bp], Insert(ring, k, bp))
  {
    var r, ptr' := Insert(ring, k, bp), ptr[bp := Get(ptr, ring[k])][ring[k] := bp];
    forall i | 0 <= i < |r| ensures Get(ptr', r[i]) == r[Next(i, |r|)] {
      assert Get(ptr, ring[k]) == ring[Next(k, |ring|)];
      if i < k {
        assert ring[i] != ring[k] && Get(ptr, ring[i]) == ring[i + 1];
      } else if i > k + 1 {
        assert ring[i - 1] != ring[k] && Get(ptr, ring[i - 1]) == ring[Next(i - 1, |ring|)];
      }
    }
  }

  lemma InsertGaps(size: Field, ring: seq<int>, k: int, bp: int)
    requires Gaps(size, ring, 0, 0) && Fits(size, ring, bp, k)
    ensures Gaps(size, Insert(ring, k, bp), k, k + 2)
  {
    var r := Insert(ring, k, bp);
    forall i | 0 <= i < |r| - 1
      ensures End(size, r, i) <= r[i + 1] && (!(k <= i < k + 2) ==> End(size, r, i) < r[i + 1])
    {
      if i < k {
        assert End(size, r, i) == End(size, ring, i) < ring[i + 1];
      } else if i > k + 1 {
        assert End(size, r, i) == End(size, ring, i - 1) < ring[i];
      }
    }
  }

  /** Linking in a block that fits between its neighbours, without joining it to them yet. */
  lemma InsertKeeps(base: int, ptr: Field, size: Field, ring: seq<int>, k: int, bp: int)
    requires RingOk(base, ptr, size, ring) && Fits(size, ring, bp, k)
    ensures bp !in ring
    ensures Near(base, ptr[bp := Get(ptr, ring[k])][ring[k] := bp], size, Insert(ring, k, bp), k, k + 2)
  {
    InsertAscends(ring, k, bp);
    InsertLinks(ptr, ring, k, bp);
    InsertGaps(size, ring, k, bp);
  }

  lemma DropLinks(ptr: Field, ring: seq<int>, j: int)
    requires Ascending(ring) && Links(ptr, ring) && 1 <= j < |ring|
    ensures Links(ptr[ring[j - 1] := Get(ptr, ring[j])], Drop(ring, j))
  {
    var r, ptr' := Drop(ring, j), ptr[ring[j - 1] := Get(ptr, ring[j])];
    assert Get(ptr, ring[j]) == ring[Next(j, |ring|)];
    forall i | 0 <= i < |r| ensures Get(ptr', r[i]) == r[Next(i, |r|)] {
      if i < j - 1 {
        assert ring[i] != ring[j - 1] && Get(ptr, ring[i]) == ring[i + 1];
      } else if i >= j {
        assert ring[i + 1] != ring[j - 1] && Get(ptr, ring[i + 1]) == ring[Next(i + 1, |ring|)];
      }
    }
  }

  lemma MergeGaps(size: Field, ring: seq<int>, lo: int, j: int)
    requires Ascending(ring) && Gaps(size, ring, lo, j + 1) && 0 <= lo <= j < |ring| - 1
    requires End(size, ring, j) == ring[j + 1]
    ensures Gaps(size[ring[j] := Get(size, ring[j]) + Get(size, ring[j + 1])], Drop(ring, j + 1), lo, j)
  {
    var r, size' := Drop(ring, j + 1), size[ring[j] := Get(size, ring[j]) + Get(size, ring[j + 1])];
    forall i | 0 <= i < |r| - 1
      ensures End(size', r, i) <= r[i + 1] && (!(lo <= i < j) ==> End(size', r, i) < r[i + 1])
    {
      if i < j {
        assert ring[i] < ring[j];
        assert End(size', r, i) == End(size, ring, i);
      } else if i == j {
        assert End(size', r, i) == End(size, ring, j + 1);
      } else {
        assert ring[j] < ring[i + 1];
        assert End(size', r, i) == End(size, ring, i + 1);
      }
    }
  }

  /** Joining the block at `j + 1` to the block at `j`, which it touches. */
  lemma MergeKeeps(base: int, ptr: Field, size: Field, ring: seq<int>, lo: int, j: int)
    requires Near(base, ptr, size, ring, lo, j + 1) && 0 <= lo <= j < |ring| - 1
    requires End(size, ring, j) == ring[j + 1]
    ensures var p, q := ring[j], ring[j + 1];
            Near(base, ptr[p := Get(ptr, q)], size[p := Get(size, p) + Get(size, q)], Drop(ring, j + 1), lo, j)
  {
    DropLinks(ptr, ring, j + 1);
    MergeGaps(size, ring, lo, j);
    assert ring[0] < ring[j + 1];
  }

  // ---- The whole heap -----------------------------------------------------------------

  /** A block overlaps no free block. */
  ghost predicate FreeApart(size: Field, ring: seq<int>, b: Block) {
    forall j :: 1 <= j < |ring| ==> Apart(b.addr, b.units, ring[j], Get(size, ring[j]))
  }

  /** Ring, live blocks and the number of units obtained so far agree. */
  ghost predicate HeapOk(base: int, ptr: Field, size: Field, ring: seq<int>, lo: int, hi: int, live: seq<Block>,
                         total: int) {
    && Near(base, ptr, size, ring, lo, hi)
    && LiveOk(base, size, ring, live)
    && FreeUnits(size, ring) + LiveUnits(live) == total
  }

  lemma LiveNotFree(base: int, size: Field, ring: seq<int>, live: seq<Block>, i: int, j: int)
    requires LiveOk(base, size, ring, live) && Sizes(base, size, ring) && 0 <= i < |live| && 0 <= j < |ring|
    ensures live[i].addr != ring[j]
  {
    if j > 0 {
      assert FreeSep(size, ring, live, i, j);
    }
  }

  lemma LiveFits(base: int, ptr: Field, size: Field, ring: seq<int>, live: seq<Block>, i: int, k: int)
    requires RingOk(base, ptr, size, ring) && LiveOk(base, size, ring, live) && 0 <= i < |live|
    requires Slot(ring, live[i].addr, k)
    ensures Fits(size, ring, live[i].addr, k)
  {
    if k > 0 {
      assert FreeSep(size, ring, live, i, k);
    }
    if k + 1 < |ring| {
      assert FreeSep(size, ring, live, i, k + 1);
    }
  }

  function Without(live: seq<Block>, i: int): (r: seq<Block>)
    requires 0 <= i < |live|
    ensures |r| == |live| - 1
    ensures forall j :: 0 <= j < |r| ==> r[j] == live[if j < i then j else j + 1]
  {
    live[..i] + live[i + 1..]
  }

  lemma InsertLive(base: int, size: Field, ring: seq<int>, live: seq<Block>, i: int, k: int)
    requires LiveOk(base, size, ring, live) && 0 <= i < |live| && 0 <= k < |ring|
    ensures LiveOk(base, size, Insert(ring, k, live[i].addr), Without(live, i))
  {
    var live', r := Without(live, i), Insert(ring, k, live[i].addr);
    forall a, b | 0 <= a < b < |live'| ensures LiveSep(live', a, b) {
      assert LiveSep(live, if a < i then a else a + 1, if b < i then b else b + 1);
    }
    forall a, j | 0 <= a < |live'| && 1 <= j < |r| ensures FreeSep(size, r, live', a, j) {
      var a' := if a < i then a else a + 1;
      if j == k + 1 {
        assert if a' < i then LiveSep(live, a', i) else LiveSep(live, i, a');
      } else {
        assert FreeSep(size, ring, live, a', if j <= k then j else j - 1);
      }
    }
  }

  /** A live block becomes a free one. */
  lemma InsertHeap(base: int, ptr: Field, size: Field, ring: seq<int>, live: seq<Block>, total: int, i: int, k: int)
    requires HeapOk(base, ptr, size, ring, 0, 0, live, total) && 0 <= i < |live| && Slot(ring, live[i].addr, k)
    ensures var bp := live[i].addr;
            && bp !in ring && Fits(size, ring, bp, k)
            && HeapOk(base, ptr[bp := Get(ptr, ring[k])][ring[k] := bp], size, Insert(ring, k, bp), k, k + 2,
              Without(live, i), total)
  {
    var bp := live[i].addr;
    LiveFits(base, ptr, size, ring, live, i, k);
    InsertKeeps(base, ptr, size, ring, k, bp);
    UnitsInsert(size, ring, k, bp, |ring|);
    LiveUnitsRemove(live, i, |live|);
    InsertLive(base, size, ring, live, i, k);
  }

  lemma MergeUnits(size: Field, ring: seq<int>, j: int)
    requires Ascending(ring) && 0 <= j < |ring| - 1
    ensures FreeUnits(size[ring[j] := Get(size, ring[j]) + Get(size, ring[j + 1])], Drop(ring, j + 1)) ==
              FreeUnits(size, ring)
  {
    var size' := size[ring[j] := Get(size, ring[j]) + Get(size, ring[j + 1])];
    assert ring[j] < ring[j + 1];
    ResizeUnits(size, size', ring, j);
    UnitsDrop(size', ring, j + 1, |ring|);
  }

  lemma MergeLive(base: int, size: Field, ring: seq<int>, live: seq<Block>, j: int)
    requires LiveOk(base, size, ring, live) && Sizes(base, size, ring) && Ascending(ring) && 1 <= j < |ring| - 1
    requires End(size, ring, j) == ring[j + 1]
    ensures LiveOk(base, size[ring[j] := Get(size, ring[j]) + Get(size, ring[j + 1])], Drop(ring, j + 1), live)
  {
    var p, r := ring[j], Drop(ring, j + 1);
    var size' := size[p := Get(size, p) + Get(size, ring[j + 1])];
    forall a | 0 <= a < |live| ensures Get(size', live[a].addr) == live[a].units {
      LiveNotFree(base, size, ring, live, a, j);
    }
    forall a, b | 0 <= a < |live| && 1 <= b < |r| ensures FreeSep(size', r, live, a, b) {
      if b == j {
        assert FreeSep(size, ring, live, a, j) && FreeSep(size, ring, live, a, j + 1);
      } else if b < j {
        assert ring[b] < p && FreeSep(size, ring, live, a, b);
      } else {
        assert p < ring[b + 1] && FreeSep(size, ring, live, a, b + 1);
      }
    }
  }

  /** Two free blocks that touch become one. */
  lemma MergeHeap(base: int, ptr: Field, size: Field, ring: seq<int>, live: seq<Block>, total: int, lo: int, j: int,
                  p: int, q: int)
    requires HeapOk(base, ptr, size, ring, lo, j + 1, live, total) && 0 <= lo <= j < |ring| - 1
    requires p == ring[j] && q == ring[j + 1] == p + Get(size, p)
    ensures HeapOk(base, ptr[p := Get(ptr, q)], size[p := Get(size, p) + Get(size, q)], Drop(ring, j + 1), lo, j,
              live, total)
  {
    assert j > 0 by { assert ring[0] < ring[j + 1]; }
    assert End(size, ring, j) == ring[j + 1];
    MergeKeeps(base, ptr, size, ring, lo, j);
    MergeLive(base, size, ring, live, j);
    MergeUnits(size, ring, j);
  }

  // ---- Taking a block out of the ring ---------------------------------------------------

  lemma DropGaps(size: Field, ring: seq<int>, j: int)
    requires Ascending(ring) && Gaps(size, ring, 0, 0) && 1 <= j < |ring|
    ensures Gaps(size, Drop(ring, j), 0, 0)
  {
    var r := Drop(ring, j);
    forall i | 0 <= i < |r| - 1 ensures End(size, r, i) < r[i + 1] {
      if i < j {
        assert End(size, r, i) == End(size, ring, i) < ring[i + 1];
      } else {
        assert End(size, r, i) == End(size, ring, i + 1);
      }
    }
  }

  lemma BlocksApart(size: Field, ring: seq<int>, base: int, i: int, j: int)
    requires Sizes(base, size, ring) && Gaps(size, ring, 0, 0) && Ascending(ring) && 0 <= i < j < |ring|
    ensures End(size, ring, i) < ring[j]
  {
    assert End(size, ring, i) < ring[i + 1];
    assert i + 1 < j ==> ring[i + 1] < ring[j];
  }

  lemma TakeLive(base: int, size: Field, ring: seq<int>, live: seq<Block>, j: int)
    requires Sizes(base, size, ring) && Gaps(size, ring, 0, 0) && Ascending(ring) && LiveOk(base, size, ring, live)
    requires 1 <= j < |ring|
    ensures LiveOk(base, size, Drop(ring, j), live + [Block(ring[j], Get(size, ring[j]))])
  {
    var r, b := Drop(ring, j), Block(ring[j], Get(size, ring[j]));
    assert ring[0] < ring[j];
    var live' := live + [b];
    forall a, c | 0 <= a < c < |live'| ensures LiveSep(live', a, c) {
      assert if c < |live| then LiveSep(live, a, c) else FreeSep(size, ring, live, a, j);
    }
    forall a, i | 0 <= a < |live'| && 1 <= i < |r| ensures FreeSep(size, r, live', a, i) {
      var i' := if i < j then i else i + 1;
      if a < |live| {
        assert FreeSep(size, ring, live, a, i');
      } else if i < j {
        BlocksApart(size, ring, base, i, j);
      } else {
        BlocksApart(size, ring, base, j, i');
      }
    }
  }

  /** An exact fit: a whole free block becomes live. */
  lemma TakeHeap(base: int, ptr: Field, size: Field, ring: seq<int>, live: seq<Block>, total: int, j: int)
    requires HeapOk(base, ptr, size, ring, 0, 0, live, total) && 1 <= j < |ring|
    ensures HeapOk(base, ptr[ring[j - 1] := Get(ptr, ring[j])], size, Drop(ring, j), 0, 0,
                   live + [Block(ring[j], Get(size, ring[j]))], total)
  {
    TakeNear(base, ptr, size, ring, j);
    UnitsDrop(size, ring, j, |ring|);
    LiveUnitsAdd(live, Block(ring[j], Get(size, ring[j])));
    TakeLive(base, size, ring, live, j);
  }

  lemma TakeNear(base: int, ptr: Field, size: Field, ring: seq<int>, j: int)
    requires RingOk(base, ptr, size, ring) && 1 <= j < |ring|
    ensures RingOk(base, ptr[ring[j - 1] := Get(ptr, ring[j])], size, Drop(ring, j))
  {
    DropLinks(ptr, ring, j);
    DropGaps(size, ring, j);
  }

  /** A header written inside free block `j`, past its own header, is no other block's header. */
  lemma InsideIsFresh(base: int, size: Field, ring: seq<int>, live: seq<Block>, j: int, a: int)
    requires Sizes(base, size, ring) && Gaps(size, ring, 0, 0) && Ascending(ring) && LiveOk(base, size, ring, live)
    requires 1 <= j < |ring| && ring[j] < a < End(size, ring, j)
    ensures forall i :: 0 <= i < |ring| ==> ring[i] != a
    ensures forall i :: 0 <= i < |live| ==> live[i].addr != a
  {
    forall i | 0 <= i < |ring| ensures ring[i] != a {
      if i < j {
        assert ring[i] < ring[j];
      } else if i > j {
        BlocksApart(size, ring, base, j, i);
      }
    }
    forall i | 0 <= i < |live| ensures live[i].addr != a {
      assert FreeSep(size, ring, live, i, j);
    }
  }

  lemma SplitGaps(size: Field, size': Field, ring: seq<int>, j: int)
    requires Gaps(size, ring, 0, 0) && 0 <= j < |ring| && Get(size', ring[j]) <= Get(size, ring[j])
    requires forall i :: 0 <= i < |ring| && i != j ==> Get(size', ring[i]) == Get(size, ring[i])
    ensures Gaps(size', ring, 0, 0)
  {
    forall i | 0 <= i < |ring| - 1 ensures End(size', ring, i) < ring[i + 1] {
      assert End(size, ring, i) < ring[i + 1];
    }
  }

  lemma SplitNear(base: int, ptr: Field, size: Field, ring: seq<int>, live: seq<Block>, j: int, n: int)
    requires RingOk(base, ptr, size, ring) && LiveOk(base, size, ring, live) && 1 <= j < |ring| &&
             1 <= n < Get(size, ring[j])
    ensures var p := ring[j];
            var rest := Get(size, p) - n;
            var size' := size[p := rest][p + rest := n];
            RingOk(base, ptr, size', ring) && FreeUnits(size', ring) == FreeUnits(size, ring) - n
  {
    var p := ring[j];
    var rest := Get(size, p) - n;
    var size' := size[p := rest][p + rest := n];
    assert ring[0] < ring[j];
    InsideIsFresh(base, size, ring, live, j, p + rest);
    assert forall i :: 0 <= i < |ring| && i != j ==> Get(size', ring[i]) == Get(size, ring[i]);
    SplitGaps(size, size', ring, j);
    ResizeUnits(size, size', ring, j);
  }

  /** The tail end of a bigger free block becomes live. */
  lemma SplitHeap(base: int, ptr: Field, size: Field, ring: seq<int>, live: seq<Block>, total: int, j: int, n: int)
    requires HeapOk(base, ptr, size, ring, 0, 0, live, total) && 1 <= j < |ring| && 1 <= n < Get(size, ring[j])
    ensures var p := ring[j];
            var rest := Get(size, p) - n;
            HeapOk(base, ptr, size[p := rest][p + rest := n], ring, 0, 0, live + [Block(p + rest, n)], total)
  {
    SplitNear(base, ptr, size, ring, live, j, n);
    SplitLive(base, size, ring, live, j, n);
    LiveUnitsAdd(live, Block(ring[j] + Get(size, ring[j]) - n, n));
  }

  lemma SplitLive(base: int, size: Field, ring: seq<int>, live: seq<Block>, j: int, n: int)
    requires Sizes(base, size, ring) && Gaps(size, ring, 0, 0) && Ascending(ring) && LiveOk(base, size, ring, live)
    requires 1 <= j < |ring| && 1 <= n < Get(size, ring[j])
    ensures var p := ring[j];
            var rest := Get(size, p) - n;
            LiveOk(base, size[p := rest][p + rest := n], ring, live + [Block(p + rest, n)])
  {
    var p := ring[j];
    var rest := Get(size, p) - n;
    var size', b := size[p := rest][p + rest := n], Block(p + rest, n);
    assert ring[0] < ring[j];
    InsideIsFresh(base, size, ring, live, j, p + rest);
    var live' := live + [b];
    forall i | 0 <= i < |live| ensures Get(size', live[i].addr) == live[i].units {
      LiveNotFree(base, size, ring, live, i, j);
    }
    forall i, k | 0 <= i < k < |live'| ensures LiveSep(live', i, k) {
      assert if k < |live| then LiveSep(live, i, k) else FreeSep(size, ring, live, i, j);
    }
    forall i, k | 0 <= i < |live'| && 1 <= k < |ring| ensures FreeSep(size', ring, live', i, k) {
      if i < |live| {
        assert FreeSep(size, ring, live, i, k);
      } else if k < j {
        BlocksApart(size, ring, base, k, j);
      } else if k > j {
        BlocksApart(size, ring, base, j, k);
      }
    }
  }

  // ---- Growing the heap -------------------------------------------------------------

  /** Memory from sbrk lies above `base` and apart from every block there is. */
  ghost predicate Fresh(base: int, size: Field, ring: seq<int>, live: seq<Block>, b: Block) {
    && b.addr > base && b.units >= 1
    && (forall i :: 0 <= i < |live| ==> Apart(live[i].addr, live[i].units, b.addr, b.units))
    && FreeApart(size, ring, b)
  }

  /** A fresh chunk starts out as a live block. */
  lemma GrowHeap(base: int, ptr: Field, size: Field, ring: seq<int>, live: seq<Block>, total: int, b: Block)
    requires HeapOk(base, ptr, size, ring, 0, 0, live, total) && Fresh(base, size, ring, live, b)
    ensures HeapOk(base, ptr, size[b.addr := b.units], ring, 0, 0, live + [b], total + b.units)
  {
    var size', live' := size[b.addr := b.units], live + [b];
    forall j | 0 <= j < |ring| ensures ring[j] != b.addr {
      assert j > 0 ==> Apart(b.addr, b.units, ring[j], Get(size, ring[j]));
    }
    SplitGapsSame(size, size', ring);
    UnitsSame(size, ring, size', ring, |ring|);
    LiveUnitsAdd(live, b);
    forall i, j | 0 <= i < j < |live'| ensures LiveSep(live', i, j) {
      assert j < |live| ==> LiveSep(live, i, j);
    }
    forall i, j | 0 <= i < |live'| && 1 <= j < |ring| ensures FreeSep(size', ring, live', i, j) {
      assert i < |live| ==> FreeSep(size, ring, live, i, j);
    }
  }

  lemma SplitGapsSame(size: Field, size': Field, ring: seq<int>)
    requires Gaps(size, ring, 0, 0) && forall i :: 0 <= i < |ring| ==> Get(size', ring[i]) == Get(size, ring[i])
    ensures Gaps(size', ring, 0, 0)
  {
    forall i | 0 <= i < |ring| - 1 ensures End(size', ring, i) < ring[i + 1] {
      assert End(size, ring, i) < ring[i + 1];
    }
  }

  lemma {:induction false} SlotExists(ring: seq<int>, bp: int, n: int) returns (k: int)
    requires Ascending(ring) && 1 <= n <= |ring| && ring[0] < bp && bp !in ring
    requires n < |ring| ==> bp < ring[n]
    ensures Slot(ring, bp, k)
    decreases n
  {
    if ring[n - 1] < bp {
      k := n - 1;
    } else {
      k := SlotExists(ring, bp, n - 1);
    }
  }

  /** nunits of malloc: the header and enough units for `nbytes`. */
  function Units(nbytes: nat): (n: nat)
    ensures (n - 1) * HEADER >= nbytes && n >= 1
    ensures (n - 1) * HEADER < nbytes + HEADER
  {
    (nbytes + HEADER - 1) / HEADER + 1
  }

  /** How many steps after `freep`'s successor, at position f + 1, a walk round the ring reaches `i`. */
  function Steps(f: int, i: int, n: int): int {
    if i > f then i - f - 1 else i - f - 1 + n
  }

  class Heap {
    const base: int
    var ptr: Field
    var size: Field
    var freep: int             // 0 before the first malloc
    ghost var ring: seq<int>
    ghost var live: seq<Block>
    ghost var total: int       // units obtained from sbrk

    ghost predicate Valid()
      reads this
    {
      && base > 0
      && if freep == 0 then ring == [] && live == [] && total == 0
         else freep in ring && HeapOk(base, ptr, size, ring, 0, 0, live, total)
    }

    constructor (base: int)
      requires base > 0
      ensures Valid() && this.base == base && live == [] && total == 0 && freep == 0
    {
      this.base := base;
      ptr, size, freep, ring, live, total := map[], map[], 0, [], [], 0;
    }

    /** The search loop of free: the free block that `bp` comes after. */
    method FindSlot(bp: int) returns (p: int)
      requires Valid() && freep != 0 && bp > base && bp !in ring
      ensures exists k :: Slot(ring, bp, k) && p == ring[k]
    {
      ghost var target := SlotExists(ring, bp, |ring|);
      p := freep;
      ghost var k :| 0 <= k < |ring| && ring[k] == freep;
      while !(bp > p && bp < Get(ptr, p))
        invariant 0 <= k < |ring| && p == ring[k]
        decreases if k <= target then target - k else target - k + |ring|
      {
        assert Get(ptr, p) == ring[Next(k, |ring|)];
        if p >= Get(ptr, p) && (bp > p || bp < Get(ptr, p)) {
          break;
        }
        p := Get(ptr, p);
        k := Next(k, |ring|);
      }
      assert Get(ptr, p) == ring[Next(k, |ring|)];
      assert Slot(ring, bp, k);
    }

    /** free: put a live block back into the ring, joined with the free blocks it touches. */
    method Free(ap: int, ghost i: int)
      requires Valid() && freep != 0 && 0 <= i < |live| && live[i].addr == ap - 1
      modifies this
      ensures Valid() && freep != 0 && live == Without(old(live), i) && total == old(total)
      ensures HasRoom(size, ring, old(live)[i].units)
    {
      var bp := ap - 1;
      forall j | 0 <= j < |ring| ensures ring[j] != bp {
        LiveNotFree(base, size, ring, live, i, j);
      }
      var p := FindSlot(bp);
      ghost var k :| Slot(ring, bp, k) && p == ring[k];
      ghost var ring' := FreeKeeps(base, ptr, size, ring, live, total, i, k);
      Link(p, bp);
      freep := p;
      ring, live := ring', Without(live, i);
    }

    /** The two tests of free: link the block in after `p`, joining it with the blocks it touches. */
    method Link(p: int, bp: int)
      modifies this`ptr, this`size
      ensures Headers(ptr, size) == LinkDown(LinkUp(Headers(old(ptr), old(size)), p, bp), p, bp)
    {
      if bp + Get(size, bp) == Get(ptr, p) {
        size := size[bp := Get(size, bp) + Get(size, Get(ptr, p))];
        ptr := ptr[bp := Get(ptr, Get(ptr, p))];
      } else {
        ptr := ptr[bp := Get(ptr, p)];
      }
      if p + Get(size, p) == bp {
        size := size[p := Get(size, p) + Get(size, bp)];
        ptr := ptr[p := Get(ptr, bp)];
      } else {
        ptr := ptr[p := bp];
      }
    }

    /** morecore: ask sbrk for at least CHUNK units; `core` is its answer, 0 for failure. */
    method Morecore(nunits: nat, core: int) returns (p: int)
      requires Valid() && freep != 0 && nunits >= 1
      requires core != 0 ==> Fresh(base, size, ring, live, Block(core, Grab(nunits)))
      modifies this
      ensures Valid() && freep != 0 && live == old(live)
      ensures core == 0 ==>
                p == 0 && ring == old(ring) && ptr == old(ptr) && size == old(size) &&
                freep == old(freep) && total == old(total)
      ensures core != 0 ==> p == freep && total == old(total) + Grab(nunits) && HasRoom(size, ring, nunits)
    {
      var nu := Grab(nunits);
      if core == 0 {
        return 0;
      }
      GrowHeap(base, ptr, size, ring, live, total, Block(core, nu));
      size := size[core := nu];
      live := live + [Block(core, nu)];
      total := total + nu;
      Free(core + 1, |live| - 1);
      assert live == old(live);
      p := freep;
    }

    /** An exact fit: the free block at ring position `j` leaves the ring. */
    method TakeWhole(prevp: int, p: int, ghost j: int)
      requires Valid() && freep != 0 && 1 <= j < |ring| && ring[j - 1] == prevp && ring[j] == p
      modifies this
      ensures Valid() && freep != 0 && total == old(total) && live == old(live) + [Block(p, old(Get(size, p)))]
    {
      TakeHeap(base, ptr, size, ring, live, total, j);
      ptr := ptr[prevp := Get(ptr, p)];
      live := live + [Block(p, Get(size, p))];
      ring := Drop(ring, j);
      freep := prevp;
      assert ring[j - 1] == prevp && prevp >= base by { assert old(ring)[0] <= old(ring)[j - 1]; }
    }

    /** A bigger block: its tail end is split off. */
    method SplitTail(prevp: int, p: int, nunits: nat, ghost j: int) returns (a: int)
      requires Valid() && freep != 0 && 1 <= j < |ring| && prevp in ring && prevp != 0 && ring[j] == p
      requires 1 <= nunits < Get(size, p)
      modifies this
      ensures Valid() && freep != 0 && total == old(total) && live == old(live) + [Block(a, nunits)]
    {
      SplitHeap(base, ptr, size, ring, live, total, j, nunits);
      var rest := Get(size, p) - nunits;
      size := size[p := rest];
      a := p + rest;
      size := size[a := nunits];
      live := live + [Block(a, nunits)];
      freep := prevp;
    }

    /** Take `nunits` units from the free block `p`, whose predecessor is `prevp`. */
    method Carve(prevp: int, p: int, nunits: nat, ghost h: int) returns (a: int)
      requires Valid() && freep != 0 && 0 <= h < |ring| && ring[h] == prevp && ring[Next(h, |ring|)] == p
      requires nunits >= 1 && Get(size, p) >= nunits
      modifies this
      ensures Valid() && freep != 0 && total == old(total) && live == old(live) + [Block(a, nunits)]
    {
      assert Next(h, |ring|) == h + 1;
      assert ring[0] <= ring[h];
      if Get(size, p) == nunits {
        TakeWhole(prevp, p, h + 1);
        a := p;
      } else {
        a := SplitTail(prevp, p, nunits, h + 1);
      }
    }

    /** What malloc hands out: the bytes after the header. */
    method Take(prevp: int, p: int, nunits: nat, ghost h: int) returns (ap: int)
      requires Valid() && freep != 0 && 0 <= h < |ring| && ring[h] == prevp && ring[Next(h, |ring|)] == p
      requires nunits >= 1 && Get(size, p) >= nunits
      modifies this
      ensures Valid() && freep != 0 && total == old(total) && ap != 0 && live == old(live) + [Block(ap - 1, nunits)]
    {
      var a := Carve(prevp, p, nunits, h);
      assert live[|live| - 1] == Block(a, nunits);
      ap := a + 1;
    }

    /** First malloc: a ring of `base` alone. */
    method Init()
      requires Valid() && freep == 0
      modifies this
      ensures Valid() && freep == base && ring == [base] && live == old(live) && total == old(total)
    {
      ptr := ptr[base := base];
      freep := base;
      size := size[base := 0];
      ring := [base];
      assert Get(ptr, ring[0]) == ring[Next(0, 1)];
      assert UnitsUpTo(size, ring, 0) == 0 && UnitsUpTo(size, ring, 1) == Get(size, base);
      assert LiveUnits([]) == 0;
    }

    /** Where malloc's walk starts: at freep, once there is a ring. */
    method Begin(ghost b: Block, ghost units: nat) returns (prevp: int, p: int, ghost f: int)
      requires Valid()
      modifies this
      ensures Valid() && freep != 0 && live == old(live) && total == old(total)
      ensures HasRoom(size, ring, units) <==> old(HasRoom(size, ring, units))
      ensures 0 <= f < |ring| && ring[f] == freep == prevp && p == ring[Next(f, |ring|)]
      ensures old(Fresh(base, size, ring, live, b)) ==> Fresh(base, size, ring, live, b)
    {
      if freep == 0 {
        Init();
      }
      prevp := freep;
      p := Get(ptr, prevp);
      f :| 0 <= f < |ring| && ring[f] == freep;
      assert Get(ptr, ring[f]) == ring[Next(f, |ring|)];
    }

    /** Where the walk goes on once the ring has grown. */
    method Refill(nunits: nat, core: int) returns (p: int, next: int, ghost f: int)
      requires Valid() && freep != 0 && nunits >= 1
      requires core != 0 ==> Fresh(base, size, ring, live, Block(core, Grab(nunits)))
      modifies this
      ensures Valid() && freep != 0 && live == old(live)
      ensures core == 0 ==> p == 0 && total == old(total)
      ensures core != 0 ==> p == freep && total == old(total) + Grab(nunits) && HasRoom(size, ring, nunits)
      ensures core != 0 ==> 0 <= f < |ring| && ring[f] == freep && next == ring[Next(f, |ring|)]
    {
      p := Morecore(nunits, core);
      next, f := 0, 0;
      if p != 0 {
        next := Get(ptr, p);
        f :| 0 <= f < |ring| && ring[f] == freep;
        assert Get(ptr, ring[f]) == ring[Next(f, |ring|)];
      }
    }

    /**
     malloc: the first block, walking round the ring, that is big enough; if there is none, and
     only then, the ring is grown once by `core`, sbrk's answer, and then has one.  It fails
     exactly when there is none and sbrk fails.  The walk always ends.
     */
    method Malloc(nbytes: nat, core: int) returns (ap: int)
      requires Valid()
      requires core != 0 ==> Fresh(base, size, ring, live, Block(core, Grab(Units(nbytes))))
      modifies this
      ensures Valid() && freep != 0
      ensures ap == 0 <==> core == 0 && !old(HasRoom(size, ring, Units(nbytes)))
      ensures ap == 0 ==> live == old(live)
      ensures ap != 0 ==> live == old(live) + [Block(ap - 1, Units(nbytes))]
      ensures (Units(nbytes) - 1) * HEADER >= nbytes
      ensures total == old(total) + if core != 0 &&
              !old(HasRoom(size, ring, Units(nbytes))) then Grab(Units(nbytes)) else 0
    {
      var nunits := Units(nbytes);
      ghost var room := HasRoom(size, ring, nunits);
      var prevp, p, f := Begin(Block(core, Grab(nunits)), nunits);
      ghost var grown, h, n := false, f, 0;
      WalkStart(size, ring, f, nunits);
      while true
        invariant Valid() && freep != 0 && live == old(live)
        invariant Walking(ring, f, h, n) && ring[f] == freep && ring[h] == prevp && p == ring[Next(h, |ring|)]
        invariant if grown then !room else HasRoom(size, ring, nunits) == room
        invariant !grown ==>
                    total == old(total) &&
                    (core != 0 ==> Fresh(base, size, ring, live, Block(core, Grab(nunits))))
        invariant grown ==> core != 0 && total == old(total) + Grab(nunits) && HasRoom(size, ring, nunits)
        invariant TooSmall(size, ring, f, n, nunits)
        decreases !grown, |ring| - n
      {
        if Get(size, p) >= nunits {
          FitIsRoom(base, ptr, size, ring, Next(h, |ring|), nunits);
          ap := Take(prevp, p, nunits, h);
          return;
        }
        if p == freep {
          WalkedAll(base, ptr, size, ring, f, h, n, nunits);
          prevp, p, f := Refill(nunits, core);
          if prevp == 0 {
            return 0;
          }
          grown, h, n := true, f, 0;
          WalkStart(size, ring, f, nunits);
        } else {
          WalkOn(size, ring, f, h, n, nunits);
          h, n := Next(h, |ring|), n + 1;
          prevp, p := p, Get(ptr, p);
          assert Get(ptr, ring[h]) == ring[Next(h, |ring|)];
        }
      }
    }
  }

  /** A walk that starts after position `f` has come to position `h` in `n` steps; it looks at the next one. */
  ghost predicate Walking(ring: seq<int>, f: int, h: int, n: int) {
    0 <= f < |ring| && 0 <= h < |ring| && n == Steps(f, Next(h, |ring|), |ring|)
  }

  /** The blocks met in the first `n` steps of a walk that starts after position `f` are too small. */
  ghost predicate TooSmall(size: Field, ring: seq<int>, f: int, n: int, nunits: int) {
    forall j :: 0 <= j < |ring| && Steps(f, j, |ring|) < n ==> Get(size, ring[j]) < nunits
  }

  lemma WalkStart(size: Field, ring: seq<int>, f: int, nunits: int)
    requires 0 <= f < |ring|
    ensures Walking(ring, f, f, 0) && TooSmall(size, ring, f, 0, nunits)
  {
  }

  lemma WalkOn(size: Field, ring: seq<int>, f: int, h: int, n: int, nunits: int)
    requires Walking(ring, f, h, n) && Next(h, |ring|) != f
    requires TooSmall(size, ring, f, n, nunits) && Get(size, ring[Next(h, |ring|)]) < nunits
    ensures Walking(ring, f, Next(h, |ring|), n + 1) && n < |ring| && TooSmall(size, ring, f, n + 1, nunits)
  {
    forall j | 0 <= j < |ring| && Steps(f, j, |ring|) < n + 1 ensures Get(size, ring[j]) < nunits {
      assert Steps(f, j, |ring|) == n ==> j == Next(h, |ring|);
    }
  }

  /** The block at `base` is empty, so one that is big enough is another. */
  lemma FitIsRoom(base: int, ptr: Field, size: Field, ring: seq<int>, j: int, nunits: int)
    requires RingOk(base, ptr, size, ring) && 0 <= j < |ring| && Get(size, ring[j]) >= nunits >= 1
    ensures HasRoom(size, ring, nunits)
  {
  }

  /** A walk that comes back to where it started has met every block. */
  lemma WalkedAll(base: int, ptr: Field, size: Field, ring: seq<int>, f: int, h: int, n: int, nunits: int)
    requires RingOk(base, ptr, size, ring) && Walking(ring, f, h, n) && ring[Next(h, |ring|)] == ring[f]
    requires TooSmall(size, ring, f, n, nunits) && Get(size, ring[f]) < nunits
    ensures !HasRoom(size, ring, nunits)
  {
    assert Next(h, |ring|) == f;
    forall j | 0 <= j < |ring| ensures Get(size, ring[j]) < nunits {
      assert j != f ==> Steps(f, j, |ring|) < Steps(f, f, |ring|);
    }
  }

  /** The number of units morecore asks for. */
  function Grab(nunits: nat): (nu: nat)
    ensures nu >= nunits && nu >= CHUNK
  {
    if nunits < CHUNK then CHUNK else nunits
  }

  ghost predicate HasRoom(size: Field, ring: seq<int>, units: int) {
    exists j :: 1 <= j < |ring| && Get(size, ring[j]) >= units
  }

  datatype Headers = Headers(ptr: Field, size: Field)

  /** The headers after free's first test, for a block going in after `p`. */
  function LinkUp(h: Headers, p: int, bp: int): Headers {
    var q := Get(h.ptr, p);
    if bp + Get(h.size, bp) == q then
      Headers(h.ptr[bp := Get(h.ptr, q)], h.size[bp := Get(h.size, bp) + Get(h.size, q)])
    else
      Headers(h.ptr[bp := q], h.size)
  }

  /** The headers after free's second test. */
  function LinkDown(h: Headers, p: int, bp: int): Headers {
    if p + Get(h.size, p) == bp then
      Headers(h.ptr[p := Get(h.ptr, bp)], h.size[p := Get(h.size, p) + Get(h.size, bp)])
    else
      Headers(h.ptr[p := bp], h.size)
  }

  /** Block `k + 1` of the ring starts further down, at `bp`, and ends where it did. */
  lemma ExtendNear(base: int, ptr: Field, size: Field, ring: seq<int>, bp: int, k: int)
    requires RingOk(base, ptr, size, ring) && Fits(size, ring, bp, k) && k + 1 < |ring| &&
             bp + Get(size, bp) == ring[k + 1]
    ensures var q := ring[k + 1];
            Near(base, ptr[bp := Get(ptr, q)][ring[k] := bp], size[bp := Get(size, bp) + Get(size, q)],
              ring[k + 1 := bp], k, k + 1)
  {
    InsertAscends(ring, k, bp);
    ExtendLinks(ptr, ring, bp, k);
    ExtendGaps(base, ptr, size, ring, bp, k);
  }

  lemma ExtendGaps(base: int, ptr: Field, size: Field, ring: seq<int>, bp: int, k: int)
    requires RingOk(base, ptr, size, ring) && Fits(size, ring, bp, k) && k + 1 < |ring| &&
             bp + Get(size, bp) == ring[k + 1]
    ensures Gaps(size[bp := Get(size, bp) + Get(size, ring[k + 1])], ring[k + 1 := bp], k, k + 1)
  {
    var q, r := ring[k + 1], ring[k + 1 := bp];
    var size' := size[bp := Get(size, bp) + Get(size, q)];
    forall i | 0 <= i < |r| - 1
      ensures End(size', r, i) <= r[i + 1] && (!(k <= i < k + 1) ==> End(size', r, i) < r[i + 1])
    {
      assert End(size, ring, i) < ring[i + 1];
      assert i == k + 1 ==> End(size', r, i) == End(size, ring, i);
      assert i != k + 1 ==> r[i] == ring[i] != bp;
    }
  }

  lemma ExtendLinks(ptr: Field, ring: seq<int>, bp: int, k: int)
    requires Ascending(ring) && Links(ptr, ring) && 0 <= k < |ring| - 1 && bp !in ring
    ensures Links(ptr[bp := Get(ptr, ring[k + 1])][ring[k] := bp], ring[k + 1 := bp])
  {
    var r, ptr' := ring[k + 1 := bp], ptr[bp := Get(ptr, ring[k + 1])][ring[k] := bp];
    forall i | 0 <= i < |r| ensures Get(ptr', r[i]) == r[Next(i, |r|)] {
      assert Get(ptr, ring[i]) == ring[Next(i, |ring|)];
      assert i != k ==> ring[i] != ring[k];
    }
  }

  lemma ExtendLive(base: int, size: Field, ring: seq<int>, live: seq<Block>, i: int, k: int)
    requires LiveOk(base, size, ring, live) && Sizes(base, size, ring) && 0 <= i < |live| && 0 <= k < |ring| - 1
    requires live[i].addr + live[i].units == ring[k + 1]
    ensures var bp := live[i].addr;
            LiveOk(base, size[bp := Get(size, bp) + Get(size, ring[k + 1])], ring[k + 1 := bp], Without(live, i))
  {
    var bp, r, live' := live[i].addr, ring[k + 1 := live[i].addr], Without(live, i);
    var size' := size[bp := Get(size, bp) + Get(size, ring[k + 1])];
    forall a | 0 <= a < |live| && a != i ensures live[a].addr != bp {
      assert if a < i then LiveSep(live, a, i) else LiveSep(live, i, a);
    }
    forall a, b | 0 <= a < b < |live'| ensures LiveSep(live', a, b) {
      assert LiveSep(live, if a < i then a else a + 1, if b < i then b else b + 1);
    }
    forall a, j | 0 <= a < |live'| && 1 <= j < |r| ensures FreeSep(size', r, live', a, j) {
      var a' := if a < i then a else a + 1;
      assert FreeSep(size, ring, live, a', j);
      if j == k + 1 {
        assert if a' < i then LiveSep(live, a', i) else LiveSep(live, i, a');
      } else {
        LiveNotFree(base, size, ring, live, i, j);
      }
    }
  }

  lemma ExtendUnits(size: Field, ring: seq<int>, bp: int, j: int)
    requires 0 <= j < |ring| && bp !in ring
    ensures FreeUnits(size[bp := Get(size, bp) + Get(size, ring[j])], ring[j := bp]) == FreeUnits(size, ring) +
              Get(size, bp)
  {
    var r, size' := ring[j := bp], size[bp := Get(size, bp) + Get(size, ring[j])];
    UnitsDrop(size, ring, j, |ring|);
    UnitsDrop(size', r, j, |r|);
    UnitsSame(size, Drop(ring, j), size', Drop(r, j), |ring| - 1);
  }

  /** The block goes in and takes over the block above, which it touches. */
  lemma LinkTouching(base: int, ptr: Field, size: Field, ring: seq<int>, live: seq<Block>, total: int, i: int, k: int)
    requires HeapOk(base, ptr, size, ring, 0, 0, live, total) && 0 <= i < |live| && Slot(ring, live[i].addr, k)
    requires k + 1 < |ring| && live[i].addr + live[i].units == ring[k + 1]
    ensures var p, bp, q := ring[k], live[i].addr, ring[k + 1];
            HeapOk(base, ptr[bp := Get(ptr, q)][p := bp], size[bp := Get(size, bp) + Get(size, q)],
                   ring[k + 1 := bp], k, k + 1, Without(live, i), total)
  {
    var bp := live[i].addr;
    LiveFits(base, ptr, size, ring, live, i, k);
    InsertAscends(ring, k, bp);
    ExtendNear(base, ptr, size, ring, bp, k);
    ExtendLive(base, size, ring, live, i, k);
    ExtendUnits(size, ring, bp, k + 1);
    LiveUnitsRemove(live, i, |live|);
  }

  /** The block goes in below a gap, or last. */
  lemma LinkApart(base: int, ptr: Field, size: Field, ring: seq<int>, live: seq<Block>, total: int, i: int, k: int)
    requires HeapOk(base, ptr, size, ring, 0, 0, live, total) && 0 <= i < |live| && Slot(ring, live[i].addr, k)
    requires k + 1 < |ring| ==> live[i].addr + live[i].units != ring[k + 1]
    ensures var p, bp := ring[k], live[i].addr;
            HeapOk(base, ptr[bp := Get(ptr, p)][p := bp], size, Insert(ring, k, bp), k, k + 1, Without(live, i), total)
  {
    InsertHeap(base, ptr, size, ring, live, total, i, k);
    var ring1 := Insert(ring, k, live[i].addr);
    NotTouching(base, ptr[live[i].addr := Get(ptr, ring[k])][ring[k] := live[i].addr], size, ring1, k);
  }

  /** free's first test finds the block above exactly when there is one and it touches. */
  lemma TouchTest(base: int, ptr: Field, size: Field, ring: seq<int>, bp: int, k: int)
    requires RingOk(base, ptr, size, ring) && Slot(ring, bp, k) && Get(size, bp) >= 1
    ensures bp + Get(size, bp) == Get(ptr, ring[k]) <==> k + 1 < |ring| && bp + Get(size, bp) == ring[k + 1]
    ensures k + 1 < |ring| ==> Get(ptr, ring[k]) == ring[k + 1]
  {
    assert Get(ptr, ring[k]) == ring[Next(k, |ring|)];
    assert ring[0] <= ring[k];
  }

  /** After the first test, with `p` pointing at the block, only `p` and the block may still touch. */
  lemma LinkUpKeeps(base: int, ptr: Field, size: Field, ring: seq<int>, live: seq<Block>, total: int, i: int, k: int)
    returns (ring': seq<int>)
    requires HeapOk(base, ptr, size, ring, 0, 0, live, total) && 0 <= i < |live| && Slot(ring, live[i].addr, k)
    ensures var p, bp := ring[k], live[i].addr;
            var h := LinkUp(Headers(ptr, size), p, bp);
            && HeapOk(base, h.ptr[p := bp], h.size, ring', k, k + 1, Without(live, i), total)
            && k + 1 < |ring'| && ring'[k] == p && ring'[k + 1] == bp && p != bp && Get(h.size, bp) >= live[i].units
  {
    var p, bp, q := ring[k], live[i].addr, Get(ptr, ring[k]);
    var h := LinkUp(Headers(ptr, size), p, bp);
    TouchTest(base, ptr, size, ring, bp, k);
    if bp + Get(size, bp) == q {
      assert h == Headers(ptr[bp := Get(ptr, q)], size[bp := Get(size, bp) + Get(size, q)]);
      LinkTouching(base, ptr, size, ring, live, total, i, k);
      UpperSize(base, ptr, size, ring, k);
      ring' := ring[k + 1 := bp];
    } else {
      assert h == Headers(ptr[bp := q], size);
      LinkApart(base, ptr, size, ring, live, total, i, k);
      ring' := Insert(ring, k, bp);
    }
  }

  lemma UpperSize(base: int, ptr: Field, size: Field, ring: seq<int>, k: int)
    requires RingOk(base, ptr, size, ring) && 0 <= k < |ring| - 1
    ensures Get(size, ring[k + 1]) >= 1
  {
  }

  lemma SwapUpdates(m: Field, a: int, x: int, b: int, y: int, z: int)
    ensures a != b ==> m[a := x][b := y][a := z] == m[a := z][b := y]
    ensures m[a := x][a := z] == m[a := z]
  {
  }

  lemma NotTouching(base: int, ptr: Field, size: Field, ring: seq<int>, k: int)
    requires Near(base, ptr, size, ring, k, k + 2) && 0 <= k && k + 1 < |ring|
    requires k + 2 < |ring| ==> End(size, ring, k + 1) != ring[k + 2]
    ensures Near(base, ptr, size, ring, k, k + 1)
  {
  }

  /** After both tests the ring is in order again and has a block as big as the freed one. */
  lemma FreeKeeps(base: int, ptr: Field, size: Field, ring: seq<int>, live: seq<Block>, total: int, i: int, k: int)
    returns (ring': seq<int>)
    requires HeapOk(base, ptr, size, ring, 0, 0, live, total) && 0 <= i < |live| && Slot(ring, live[i].addr, k)
    ensures var p, bp := ring[k], live[i].addr;
            var h := LinkDown(LinkUp(Headers(ptr, size), p, bp), p, bp);
            && HeapOk(base, h.ptr, h.size, ring', 0, 0, Without(live, i), total)
            && p in ring' && HasRoom(h.size, ring', live[i].units)
  {
    var p, bp := ring[k], live[i].addr;
    var ring1 := LinkUpKeeps(base, ptr, size, ring, live, total, i, k);
    ring' := LinkDownKeeps(base, LinkUp(Headers(ptr, size), p, bp), p, bp, ring1, Without(live, i), total, k,
      live[i].units);
  }

  lemma LinkDownKeeps(base: int, h: Headers, p: int, bp: int, ring: seq<int>, live: seq<Block>, total: int, k: int,
                      units: int)
    returns (ring': seq<int>)
    requires HeapOk(base, h.ptr[p := bp], h.size, ring, k, k + 1, live, total)
    requires 0 <= k && k + 1 < |ring| && p == ring[k] && bp == ring[k + 1] && p != bp && Get(h.size, bp) >= units
    ensures var g := LinkDown(h, p, bp);
            HeapOk(base, g.ptr, g.size, ring', 0, 0, live, total) && p in ring' && HasRoom(g.size, ring', units)
  {
    LinkDownIs(h, p, bp);
    if p + Get(h.size, p) == bp {
      JoinTouching(base, h.ptr[p := bp], h.size, ring, live, total, k, units, p, bp);
      ring' := Drop(ring, k + 1);
    } else {
      NotJoined(base, h.ptr[p := bp], h.size, ring, live, total, k, units, p, bp);
      ring' := ring;
    }
  }

  lemma LinkDownIs(h: Headers, p: int, bp: int)
    requires p != bp
    ensures var g, down := LinkDown(h, p, bp), p + Get(h.size, p) == bp;
            && (down ==> g.ptr == h.ptr[p := bp][p := Get(h.ptr[p := bp], bp)])
            && (down ==> g.size == h.size[p := Get(h.size, p) + Get(h.size, bp)])
            && (!down ==> g.ptr == h.ptr[p := bp] && g.size == h.size)
  {
    if p + Get(h.size, p) == bp {
      SwapUpdates(h.ptr, p, bp, p, bp, Get(h.ptr, bp));
    }
  }

  lemma JoinTouching(base: int, ptr: Field, size: Field, ring: seq<int>, live: seq<Block>, total: int, k: int,
                     units: int, p: int, bp: int)
    requires HeapOk(base, ptr, size, ring, k, k + 1, live, total) && 0 <= k && k + 1 < |ring| && p == ring[k] &&
             bp == ring[k + 1]
    requires Get(size, bp) >= units && p + Get(size, p) == bp
    ensures var ring', size' := Drop(ring, k + 1), size[p := Get(size, p) + Get(size, bp)];
            && HeapOk(base, ptr[p := Get(ptr, bp)], size', ring', 0, 0, live, total)
            && HasRoom(size', ring', units) && p in ring'
  {
    MergeHeap(base, ptr, size, ring, live, total, k, k, p, bp);
    NoneTouch(base, ptr[p := Get(ptr, bp)], size[p := Get(size, p) + Get(size, bp)], Drop(ring, k + 1), live, total, k);
    JoinedRoom(base, ptr, size, ring, k, units);
  }

  lemma NoneTouch(base: int, ptr: Field, size: Field, ring: seq<int>, live: seq<Block>, total: int, k: int)
    requires HeapOk(base, ptr, size, ring, k, k, live, total)
    ensures HeapOk(base, ptr, size, ring, 0, 0, live, total)
  {
  }

  lemma JoinedRoom(base: int, ptr: Field, size: Field, ring: seq<int>, k: int, units: int)
    requires Near(base, ptr, size, ring, k, k + 1) && 0 <= k && k + 1 < |ring|
    requires Get(size, ring[k + 1]) >= units && ring[k] + Get(size, ring[k]) == ring[k + 1]
    ensures var ring', size' := Drop(ring, k + 1), size[ring[k] := Get(size, ring[k]) + Get(size, ring[k + 1])];
            HasRoom(size', ring', units) && ring[k] in ring'
  {
    var ring' := Drop(ring, k + 1);
    assert ring'[k] == ring[k] && k >= 1;
  }

  lemma NotJoined(base: int, ptr: Field, size: Field, ring: seq<int>, live: seq<Block>, total: int, k: int,
                  units: int, p: int, bp: int)
    requires HeapOk(base, ptr, size, ring, k, k + 1, live, total) && 0 <= k && k + 1 < |ring| && p == ring[k] &&
             bp == ring[k + 1]
    requires Get(size, bp) >= units && p + Get(size, p) != bp
    ensures HeapOk(base, ptr, size, ring, 0, 0, live, total) && HasRoom(size, ring, units) && p in ring
  {
    assert End(size, ring, k) != ring[k + 1];
  }
}
