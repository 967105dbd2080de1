/**
 The buffer cache (bio.c) over the memory disk (memide.c).

 A block's logical content is the data of its valid buffer, or else what the disk
 holds.  Reading, evicting and releasing buffers never change it; only a caller
 that holds the buffer does, through `Modify`.
 */
module BufferCache {
  import opened LruRing

  /** A block is a fixed number of 32-bit words. */
  type Block = seq<int>

  const WORDS: nat := 128

  /** The only device that iderw accepts. */
  const DISK_DEV: nat := 1

  datatype Buf = Buf(
    valid: bool, dirty: bool, dev: nat, blockno: nat, refcnt: nat, locked: bool, data: Block)

  /** One block write that reached the disk. */
  datatype Write = Write(blockno: nat, data: Block)

  ghost predicate Holds(bufs: seq<Buf>, i: int, blockno: nat) {
    0 <= i < |bufs| && bufs[i].valid && bufs[i].blockno == blockno
  }

  /** The content of a block as every reader must see it. */
  ghost function Logical(bufs: seq<Buf>, disk: seq<Block>, blockno: nat): Block
    requires blockno < |disk|
  {
    if exists i :: Holds(bufs, i, blockno) then
      var i :| Holds(bufs, i, blockno); bufs[i].data
    else
      disk[blockno]
  }

  predicate Evictable(b: Buf) {
    b.refcnt == 0 && !b.dirty
  }

  /** Some buffer can be recycled. */
  ghost predicate Room(bufs: seq<Buf>) {
    exists i :: 0 <= i < |bufs| && Evictable(bufs[i])
  }

  predicate Keyed(b: Buf, dev: nat, blockno: nat) {
    b.dev == dev && b.blockno == blockno
  }

  /** No two buffers hold the same block.  Buffers start out as (0, 0), so only for dev != 0. */
  ghost predicate Unique(bufs: seq<Buf>) {
    forall i, j :: 0 <= i < j < |bufs| && bufs[i].dev != 0 ==> !Keyed(bufs[j], bufs[i].dev, bufs[i].blockno)
  }

  ghost predicate BufOk(b: Buf, disk: seq<Block>) {
    && (b.valid ==> b.dev == DISK_DEV && b.blockno < |disk| && |b.data| == WORDS)
    && (b.dirty ==> b.valid)
    && (b.locked ==> b.refcnt > 0)
    // a buffer that nobody is editing and that is not pinned is a faithful copy
    && (b.valid && !b.dirty && !b.locked ==> b.data == disk[b.blockno])
  }

  ghost predicate Consistent(bufs: seq<Buf>, disk: seq<Block>) {
    && Unique(bufs)
    && (forall i :: 0 <= i < |bufs| ==> BufOk(bufs[i], disk))
    && (forall k :: 0 <= k < |disk| ==> |disk[k]| == WORDS)
  }

  lemma LogicalIsBuffer(bufs: seq<Buf>, disk: seq<Block>, i: nat)
    requires Consistent(bufs, disk) && i < |bufs| && bufs[i].valid
    ensures Logical(bufs, disk, bufs[i].blockno) == bufs[i].data
  {
    assert Holds(bufs, i, bufs[i].blockno);
  }

  /** Two consistent states that agree buffer by buffer on one block agree on its content. */
  lemma SameLogical(bufs: seq<Buf>, disk: seq<Block>, bufs': seq<Buf>, disk': seq<Block>, k: nat)
    requires Consistent(bufs, disk) && Consistent(bufs', disk') && k < |disk| == |disk'|
    requires forall i :: Holds(bufs, i, k) ==> Holds(bufs', i, k) && bufs'[i].data == bufs[i].data
    requires forall i :: Holds(bufs', i, k) ==> Holds(bufs, i, k) || bufs'[i].data == Logical(bufs, disk, k)
    requires (forall i :: !Holds(bufs', i, k)) ==> disk'[k] == disk[k]
    ensures Logical(bufs', disk', k) == Logical(bufs, disk, k)
  {
    if i :| Holds(bufs', i, k) {
      LogicalIsBuffer(bufs', disk', i);
      if Holds(bufs, i, k) {
        LogicalIsBuffer(bufs, disk, i);
      }
    }
  }

  /** Throwing out an evictable buffer does not change any block. */
  lemma EvictionIsInvisible(bufs: seq<Buf>, disk: seq<Block>, b: nat, recycled: Buf, k: nat)
    requires Consistent(bufs, disk) && b < |bufs| && Evictable(bufs[b])
    requires !recycled.valid && Consistent(bufs[b := recycled], disk)
    requires k < |disk|
    ensures Logical(bufs[b := recycled], disk, k) == Logical(bufs, disk, k)
  {
    var bufs' := bufs[b := recycled];
    if i :| Holds(bufs, i, k) {
      LogicalIsBuffer(bufs, disk, i);
      if i != b {
        assert Holds(bufs', i, k);
        LogicalIsBuffer(bufs', disk, i);
      } else {
        assert forall j :: Holds(bufs', j, k) ==> Holds(bufs, j, k) && j != b;
      }
    } else {
      assert forall j :: Holds(bufs', j, k) ==> Holds(bufs, j, k);
    }
  }

  /** Changing only bookkeeping fields of buffers changes no block. */
  lemma BookkeepingIsInvisible(bufs: seq<Buf>, bufs': seq<Buf>, disk: seq<Block>)
    requires Consistent(bufs, disk) && Consistent(bufs', disk)
    requires |bufs| == |bufs'|
    requires forall i :: 0 <= i < |bufs| ==>
               bufs'[i].valid == bufs[i].valid && bufs'[i].blockno == bufs[i].blockno && bufs'[i].data == bufs[i].data
    ensures forall k :: 0 <= k < |disk| ==> Logical(bufs', disk, k) == Logical(bufs, disk, k)
  {
    forall k | 0 <= k < |disk| ensures Logical(bufs', disk, k) == Logical(bufs, disk, k) {
      assert forall i :: Holds(bufs, i, k) <==> Holds(bufs', i, k);
      SameLogical(bufs, disk, bufs', disk, k);
    }
  }

  /** Bringing a buffer and the disk into step changes no block. */
  lemma SyncIsInvisible(bufs: seq<Buf>, disk: seq<Block>, b: nat, bufs': seq<Buf>, disk': seq<Block>, k: nat)
    requires Consistent(bufs, disk) && b < |bufs| && bufs[b].dev == DISK_DEV && bufs[b].blockno < |disk|
    requires bufs[b].valid ==> bufs[b].dirty
    requires disk' == if bufs[b].dirty then disk[bufs[b].blockno := bufs[b].data] else disk
    requires bufs' == bufs[b := bufs[b].(dirty := false, valid := true, data := disk'[bufs[b].blockno])]
    requires Consistent(bufs', disk') && k < |disk|
    ensures Logical(bufs', disk', k) == Logical(bufs, disk, k)
  {
    var p := bufs[b].blockno;
    if k == p {
      LogicalIsBuffer(bufs', disk', b);
      if bufs[b].dirty {
        LogicalIsBuffer(bufs, disk, b);
      } else {
        assert forall i :: !Holds(bufs, i, p);
      }
    } else {
      SameLogical(bufs, disk, bufs', disk', k);
    }
  }

  class Bcache {
    const nbuf: nat            // NBUF; index nbuf is the list head
    var bufs: seq<Buf>
    var next: seq<nat>
    var prev: seq<nat>
    var disk: seq<Block>
    ghost var order: seq<nat>  // buffers from most to least recently used
    ghost var writes: seq<Write> // every block write so far

    ghost predicate Valid()
      reads this
    {
      && |bufs| == nbuf && |next| == nbuf + 1
      && Ring(next, prev, nbuf, order)
      && (forall b :: 0 <= b < nbuf ==> b in order)
      && Consistent(bufs, disk)
    }

    ghost function View(blockno: nat): Block
      reads this
      requires blockno < |disk|
    {
      Logical(bufs, disk, blockno)
    }

    ghost predicate Cached(dev: nat, blockno: nat)
      reads this
    {
      exists i :: 0 <= i < |bufs| && Keyed(bufs[i], dev, blockno)
    }

    /** A process wanting this block would not have to wait for it. */
    ghost predicate Unlocked(dev: nat, blockno: nat)
      reads this
    {
      forall i :: 0 <= i < |bufs| && Keyed(bufs[i], dev, blockno) ==> !bufs[i].locked
    }

    /** binit: thread all buffers, none holding a block. */
    constructor (n: nat, disk: seq<Block>)
      requires forall k :: 0 <= k < |disk| ==> |disk[k]| == WORDS
      ensures Valid() && nbuf == n && this.disk == disk && writes == []
      ensures forall i :: 0 <= i < n ==> bufs[i] == Buf(false, false, 0, 0, 0, false, [])
      ensures order == seq(n, i requires 0 <= i < n => n - 1 - i)
    {
      nbuf := n;
      bufs := seq(n, _ => Buf(false, false, 0, 0, 0, false, []));
      this.disk := disk;
      writes := [];
      order := [];
      next, prev := seq(n + 1, _ => n), seq(n + 1, _ => n);
      new;
      var b := 0;
      while b < n
        invariant 0 <= b <= n == nbuf
        invariant |next| == n + 1
        invariant Ring(next, prev, n, order)
        invariant order == seq(b, i requires 0 <= i < b => b - 1 - i)
        invariant bufs == seq(n, _ => Buf(false, false, 0, 0, 0, false, []))
        invariant this.disk == disk && writes == []
      {
        PushKeepsRing(next, prev, n, order, b);
        var first := next[nbuf];
        next := next[b := first];
        prev := prev[b := nbuf];
        prev := prev[first := b];
        next := next[nbuf := b];
        order := [b] + order;
        b := b + 1;
      }
      forall x | 0 <= x < nbuf ensures x in order {
        assert order[n - 1 - x] == x;
      }
    }

    /** First scan of bget: the buffer holding a block, or the head. */
    method FindCached(dev: nat, blockno: nat) returns (b: nat)
      requires Valid()
      ensures b <= nbuf
      ensures b < nbuf ==> Keyed(bufs[b], dev, blockno)
      ensures b == nbuf <==> !Cached(dev, blockno)
    {
      b := next[nbuf];
      ghost var k := 1;
      assert next[At(nbuf, order, 0)] == At(nbuf, order, After(order, 0));
      while b != nbuf
        invariant 1 <= k <= |order| + 1
        invariant b == if k <= |order| then At(nbuf, order, k) else nbuf
        invariant forall j :: 0 <= j < k - 1 ==> !Keyed(bufs[order[j]], dev, blockno)
        decreases |order| + 1 - k
      {
        if Keyed(bufs[b], dev, blockno) {
          return;
        }
        b := next[b];
        k := k + 1;
      }
      forall i | 0 <= i < nbuf ensures !Keyed(bufs[i], dev, blockno) {
        assert i in order;
      }
    }

    /** `b` is evictable and every buffer used less recently is not. */
    ghost predicate IsVictim(b: nat)
      reads this
      requires |bufs| == nbuf && forall i :: 0 <= i < |order| ==> order[i] < nbuf
    {
      exists k :: 0 <= k < |order| && order[k] == b && Evictable(bufs[b]) && forall j :: k < j < |order| ==>
        !Evictable(bufs[order[j]])
    }

    /** Second scan of bget: the least recently used buffer that can be recycled, or the head. */
    method FindVictim() returns (b: nat)
      requires Valid()
      ensures b <= nbuf
      ensures b < nbuf ==> IsVictim(b)
      ensures b == nbuf <==> !Room(bufs)
    {
      b := prev[nbuf];
      ghost var k := |order|;
      assert prev[At(nbuf, order, After(order, |order|))] == At(nbuf, order, |order|);
      while b != nbuf
        invariant 0 <= k <= |order|
        invariant b == At(nbuf, order, k)
        invariant forall j :: k <= j < |order| ==> !Evictable(bufs[order[j]])
        decreases k
      {
        if Evictable(bufs[b]) {
          assert order[k - 1] == b;
          return;
        }
        assert prev[At(nbuf, order, After(order, k - 1))] == At(nbuf, order, k - 1);
        b := prev[b];
        k := k - 1;
      }
      forall i | 0 <= i < nbuf ensures !Evictable(bufs[i]) {
        assert i in order;
      }
    }

    /**
     Find the buffer of a block, or recycle the least recently used one that is
     neither referenced nor dirty, and lock it.
     */
    method Bget(dev: nat, blockno: nat) returns (b: nat)
      requires Valid() && dev != 0
      requires Cached(dev, blockno) || Room(bufs)
      requires Unlocked(dev, blockno)
      modifies this`bufs
      ensures Valid()
      ensures b < nbuf && Keyed(bufs[b], dev, blockno)
      ensures if old(Cached(dev, blockno))
              then bufs == old(bufs)[b := old(bufs[b]).(refcnt := old(bufs[b].refcnt) + 1, locked := true)]
              else && old(IsVictim(b))
                   && bufs == old(bufs)[b := Buf(false, false, dev, blockno, 1, true, old(bufs[b]).data)]
      ensures forall k :: 0 <= k < |disk| ==> View(k) == old(View(k))
    {
      b := FindCached(dev, blockno);
      if b != nbuf {
        bufs := bufs[b := bufs[b].(refcnt := bufs[b].refcnt + 1, locked := true)];
        BookkeepingIsInvisible(old(bufs), bufs, disk);
        return;
      }
      b := FindVictim();
      var recycled := Buf(false, false, dev, blockno, 1, true, bufs[b].data);
      bufs := bufs[b := recycled];
      forall x | 0 <= x < |disk| ensures View(x) == old(View(x)) {
        EvictionIsInvisible(old(bufs), disk, b, recycled, x);
      }
    }

    /** Sync a buffer with the disk: write it out if dirty, else read it in. */
    method Iderw(b: nat)
      requires Valid() && b < nbuf && bufs[b].locked
      requires bufs[b].valid ==> bufs[b].dirty
      requires bufs[b].dev == DISK_DEV && bufs[b].blockno < |disk|
      modifies this`bufs, this`disk, this`writes
      ensures Valid()
      ensures bufs == old(bufs)[b := old(bufs[b]).(dirty := false, valid := true, data := bufs[b].data)]
      ensures bufs[b].data == disk[bufs[b].blockno] == old(View(bufs[b].blockno))
      ensures if old(bufs[b].dirty)
              then && disk == old(disk)[bufs[b].blockno := old(bufs[b].data)]
                   && writes == old(writes) + [Write(bufs[b].blockno, old(bufs[b].data))]
              else disk == old(disk) && writes == old(writes)
      ensures forall k :: 0 <= k < |disk| ==> View(k) == old(View(k))
    {
      var p := bufs[b].blockno;
      if bufs[b].dirty {
        bufs := bufs[b := bufs[b].(dirty := false)];
        disk := disk[p := bufs[b].data];
        writes := writes + [Write(p, bufs[b].data)];
      } else {
        bufs := bufs[b := bufs[b].(data := disk[p])];
      }
      bufs := bufs[b := bufs[b].(valid := true)];
      forall k | 0 <= k < |disk| ensures View(k) == old(View(k)) {
        SyncIsInvisible(old(bufs), old(disk), b, bufs, disk, k);
      }
      LogicalIsBuffer(bufs, disk, b);
    }

    /** A locked buffer with the logical content of the block. */
    method Bread(dev: nat, blockno: nat) returns (b: nat)
      requires Valid() && dev == DISK_DEV && blockno < |disk|
      requires Cached(dev, blockno) || Room(bufs)
      requires Unlocked(dev, blockno)
      modifies this
      ensures Valid() && disk == old(disk) && writes == old(writes) && order == old(order)
      ensures b < nbuf && Keyed(bufs[b], dev, blockno) && bufs[b].valid && bufs[b].locked
      ensures bufs[b].data == old(View(blockno))
      ensures bufs[b].dirty || bufs[b].data == disk[blockno]
      ensures forall k :: 0 <= k < |disk| ==> View(k) == old(View(k))
      ensures bufs == old(bufs)[b := bufs[b]] && bufs[b].refcnt == old(bufs[b].refcnt) + 1
      ensures bufs[b].dirty == old(bufs[b].dirty)
      ensures old(Cached(dev, blockno)) ==> old(Keyed(bufs[b], dev, blockno))
      ensures old(bufs[b].dirty) ==> bufs[b] == old(bufs[b]).(refcnt := old(bufs[b].refcnt) + 1, locked := true)
      ensures !old(Cached(dev, blockno)) ==> old(Evictable(bufs[b]))
    {
      b := Bget(dev, blockno);
      if !bufs[b].valid {
        Iderw(b);
      } else {
        LogicalIsBuffer(bufs, disk, b);
      }
    }

    /** The holder of a buffer edits its data in place (the memmove and memset of callers). */
    method Modify(b: nat, data: Block)
      requires Valid() && b < nbuf && bufs[b].valid && bufs[b].locked && |data| == WORDS
      modifies this`bufs
      ensures Valid() && bufs == old(bufs)[b := old(bufs[b]).(data := data)]
      ensures View(bufs[b].blockno) == data
      ensures forall k :: 0 <= k < |disk| && k != bufs[b].blockno ==> View(k) == old(View(k))
    {
      bufs := bufs[b := bufs[b].(data := data)];
      LogicalIsBuffer(bufs, disk, b);
      forall k | 0 <= k < |disk| && k != bufs[b].blockno ensures View(k) == old(View(k)) {
        assert forall i :: Holds(old(bufs), i, k) <==> Holds(bufs, i, k);
        SameLogical(old(bufs), disk, bufs, disk, k);
      }
    }

    /** log_write's last act: the dirty flag keeps the buffer in the cache. */
    method Pin(b: nat)
      requires Valid() && b < nbuf && bufs[b].valid && bufs[b].locked
      modifies this`bufs
      ensures Valid() && bufs == old(bufs)[b := old(bufs[b]).(dirty := true)]
      ensures forall k :: 0 <= k < |disk| ==> View(k) == old(View(k))
    {
      bufs := bufs[b := bufs[b].(dirty := true)];
      BookkeepingIsInvisible(old(bufs), bufs, disk);
    }

    /** Write a held buffer through to the disk. */
    method Bwrite(b: nat)
      requires Valid() && b < nbuf && bufs[b].valid && bufs[b].locked
      modifies this`bufs, this`disk, this`writes
      ensures Valid() && bufs == old(bufs)[b := old(bufs[b]).(dirty := false)]
      ensures disk == old(disk)[bufs[b].blockno := bufs[b].data]
      ensures writes == old(writes) + [Write(bufs[b].blockno, bufs[b].data)]
      ensures forall k :: 0 <= k < |disk| ==> View(k) == old(View(k))
    {
      bufs := bufs[b := bufs[b].(dirty := true)];
      BookkeepingIsInvisible(old(bufs), bufs, disk);
      Iderw(b);
      LogicalIsBuffer(bufs, disk, b);
    }

    /** Unlink a buffer and insert it right after the list head. */
    method MoveToFront(b: nat)
      requires Valid() && b < nbuf
      modifies this`next, this`prev, this`order
      ensures Valid()
      ensures exists k :: 0 <= k < |old(order)| && old(order)[k] == b && order == [b] + Remove(old(order), k)
    {
      assert b in order;
      ghost var k :| 0 <= k < |order| && order[k] == b;
      UnlinkKeepsRing(next, prev, nbuf, order, k);
      prev := prev[next[b] := prev[b]];
      next := next[prev[b] := next[b]];
      order := Remove(order, k);
      PushKeepsRing(next, prev, nbuf, order, b);
      next := next[b := next[nbuf]];
      prev := prev[b := nbuf];
      prev := prev[next[nbuf] := b];
      next := next[nbuf := b];
      order := [b] + order;
      forall x | 0 <= x < nbuf ensures x in order {
        if x != b { RemoveKeepsOthers(old(order), k, x); }
      }
    }

    /**
     Let go of a buffer whose edits were either pinned or written out.  When the last
     reference goes, the buffer moves to the front of the list.
     */
    method Brelse(b: nat)
      requires Valid() && b < nbuf && bufs[b].valid && bufs[b].locked
      requires bufs[b].dirty || bufs[b].data == disk[bufs[b].blockno]
      modifies this`bufs, this`next, this`prev, this`order
      ensures Valid()
      ensures bufs == old(bufs)[b := old(bufs[b]).(locked := false, refcnt := old(bufs[b].refcnt) - 1)]
      ensures forall k :: 0 <= k < |disk| ==> View(k) == old(View(k))
      ensures if bufs[b].refcnt > 0 then order == old(order)
              else exists k :: 0 <= k < |old(order)| && old(order)[k] == b && order == [b] + Remove(old(order), k)
    {
      bufs := bufs[b := bufs[b].(locked := false, refcnt := bufs[b].refcnt - 1)];
      BookkeepingIsInvisible(old(bufs), bufs, disk);
      if bufs[b].refcnt == 0 {
        MoveToFront(b);
      }
    }
  }
}
