/**
 The redo log (log.c) running over the buffer cache: what log_write records,
 what commit and recovery write, and why a commit writes the latest contents.
 */
module Log {
  import opened BufferCache
  import opened CrashSafety
  import opened Params
  import opened SetSizes

  ghost predicate NoneLocked(bufs: seq<Buf>) {
    forall i :: 0 <= i < |bufs| ==> !bufs[i].locked
  }

  /** No process has or waits for a buffer. */
  ghost predicate Unused(bufs: seq<Buf>) {
    forall i :: 0 <= i < |bufs| ==> bufs[i].refcnt == 0
  }

  lemma UnusedUnlocked(bufs: seq<Buf>, disk: seq<Block>)
    requires Consistent(bufs, disk) && Unused(bufs)
    ensures NoneLocked(bufs)
  {
  }

  /** A block that log_write has marked dirty is in the cache, with its latest content. */
  ghost predicate Pinned(bufs: seq<Buf>, b: nat, data: Block) {
    exists i :: 0 <= i < |bufs| && bufs[i].dirty && Keyed(bufs[i], DISK_DEV, b) && bufs[i].data == data
  }

  ghost predicate IsPinned(bufs: seq<Buf>, b: nat) {
    exists i :: 0 <= i < |bufs| && bufs[i].dirty && Keyed(bufs[i], DISK_DEV, b)
  }

  ghost predicate AllPinned(bufs: seq<Buf>, tx: Transaction) {
    |tx.blocks| == |tx.contents| && forall t :: 0 <= t < |tx.blocks| ==> Pinned(bufs, tx.blocks[t], tx.contents[t])
  }

  /** Logged blocks live outside the log, so no block of the log is ever pinned. */
  ghost predicate LogUnpinned(l: Layout, bufs: seq<Buf>) {
    forall i :: 0 <= i < |bufs| && bufs[i].dirty ==> !l.InLog(bufs[i].blockno)
  }

  ghost predicate TwoRoom(bufs: seq<Buf>) {
    exists i, j :: 0 <= i < j < |bufs| && Evictable(bufs[i]) && Evictable(bufs[j])
  }

  /** Exactly the logged blocks are pinned, each once. */
  ghost predicate PinsLogged(bufs: seq<Buf>, block: seq<nat>) {
    && NoRepeats(block)
    && (forall t :: 0 <= t < |block| ==> IsPinned(bufs, block[t]))
    && (forall i :: 0 <= i < |bufs| && bufs[i].dirty ==> bufs[i].dev == DISK_DEV && bufs[i].blockno in block)
  }

  /** The buffers of the logged blocks. */
  lemma {:induction false} PinnedAt(bufs: seq<Buf>, block: seq<nat>) returns (at: seq<nat>)
    requires forall t :: 0 <= t < |block| ==> IsPinned(bufs, block[t])
    ensures |at| == |block|
    ensures forall t :: 0 <= t < |at| ==> at[t] < |bufs| && bufs[at[t]].dirty && bufs[at[t]].blockno == block[t]
  {
    if block == [] {
      at := [];
    } else {
      assert IsPinned(bufs, block[0]);
      var i :| 0 <= i < |bufs| && bufs[i].dirty && Keyed(bufs[i], DISK_DEV, block[0]);
      forall t | 0 <= t < |block| - 1 ensures IsPinned(bufs, block[1..][t]) {
        assert IsPinned(bufs, block[t + 1]);
      }
      var rest := PinnedAt(bufs, block[1..]);
      at := [i] + rest;
    }
  }

  /** All the numbers below `n` but `i`. */
  function Others(n: nat, i: nat): seq<nat>
    requires i < n
  {
    seq(n - 1, x requires 0 <= x => if x < i then x else x + 1)
  }

  lemma InOthers(n: nat, i: nat, x: nat)
    requires i < n && x < n && x != i
    ensures x in Others(n, i)
  {
    assert Others(n, i)[if x < i then x else x - 1] == x;
  }

  /** With no buffer in use, one can be recycled exactly when the log names fewer blocks than there are buffers. */
  lemma SpareBufferIff(bufs: seq<Buf>, block: seq<nat>)
    requires Unique(bufs) && Unused(bufs) && PinsLogged(bufs, block)
    ensures Room(bufs) <==> |block| < |bufs|
  {
    if i: nat :| i < |bufs| && Evictable(bufs[i]) {
      var at := PinnedAt(bufs, block);
      forall t | 0 <= t < |at| ensures at[t] in Others(|bufs|, i) {
        InOthers(|bufs|, i, at[t]);
      }
      Pigeonhole(at, Others(|bufs|, i));
    } else {
      assert forall i :: 0 <= i < |bufs| ==> !Evictable(bufs[i]);
      Pigeonhole(seq(|bufs|, i requires 0 <= i < |bufs| => bufs[i].blockno), block);
    }
  }

  /** A cache of any size, all of whose buffers the log pins. */
  lemma FullCache(n: nat, data: Block) returns (bufs: seq<Buf>, disk: seq<Block>, block: seq<nat>)
    requires |data| == WORDS
    ensures |bufs| == |block| == n && Consistent(bufs, disk) && Unused(bufs) && PinsLogged(bufs, block) && !Room(bufs)
  {
    bufs := seq(n, i requires 0 <= i => Buf(true, true, DISK_DEV, i, 0, false, data));
    disk, block := seq(n, _ => data), seq(n, i requires 0 <= i => i);
    forall t | 0 <= t < n ensures IsPinned(bufs, block[t]) {
      assert bufs[t].dirty && Keyed(bufs[t], DISK_DEV, block[t]);
    }
    forall i | 0 <= i < n ensures bufs[i].blockno in block {
      assert block[i] == i;
    }
    SpareBufferIff(bufs, block);
  }

  /** What copying blocks may do to the buffers: unpin `dst`, pin nothing, keep every spare buffer and every count. */
  ghost predicate CopyFrame(was: seq<Buf>, now: seq<Buf>, dst: seq<nat>) {
    && |was| == |now| && (forall i :: 0 <= i < |was| ==> now[i].refcnt == was[i].refcnt)
    && (forall i :: 0 <= i < |was| && Evictable(was[i]) ==> Evictable(now[i]))
    && (forall i :: 0 <= i < |was| && was[i].dirty && was[i].blockno !in dst ==> now[i] == was[i])
    && (forall i :: 0 <= i < |was| && now[i].dirty ==>
          was[i].dirty && now[i].blockno == was[i].blockno && was[i].blockno !in dst)
  }

  lemma TakeOneMore<T>(a: seq<T>, s: seq<T>, k: nat)
    requires k < |s|
    ensures a + s[..k + 1] == (a + s[..k]) + [s[k]]
  {
  }

  lemma CopyFrameStep(a: seq<Buf>, b: seq<Buf>, c: seq<Buf>, dst: seq<nat>, k: nat)
    requires k < |dst| && CopyFrame(a, b, dst[..k]) && CopyFrame(b, c, [dst[k]])
    ensures CopyFrame(a, c, dst[..k + 1])
  {
    assert dst[..k + 1] == dst[..k] + [dst[k]];
  }

  lemma FrameKeeps(l: Layout, was: seq<Buf>, now: seq<Buf>, dst: seq<nat>)
    requires CopyFrame(was, now, dst)
    ensures LogUnpinned(l, was) ==> LogUnpinned(l, now)
    ensures Room(was) ==> Room(now)
    ensures TwoRoom(was) ==> TwoRoom(now)
  {
  }

  lemma PinnedStays(was: seq<Buf>, now: seq<Buf>, dst: seq<nat>, b: nat, data: Block)
    requires CopyFrame(was, now, dst) && b !in dst && Pinned(was, b, data)
    ensures Pinned(now, b, data)
  {
  }

  /** With nobody editing, a pinned block reads as its buffer and any other as it is on disk. */
  lemma ReadsAs(bufs: seq<Buf>, disk: seq<Block>, k: nat)
    requires Consistent(bufs, disk) && NoneLocked(bufs) && k < |disk|
    ensures forall data :: Pinned(bufs, k, data) ==> Logical(bufs, disk, k) == data
    ensures (forall i :: 0 <= i < |bufs| && bufs[i].dirty ==> bufs[i].blockno != k) ==>
              Logical(bufs, disk, k) == disk[k]
  {
    forall i | Holds(bufs, i, k) ensures Logical(bufs, disk, k) == bufs[i].data {
      LogicalIsBuffer(bufs, disk, i);
    }
    assert forall i :: 0 <= i < |bufs| && bufs[i].dirty && Keyed(bufs[i], DISK_DEV, k) ==> Holds(bufs, i, k);
  }

  /** After installing `k` blocks, the next one is still in the log and there is a buffer for its home. */
  lemma CanInstall(l: Layout, tx: Transaction, cur: seq<Block>, was: seq<Buf>, bufs: seq<Buf>, disk: seq<Block>, k: nat)
    requires tx.Fits(l, disk) && l.start + l.size <= |disk| && k < |tx.blocks|
    requires CopyFrame(was, bufs, tx.blocks[..k])
    requires TwoRoom(was) || AllPinned(was, Transaction(tx.blocks, cur))
    requires forall t :: 0 <= t < |tx.blocks| ==> disk[l.start + 1 + t] == tx.contents[t]
    ensures TwoRoom(bufs) || exists data :: Pinned(bufs, tx.blocks[k], data)
    ensures Apply(disk, CopyWrites(tx.blocks, tx.contents)[..k])[l.start + 1 + k] == tx.contents[k]
  {
    ApplyCopy(disk, tx.blocks, tx.contents, k);
    assert l.InLog(l.start + 1 + k);
    FrameKeeps(l, was, bufs, tx.blocks[..k]);
    if !TwoRoom(was) {
      PinnedStays(was, bufs, tx.blocks[..k], tx.blocks[k], cur[k]);
    }
  }

  /** `got` is what bread makes of buffer `was` to hold a block of the disk. */
  ghost predicate Fetched(was: Buf, got: Buf, blockno: nat) {
    && got.valid && got.locked && Keyed(got, DISK_DEV, blockno)
    && got.refcnt == was.refcnt + 1 && got.dirty == was.dirty
    && (Keyed(was, DISK_DEV, blockno) || Evictable(was))
    && (was.dirty ==> got == was.(refcnt := was.refcnt + 1, locked := true))
  }

  function Released(b: Buf): Buf
    requires b.refcnt > 0
  {
    b.(locked := false, refcnt := b.refcnt - 1)
  }

  /** Fetching one block, editing it, logging it and releasing it adds it to the pinned blocks. */
  lemma PinOne(was: seq<Buf>, b: nat, got: Buf, blockno: nat, data: Block, block: seq<nat>, block': seq<nat>)
    requires b < |was| && Fetched(was[b], got, blockno) && Unused(was) && PinsLogged(was, block)
    requires blockno in block' && (block' == block || (blockno !in block && block' == block + [blockno]))
    ensures var now := was[b := Released(got.(data := data, dirty := true))];
            Unused(now) && PinsLogged(now, block')
  {
    var now := was[b := Released(got.(data := data, dirty := true))];
    forall t | 0 <= t < |block'| ensures IsPinned(now, block'[t]) {
      if block'[t] == blockno {
        assert now[b].dirty && Keyed(now[b], DISK_DEV, blockno);
      } else {
        assert IsPinned(was, block'[t]);
        var p :| 0 <= p < |was| && was[p].dirty && Keyed(was[p], DISK_DEV, block'[t]);
        assert now[p] == was[p];
      }
    }
    assert forall x :: x in block ==> x in block';
  }

  /** Fetching a block of the log, leaving it as it is on disk and releasing it. */
  lemma HeadFrame(l: Layout, was: seq<Buf>, b: nat, got: Buf, blockno: nat, data: Block)
    requires b < |was| && Fetched(was[b], got, blockno) && l.InLog(blockno)
    requires NoneLocked(was) && Room(was) && LogUnpinned(l, was)
    ensures !got.dirty
    ensures var now := was[b := Released(got.(data := data, dirty := false))];
            CopyFrame(was, now, []) && NoneLocked(now) && Room(now) && LogUnpinned(l, now)
  {
    var now := was[b := Released(got.(data := data, dirty := false))];
    assert !was[b].dirty;
    assert CopyFrame(was, now, []);
    FrameKeeps(l, was, now, []);
  }

  /** Fetching two blocks, overwriting and writing out the second, and releasing both. */
  lemma CopyFrameHolds(was: seq<Buf>, src: nat, dst: nat, got: seq<Buf>, sb: nat, db: nat, data: Block)
    requires src < |was| && dst < |was| && src != dst && |got| == |was| && sb != db
    requires Fetched(was[src], got[src], sb) && Fetched(was[dst], got[dst], db)
    requires got == was[src := got[src]][dst := got[dst]]
    requires NoneLocked(was) && Unique(got) && forall i :: 0 <= i < |got| && got[i].dirty ==> got[i].dev == DISK_DEV
    ensures CopyFrame(was, got[src := Released(got[src])][dst := Released(got[dst].(data := data, dirty := false))],
              [db])
  {
  }

  /** The disk once the log is filled, and once the header is written. */
  lemma LoggedDisk(l: Layout, d0: Disk, tx: Transaction)
    requires l.Fits(d0) && tx.Fits(l, d0) && d0[l.start][0] == 0
    ensures var d1 := Apply(d0, CopyWrites(LogSlots(l, |tx.blocks|), tx.contents));
            var d2 := d1[l.start := Head(d0[l.start], tx.blocks)];
            l.Fits(d1) && d1[l.start] == d0[l.start] && Pending(l, d0, tx, d2)
  {
    var n := |tx.blocks|;
    LoggingPrefix(l, d0, tx, n);
    HeaderWrite(l, d0, tx);
    var logging := CopyWrites(LogSlots(l, n), tx.contents);
    assert logging[..n] == logging;
  }

  /** The disk once everything is installed still has its header. */
  lemma InstalledHead(l: Layout, d0: Disk, tx: Transaction, d2: Disk)
    requires Pending(l, d0, tx, d2)
    ensures var d3 := Apply(d2, CopyWrites(tx.blocks, tx.contents)); l.Fits(d3) && d3[l.start] == d2[l.start]
  {
    TakeAll(CopyWrites(tx.blocks, tx.contents));
    InstallPrefix(l, d0, tx, d2, |tx.blocks|);
  }

  /** Once the header is cleared, the disk is the one after all the writes of a commit. */
  lemma ErasedDisk(l: Layout, d0: Disk, tx: Transaction, d2: Disk)
    requires l.Fits(d0) && tx.Fits(l, d0) && tx.blocks != []
    requires d2 == Apply(d0, CopyWrites(LogSlots(l, |tx.blocks|), tx.contents))[l.start := Head(d0[l.start], tx.blocks)]
    ensures Apply(d2, CopyWrites(tx.blocks, tx.contents))[l.start := Head(Head(d0[l.start], tx.blocks), [])]
         == Apply(d0, CommitWrites(l, d0[l.start], tx))
  {
    CommitStages(l, d0, tx, 2 * |tx.blocks| + 2);
    TakeAll(CopyWrites(tx.blocks, tx.contents));
    TakeAll(CommitWrites(l, d0[l.start], tx));
  }

  /** The disk once everything is installed, and once the header is cleared. */
  lemma InstalledDisk(l: Layout, d0: Disk, tx: Transaction, d1: Disk)
    requires l.Fits(d0) && tx.Fits(l, d0) && d0[l.start][0] == 0 && tx.blocks != []
    requires d1 == Apply(d0, CopyWrites(LogSlots(l, |tx.blocks|), tx.contents))
    requires Pending(l, d0, tx, d1[l.start := Head(d0[l.start], tx.blocks)])
    ensures var h := Head(d0[l.start], tx.blocks);
            var d3 := Apply(d1[l.start := h], CopyWrites(tx.blocks, tx.contents));
            && l.Fits(d3) && d3[l.start] == h
            && d3[l.start := Head(h, [])] == Apply(d0, CommitWrites(l, d0[l.start], tx))
  {
    var d2 := d1[l.start := Head(d0[l.start], tx.blocks)];
    InstalledHead(l, d0, tx, d2);
    ErasedDisk(l, d0, tx, d2);
  }

  /** Logging and the header write leave the logged blocks pinned with their contents. */
  lemma StillPinned(l: Layout, was: seq<Buf>, b1: seq<Buf>, b2: seq<Buf>, tx: Transaction)
    requires AllPinned(was, tx) && CopyFrame(was, b1, LogSlots(l, |tx.blocks|)) && CopyFrame(b1, b2, [])
    requires |tx.blocks| < l.size && forall t :: 0 <= t < |tx.blocks| ==> !l.InLog(tx.blocks[t])
    ensures AllPinned(b2, tx) && CopyFrame(was, b2, LogSlots(l, |tx.blocks|))
  {
    forall t | 0 <= t < |tx.blocks| ensures Pinned(b2, tx.blocks[t], tx.contents[t]) {
      PinnedStays(was, b1, LogSlots(l, |tx.blocks|), tx.blocks[t], tx.contents[t]);
      PinnedStays(b1, b2, [], tx.blocks[t], tx.contents[t]);
    }
  }

  /** The transaction that a log header on disk names. */
  ghost function LoggedTransaction(l: Layout, d: Disk): Transaction
    requires l.Fits(d) && HeadOk(d[l.start], l, d)
  {
    Transaction(HeadBlocks(d[l.start]), d[l.start + 1..l.start + 1 + d[l.start][0]])
  }

  /** The disk once recovery has installed the logged transaction. */
  lemma RecoveredDisk(l: Layout, d: Disk, tx: Transaction)
    requires l.Fits(d) && HeadOk(d[l.start], l, d) && tx == LoggedTransaction(l, d)
    ensures tx.Fits(l, d) && Pending(l, d, tx, d)
    ensures var d' := Apply(d, CopyWrites(tx.blocks, tx.contents));
            l.Fits(d') && d'[l.start] == d[l.start] &&
              d'[l.start := Head(d[l.start], [])] == Apply(d, RecoverWrites(l, d))
  {
    NamedIsPending(l, d, tx);
    InstalledHead(l, d, tx, d);
    ApplySnoc(d, CopyWrites(tx.blocks, tx.contents), Write(l.start, Head(d[l.start], [])));
  }

  lemma NamedIsPending(l: Layout, d: Disk, tx: Transaction)
    requires l.Fits(d) && HeadOk(d[l.start], l, d) && tx == LoggedTransaction(l, d)
    ensures tx.Fits(l, d) && Pending(l, d, tx, d)
  {
  }

  lemma RecoverWritesInStages(l: Layout, d: Disk, tx: Transaction, before: seq<Write>)
    requires l.Fits(d) && HeadOk(d[l.start], l, d) && tx == LoggedTransaction(l, d)
    ensures before + CopyWrites(tx.blocks, tx.contents) + [Write(l.start, Head(d[l.start], []))]
            == before + RecoverWrites(l, d)
  {
  }

  /** Once nothing is pinned and the disk has the transaction, every block is on disk as it reads and read. */
  lemma SettledViews(l: Layout, was: seq<Buf>, d0: Disk, tx: Transaction, now: seq<Buf>, d: Disk)
    requires Consistent(was, d0) && NoneLocked(was) && Consistent(now, d) && NoneLocked(now)
    requires AllPinned(was, tx) && forall i :: 0 <= i < |was| && was[i].dirty ==> was[i].blockno in tx.blocks
    requires forall i :: 0 <= i < |now| ==> !now[i].dirty
    requires Updated(l, d0, tx, d)
    ensures forall k :: 0 <= k < |d| ==> Logical(now, d, k) == d[k]
    ensures forall k :: 0 <= k < |d| && !l.InLog(k) ==> Logical(now, d, k) == Logical(was, d0, k)
  {
    forall k | 0 <= k < |d| ensures Logical(now, d, k) == d[k] {
      ReadsAs(now, d, k);
    }
    forall k | 0 <= k < |d| && !l.InLog(k) ensures d[k] == Logical(was, d0, k) {
      ReadsAs(was, d0, k);
    }
  }

  class Log {
    const bc: Bcache
    const l: Layout
    var block: seq<nat>  // lh.block[..lh.n]
    var outstanding: nat

    constructor (bc: Bcache, l: Layout)
      ensures this.bc == bc && this.l == l && block == [] && outstanding == 0
    {
      this.bc, this.l, block, outstanding := bc, l, [], 0;
    }

    /** The state in which log.c's own loops run: nobody holds a buffer, and one can be recycled. */
    ghost predicate Quiet()
      reads bc
    {
      bc.Valid() && NoneLocked(bc.bufs) && Room(bc.bufs) && LogUnpinned(l, bc.bufs)
    }

    /** bread, for what is needed of it here. */
    method Fetch(blockno: nat) returns (b: nat)
      requires bc.Valid() && blockno < |bc.disk|
      requires bc.Cached(DISK_DEV, blockno) || Room(bc.bufs)
      requires bc.Unlocked(DISK_DEV, blockno)
      modifies bc
      ensures bc.Valid() && bc.disk == old(bc.disk) && bc.writes == old(bc.writes)
      ensures b < bc.nbuf && bc.bufs == old(bc.bufs)[b := bc.bufs[b]]
      ensures Fetched(old(bc.bufs[b]), bc.bufs[b], blockno)
      ensures bc.bufs[b].data == old(bc.View(blockno))
      ensures bc.bufs[b].dirty || bc.bufs[b].data == bc.disk[blockno]
      ensures old(bc.Cached(DISK_DEV, blockno)) ==> old(Keyed(bc.bufs[b], DISK_DEV, blockno))
      ensures forall k :: 0 <= k < |bc.disk| ==> bc.View(k) == old(bc.View(k))
    {
      b := bc.Bread(DISK_DEV, blockno);
    }

    /** brelse, likewise. */
    method Release(b: nat)
      requires bc.Valid() && b < bc.nbuf && bc.bufs[b].valid && bc.bufs[b].locked
      requires bc.bufs[b].dirty || bc.bufs[b].data == bc.disk[bc.bufs[b].blockno]
      modifies bc
      ensures bc.Valid() && bc.disk == old(bc.disk) && bc.writes == old(bc.writes)
      ensures old(bc.bufs[b].refcnt) > 0 && bc.bufs == old(bc.bufs)[b := Released(old(bc.bufs[b]))]
    {
      bc.Brelse(b);
    }

    /** Read the log block, then the home block. */
    method FetchBoth(slot: nat, home: nat) returns (lbuf: nat, hbuf: nat)
      requires Quiet()
      requires slot < |bc.disk| && home < |bc.disk| && slot != home
      requires (exists data :: Pinned(bc.bufs, home, data)) || TwoRoom(bc.bufs)
      modifies bc
      ensures bc.Valid() && bc.disk == old(bc.disk) && bc.writes == old(bc.writes)
      ensures lbuf < bc.nbuf && hbuf < bc.nbuf && lbuf != hbuf
      ensures bc.bufs == old(bc.bufs)[lbuf := bc.bufs[lbuf]][hbuf := bc.bufs[hbuf]]
      ensures Fetched(old(bc.bufs)[lbuf], bc.bufs[lbuf], slot) && bc.bufs[lbuf].data == old(bc.View(slot))
      ensures Fetched(old(bc.bufs)[hbuf], bc.bufs[hbuf], home) && bc.bufs[hbuf].data == old(bc.View(home))
      ensures bc.bufs[lbuf].dirty || bc.bufs[lbuf].data == bc.disk[slot]
      ensures bc.bufs[hbuf].dirty || bc.bufs[hbuf].data == bc.disk[home]
    {
      ghost var was := bc.bufs;
      lbuf := Fetch(slot);
      if TwoRoom(was) {
        ghost var i, j :| 0 <= i < j < |was| && Evictable(was[i]) && Evictable(was[j]);
        assert bc.bufs[if i == lbuf then j else i] == was[if i == lbuf then j else i];
      } else {
        ghost var data :| Pinned(was, home, data);
        ghost var i :| 0 <= i < |was| && was[i].dirty && Keyed(was[i], DISK_DEV, home);
        assert bc.bufs[i] == was[i];
      }
      hbuf := Fetch(home);
    }

    /** A held buffer is changed and written out. */
    method WriteOut(b: nat, data: Block)
      requires bc.Valid() && b < bc.nbuf && bc.bufs[b].valid && bc.bufs[b].locked && |data| == WORDS
      modifies bc
      ensures bc.Valid() && bc.bufs == old(bc.bufs)[b := old(bc.bufs[b]).(data := data, dirty := false)]
      ensures bc.disk == old(bc.disk)[old(bc.bufs[b].blockno) := data]
      ensures bc.writes == old(bc.writes) + [Write(old(bc.bufs[b].blockno), data)]
    {
      bc.Modify(b, data);
      bc.Bwrite(b);
    }

    /** Copy one held buffer over another, write that one out and release both. */
    method Overwrite(src: nat, dst: nat)
      requires bc.Valid() && src < bc.nbuf && dst < bc.nbuf && src != dst
      requires bc.bufs[src].valid && bc.bufs[src].locked && bc.bufs[dst].valid && bc.bufs[dst].locked
      requires bc.bufs[src].dirty || bc.bufs[src].data == bc.disk[bc.bufs[src].blockno]
      modifies bc
      ensures bc.Valid()
      ensures var data, b := old(bc.bufs[src].data), old(bc.bufs[dst].blockno);
              && bc.disk == old(bc.disk)[b := data]
              && bc.writes == old(bc.writes) + [Write(b, data)]
              && bc.bufs == old(bc.bufs)[src := Released(old(bc.bufs[src]))]
                                        [dst := Released(old(bc.bufs[dst]).(data := data, dirty := false))]
    {
      WriteOut(dst, bc.bufs[src].data);
      assert bc.bufs[src] == old(bc.bufs)[src];
      Release(src);
      assert bc.bufs[dst] == old(bc.bufs)[dst].(data := old(bc.bufs[src].data), dirty := false);
      Release(dst);
    }

    /** Read the log block and the home block, the one to copy from first. */
    method FetchPair(slot: nat, home: nat, toLog: bool, ghost w: Write) returns (src: nat, dst: nat)
      requires Quiet() && slot < |bc.disk| && home < |bc.disk| && l.InLog(slot) && !l.InLog(home)
      requires (exists data :: Pinned(bc.bufs, home, data)) || TwoRoom(bc.bufs)
      requires w.blockno == if toLog then slot else home
      requires if toLog then Pinned(bc.bufs, home, w.data) else bc.disk[slot] == w.data
      modifies bc
      ensures bc.Valid() && bc.disk == old(bc.disk) && bc.writes == old(bc.writes)
      ensures src < bc.nbuf && dst < bc.nbuf && src != dst
      ensures bc.bufs == old(bc.bufs)[src := bc.bufs[src]][dst := bc.bufs[dst]]
      ensures Fetched(old(bc.bufs)[src], bc.bufs[src], if toLog then home else slot) && bc.bufs[src].data == w.data
      ensures Fetched(old(bc.bufs)[dst], bc.bufs[dst], w.blockno)
      ensures bc.bufs[src].dirty || bc.bufs[src].data == bc.disk[bc.bufs[src].blockno]
    {
      ReadsAs(bc.bufs, bc.disk, if toLog then home else slot);
      var lbuf, hbuf := FetchBoth(slot, home);
      src, dst := if toLog then hbuf else lbuf, if toLog then lbuf else hbuf;
    }

    /**
     The loop body shared by write_log (to the log) and install_trans (from the log):
     read the log block, read the home block, copy one over the other, write it out.
     */
    method CopyBlock(slot: nat, home: nat, toLog: bool, ghost w: Write)
      requires Quiet() && slot < |bc.disk| && home < |bc.disk| && l.InLog(slot) && !l.InLog(home)
      requires (exists data :: Pinned(bc.bufs, home, data)) || TwoRoom(bc.bufs)
      requires w.blockno == if toLog then slot else home
      requires if toLog then Pinned(bc.bufs, home, w.data) else bc.disk[slot] == w.data
      modifies bc
      ensures Quiet() && CopyFrame(old(bc.bufs), bc.bufs, [w.blockno])
      ensures bc.disk == old(bc.disk)[w.blockno := w.data]
      ensures bc.writes == old(bc.writes) + [w]
    {
      ghost var was := bc.bufs;
      var src, dst := FetchPair(slot, home, toLog, w);
      ghost var got := bc.bufs;
      Overwrite(src, dst);
      CopyFrameHolds(was, src, dst, got, got[src].blockno, w.blockno, w.data);
      FrameKeeps(l, was, bc.bufs, [w.blockno]);
    }

    /** One turn of write_log, `tail` blocks after it started from buffers `was` and disk `disk`. */
    method LogOne(tail: nat, ghost tx: Transaction, ghost dst: seq<nat>, ghost was: seq<Buf>, ghost disk: seq<Block>)
      requires Quiet() && tx.Fits(l, disk) && l.start + l.size <= |disk| && tail < |block| && block == tx.blocks
      requires dst == LogSlots(l, |block|)
      requires AllPinned(was, tx) && CopyFrame(was, bc.bufs, dst[..tail])
      requires bc.disk == Apply(disk, CopyWrites(dst, tx.contents)[..tail])
      modifies bc
      ensures Quiet() && CopyFrame(was, bc.bufs, dst[..tail + 1])
      ensures bc.writes == old(bc.writes) + [CopyWrites(dst, tx.contents)[tail]]
      ensures bc.disk == Apply(disk, CopyWrites(dst, tx.contents)[..tail + 1])
    {
      PinnedStays(was, bc.bufs, dst[..tail], block[tail], tx.contents[tail]);
      CopyBlock(l.start + tail + 1, block[tail], true, CopyWrites(dst, tx.contents)[tail]);
      CopyFrameStep(was, old(bc.bufs), bc.bufs, dst, tail);
      ApplyOne(disk, CopyWrites(dst, tx.contents), tail);
    }

    /** write_log: every logged block, as it is pinned, into its slot of the log. */
    method WriteLog(ghost contents: seq<Block>)
      requires Quiet() && Transaction(block, contents).Fits(l, bc.disk) && l.start + l.size <= |bc.disk|
      requires AllPinned(bc.bufs, Transaction(block, contents))
      modifies bc
      ensures Quiet() && CopyFrame(old(bc.bufs), bc.bufs, LogSlots(l, |block|))
      ensures bc.writes == old(bc.writes) + CopyWrites(LogSlots(l, |block|), contents)
      ensures bc.disk == Apply(old(bc.disk), CopyWrites(LogSlots(l, |block|), contents))
    {
      ghost var was, disk, tx, dst := bc.bufs, bc.disk, Transaction(block, contents), LogSlots(l, |block|);
      ghost var ws := CopyWrites(dst, contents);
      var tail := 0;
      while tail < |block|
        invariant 0 <= tail <= |block|
        invariant Quiet() && CopyFrame(was, bc.bufs, dst[..tail])
        invariant bc.writes == old(bc.writes) + ws[..tail]
        invariant bc.disk == Apply(disk, ws[..tail])
      {
        LogOne(tail, tx, dst, was, disk);
        TakeOneMore(old(bc.writes), ws, tail);
        tail := tail + 1;
      }
      assert ws[..|block|] == ws && dst[..|block|] == dst;
    }

    /** One turn of install_trans, `tail` blocks after it started from buffers `was` and disk `disk`. */
    method InstallOne(tail: nat, ghost tx: Transaction, ghost cur: seq<Block>, ghost was: seq<Buf>,
                      ghost disk: seq<Block>)
      requires Quiet() && tx.Fits(l, disk) && l.start + l.size <= |disk| && tail < |block| && block == tx.blocks
      requires forall t :: 0 <= t < |block| ==> disk[l.start + 1 + t] == tx.contents[t]
      requires TwoRoom(was) || AllPinned(was, Transaction(block, cur))
      requires CopyFrame(was, bc.bufs, block[..tail])
      requires bc.disk == Apply(disk, CopyWrites(block, tx.contents)[..tail])
      modifies bc
      ensures Quiet() && CopyFrame(was, bc.bufs, block[..tail + 1])
      ensures bc.writes == old(bc.writes) + [Write(block[tail], tx.contents[tail])]
      ensures bc.disk == Apply(disk, CopyWrites(block, tx.contents)[..tail + 1])
    {
      CanInstall(l, tx, cur, was, bc.bufs, disk, tail);
      CopyBlock(l.start + tail + 1, block[tail], false, Write(block[tail], tx.contents[tail]));
      CopyFrameStep(was, old(bc.bufs), bc.bufs, block, tail);
      ApplyOne(disk, CopyWrites(block, tx.contents), tail);
    }

    /** install_trans: every slot of the log over the block it was taken from. */
    method InstallTrans(ghost contents: seq<Block>, ghost cur: seq<Block>)
      requires Quiet() && Transaction(block, contents).Fits(l, bc.disk) && l.start + l.size <= |bc.disk|
      requires forall t :: 0 <= t < |block| ==> bc.disk[l.start + 1 + t] == contents[t]
      requires TwoRoom(bc.bufs) || AllPinned(bc.bufs, Transaction(block, cur))
      modifies bc
      ensures Quiet() && CopyFrame(old(bc.bufs), bc.bufs, block)
      ensures bc.writes == old(bc.writes) + CopyWrites(block, contents)
      ensures bc.disk == Apply(old(bc.disk), CopyWrites(block, contents))
    {
      ghost var was, disk, ws := bc.bufs, bc.disk, CopyWrites(block, contents);
      var tail := 0;
      while tail < |block|
        invariant 0 <= tail <= |block|
        invariant Quiet() && CopyFrame(was, bc.bufs, block[..tail])
        invariant bc.writes == old(bc.writes) + ws[..tail]
        invariant bc.disk == Apply(disk, ws[..tail])
      {
        InstallOne(tail, Transaction(block, contents), cur, was, disk);
        TakeOneMore(old(bc.writes), ws, tail);
        tail := tail + 1;
      }
      assert ws[..|block|] == ws && block[..|block|] == block;
    }

    /** Write the in-memory header over the count and block numbers of the header block. */
    method WriteHead()
      requires Quiet() && l.Fits(bc.disk) && |block| < WORDS
      modifies bc
      ensures Quiet() && CopyFrame(old(bc.bufs), bc.bufs, [])
      ensures var h := Head(old(bc.disk)[l.start], block);
              bc.disk == old(bc.disk)[l.start := h] && bc.writes == old(bc.writes) + [Write(l.start, h)]
    {
      ReadsAs(bc.bufs, bc.disk, l.start);
      var b := Fetch(l.start);
      ghost var got := bc.bufs[b];
      var hb := FillHead(bc.bufs[b].data);
      HeadFrame(l, old(bc.bufs), b, got, l.start, hb);
      WriteOut(b, hb);
      Release(b);
      assert bc.bufs == old(bc.bufs)[b := Released(got.(data := hb, dirty := false))];
    }

    /** The loop of write_head over a copy of the header block. */
    method FillHead(h: Block) returns (hb: Block)
      requires |block| < |h|
      ensures hb == Head(h, block)
    {
      hb := h[0 := |block|];
      var i := 0;
      while i < |block|
        invariant 0 <= i <= |block|
        invariant hb == [|block|] + block[..i] + h[1 + i..]
      {
        hb := hb[1 + i := block[i]];
        i := i + 1;
      }
      assert block[..|block|] == block;
    }

    /** The loop of read_head over a copy of the header block. */
    method ScanHead(lh: Block) returns (bs: seq<nat>)
      requires |lh| == WORDS && 0 <= lh[0] < WORDS && forall t :: 1 <= t <= lh[0] ==> 0 <= lh[t]
      ensures bs == HeadBlocks(lh)
    {
      bs := [];
      var i := 0;
      while i < lh[0]
        invariant 0 <= i <= lh[0]
        invariant bs == HeadBlocks(lh)[..i]
      {
        bs := bs + [lh[1 + i]];
        i := i + 1;
      }
      assert HeadBlocks(lh)[..lh[0]] == HeadBlocks(lh);
    }

    /** Read the header from disk into memory. */
    method ReadHead()
      requires Quiet() && l.Fits(bc.disk) && HeadOk(bc.disk[l.start], l, bc.disk)
      modifies bc, this`block
      ensures Quiet() && CopyFrame(old(bc.bufs), bc.bufs, [])
      ensures bc.disk == old(bc.disk) && bc.writes == old(bc.writes)
      ensures block == HeadBlocks(bc.disk[l.start])
    {
      ReadsAs(bc.bufs, bc.disk, l.start);
      var b := Fetch(l.start);
      ghost var got := bc.bufs[b];
      HeadFrame(l, old(bc.bufs), b, got, l.start, got.data);
      block := ScanHead(bc.bufs[b].data);
      Release(b);
      assert bc.bufs == old(bc.bufs)[b := Released(got.(data := got.data, dirty := false))];
    }

    /**
     Between commits: exactly the logged blocks are pinned, nobody uses a buffer, and the
     log on disk is empty.
     */
    ghost predicate InTransaction()
      reads this, bc
    {
      && bc.Valid() && Unused(bc.bufs) && PinsLogged(bc.bufs, block)
      && l.Fits(bc.disk) && bc.disk[l.start][0] == 0
      && |block| < l.size && |block| <= LOGSIZE
      && (forall t :: 0 <= t < |block| ==> block[t] < |bc.disk| && !l.InLog(block[t]))
    }

    /** The contents of the logged blocks as every reader sees them. */
    ghost function Latest(): (r: seq<Block>)
      reads this, bc
      requires forall t :: 0 <= t < |block| ==> block[t] < |bc.disk|
      ensures |r| == |block|
    {
      var bufs, disk, blocks := bc.bufs, bc.disk, block;
      seq(|blocks|, t requires 0 <= t < |blocks| => Logical(bufs, disk, blocks[t]))
    }

    lemma LatestIsPinned()
      requires InTransaction()
      ensures AllPinned(bc.bufs, Transaction(block, Latest()))
    {
      forall t | 0 <= t < |block| ensures Pinned(bc.bufs, block[t], Latest()[t]) {
        assert IsPinned(bc.bufs, block[t]);
        var i :| 0 <= i < |bc.bufs| && bc.bufs[i].dirty && Keyed(bc.bufs[i], DISK_DEV, block[t]);
        LogicalIsBuffer(bc.bufs, bc.disk, i);
      }
    }

    /** The first two stages of commit: up to and including the header write. */
    method LogBlocks(ghost tx: Transaction)
      requires Quiet() && l.Fits(bc.disk) && bc.disk[l.start][0] == 0
      requires block == tx.blocks && tx.Fits(l, bc.disk) && AllPinned(bc.bufs, tx)
      modifies bc
      ensures Quiet() && AllPinned(bc.bufs, tx) && CopyFrame(old(bc.bufs), bc.bufs, LogSlots(l, |block|))
      ensures var logging, h := CopyWrites(LogSlots(l, |block|), tx.contents), Head(old(bc.disk)[l.start], block);
              && bc.writes == old(bc.writes) + logging + [Write(l.start, h)]
              && bc.disk == Apply(old(bc.disk), logging)[l.start := h]
              && Pending(l, old(bc.disk), tx, bc.disk)
    {
      LoggedDisk(l, bc.disk, tx);
      WriteLog(tx.contents);
      ghost var b1 := bc.bufs;
      WriteHead();
      StillPinned(l, old(bc.bufs), b1, bc.bufs, tx);
    }

    /** The last two stages of commit: install, and clear the header. */
    method InstallBlocks(ghost d0: Disk, ghost tx: Transaction)
      requires Quiet() && Pending(l, d0, tx, bc.disk) && block == tx.blocks
      requires TwoRoom(bc.bufs) || AllPinned(bc.bufs, tx)
      requires forall i :: 0 <= i < |bc.bufs| && bc.bufs[i].dirty ==> bc.bufs[i].blockno in block
      modifies bc, this`block
      ensures Quiet() && block == [] && forall i :: 0 <= i < |bc.bufs| ==> !bc.bufs[i].dirty
      ensures Unused(old(bc.bufs)) ==> Unused(bc.bufs)
      ensures var install, h := CopyWrites(tx.blocks, tx.contents), Head(old(bc.disk)[l.start], []);
              && bc.writes == old(bc.writes) + install + [Write(l.start, h)]
              && bc.disk == Apply(old(bc.disk), install)[l.start := h]
    {
      assert CopyWrites(tx.blocks, tx.contents)[..|block|] == CopyWrites(tx.blocks, tx.contents);
      InstallPrefix(l, d0, tx, bc.disk, |block|);
      InstallTrans(tx.contents, tx.contents);
      block := [];
      WriteHead();
    }

    method CommitBlocks(ghost tx: Transaction)
      requires Quiet() && l.Fits(bc.disk) && bc.disk[l.start][0] == 0
      requires block == tx.blocks != [] && tx.Fits(l, bc.disk) && AllPinned(bc.bufs, tx)
      requires forall i :: 0 <= i < |bc.bufs| && bc.bufs[i].dirty ==> bc.bufs[i].blockno in block
      modifies bc, this`block
      ensures Quiet() && block == [] && forall i :: 0 <= i < |bc.bufs| ==> !bc.bufs[i].dirty
      ensures Unused(old(bc.bufs)) ==> Unused(bc.bufs)
      ensures bc.writes == old(bc.writes) + CommitWrites(l, old(bc.disk)[l.start], tx)
      ensures bc.disk == Apply(old(bc.disk), CommitWrites(l, old(bc.disk)[l.start], tx))
    {
      ghost var d0 := bc.disk;
      ghost var d1 := Apply(d0, CopyWrites(LogSlots(l, |block|), tx.contents));
      LogBlocks(tx);
      InstalledDisk(l, d0, tx, d1);
      InstallBlocks(d0, tx);
      CommitWritesInStages(l, d0[l.start], tx, old(bc.writes));
    }

    /**
     Commit makes exactly the writes of CommitWrites for the blocks logged so far with their
     latest contents.  Afterwards nothing is pinned, so every block is on disk as it reads,
     and no home block reads differently from before.  It needs a buffer that is not pinned.
     */
    method Commit()
      requires InTransaction() && (block == [] || |block| < bc.nbuf)
      modifies bc, this`block
      ensures InTransaction() && block == []
      ensures var ws := CommitWrites(l, old(bc.disk)[l.start], Transaction(old(block), old(Latest())));
              bc.writes == old(bc.writes) + ws && bc.disk == Apply(old(bc.disk), ws)
      ensures forall k :: 0 <= k < |bc.disk| ==> bc.View(k) == bc.disk[k]
      ensures forall k :: 0 <= k < |bc.disk| && !l.InLog(k) ==> bc.View(k) == old(bc.View(k))
    {
      ghost var tx := Transaction(block, Latest());
      LatestIsPinned();
      CommitInstalls(l, bc.disk, tx);
      UnusedUnlocked(bc.bufs, bc.disk);
      if |block| > 0 {
        SpareBufferIff(bc.bufs, block);
        CommitBlocks(tx);
      }
      UnusedUnlocked(bc.bufs, bc.disk);
      SettledViews(l, old(bc.bufs), old(bc.disk), tx, bc.bufs, bc.disk);
    }

    /** Boot: read the header, install what it names, clear it.  The cache starts out clean. */
    method RecoverFromLog()
      requires bc.Valid() && bc.nbuf >= 2 && Unused(bc.bufs) && forall i :: 0 <= i < |bc.bufs| ==> !bc.bufs[i].dirty
      requires l.Fits(bc.disk) && HeadOk(bc.disk[l.start], l, bc.disk)
      modifies bc, this`block
      ensures InTransaction() && block == []
      ensures bc.writes == old(bc.writes) + RecoverWrites(l, old(bc.disk))
      ensures bc.disk == Apply(old(bc.disk), RecoverWrites(l, old(bc.disk)))
    {
      ghost var d0 := bc.disk;
      ghost var tx := LoggedTransaction(l, d0);
      RecoveredDisk(l, d0, tx);
      UnusedUnlocked(bc.bufs, bc.disk);
      assert Evictable(bc.bufs[0]) && Evictable(bc.bufs[1]);
      ReadHead();
      FrameKeeps(l, old(bc.bufs), bc.bufs, []);
      InstallBlocks(d0, tx);
      RecoverWritesInStages(l, d0, tx, old(bc.writes));
    }

    /** log_write: record the block, once, and pin its buffer. */
    method LogWrite(b: nat)
      requires bc.Valid() && b < bc.nbuf && bc.bufs[b].valid && bc.bufs[b].locked
      requires |block| < LOGSIZE && |block| < l.size - 1 && outstanding >= 1
      modifies this`block, bc`bufs
      ensures bc.Valid() && bc.bufs == old(bc.bufs)[b := old(bc.bufs[b]).(dirty := true)]
      ensures bc.bufs[b].blockno in block
      ensures block == old(block) || (bc.bufs[b].blockno !in old(block) && block == old(block) + [bc.bufs[b].blockno])
      ensures forall k :: 0 <= k < |bc.disk| ==> bc.View(k) == old(bc.View(k))
    {
      var i := 0;
      while i < |block|
        invariant 0 <= i <= |block|
        invariant bc.bufs[b].blockno !in block[..i]
      {
        if block[i] == bc.bufs[b].blockno {
          break;
        }
        i := i + 1;
      }
      if i == |block| {
        assert block[..i] == block;
        block := block + [bc.bufs[b].blockno];
      }
      bc.Pin(b);
    }

    /** A held buffer is changed, logged and released. */
    method ChangeHeld(b: nat, data: Block)
      requires bc.Valid() && b < bc.nbuf && bc.bufs[b].valid && bc.bufs[b].locked && bc.bufs[b].refcnt > 0 &&
               |data| == WORDS
      requires |block| < LOGSIZE && |block| < l.size - 1 && outstanding >= 1
      modifies bc, this`block
      ensures bc.Valid() && bc.disk == old(bc.disk) && bc.writes == old(bc.writes)
      ensures bc.bufs == old(bc.bufs)[b := Released(old(bc.bufs[b]).(data := data, dirty := true))]
      ensures bc.View(old(bc.bufs[b].blockno)) == data
      ensures forall k :: 0 <= k < |bc.disk| && k != old(bc.bufs[b].blockno) ==> bc.View(k) == old(bc.View(k))
      ensures old(bc.bufs[b]).blockno in block
      ensures block == old(block) ||
              (old(bc.bufs[b]).blockno !in old(block) && block == old(block) + [old(bc.bufs[b]).blockno])
    {
      bc.Modify(b, data);
      LogWrite(b);
      bc.Brelse(b);
    }

    /**
     The typical use: read a block, change it, log it, let go of it.  A block that is not
     logged yet needs a buffer that is not pinned.
     */
    method Update(blockno: nat, data: Block)
      requires InTransaction() && blockno < |bc.disk| && !l.InLog(blockno) && |data| == WORDS
      requires |block| < LOGSIZE && |block| < l.size - 1 && outstanding >= 1
      requires blockno in block || |block| < bc.nbuf
      modifies bc, this`block
      ensures InTransaction() && bc.disk == old(bc.disk) && bc.writes == old(bc.writes)
      ensures blockno in block && (block == old(block) || (blockno !in old(block) && block == old(block) + [blockno]))
      ensures bc.View(blockno) == data
      ensures forall k :: 0 <= k < |bc.disk| && k != blockno ==> bc.View(k) == old(bc.View(k))
    {
      UnusedUnlocked(bc.bufs, bc.disk);
      SpareBufferIff(bc.bufs, block);
      assert blockno in block ==> IsPinned(bc.bufs, blockno);
      var b := Fetch(blockno);
      ghost var got := bc.bufs[b];
      ChangeHeld(b, data);
      assert bc.bufs == old(bc.bufs)[b := Released(got.(data := data, dirty := true))];
      PinOne(old(bc.bufs), b, got, blockno, data, old(block), block);
    }
  }
}
