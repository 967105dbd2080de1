/**
 What a crash can leave behind.  Commit and recovery are the sequences of block
 writes they make; a crash keeps the disk reached so far and nothing else.
 */
module CrashSafety {
  import opened BufferCache

  type Disk = seq<Block>

  /** Where the log lives: a header block, then the logged blocks. */
  datatype Layout = Layout(start: nat, size: nat) {
    predicate InLog(b: nat) {
      start <= b < start + size
    }

    predicate Fits(d: Disk) {
      && 1 <= size && start + size <= |d|
      && forall k :: 0 <= k < |d| ==> |d[k]| == WORDS
    }
  }

  /** The blocks one transaction changes and their new contents. */
  datatype Transaction = Transaction(blocks: seq<nat>, contents: seq<Block>) {
    predicate Fits(l: Layout, d: Disk) {
      && |blocks| == |contents| && |blocks| < l.size && |blocks| < WORDS
      && (forall t :: 0 <= t < |blocks| ==> blocks[t] < |d| && !l.InLog(blocks[t]) && |contents[t]| == WORDS)
      && (forall s, t :: 0 <= s < t < |blocks| ==> blocks[s] != blocks[t])
    }
  }

  function Apply(d: Disk, ws: seq<Write>): (r: Disk)
    ensures |r| == |d|
  {
    if ws == [] then d
    else
      var w, before := ws[|ws| - 1], Apply(d, ws[..|ws| - 1]);
      if w.blockno < |d| then before[w.blockno := w.data] else before
  }

  /** write_head overwrites the count and the block numbers, and keeps the rest of the block. */
  function Head(h: Block, blocks: seq<nat>): (r: Block)
    requires |blocks| < |h|
    ensures |r| == |h|
  {
    [|blocks|] + blocks + h[1 + |blocks|..]
  }

  /** The header found on disk: a sensible count and the block numbers. */
  predicate HeadOk(h: Block, l: Layout, d: Disk) {
    && |h| == WORDS && 0 <= h[0] < WORDS && h[0] < l.size
    && (forall t :: 1 <= t <= h[0] ==> 0 <= h[t] < |d| && !l.InLog(h[t]))
    && (forall s, t :: 1 <= s < t <= h[0] ==> h[s] != h[t])
  }

  function HeadBlocks(h: Block): (bs: seq<nat>)
    requires |h| == WORDS && 0 <= h[0] < WORDS
    requires forall t :: 1 <= t <= h[0] ==> 0 <= h[t]
    ensures |bs| == h[0]
  {
    seq(h[0], t requires 0 <= t < h[0] => h[1 + t])
  }

  function CopyWrites(to: seq<nat>, contents: seq<Block>): (ws: seq<Write>)
    requires |to| == |contents|
    ensures |ws| == |to|
  {
    seq(|to|, t requires 0 <= t < |to| => Write(to[t], contents[t]))
  }

  function LogSlots(l: Layout, n: nat): (bs: seq<nat>)
    ensures |bs| == n
  {
    seq(n, t => l.start + 1 + t)
  }

  /** The block writes of commit, in order. */
  function CommitWrites(l: Layout, h: Block, tx: Transaction): seq<Write>
    requires |tx.blocks| == |tx.contents| && |tx.blocks| < |h|
  {
    if tx.blocks == [] then []
    else
      CopyWrites(LogSlots(l, |tx.blocks|), tx.contents)
      + [Write(l.start, Head(h, tx.blocks))]
      + CopyWrites(tx.blocks, tx.contents)
      + [Write(l.start, Head(Head(h, tx.blocks), []))]
  }

  lemma CommitWritesInStages(l: Layout, h: Block, tx: Transaction, before: seq<Write>)
    requires |tx.blocks| == |tx.contents| && |tx.blocks| < |h| && tx.blocks != []
    ensures before + CopyWrites(LogSlots(l, |tx.blocks|), tx.contents) + [Write(l.start, Head(h, tx.blocks))]
            + CopyWrites(tx.blocks, tx.contents) + [Write(l.start, Head(Head(h, tx.blocks), []))]
            == before + CommitWrites(l, h, tx)
  {
  }

  /** The block writes of recover_from_log, in order, given the disk it starts from. */
  function RecoverWrites(l: Layout, d: Disk): (ws: seq<Write>)
    requires l.Fits(d) && HeadOk(d[l.start], l, d)
    ensures |ws| == d[l.start][0] + 1
  {
    var h := d[l.start];
    CopyWrites(HeadBlocks(h), d[l.start + 1..l.start + 1 + h[0]]) + [Write(l.start, Head(h, []))]
  }

  // ---- The three states a disk can be found in -------------------------------

  ghost predicate SameHome(l: Layout, d: Disk, d': Disk, except: seq<nat>) {
    && |d'| == |d|
    && forall b :: 0 <= b < |d| && !l.InLog(b) && b !in except ==> d'[b] == d[b]
  }

  /** Empty log, homes as in `d0`. */
  ghost predicate Clean(l: Layout, d0: Disk, d: Disk) {
    l.Fits(d) && d[l.start][0] == 0 && SameHome(l, d0, d, [])
  }

  /** The header names the transaction and the log holds it; its homes may be anything. */
  ghost predicate Pending(l: Layout, d0: Disk, tx: Transaction, d: Disk) {
    && l.Fits(d) && tx.Fits(l, d)
    && d[l.start][0] == |tx.blocks|
    && (forall t :: 1 <= t <= |tx.blocks| ==> d[l.start][t] == tx.blocks[t - 1])
    && (forall t :: 0 <= t < |tx.blocks| ==> d[l.start + 1 + t] == tx.contents[t])
    && SameHome(l, d0, d, tx.blocks)
  }

  /** Every home block holds the transaction's new content if it has one, else the old content. */
  ghost predicate Updated(l: Layout, d0: Disk, tx: Transaction, d: Disk) {
    && SameHome(l, d0, d, tx.blocks)
    && |tx.blocks| == |tx.contents|
    && forall t :: 0 <= t < |tx.blocks| ==> tx.blocks[t] < |d| && d[tx.blocks[t]] == tx.contents[t]
  }

  ghost predicate Done(l: Layout, d0: Disk, tx: Transaction, d: Disk) {
    l.Fits(d) && d[l.start][0] == 0 && Updated(l, d0, tx, d)
  }

  // ---- Effect of a prefix of the writes ---------------------------------------

  lemma ApplyOne(d: Disk, ws: seq<Write>, k: nat)
    requires k < |ws|
    ensures Apply(d, ws[..k + 1]) ==
            if ws[k].blockno < |d| then Apply(d, ws[..k])[ws[k].blockno := ws[k].data] else Apply(d, ws[..k])
  {
    assert ws[..k + 1][..k] == ws[..k];
  }

  lemma ApplySnoc(d: Disk, ws: seq<Write>, w: Write)
    requires w.blockno < |d|
    ensures Apply(d, ws + [w]) == Apply(d, ws)[w.blockno := w.data]
  {
    assert (ws + [w])[..|ws|] == ws;
  }

  lemma {:induction false} ApplyConcat(d: Disk, ws: seq<Write>, vs: seq<Write>)
    ensures Apply(d, ws + vs) == Apply(Apply(d, ws), vs)
  {
    if vs == [] {
      assert ws + vs == ws;
    } else {
      var n := |vs| - 1;
      assert (ws + vs)[..|ws + vs| - 1] == ws + vs[..n];
      ApplyConcat(d, ws, vs[..n]);
    }
  }

  /** Applying the first `k` of the writes `a`, then `b`, then `w`, once `a` is through. */
  lemma ApplyStages(d: Disk, a: seq<Write>, b: seq<Write>, w: Write, k: nat)
    requires |a| <= k <= |a| + |b| + 1 && w.blockno < |d|
    ensures Apply(d, (a + b + [w])[..k]) ==
            if k <= |a| + |b| then Apply(Apply(d, a), b[..k - |a|])
            else Apply(Apply(d, a), b)[w.blockno := w.data]
  {
    TakeStages(a, b, w, k);
    if k <= |a| + |b| {
      ApplyConcat(d, a, b[..k - |a|]);
    } else {
      ApplySnoc(d, a + b, w);
      ApplyConcat(d, a, b);
    }
  }

  lemma TakeStages<T>(a: seq<T>, b: seq<T>, w: T, k: nat)
    requires |a| <= k <= |a| + |b| + 1
    ensures (a + b + [w])[..k] == if k <= |a| + |b| then a + b[..k - |a|] else a + b + [w]
  {
  }

  lemma TakeAll<T>(s: seq<T>)
    ensures s[..|s|] == s
  {
  }

  /** A prefix of a copy changes exactly the targets it has reached. */
  lemma {:induction false} ApplyCopy(d: Disk, to: seq<nat>, contents: seq<Block>, k: nat)
    requires |to| == |contents| && k <= |to|
    requires forall t :: 0 <= t < |to| ==> to[t] < |d|
    requires forall s, t :: 0 <= s < t < |to| ==> to[s] != to[t]
    ensures var d' := Apply(d, CopyWrites(to, contents)[..k]);
            && (forall t :: 0 <= t < k ==> d'[to[t]] == contents[t])
            && (forall b :: 0 <= b < |d| && b !in to[..k] ==> d'[b] == d[b])
  {
    var ws := CopyWrites(to, contents);
    if k > 0 {
      ApplyCopy(d, to, contents, k - 1);
      ApplyOne(d, ws, k - 1);
      assert to[..k] == to[..k - 1] + [to[k - 1]];
    }
  }

  /** Crash while the log blocks are being written. */
  lemma LoggingPrefix(l: Layout, d0: Disk, tx: Transaction, k: nat)
    requires l.Fits(d0) && tx.Fits(l, d0) && d0[l.start][0] == 0 && k <= |tx.blocks|
    ensures var d := Apply(d0, CopyWrites(LogSlots(l, |tx.blocks|), tx.contents)[..k]);
            && Clean(l, d0, d) && d[l.start] == d0[l.start]
            && forall t :: 0 <= t < k ==> d[l.start + 1 + t] == tx.contents[t]
  {
    var to := LogSlots(l, |tx.blocks|);
    ApplyCopy(d0, to, tx.contents, k);
    KeepsWords(d0, CopyWrites(to, tx.contents)[..k]);
    assert forall t :: 0 <= t < |to| ==> to[t] == l.start + 1 + t;
  }

  lemma HeadWords(h: Block, blocks: seq<nat>)
    requires |blocks| < |h|
    ensures Head(h, blocks)[0] == |blocks| && forall t :: 1 <= t <= |blocks| ==> Head(h, blocks)[t] == blocks[t - 1]
  {
  }

  /** A header that names the blocks of a filled log makes it a pending transaction. */
  lemma NamedIsPending(l: Layout, d0: Disk, tx: Transaction, d: Disk, h: Block)
    requires l.Fits(d0) && tx.Fits(l, d0) && Clean(l, d0, d) && |h| == WORDS
    requires forall t :: 0 <= t < |tx.blocks| ==> d[l.start + 1 + t] == tx.contents[t]
    requires h[0] == |tx.blocks| && forall t :: 1 <= t <= |tx.blocks| ==> h[t] == tx.blocks[t - 1]
    ensures Pending(l, d0, tx, d[l.start := h])
  {
  }

  /** The header write turns a filled log into a pending transaction. */
  lemma HeaderWrite(l: Layout, d0: Disk, tx: Transaction)
    requires l.Fits(d0) && tx.Fits(l, d0) && d0[l.start][0] == 0
    ensures var logging := CopyWrites(LogSlots(l, |tx.blocks|), tx.contents);
            Pending(l, d0, tx, Apply(d0, logging)[l.start := Head(d0[l.start], tx.blocks)])
  {
    var logging := CopyWrites(LogSlots(l, |tx.blocks|), tx.contents);
    TakeAll(logging);
    LoggingPrefix(l, d0, tx, |tx.blocks|);
    HeadWords(d0[l.start], tx.blocks);
    NamedIsPending(l, d0, tx, Apply(d0, logging), Head(d0[l.start], tx.blocks));
  }

  /** Crash while home blocks are being installed, from the log that holds them. */
  lemma InstallPrefix(l: Layout, d0: Disk, tx: Transaction, d: Disk, k: nat)
    requires Pending(l, d0, tx, d) && k <= |tx.blocks|
    ensures var d' := Apply(d, CopyWrites(tx.blocks, tx.contents)[..k]);
            && Pending(l, d0, tx, d') && d'[l.start] == d[l.start]
            && forall t :: 0 <= t < k ==> d'[tx.blocks[t]] == tx.contents[t]
  {
    ApplyCopy(d, tx.blocks, tx.contents, k);
    KeepsWords(d, CopyWrites(tx.blocks, tx.contents)[..k]);
  }

  /** The disk after `k` writes of commit, by the stage that write `k` belongs to. */
  lemma CommitStages(l: Layout, d0: Disk, tx: Transaction, k: nat)
    requires l.Fits(d0) && tx.Fits(l, d0) && tx.blocks != []
    requires k <= 2 * |tx.blocks| + 2
    ensures var n, h := |tx.blocks|, d0[l.start];
            var logging := CopyWrites(LogSlots(l, n), tx.contents);
            var install := CopyWrites(tx.blocks, tx.contents);
            var d := Apply(d0, CommitWrites(l, h, tx)[..k]);
            var mid := Apply(d0, logging)[l.start := Head(h, tx.blocks)];
            && (k <= n ==> d == Apply(d0, logging[..k]))
            && (n < k <= 2 * n + 1 ==> d == Apply(mid, install[..k - n - 1]))
            && (k == 2 * n + 2 ==> d == Apply(mid, install[..n])[l.start := Head(Head(h, tx.blocks), [])])
  {
    var n, h := |tx.blocks|, d0[l.start];
    var logging := CopyWrites(LogSlots(l, n), tx.contents);
    var header := [Write(l.start, Head(h, tx.blocks))];
    var install := CopyWrites(tx.blocks, tx.contents);
    var ws := CommitWrites(l, h, tx);
    if k <= n {
      assert ws[..k] == logging[..k];
    } else {
      ApplySnoc(d0, logging, header[0]);
      ApplyStages(d0, logging + header, install, Write(l.start, Head(Head(h, tx.blocks), [])), k);
      TakeAll(install);
    }
  }

  /** Clearing the header of a fully installed transaction finishes it. */
  lemma EraseWrite(l: Layout, d0: Disk, tx: Transaction, d: Disk, h: Block)
    requires Pending(l, d0, tx, d) && |h| == WORDS && h[0] == 0
    requires forall t :: 0 <= t < |tx.blocks| ==> d[tx.blocks[t]] == tx.contents[t]
    ensures Done(l, d0, tx, d[l.start := h])
  {
  }

  /** Crash point `k` inside commit: before the header write nothing happened, after it the log holds it all. */
  lemma CommitPrefix(l: Layout, d0: Disk, tx: Transaction, k: nat)
    requires l.Fits(d0) && tx.Fits(l, d0) && d0[l.start][0] == 0 && tx.blocks != []
    requires k <= 2 * |tx.blocks| + 2
    ensures var d := Apply(d0, CommitWrites(l, d0[l.start], tx)[..k]);
            && (k <= |tx.blocks| ==> Clean(l, d0, d))
            && (|tx.blocks| < k <= 2 * |tx.blocks| + 1 ==> Pending(l, d0, tx, d))
            && (k == 2 * |tx.blocks| + 2 ==> Done(l, d0, tx, d))
  {
    var n := |tx.blocks|;
    CommitStages(l, d0, tx, k);
    if k <= n {
      LoggingPrefix(l, d0, tx, k);
    } else {
      HeaderWrite(l, d0, tx);
      var mid := Apply(d0, CopyWrites(LogSlots(l, n), tx.contents))[l.start := Head(d0[l.start], tx.blocks)];
      if k <= 2 * n + 1 {
        InstallPrefix(l, d0, tx, mid, k - n - 1);
      } else {
        InstallPrefix(l, d0, tx, mid, n);
        EraseWrite(l, d0, tx, Apply(mid, CopyWrites(tx.blocks, tx.contents)[..n]),
          Head(Head(d0[l.start], tx.blocks), []));
      }
    }
  }

  /** An uninterrupted commit installs the whole transaction and empties the log. */
  lemma CommitInstalls(l: Layout, d0: Disk, tx: Transaction)
    requires l.Fits(d0) && tx.Fits(l, d0) && d0[l.start][0] == 0
    ensures Done(l, d0, tx, Apply(d0, CommitWrites(l, d0[l.start], tx)))
  {
    var ws := CommitWrites(l, d0[l.start], tx);
    if tx.blocks != [] {
      CommitPrefix(l, d0, tx, |ws|);
      assert ws[..|ws|] == ws;
    }
  }

  lemma {:induction false} KeepsWords(d: Disk, ws: seq<Write>)
    requires forall k :: 0 <= k < |d| ==> |d[k]| == WORDS
    requires forall i :: 0 <= i < |ws| ==> |ws[i].data| == WORDS
    ensures forall k :: 0 <= k < |d| ==> |Apply(d, ws)[k]| == WORDS
  {
    if ws != [] {
      KeepsWords(d, ws[..|ws| - 1]);
    }
  }

  // ---- Recovery -----------------------------------------------------------------

  /** A crash `k` writes into a recovery of a disk whose log is empty. */
  lemma RecoverClean(l: Layout, d: Disk, k: nat)
    requires l.Fits(d) && d[l.start][0] == 0 && k <= 1
    ensures HeadOk(d[l.start], l, d) && |RecoverWrites(l, d)| == 1
    ensures Apply(d, RecoverWrites(l, d)[..k]) == d
  {
    var h := d[l.start];
    assert HeadBlocks(h) == [] && d[l.start + 1..l.start + 1] == [];
    assert Head(h, []) == h;
    var ws := RecoverWrites(l, d);
    assert ws == [Write(l.start, h)];
    if k == 1 {
      assert ws[..k] == ws;
      assert Apply(d, []) == d;
      assert d[l.start := h] == d;
    }
  }

  /** A crash `k` writes into a recovery of a disk with a committed transaction in its log. */
  lemma RecoverPending(l: Layout, d0: Disk, tx: Transaction, d: Disk, k: nat)
    requires Pending(l, d0, tx, d) && k <= |tx.blocks| + 1
    ensures HeadOk(d[l.start], l, d) && |RecoverWrites(l, d)| == |tx.blocks| + 1
    ensures var d' := Apply(d, RecoverWrites(l, d)[..k]);
            if k <= |tx.blocks| then Pending(l, d0, tx, d') else Done(l, d0, tx, d')
  {
    var n, h := |tx.blocks|, d[l.start];
    PendingWrites(l, d0, tx, d);
    var install, w := CopyWrites(tx.blocks, tx.contents), Write(l.start, Head(h, []));
    ApplyStages(d, [], install, w, k);
    if k <= n {
      InstallPrefix(l, d0, tx, d, k);
    } else {
      InstallPrefix(l, d0, tx, d, n);
      TakeAll(install);
      EraseWrite(l, d0, tx, Apply(d, install), w.data);
    }
  }

  lemma PendingWrites(l: Layout, d0: Disk, tx: Transaction, d: Disk)
    requires Pending(l, d0, tx, d)
    ensures HeadOk(d[l.start], l, d)
    ensures RecoverWrites(l, d) == [] + CopyWrites(tx.blocks, tx.contents) + [Write(l.start, Head(d[l.start], []))]
  {
    assert HeadBlocks(d[l.start]) == tx.blocks;
    assert d[l.start + 1..l.start + 1 + |tx.blocks|] == tx.contents;
  }

  /** One reboot: recovery runs, and is itself cut short after `cut` writes unless it finishes first. */
  function Reboot(l: Layout, d: Disk, cut: nat): Disk
    requires l.Fits(d) && HeadOk(d[l.start], l, d)
  {
    var ws := RecoverWrites(l, d);
    Apply(d, ws[..if cut < |ws| then cut else |ws|])
  }

  /** Any number of interrupted recoveries, then one that completes. */
  ghost function Recover(l: Layout, d: Disk, cuts: seq<nat>): Disk
    requires l.Fits(d) && HeadOk(d[l.start], l, d)
    decreases |cuts|
  {
    if cuts == [] then Apply(d, RecoverWrites(l, d))
    else
      var d' := Reboot(l, d, cuts[0]);
      if l.Fits(d') && HeadOk(d'[l.start], l, d') then Recover(l, d', cuts[1..]) else d'
  }

  lemma {:induction false} RecoverFromClean(l: Layout, d: Disk, cuts: seq<nat>)
    requires l.Fits(d) && d[l.start][0] == 0
    ensures HeadOk(d[l.start], l, d) && Recover(l, d, cuts) == d
    decreases |cuts|
  {
    RecoverClean(l, d, 1);
    var ws := RecoverWrites(l, d);
    assert ws[..1] == ws;
    if cuts != [] {
      RecoverClean(l, d, if cuts[0] < 1 then cuts[0] else 1);
      RecoverFromClean(l, d, cuts[1..]);
    }
  }

  lemma {:induction false} RecoverFromPending(l: Layout, d0: Disk, tx: Transaction, d: Disk, cuts: seq<nat>)
    requires Pending(l, d0, tx, d)
    ensures HeadOk(d[l.start], l, d) && Done(l, d0, tx, Recover(l, d, cuts))
    decreases |cuts|
  {
    var n := |tx.blocks|;
    if cuts == [] {
      RecoverPending(l, d0, tx, d, n + 1);
      var ws := RecoverWrites(l, d);
      assert ws[..n + 1] == ws;
    } else {
      var cut := if cuts[0] < n + 1 then cuts[0] else n + 1;
      RecoverPending(l, d0, tx, d, cut);
      var d' := Reboot(l, d, cuts[0]);
      if cut <= n {
        RecoverFromPending(l, d0, tx, d', cuts[1..]);
      } else {
        RecoverFromClean(l, d', cuts[1..]);
      }
    }
  }

  // ---- The theorems -------------------------------------------------------------

  /** The commit point: the header write, which follows the |blocks| log writes. */
  predicate Committed(tx: Transaction, k: nat) {
    tx.blocks != [] && k > |tx.blocks|
  }

  /**
   Crash atomicity.  Crash commit after any `k` of its writes, crash any number of
   recoveries anywhere, then let one finish: the log is empty, and the homes are all as
   before the transaction, or, exactly if the header write was made, all as after it.
   */
  lemma CrashAtomicity(l: Layout, d0: Disk, tx: Transaction, k: nat, cuts: seq<nat>)
    requires l.Fits(d0) && tx.Fits(l, d0) && d0[l.start][0] == 0
    requires k <= |CommitWrites(l, d0[l.start], tx)|
    ensures var d := Apply(d0, CommitWrites(l, d0[l.start], tx)[..k]);
            && l.Fits(d) && HeadOk(d[l.start], l, d)
            && if Committed(tx, k) then Done(l, d0, tx, Recover(l, d, cuts)) else Clean(l, d0, Recover(l, d, cuts))
  {
    var d := Apply(d0, CommitWrites(l, d0[l.start], tx)[..k]);
    if tx.blocks == [] {
      RecoverFromClean(l, d, cuts);
    } else {
      CommitPrefix(l, d0, tx, k);
      if |tx.blocks| < k <= 2 * |tx.blocks| + 1 {
        RecoverFromPending(l, d0, tx, d, cuts);
      } else {
        RecoverFromClean(l, d, cuts);
      }
    }
  }

  /** What happens to a machine: a transaction commits, or the power fails `k` writes into it. */
  datatype Event = Commit(tx: Transaction) | Crash(tx: Transaction, k: nat, cuts: seq<nat>)

  /** The log is empty. */
  predicate Idle(l: Layout, d: Disk) {
    l.Fits(d) && d[l.start][0] == 0
  }

  /** How many writes commit makes. */
  function CommitLength(tx: Transaction): nat {
    if tx.blocks == [] then 0 else 2 * |tx.blocks| + 2
  }

  predicate EventOk(l: Layout, d: Disk, e: Event) {
    e.tx.Fits(l, d) && (e.Crash? ==> e.k <= CommitLength(e.tx))
  }

  ghost function After(l: Layout, d: Disk, e: Event): Disk
    requires Idle(l, d) && EventOk(l, d, e)
  {
    match e
    case Commit(tx) => Apply(d, CommitWrites(l, d[l.start], tx))
    case Crash(tx, k, cuts) =>
      var d' := Apply(d, CommitWrites(l, d[l.start], tx)[..k]);
      CrashAtomicity(l, d, tx, k, cuts);
      Recover(l, d', cuts)
  }

  /** Each event leaves the log empty for the next one. */
  lemma StillIdle(l: Layout, d: Disk, e: Event)
    requires Idle(l, d) && EventOk(l, d, e)
    ensures Idle(l, After(l, d, e)) && |After(l, d, e)| == |d|
  {
    if e.Crash? {
      CrashAtomicity(l, d, e.tx, e.k, e.cuts);
    } else {
      CommitInstalls(l, d, e.tx);
    }
  }

  lemma FitsAnyway(l: Layout, d: Disk, d': Disk, events: seq<Event>)
    requires |d'| == |d| && events != [] && forall i :: 0 <= i < |events| ==> EventOk(l, d, events[i])
    ensures forall i :: 0 <= i < |events| - 1 ==> EventOk(l, d', events[1..][i])
  {
    forall i | 0 <= i < |events| - 1 ensures EventOk(l, d', events[1..][i]) {
      assert EventOk(l, d, events[i + 1]);
    }
  }

  /** The disk after a history of events, the log empty at its start. */
  ghost function History(l: Layout, d: Disk, events: seq<Event>): Disk
    requires Idle(l, d) && forall i :: 0 <= i < |events| ==> EventOk(l, d, events[i])
    decreases |events|
  {
    if events == [] then d
    else
      StillIdle(l, d, events[0]);
      FitsAnyway(l, d, After(l, d, events[0]), events);
      History(l, After(l, d, events[0]), events[1..])
  }

  /** The specification: home contents as a map, changed only by transactions that committed. */
  ghost function Expected(home: map<nat, Block>, events: seq<Event>): map<nat, Block>
    decreases |events|
  {
    if events == [] then home
    else
      var e := events[0];
      var home' := if e.Commit? || Committed(e.tx, e.k) then Install(home, e.tx) else home;
      Expected(home', events[1..])
  }

  ghost function Install(home: map<nat, Block>, tx: Transaction): map<nat, Block> {
    home + map t | 0 <= t < |tx.blocks| && t < |tx.contents| && Named(tx, t) :: tx.blocks[t] := tx.contents[t]
  }

  /** The first mention of a block in a transaction (the only one, when it fits). */
  ghost predicate Named(tx: Transaction, t: nat)
    requires t < |tx.blocks|
  {
    forall s :: 0 <= s < t ==> tx.blocks[s] != tx.blocks[t]
  }

  ghost function Home(l: Layout, d: Disk): map<nat, Block> {
    map b: nat | b < |d| && !l.InLog(b) :: d[b]
  }

  lemma UpdatedIsInstall(l: Layout, d0: Disk, tx: Transaction, d: Disk)
    requires Updated(l, d0, tx, d) && tx.Fits(l, d0)
    ensures Home(l, d) == Install(Home(l, d0), tx)
  {
    var m := map t | 0 <= t < |tx.blocks| && t < |tx.contents| && Named(tx, t) :: tx.blocks[t] := tx.contents[t];
    forall t | 0 <= t < |tx.blocks| ensures tx.blocks[t] in m && m[tx.blocks[t]] == tx.contents[t] {
      assert Named(tx, t);
    }
  }

  lemma EventIsAtomic(l: Layout, d: Disk, e: Event)
    requires Idle(l, d) && EventOk(l, d, e)
    ensures Home(l, After(l, d, e)) ==
            if e.Commit? || Committed(e.tx, e.k) then Install(Home(l, d), e.tx) else Home(l, d)
  {
    var mid, tx := After(l, d, e), e.tx;
    if e.Crash? {
      CrashAtomicity(l, d, tx, e.k, e.cuts);
      if Committed(tx, e.k) {
        UpdatedIsInstall(l, d, tx, mid);
      }
    } else {
      CommitInstalls(l, d, tx);
      UpdatedIsInstall(l, d, tx, mid);
    }
  }

  /**
   Over every history of commits and crashes from an empty log, the home blocks hold exactly
   the committed transactions, and the log is empty again.
   */
  lemma {:induction false} HistoryIsAtomic(l: Layout, d: Disk, events: seq<Event>)
    requires Idle(l, d) && forall i :: 0 <= i < |events| ==> EventOk(l, d, events[i])
    ensures Home(l, History(l, d, events)) == Expected(Home(l, d), events) && Idle(l, History(l, d, events))
    decreases |events|
  {
    if events != [] {
      EventIsAtomic(l, d, events[0]);
      StillIdle(l, d, events[0]);
      FitsAnyway(l, d, After(l, d, events[0]), events);
      HistoryIsAtomic(l, After(l, d, events[0]), events[1..]);
    }
  }
}
