/**
 Files as byte sequences: what a file's mapped blocks spell out, and what writing a run of
 bytes block by block does to it.
 */
module FsContent {
  import opened FsState

  const MAXBYTES: nat := 71680  // MAXFILE * BSIZE

  /** No file is longer than the slots of an inode allow. */
  ghost predicate Bounded(st: St) {
    forall i :: 0 <= i < |st.inodes| ==> st.inodes[i].size <= MAXBYTES
  }

  /** No holes: every block that starts below the file's size is mapped. */
  ghost predicate NoHoles(st: St)
    requires Shaped(st)
  {
    && Bounded(st)
    && forall i, n {:trigger View(st, i, n)} ::
      0 <= i < |st.inodes| && 0 <= n < MAXFILE && BSIZE * n < st.inodes[i].size ==>
         View(st, i, n).Data?
  }

  /** Byte `k` of file block `n`. */
  ghost function ByteAt(st: St, i: int, n: int, k: int): Byte
    requires Shaped(st) && 0 <= i < |st.inodes| && 0 <= n < MAXFILE && 0 <= k < BSIZE
  {
    if View(st, i, n).Data? then View(st, i, n).block[k] else 0
  }

  /** The bytes of a file. */
  ghost function Content(st: St, i: int): (c: seq<Byte>)
    requires Shaped(st) && 0 <= i < |st.inodes| && st.inodes[i].size <= MAXBYTES
    ensures |c| == st.inodes[i].size
  {
    seq(st.inodes[i].size, p requires 0 <= p < st.inodes[i].size => ByteAt(st, i, p / BSIZE, p % BSIZE))
  }

  /** `c` with `s` written over it from `off` on, growing it if need be. */
  function Splice(c: seq<Byte>, off: nat, s: seq<Byte>): (r: seq<Byte>)
    requires off <= |c|
    ensures |r| == if off + |s| > |c| then off + |s| else |c|
  {
    c[..off] + s + (if off + |s| < |c| then c[off + |s|..] else [])
  }

  /** `r` is `c` with `s` written over it from `off` on. */
  ghost predicate IsSplice(c: seq<Byte>, off: int, s: seq<Byte>, r: seq<Byte>) {
    && 0 <= off <= |c| && |r| == (if off + |s| > |c| then off + |s| else |c|)
    && forall k {:trigger r[k]} :: 0 <= k < |r| ==> r[k] == if off <= k < off + |s| then s[k - off] else c[k]
  }

  lemma SpliceIs(c: seq<Byte>, off: nat, s: seq<Byte>, r: seq<Byte>)
    requires off <= |c|
    ensures IsSplice(c, off, s, r) <==> r == Splice(c, off, s)
  {
    var p := Splice(c, off, s);
    assert forall k :: 0 <= k < |p| ==> p[k] == if off <= k < off + |s| then s[k - off] else c[k];
  }

  /** Writing in two runs is writing the joined run. */
  lemma SpliceTwice(c: seq<Byte>, off: nat, s: seq<Byte>, r: seq<Byte>, t: seq<Byte>, q: seq<Byte>)
    requires IsSplice(c, off, s, r) && IsSplice(r, off + |s|, t, q)
    ensures IsSplice(c, off, s + t, q)
  {
  }

  // ---- One block ------------------------------------------------------------------------

  /** What bmap leaves in a file block: its contents, or zeros for a block just allocated. */
  ghost function Filled(v: Mapped): Bytes {
    if v.Data? then v.block else ZeroBlock()
  }

  function Patch(b: Bytes, k: nat, s: seq<Byte>): (r: Bytes)
    requires k + |s| <= |b|
    ensures |r| == |b|
    ensures forall j {:trigger r[j]} :: 0 <= j < |b| ==> r[j] == if k <= j < k + |s| then s[j - k] else b[j]
  {
    b[..k] + s + b[k + |s|..]
  }

  // ---- A run of bytes written block by block ---------------------------------------------

  ghost predicate SameOthers(st0: St, st: St, ip: int)
    requires Shaped(st0) && Shaped(st) && |st.inodes| == |st0.inodes|
  {
    forall i, n {:trigger View(st, i, n)} :: 0 <= i < |st.inodes| && 0 <= n < MAXFILE && i != ip ==>
      View(st, i, n) == View(st0, i, n)
  }

  /** Blocks that start below `end` are mapped. */
  ghost predicate MappedTo(st: St, ip: int, end: int)
    requires Shaped(st) && 0 <= ip < |st.inodes|
  {
    forall n {:trigger View(st, ip, n)} :: 0 <= n < MAXFILE && BSIZE * n < end ==> View(st, ip, n).Data?
  }

  /** The byte at position `BSIZE * n + k` once `src` is written from `off0` up to `off`. */
  ghost predicate ByteDone(st0: St, st: St, ip: int, off0: int, off: int, src: seq<Byte>, n: int, k: int)
    requires Shaped(st0) && Shaped(st) && 0 <= ip < |st.inodes| == |st0.inodes|
    requires 0 <= n < MAXFILE && 0 <= k < BSIZE && 0 <= off0 <= off <= off0 + |src|
  {
    ByteAt(st, ip, n, k) ==
      if off0 <= BSIZE * n + k < off then src[BSIZE * n + k - off0] else ByteAt(st0, ip, n, k)
  }

  ghost predicate BytesDone(st0: St, st: St, ip: int, off0: int, off: int, src: seq<Byte>)
    requires Shaped(st0) && Shaped(st) && 0 <= ip < |st.inodes| == |st0.inodes|
    requires 0 <= off0 <= off <= off0 + |src|
  {
    forall n, k {:trigger ByteAt(st, ip, n, k)} :: 0 <= n < MAXFILE && 0 <= k < BSIZE ==>
      ByteDone(st0, st, ip, off0, off, src, n, k)
  }

  /** `src` has been written from `off0` up to `off`. */
  ghost predicate Written(st0: St, st: St, ip: int, off0: int, off: int, src: seq<Byte>) {
    && Shaped(st0) && Shaped(st) && SameHeads(st0, st) && 0 <= ip < |st.inodes|
    && 0 <= off0 <= off <= off0 + |src|
    && SameOthers(st0, st, ip)
    && MappedTo(st, ip, st0.inodes[ip].size) && MappedTo(st, ip, off)
    && BytesDone(st0, st, ip, off0, off, src)
  }

  lemma WrittenStart(st: St, ip: int, off: int, src: seq<Byte>)
    requires Shaped(st) && NoHoles(st) && 0 <= ip < |st.inodes| && 0 <= off <= st.inodes[ip].size
    ensures Written(st, st, ip, off, off, src)
  {
    assert MappedTo(st, ip, st.inodes[ip].size) && MappedTo(st, ip, off);
    forall n, k | 0 <= n < MAXFILE && 0 <= k < BSIZE ensures ByteDone(st, st, ip, off, off, src, n, k) {
    }
  }

  lemma WrittenStep(st0: St, st: St, st': St, ip: int, off0: int, off: int, src: seq<Byte>, bn: int, k: int, m: nat)
    requires Written(st0, st, ip, off0, off, src) && Shaped(st')
    requires off == BSIZE * bn + k && 0 <= bn < MAXFILE && 0 <= k && k + m <= BSIZE && off + m <= off0 + |src|
    requires m > 0 && (k + m == BSIZE || off + m == off0 + |src|)
    requires |Filled(View(st, ip, bn))| == BSIZE
    requires OneView(st, st', ip, bn, Data(Patch(Filled(View(st, ip, bn)), k, src[off - off0..off - off0 + m])))
    ensures Written(st0, st', ip, off0, off + m, src)
  {
    var s, end := src[off - off0..off - off0 + m], off + m;
    forall n, j | 0 <= n < MAXFILE && 0 <= j < BSIZE ensures ByteDone(st0, st', ip, off0, end, src, n, j) {
      assert ByteDone(st0, st, ip, off0, off, src, n, j) by { assert 0 <= ByteAt(st, ip, n, j); }
      if n == bn {
        assert View(st', ip, n) == Data(Patch(Filled(View(st, ip, bn)), k, s));
      } else {
        assert View(st', ip, n) == View(st, ip, n);
      }
    }
    forall n | 0 <= n < MAXFILE && BSIZE * n < off + m ensures View(st', ip, n).Data? {
      if n != bn {
        assert View(st', ip, n) == View(st, ip, n);
      }
    }
  }

  /** Setting the size of a file. */
  function SetSize(st: St, ip: int, size: nat): St
    requires 0 <= ip < |st.inodes|
  {
    st.(inodes := st.inodes[ip := st.inodes[ip].(size := size)])
  }

  lemma SetSizeViews(st: St, ip: int, size: nat)
    requires Shaped(st) && 0 <= ip < |st.inodes|
    ensures Shaped(SetSize(st, ip, size))
    ensures forall i, s {:trigger Slot(SetSize(st, ip, size), i, s)} :: 0 <= i < |st.inodes| && 0 <= s < NSLOTS ==>
              Slot(SetSize(st, ip, size), i, s) == Slot(st, i, s)
    ensures forall i, n {:trigger View(SetSize(st, ip, size), i, n)} :: 0 <= i < |st.inodes| && 0 <= n < MAXFILE ==>
              View(SetSize(st, ip, size), i, n) == View(st, i, n)
  {
  }

  lemma SetSizeOwned(st: St, own: Owners, first: nat, ip: int, size: nat)
    requires Owned(st, own, first) && 0 <= ip < |st.inodes|
    ensures Owned(SetSize(st, ip, size), own, first)
  {
    SetSizeViews(st, ip, size);
    var st' := SetSize(st, ip, size);
    forall i, t | 0 <= i < |st'.inodes| && 0 <= t < NSLOTS && Slot(st', i, t) != 0
      ensures NamedBy(st', own, first, Slot(st', i, t), Owner(i, t))
    {
      assert NamedBy(st, own, first, Slot(st, i, t), Owner(i, t));
    }
  }

  /** A completed write splices the bytes into the file, and leaves no hole. */
  lemma WrittenContent(st0: St, st: St, ip: int, off0: int, src: seq<Byte>, size: nat)
    requires Written(st0, st, ip, off0, off0 + |src|, src) && NoHoles(st0)
    requires off0 <= st0.inodes[ip].size && off0 + |src| <= MAXBYTES
    requires size == if off0 + |src| > st0.inodes[ip].size then off0 + |src| else st0.inodes[ip].size
    ensures Shaped(SetSize(st, ip, size)) && NoHoles(SetSize(st, ip, size))
    ensures IsSplice(Content(st0, ip), off0, src, Content(SetSize(st, ip, size), ip))
  {
    SetSizeViews(st, ip, size);
    var st' := SetSize(st, ip, size);
    forall i, n | 0 <= i < |st'.inodes| && 0 <= n < MAXFILE && BSIZE * n < st'.inodes[i].size
      ensures View(st', i, n).Data? {
      assert View(st', i, n) == View(st, i, n);
    }
    var a, b := Content(st', ip), Content(st0, ip);
    forall p | 0 <= p < |a| ensures a[p] == if off0 <= p < off0 + |src| then src[p - off0] else b[p] {
      var n, k := p / BSIZE, p % BSIZE;
      assert p == BSIZE * n + k;
      assert a[p] == ByteAt(st', ip, n, k) == ByteAt(st, ip, n, k);
      assert ByteDone(st0, st, ip, off0, off0 + |src|, src, n, k);
    }
  }

  /** Files whose blocks and size did not change read as before. */
  lemma OtherContent(st0: St, st: St, i: int)
    requires Shaped(st0) && Shaped(st) && 0 <= i < |st.inodes| == |st0.inodes|
    requires st.inodes[i].size == st0.inodes[i].size <= MAXBYTES
    requires forall n {:trigger View(st, i, n)} :: 0 <= n < MAXFILE ==> View(st, i, n) == View(st0, i, n)
    ensures Content(st, i) == Content(st0, i)
  {
    forall p | 0 <= p < |Content(st, i)| ensures Content(st, i)[p] == Content(st0, i)[p] {
      assert View(st, i, p / BSIZE) == View(st0, i, p / BSIZE);
    }
  }

  /** `src` was written to file `ip` at `off`; no other file changed. */
  ghost predicate FileWritten(st0: St, st: St, ip: int, off: int, src: seq<Byte>) {
    && Shaped(st0) && Shaped(st) && Bounded(st0) && Bounded(st) && 0 <= ip < |st0.inodes| == |st.inodes|
    && 0 <= off <= st0.inodes[ip].size && st.inodes[ip].typ == st0.inodes[ip].typ
    && IsSplice(Content(st0, ip), off, src, Content(st, ip))
    && st.inodes == st0.inodes[ip := st.inodes[ip]]
    && forall i {:trigger Content(st, i)} :: 0 <= i < |st.inodes| && i != ip ==> Content(st, i) == Content(st0, i)
  }

  /** What was written is what is read back, and the rest of the file is as it was. */
  lemma WrittenReads(st0: St, st: St, ip: int, off: nat, src: seq<Byte>)
    requires FileWritten(st0, st, ip, off, src)
    ensures Content(st, ip) == Splice(Content(st0, ip), off, src)
    ensures Content(st, ip)[off..off + |src|] == src && Content(st, ip)[..off] == Content(st0, ip)[..off]
  {
    SpliceIs(Content(st0, ip), off, src, Content(st, ip));
  }

  lemma WriteDone(st0: St, st: St, st': St, ip: int, off0: int, src: seq<Byte>, size: nat)
    requires Written(st0, st, ip, off0, off0 + |src|, src) && NoHoles(st0)
    requires off0 <= st0.inodes[ip].size && off0 + |src| <= MAXBYTES
    requires size == if off0 + |src| > st0.inodes[ip].size then off0 + |src| else st0.inodes[ip].size
    requires st' == SetSize(st, ip, size)
    requires st.inodes == st0.inodes[ip := st.inodes[ip]]
    ensures FileWritten(st0, st', ip, off0, src) && NoHoles(st')
  {
    WrittenContent(st0, st, ip, off0, src, size);
    SetSizeViews(st, ip, size);
    forall i | 0 <= i < |st'.inodes| && i != ip ensures Content(st', i) == Content(st0, i) {
      forall n | 0 <= n < MAXFILE ensures View(st', i, n) == View(st0, i, n) {
        assert View(st', i, n) == View(st, i, n);
      }
      OtherContent(st0, st', i);
    }
  }

  /** Truncation empties one file and leaves the others' bytes alone. */
  lemma TruncContent(st: St, st': St, ip: int)
    requires Shaped(st) && Shaped(st') && NoHoles(st) && 0 <= ip < |st.inodes| == |st'.inodes|
    requires st'.inodes == st.inodes[ip := st'.inodes[ip]] && st'.inodes[ip].size == 0
    requires forall i, n {:trigger View(st', i, n)} :: 0 <= i < |st.inodes| && 0 <= n < MAXFILE && i != ip ==>
               View(st', i, n) == View(st, i, n)
    ensures NoHoles(st') && Content(st', ip) == []
    ensures forall i :: 0 <= i < |st.inodes| && i != ip ==> Content(st', i) == Content(st, i)
  {
    forall i | 0 <= i < |st.inodes| && i != ip ensures Content(st', i) == Content(st, i) {
      OtherContent(st, st', i);
    }
  }

  // ---- Reading --------------------------------------------------------------------------------

  /** The next piece of a block extends what was read of the file. */
  lemma ReadStep(st: St, ip: int, off: nat, pos: nat, bn: nat, k: nat, m: nat, b: Bytes)
    requires Shaped(st) && 0 <= ip < |st.inodes| && st.inodes[ip].size <= MAXBYTES
    requires pos == BSIZE * bn + k && k + m <= BSIZE && off <= pos && pos + m <= st.inodes[ip].size && bn < MAXFILE
    requires View(st, ip, bn) == Data(b) && |b| == BSIZE
    ensures Content(st, ip)[off..pos] + b[k..k + m] == Content(st, ip)[off..pos + m]
  {
    var c := Content(st, ip);
    forall j | pos <= j < pos + m ensures c[j] == b[j - pos + k] {
      assert j / BSIZE == bn && j % BSIZE == j - pos + k;
      assert c[j] == ByteAt(st, ip, bn, j - pos + k);
    }
  }

  // ---- What a write logs --------------------------------------------------------------------

  /** Blocks that bytes `off .. off + n` touch. */
  function Touched(off: nat, n: nat): nat {
    if n == 0 then 0 else (off + n - 1) / BSIZE - off / BSIZE + 1
  }

  /** Log slots for data and bitmap blocks: two per block touched, one for a block begun before. */
  function WriteCharge(off: nat, n: nat): int {
    2 * Touched(off, n) - (if n > 0 && off % BSIZE != 0 then 1 else 0)
  }

  /** After `it` blocks of a write from `off` to `end`, the position is `pos`. */
  ghost predicate Passed(off: nat, end: nat, pos: nat, it: nat) {
    && off <= pos <= end
    && (it == 0 <==> pos == off)
    && (it > 0 ==> BSIZE * (off / BSIZE + it - 1) < pos <= BSIZE * (off / BSIZE + it))
    && (it > 0 ==> pos == BSIZE * (off / BSIZE + it) || pos == end)
  }

  lemma PassedBlock(off: nat, end: nat, pos: nat, it: nat)
    requires Passed(off, end, pos, it) && pos < end
    ensures pos / BSIZE == off / BSIZE + it && (it > 0 ==> pos % BSIZE == 0)
  {
  }

  lemma PassedStep(off: nat, end: nat, pos: nat, it: nat, m: nat)
    requires Passed(off, end, pos, it) && pos < end
    requires m == if end - pos < BSIZE - pos % BSIZE then end - pos else BSIZE - pos % BSIZE
    ensures Passed(off, end, pos + m, it + 1) && m > 0
  {
    PassedBlock(off, end, pos, it);
    var q, k := pos / BSIZE, pos % BSIZE;
    assert pos == BSIZE * q + k && 0 <= k < BSIZE;
  }

  lemma PassedAll(off: nat, n: nat, it: nat)
    requires Passed(off, off + n, off + n, it) && n > 0
    ensures it == Touched(off, n)
  {
    assert it > 0;
    assert (off + n - 1) / BSIZE == off / BSIZE + it - 1;
  }

  /** A chunk of at most three blocks' length charges little enough, wherever it starts. */
  lemma ChunkCharge(off: nat, n: nat)
    requires n <= 3 * BSIZE
    ensures WriteCharge(off, n) <= 7
  {
    if n > 0 {
      var q, k := off / BSIZE, off % BSIZE;
      var e := (off + n - 1) / BSIZE;
      assert off == BSIZE * q + k && BSIZE * e <= off + n - 1;
      assert e <= q + 3;
      assert e == q + 3 ==> k > 0;
    }
  }
}
