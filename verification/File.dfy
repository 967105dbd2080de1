/**
 Open files on inodes (file.c): reading outside a transaction, and writing in chunks that
 fit one transaction's share of the log.
 */
module File {
  import opened FsState
  import opened FsContent
  import opened Params
  import Fs

  const MAXCHUNK: nat := ((MAXOPBLOCKS - 1 - 1 - 2) / 2) * 512

  lemma ExtendPrefix<T>(s: seq<T>, i: nat, n: nat)
    requires i + n <= |s|
    ensures s[..i] + s[i..i + n] == s[..i + n]
  {
  }

  /** Two writes in a row, the second where the first ended, are one write. */
  lemma WrittenTwice(st0: St, st1: St, st2: St, ip: int, off: nat, s: seq<Byte>, at: nat, t: seq<Byte>, u: seq<Byte>)
    requires FileWritten(st0, st1, ip, off, s) && at == off + |s| && FileWritten(st1, st2, ip, at, t) && u == s + t
    ensures FileWritten(st0, st2, ip, off, u)
  {
    SpliceTwice(Content(st0, ip), off, s, Content(st1, ip), t, Content(st2, ip));
  }

  /** The first `i` bytes of `src` are written at `off`; past the end of the file, none can be. */
  ghost predicate PrefixWritten(st0: St, st: St, ip: int, off: nat, src: seq<Byte>, i: nat) {
    && i <= |src| && 0 <= ip < |st0.inodes|
    && (i == 0 ==> st == st0)
    && (off <= st0.inodes[ip].size ==> FileWritten(st0, st, ip, off, src[..i]))
    && (i > 0 ==> off <= st0.inodes[ip].size)
  }

  lemma PrefixStart(st: St, ip: int, off: nat, src: seq<Byte>)
    requires Shaped(st) && Bounded(st) && 0 <= ip < |st.inodes|
    ensures PrefixWritten(st, st, ip, off, src, 0)
  {
  }

  lemma PrefixStep(st0: St, st: St, st': St, ip: int, off: nat, src: seq<Byte>, i: nat, next: nat, at: nat,
                   chunk: seq<Byte>)
    requires PrefixWritten(st0, st, ip, off, src, i) && i < next <= |src|
    requires at == off + i && chunk == src[i..next] && FileWritten(st, st', ip, at, chunk)
    ensures PrefixWritten(st0, st', ip, off, src, next)
  {
    ExtendPrefix(src, i, next - i);
    assert off <= st0.inodes[ip].size;
    WrittenTwice(st0, st, st', ip, off, src[..i], at, chunk, src[..next]);
  }

  /** The file after a written prefix: how long it is. */
  lemma PrefixSize(st0: St, st: St, ip: int, off: nat, src: seq<Byte>, i: nat)
    requires PrefixWritten(st0, st, ip, off, src, i)
    ensures |st.inodes| == |st0.inodes| && st.inodes[ip].typ == st0.inodes[ip].typ
    ensures off + i <= st.inodes[ip].size <==> off <= st0.inodes[ip].size
  {
    if off <= st0.inodes[ip].size {
      assert |Content(st, ip)| == st.inodes[ip].size;
    }
  }

  /** What a file refers to. */
  datatype Kind = FD_PIPE | FD_INODE

  class File {
    const kind: Kind
    const readable: bool
    const writable: bool
    const ip: nat
    var off: nat

    /** The bytes are those of a file on disk, not a pipe's or a device's. */
    predicate OnDisk(fs: Fs.Fs)
      reads fs
    {
      kind == FD_INODE && ip < |fs.inodes| && fs.inodes[ip].typ != Fs.T_DEV
    }

    /**
     Reads at the file's offset and moves it. No transaction is open, and none is needed. A
     pipe or a device answers instead, with `other`; reading a device moves the offset too.
     */
    method Read(fs: Fs.Fs, n: nat, other: Fs.Answer) returns (r: int, dst: seq<Byte>)
      requires fs.Consistent() && !fs.inTx && ip < |fs.inodes|
      requires off < 0x1_0000_0000 && n < 0x8000_0000
      modifies this, fs`bits, fs`blocks, fs`inodes, fs`own, fs`logged
      ensures fs.State() == old(fs.State()) && fs.logged == old(fs.logged) && fs.own == old(fs.own)
      ensures !readable ==> r == -1 && off == old(off)
      ensures readable && !OnDisk(fs) ==>
                r == other.r && dst == other.bytes && off == old(off) + if kind == FD_INODE && r > 0 then r else 0
      ensures OnDisk(fs) ==> (r == -1 <==> !readable || old(off) > fs.inodes[ip].size || old(off) + n >= 0x1_0000_0000)
      ensures OnDisk(fs) && r == -1 ==> off == old(off)
      ensures OnDisk(fs) && r != -1 ==> 0 <= r <= n && off == old(off) + r <= fs.inodes[ip].size
      ensures OnDisk(fs) && r != -1 ==> dst == Content(fs.State(), ip)[old(off)..off]
      ensures OnDisk(fs) && r != -1 && r < n ==> off == fs.inodes[ip].size
    {
      if !readable {
        return -1, [];
      }
      if kind == FD_PIPE {
        return other.r, other.bytes;
      }
      r, dst := fs.Readi(ip, off, n, other);
      if r > 0 {
        off := off + r;
      }
    }

    /** One transaction: a chunk written at the file's offset, within the log budget. */
    method WriteChunk(fs: Fs.Fs, s: seq<Byte>) returns (r: int, panicked: bool)
      requires fs.Consistent() && fs.WrittenThrough() && !fs.inTx && ip < |fs.inodes| && fs.inodes[ip].typ != Fs.T_DEV
      requires off < 0x1_0000_0000 && 0 < |s| <= MAXCHUNK
      modifies this, fs
      ensures panicked ==> forall j :: 0 <= j < |fs.bits| ==> fs.bits[j]
      ensures !panicked ==> fs.Consistent() && fs.WrittenThrough() && !fs.inTx && |fs.logged| <= MAXOPBLOCKS
      ensures !panicked ==> (r == -1 <==> old(off) > old(fs.inodes[ip].size) || old(off) + |s| > MAXBYTES)
      ensures !panicked && r == -1 ==> fs.State() == old(fs.State()) && off == old(off)
      ensures !panicked && r != -1 ==>
                r == |s| && off == old(off) + r && FileWritten(old(fs.State()), fs.State(), ip, old(off), s)
    {
      fs.BeginOp();
      r, panicked := fs.Writei(ip, s, off, -1);
      if panicked {
        return;
      }
      ChunkCharge(off, |s|);
      if r > 0 {
        off := off + r;
      }
      fs.EndOp();
    }

    /** The chunk of `src` from `i` on, after the bytes before it. */
    method NextChunk(fs: Fs.Fs, src: seq<Byte>, i: nat, n1: nat, ghost st0: St, ghost off0: nat)
      returns (r: int, panicked: bool, ghost next: nat)
      requires fs.Consistent() && fs.WrittenThrough() && !fs.inTx
      requires PrefixWritten(st0, fs.State(), ip, off0, src, i) && off == off0 + i && st0.inodes[ip].typ != Fs.T_DEV
      requires off < 0x1_0000_0000 && 0 < n1 <= MAXCHUNK && i + n1 <= |src|
      modifies this, fs
      ensures panicked ==> forall j :: 0 <= j < |fs.bits| ==> fs.bits[j]
      ensures !panicked ==> fs.Consistent() && fs.WrittenThrough() && !fs.inTx
      ensures !panicked ==> if off0 <= st0.inodes[ip].size && off0 + i + n1 <= MAXBYTES then r == n1 else r == -1
      ensures !panicked ==> off == if r == -1 then old(off) else old(off) + n1
      ensures !panicked ==>
                next == (if r == -1 then i else i + r) &&
                PrefixWritten(st0, fs.State(), ip, off0, src, next)
    {
      ghost var st1 := fs.State();
      PrefixSize(st0, st1, ip, off0, src, i);
      var chunk := src[i..i + n1];
      r, panicked := WriteChunk(fs, chunk);
      next := i;
      if !panicked && r != -1 {
        next := i + n1;
        PrefixStep(st0, st1, fs.State(), ip, off0, src, i, next, old(off), chunk);
      }
    }

    /** The loop of filewrite, on a writable file. */
    method WriteChunks(fs: Fs.Fs, src: seq<Byte>, ghost st0: St, ghost off0: nat) returns (i: nat, panicked: bool)
      requires fs.Consistent() && fs.WrittenThrough() && !fs.inTx
      requires PrefixWritten(st0, fs.State(), ip, off0, src, 0) && off == off0 && st0.inodes[ip].typ != Fs.T_DEV
      requires off < 0x1_0000_0000 && |src| < 0x8000_0000
      modifies this, fs
      ensures panicked ==> forall j :: 0 <= j < |fs.bits| ==> fs.bits[j]
      ensures !panicked ==> fs.Consistent() && fs.WrittenThrough() && !fs.inTx && i <= |src| && off == off0 + i
      ensures !panicked ==> PrefixWritten(st0, fs.State(), ip, off0, src, i)
      ensures !panicked ==> (i == |src| <==> |src| == 0 || (off0 <= st0.inodes[ip].size && off0 + |src| <= MAXBYTES))
    {
      i, panicked := 0, false;
      ghost var fits := off0 <= st0.inodes[ip].size;
      while i < |src|
        invariant i <= |src| && off == off0 + i && (i > 0 ==> fits && off <= MAXBYTES)
        invariant fs.Consistent() && fs.WrittenThrough() && !fs.inTx
        invariant PrefixWritten(st0, fs.State(), ip, off0, src, i)
        decreases |src| - i
      {
        var n1 := if |src| - i > MAXCHUNK then MAXCHUNK else |src| - i;
        var r; ghost var next;
        r, panicked, next := NextChunk(fs, src, i, n1, st0, off0);
        if panicked {
          return;
        }
        if r < 0 {
          break;
        }
        i := i + r;
        assert i == next;
      }
      assert i >= |src| ==> i == |src|;
    }

    /** The loop of filewrite on a device: one turn, with all the bytes; `dev` is its driver's answer. */
    method WriteDevice(fs: Fs.Fs, src: seq<Byte>, dev: int) returns (r: int, panicked: bool)
      requires fs.Consistent() && fs.WrittenThrough() && !fs.inTx && ip < |fs.inodes| && fs.inodes[ip].typ == Fs.T_DEV
      requires off < 0x1_0000_0000 && |src| < 0x8000_0000
      modifies this, fs
      ensures fs.Consistent() && fs.WrittenThrough() && !fs.inTx && fs.State() == old(fs.State())
      ensures panicked <==> src != [] && dev >= 0 && dev != |src|
      ensures !panicked ==> r == if src == [] || dev == |src| then |src| else -1
      ensures off == old(off) + if src != [] && dev > 0 then dev else 0
    {
      if src == [] {
        return 0, false;
      }
      fs.BeginOp();
      r, panicked := fs.Writei(ip, src, off, dev);
      if r > 0 {
        off := off + r;
      }
      fs.EndOp();
      panicked := r >= 0 && r != |src|;
      r := if r == |src| then |src| else -1;
    }

    /**
     Writes at the file's offset, a chunk per transaction. `k` bytes are written: all of them
     exactly when the file is writable and the result fits, and otherwise a prefix. No chunk
     logs more than MAXOPBLOCKS blocks (end_op demands it), and a short write never happens.
     A pipe or a device answers instead, with `other`; a short write to a device panics.
     */
    method Write(fs: Fs.Fs, src: seq<Byte>, other: int) returns (r: int, panicked: bool, k: nat)
      requires fs.Consistent() && fs.WrittenThrough() && !fs.inTx && ip < |fs.inodes|
      requires off < 0x1_0000_0000 && |src| < 0x8000_0000
      modifies this, fs
      ensures old(OnDisk(fs)) && panicked ==> forall j :: 0 <= j < |fs.bits| ==> fs.bits[j]
      ensures !panicked ==> fs.Consistent() && fs.WrittenThrough() && !fs.inTx
      ensures !writable ==> r == -1 && !panicked && off == old(off) && fs.State() == old(fs.State())
      ensures old(OnDisk(fs)) && !panicked ==> k <= |src| && off == old(off) + k
      ensures old(OnDisk(fs)) && !panicked ==> PrefixWritten(old(fs.State()), fs.State(), ip, old(off), src, k)
      ensures old(OnDisk(fs)) && !panicked ==> r == if writable && k == |src| then |src| else -1
      ensures old(OnDisk(fs)) && !panicked && writable ==>
                (k == |src| <==> |src| == 0 || (old(off) <= old(fs.inodes[ip].size) && old(off) + |src| <= MAXBYTES))
      ensures !old(OnDisk(fs)) ==> fs.State() == old(fs.State())
      ensures kind == FD_PIPE && writable ==> r == other && !panicked && off == old(off)
      ensures kind == FD_INODE && !old(OnDisk(fs)) && writable ==>
                && (panicked <==> src != [] && other >= 0 && other != |src|)
                && (!panicked ==> r == if src == [] || other == |src| then |src| else -1)
                && off == old(off) + if src != [] && other > 0 then other else 0
    {
      PrefixStart(fs.State(), ip, off, src);
      k, panicked := 0, false;
      if !writable {
        return -1, false, 0;
      }
      if kind == FD_PIPE {
        return other, false, 0;
      }
      if fs.inodes[ip].typ == Fs.T_DEV {
        r, panicked := WriteDevice(fs, src, other);
        return;
      }
      k, panicked := WriteChunks(fs, src, fs.State(), off);
      r := if k == |src| then |src| else -1;
    }
  }
}
