/**
 Blocks and inode contents (fs.c): the bitmap allocator, the map from file blocks to disk
 blocks, truncation, and reading and writing files.
 */
module Fs {
  import opened FsState
  import opened FsContent
  import opened Params

  const BPB: nat := 4096  // bitmap bits per block
  const IPB: nat := 8     // inodes per block
  const T_DEV: int := 3

  /** What a device's driver answers to a read, -1 if it has none. */
  datatype Answer = Answer(r: int, bytes: seq<Byte>)

  /** Disk blocks that log_write can be given. */
  datatype Home = BitmapBlock(index: nat) | DataBlock(index: nat) | InodeBlock(index: nat)

  /** Log slots set aside for an inode's indirect block and its bitmap block. */
  ghost function IndirectCharge(logged: set<Home>, ind: nat): nat {
    if ind != 0 && DataBlock(ind) in logged then 0 else 2
  }

  lemma AddOne<T>(s: set<T>, x: T)
    ensures |s + {x}| <= |s| + 1
    ensures x in s ==> s + {x} == s
  {
    if x in s {
      assert s + {x} == s;
    } else {
      assert |s + {x}| == |s| + 1;
    }
  }

  class Fs {
    const first: nat           // first data block
    var bits: seq<bool>        // the bitmap
    var blocks: seq<Bytes>     // data blocks, through the cache
    var inodes: seq<Inode>     // in-memory inodes
    var dinodes: seq<Inode>    // their copies in the inode blocks
    ghost var own: Owners      // which slot names each block
    ghost var inTx: bool       // between begin_op and end_op
    ghost var logged: set<Home>  // blocks this transaction has logged

    ghost function State(): St
      reads this
    {
      St(bits, blocks, inodes)
    }

    ghost predicate Consistent()
      reads this
    {
      Owned(State(), own, first) && NoHoles(State())
    }

    /** Write-through: the on-disk inodes are the in-memory ones. */
    ghost predicate WrittenThrough()
      reads this
    {
      dinodes == inodes
    }

    /** begin_op: a transaction that has logged nothing. */
    method BeginOp()
      requires !inTx
      modifies `inTx, `logged
      ensures inTx && logged == {}
    {
      inTx, logged := true, {};
    }

    /** end_op; the log admits a transaction on the promise of at most MAXOPBLOCKS blocks. */
    method EndOp()
      requires inTx && |logged| <= MAXOPBLOCKS
      modifies `inTx
      ensures !inTx
    {
      inTx := false;
    }

    method LogWrite(ghost h: Home)
      requires inTx
      modifies `logged
      ensures logged == old(logged) + {h}
      ensures |logged| <= |old(logged)| + 1
    {
      AddOne(logged, h);
      logged := logged + {h};
    }

    /** The lowest free block, marked and zeroed; 0 when there is none, which is the panic. */
    method Balloc() returns (b: nat)
      requires inTx && |bits| == |blocks| && |bits| > 0 && bits[0]
      modifies `bits, `blocks, `logged
      ensures b == 0 ==> State() == old(State()) && logged == old(logged) && forall k :: 0 <= k < |bits| ==> bits[k]
      ensures b != 0 ==> b < |old(bits)| && !old(bits)[b] && forall k :: 0 <= k < b ==> old(bits)[k]
      ensures b != 0 ==> State() == Alloc(old(State()), b)
      ensures b != 0 ==> logged == old(logged) + {BitmapBlock(b / BPB)} + {DataBlock(b)}
      ensures |logged| <= |old(logged)| + 2
    {
      var base := 0;
      ghost var q := 0;
      while base < |bits|
        invariant base == BPB * q && 0 <= q
        invariant forall k :: 0 <= k < base && k < |bits| ==> bits[k]
        invariant State() == old(State()) && logged == old(logged)
      {
        var bi := 0;
        while bi < BPB && base + bi < |bits|
          invariant 0 <= bi <= BPB
          invariant forall k :: 0 <= k < base + bi && k < |bits| ==> bits[k]
          invariant State() == old(State()) && logged == old(logged)
        {
          if !bits[base + bi] {
            bits := bits[base + bi := true];
            LogWrite(BitmapBlock(base / BPB));
            assert (base + bi) / BPB == q == base / BPB;
            blocks := blocks[base + bi := ZeroBlock()];
            LogWrite(DataBlock(base + bi));
            return base + bi;
          }
          bi := bi + 1;
        }
        base := base + BPB;
        q := q + 1;
      }
      return 0;
    }

    /** Clears a block's bit; the "freeing free block" panic is the precondition. */
    method Bfree(b: nat)
      requires inTx && b < |bits| && bits[b]
      modifies `bits, `logged
      ensures bits == old(bits)[b := false]
      ensures logged == old(logged) + {BitmapBlock(b / BPB)}
    {
      bits := bits[b := false];
      LogWrite(BitmapBlock(b / BPB));
    }

    /** Copies an in-memory inode to disk. */
    method Iupdate(ip: nat)
      requires inTx && ip < |inodes| == |dinodes|
      modifies `dinodes, `logged
      ensures dinodes == old(dinodes)[ip := inodes[ip]]
      ensures logged == old(logged) + {InodeBlock(ip / IPB)} && |logged| <= |old(logged)| + 1
    {
      dinodes := dinodes[ip := inodes[ip]];
      LogWrite(InodeBlock(ip / IPB));
    }

    // ---- bmap ---------------------------------------------------------------------------

    ghost function Indirect(ip: int): nat
      requires Shaped(State()) && 0 <= ip < |inodes|
      reads this
    {
      inodes[ip].addrs[NDIRECT]
    }

    /** A direct block, allocated if need be. */
    method DirectBlock(ip: nat, bn: nat) returns (addr: nat)
      requires Owned(State(), own, first) && ip < |inodes| && bn < NDIRECT
      requires inTx || Slot(State(), ip, bn) != 0
      modifies `bits, `blocks, `inodes, `own, `logged
      ensures addr == 0 ==> forall k :: 0 <= k < |bits| ==> bits[k]
      ensures addr != 0 ==>
                && Owned(State(), own, first)
                && OneView(old(State()), State(), ip, bn, Data(Filled(View(old(State()), ip, bn))))
                && addr == Slot(State(), ip, bn) && addr < |blocks|
                && inodes == old(inodes)[ip := inodes[ip]] && Indirect(ip) == old(Indirect(ip))
      ensures Slot(old(State()), ip, bn) != 0 ==>
                addr != 0 && State() == old(State()) && logged == old(logged) && own == old(own)
      ensures addr != 0 && Slot(old(State()), ip, bn) == 0 ==>
                DataBlock(addr) in logged && old(logged) <= logged && |logged| <= |old(logged)| + 2
    {
      ghost var st0, own0 := State(), own;
      assert Slot(st0, ip, bn) != 0 ==> NamedBy(st0, own, first, Slot(st0, ip, bn), Owner(ip, bn));
      addr := inodes[ip].addrs[bn];
      if addr == 0 {
        addr := Balloc();
        if addr != 0 {
          ghost var st1 := State();
          AllocKeeps(st0, st1, own, first, addr);
          inodes := inodes[ip := inodes[ip].(addrs := inodes[ip].addrs[bn := addr])];
          own := own[addr := Owner(ip, bn)];
          SetDirectKeeps(st1, State(), own0, first, ip, bn, addr);
          assert View(st1, ip, bn) == View(st0, ip, bn);
        }
      }
    }

    /** The indirect block, allocated if need be. */
    method IndirectBlock(ip: nat) returns (ind: nat)
      requires Owned(State(), own, first) && ip < |inodes|
      requires inTx || Indirect(ip) != 0
      modifies `bits, `blocks, `inodes, `own, `logged
      ensures ind == 0 ==> forall k :: 0 <= k < |bits| ==> bits[k]
      ensures ind != 0 ==>
                && Owned(State(), own, first) && ind < |blocks|
                && OneView(old(State()), State(), -1, -1, Hole) && OneSlot(old(State()), State(), ip, NDIRECT, ind)
                && inodes == old(inodes)[ip := inodes[ip]] && ind == Indirect(ip)
      ensures old(Indirect(ip)) != 0 ==> ind != 0 && State() == old(State()) && logged == old(logged) && own == old(own)
      ensures ind != 0 && old(Indirect(ip)) == 0 ==>
                DataBlock(ind) in logged && old(logged) <= logged && |logged| <= |old(logged)| + 2
    {
      ghost var st0, own0 := State(), own;
      ind := inodes[ip].addrs[NDIRECT];
      if ind == 0 {
        ind := Balloc();
        if ind != 0 {
          ghost var st1 := State();
          AllocKeeps(st0, st1, own, first, ind);
          inodes := inodes[ip := inodes[ip].(addrs := inodes[ip].addrs[NDIRECT := ind])];
          own := own[ind := Owner(ip, NDIRECT)];
          SetIndirectKeeps(st1, State(), own0, first, ip, ind);
        }
      } else {
        assert Slot(st0, ip, NDIRECT) == ind;
      }
    }

    /** A block that the indirect block lists, allocated if need be. */
    method ListedBlock(ip: nat, ind: nat, k: nat) returns (addr: nat)
      requires Owned(State(), own, first) && ip < |inodes| && k < NINDIRECT && ind == Indirect(ip) != 0
      requires inTx || Slot(State(), ip, NDIRECT + 1 + k) != 0
      modifies `bits, `blocks, `own, `logged
      ensures addr == 0 ==> forall k :: 0 <= k < |bits| ==> bits[k]
      ensures addr != 0 ==>
                && Owned(State(), own, first)
                && OneView(old(State()), State(), ip, NDIRECT + k, Data(Filled(View(old(State()), ip, NDIRECT + k))))
                && addr == Slot(State(), ip, NDIRECT + 1 + k) && addr < |blocks|
      ensures Slot(old(State()), ip, NDIRECT + 1 + k) != 0 ==>
                addr != 0 && State() == old(State()) && logged == old(logged) && own == old(own)
      ensures addr != 0 && Slot(old(State()), ip, NDIRECT + 1 + k) == 0 ==>
                && DataBlock(addr) in logged && old(logged) <= logged
                && |logged| + IndirectCharge(logged, ind) <= |old(logged)| + IndirectCharge(old(logged), ind) + 2
    {
      ghost var st0, own0 := State(), own;
      assert Slot(st0, ip, NDIRECT) == ind;
      assert Slot(st0, ip, NDIRECT + 1 + k) != 0 ==>
        NamedBy(st0, own, first, Slot(st0, ip, NDIRECT + 1 + k), Owner(ip, NDIRECT + 1 + k));
      addr := Word(blocks[ind], k);
      if addr == 0 {
        addr := Balloc();
        if addr != 0 {
          ghost var st1 := State();
          AllocKeeps(st0, st1, own, first, addr);
          assert Slot(st1, ip, NDIRECT) == ind && Slot(st1, ip, NDIRECT + 1 + k) == 0;
          blocks := blocks[ind := SetWord(blocks[ind], k, addr)];
          own := own[addr := Owner(ip, NDIRECT + 1 + k)];
          SetEntryKeeps(st1, State(), own0, first, ip, k, addr);
          assert View(st1, ip, NDIRECT + k) == View(st0, ip, NDIRECT + k);
          AddOne(logged, DataBlock(ind));
          LogWrite(DataBlock(ind));
        }
      }
    }

    ghost function Charge(ip: int): nat
      requires Shaped(State()) && 0 <= ip < |inodes|
      reads this
    {
      |logged| + IndirectCharge(logged, Indirect(ip))
    }

    /**
     The disk block of file block `bn`. A block already mapped changes nothing and needs no
     transaction; otherwise a zeroed block is allocated and every other file block stays.
     0 stands for the out-of-blocks panic.
     */
    method Bmap(ip: nat, bn: nat) returns (addr: nat)
      requires Owned(State(), own, first) && ip < |inodes| && bn < MAXFILE
      requires inTx || View(State(), ip, bn).Data?
      modifies `bits, `blocks, `inodes, `own, `logged
      ensures addr == 0 ==> forall k :: 0 <= k < |bits| ==> bits[k]
      ensures addr != 0 ==>
                && Owned(State(), own, first)
                && OneView(old(State()), State(), ip, bn, Data(Filled(View(old(State()), ip, bn))))
                && addr == Slot(State(), ip, SlotOf(bn)) && addr < |blocks|
                && inodes == old(inodes)[ip := inodes[ip]]
      ensures View(old(State()), ip, bn).Data? ==>
                addr != 0 && State() == old(State()) && logged == old(logged) && own == old(own)
      ensures addr != 0 && View(old(State()), ip, bn).Hole? ==>
                DataBlock(addr) in logged && Charge(ip) <= old(Charge(ip)) + 2
    {
      ghost var st0 := State();
      HoleIsZero(st0, own, first, ip, bn);
      if bn < NDIRECT {
        addr := DirectBlock(ip, bn);
        return;
      }
      var k := bn - NDIRECT;
      var ind := IndirectBlock(ip);
      if ind == 0 {
        return 0;
      }
      ghost var st1, l1 := State(), logged;
      assert Slot(st1, ip, NDIRECT + 1 + k) == Slot(st0, ip, NDIRECT + 1 + k);
      assert View(st1, ip, bn) == View(st0, ip, bn);
      addr := ListedBlock(ip, ind, k);
      if addr != 0 {
        TwoViews(st0, st1, State(), ip, bn, Data(Filled(View(st0, ip, bn))));
      }
    }

    // ---- writei and readi ---------------------------------------------------------------

    /** Writes a piece of one file block. */
    method WriteBlock(ip: nat, bn: nat, k: nat, s: seq<Byte>) returns (ok: bool)
      requires Owned(State(), own, first) && inTx && ip < |inodes| && bn < MAXFILE && k + |s| <= BSIZE
      modifies `bits, `blocks, `inodes, `own, `logged
      ensures !ok ==> forall j :: 0 <= j < |bits| ==> bits[j]
      ensures ok ==>
                && Owned(State(), own, first) && |Filled(View(old(State()), ip, bn))| == BSIZE
                && OneView(old(State()), State(), ip, bn, Data(Patch(Filled(View(old(State()), ip, bn)), k, s)))
                && inodes == old(inodes)[ip := inodes[ip]]
                && (View(old(State()), ip, bn).Data? ==> inodes == old(inodes))
                && Charge(ip) <= old(Charge(ip)) + if View(old(State()), ip, bn).Data? then 1 else 2
    {
      ghost var st0 := State();
      var addr := Bmap(ip, bn);
      if addr == 0 {
        return false;
      }
      ghost var st1 := State();
      ghost var d := Patch(blocks[addr], k, s);
      assert View(st1, ip, bn) == Data(blocks[addr]) == Data(Filled(View(st0, ip, bn)));
      blocks := blocks[addr := Patch(blocks[addr], k, s)];
      SetDataKeeps(st1, State(), own, first, ip, bn, d);
      OverView(st0, st1, State(), ip, bn, View(st1, ip, bn), Data(d));
      AddOne(logged, DataBlock(addr));
      LogWrite(DataBlock(addr));
      return true;
    }

    /** One turn of writei's loop: the bytes of `src` for block `bn`, from position `pos` on. */
    method WritePiece(ip: nat, src: seq<Byte>, off: nat, pos: nat, bn: nat, k: nat, m: nat, ghost st0: St)
      returns (ok: bool)
      requires Owned(State(), own, first) && inTx && Written(st0, State(), ip, off, pos, src) && ip < |inodes|
      requires pos == BSIZE * bn + k && bn < MAXFILE && k + m <= BSIZE && pos + m <= off + |src|
      requires m > 0 && (k + m == BSIZE || pos + m == off + |src|)
      modifies `bits, `blocks, `inodes, `own, `logged
      ensures !ok ==> forall j :: 0 <= j < |bits| ==> bits[j]
      ensures ok ==>
                && Owned(State(), own, first) && Written(st0, State(), ip, off, pos + m, src)
                && inodes == old(inodes)[ip := inodes[ip]]
                && (View(old(State()), ip, bn).Data? ==> inodes == old(inodes))
                && Charge(ip) <= old(Charge(ip)) + if View(old(State()), ip, bn).Data? then 1 else 2
    {
      ghost var st1 := State();
      ok := WriteBlock(ip, bn, k, src[pos - off..pos - off + m]);
      if ok {
        WrittenStep(st0, st1, State(), ip, off, pos, src, bn, k, m);
      }
    }

    /** The block loop of writei. */
    method WriteRun(ip: nat, src: seq<Byte>, off: nat) returns (ok: bool)
      requires Consistent() && inTx && ip < |inodes| && off <= inodes[ip].size && off + |src| <= MAXBYTES
      modifies `bits, `blocks, `inodes, `own, `logged
      ensures !ok ==> forall j :: 0 <= j < |bits| ==> bits[j]
      ensures ok ==>
                && Owned(State(), own, first) && Written(old(State()), State(), ip, off, off + |src|, src)
                && inodes == old(inodes)[ip := inodes[ip]]
                && (off + |src| <= old(inodes)[ip].size ==> inodes == old(inodes))
                && Charge(ip) <= old(Charge(ip)) + WriteCharge(off, |src|)
    {
      ghost var st0 := State();
      WrittenStart(st0, ip, off, src);
      var tot, pos := 0, off;
      ghost var it := 0;
      while tot < |src|
        invariant pos == off + tot && Passed(off, off + |src|, pos, it)
        invariant inTx && Owned(State(), own, first) && Written(st0, State(), ip, off, pos, src)
        invariant inodes == old(inodes)[ip := inodes[ip]]
        invariant pos <= old(inodes)[ip].size ==> inodes == old(inodes)
        invariant Charge(ip) <= old(Charge(ip)) + 2 * it - if it > 0 && off % BSIZE != 0 then 1 else 0
        decreases |src| - tot
      {
        ghost var st1 := State();
        PassedBlock(off, off + |src|, pos, it);
        var bn, k := pos / BSIZE, pos % BSIZE;
        var m := if |src| - tot < BSIZE - k then |src| - tot else BSIZE - k;
        assert View(st1, ip, bn).Hole? ==> pos >= old(inodes)[ip].size;
        PassedStep(off, off + |src|, pos, it, m);
        ok := WritePiece(ip, src, off, pos, bn, k, m, st0);
        if !ok {
          return;
        }
        tot, pos := tot + m, pos + m;
        it := it + 1;
      }
      if |src| > 0 {
        PassedAll(off, |src|, it);
      }
      ok := true;
    }

    /**
     Writes `src` to file `ip` at `off`. It is refused exactly when `off` is past the end or
     the result would be too long; the sum is taken in 32 bits, as in the source. `panicked`
     stands for the out-of-blocks panic. A device's driver answers instead, with `dev`.
     */
    method Writei(ip: nat, src: seq<Byte>, off: nat, dev: int) returns (r: int, panicked: bool)
      requires Consistent() && WrittenThrough() && inTx && ip < |inodes|
      requires off < 0x1_0000_0000 && |src| < 0x1_0000_0000
      modifies `bits, `blocks, `inodes, `dinodes, `own, `logged
      ensures panicked ==> forall j :: 0 <= j < |bits| ==> bits[j]
      ensures old(inodes)[ip].typ == T_DEV ==> r == dev && !panicked
      ensures old(inodes)[ip].typ != T_DEV ==>
                (r == -1 && !panicked <==> off > old(inodes)[ip].size || off + |src| > MAXBYTES)
      ensures old(inodes)[ip].typ == T_DEV || (r == -1 && !panicked) ==>
                State() == old(State()) && dinodes == old(dinodes) && logged == old(logged) && own == old(own)
      ensures old(inodes)[ip].typ != T_DEV && r != -1 && !panicked ==>
                && r == |src| && Consistent() && WrittenThrough()
                && FileWritten(old(State()), State(), ip, off, src)
                && |logged| <= |old(logged)| + 3 + WriteCharge(off, |src|)
    {
      if inodes[ip].typ == T_DEV {
        return dev, false;
      }
      panicked := false;
      if off > inodes[ip].size || (off + |src|) % 0x1_0000_0000 < off {
        return -1, false;
      }
      if (off + |src|) % 0x1_0000_0000 > MAXFILE * BSIZE {
        return -1, false;
      }
      r := |src|;
      ghost var st0 := State();
      var ok := WriteRun(ip, src, off);
      if !ok {
        return r, true;
      }
      ghost var st1 := State();
      ghost var size := if off + |src| > st0.inodes[ip].size then off + |src| else st0.inodes[ip].size;
      WriteDone(st0, st1, SetSize(st1, ip, size), ip, off, src, size);
      SetSizeOwned(st1, own, first, ip, size);
      if |src| > 0 && off + |src| > inodes[ip].size {
        inodes := inodes[ip := inodes[ip].(size := off + |src|)];
        Iupdate(ip);
      } else {
        assert inodes[ip].size == size;
        assert st1.inodes[ip].(size := size) == st1.inodes[ip];
        assert SetSize(st1, ip, size) == st1;
      }
    }

    /**
     Reads up to `n` bytes of file `ip` at `off`. It is refused exactly when `off` is past the
     end or `off + n` overflows 32 bits. It allocates and logs nothing, in or out of a
     transaction. A device's driver answers instead, with `dev`.
     */
    method Readi(ip: nat, off: nat, n: nat, dev: Answer) returns (r: int, dst: seq<Byte>)
      requires Consistent() && ip < |inodes|
      requires off < 0x1_0000_0000 && n < 0x1_0000_0000
      modifies `bits, `blocks, `inodes, `own, `logged
      ensures State() == old(State()) && own == old(own) && logged == old(logged)
      ensures inodes[ip].typ == T_DEV ==> Answer(r, dst) == dev
      ensures inodes[ip].typ != T_DEV ==> (r == -1 <==> off > inodes[ip].size || off + n >= 0x1_0000_0000)
      ensures inodes[ip].typ != T_DEV && r == -1 ==> dst == []
      ensures inodes[ip].typ != T_DEV && r != -1 ==>
                && r == (if off + n > inodes[ip].size then inodes[ip].size - off else n)
                && dst == Content(State(), ip)[off..off + r]
    {
      if inodes[ip].typ == T_DEV {
        return dev.r, dev.bytes;
      }
      if off > inodes[ip].size || (off + n) % 0x1_0000_0000 < off {
        return -1, [];
      }
      var len := if (off + n) % 0x1_0000_0000 > inodes[ip].size then inodes[ip].size - off else n;
      ghost var st0 := State();
      dst := [];
      var tot, pos := 0, off;
      while tot < len
        invariant 0 <= tot <= len && pos == off + tot
        invariant State() == st0 && own == old(own) && logged == old(logged)
        invariant dst == Content(st0, ip)[off..pos]
        decreases len - tot
      {
        var bn, k := pos / BSIZE, pos % BSIZE;
        assert pos == BSIZE * bn + k && bn < MAXFILE;
        assert View(st0, ip, bn).Data?;
        var addr := Bmap(ip, bn);
        var m := if len - tot < BSIZE - k then len - tot else BSIZE - k;
        assert View(st0, ip, bn) == Data(blocks[addr]);
        ReadStep(st0, ip, off, pos, bn, k, m, blocks[addr]);
        dst := dst + blocks[addr][k..k + m];
        tot, pos := tot + m, pos + m;
      }
      r := len;
    }

    // ---- itrunc ---------------------------------------------------------------------------

    /** Frees the direct blocks. */
    method FreeDirect(ip: nat) returns (ghost done: set<int>)
      requires inTx && Owned(State(), own, first) && ip < |inodes|
      modifies `bits, `inodes, `logged
      ensures Cleared(old(State()), own, ip, done, bits)
      ensures forall s :: s in done <==> 0 <= s < NDIRECT
      ensures |inodes| == |old(inodes)| && inodes == old(inodes)[ip := inodes[ip]]
      ensures inodes[ip].typ == old(inodes)[ip].typ
      ensures |inodes[ip].addrs| == NDIRECT + 1 && inodes[ip].addrs[NDIRECT] == old(inodes)[ip].addrs[NDIRECT]
      ensures forall s :: 0 <= s < NDIRECT ==> inodes[ip].addrs[s] == 0
    {
      ghost var st0 := State();
      var i := 0;
      done := {};
      while i < NDIRECT
        invariant 0 <= i <= NDIRECT && inTx && own == old(own) && blocks == old(blocks)
        invariant Cleared(st0, own, ip, done, bits)
        invariant forall s :: s in done <==> 0 <= s < i
        invariant |inodes| == |old(inodes)| && inodes == old(inodes)[ip := inodes[ip]]
        invariant inodes[ip].typ == old(inodes)[ip].typ
        invariant |inodes[ip].addrs| == NDIRECT + 1 && inodes[ip].addrs[NDIRECT] == old(inodes)[ip].addrs[NDIRECT]
        invariant forall s :: 0 <= s < i ==> inodes[ip].addrs[s] == 0
        invariant forall s :: i <= s <= NDIRECT ==> inodes[ip].addrs[s] == old(inodes)[ip].addrs[s]
      {
        assert Slot(st0, ip, i) == inodes[ip].addrs[i];
        ClearStep(st0, own, first, ip, done, bits, i);
        if inodes[ip].addrs[i] != 0 {
          Bfree(inodes[ip].addrs[i]);
          inodes := inodes[ip := inodes[ip].(addrs := inodes[ip].addrs[i := 0])];
        }
        done := done + {i};
        i := i + 1;
      }
    }

    /** Frees the blocks that the indirect block `ind` lists. */
    method FreeListed(ip: nat, ind: nat, ghost st0: St, ghost done0: set<int>) returns (ghost done: set<int>)
      requires inTx && Owned(st0, own, first) && ip < |st0.inodes| && blocks == st0.blocks
      requires st0.inodes[ip].addrs[NDIRECT] == ind != 0
      requires Cleared(st0, own, ip, done0, bits) && forall s :: s in done0 <==> 0 <= s < NDIRECT
      modifies `bits, `logged
      ensures Cleared(st0, own, ip, done, bits)
      ensures forall s :: s in done <==> 0 <= s < NSLOTS && s != NDIRECT
    {
      var j := 0;
      done := done0;
      while j < NINDIRECT
        invariant 0 <= j <= NINDIRECT
        invariant inTx && own == old(own) && blocks == st0.blocks
        invariant Cleared(st0, own, ip, done, bits)
        invariant forall s :: s in done <==> 0 <= s < NDIRECT + 1 + j && s != NDIRECT
      {
        assert Slot(st0, ip, NDIRECT + 1 + j) == Word(blocks[ind], j);
        ClearStep(st0, own, first, ip, done, bits, NDIRECT + 1 + j);
        if Word(blocks[ind], j) != 0 {
          Bfree(Word(blocks[ind], j));
        }
        done := done + {NDIRECT + 1 + j};
        j := j + 1;
      }
    }

    /**
     Discards a file's contents: exactly the bits of the blocks that the inode names are
     cleared, and freeing a free block never comes up.
     */
    method Itrunc(ip: nat)
      requires inTx && Consistent() && WrittenThrough() && ip < |inodes|
      modifies `bits, `inodes, `dinodes, `logged
      ensures Consistent() && WrittenThrough() && |inodes| == |old(inodes)|
      ensures |bits| == |old(bits)| && forall b :: 0 <= b < |bits| ==>
                (bits[b] <==> old(bits)[b] && !Names(old(State()), ip, b))
      ensures inodes[ip].typ == old(inodes)[ip].typ && Content(State(), ip) == [] && Unmapped(inodes[ip])
      ensures forall i :: 0 <= i < |inodes| && i != ip ==>
                inodes[i] == old(inodes)[i] && Content(State(), i) == Content(old(State()), i)
    {
      ghost var st0 := State();
      ghost var done := FreeDirect(ip);
      var ind := inodes[ip].addrs[NDIRECT];
      assert Slot(st0, ip, NDIRECT) == ind;
      if ind != 0 {
        done := FreeListed(ip, ind, st0, done);
        ClearStep(st0, own, first, ip, done, bits, NDIRECT);
        done := done + {NDIRECT};
        Bfree(ind);
        inodes := inodes[ip := inodes[ip].(addrs := inodes[ip].addrs[NDIRECT := 0])];
      } else {
        done := NoneListed(st0, own, first, ip, done, bits);
      }
      inodes := inodes[ip := inodes[ip].(size := 0)];
      Iupdate(ip);
      TruncKeeps(st0, State(), own, first, ip, done);
      TruncContent(st0, State(), ip);
    }
  }

  /** A file block is a hole exactly when its slot is empty. */
  lemma HoleIsZero(st: St, own: Owners, first: nat, ip: int, n: int)
    requires Owned(st, own, first) && 0 <= ip < |st.inodes| && 0 <= n < MAXFILE
    ensures View(st, ip, n).Hole? <==> Slot(st, ip, SlotOf(n)) == 0
  {
    assert Slot(st, ip, SlotOf(n)) != 0 ==> NamedBy(st, own, first, Slot(st, ip, SlotOf(n)), Owner(ip, SlotOf(n)));
  }

  lemma TwoViews(st: St, st1: St, st2: St, ip: int, n: int, v: Mapped)
    requires Shaped(st) && Shaped(st1) && Shaped(st2)
    requires OneView(st, st1, -1, -1, Hole) && OneView(st1, st2, ip, n, v)
    ensures OneView(st, st2, ip, n, v)
  {
    forall i, m | 0 <= i < |st.inodes| && 0 <= m < MAXFILE
      ensures View(st2, i, m) == if i == ip && m == n then v else View(st, i, m)
    {
      assert View(st1, i, m) == View(st, i, m);
    }
  }

  lemma OverView(st: St, st1: St, st2: St, ip: int, n: int, v1: Mapped, v2: Mapped)
    requires Shaped(st) && Shaped(st1) && Shaped(st2)
    requires OneView(st, st1, ip, n, v1) && OneView(st1, st2, ip, n, v2)
    ensures OneView(st, st2, ip, n, v2)
  {
    forall i, m | 0 <= i < |st.inodes| && 0 <= m < MAXFILE
      ensures View(st2, i, m) == if i == ip && m == n then v2 else View(st, i, m)
    {
      assert View(st1, i, m) == if i == ip && m == n then v1 else View(st, i, m);
    }
  }

  /** An inode that names no block. */
  ghost predicate Unmapped(ip: Inode) {
    ip.size == 0 && forall s :: 0 <= s < |ip.addrs| ==> ip.addrs[s] == 0
  }

  /** Without an indirect block there is nothing listed to free. */
  lemma NoneListed(st: St, own: Owners, first: nat, ip: int, done: set<int>, bits: seq<bool>) returns (all: set<int>)
    requires Owned(st, own, first) && 0 <= ip < |st.inodes| && Slot(st, ip, NDIRECT) == 0
    requires Cleared(st, own, ip, done, bits) && forall s :: s in done <==> 0 <= s < NDIRECT
    ensures Cleared(st, own, ip, all, bits) && forall s :: 0 <= s < NSLOTS ==> s in all
  {
    all := done;
    var s := NDIRECT;
    while s < NSLOTS
      invariant NDIRECT <= s <= NSLOTS
      invariant Cleared(st, own, ip, all, bits) && forall t :: t in all <==> 0 <= t < s
    {
      assert Slot(st, ip, s) == 0;
      ClearStep(st, own, first, ip, all, bits, s);
      all := all + {s};
      s := s + 1;
    }
  }
}
