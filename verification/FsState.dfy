/**
 The file system's allocated state (fs.c): the bitmap, the blocks, and the inodes, each
 with direct blocks, one indirect block and the blocks that one lists.
 */
module FsState {

  const BSIZE: nat := 512
  const NDIRECT: nat := 12
  const NINDIRECT: nat := 128  // BSIZE / sizeof(uint)
  const MAXFILE: nat := 140    // NDIRECT + NINDIRECT

  /** Slots of an inode: direct blocks, the indirect block, the blocks it lists. */
  const NSLOTS: nat := 141

  type Byte = x: int | 0 <= x < 256
  type Bytes = seq<Byte>

  datatype Inode = Inode(typ: int, size: nat, addrs: seq<nat>)

  datatype St = St(bits: seq<bool>, blocks: seq<Bytes>, inodes: seq<Inode>)

  /** A place that can name a block: slot `slot` of inode `inum`. */
  datatype Owner = Owner(inum: int, slot: int)

  /** Which slot each named block belongs to. */
  type Owners = map<nat, Owner>

  // ---- Words of an indirect block ---------------------------------------------------

  function ZeroBlock(): (b: Bytes)
    ensures |b| == BSIZE && forall k :: 0 <= k < BSIZE ==> b[k] == 0
  {
    seq(BSIZE, _ => 0)
  }

  function Word(b: Bytes, i: nat): nat
    requires |b| == BSIZE && i < NINDIRECT
  {
    (b[4 * i] as int) + 0x100 * (b[4 * i + 1] as int) + 0x1_0000 * (b[4 * i + 2] as int) +
      0x100_0000 * (b[4 * i + 3] as int)
  }

  /** The four bytes of a word, lowest first. */
  function Digit(v: nat, k: nat): Byte
    requires v < 0x1_0000_0000 && k < 4
  {
    if k == 0 then v % 0x100 else if k == 1 then v / 0x100 % 0x100
    else if k == 2 then v / 0x1_0000 % 0x100 else v / 0x100_0000
  }

  lemma DigitsSum(v: nat)
    requires v < 0x1_0000_0000
    ensures (Digit(v, 0) as int) + 0x100 * (Digit(v, 1) as int) + 0x1_0000 * (Digit(v, 2) as int) +
              0x100_0000 * (Digit(v, 3) as int) == v
  {
    var a, b, c := v / 0x100, v / 0x1_0000, v / 0x100_0000;
    assert v == 0x100 * a + v % 0x100;
    assert a == 0x100 * b + a % 0x100 && b == a / 0x100;
    assert b == 0x100 * c + b % 0x100 && c == b / 0x100;
  }

  function SetWord(b: Bytes, i: nat, v: nat): (r: Bytes)
    requires |b| == BSIZE && i < NINDIRECT && v < 0x1_0000_0000
    ensures |r| == BSIZE
  {
    b[4 * i := Digit(v, 0)][4 * i + 1 := Digit(v, 1)][4 * i + 2 := Digit(v, 2)][4 * i + 3 := Digit(v, 3)]
  }

  /** A word written is the word read back, and the other words stay. */
  lemma WordOfSetWord(b: Bytes, i: nat, v: nat, j: nat)
    requires |b| == BSIZE && i < NINDIRECT && j < NINDIRECT && v < 0x1_0000_0000
    ensures Word(SetWord(b, i, v), j) == if j == i then v else Word(b, j)
  {
    DigitsSum(v);
    var r := SetWord(b, i, v);
    if j == i {
      assert r[4 * i] == Digit(v, 0) && r[4 * i + 1] == Digit(v, 1) && r[4 * i + 2] == Digit(v, 2) &&
        r[4 * i + 3] == Digit(v, 3);
    }
  }

  // ---- Slots ----------------------------------------------------------------------------

  /** Shapes: sizes of the tables, and addresses inside the disk. */
  ghost predicate Shaped(st: St) {
    && |st.bits| == |st.blocks| < 0x1_0000_0000
    && (forall b :: 0 <= b < |st.blocks| ==> |st.blocks[b]| == BSIZE)
    && (forall i :: 0 <= i < |st.inodes| ==> |st.inodes[i].addrs| == NDIRECT + 1)
    && (forall i :: 0 <= i < |st.inodes| ==> st.inodes[i].addrs[NDIRECT] < |st.blocks|)
  }

  /** The block that a slot names, 0 for none. */
  function Slot(st: St, i: int, s: int): nat
    requires Shaped(st) && 0 <= i < |st.inodes| && 0 <= s < NSLOTS
  {
    if s <= NDIRECT then st.inodes[i].addrs[s]
    else if st.inodes[i].addrs[NDIRECT] == 0 then 0
    else Word(st.blocks[st.inodes[i].addrs[NDIRECT]], s - NDIRECT - 1)
  }

  /** The slot of file block `n`. */
  function SlotOf(n: int): int {
    if n < NDIRECT then n else n + 1
  }

  /** Block `b` is an allocated data block and belongs to the given slot. */
  ghost predicate NamedBy(st: St, own: Owners, first: nat, b: nat, o: Owner) {
    first <= b < |st.bits| && st.bits[b] && b in own && own[b] == o
  }

  /**
   Ownership: a block named by a slot is a data block, marked in the bitmap, and named by no
   other slot of any inode. Blocks below `first` (boot block, superblock, log, inodes,
   bitmap) are always marked.
   */
  ghost predicate Owned(st: St, own: Owners, first: nat) {
    && Shaped(st)
    && 1 <= first <= |st.bits| && (forall b :: 0 <= b < first ==> st.bits[b])
    && (forall i, s {:trigger Slot(st, i, s)} :: 0 <= i < |st.inodes| && 0 <= s < NSLOTS && Slot(st, i, s) != 0 ==>
          NamedBy(st, own, first, Slot(st, i, s), Owner(i, s)))
  }

  /** Two slots that name the same block are the same slot. */
  lemma OneOwner(st: St, own: Owners, first: nat, i: int, s: int, j: int, t: int)
    requires Owned(st, own, first)
    requires 0 <= i < |st.inodes| && 0 <= j < |st.inodes| && 0 <= s < NSLOTS && 0 <= t < NSLOTS
    requires Slot(st, i, s) == Slot(st, j, t) != 0
    ensures i == j && s == t && first <= Slot(st, i, s) < |st.bits| && st.bits[Slot(st, i, s)]
  {
    assert NamedBy(st, own, first, Slot(st, i, s), Owner(i, s));
    assert NamedBy(st, own, first, Slot(st, j, t), Owner(j, t));
  }

  /** No slot names block `b`. */
  ghost predicate Unnamed(st: St, b: int)
    requires Shaped(st)
  {
    forall i, s {:trigger Slot(st, i, s)} :: 0 <= i < |st.inodes| && 0 <= s < NSLOTS ==> Slot(st, i, s) != b
  }

  /** A block that the bitmap has free is named by no slot. */
  lemma FreeIsUnnamed(st: St, own: Owners, first: nat, b: nat)
    requires Owned(st, own, first) && b < |st.bits| && !st.bits[b]
    ensures Unnamed(st, b) && first <= b
  {
    forall i, s | 0 <= i < |st.inodes| && 0 <= s < NSLOTS ensures Slot(st, i, s) != b {
      assert Slot(st, i, s) != 0 ==> NamedBy(st, own, first, Slot(st, i, s), Owner(i, s));
    }
  }

  // ---- File blocks ------------------------------------------------------------------------

  /** Content of a file block, if it is mapped. */
  datatype Mapped = Hole | Data(block: Bytes)

  ghost function BlockAt(st: St, b: nat): Mapped {
    if b == 0 || b >= |st.blocks| then Hole else Data(st.blocks[b])
  }

  ghost function View(st: St, i: int, n: int): Mapped
    requires Shaped(st) && 0 <= i < |st.inodes| && 0 <= n < MAXFILE
  {
    BlockAt(st, Slot(st, i, SlotOf(n)))
  }

  /** Inode headers (type and size) are as before. */
  ghost predicate SameHeads(st: St, st': St) {
    && |st'.inodes| == |st.inodes|
    && forall i :: 0 <= i < |st.inodes| ==>
      st'.inodes[i].typ == st.inodes[i].typ && st'.inodes[i].size == st.inodes[i].size
  }

  /** Every file block reads as before, except block `bn` of inode `ip`, which reads `v`. */
  ghost predicate OneView(st: St, st': St, ip: int, bn: int, v: Mapped)
    requires Shaped(st) && Shaped(st')
  {
    && SameHeads(st, st')
    && forall i, n {:trigger View(st', i, n)} :: 0 <= i < |st.inodes| && 0 <= n < MAXFILE ==>
         View(st', i, n) == if i == ip && n == bn then v else View(st, i, n)
  }

  /** Every slot names what it did, except slot `s` of inode `ip`, which names `b`. */
  ghost predicate OneSlot(st: St, st': St, ip: int, s: int, b: int)
    requires Shaped(st) && Shaped(st')
  {
    && SameHeads(st, st')
    && forall i, t {:trigger Slot(st', i, t)} :: 0 <= i < |st.inodes| && 0 <= t < NSLOTS ==>
         Slot(st', i, t) == if i == ip && t == s then b else Slot(st, i, t)
  }

  // ---- Changes to the state -----------------------------------------------------------

  /** A marked data block that no slot names yet, filled with zeros. */
  ghost predicate Blank(st: St, first: nat, b: int)
    requires Shaped(st)
  {
    first <= b < |st.bits| && st.bits[b] && st.blocks[b] == ZeroBlock() && Unnamed(st, b)
  }

  /** balloc: mark a free block and zero it. */
  function Alloc(st: St, b: nat): St
    requires b < |st.bits| && |st.blocks| == |st.bits|
  {
    st.(bits := st.bits[b := true], blocks := st.blocks[b := ZeroBlock()])
  }

  lemma AllocKeeps(st: St, st': St, own: Owners, first: nat, b: nat)
    requires Owned(st, own, first) && b < |st.bits| && !st.bits[b] && st' == Alloc(st, b)
    ensures Owned(st', own, first) && OneView(st, st', -1, -1, Hole) && OneSlot(st, st', -1, -1, 0) &&
            Blank(st', first, b)
  {
    FreeIsUnnamed(st, own, first, b);
    forall i, s | 0 <= i < |st.inodes| && 0 <= s < NSLOTS ensures Slot(st', i, s) == Slot(st, i, s) {
      assert Slot(st, i, NDIRECT) != b;
    }
    forall i, n | 0 <= i < |st.inodes| && 0 <= n < MAXFILE ensures View(st', i, n) == View(st, i, n) {
      assert Slot(st', i, SlotOf(n)) == Slot(st, i, SlotOf(n)) != b;
    }
    forall i, s | 0 <= i < |st.inodes| && 0 <= s < NSLOTS && Slot(st', i, s) != 0
      ensures NamedBy(st', own, first, Slot(st', i, s), Owner(i, s))
    {
      assert NamedBy(st, own, first, Slot(st, i, s), Owner(i, s));
    }
  }

  /** Pointing an empty slot at a block that no slot names keeps ownership. */
  lemma PointKeeps(st: St, st': St, own: Owners, first: nat, ip: int, s: int, b: nat)
    requires Owned(st, own, first) && Shaped(st') && st'.bits == st.bits
    requires 0 <= ip < |st.inodes| && 0 <= s < NSLOTS && Slot(st, ip, s) == 0
    requires first <= b < |st.bits| && st.bits[b] && Unnamed(st, b)
    requires OneSlot(st, st', ip, s, b)
    ensures Owned(st', own[b := Owner(ip, s)], first)
  {
    var own' := own[b := Owner(ip, s)];
    forall i, t | 0 <= i < |st'.inodes| && 0 <= t < NSLOTS && Slot(st', i, t) != 0
      ensures NamedBy(st', own', first, Slot(st', i, t), Owner(i, t))
    {
      if !(i == ip && t == s) {
        assert NamedBy(st, own, first, Slot(st, i, t), Owner(i, t));
      }
    }
  }

  /** Assigning an entry of an inode's address table. */
  function SetAddr(st: St, ip: int, s: int, b: nat): St
    requires 0 <= ip < |st.inodes| && 0 <= s < |st.inodes[ip].addrs|
  {
    st.(inodes := st.inodes[ip := st.inodes[ip].(addrs := st.inodes[ip].addrs[s := b])])
  }

  lemma SetAddrSlots(st: St, st': St, first: nat, ip: int, s: int, b: nat)
    requires Shaped(st) && 0 <= ip < |st.inodes| && 0 <= s <= NDIRECT && st.inodes[ip].addrs[s] == 0
    requires 1 <= first && Blank(st, first, b) && st' == SetAddr(st, ip, s, b)
    ensures Shaped(st') && OneSlot(st, st', ip, s, b)
  {
    forall i, t | 0 <= i < |st.inodes| && 0 <= t < NSLOTS
      ensures Slot(st', i, t) == if i == ip && t == s then b else Slot(st, i, t)
    {
      if i == ip && s == NDIRECT && t > NDIRECT {
        assert Word(st.blocks[b], t - NDIRECT - 1) == 0;
      }
    }
  }

  /** bmap, direct block: an empty address takes a blank block. */
  lemma SetDirectKeeps(st: St, st': St, own: Owners, first: nat, ip: int, s: int, b: nat)
    requires Owned(st, own, first) && 0 <= ip < |st.inodes| && 0 <= s < NDIRECT && st.inodes[ip].addrs[s] == 0
    requires Blank(st, first, b) && st' == SetAddr(st, ip, s, b)
    ensures Owned(st', own[b := Owner(ip, s)], first)
    ensures OneView(st, st', ip, s, Data(ZeroBlock())) && Slot(st', ip, SlotOf(s)) == b
  {
    SetAddrSlots(st, st', first, ip, s, b);
    assert Slot(st, ip, s) == 0;
    PointKeeps(st, st', own, first, ip, s, b);
    forall i, n | 0 <= i < |st.inodes| && 0 <= n < MAXFILE
      ensures View(st', i, n) == if i == ip && n == s then Data(ZeroBlock()) else View(st, i, n)
    {
      assert Slot(st', i, SlotOf(n)) == if i == ip && SlotOf(n) == s then b else Slot(st, i, SlotOf(n));
    }
  }

  /** bmap, indirect block: an empty indirect address takes a blank block; no file block changes. */
  lemma SetIndirectKeeps(st: St, st': St, own: Owners, first: nat, ip: int, b: nat)
    requires Owned(st, own, first) && 0 <= ip < |st.inodes| && st.inodes[ip].addrs[NDIRECT] == 0
    requires Blank(st, first, b) && st' == SetAddr(st, ip, NDIRECT, b)
    ensures Owned(st', own[b := Owner(ip, NDIRECT)], first)
    ensures OneView(st, st', -1, -1, Hole) && OneSlot(st, st', ip, NDIRECT, b)
  {
    SetAddrSlots(st, st', first, ip, NDIRECT, b);
    assert Slot(st, ip, NDIRECT) == 0;
    PointKeeps(st, st', own, first, ip, NDIRECT, b);
    forall i, n | 0 <= i < |st.inodes| && 0 <= n < MAXFILE ensures View(st', i, n) == View(st, i, n) {
      assert Slot(st', i, SlotOf(n)) == Slot(st, i, SlotOf(n));
    }
  }

  /** Replacing the contents of a block. */
  function SetBlock(st: St, b: nat, d: Bytes): St
    requires b < |st.blocks|
  {
    st.(blocks := st.blocks[b := d])
  }

  lemma SetEntrySlots(st: St, st': St, own: Owners, first: nat, ip: int, k: int, b: nat)
    requires Owned(st, own, first) && 0 <= ip < |st.inodes| && 0 <= k < NINDIRECT
    requires b < |st.blocks|
    requires var ind := st.inodes[ip].addrs[NDIRECT];
             ind != 0 && st' == SetBlock(st, ind, SetWord(st.blocks[ind], k, b))
    ensures Shaped(st') && OneSlot(st, st', ip, NDIRECT + 1 + k, b)
  {
    var ind := st.inodes[ip].addrs[NDIRECT];
    forall i, t | 0 <= i < |st.inodes| && 0 <= t < NSLOTS
      ensures Slot(st', i, t) == if i == ip && t == NDIRECT + 1 + k then b else Slot(st, i, t)
    {
      if t > NDIRECT {
        if i == ip {
          WordOfSetWord(st.blocks[ind], k, b, t - NDIRECT - 1);
        } else if st.inodes[i].addrs[NDIRECT] == ind {
          assert Slot(st, i, NDIRECT) == Slot(st, ip, NDIRECT);
          OneOwner(st, own, first, i, NDIRECT, ip, NDIRECT);
        }
      }
    }
  }

  /** bmap, listed block: an empty entry of the indirect block takes a blank block. */
  lemma SetEntryKeeps(st: St, st': St, own: Owners, first: nat, ip: int, k: int, b: nat)
    requires Owned(st, own, first) && 0 <= ip < |st.inodes| && 0 <= k < NINDIRECT
    requires Slot(st, ip, NDIRECT + 1 + k) == 0 && Blank(st, first, b)
    requires var ind := st.inodes[ip].addrs[NDIRECT];
             ind != 0 && st' == SetBlock(st, ind, SetWord(st.blocks[ind], k, b))
    ensures Owned(st', own[b := Owner(ip, NDIRECT + 1 + k)], first)
    ensures OneView(st, st', ip, NDIRECT + k, Data(ZeroBlock())) && Slot(st', ip, NDIRECT + 1 + k) == b
  {
    var ind := st.inodes[ip].addrs[NDIRECT];
    SetEntrySlots(st, st', own, first, ip, k, b);
    PointKeeps(st, st', own, first, ip, NDIRECT + 1 + k, b);
    assert Slot(st, ip, NDIRECT) == ind;
    forall i, n | 0 <= i < |st.inodes| && 0 <= n < MAXFILE
      ensures View(st', i, n) == if i == ip && n == NDIRECT + k then Data(ZeroBlock()) else View(st, i, n)
    {
      assert Slot(st', i, SlotOf(n)) == if i == ip && n == NDIRECT + k then b else Slot(st, i, SlotOf(n));
      if Slot(st, i, SlotOf(n)) == ind {
        OneOwner(st, own, first, i, SlotOf(n), ip, NDIRECT);
      }
    }
  }

  /** writei: new contents for a mapped file block change that file block and nothing else. */
  lemma SetDataKeeps(st: St, st': St, own: Owners, first: nat, ip: int, n: int, d: Bytes)
    requires Owned(st, own, first) && 0 <= ip < |st.inodes| && 0 <= n < MAXFILE && |d| == BSIZE
    requires var b := Slot(st, ip, SlotOf(n)); b != 0 && b < |st.blocks| && st' == SetBlock(st, b, d)
    ensures Owned(st', own, first) && OneView(st, st', ip, n, Data(d)) && OneSlot(st, st', -1, -1, 0)
  {
    var b := Slot(st, ip, SlotOf(n));
    forall i, t | 0 <= i < |st.inodes| && 0 <= t < NSLOTS ensures Slot(st', i, t) == Slot(st, i, t) {
      if Slot(st, i, NDIRECT) == b {
        OneOwner(st, own, first, i, NDIRECT, ip, SlotOf(n));
      }
    }
    forall i, t | 0 <= i < |st'.inodes| && 0 <= t < NSLOTS && Slot(st', i, t) != 0
      ensures NamedBy(st', own, first, Slot(st', i, t), Owner(i, t))
    {
      assert NamedBy(st, own, first, Slot(st, i, t), Owner(i, t));
    }
    forall i, m | 0 <= i < |st.inodes| && 0 <= m < MAXFILE
      ensures View(st', i, m) == if i == ip && m == n then Data(d) else View(st, i, m)
    {
      assert Slot(st', i, SlotOf(m)) == Slot(st, i, SlotOf(m));
      if Slot(st, i, SlotOf(m)) == b {
        OneOwner(st, own, first, i, SlotOf(m), ip, SlotOf(n));
      }
    }
  }

  // ---- Truncation ---------------------------------------------------------------------------

  /** Inode `ip` names block `b`. */
  ghost predicate Names(st: St, ip: int, b: int)
    requires Shaped(st) && 0 <= ip < |st.inodes|
  {
    b != 0 && exists s {:trigger Slot(st, ip, s)} :: 0 <= s < NSLOTS && Slot(st, ip, s) == b
  }

  /** Block `b` belongs to one of the slots `done` of inode `ip`. */
  ghost predicate Listed(st: St, own: Owners, ip: int, done: set<int>, b: int)
    requires Shaped(st) && 0 <= ip < |st.inodes|
  {
    b in own && own[b].inum == ip && own[b].slot in done && 0 <= own[b].slot < NSLOTS &&
      Slot(st, ip, own[b].slot) == b != 0
  }

  /** The bitmap with the blocks of the slots `done` of inode `ip` cleared. */
  ghost predicate Cleared(st: St, own: Owners, ip: int, done: set<int>, bits: seq<bool>)
    requires Shaped(st) && 0 <= ip < |st.inodes|
  {
    && |bits| == |st.bits|
    && forall b :: 0 <= b < |bits| ==> bits[b] == (st.bits[b] && !Listed(st, own, ip, done, b))
  }

  /** The block of a slot not yet cleared is still marked, and clearing it does that slot. */
  lemma ClearStep(st: St, own: Owners, first: nat, ip: int, done: set<int>, bits: seq<bool>, s: int)
    requires Owned(st, own, first) && 0 <= ip < |st.inodes| && 0 <= s < NSLOTS && s !in done
    requires Cleared(st, own, ip, done, bits)
    ensures Slot(st, ip, s) == 0 ==> Cleared(st, own, ip, done + {s}, bits)
    ensures Slot(st, ip, s) != 0 ==> Slot(st, ip, s) < |bits| && bits[Slot(st, ip, s)]
    ensures Slot(st, ip, s) != 0 ==> Cleared(st, own, ip, done + {s}, bits[Slot(st, ip, s) := false])
  {
    var b := Slot(st, ip, s);
    if b != 0 {
      assert NamedBy(st, own, first, b, Owner(ip, s));
      var bits' := bits[b := false];
      forall c | 0 <= c < |bits'| ensures bits'[c] == (st.bits[c] && !Listed(st, own, ip, done + {s}, c)) {
      }
    }
  }

  /** itrunc: the inode is empty and its blocks, exactly, are cleared. */
  lemma TruncKeeps(st: St, st': St, own: Owners, first: nat, ip: int, done: set<int>)
    requires Owned(st, own, first) && 0 <= ip < |st.inodes|
    requires forall s :: 0 <= s < NSLOTS ==> s in done
    requires Cleared(st, own, ip, done, st'.bits) && st'.blocks == st.blocks
    requires |st'.inodes| == |st.inodes| && st'.inodes == st.inodes[ip := st'.inodes[ip]]
    requires |st'.inodes[ip].addrs| == NDIRECT + 1 && forall s :: 0 <= s <= NDIRECT ==> st'.inodes[ip].addrs[s] == 0
    ensures Owned(st', own, first)
    ensures forall b :: 0 <= b < |st.bits| ==> (st'.bits[b] <==> st.bits[b] && !Names(st, ip, b))
    ensures forall i, n {:trigger View(st', i, n)} :: 0 <= i < |st.inodes| && 0 <= n < MAXFILE && i != ip ==>
              View(st', i, n) == View(st, i, n)
  {
    assert Shaped(st');
    forall b | 0 <= b < |st.bits| ensures Listed(st, own, ip, done, b) <==> Names(st, ip, b) {
      if Names(st, ip, b) {
        var s :| 0 <= s < NSLOTS && Slot(st, ip, s) == b;
        assert NamedBy(st, own, first, b, Owner(ip, s));
      }
    }
    forall i, t | 0 <= i < |st'.inodes| && 0 <= t < NSLOTS && Slot(st', i, t) != 0
      ensures NamedBy(st', own, first, Slot(st', i, t), Owner(i, t))
    {
      assert i != ip;
      assert Slot(st', i, t) == Slot(st, i, t);
      assert NamedBy(st, own, first, Slot(st, i, t), Owner(i, t));
    }
    forall b | 0 <= b < first ensures st'.bits[b] {
      assert Listed(st, own, ip, done, b) ==> NamedBy(st, own, first, b, Owner(ip, own[b].slot));
    }
    forall i, n | 0 <= i < |st.inodes| && 0 <= n < MAXFILE && i != ip ensures View(st', i, n) == View(st, i, n) {
      assert Slot(st', i, SlotOf(n)) == Slot(st, i, SlotOf(n));
    }
  }
}
