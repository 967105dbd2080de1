/**
 Physical memory as 4096-byte pages of 64-bit words (mmu.h), and the allocator that
 keeps its free pages on a list threaded through the pages themselves (kalloc.c).
 */
module Memory {
  import opened SetSizes

  const NR_PTE: nat := 512

  /** Kernel addresses of frames have this bit set in their frame field (KERNBASE). */
  const KERN_FRAME: nat := 0x8_0000_0000

  /**
   A 64-bit word, cut where PTE_ADDR and PTE_FLAGS cut it: bits 0-11, the frame
   number in bits 12-47, and bits 48-63.
   */
  datatype Word = Word(low: nat, frame: nat, high: nat)

  type Page = seq<Word>

  const ZERO: Word := Word(0, 0, 0)

  /** 0x0101010101010101, the fill of a freed page: it looks like a present entry. */
  const JUNK: Word := Word(0x101, 0x10101010, 0x101)

  const ZERO_PAGE: Page := seq(NR_PTE, _ => ZERO)
  const JUNK_PAGE: Page := seq(NR_PTE, _ => JUNK)

  predicate Present(w: Word) {
    w.low % 2 == 1
  }

  /** The list link stored in a free page: the kernel address of the next page, or null. */
  function Link(f: nat): Word {
    if f == 0 then ZERO else Word(0, KERN_FRAME + f, 0xFFFF)
  }

  function Follow(w: Word): nat {
    if w.frame < KERN_FRAME then 0 else w.frame - KERN_FRAME
  }

  /** The free list: `head` and the first words of the free pages thread `free`. */
  ghost predicate Threaded(mem: seq<Page>, head: nat, free: seq<nat>) {
    && (forall i :: 0 <= i < |free| ==> 0 < free[i] < |mem| && |mem[free[i]]| == NR_PTE)
    && head == (if free == [] then 0 else free[0])
    && (forall i :: 0 <= i < |free| ==> mem[free[i]][0] == Link(if i + 1 < |free| then free[i + 1] else 0))
  }

  class Machine {
    var mem: seq<Page>
    var head: nat
    ghost var free: seq<nat>

    ghost predicate Valid()
      reads this
    {
      && (forall f :: 0 <= f < |mem| ==> |mem[f]| == NR_PTE)
      && |mem| <= KERN_FRAME
      && NoRepeats(free) && Threaded(mem, head, free)
    }

    /** Reading a word of a page that has not been freed. */
    function Entry(f: nat, i: nat): Word
      reads this
      requires Valid() && f < |mem| && i < NR_PTE && f !in free
    {
      mem[f][i]
    }

    method SetEntry(f: nat, i: nat, w: Word)
      requires Valid() && f < |mem| && i < NR_PTE && f !in free
      modifies this`mem
      ensures Valid() && mem == old(mem)[f := old(mem[f])[i := w]]
    {
      mem := mem[f := mem[f][i := w]];
    }

    method SetPage(f: nat, p: Page)
      requires Valid() && f < |mem| && f !in free && |p| == NR_PTE
      modifies this`mem
      ensures Valid() && mem == old(mem)[f := p]
    {
      mem := mem[f := p];
    }

    /** Take the first free page; 0 when there is none. */
    method Kalloc() returns (r: nat)
      requires Valid()
      modifies this`head, this`free
      ensures Valid()
      ensures r == 0 <==> old(free) == []
      ensures r == 0 ==> free == []
      ensures r != 0 ==> old(free) == [r] + free && r < |mem| && r !in free
    {
      r := head;
      if r != 0 {
        head := Follow(mem[r][0]);
        assert free[0] == r;
        free := free[1..];
      }
    }

    /** Fill a page with junk and put it at the front of the free list. */
    method Kfree(f: nat)
      requires Valid() && 0 < f < |mem| && f !in free
      modifies this
      ensures Valid() && free == [f] + old(free)
      ensures mem == old(mem)[f := JUNK_PAGE[0 := Link(old(head))]]
    {
      mem := mem[f := JUNK_PAGE];
      mem := mem[f := mem[f][0 := Link(head)]];
      head := f;
      free := [f] + free;
    }

    /** Boot: free the pages [first, end) one by one; each is on the list once. */
    method FreeRange(first: nat, end: nat)
      requires Valid() && 0 < first && end <= |mem|
      requires forall f :: first <= f < end ==> f !in free
      modifies this
      ensures Valid() && |mem| == |old(mem)|
      ensures forall f :: f in free <==> f in old(free) || first <= f < end
      ensures forall f :: 0 <= f < |mem| && !(first <= f < end) ==> mem[f] == old(mem[f])
    {
      var p := first;
      while p < end
        invariant first <= p <= if first <= end then end else first
        invariant Valid() && |mem| == |old(mem)|
        invariant forall f :: f in free <==> f in old(free) || first <= f < p
        invariant forall f :: 0 <= f < |mem| && !(first <= f < p) ==> mem[f] == old(mem[f])
      {
        Kfree(p);
        p := p + 1;
      }
    }
  }
}
