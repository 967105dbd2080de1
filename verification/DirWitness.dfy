/** Trees that a few mkdirs and rmdirs lead to from a new file system, and what goes wrong in them. */
module DirWitness {
  import opened DirTree
  import Directory

  lemma MakeOne(t: Tree, dp: nat, k: int, name: Name, i: nat) returns (t': Tree)
    requires WellFormed(t) && Live(t, dp) && FreeSlot(t.inodes[dp].entries, k) && NoName(t.inodes[dp].entries, name)
    requires 0 < i < |t.inodes| && t.inodes[i].typ == T_FREE
    ensures t' == MakeDir(t, dp, k, name, i) && WellFormed(t')
    ensures t'.inodes == Placed(WithDots(t.inodes, dp, i), dp, k, Entry(i, name))
  {
    t' := MakeDir(t, dp, k, name, i);
    MakeDirKeeps(t, t', dp, k, name, i);
  }

  lemma RemoveOne(t: Tree, dp: nat, k: int, i: nat) returns (t': Tree)
    requires WellFormed(t) && Has(t, dp, k, i) && k >= 2 && IsDir(t, i) && OnlyDots(t.inodes[i].entries)
    ensures t' == RemoveDir(t, dp, k, i) && WellFormed(t') && Dead(t', i) && dp != i
    ensures t'.inodes == Counting(Counting(Placed(t.inodes, dp, k, Entry(0, "")), dp, -1), i, -1)
  {
    t' := RemoveDir(t, dp, k, i);
    EmptyDirLinks(t, dp, k, i);
    RemoveDirKeeps(t, t', dp, k, i);
  }

  const FREE: Inode := Inode(T_FREE, 0, [])
  const FILE: Inode := Inode(T_FILE, 1, [])

  /** The dots of directory `d` with parent `p`. */
  function TwoDots(d: nat, p: nat): seq<Entry> {
    [Entry(d, DOT), Entry(p, DOTDOT)]
  }

  function Dir(n: int, es: seq<Entry>): Inode {
    Inode(T_DIR, n, es)
  }

  lemma FourEqual(ns: seq<Inode>, a: Inode, b: Inode, c: Inode, d: Inode)
    requires |ns| == 4 && ns[0] == a && ns[1] == b && ns[2] == c && ns[3] == d
    ensures ns == [a, b, c, d]
  {
  }

  const EMPTY: Entry := Entry(0, "")

  /** The inodes after mkdir a; mkdir a, rmdir a; and that with a file f. */
  const A: seq<Inode> := [FREE, Dir(2, TwoDots(1, 1) + [Entry(2, "a")]), Dir(1, TwoDots(2, 1)), FREE]
  const NO_A: seq<Inode> := [FREE, Dir(1, TwoDots(1, 1) + [EMPTY]), Dir(0, TwoDots(2, 1)), FREE]
  const NO_A_BUT_F: seq<Inode> := [FREE, Dir(1, TwoDots(1, 1) + [Entry(3, "f")]), Dir(0, TwoDots(2, 1)), FILE]

  /** The inodes after mkdir a, mkdir a/b; that and rmdir a/b; that and rmdir a; that and the freeing of a. */
  const AB: seq<Inode> :=
    [FREE, Dir(2, TwoDots(1, 1) + [Entry(2, "a")]), Dir(2, TwoDots(2, 1) + [Entry(3, "b")]), Dir(1, TwoDots(3, 2))]
  const NO_B: seq<Inode> :=
    [FREE, Dir(2, TwoDots(1, 1) + [Entry(2, "a")]), Dir(1, TwoDots(2, 1) + [EMPTY]), Dir(0, TwoDots(3, 2))]
  const NO_AB: seq<Inode> :=
    [FREE, Dir(1, TwoDots(1, 1) + [EMPTY]), Dir(0, TwoDots(2, 1) + [EMPTY]), Dir(0, TwoDots(3, 2))]
  const FREED_A: seq<Inode> := [FREE, Dir(1, TwoDots(1, 1) + [EMPTY]), FREE, Dir(0, TwoDots(3, 2))]

  lemma AShape(ns: seq<Inode>)
    requires |ns| == 4 && ns[0] == ns[2] == ns[3] == FREE && ns[1] == Dir(1, TwoDots(1, 1))
    ensures Placed(WithDots(ns, 1, 2), 1, 2, Entry(2, "a")) == A
  {
    var ns' := Placed(WithDots(ns, 1, 2), 1, 2, Entry(2, "a"));
    FourEqual(ns', FREE, A[1], A[2], FREE);
  }

  lemma NoAShape()
    ensures Counting(Counting(Placed(A, 1, 2, EMPTY), 1, -1), 2, -1) == NO_A
  {
    assert Place(A[1].entries, 2, EMPTY) == NO_A[1].entries;
    FourEqual(Counting(Counting(Placed(A, 1, 2, EMPTY), 1, -1), 2, -1), FREE, NO_A[1], NO_A[2], FREE);
  }

  lemma FShape()
    ensures Placed(Counting(NO_A[3 := Inode(T_FILE, 0, [])], 3, 1), 1, 2, Entry(3, "f")) == NO_A_BUT_F
  {
    assert Place(NO_A[1].entries, 2, Entry(3, "f")) == NO_A_BUT_F[1].entries;
    FourEqual(Placed(Counting(NO_A[3 := Inode(T_FILE, 0, [])], 3, 1), 1, 2, Entry(3, "f")), FREE, NO_A_BUT_F[1],
      NO_A_BUT_F[2], FILE);
  }

  lemma ABShape()
    ensures Placed(WithDots(A, 2, 3), 2, 2, Entry(3, "b")) == AB
  {
    assert Place(A[2].entries, 2, Entry(3, "b")) == AB[2].entries;
    FourEqual(Placed(WithDots(A, 2, 3), 2, 2, Entry(3, "b")), FREE, AB[1], AB[2], AB[3]);
  }

  lemma NoBShape()
    ensures Counting(Counting(Placed(AB, 2, 2, EMPTY), 2, -1), 3, -1) == NO_B
  {
    assert Place(AB[2].entries, 2, EMPTY) == NO_B[2].entries;
    FourEqual(Counting(Counting(Placed(AB, 2, 2, EMPTY), 2, -1), 3, -1), FREE, NO_B[1], NO_B[2], NO_B[3]);
  }

  lemma NoABShape()
    ensures Counting(Counting(Placed(NO_B, 1, 2, EMPTY), 1, -1), 2, -1) == NO_AB
  {
    assert Place(NO_B[1].entries, 2, EMPTY) == NO_AB[1].entries;
    FourEqual(Counting(Counting(Placed(NO_B, 1, 2, EMPTY), 1, -1), 2, -1), FREE, NO_AB[1], NO_AB[2], NO_AB[3]);
  }

  lemma MadeA() returns (t: Tree)
    ensures WellFormed(t) && t.inodes == A
  {
    RootOnlyWellFormed(4);
    AShape(RootOnly(4).inodes);
    t := MakeOne(RootOnly(4), 1, 2, "a", 2);
  }

  /** With "a" still in use, a well-formed tree with a removed directory. */
  lemma RemovedA() returns (t: Tree)
    ensures WellFormed(t) && t.inodes == NO_A
  {
    t := MadeA();
    assert Has(t, 1, 2, 2);
    t := RemoveOne(t, 1, 2, 2);
    NoAShape();
  }

  /** What is created in it no tree explains, whatever its type. */
  lemma LostCreate(typ: int) returns (t: Tree)
    requires typ != T_FREE
    ensures WellFormed(t) && |t.inodes| == 4 && Dead(t, 2) && t.inodes[3] == FREE && FreeSlot(t.inodes[2].entries, 2)
    ensures !Consistent(MadeInodes(t.inodes, 2, 2, "x", 3, typ))
  {
    t := RemovedA();
    CreateKeepsIff(t, 2, 2, "x", 3, typ);
  }

  lemma RemovedAMadeF() returns (t: Tree)
    ensures WellFormed(t) && t.inodes == NO_A_BUT_F
  {
    var r := RemovedA();
    ResetKeeps(r, 3, Inode(T_FILE, 0, []));
    r := Reset(r, 3, Inode(T_FILE, 0, []));
    t := AddLink(r, 1, 2, "f", 3);
    AddLinkKeeps(r, t, 1, 2, "f", 3);
    FShape();
  }

  /** Nor does a tree explain a link to a file, of f as a/x. */
  lemma LostLink() returns (t: Tree)
    ensures WellFormed(t) && |t.inodes| == 4 && Dead(t, 2) && t.inodes[3] == FILE && FreeSlot(t.inodes[2].entries, 2)
    ensures !Consistent(Placed(Counting(t.inodes, 3, 1), 2, 2, Entry(3, "x")))
  {
    t := RemovedAMadeF();
    LinkKeepsIff(t, 2, 2, "x", 3);
  }

  lemma MadeAB() returns (t: Tree)
    ensures WellFormed(t) && t.inodes == AB
  {
    t := MadeA();
    t := MakeOne(t, 2, 2, "b", 3);
    ABShape();
  }

  lemma RemovedB() returns (t: Tree)
    ensures WellFormed(t) && t.inodes == NO_B
  {
    t := MadeAB();
    assert Has(t, 2, 2, 3);
    t := RemoveOne(t, 2, 2, 3);
    NoBShape();
  }

  lemma RemovedAB() returns (t: Tree)
    ensures WellFormed(t) && t.inodes == NO_AB
  {
    t := RemovedB();
    assert Has(t, 1, 2, 2);
    t := RemoveOne(t, 1, 2, 2);
    NoABShape();
  }

  /** With a/b still in use, ".." of a/b names a free inode, and creating it panics. */
  lemma FreedParent() returns (t: Tree)
    ensures WellFormed(t) && t.inodes == FREED_A && Dead(t, 3)
    ensures Directory.FirstNamed(t, 3, DOTDOT, 1) && Directory.NamedTyp(t, 3, 1) == T_FREE
  {
    t := RemovedAB();
    ResetKeeps(t, 2, FREE);
    t := Reset(t, 2, FREE);
    FourEqual(t.inodes, FREE, FREED_A[1], FREE, FREED_A[3]);
  }
}
