/**
 The directory graph (sysfile.c, fs.c): what create, link, unlink and the last iput of an
 unlinked inode do to the links between inodes, as steps on values.
 */
module DirTree {
  import opened SetSizes

  const T_FREE: int := 0
  const T_DIR: int := 1
  const T_FILE: int := 2
  const ROOTINO: int := 1
  const DIRSIZ: int := 14

  /** A path element, cut to DIRSIZ characters. */
  type Name = s: string | |s| <= DIRSIZ

  const DOT: Name := "."
  const DOTDOT: Name := ".."

  /** A directory entry; inum 0 marks an empty one. */
  datatype Entry = Entry(inum: nat, name: Name)

  datatype Inode = Inode(typ: int, nlink: int, entries: seq<Entry>)

  /** An entry's place: slot `slot` of directory `dir`. */
  datatype Ref = Ref(dir: int, slot: int)

  /**
   Inodes, and what the links between them amount to: the entries that count towards each
   nlink, the entry that makes each directory a child of its parent, and how deep it is.
   */
  datatype Tree = Tree(inodes: seq<Inode>, refs: seq<set<Ref>>, up: seq<Ref>, depth: seq<nat>)

  ghost predicate IsDir(t: Tree, d: int) {
    0 <= d < |t.inodes| && t.inodes[d].typ == T_DIR
  }

  /** A directory that is still linked. */
  ghost predicate Live(t: Tree, d: int) {
    IsDir(t, d) && t.inodes[d].nlink > 0
  }

  /** Slot `k` of live directory `d` holds an entry for `i`; slot 0, ".", is left out. */
  ghost predicate Has(t: Tree, d: int, k: int, i: int) {
    i != 0 && Live(t, d) && 1 <= k < |t.inodes[d].entries| && t.inodes[d].entries[k].inum == i
  }

  ghost predicate Shape(t: Tree) {
    && |t.inodes| == |t.refs| == |t.up| == |t.depth| && |t.inodes| > 1 && t.inodes[0].typ == T_FREE
    && (forall i :: 0 <= i < |t.inodes| && t.inodes[i].typ == T_FREE ==> t.inodes[i].nlink == 0)
  }

  /** Link counts: nlink is the number of live entries naming the inode, "." left out. */
  ghost predicate Counted(t: Tree)
    requires Shape(t)
  {
    && (forall i :: 0 < i < |t.inodes| ==> t.inodes[i].nlink == |t.refs[i]|)
    && (forall i, r {:trigger r in t.refs[i]} :: 0 < i < |t.inodes| ==> (r in t.refs[i] <==> Has(t, r.dir, r.slot, i)))
  }

  ghost predicate DirOk(t: Tree, d: int)
    requires 0 <= d < |t.inodes|
  {
    var es := t.inodes[d].entries;
    && |es| >= 2 && es[0] == Entry(d, DOT) && es[1].name == DOTDOT && es[1].inum > 0
    && (forall j, k :: 0 <= j < k < |es| && es[j].inum != 0 && es[k].inum != 0 ==> es[j].name != es[k].name)
  }

  /** Every live directory begins with "." and "..", and its names are unique. */
  ghost predicate Dots(t: Tree) {
    forall d {:trigger Live(t, d)} :: Live(t, d) ==> DirOk(t, d)
  }

  /** Live entries name allocated inodes. */
  ghost predicate Targets(t: Tree) {
    forall d, k, i {:trigger Has(t, d, k, i)} :: Has(t, d, k, i) ==> 0 < i < |t.inodes| && t.inodes[i].typ != T_FREE
  }

  /** What ".." of directory `d` names. */
  ghost function DotDot(t: Tree, d: int): int
    requires 0 <= d < |t.inodes|
  {
    if |t.inodes[d].entries| >= 2 then t.inodes[d].entries[1].inum else -1
  }

  ghost predicate HasParent(t: Tree, d: int)
    requires Shape(t) && 0 <= d < |t.inodes|
  {
    && DotDot(t, d) == t.up[d].dir
    && t.up[d].slot >= 2 && Has(t, t.up[d].dir, t.up[d].slot, d)
    && t.depth[t.up[d].dir] < t.depth[d]
  }

  /**
   The tree: the root is its own parent; every other live directory has ".." naming the live
   directory, nearer the root, that holds its entry; and a directory has no other entry.
   */
  ghost predicate Parents(t: Tree)
    requires Shape(t)
  {
    && Live(t, ROOTINO) && DotDot(t, ROOTINO) == ROOTINO
    && (forall d {:trigger HasParent(t, d)} :: Live(t, d) && d != ROOTINO ==> HasParent(t, d))
    && (forall d, k, i {:trigger Has(t, d, k, i)} :: Has(t, d, k, i) && k >= 2 && IsDir(t, i) ==>
      i != ROOTINO && t.up[i] == Ref(d, k))
  }

  /** A directory that has been removed, and is still in use. */
  ghost predicate Dead(t: Tree, d: int) {
    IsDir(t, d) && !Live(t, d)
  }

  ghost predicate JustDots(t: Tree, d: int)
    requires 0 <= d < |t.inodes|
  {
    var es := t.inodes[d].entries;
    forall j :: 0 <= j < |es| && es[j].inum != 0 ==>
      (j == 0 && es[j] == Entry(d, DOT)) || (j == 1 && es[j].name == DOTDOT && es[j].inum < |t.inodes|)
  }

  /** What is left in a removed directory: its dots. */
  ghost predicate Hollow(t: Tree) {
    forall d {:trigger Dead(t, d)} :: Dead(t, d) ==> JustDots(t, d)
  }

  ghost predicate WellFormed(t: Tree) {
    Shape(t) && Counted(t) && Dots(t) && Targets(t) && Parents(t) && Hollow(t)
  }

  /** A new file system: the root, whose two dots name itself, with one link for "..". */
  function RootOnly(n: nat): Tree
    requires n >= 2
  {
    Tree(seq(n, i => if i == ROOTINO then Inode(T_DIR, 1, [Entry(ROOTINO, DOT), Entry(ROOTINO, DOTDOT)])
      else Inode(T_FREE, 0, [])),
         seq(n, i => if i == ROOTINO then {Ref(ROOTINO, 1)} else {}),
         seq(n, _ => Ref(0, 0)), seq(n, _ => 0))
  }

  lemma RootOnlyWellFormed(n: nat)
    requires n >= 2
    ensures WellFormed(RootOnly(n))
  {
    var t := RootOnly(n);
    assert Shape(t);
    assert forall d :: Live(t, d) ==> d == ROOTINO;
    forall x, q | 0 < x < |t.inodes| ensures q in t.refs[x] <==> Has(t, q.dir, q.slot, x) {
    }
    assert DirOk(t, ROOTINO);
  }

  // ---- What well-formedness says ----------------------------------------------------------

  /** The directory reached from `d` by following ".." `n` times. */
  ghost function Ancestor(t: Tree, d: int, n: nat): int
    requires Shape(t) && Dots(t) && Parents(t) && Live(t, d)
    ensures Live(t, Ancestor(t, d, n))
    decreases n
  {
    if n == 0 then d else
    var p := Ancestor(t, d, n - 1);
    assert p == ROOTINO || HasParent(t, p);
    DotDot(t, p)
  }

  lemma AncestorStep(t: Tree, d: int, n: nat)
    requires Shape(t) && Dots(t) && Parents(t) && Live(t, d) && d != ROOTINO
    requires HasParent(t, d)
    ensures Ancestor(t, d, n + 1) == Ancestor(t, DotDot(t, d), n)
    decreases n
  {
    if n > 0 {
      AncestorStep(t, d, n - 1);
    } else {
      assert Ancestor(t, d, 0) == d;
    }
  }

  /** Following ".." from any live directory leads to the root. */
  lemma {:induction false} ReachesRoot(t: Tree, d: int)
    requires WellFormed(t) && Live(t, d)
    ensures exists n: nat :: Ancestor(t, d, n) == ROOTINO
    decreases t.depth[d]
  {
    if d == ROOTINO {
      assert Ancestor(t, d, 0) == ROOTINO;
    } else {
      assert HasParent(t, d);
      var p := DotDot(t, d);
      ReachesRoot(t, p);
      var n: nat :| Ancestor(t, p, n) == ROOTINO;
      AncestorStep(t, d, n);
    }
  }

  /** A directory has exactly one entry besides dots, in the directory that its ".." names. */
  lemma OneParent(t: Tree, d: int, p: int, k: int)
    requires WellFormed(t) && IsDir(t, d) && d > 0 && Has(t, p, k, d) && k >= 2
    ensures Live(t, d) && d != ROOTINO && Ref(p, k) == t.up[d] && DotDot(t, d) == p
  {
    assert Ref(p, k) in t.refs[d];
    assert Live(t, d);
    assert HasParent(t, d);
  }

  /** An inode that a live directory names is allocated and linked. */
  lemma NamedIsLinked(t: Tree, d: int, k: int, i: int)
    requires WellFormed(t) && Has(t, d, k, i)
    ensures 0 < i < |t.inodes| && t.inodes[i].typ != T_FREE && t.inodes[i].nlink > 0
  {
    assert Ref(d, k) in t.refs[i];
  }

  /** An inode with no links is named nowhere. */
  lemma UnlinkedIsUnnamed(t: Tree, d: int, k: int, i: int)
    requires WellFormed(t) && 0 < i < |t.inodes| && t.inodes[i].nlink == 0
    ensures !Has(t, d, k, i)
  {
    assert Ref(d, k) !in t.refs[i];
  }

  // ---- Steps ----------------------------------------------------------------------------------

  /** An empty slot of a directory, or the place past its end. */
  predicate FreeSlot(es: seq<Entry>, k: int) {
    0 <= k <= |es| && (k < |es| ==> es[k].inum == 0)
  }

  predicate NoName(es: seq<Entry>, name: Name) {
    forall j :: 0 <= j < |es| && es[j].inum != 0 ==> es[j].name != name
  }

  function Place(es: seq<Entry>, k: int, e: Entry): (r: seq<Entry>)
    requires 0 <= k <= |es|
    ensures |r| == (if k == |es| then |es| + 1 else |es|) && r[k] == e
    ensures forall j {:trigger r[j]} :: 0 <= j < |es| && j != k ==> r[j] == es[j]
  {
    if k < |es| then es[k := e] else es + [e]
  }

  /** The inodes after an entry is placed in `dp`. */
  function Placed(ns: seq<Inode>, dp: int, k: int, e: Entry): seq<Inode>
    requires 0 <= dp < |ns| && 0 <= k <= |ns[dp].entries|
  {
    ns[dp := ns[dp].(entries := Place(ns[dp].entries, k, e))]
  }

  /** The inodes after a link count changes. */
  function Counting(ns: seq<Inode>, i: int, delta: int): seq<Inode>
    requires 0 <= i < |ns|
  {
    ns[i := ns[i].(nlink := ns[i].nlink + delta)]
  }

  /** An allocated inode, not a directory, gains an entry in `dp` and a link. */
  function AddLink(t: Tree, dp: int, k: int, name: Name, i: nat): Tree
    requires 0 <= dp < |t.inodes| == |t.refs| && 0 <= i < |t.inodes| && 0 <= k <= |t.inodes[dp].entries|
  {
    t.(inodes := Placed(Counting(t.inodes, i, 1), dp, k, Entry(i, name)), refs := t.refs[i := t.refs[i] + {Ref(dp, k)}])
  }

  // ---- How a step's parts keep the invariant ----------------------------------------------

  ghost predicate SameLive(t: Tree, t': Tree) {
    forall d {:trigger Live(t', d)} {:trigger Live(t, d)} :: Live(t', d) == Live(t, d)
  }

  /** One more entry: `r`, for inode `i`. */
  ghost predicate Gains(t: Tree, t': Tree, r: Ref, i: int) {
    forall d, j, x {:trigger Has(t', d, j, x)} :: Has(t', d, j, x) <==>
      Has(t, d, j, x) || (d == r.dir && j == r.slot && x == i)
  }

  /** One entry less: `r`, for inode `i`. */
  ghost predicate Loses(t: Tree, t': Tree, r: Ref, i: int) {
    forall d, j, x {:trigger Has(t', d, j, x)} :: Has(t', d, j, x) <==>
      Has(t, d, j, x) && !(d == r.dir && j == r.slot && x == i)
  }

  /** The link count and the counted entries of `i` become `n` and `rs`; the others stay. */
  ghost predicate OneCount(t: Tree, t': Tree, i: int, n: int, rs: set<Ref>) {
    && |t'.inodes| == |t.inodes| == |t.refs| && 0 <= i < |t.inodes|
    && t'.refs == t.refs[i := rs]
    && forall x :: 0 <= x < |t.inodes| ==> t'.inodes[x].nlink == if x == i then n else t.inodes[x].nlink
  }

  lemma CountedGains(t: Tree, t': Tree, r: Ref, i: int)
    requires Shape(t) && Shape(t') && Counted(t) && 0 < i < |t.inodes| && !Has(t, r.dir, r.slot, i)
    requires Gains(t, t', r, i) && OneCount(t, t', i, t.inodes[i].nlink + 1, t.refs[i] + {r})
    ensures Counted(t')
  {
    assert r !in t.refs[i];
    forall x, q | 0 < x < |t'.inodes| ensures q in t'.refs[x] <==> Has(t', q.dir, q.slot, x) {
      assert q in t.refs[x] <==> Has(t, q.dir, q.slot, x);
      assert x == i && q.dir == r.dir && q.slot == r.slot ==> q == r;
    }
  }

  lemma CountedLoses(t: Tree, t': Tree, r: Ref, i: int)
    requires Shape(t) && Shape(t') && Counted(t) && 0 < i < |t.inodes| && Has(t, r.dir, r.slot, i)
    requires Loses(t, t', r, i) && OneCount(t, t', i, t.inodes[i].nlink - 1, t.refs[i] - {r})
    ensures Counted(t')
  {
    assert r in t.refs[i];
    forall x, q | 0 < x < |t'.inodes| ensures q in t'.refs[x] <==> Has(t', q.dir, q.slot, x) {
      assert q in t.refs[x] <==> Has(t, q.dir, q.slot, x);
      assert x == i && q.dir == r.dir && q.slot == r.slot ==> q == r;
    }
  }

  /** Types, parents and depths stay, and so do the dots of live directories. */
  ghost predicate SameFrame(t: Tree, t': Tree) {
    && |t'.inodes| == |t.inodes| && t'.up == t.up && t'.depth == t.depth
    && (forall x :: 0 <= x < |t.inodes| ==> t'.inodes[x].typ == t.inodes[x].typ)
    && (forall d {:trigger Live(t, d)} :: Live(t, d) ==> DotDot(t', d) == DotDot(t, d))
  }

  lemma ParentsGains(t: Tree, t': Tree, r: Ref, i: int)
    requires Shape(t) && Shape(t') && Dots(t) && Parents(t) && SameFrame(t, t') && SameLive(t, t')
    requires Gains(t, t', r, i) && !IsDir(t, i)
    ensures Parents(t')
  {
    assert DirOk(t, ROOTINO) && Live(t', ROOTINO);
    forall d | Live(t', d) && d != ROOTINO ensures HasParent(t', d) {
      assert Live(t, d) && HasParent(t, d);
    }
  }

  lemma ParentsLoses(t: Tree, t': Tree, r: Ref, i: int)
    requires Shape(t) && Shape(t') && Dots(t) && Parents(t) && SameFrame(t, t') && SameLive(t, t')
    requires Loses(t, t', r, i) && !IsDir(t, i)
    ensures Parents(t')
  {
    assert DirOk(t, ROOTINO) && Live(t', ROOTINO);
    forall d | Live(t', d) && d != ROOTINO ensures HasParent(t', d) {
      assert Live(t, d) && HasParent(t, d);
    }
  }

  /** Removed directories are left alone. */
  lemma StillHollow(t: Tree, t': Tree, dp: int)
    requires Hollow(t) && |t'.inodes| == |t.inodes| && Live(t', dp)
    requires forall d :: Dead(t', d) && d != dp ==> Dead(t, d) && t'.inodes[d].entries == t.inodes[d].entries
    ensures Hollow(t')
  {
    forall d | Dead(t', d) ensures JustDots(t', d) {
      assert Dead(t, d) && JustDots(t, d);
    }
  }

  // ---- link -----------------------------------------------------------------------------------

  lemma AddLinkParts(t: Tree, t': Tree, dp: int, k: int, name: Name, i: nat)
    requires Shape(t) && Dots(t) && Live(t, dp) && 0 < i < |t.inodes| && !IsDir(t, i) && t.inodes[i].typ != T_FREE
    requires FreeSlot(t.inodes[dp].entries, k) && t' == AddLink(t, dp, k, name, i)
    ensures k >= 2 && Shape(t') && SameLive(t, t') && SameFrame(t, t') && !Has(t, dp, k, i)
    ensures Gains(t, t', Ref(dp, k), i) && OneCount(t, t', i, t.inodes[i].nlink + 1, t.refs[i] + {Ref(dp, k)})
  {
    assert DirOk(t, dp);
    forall d | Live(t, d) ensures DotDot(t', d) == DotDot(t, d) {
      assert DirOk(t, d);
    }
  }

  lemma AddLinkDots(t: Tree, t': Tree, dp: int, k: int, name: Name, i: nat)
    requires Dots(t) && Live(t, dp) && 0 < i < |t.inodes| == |t.refs| && !IsDir(t, i) && t.inodes[0].typ == T_FREE
    requires FreeSlot(t.inodes[dp].entries, k) && NoName(t.inodes[dp].entries, name)
    requires t' == AddLink(t, dp, k, name, i)
    ensures Dots(t')
  {
    forall d | Live(t', d) ensures DirOk(t', d) {
      assert Live(t, d) && DirOk(t, d);
    }
  }

  lemma AddLinkHollow(t: Tree, t': Tree, dp: int, k: int, name: Name, i: nat)
    requires Hollow(t) && Live(t, dp) && i < |t.inodes| == |t.refs| && !IsDir(t, i)
    requires 0 <= k <= |t.inodes[dp].entries| && t' == AddLink(t, dp, k, name, i)
    ensures Hollow(t')
  {
    StillHollow(t, t', dp);
  }

  lemma AddLinkKeeps(t: Tree, t': Tree, dp: int, k: int, name: Name, i: nat)
    requires WellFormed(t) && Live(t, dp) && 0 < i < |t.inodes| && !IsDir(t, i) && t.inodes[i].typ != T_FREE
    requires FreeSlot(t.inodes[dp].entries, k) && NoName(t.inodes[dp].entries, name)
    requires t' == AddLink(t, dp, k, name, i)
    ensures WellFormed(t')
  {
    AddLinkParts(t, t', dp, k, name, i);
    AddLinkDots(t, t', dp, k, name, i);
    AddLinkHollow(t, t', dp, k, name, i);
    CountedGains(t, t', Ref(dp, k), i);
    ParentsGains(t, t', Ref(dp, k), i);
  }

  // ---- unlink, of a file --------------------------------------------------------------------

  /** Slot `k` of `dp` is emptied and the inode it named, not a directory, loses a link. */
  function DropLink(t: Tree, dp: int, k: int, i: nat): Tree
    requires 0 <= dp < |t.inodes| == |t.refs| && 0 <= i < |t.inodes| && 0 <= k < |t.inodes[dp].entries|
  {
    t.(inodes := Counting(Placed(t.inodes, dp, k, Entry(0, "")), i, -1), refs := t.refs[i := t.refs[i] - {Ref(dp, k)}])
  }

  lemma DropLinkParts(t: Tree, t': Tree, dp: int, k: int, i: nat)
    requires Shape(t) && Dots(t) && Has(t, dp, k, i) && k >= 2 && i < |t.inodes| && !IsDir(t, i) &&
             t.inodes[i].typ != T_FREE
    requires t' == DropLink(t, dp, k, i)
    ensures Shape(t') && SameLive(t, t') && SameFrame(t, t') && Dots(t')
    ensures Loses(t, t', Ref(dp, k), i) && OneCount(t, t', i, t.inodes[i].nlink - 1, t.refs[i] - {Ref(dp, k)})
  {
    forall d | Live(t, d) ensures DotDot(t', d) == DotDot(t, d) {
      assert DirOk(t, d);
    }
    forall d | Live(t', d) ensures DirOk(t', d) {
      assert Live(t, d) && DirOk(t, d);
    }
  }

  lemma DropLinkHollow(t: Tree, t': Tree, dp: int, k: int, i: nat)
    requires Hollow(t) && Live(t, dp) && i < |t.inodes| == |t.refs| && !IsDir(t, i)
    requires 0 <= k < |t.inodes[dp].entries| && t' == DropLink(t, dp, k, i)
    ensures Hollow(t')
  {
    StillHollow(t, t', dp);
  }

  lemma DropLinkKeeps(t: Tree, t': Tree, dp: int, k: int, i: nat)
    requires WellFormed(t) && Has(t, dp, k, i) && k >= 2 && i < |t.inodes| && !IsDir(t, i)
    requires t' == DropLink(t, dp, k, i)
    ensures WellFormed(t')
  {
    DropLinkParts(t, t', dp, k, i);
    DropLinkHollow(t, t', dp, k, i);
    CountedLoses(t, t', Ref(dp, k), i);
    ParentsLoses(t, t', Ref(dp, k), i);
  }

  // ---- ialloc, and the last iput ------------------------------------------------------------

  /** Two graphs with the same live entries, counts and parents; only unlinked inodes differ. */
  ghost predicate SameLinks(t: Tree, t': Tree) {
    && |t'.inodes| == |t.inodes| && t'.refs == t.refs && t'.up == t.up && t'.depth == t.depth
    && forall x :: 0 <= x < |t.inodes| ==>
         t'.inodes[x] == t.inodes[x] || (t'.inodes[x].nlink == 0 && t.inodes[x].nlink == 0)
  }

  lemma SameLinksHas(t: Tree, t': Tree)
    requires SameLinks(t, t')
    ensures SameLive(t, t')
    ensures forall d, j, x {:trigger Has(t', d, j, x)} {:trigger Has(t, d, j, x)} :: Has(t', d, j, x) <==>
              Has(t, d, j, x)
  {
  }

  lemma SameLinksCounted(t: Tree, t': Tree)
    requires Shape(t) && Counted(t) && SameLinks(t, t') && Shape(t')
    ensures Counted(t')
  {
    SameLinksHas(t, t');
    forall x, q | 0 < x < |t'.inodes| ensures q in t'.refs[x] <==> Has(t', q.dir, q.slot, x) {
      assert q in t.refs[x] <==> Has(t, q.dir, q.slot, x);
    }
  }

  lemma SameLinksDots(t: Tree, t': Tree)
    requires Dots(t) && SameLinks(t, t')
    ensures Dots(t')
  {
    forall d | Live(t', d) ensures DirOk(t', d) {
      assert Live(t, d) && DirOk(t, d);
    }
  }

  lemma SameLinksNamed(t: Tree, t': Tree, d: int, k: int, i: int)
    requires WellFormed(t) && SameLinks(t, t') && Has(t, d, k, i)
    ensures 0 < i < |t'.inodes| && t'.inodes[i] == t.inodes[i] && t.inodes[i].typ != T_FREE
  {
    NamedIsLinked(t, d, k, i);
  }

  lemma SameLinksParents(t: Tree, t': Tree)
    requires Shape(t) && Parents(t) && SameLinks(t, t') && Shape(t')
    requires forall d, k, i {:trigger Has(t, d, k, i)} :: Has(t, d, k, i) ==>
               0 < i < |t'.inodes| && t'.inodes[i] == t.inodes[i]
    ensures Parents(t')
  {
    SameLinksHas(t, t');
    assert Live(t', ROOTINO);
    forall d | Live(t', d) && d != ROOTINO ensures HasParent(t', d) {
      assert Live(t, d) && HasParent(t, d);
    }
    forall d, k, i | Has(t', d, k, i) && k >= 2 && IsDir(t', i) ensures i != ROOTINO && t'.up[i] == Ref(d, k) {
      assert Has(t, d, k, i) && IsDir(t, i);
    }
  }

  lemma SameLinksKeeps(t: Tree, t': Tree)
    requires WellFormed(t) && SameLinks(t, t') && Shape(t') && Hollow(t')
    ensures WellFormed(t')
  {
    SameLinksCounted(t, t');
    SameLinksDots(t, t');
    SameLinksHas(t, t');
    forall d, k, i {:trigger Has(t, d, k, i)} | Has(t, d, k, i)
      ensures 0 < i < |t'.inodes| && t'.inodes[i] == t.inodes[i] && t.inodes[i].typ != T_FREE
    {
      SameLinksNamed(t, t', d, k, i);
    }
    SameLinksParents(t, t');
  }

  /** An unlinked inode can be given any type. */
  function Reset(t: Tree, i: int, n: Inode): Tree
    requires 0 <= i < |t.inodes|
  {
    t.(inodes := t.inodes[i := n])
  }

  lemma ResetKeeps(t: Tree, i: int, n: Inode)
    requires WellFormed(t) && 0 < i < |t.inodes| && t.inodes[i].nlink == 0 == n.nlink && n.entries == []
    ensures WellFormed(Reset(t, i, n))
  {
    forall d | Dead(Reset(t, i, n), d) ensures JustDots(Reset(t, i, n), d) {
      assert d != i ==> Dead(t, d) && JustDots(t, d);
    }
    SameLinksKeeps(t, Reset(t, i, n));
  }

  // ---- create, of a directory ---------------------------------------------------------------

  /** The inodes after `i` becomes a directory with dots, whose ".." adds a link to `dp`. */
  function WithDots(ns: seq<Inode>, dp: nat, i: nat): seq<Inode>
    requires dp < |ns| && i < |ns|
  {
    Counting(ns, dp, 1)[i := Inode(T_DIR, 1, [Entry(i, DOT), Entry(dp, DOTDOT)])]
  }

  /** Free inode `i` becomes a directory with its dots, entered in `dp`. */
  function MakeDir(t: Tree, dp: nat, k: int, name: Name, i: nat): Tree
    requires Shape(t) && 0 <= dp < |t.inodes| && 0 <= i < |t.inodes| && i != dp && 0 <= k <= |t.inodes[dp].entries|
  {
    t.(inodes := Placed(WithDots(t.inodes, dp, i), dp, k, Entry(i, name)),
       refs := t.refs[dp := t.refs[dp] + {Ref(i, 1)}][i := {Ref(dp, k)}],
       up := t.up[i := Ref(dp, k)], depth := t.depth[i := t.depth[dp] + 1])
  }

  /** The new entries: `i` in slot `k` of `dp`, and `dp` as ".." of `i`. */
  ghost predicate MadeDir(t: Tree, t': Tree, dp: int, k: int, i: int) {
    && (forall d {:trigger Live(t', d)} :: Live(t', d) <==> Live(t, d) || d == i)
    && (forall d, j, x {:trigger Has(t', d, j, x)} :: Has(t', d, j, x) <==>
          Has(t, d, j, x) || (d == dp && j == k && x == i) || (d == i && j == 1 && x == dp))
    && (forall j, x {:trigger Has(t, i, j, x)} :: !Has(t, i, j, x))
    && (forall x {:trigger Has(t, dp, k, x)} :: !Has(t, dp, k, x))
  }

  lemma MakeDirHas(t: Tree, t': Tree, dp: nat, k: int, name: Name, i: nat)
    requires Shape(t) && Dots(t) && Live(t, dp) && FreeSlot(t.inodes[dp].entries, k)
    requires 0 < i < |t.inodes| && t.inodes[i].typ == T_FREE && t' == MakeDir(t, dp, k, name, i)
    ensures k >= 2 && MadeDir(t, t', dp, k, i) && Shape(t')
  {
    assert DirOk(t, dp);
  }

  ghost predicate Nameless(t: Tree, i: int) {
    forall d, j {:trigger Has(t, d, j, i)} :: !Has(t, d, j, i)
  }

  /** Two link counts and sets of counted entries change; the others stay. */
  ghost predicate TwoCounts(t: Tree, t': Tree, i: int, ni: int, ri: set<Ref>, j: int, nj: int, rj: set<Ref>) {
    && |t'.inodes| == |t.inodes| == |t.refs| && 0 <= i < |t.inodes| && 0 <= j < |t.inodes| && i != j
    && t'.refs == t.refs[j := rj][i := ri]
    && forall x :: 0 <= x < |t.inodes| ==>
      t'.inodes[x].nlink == if x == i then ni else if x == j then nj else t.inodes[x].nlink
  }

  lemma MadeDirCounted(t: Tree, t': Tree, dp: int, k: int, i: int)
    requires Shape(t) && Counted(t) && Shape(t') && 0 < i < |t.inodes| && 0 < dp < |t.inodes| && Nameless(t, i)
    requires MadeDir(t, t', dp, k, i)
    requires TwoCounts(t, t', i, 1, {Ref(dp, k)}, dp, t.inodes[dp].nlink + 1, t.refs[dp] + {Ref(i, 1)})
    ensures Counted(t')
  {
    assert Ref(i, 1) !in t.refs[dp] by {
      assert !Has(t, i, 1, dp);
    }
    forall x, q | 0 < x < |t'.inodes| ensures q in t'.refs[x] <==> Has(t', q.dir, q.slot, x) {
      assert q in t.refs[x] <==> Has(t, q.dir, q.slot, x);
      assert q.dir == dp && q.slot == k ==> q == Ref(dp, k);
      assert q.dir == i && q.slot == 1 ==> q == Ref(i, 1);
    }
  }

  lemma MakeDirDots(t: Tree, t': Tree, dp: nat, k: int, name: Name, i: nat)
    requires Shape(t) && Dots(t) && Live(t, dp) && FreeSlot(t.inodes[dp].entries, k) &&
             NoName(t.inodes[dp].entries, name)
    requires 0 < i < |t.inodes| && t.inodes[i].typ == T_FREE && t' == MakeDir(t, dp, k, name, i)
    ensures Dots(t')
  {
    forall d | Live(t', d) ensures DirOk(t', d) {
      if d != i {
        assert Live(t, d) && DirOk(t, d);
      }
    }
  }

  /** Types, parents and depths are as they were, except those of `i`. */
  ghost predicate FrameBut(t: Tree, t': Tree, i: int) {
    && |t'.inodes| == |t.inodes| == |t.up| == |t.depth| == |t'.up| == |t'.depth| && 0 <= i < |t.inodes|
    && (forall x :: 0 <= x < |t.inodes| && x != i ==>
          t'.inodes[x].typ == t.inodes[x].typ && t'.up[x] == t.up[x] && t'.depth[x] == t.depth[x])
    && (forall d {:trigger Live(t, d)} :: Live(t, d) && d != i ==> DotDot(t', d) == DotDot(t, d))
  }

  lemma MadeDirParents(t: Tree, t': Tree, dp: int, k: int, i: int)
    requires Shape(t) && Parents(t) && Shape(t') && 0 < i < |t.inodes| && Nameless(t, i) && !Live(t, i)
    requires Live(t, dp) && k >= 2 && MadeDir(t, t', dp, k, i) && FrameBut(t, t', i)
    requires t'.up[i] == Ref(dp, k) && t'.depth[i] == t.depth[dp] + 1 && DotDot(t', i) == dp
    ensures Parents(t')
  {
    assert Live(t', ROOTINO) && DotDot(t', ROOTINO) == ROOTINO;
    forall d | Live(t', d) && d != ROOTINO ensures HasParent(t', d) {
      if d == i {
        assert Has(t', dp, k, i);
      } else {
        assert Live(t, d) && HasParent(t, d);
        assert Has(t', t.up[d].dir, t.up[d].slot, d);
      }
    }
    forall d, j, x | Has(t', d, j, x) && j >= 2 && IsDir(t', x) ensures x != ROOTINO && t'.up[x] == Ref(d, j) {
      assert x == i || Has(t, d, j, x);
    }
  }

  lemma MakeDirFrame(t: Tree, t': Tree, dp: nat, k: int, name: Name, i: nat)
    requires Shape(t) && Dots(t) && Live(t, dp) && 2 <= k <= |t.inodes[dp].entries|
    requires 0 < i < |t.inodes| && t.inodes[i].typ == T_FREE && t' == MakeDir(t, dp, k, name, i)
    ensures FrameBut(t, t', i) && t'.up[i] == Ref(dp, k) && t'.depth[i] == t.depth[dp] + 1 && DotDot(t', i) == dp
    ensures TwoCounts(t, t', i, 1, {Ref(dp, k)}, dp, t.inodes[dp].nlink + 1, t.refs[dp] + {Ref(i, 1)})
  {
    forall d | Live(t, d) && d != i ensures DotDot(t', d) == DotDot(t, d) {
      assert DirOk(t, d);
    }
  }

  lemma MakeDirTargets(t: Tree, t': Tree, dp: nat, k: int, i: nat)
    requires Targets(t) && MadeDir(t, t', dp, k, i) && Live(t, dp) && 0 < dp && 0 < i < |t.inodes| && FrameBut(t, t', i)
    requires t'.inodes[i].typ == T_DIR
    ensures Targets(t')
  {
  }

  lemma MakeDirHollow(t: Tree, t': Tree, dp: nat, k: int, name: Name, i: nat)
    requires Shape(t) && Hollow(t) && Live(t, dp) && 0 <= k <= |t.inodes[dp].entries|
    requires i < |t.inodes| && t.inodes[i].typ == T_FREE && t' == MakeDir(t, dp, k, name, i)
    ensures Hollow(t')
  {
    StillHollow(t, t', dp);
  }

  lemma MakeDirKeeps(t: Tree, t': Tree, dp: nat, k: int, name: Name, i: nat)
    requires WellFormed(t) && Live(t, dp) && FreeSlot(t.inodes[dp].entries, k) && NoName(t.inodes[dp].entries, name)
    requires 0 < i < |t.inodes| && t.inodes[i].typ == T_FREE && t' == MakeDir(t, dp, k, name, i)
    ensures WellFormed(t')
  {
    MakeDirHas(t, t', dp, k, name, i);
    MakeDirFrame(t, t', dp, k, name, i);
    forall d, j ensures !Has(t, d, j, i) {
      UnlinkedIsUnnamed(t, d, j, i);
    }
    MadeDirCounted(t, t', dp, k, i);
    MakeDirDots(t, t', dp, k, name, i);
    MadeDirParents(t, t', dp, k, i);
    MakeDirTargets(t, t', dp, k, i);
    MakeDirHollow(t, t', dp, k, name, i);
  }

  // ---- unlink, of a directory -------------------------------------------------------------------

  /** No entries besides dots. */
  predicate OnlyDots(es: seq<Entry>) {
    forall j :: 2 <= j < |es| ==> es[j].inum == 0
  }

  /** An empty directory other than the root is no directory's "..". */
  lemma NotDotDot(t: Tree, d: int, i: int)
    requires Shape(t) && Parents(t) && Live(t, d) && Live(t, i) && i != ROOTINO && OnlyDots(t.inodes[i].entries)
    ensures DotDot(t, d) != i
  {
    assert d == ROOTINO || HasParent(t, d);
  }

  lemma OnlyEntry(t: Tree, dp: int, k: int, i: int, r: Ref)
    requires Shape(t) && Parents(t) && Live(t, i) && i != ROOTINO && OnlyDots(t.inodes[i].entries)
    requires Has(t, dp, k, i) && k >= 2 && Has(t, r.dir, r.slot, i)
    ensures r == Ref(dp, k) && dp != i
  {
    NotDotDot(t, r.dir, i);
    assert t.up[i] == Ref(dp, k) && HasParent(t, i);
  }

  /** An empty directory has one link, its entry in its parent: no directory has it as "..". */
  lemma EmptyDirLinks(t: Tree, dp: int, k: int, i: int)
    requires WellFormed(t) && Has(t, dp, k, i) && k >= 2 && IsDir(t, i) && OnlyDots(t.inodes[i].entries)
    ensures 0 < i < |t.refs| && t.refs[i] == {Ref(dp, k)} && t.inodes[i].nlink == 1 && i != ROOTINO && dp != i
  {
    OneParent(t, i, dp, k);
    forall r | r in t.refs[i] ensures r == Ref(dp, k) {
      OnlyEntry(t, dp, k, i, r);
    }
    assert Ref(dp, k) in t.refs[i];
    assert t.refs[i] == {Ref(dp, k)};
  }

  /** A live directory has a link other than the ".." of a directory below it. */
  lemma LinkBesides(t: Tree, dp: int, i: int)
    requires WellFormed(t) && Live(t, dp) && Has(t, i, 1, dp) && i != dp
    ensures t.inodes[dp].nlink >= 2
  {
    var r := OwnLink(t, dp);
    assert r in t.refs[dp] && Ref(i, 1) in t.refs[dp];
    SubsetSize({r, Ref(i, 1)}, t.refs[dp]);
  }

  /** The root's own "..", or a directory's entry in its parent. */
  lemma OwnLink(t: Tree, d: int) returns (r: Ref)
    requires Shape(t) && Dots(t) && Parents(t) && Live(t, d)
    ensures Has(t, r.dir, r.slot, d) && (r.slot == 1 ==> r.dir == d)
  {
    assert DirOk(t, d);
    if d == ROOTINO {
      r := Ref(ROOTINO, 1);
    } else {
      assert HasParent(t, d);
      r := t.up[d];
    }
  }

  /** Slot `k` of `dp` is emptied; the empty directory it named loses its link, and `dp` one. */
  function RemoveDir(t: Tree, dp: int, k: int, i: int): Tree
    requires Shape(t) && 0 <= dp < |t.inodes| && 0 <= i < |t.inodes| && 0 <= k < |t.inodes[dp].entries|
  {
    t.(inodes := Counting(Counting(Placed(t.inodes, dp, k, Entry(0, "")), dp, -1), i, -1),
       refs := t.refs[dp := t.refs[dp] - {Ref(i, 1)}][i := t.refs[i] - {Ref(dp, k)}])
  }

  ghost predicate RemovedDir(t: Tree, t': Tree, dp: int, k: int, i: int) {
    && (forall d {:trigger Live(t', d)} :: Live(t', d) <==> Live(t, d) && d != i)
    && (forall d, j, x {:trigger Has(t', d, j, x)} :: Has(t', d, j, x) <==>
          Has(t, d, j, x) && !(d == dp && j == k) && d != i)
    && (forall j, x {:trigger Has(t, i, j, x)} :: Has(t, i, j, x) <==> j == 1 && x == dp)
  }

  lemma RemoveDirHas(t: Tree, t': Tree, dp: int, k: int, i: int)
    requires Shape(t) && Dots(t) && Live(t, dp) && Live(t, i) && i != dp && Has(t, dp, k, i) && k >= 2 && dp != 0
    requires t.inodes[dp].nlink >= 2 && t.inodes[i].nlink == 1 && OnlyDots(t.inodes[i].entries) && DotDot(t, i) == dp
    requires t' == RemoveDir(t, dp, k, i)
    ensures RemovedDir(t, t', dp, k, i) && Shape(t') && FrameBut(t, t', i) && t'.up == t.up
    ensures TwoCounts(t, t', i, 0, t.refs[i] - {Ref(dp, k)}, dp, t.inodes[dp].nlink - 1, t.refs[dp] - {Ref(i, 1)})
  {
    assert DirOk(t, i);
    forall d | Live(t, d) && d != i ensures DotDot(t', d) == DotDot(t, d) {
      assert DirOk(t, d);
    }
  }

  lemma RemovedDirCounted(t: Tree, t': Tree, dp: int, k: int, i: int)
    requires Shape(t) && Counted(t) && Shape(t') && 0 < i < |t.inodes| && 0 < dp < |t.inodes|
    requires RemovedDir(t, t', dp, k, i) && Has(t, dp, k, i) && t.refs[i] == {Ref(dp, k)}
    requires TwoCounts(t, t', i, 0, t.refs[i] - {Ref(dp, k)}, dp, t.inodes[dp].nlink - 1, t.refs[dp] - {Ref(i, 1)})
    ensures Counted(t')
  {
    assert Ref(i, 1) in t.refs[dp] by {
      assert Has(t, i, 1, dp);
    }
    assert t'.refs[i] == {};
    forall x, q | 0 < x < |t'.inodes| ensures q in t'.refs[x] <==> Has(t', q.dir, q.slot, x) {
      assert q in t.refs[x] <==> Has(t, q.dir, q.slot, x);
      assert q.dir == dp && q.slot == k ==> q == Ref(dp, k);
      assert q.dir == i && q.slot == 1 ==> q == Ref(i, 1);
    }
  }

  lemma RemovedDirParents(t: Tree, t': Tree, dp: int, k: int, i: int)
    requires Shape(t) && Parents(t) && Shape(t') && RemovedDir(t, t', dp, k, i) && FrameBut(t, t', i) && t'.up == t.up
    requires i != ROOTINO && Has(t, dp, k, i) && IsDir(t, i)
    ensures Parents(t')
  {
    assert Live(t', ROOTINO);
    forall d | Live(t', d) && d != ROOTINO ensures HasParent(t', d) {
      assert Live(t, d) && HasParent(t, d);
      assert Has(t', t.up[d].dir, t.up[d].slot, d);
    }
    forall d, j, x | Has(t', d, j, x) && j >= 2 && IsDir(t', x) ensures x != ROOTINO && t'.up[x] == Ref(d, j) {
      assert Has(t, d, j, x);
      assert x == i || IsDir(t, x);
    }
  }

  lemma RemoveDirDots(t: Tree, t': Tree, dp: int, k: int, i: int)
    requires Shape(t) && Dots(t) && Live(t, dp) && Live(t, i) && i != dp && 2 <= k < |t.inodes[dp].entries|
    requires t.inodes[i].nlink == 1 && t' == RemoveDir(t, dp, k, i)
    ensures Dots(t')
  {
    forall d | Live(t', d) ensures DirOk(t', d) {
      assert Live(t, d) && DirOk(t, d);
    }
  }

  lemma RemoveDirKeeps(t: Tree, t': Tree, dp: int, k: int, i: int)
    requires WellFormed(t) && Has(t, dp, k, i) && k >= 2 && IsDir(t, i) && OnlyDots(t.inodes[i].entries)
    requires t' == RemoveDir(t, dp, k, i)
    ensures WellFormed(t') && dp != i
  {
    EmptyDirLinks(t, dp, k, i);
    OneParent(t, i, dp, k);
    assert DirOk(t, i);
    LinkBesides(t, dp, i);
    RemoveDirHas(t, t', dp, k, i);
    RemoveDirDots(t, t', dp, k, i);
    RemovedDirCounted(t, t', dp, k, i);
    RemovedDirParents(t, t', dp, k, i);
    assert Targets(t');
    RemovedHollow(t, t', dp, k, i);
  }

  lemma RemovedHollow(t: Tree, t': Tree, dp: int, k: int, i: int)
    requires Shape(t) && Dots(t) && Targets(t) && Hollow(t) && Live(t, dp) && Live(t, i) && i != dp &&
             2 <= k < |t.inodes[dp].entries|
    requires OnlyDots(t.inodes[i].entries) && t.inodes[dp].nlink >= 2 && t' == RemoveDir(t, dp, k, i)
    ensures Hollow(t')
  {
    assert DirOk(t, i);
    assert Has(t, i, 1, DotDot(t, i));
    forall d | Dead(t', d) ensures JustDots(t', d) {
      if d != i {
        assert Dead(t, d) && JustDots(t, d);
      }
    }
  }

  // ---- Entries in a removed directory ------------------------------------------------------------

  /** Inodes that a well-formed graph explains. */
  ghost predicate Consistent(ns: seq<Inode>) {
    exists t: Tree {:trigger WellFormed(t)} :: t.inodes == ns && WellFormed(t)
  }

  /** The entries that count towards a link count are those that live directories hold. */
  lemma SameCount(t: Tree, t': Tree, i: int)
    requires WellFormed(t) && WellFormed(t') && 0 < i < |t.inodes| == |t'.inodes|
    requires forall d, j {:trigger Has(t', d, j, i)} :: Has(t', d, j, i) <==> Has(t, d, j, i)
    ensures t'.inodes[i].nlink == t.inodes[i].nlink
  {
    forall r ensures r in t'.refs[i] <==> r in t.refs[i] {
      assert r in t'.refs[i] <==> Has(t', r.dir, r.slot, i);
      assert r in t.refs[i] <==> Has(t, r.dir, r.slot, i);
    }
    assert t'.refs[i] == t.refs[i];
  }

  /** A link made in a removed directory is counted and can never be found. */
  lemma DeadLink(t: Tree, t': Tree, dp: int, k: int, name: Name, i: nat)
    requires WellFormed(t) && Dead(t, dp) && 0 < i < |t.inodes| && !IsDir(t, i) && 0 <= k <= |t.inodes[dp].entries|
    requires t'.inodes == Placed(Counting(t.inodes, i, 1), dp, k, Entry(i, name))
    ensures !WellFormed(t')
  {
    if WellFormed(t') {
      DeadSame(t, t', dp, k, name, i);
      SameCount(t, t', i);
    }
  }

  lemma DeadSame(t: Tree, t': Tree, dp: int, k: int, name: Name, i: nat)
    requires Dead(t, dp) && 0 < i < |t.inodes| && !IsDir(t, i) && 0 <= k <= |t.inodes[dp].entries|
    requires t'.inodes == Placed(Counting(t.inodes, i, 1), dp, k, Entry(i, name))
    ensures forall d, j, x {:trigger Has(t', d, j, x)} :: Has(t', d, j, x) <==> Has(t, d, j, x)
  {
  }

  /** sys_link keeps the graph explicable exactly when the directory is still linked. */
  lemma LinkKeepsIff(t: Tree, dp: int, k: int, name: Name, i: nat)
    requires WellFormed(t) && IsDir(t, dp) && 0 < i < |t.inodes| && !IsDir(t, i) && t.inodes[i].typ != T_FREE
    requires FreeSlot(t.inodes[dp].entries, k) && NoName(t.inodes[dp].entries, name)
    ensures Consistent(Placed(Counting(t.inodes, i, 1), dp, k, Entry(i, name))) <==> Live(t, dp)
  {
    var ns := Placed(Counting(t.inodes, i, 1), dp, k, Entry(i, name));
    if Live(t, dp) {
      AddLinkKeeps(t, AddLink(t, dp, k, name, i), dp, k, name, i);
      assert AddLink(t, dp, k, name, i).inodes == ns;
    } else {
      forall t': Tree | t'.inodes == ns ensures !WellFormed(t') {
        DeadLink(t, t', dp, k, name, i);
      }
    }
  }

  /** A directory made in a removed one links it to itself: neither has a parent. */
  lemma DeadMakeDir(t: Tree, t': Tree, dp: nat, k: int, name: Name, i: nat)
    requires WellFormed(t) && Dead(t, dp) && 0 < i < |t.inodes| && t.inodes[i].typ == T_FREE &&
             0 <= k <= |t.inodes[dp].entries|
    requires t'.inodes == Placed(WithDots(t.inodes, dp, i), dp, k, Entry(i, name))
    ensures !WellFormed(t')
  {
    if WellFormed(t') {
      assert Live(t', dp) && dp != ROOTINO;
      assert HasParent(t', dp);
      var r := t'.up[dp];
      OnlyItsChild(t, t', dp, k, name, i, r.dir, r.slot);
      UnlinkedIsUnnamed(t, r.dir, r.slot, dp);
    }
  }

  /** Besides the new directory's "..", nothing new names `dp`. */
  lemma OnlyItsChild(t: Tree, t': Tree, dp: nat, k: int, name: Name, i: nat, d: int, j: int)
    requires Dead(t, dp) && JustDots(t, dp) && i < |t.inodes| && i != dp && 0 <= k <= |t.inodes[dp].entries|
    requires t'.inodes == Placed(WithDots(t.inodes, dp, i), dp, k, Entry(i, name))
    requires Has(t', d, j, dp) && j >= 2
    ensures Has(t, d, j, dp)
  {
    assert d != dp && d != i;
  }

  /** The inodes after create has made free inode `i` a directory or a file, entered in `dp`. */
  function MadeInodes(ns: seq<Inode>, dp: nat, k: int, name: Name, i: nat, typ: int): seq<Inode>
    requires dp < |ns| && i < |ns| && dp != i && 0 <= k <= |ns[dp].entries|
  {
    if typ == T_DIR then Placed(WithDots(ns, dp, i), dp, k, Entry(i, name))
    else Placed(Counting(ns[i := Inode(typ, 0, [])], i, 1), dp, k, Entry(i, name))
  }

  lemma MakeDirKeepsIff(t: Tree, dp: nat, k: int, name: Name, i: nat)
    requires WellFormed(t) && IsDir(t, dp) && 0 < i < |t.inodes| && t.inodes[i].typ == T_FREE
    requires FreeSlot(t.inodes[dp].entries, k) && NoName(t.inodes[dp].entries, name)
    ensures Consistent(Placed(WithDots(t.inodes, dp, i), dp, k, Entry(i, name))) <==> Live(t, dp)
  {
    var ns := Placed(WithDots(t.inodes, dp, i), dp, k, Entry(i, name));
    if Live(t, dp) {
      MakeDirKeeps(t, MakeDir(t, dp, k, name, i), dp, k, name, i);
      assert MakeDir(t, dp, k, name, i).inodes == ns;
    } else {
      forall t': Tree | t'.inodes == ns ensures !WellFormed(t') {
        DeadMakeDir(t, t', dp, k, name, i);
      }
    }
  }

  /** create keeps the graph explicable exactly when the directory is still linked. */
  lemma CreateKeepsIff(t: Tree, dp: nat, k: int, name: Name, i: nat, typ: int)
    requires WellFormed(t) && IsDir(t, dp) && 0 < i < |t.inodes| && t.inodes[i].typ == T_FREE && typ != T_FREE
    requires FreeSlot(t.inodes[dp].entries, k) && NoName(t.inodes[dp].entries, name)
    ensures Consistent(MadeInodes(t.inodes, dp, k, name, i, typ)) <==> Live(t, dp)
  {
    if typ == T_DIR {
      MakeDirKeepsIff(t, dp, k, name, i);
    } else {
      ResetKeeps(t, i, Inode(typ, 0, []));
      LinkKeepsIff(Reset(t, i, Inode(typ, 0, [])), dp, k, name, i);
    }
  }
}
