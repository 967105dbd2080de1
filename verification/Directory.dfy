/**
 Directory operations (fs.c: dirlookup, dirlink; sysfile.c: isdirempty, link, unlink,
 create; fs.c: the freeing half of iput). Inodes are updated in place, step by step in the
 source's order; between operations the graph is well-formed.
 */
module Directory {
  import opened DirTree

  datatype Found = Absent | At(slot: nat, inum: nat)

  class Dirs {
    var inodes: seq<Inode>
    ghost var tree: Tree

    /** The graph, with inodes as they are. */
    ghost predicate Valid()
      reads this
    {
      tree.inodes == inodes && WellFormed(tree)
    }

    /** mkfs: a new file system with its root directory alone. */
    constructor (n: nat)
      requires n >= 2
      ensures Valid() && tree == RootOnly(n)
    {
      inodes, tree := RootOnly(n).inodes, RootOnly(n);
      new;
      RootOnlyWellFormed(n);
    }

    /** dirlookup: the first entry with the name. */
    method Dirlookup(dp: nat, name: Name) returns (f: Found)
      requires dp < |inodes| && inodes[dp].typ == T_DIR
      ensures f.At? ==>
                f.slot < |inodes[dp].entries| && inodes[dp].entries[f.slot] == Entry(f.inum, name) &&
                f.inum != 0
      ensures f.At? ==> forall j :: 0 <= j < f.slot && inodes[dp].entries[j].inum != 0 ==>
                inodes[dp].entries[j].name != name
      ensures f.Absent? <==> NoName(inodes[dp].entries, name)
    {
      var es := inodes[dp].entries;
      var k := 0;
      while k < |es|
        invariant 0 <= k <= |es|
        invariant forall j :: 0 <= j < k && es[j].inum != 0 ==> es[j].name != name
      {
        if es[k].inum != 0 && es[k].name == name {
          return At(k, es[k].inum);
        }
        k := k + 1;
      }
      return Absent;
    }

    /** dirlink: a new entry in the first empty slot or at the end; refused if the name is taken. */
    method Dirlink(dp: nat, name: Name, inum: nat) returns (ok: bool, slot: nat)
      requires dp < |inodes| && inodes[dp].typ == T_DIR
      modifies `inodes
      ensures ok <==> NoName(old(inodes)[dp].entries, name)
      ensures !ok ==> inodes == old(inodes)
      ensures ok ==> FreeSlot(old(inodes)[dp].entries, slot) && forall j :: 0 <= j < slot ==>
                old(inodes)[dp].entries[j].inum != 0
      ensures ok ==> inodes == Placed(old(inodes), dp, slot, Entry(inum, name))
    {
      var f := Dirlookup(dp, name);
      if f.At? {
        return false, 0;
      }
      var es := inodes[dp].entries;
      slot := 0;
      while slot < |es| && es[slot].inum != 0
        invariant 0 <= slot <= |es| && forall j :: 0 <= j < slot ==> es[j].inum != 0
      {
        slot := slot + 1;
      }
      inodes := inodes[dp := inodes[dp].(entries := Place(es, slot, Entry(inum, name)))];
      ok := true;
    }

    /** A change of nlink, followed by iupdate. */
    method AddNlink(ip: nat, delta: int)
      requires ip < |inodes|
      modifies `inodes
      ensures inodes == Counting(old(inodes), ip, delta)
    {
      inodes := inodes[ip := inodes[ip].(nlink := inodes[ip].nlink + delta)];
    }

    /** unlink's write of an empty entry. */
    method ClearEntry(dp: nat, k: nat)
      requires dp < |inodes| && k < |inodes[dp].entries|
      modifies `inodes
      ensures inodes == Placed(old(inodes), dp, k, Entry(0, ""))
    {
      inodes := inodes[dp := inodes[dp].(entries := inodes[dp].entries[k := Entry(0, "")])];
    }

    /** isdirempty: nothing after the two dots. */
    method Isdirempty(dp: nat) returns (empty: bool)
      requires dp < |inodes|
      ensures empty <==> OnlyDots(inodes[dp].entries)
    {
      var es := inodes[dp].entries;
      var k := 2;
      while k < |es|
        invariant k >= 2 && forall j :: 2 <= j < k && j < |es| ==> es[j].inum == 0
      {
        if es[k].inum != 0 {
          return false;
        }
        k := k + 1;
      }
      return true;
    }

    /** The writes of sys_link: the count goes up before the entry is written, and back on failure. */
    method EnterLink(ip: nat, dp: int, name: Name) returns (ok: bool, ghost k: int)
      requires ip < |inodes| && (dp == -1 || (0 <= dp < |inodes| && inodes[dp].typ == T_DIR && dp != ip))
      modifies `inodes
      ensures ok <==> dp != -1 && NoName(old(inodes)[dp].entries, name)
      ensures !ok ==> inodes == old(inodes)
      ensures ok ==> FreeSlot(old(inodes)[dp].entries, k)
      ensures ok ==> inodes == Placed(Counting(old(inodes), ip, 1), dp, k, Entry(ip, name))
    {
      k := 0;
      AddNlink(ip, 1);
      if dp != -1 {
        assert inodes[dp] == old(inodes)[dp];
        var done, slot := Dirlink(dp, name, ip);
        if done {
          return true, slot;
        }
      }
      AddNlink(ip, -1);
      assert inodes == old(inodes);
      return false, k;
    }

    /**
     sys_link: `ip` gets the name `name` in directory `dp` (-1 when the path to it does not
     resolve), unless it is a directory or the name is taken. In a directory that has been
     removed, which nothing checks for, the link count is no longer that of any tree.
     */
    method Link(ip: nat, dp: int, name: Name) returns (ok: bool, ghost k: int)
      requires Valid() && 0 < ip < |inodes| && inodes[ip].typ != T_FREE
      requires dp == -1 || IsDir(tree, dp)
      modifies this
      ensures ok <==> old(inodes)[ip].typ != T_DIR && dp != -1 && NoName(old(inodes)[dp].entries, name)
      ensures !ok ==> inodes == old(inodes) && tree == old(tree) && Valid()
      ensures ok ==> FreeSlot(old(inodes)[dp].entries, k)
      ensures ok ==> inodes == Placed(Counting(old(inodes), ip, 1), dp, k, Entry(ip, name))
      ensures ok && Live(old(tree), dp) ==> Valid() && tree == AddLink(old(tree), dp, k, name, ip)
      ensures ok && !Live(old(tree), dp) ==> !Consistent(inodes)
    {
      if inodes[ip].typ == T_DIR {
        return false, 0;
      }
      ok, k := EnterLink(ip, dp, name);
      if ok {
        LinkKeepsIff(tree, dp, k, name, ip);
        if Live(tree, dp) {
          AddLinkKeeps(tree, AddLink(tree, dp, k, name, ip), dp, k, name, ip);
          tree := AddLink(tree, dp, k, name, ip);
        }
      }
    }

    /** The writes of sys_unlink: the entry, the parent's count for a directory, the inode's count. */
    method ClearLink(dp: nat, k: nat, ip: nat)
      requires dp < |inodes| && ip < |inodes| && k < |inodes[dp].entries| && ip != dp
      modifies `inodes
      ensures old(inodes)[ip].typ == T_DIR ==>
                inodes == Counting(Counting(Placed(old(inodes), dp, k, Entry(0, "")), dp, -1), ip, -1)
      ensures old(inodes)[ip].typ != T_DIR ==> inodes == Counting(Placed(old(inodes), dp, k, Entry(0, "")), ip, -1)
    {
      ClearEntry(dp, k);
      if inodes[ip].typ == T_DIR {
        AddNlink(dp, -1);
      }
      AddNlink(ip, -1);
    }

    method UnlinkFile(dp: nat, k: nat, ip: nat)
      requires Valid() && Has(tree, dp, k, ip) && k >= 2 && ip < |inodes| && !IsDir(tree, ip)
      modifies this
      ensures Valid() && tree == DropLink(old(tree), dp, k, ip)
    {
      DropLinkKeeps(tree, DropLink(tree, dp, k, ip), dp, k, ip);
      ClearLink(dp, k, ip);
      tree := DropLink(tree, dp, k, ip);
    }

    method UnlinkDir(dp: nat, k: nat, ip: nat)
      requires Valid() && Has(tree, dp, k, ip) && k >= 2 && IsDir(tree, ip) && OnlyDots(inodes[ip].entries)
      modifies this
      ensures Valid() && tree == RemoveDir(old(tree), dp, k, ip)
    {
      RemoveDirKeeps(tree, RemoveDir(tree, dp, k, ip), dp, k, ip);
      ClearLink(dp, k, ip);
      tree := RemoveDir(tree, dp, k, ip);
    }

    /**
     sys_unlink: removes the name from directory `dp`. Dots, missing names and directories that
     are not empty are refused. The inode `i` that slot `k` names always has a link to lose. A
     directory that has been removed has nothing but dots.
     */
    method Unlink(dp: nat, name: Name) returns (ok: bool, ghost k: int, ghost i: int)
      requires Valid() && IsDir(tree, dp)
      modifies this
      ensures Valid()
      ensures !ok ==> inodes == old(inodes) && tree == old(tree)
      ensures name != DOT && name != DOTDOT && !NoName(old(inodes)[dp].entries, name) ==>
                Has(old(tree), dp, k, i) && k >= 2 && old(inodes)[dp].entries[k].name == name &&
                  old(inodes)[i].nlink >= 1
      ensures ok <==> name != DOT && name != DOTDOT && !NoName(old(inodes)[dp].entries, name) &&
                        (IsDir(old(tree), i) ==> OnlyDots(old(inodes)[i].entries))
      ensures ok && IsDir(old(tree), i) ==> tree == RemoveDir(old(tree), dp, k, i)
      ensures ok && !IsDir(old(tree), i) ==> tree == DropLink(old(tree), dp, k, i)
    {
      k, i := 0, 0;
      if name == DOT || name == DOTDOT {
        return false, k, i;
      }
      var f := Dirlookup(dp, name);
      if f.Absent? {
        return false, k, i;
      }
      var ip := f.inum;
      k, i := f.slot, f.inum;
      DeadNames(tree, dp, f.slot);
      assert DirOk(tree, dp);
      assert Has(tree, dp, k, i) && k >= 2;
      NamedIsLinked(tree, dp, k, i);
      if inodes[ip].typ == T_DIR {
        var empty := Isdirempty(ip);
        if !empty {
          return false, k, i;
        }
        UnlinkDir(dp, f.slot, ip);
      } else {
        UnlinkFile(dp, f.slot, ip);
      }
      return true, k, i;
    }

    /** ialloc: the lowest free inode, given a type; 0 when there is none, which is the panic. */
    method Ialloc(typ: int) returns (i: nat)
      requires |inodes| > 1 && typ != T_FREE
      modifies `inodes
      ensures i == 0 ==> inodes == old(inodes) && forall j :: 1 <= j < |inodes| ==> inodes[j].typ != T_FREE
      ensures i != 0 ==>
                i < |old(inodes)| && old(inodes)[i].typ == T_FREE &&
                inodes == old(inodes)[i := Inode(typ, 0, [])]
      ensures i != 0 ==> forall j :: 1 <= j < i ==> old(inodes)[j].typ != T_FREE
    {
      i := 1;
      while i < |inodes|
        invariant 1 <= i <= |inodes| && inodes == old(inodes)
        invariant forall j :: 1 <= j < i ==> inodes[j].typ != T_FREE
      {
        if inodes[i].typ == T_FREE {
          inodes := inodes[i := Inode(typ, 0, [])];
          return;
        }
        i := i + 1;
      }
      return 0;
    }

    /** The dots of a new directory, and the link that its ".." adds. */
    method MakeDots(ip: nat, dp: nat)
      requires 0 < ip < |inodes| && dp < |inodes| && ip != dp && inodes[ip] == Inode(T_DIR, 1, [])
      modifies `inodes
      ensures inodes == WithDots(old(inodes), dp, ip)
    {
      AddNlink(dp, 1);
      var dot, s0 := Dirlink(ip, DOT, ip);
      assert dot && inodes[ip].entries == [Entry(ip, DOT)];
      var dotdot, s1 := Dirlink(ip, DOTDOT, dp);
      assert dotdot && inodes[ip].entries == [Entry(ip, DOT), Entry(dp, DOTDOT)];
    }

    /** create's new file, once its inode is allocated: its link and its entry in `dp`. */
    method EnterFile(dp: nat, name: Name, ip: nat) returns (ghost k: int)
      requires dp < |inodes| && ip < |inodes| && inodes[dp].typ == T_DIR && NoName(inodes[dp].entries, name)
      requires ip != dp && inodes[ip].nlink == 0
      modifies `inodes
      ensures FreeSlot(old(inodes)[dp].entries, k)
      ensures inodes == Placed(Counting(old(inodes), ip, 1), dp, k, Entry(ip, name))
    {
      AddNlink(ip, 1);
      assert inodes[dp] == old(inodes)[dp];
      var ok, slot := Dirlink(dp, name, ip);
      assert ok;
      k := slot;
    }

    /** create's new directory, once its inode is allocated: its link, dots, and entry in `dp`. */
    method EnterDir(dp: nat, name: Name, ip: nat) returns (ghost k: int)
      requires dp < |inodes| && 0 < ip < |inodes| && inodes[dp].typ == T_DIR && NoName(inodes[dp].entries, name)
      requires ip != dp && inodes[ip] == Inode(T_DIR, 0, [])
      modifies `inodes
      ensures FreeSlot(old(inodes)[dp].entries, k)
      ensures inodes == Placed(WithDots(old(inodes), dp, ip), dp, k, Entry(ip, name))
    {
      AddNlink(ip, 1);
      MakeDots(ip, dp);
      assert inodes == WithDots(old(inodes), dp, ip);
      assert inodes[dp].entries == old(inodes)[dp].entries;
      var ok, slot := Dirlink(dp, name, ip);
      assert ok;
      k := slot;
    }

    /** create's new inode: a directory or not, entered in `dp`. */
    method Enter(dp: nat, name: Name, ip: nat, typ: int) returns (ghost k: int)
      requires WellFormed(tree) && IsDir(tree, dp) && NoName(tree.inodes[dp].entries, name) && typ != T_FREE
      requires 0 < ip < |tree.inodes| && tree.inodes[ip].typ == T_FREE && inodes == tree.inodes[ip := Inode(typ, 0, [])]
      modifies `inodes
      ensures FreeSlot(tree.inodes[dp].entries, k) && inodes == MadeInodes(tree.inodes, dp, k, name, ip, typ)
    {
      ghost var ns := inodes;
      if typ == T_DIR {
        k := EnterDir(dp, name, ip);
        WithDotsReset(tree.inodes, ns, dp, ip, Inode(typ, 0, []));
      } else {
        k := EnterFile(dp, name, ip);
      }
    }

    /** The tree that goes with the new inode, when `dp` is still linked. */
    ghost method Grow(dp: nat, k: int, name: Name, ip: nat, typ: int)
      requires WellFormed(tree) && Live(tree, dp) && NoName(tree.inodes[dp].entries, name) && typ != T_FREE
      requires FreeSlot(tree.inodes[dp].entries, k) && 0 < ip < |tree.inodes| && tree.inodes[ip].typ == T_FREE
      requires inodes == MadeInodes(tree.inodes, dp, k, name, ip, typ)
      modifies `tree
      ensures Valid()
      ensures typ == T_DIR ==> tree == MakeDir(old(tree), dp, k, name, ip)
      ensures typ != T_DIR ==> tree == AddLink(Reset(old(tree), ip, Inode(typ, 0, [])), dp, k, name, ip)
    {
      if typ == T_DIR {
        MakeDirKeeps(tree, MakeDir(tree, dp, k, name, ip), dp, k, name, ip);
        tree := MakeDir(tree, dp, k, name, ip);
      } else {
        ResetKeeps(tree, ip, Inode(typ, 0, []));
        tree := Reset(tree, ip, Inode(typ, 0, []));
        AddLinkKeeps(tree, AddLink(tree, dp, k, name, ip), dp, k, name, ip);
        tree := AddLink(tree, dp, k, name, ip);
      }
    }

    /**
     create: an existing file is opened if a file is wanted, any other existing name is
     refused, and otherwise a new inode, the lowest free one, is entered in `dp`. The "create
     dots" and "create: dirlink" panics never come up. In a directory that has been removed,
     which nothing checks for, the result is no longer a tree, and ".." may name an inode that
     has been freed, on which ilock panics.
     */
    method Create(dp: nat, name: Name, typ: int) returns (r: Created, ghost k: int)
      requires Valid() && IsDir(tree, dp) && typ != T_FREE
      modifies this
      ensures !r.Made? ==> inodes == old(inodes) && tree == old(tree) && Valid()
      ensures r.Made? || r.NoInodes? <==> NoName(old(inodes)[dp].entries, name)
      ensures !NoName(old(inodes)[dp].entries, name) ==> FirstNamed(old(tree), dp, name, k)
      ensures r.Opened? <==> FirstNamed(old(tree), dp, name, k) && typ == T_FILE && NamedTyp(old(tree), dp, k) == T_FILE
      ensures r.Opened? ==> r.inum == old(inodes)[dp].entries[k].inum
      ensures r.Freed? <==> FirstNamed(old(tree), dp, name, k) && NamedTyp(old(tree), dp, k) == T_FREE
      ensures r.Freed? ==> !Live(old(tree), dp) && name == DOTDOT
      ensures r.NoInodes? ==> forall j :: 1 <= j < |inodes| ==> inodes[j].typ != T_FREE
      ensures r.Made? ==> FreeSlot(old(inodes)[dp].entries, k) && Lowest(old(inodes), r.inum)
      ensures r.Made? ==> inodes == MadeInodes(old(inodes), dp, k, name, r.inum, typ)
      ensures r.Made? && Live(old(tree), dp) ==>
                && Valid()
                && (typ == T_DIR ==> tree == MakeDir(old(tree), dp, k, name, r.inum))
                && (typ != T_DIR ==> tree == AddLink(Reset(old(tree), r.inum, Inode(typ, 0, [])), dp, k, name, r.inum))
      ensures r.Made? && !Live(old(tree), dp) ==> !Consistent(inodes)
    {
      k := 0;
      var f := Dirlookup(dp, name);
      if f.At? {
        k := f.slot;
        NamedInRange(tree, dp, f.slot, f.inum);
        NamedIsTyped(tree, dp, f.slot, f.inum);
        if inodes[f.inum].typ == T_FREE {
          return Freed, k;
        }
        if typ == T_FILE && inodes[f.inum].typ == T_FILE {
          return Opened(f.inum), k;
        }
        return Refused, k;
      }
      var ip := Ialloc(typ);
      if ip == 0 {
        return NoInodes, k;
      }
      k := Enter(dp, name, ip, typ);
      CreateKeepsIff(tree, dp, k, name, ip, typ);
      if Live(tree, dp) {
        Grow(dp, k, name, ip, typ);
      }
      return Made(ip), k;
    }

    /** The last iput of an inode with no links frees it; it was named nowhere. */
    method Free(ip: nat)
      requires Valid() && 0 < ip < |inodes| && inodes[ip].nlink == 0
      modifies this
      ensures Valid() && tree == Reset(old(tree), ip, Inode(T_FREE, 0, []))
    {
      ResetKeeps(tree, ip, Inode(T_FREE, 0, []));
      tree := Reset(tree, ip, Inode(T_FREE, 0, []));
      inodes := inodes[ip := Inode(T_FREE, 0, [])];
    }
  }

  /** `NoInodes` is ialloc's panic, and `Freed` is ilock's, on an inode that has no type. */
  datatype Created = Refused | NoInodes | Freed | Opened(inum: nat) | Made(inum: nat)

  /** Slot `k` of directory `d` is the first with the name, and names an inode. */
  ghost predicate FirstNamed(t: Tree, d: nat, name: Name, k: int)
    requires d < |t.inodes|
  {
    var es := t.inodes[d].entries;
    && 0 <= k < |es| && es[k].inum != 0 && es[k].name == name && es[k].inum < |t.inodes|
    && forall j :: 0 <= j < k && es[j].inum != 0 ==> es[j].name != name
  }

  /** The type of the inode that slot `k` of directory `d` names. */
  ghost function NamedTyp(t: Tree, d: nat, k: int): int
    requires d < |t.inodes| && 0 <= k < |t.inodes[d].entries| && t.inodes[d].entries[k].inum < |t.inodes|
  {
    t.inodes[t.inodes[d].entries[k].inum].typ
  }

  /** `i` is the lowest free inode. */
  ghost predicate Lowest(ns: seq<Inode>, i: nat) {
    0 < i < |ns| && ns[i].typ == T_FREE && forall j :: 1 <= j < i ==> ns[j].typ != T_FREE
  }

  /** What ialloc left in the inode is overwritten when it becomes a directory. */
  lemma WithDotsReset(ns: seq<Inode>, ns': seq<Inode>, dp: nat, i: nat, n: Inode)
    requires dp < |ns| && i < |ns| && dp != i && ns' == ns[i := n]
    ensures WithDots(ns', dp, i) == WithDots(ns, dp, i)
  {
  }

  lemma DeadNames(t: Tree, d: int, k: int)
    requires WellFormed(t) && IsDir(t, d) && 0 <= k < |t.inodes[d].entries| && t.inodes[d].entries[k].inum != 0
    ensures var e := t.inodes[d].entries[k];
            Live(t, d) || e == Entry(d, DOT) ||
            (e.name == DOTDOT && e.inum < |t.inodes|)
  {
    if !Live(t, d) {
      assert Dead(t, d);
    }
  }

  /** Only ".." of a removed directory can name an inode that has been freed. */
  lemma NamedIsTyped(t: Tree, d: int, k: int, i: int)
    requires WellFormed(t) && IsDir(t, d) && 0 <= k < |t.inodes[d].entries| && t.inodes[d].entries[k].inum == i != 0
    requires i < |t.inodes|
    ensures t.inodes[i].typ == T_FREE ==> !Live(t, d) && t.inodes[d].entries[k].name == DOTDOT
  {
    if Live(t, d) {
      assert DirOk(t, d);
      assert k > 0 ==> Has(t, d, k, i);
    } else {
      DeadNames(t, d, k);
    }
  }

  lemma NamedInRange(t: Tree, d: int, k: int, i: int)
    requires WellFormed(t) && IsDir(t, d) && 0 <= k < |t.inodes[d].entries| && t.inodes[d].entries[k].inum == i != 0
    ensures 0 < i < |t.inodes|
  {
    if Live(t, d) {
      assert DirOk(t, d);
      assert k > 0 ==> Has(t, d, k, i);
    } else {
      DeadNames(t, d, k);
    }
  }
}
