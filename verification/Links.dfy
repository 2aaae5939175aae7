/** create, link and unlink on directories and link counts (sysfile.c, fs.c). */
module Links {
  import opened Options
  import opened LinksSpec

  /** The first slot from k on with this name. */
  function Lookup(es: seq<Dirent>, name: string, k: nat): (r: nat)
    requires k <= |es|
    ensures k <= r <= |es| && (r < |es| ==> es[r].inum != 0 && es[r].name == name)
    ensures forall j :: k <= j < r ==> es[j].inum == 0 || es[j].name != name
    decreases |es| - k
  {
    if k == |es| || (es[k].inum != 0 && es[k].name == name) then k else Lookup(es, name, k + 1)
  }

  /** The first empty slot, or the one after the last. */
  function FirstEmpty(es: seq<Dirent>, k: nat): (r: nat)
    requires k <= |es|
    ensures k <= r <= |es| && (r < |es| ==> es[r].inum == 0) && forall j :: k <= j < r ==> es[j].inum != 0
    decreases |es| - k
  {
    if k == |es| || es[k].inum == 0 then k else FirstEmpty(es, k + 1)
  }

  /** What unlinking slot k of dp does to entries and counts. */
  function Unlinked(t: Tree, dp: nat, k: nat): Tree
    requires dp < |t| && k < |t[dp].entries| && t[dp].entries[k].inum < |t|
  {
    var i := t[dp].entries[k].inum;
    if t[i].kind == Dir then RemoveDir(t, dp, k) else Bump(Cleared(t, dp, k), i, -1)
  }

  /** An inode with no link and no reference does not stay. */
  function Dropped(t: Tree, i: nat, free: bool): Tree
    requires i < |t|
  {
    if free then t[i := Inode(Free, 0, [])] else t
  }

  /** create's result: an inode, 0, or a panic. */
  datatype Created = Got(i: nat) | Zero | Panic

  /** What create does with a name that stands for inode i. */
  predicate Found(t: Tree, refs: seq<nat>, dp: nat, i: nat, kind: Kind, t': Tree, refs': seq<nat>, r: Created)
  {
    && dp < |t| == |refs| && i < |t| && refs[dp] >= 1
    && r == (if t[i].kind == Free then Panic else if kind == File && t[i].kind == File then Got(i) else Zero)
    && (r != Panic ==> t' == Dropped(t, dp, refs[dp] == 1 && t[dp].nlink == 0))
    && (r == Zero ==> refs' == refs[dp := refs[dp] - 1])
    && (r.Got? ==> i != dp && refs' == refs[i := refs[i] + 1][dp := refs[dp] - 1])
  }

  /** What create does with a new name. */
  predicate NewlyMade(t: Tree, refs: seq<nat>, dp: nat, name: string, kind: Kind, t': Tree, refs': seq<nat>, r: Created)
  {
    && dp < |t| == |refs| && refs[dp] >= 1 && r != Zero
    && (r == Panic <==> forall j :: 1 <= j < |t| ==> t[j].kind != Free)
    && (r == Panic ==> t' == t && refs' == refs)
    && (r.Got? ==> && 1 <= r.i < |t| && r.i != dp && t[r.i].kind == Free
                   && (forall j :: 1 <= j < r.i ==> t[j].kind != Free)
                   && refs' == refs[r.i := refs[r.i] + 1][dp := refs[dp] - 1]
                   && var a := Added(t, dp, FirstEmpty(t[dp].entries, 0), name, kind, r.i);
                      t' == Dropped(a, dp, refs[dp] == 1 && a[dp].nlink == 0))
  }

  class FileTree {
    var inodes: Tree
    var refs: seq<nat>                  // ref of the in-memory inodes
    ghost var pending: multiset<nat>    // link() calls between nlink++ and the entry

    /** Link counts are right; what is referred to is allocated; what has no link is referred to. */
    ghost predicate Valid()
      reads this
    {
      Inv(inodes, pending) && Held(inodes, refs)
    }

    /** The root directory alone, as mkfs makes it. */
    constructor (ninodes: nat)
      requires ninodes >= 2
      ensures Valid() && |inodes| == |refs| == ninodes && pending == multiset{}
      ensures inodes[ROOT] == Inode(Dir, 1, [Dirent(ROOT, "."), Dirent(ROOT, "..")])
      ensures forall i :: 0 <= i < ninodes ==> refs[i] == 0 && (i != ROOT ==> inodes[i] == Inode(Free, 0, []))
    {
      var root := Inode(Dir, 1, [Dirent(ROOT, "."), Dirent(ROOT, "..")]);
      inodes := seq(ninodes, i => if i == ROOT then root else Inode(Free, 0, []));
      refs := seq(ninodes, i => 0);
      pending := multiset{};
      new;
      RootInv(inodes);
    }

    method DirLookup(dp: nat, name: string) returns (off: Option<nat>)
      requires dp < |inodes| && inodes[dp].kind == Dir
      ensures var k := Lookup(inodes[dp].entries, name, 0);
              off == if k < |inodes[dp].entries| then Some(k) else None
    {
      var k := 0;
      while k < |inodes[dp].entries|
        invariant 0 <= k <= |inodes[dp].entries|
        invariant Lookup(inodes[dp].entries, name, k) == Lookup(inodes[dp].entries, name, 0)
      {
        var de := inodes[dp].entries[k];
        if de.inum != 0 && de.name == name {
          return Some(k);
        }
        k := k + 1;
      }
      return None;
    }

    /** dirlink: false if the name is taken. */
    method DirLink(dp: nat, name: string, inum: nat) returns (ok: bool)
      requires dp < |inodes| && inodes[dp].kind == Dir
      modifies this`inodes
      ensures ok <==> Lookup(old(inodes)[dp].entries, name, 0) == |old(inodes)[dp].entries|
      ensures inodes == if ok then PutEntry(old(inodes), dp, FirstEmpty(old(inodes)[dp].entries, 0), Dirent(inum, name))
              else old(inodes)
    {
      var off := DirLookup(dp, name);
      if off.Some? {
        return false;
      }
      var es := inodes[dp].entries;
      var k := 0;
      while k < |es|
        invariant 0 <= k <= |es| && FirstEmpty(es, k) == FirstEmpty(es, 0)
      {
        if es[k].inum == 0 {
          break;
        }
        k := k + 1;
      }
      inodes := PutEntry(inodes, dp, k, Dirent(inum, name));
      return true;
    }

    method IsDirEmpty(dp: nat) returns (r: bool)
      requires dp < |inodes|
      ensures r <==> Emptied(inodes[dp].entries)
    {
      var k := 2;
      while k < |inodes[dp].entries|
        invariant 2 <= k && forall j :: 2 <= j < k && j < |inodes[dp].entries| ==> inodes[dp].entries[j].inum == 0
      {
        if inodes[dp].entries[k].inum != 0 {
          return false;
        }
        k := k + 1;
      }
      return true;
    }

    /** ialloc: the first free inode, or a panic. */
    method Ialloc() returns (i: Option<nat>)
      ensures i.Some? ==> 1 <= i.value < |inodes| && inodes[i.value].kind == Free
      ensures i.Some? ==> forall j :: 1 <= j < i.value ==> inodes[j].kind != Free
      ensures i.None? ==> forall j :: 1 <= j < |inodes| ==> inodes[j].kind != Free
    {
      var j := 1;
      while j < |inodes|
        invariant 1 <= j && forall k :: 1 <= k < j && k < |inodes| ==> inodes[k].kind != Free
      {
        if inodes[j].kind == Free {
          return Some(j);
        }
        j := j + 1;
      }
      return None;
    }

    method Iget(i: nat)
      requires i < |refs|
      modifies this`refs
      ensures refs == old(refs)[i := old(refs)[i] + 1]
    {
      refs := refs[i := refs[i] + 1];
    }

    /** iput: the last reference to an inode without links frees it. */
    method Iput(i: nat)
      requires i < |inodes| == |refs| && refs[i] >= 1
      modifies this`inodes, this`refs
      ensures refs == old(refs)[i := old(refs)[i] - 1]
      ensures inodes == Dropped(old(inodes), i, old(refs)[i] == 1 && old(inodes)[i].nlink == 0)
    {
      if refs[i] == 1 && inodes[i].nlink == 0 {
        inodes := inodes[i := Inode(Free, 0, [])];
      }
      refs := refs[i := refs[i] - 1];
    }

    /** A process gives up a reference. */
    method Close(i: nat)
      requires Valid() && 1 <= i < |inodes| && refs[i] >= 1
      modifies this`inodes, this`refs
      ensures Valid() && refs == old(refs)[i := old(refs)[i] - 1]
      ensures inodes == Dropped(old(inodes), i, old(refs)[i] == 1 && old(inodes)[i].nlink == 0)
    {
      if inodes[i].nlink == 0 { FreeInv(inodes, pending, i); }
      Iput(i);
    }

    /** create, with a reference to dp that it gives up. A name that is taken: the inode if it and the request are for
        a file, else 0. A new name: the first free inode under that name, or the panic "no inodes". The counts stay
        right unless a name is added to a directory that was removed after it was looked up. In such a directory ".."
        may name an inode that is free again, on which ilock panics. */
    method Create(dp: nat, name: string, kind: Kind) returns (r: Created)
      requires Valid() && 1 <= dp < |inodes| && inodes[dp].kind == Dir && refs[dp] >= 1 && kind != Free
      modifies this`inodes, this`refs
      ensures pending == old(pending)
      ensures var t := old(inodes); var es := t[dp].entries; var k := Lookup(es, name, 0);
              if k < |es| then es[k].inum < |t| && Found(t, old(refs), dp, es[k].inum, kind, inodes, refs, r)
                  && (r != Panic ==> Valid())
              else NewlyMade(t, old(refs), dp, name, kind, inodes, refs, r)
                   && (Valid() <==> r == Panic || Live(t, dp)) && (Valid() <==> Inv(inodes, pending))
    {
      hide Inv;
      hide Held;
      hide Lookup;
      hide Found;
      hide NewlyMade;
      var off := DirLookup(dp, name);
      if off.Some? {
        var i := inodes[dp].entries[off.value].inum;
        NamedInode(inodes, pending, dp, off.value);
        r := Open(dp, i, kind);
        return;
      }
      HeldSize(inodes, refs);
      var a := Ialloc();
      if a.None? {
        NothingMade(inodes, refs, dp, name, kind);
        return Panic;
      }
      AddNew(dp, name, kind, a.value);
      MadeOne(old(inodes), old(refs), dp, name, kind, inodes, refs, a.value);
      return Got(a.value);
    }

    /** create, once the name is found. */
    method Open(dp: nat, i: nat, kind: Kind) returns (r: Created)
      requires Valid() && 1 <= dp < |inodes| && inodes[dp].kind == Dir && refs[dp] >= 1 && 1 <= i < |inodes|
      requires kind != Free
      modifies this`inodes, this`refs
      ensures Found(old(inodes), old(refs), dp, i, kind, inodes, refs, r) && (r != Panic ==> Valid())
    {
      hide Inv;
      Iget(i);
      if inodes[i].kind == Free {
        Iput(dp);
        return Panic;
      }
      Close(dp);
      if kind == File && inodes[i].kind == File {
        return Got(i);
      }
      Close(i);
      assert refs == old(refs)[dp := old(refs)[dp] - 1];
      return Zero;
    }

    /** create, once a free inode is found. */
    method AddNew(dp: nat, name: string, kind: Kind, i: nat)
      requires Valid() && 1 <= dp < |inodes| && inodes[dp].kind == Dir && refs[dp] >= 1 && kind != Free
      requires Lookup(inodes[dp].entries, name, 0) == |inodes[dp].entries|
      requires 1 <= i < |inodes| && inodes[i].kind == Free
      modifies this`inodes, this`refs
      ensures (Valid() <==> Live(old(inodes), dp)) && (Valid() <==> Inv(inodes, pending))
      ensures dp != i && refs == old(refs)[i := old(refs)[i] + 1][dp := old(refs)[dp] - 1]
      ensures var t' := Added(old(inodes), dp, FirstEmpty(old(inodes)[dp].entries, 0), name, kind, i);
              inodes == Dropped(t', dp, old(refs)[dp] == 1 && t'[dp].nlink == 0)
    {
      hide Inv;
      hide Lookup;
      hide FirstEmpty;
      hide Held;
      hide SetSlot;
      ghost var t, es := inodes, inodes[dp].entries;
      HeldSize(t, refs);
      NewSlot(t, pending, dp, name);
      CreateKeepsIff(t, pending, dp, FirstEmpty(es, 0), name, kind, i);
      if Live(t, dp) { AddOk(t, pending, refs, dp, name, kind, i); }
      FillIn(dp, name, kind, i);
      Iget(i);
      if Live(t, dp) {
        HeldFewer(inodes, refs, dp);
      } else {
        DropBreaks(t, pending, dp, FirstEmpty(es, 0), name, kind, i, refs[dp] == 1 && inodes[dp].nlink == 0);
      }
      Iput(dp);
    }

    /** create's stores: the inode, with "." and ".." for a directory, and its entry. */
    method FillIn(dp: nat, name: string, kind: Kind, i: nat)
      requires dp < |inodes| && inodes[dp].kind == Dir && i < |inodes| && i != dp
      requires Lookup(inodes[dp].entries, name, 0) == |inodes[dp].entries|
      modifies this`inodes
      ensures inodes == Added(old(inodes), dp, FirstEmpty(old(inodes)[dp].entries, 0), name, kind, i)
    {
      hide Lookup;
      hide FirstEmpty;
      hide SetSlot;
      if kind == Dir {
        inodes := inodes[i := Inode(Dir, 1, [Dirent(i, "."), Dirent(dp, "..")])];
        inodes := Bump(inodes, dp, 1);
      } else {
        inodes := inodes[i := Inode(kind, 1, [])];
      }
      var ok := DirLink(dp, name, i);
    }

    /** sys_link, first part: refused for a directory. */
    method LinkBegin(i: nat) returns (ok: bool)
      requires Valid() && 1 <= i < |inodes| && refs[i] >= 1
      modifies this`inodes, this`pending
      ensures Valid() && (ok <==> old(inodes)[i].kind != Dir)
      ensures ok ==> pending == old(pending) + multiset{i} && inodes == Bump(old(inodes), i, 1)
      ensures !ok ==> pending == old(pending) && inodes == old(inodes)
    {
      if inodes[i].kind == Dir {
        return false;
      }
      BumpInv(inodes, pending, i);
      inodes := Bump(inodes, i, 1);
      pending := pending + multiset{i};
      return true;
    }

    /** sys_link, second part: an entry in dp, or the count goes back; the references to dp and to the inode are given
        up. The counts stay right unless the entry is added to a directory that was removed after it was looked up. */
    method LinkEnd(i: nat, dp: nat, name: string) returns (ok: bool)
      requires Valid() && i in pending && i < |inodes| && refs[i] >= 1
      requires 1 <= dp < |inodes| && inodes[dp].kind == Dir && refs[dp] >= 1
      modifies this`inodes, this`refs, this`pending
      ensures (Valid() <==> !ok || Live(old(inodes), dp)) && (Valid() <==> Inv(inodes, pending))
      ensures pending == old(pending) - multiset{i}
      ensures i != dp && refs == old(refs)[dp := old(refs)[dp] - 1][i := old(refs)[i] - 1]
      ensures ok <==> Lookup(old(inodes)[dp].entries, name, 0) == |old(inodes)[dp].entries|
      ensures var t := old(inodes); var last := old(refs)[dp] == 1 && t[dp].nlink == 0;
              inodes == if ok then Dropped(PutEntry(t, dp, FirstEmpty(t[dp].entries, 0), Dirent(i, name)), dp, last)
                        else Dropped(Bump(Dropped(t, dp, last), i, -1), i, old(refs)[i] == 1 && t[i].nlink == 1)
    {
      hide Inv;
      hide Held;
      hide Lookup;
      hide FirstEmpty;
      hide SetSlot;
      ghost var t := inodes;
      HeldSize(t, refs);
      PendingCounted(t, pending, i);
      ok := DirLink(dp, name, i);
      if ok {
        ghost var k, p := FirstEmpty(t[dp].entries, 0), pending - multiset{i};
        NewSlot(t, pending, dp, name);
        LinkKeepsIff(t, pending, dp, k, name, i);
        HeldLinked(t, refs, dp, k, Dirent(i, name), i);
        if !Live(t, dp) {
          RemovedCount(t, pending, dp);
          LinkMiscounts(t, pending, dp, k, name, i);
        }
        LinkedTwo(inodes, p, refs, dp, i, Live(t, dp));
        Iput(dp);
        pending := p;
        Iput(i);
      } else {
        Close(dp);
        LinkUndo(i);
      }
    }

    /** sys_link's undo path, also taken when there is no directory for the new name. */
    method LinkUndo(i: nat)
      requires Valid() && i in pending && i < |inodes| && refs[i] >= 1
      modifies this`inodes, this`refs, this`pending
      ensures Valid() && pending == old(pending) - multiset{i} && refs == old(refs)[i := old(refs)[i] - 1]
      ensures inodes == Dropped(Bump(old(inodes), i, -1), i, old(refs)[i] == 1 && old(inodes)[i].nlink == 1)
    {
      hide Inv;
      PendingCounted(inodes, pending, i);
      UnbumpInv(inodes, pending, i);
      inodes := Bump(inodes, i, -1);
      pending := pending - multiset{i};
      Close(i);
    }

    /** sys_unlink, with a reference to dp that it gives up. */
    method Unlink(dp: nat, name: string) returns (ok: bool)
      requires Valid() && 1 <= dp < |inodes| && inodes[dp].kind == Dir && refs[dp] >= 1
      modifies this`inodes, this`refs
      ensures Valid() && pending == old(pending) && |inodes| == |old(inodes)|
      ensures refs == old(refs)[dp := old(refs)[dp] - 1]
      ensures ok <==> CanUnlink(old(inodes), dp, name)
      ensures ok ==> var k := Lookup(old(inodes)[dp].entries, name, 0); var i := old(inodes)[dp].entries[k].inum;
                     inodes == Dropped(Unlinked(old(inodes), dp, k), i, old(refs)[i] == 0
                         && Unlinked(old(inodes), dp, k)[i].nlink == 0)
      ensures !ok ==> inodes == Dropped(old(inodes), dp, old(refs)[dp] == 1 && old(inodes)[dp].nlink == 0)
    {
      hide Inv;
      if name == "." || name == ".." {
        Close(dp);
        return false;
      }
      var off := DirLookup(dp, name);
      if off.None? {
        Close(dp);
        return false;
      }
      var k := off.value;
      var i := inodes[dp].entries[k].inum;
      UnlinkReady(inodes, pending, refs, dp, k, name);
      Iget(i);
      if inodes[i].nlink < 1 {
        assert false;
      }
      if inodes[i].kind == Dir {
        var empty := IsDirEmpty(i);
        if !empty {
          Iput(i);
          assert refs == old(refs);
          Close(dp);
          return false;
        }
      }
      TakeOut(dp, k, i);
      return true;
    }

    /** sys_unlink, once the entry may go; it gives up the references to dp and to the inode i. */
    method TakeOut(dp: nat, k: nat, i: nat)
      requires Inv(inodes, pending) && |refs| == |inodes| && Live(inodes, dp) && 2 <= k < |inodes[dp].entries|
      requires inodes[dp].entries[k].inum == i
      requires 1 <= i < |inodes| && i != dp && (inodes[i].kind == Dir ==> Emptied(inodes[i].entries)) && refs[dp] >= 1
      requires refs[i] >= 1
      requires Held(inodes, refs[i := refs[i] - 1])
      modifies this`inodes, this`refs
      ensures Valid() && refs == old(refs)[i := old(refs)[i] - 1][dp := old(refs)[dp] - 1]
      ensures inodes == Dropped(Unlinked(old(inodes), dp, k), i, old(refs)[i] == 1
              && Unlinked(old(inodes), dp, k)[i].nlink == 0)
    {
      hide Inv;
      hide Held;
      hide Emptied;
      ghost var t := inodes;
      UnlinkDone(t, pending, dp, k);
      inodes := PutEntry(inodes, dp, k, Dirent(0, ""));
      if inodes[i].kind == Dir {
        inodes := Bump(inodes, dp, -1);
      }
      Iput(dp);
      inodes := Bump(inodes, i, -1);
      assert inodes == Unlinked(t, dp, k);
      Iput(i);
      assert refs == old(refs)[i := old(refs)[i] - 1][dp := old(refs)[dp] - 1];
      HeldLess(t, old(refs), dp, k, i);
    }
  }

  /** Looking d up before and after it is made. */
  lemma {:induction false} LookupIn(self: nat, parent: nat, i: nat)
    requires self != 0 && parent != 0
    ensures var es := [Dirent(self, "."), Dirent(parent, "..")];
            Lookup(es, "d", 0) == 2 && FirstEmpty(es, 0) == 2 && Lookup(es, "..", 0) == 1
    ensures i != 0 ==> Lookup([Dirent(self, "."), Dirent(parent, ".."), Dirent(i, "d")], "d", 0) == 2
  {
    hide Lookup;
    hide FirstEmpty;
    assert "d"[0] != "."[0] && "d"[0] != ".."[0] && |"."| != |".."|;
    var es := [Dirent(self, "."), Dirent(parent, ".."), Dirent(i, "d")];
    assert es[0].name != "d" && es[1].name != "d" && es[2] == Dirent(i, "d");
    if i != 0 { assert Lookup(es, "d", 0) <= 2; }
  }

  /** mkdir d, with d still referred to by its maker. */
  method MakeOne() returns (ft: FileTree)
    ensures fresh(ft) && ft.Valid() && |ft.inodes| == 4 && ft.pending == multiset{} && ft.refs == [0, 0, 1, 0]
    ensures ft.inodes[1] == Inode(Dir, 2, [Dirent(1, "."), Dirent(1, ".."), Dirent(2, "d")])
    ensures ft.inodes[2] == Inode(Dir, 1, [Dirent(2, "."), Dirent(1, "..")]) && ft.inodes[3].kind == Free
  {
    hide Inv;
    hide Held;
    hide Lookup;
    hide FirstEmpty;
    ft := new FileTree(4);
    LookupIn(1, 1, 2);
    assert ft.inodes[2].kind == Free;
    HeldMore(ft.inodes, ft.refs, ROOT);
    ft.Iget(ROOT);
    var d := ft.Create(ROOT, "d", Dir);
    assert ft.inodes[1].entries == [Dirent(1, "."), Dirent(1, "..")] + [Dirent(2, "d")];
  }

  /** mkdir d; a process keeps d as it is, say as its current directory; unlink d. */
  method MakeAndRemove() returns (ft: FileTree)
    ensures fresh(ft) && ft.Valid() && |ft.inodes| == 4 && ft.pending == multiset{} && ft.refs == [0, 0, 1, 0]
    ensures ft.inodes[1].kind == Dir && ft.inodes[2] == Inode(Dir, 0, [Dirent(2, "."), Dirent(1, "..")])
    ensures ft.inodes[3].kind == Free && Live(ft.inodes, 1)
    ensures Lookup(ft.inodes[1].entries, "f", 0) == |ft.inodes[1].entries|
  {
    hide Inv;
    hide Lookup;
    ft := MakeOne();
    ft.Iget(ROOT);
    LookupIn(1, 1, 2);
    var ok := ft.Unlink(ROOT, "d");
  }

  /** The failing case of create: a file in the removed directory leaves the counts wrong. */
  method CreateInRemoved(kind: Kind) returns (ft: FileTree)
    requires kind != Free
    ensures !Inv(ft.inodes, ft.pending)
  {
    hide Inv;
    hide Held;
    ft := MakeAndRemove();
    HeldMore(ft.inodes, ft.refs, 2);
    ft.Iget(2);
    var r := ft.Create(2, "f", kind);
  }

  /** The failing case of link: a link to a file in the removed directory leaves the counts wrong. */
  method LinkInRemoved() returns (ft: FileTree)
    ensures !Inv(ft.inodes, ft.pending)
  {
    hide Inv;
    hide Held;
    ft := MakeAndRemove();
    HeldMore(ft.inodes, ft.refs, ROOT);
    ft.Iget(ROOT);
    assert ft.inodes[3].kind == Free;
    var f := ft.Create(ROOT, "f", File);
    var begun := ft.LinkBegin(3);
    HeldMore(ft.inodes, ft.refs, 2);
    ft.Iget(2);
    var ok := ft.LinkEnd(3, 2, "g");
  }

  /** mkdir a and a/b, with b still referred to by its maker, and a once more. */
  method MakeTwo() returns (ft: FileTree)
    ensures fresh(ft) && ft.Valid() && |ft.inodes| == 4 && ft.pending == multiset{} && ft.refs == [0, 0, 1, 1]
    ensures ft.inodes[1] == Inode(Dir, 2, [Dirent(1, "."), Dirent(1, ".."), Dirent(2, "d")])
    ensures ft.inodes[2] == Inode(Dir, 2, [Dirent(2, "."), Dirent(1, ".."), Dirent(3, "d")])
    ensures ft.inodes[3] == Inode(Dir, 1, [Dirent(3, "."), Dirent(2, "..")])
  {
    hide Inv;
    hide Held;
    hide Lookup;
    hide FirstEmpty;
    ft := MakeOne();
    LookupIn(2, 1, 3);
    assert ft.inodes[3].kind == Free;
    HeldMore(ft.inodes, ft.refs, 2);
    ft.Iget(2);
    var d := ft.Create(2, "d", Dir);
    assert ft.inodes[2].entries == [Dirent(2, "."), Dirent(1, "..")] + [Dirent(3, "d")];
  }

  /** The failing case of "..": a directory and then its parent are removed while a process is in it. Its ".." names an
      inode that is free, and create panics on it. */
  method ParentGone(kind: Kind) returns (ft: FileTree, r: Created)
    requires kind != Free
    ensures r == Panic
  {
    hide Inv;
    hide Held;
    hide Lookup;
    hide FirstEmpty;
    ft := MakeTwo();
    LookupIn(2, 1, 3);
    LookupIn(1, 1, 2);
    LookupIn(3, 2, 0);
    HeldMore(ft.inodes, ft.refs, 2);
    ft.Iget(2);
    var ok := ft.Unlink(2, "d");
    HeldMore(ft.inodes, ft.refs, 1);
    ft.Iget(1);
    ok := ft.Unlink(1, "d");
    ft.Close(2);
    HeldMore(ft.inodes, ft.refs, 3);
    ft.Iget(3);
    r := ft.Create(3, "..", kind);
  }

  /** What is referred to is allocated, and what has no link is referred to. */
  ghost predicate Held(t: Tree, refs: seq<nat>)
  {
    && |refs| == |t|
    && (forall i :: 0 <= i < |t| && refs[i] > 0 ==> t[i].kind != Free)
    && (forall i :: 0 <= i < |t| && t[i].kind != Free && t[i].nlink == 0 ==> refs[i] > 0)
  }

  lemma {:induction false} HeldSize(t: Tree, refs: seq<nat>)
    requires Held(t, refs)
    ensures |refs| == |t|
  {}

  predicate CanUnlink(t: Tree, dp: nat, name: string)
    requires dp < |t|
  {
    var k := Lookup(t[dp].entries, name, 0);
    && name != "." && name != ".." && k < |t[dp].entries| && t[dp].entries[k].inum < |t|
    && (t[t[dp].entries[k].inum].kind == Dir ==> Emptied(t[t[dp].entries[k].inum].entries))
  }

  lemma {:induction false} RootInv(t: Tree)
    requires |t| >= 2 && t[ROOT] == Inode(Dir, 1, [Dirent(ROOT, "."), Dirent(ROOT, "..")])
    requires forall i :: 0 <= i < |t| && i != ROOT ==> t[i] == Inode(Free, 0, [])
    ensures Inv(t, multiset{})
  {
    forall d: nat | d < |t| ensures InodeOk(t, d) {}
    forall i: nat | 1 <= i < |t| ensures t[i].nlink == |LinksSpec.Links(t, i)| {
      InLinks(t, i);
      if i == ROOT {
        assert LinksSpec.Links(t, i) == {(ROOT, 1)} by {
          Pairwise(LinksSpec.Links(t, i), {(ROOT, 1)});
        }
      } else {
        assert LinksSpec.Links(t, i) == {} by { Pairwise(LinksSpec.Links(t, i), {}); }
      }
    }
  }

  /** The tree with a new inode i under a new name in slot k of dp. */
  function Added(t: Tree, dp: nat, k: nat, name: string, kind: Kind, i: nat): Tree
    requires dp < |t| && i < |t| && dp != i && k <= |t[dp].entries|
  {
    if kind == Dir then MakeDir(t, dp, k, name, i) else PutEntry(t[i := Inode(kind, 1, [])], dp, k, Dirent(i, name))
  }

  lemma {:induction false} AddOk(t: Tree, pending: multiset<nat>, refs: seq<nat>, dp: nat, name: string, kind: Kind,
                                 i: nat)
    requires Inv(t, pending) && Held(t, refs) && Live(t, dp) && Lookup(t[dp].entries, name, 0) == |t[dp].entries|
    requires 1 <= i < |t| && t[i].kind == Free && kind != Free
    ensures dp != i && |refs| == |t|
    ensures var t' := Added(t, dp, FirstEmpty(t[dp].entries, 0), name, kind, i);
            && |t'| == |t| && Inv(t', pending) && Held(t', refs[i := refs[i] + 1]) && t'[i].kind == kind
            && t'[i].nlink == 1
            && t'[dp].entries == SetSlot(t[dp].entries, FirstEmpty(t[dp].entries, 0), Dirent(i, name))
  {
    hide Inv;
    hide Held;
    hide Lookup;
    hide FirstEmpty;
    hide SetSlot;
    var k := FirstEmpty(t[dp].entries, 0);
    CreateReady(t, pending, refs, dp, name, i);
    if kind == Dir {
      MakeDirInv(t, pending, dp, k, name, i);
    } else {
      NewFile(t, pending, i, kind);
      LinkInv(t[i := Inode(kind, 1, [])], pending + multiset{i}, dp, k, name, i);
      assert pending + multiset{i} - multiset{i} == pending;
    }
    HeldNew(t, refs, Added(t, dp, k, name, kind, i), i);
  }

  /** Slot k of directory dp, removed or not, is free for an entry under this name. */
  ghost predicate FreeSlot(t: Tree, dp: nat, k: nat, name: string)
  {
    && dp < |t| && t[dp].kind == Dir && 2 <= k <= |t[dp].entries|
    && (k < |t[dp].entries| ==> t[dp].entries[k].inum == 0)
    && name != "." && name != ".."
  }

  /** create counts a link that is in no live directory if its directory was removed after it was looked up, and mkdir
      brings that directory back with no entry for it: the counts stay right if and only if the directory is still
      there. */
  lemma {:induction false} CreateKeepsIff(t: Tree, pending: multiset<nat>, dp: nat, k: nat, name: string, kind: Kind,
                                          i: nat)
    requires Inv(t, pending) && FreeSlot(t, dp, k, name) && 1 <= i < |t| && t[i].kind == Free && kind != Free
    ensures dp != i && (Inv(Added(t, dp, k, name, kind, i), pending) <==> Live(t, dp))
  {
    if kind == Dir {
      if Live(t, dp) { MakeDirInv(t, pending, dp, k, name, i); } else { MakeDirBreaks(t, pending, dp, k, name, i); }
    } else {
      NewFile(t, pending, i, kind);
      LinkKeepsIff(t[i := Inode(kind, 1, [])], pending + multiset{i}, dp, k, name, i);
      assert pending + multiset{i} - multiset{i} == pending;
    }
  }

  /** The same for link: its entry settles the count if and only if the directory is still there. */
  lemma {:induction false} LinkKeepsIff(t: Tree, pending: multiset<nat>, dp: nat, k: nat, name: string, i: nat)
    requires Inv(t, pending) && FreeSlot(t, dp, k, name) && i in pending
    ensures Inv(PutEntry(t, dp, k, Dirent(i, name)), pending - multiset{i}) <==> Live(t, dp)
  {
    var t' := PutEntry(t, dp, k, Dirent(i, name));
    if Live(t, dp) {
      LinkInv(t, pending, dp, k, name, i);
    } else {
      LinksSame(t, t', i);
      assert t[i].nlink == |LinksSpec.Links(t, i)| + pending[i];
      assert t'[i].nlink != |LinksSpec.Links(t', i)| + (pending - multiset{i})[i];
    }
  }

  /** The count of inode i is wrong. */
  ghost predicate Miscounted(t: Tree, pending: multiset<nat>, i: nat)
  {
    1 <= i < |t| && t[i].nlink != |LinksSpec.Links(t, i)| + pending[i]
  }

  lemma {:induction false} LinkMiscounts(t: Tree, pending: multiset<nat>, dp: nat, k: nat, name: string, i: nat)
    requires Inv(t, pending) && FreeSlot(t, dp, k, name) && i in pending && !Live(t, dp)
    ensures i != dp && Miscounted(PutEntry(t, dp, k, Dirent(i, name)), pending - multiset{i}, i)
  {
    LinksSame(t, PutEntry(t, dp, k, Dirent(i, name)), i);
    assert t[i].nlink == |LinksSpec.Links(t, i)| + pending[i];
  }

  /** Freeing a removed directory does not help. */
  lemma {:induction false} StaysMiscounted(t: Tree, pending: multiset<nat>, dp: nat, i: nat, free: bool)
    requires Miscounted(t, pending, i) && dp < |t| && dp != i && t[dp].nlink == 0
    ensures Miscounted(Dropped(t, dp, free), pending, i) && !Inv(Dropped(t, dp, free), pending)
  {
    LinksSame(t, Dropped(t, dp, free), i);
  }

  /** What create made in a removed directory stays wrong when that directory is freed. */
  lemma {:induction false} DropBreaks(t: Tree, pending: multiset<nat>, dp: nat, k: nat, name: string, kind: Kind,
                                      i: nat, free: bool)
    requires Inv(t, pending) && FreeSlot(t, dp, k, name) && 1 <= i < |t| && t[i].kind == Free && kind != Free
    requires !Live(t, dp) && 1 <= dp != i
    requires free ==> Added(t, dp, k, name, kind, i)[dp].nlink == 0
    ensures !Inv(Dropped(Added(t, dp, k, name, kind, i), dp, free), pending)
  {
    hide Inv;
    RemovedCount(t, pending, dp);
    if kind == Dir {
      CreateKeepsIff(t, pending, dp, k, name, kind, i);
    } else {
      NewFile(t, pending, i, kind);
      LinkMiscounts(t[i := Inode(kind, 1, [])], pending + multiset{i}, dp, k, name, i);
      assert pending + multiset{i} - multiset{i} == pending;
      StaysMiscounted(Added(t, dp, k, name, kind, i), pending, dp, i, free);
    }
  }

  lemma {:induction false} RemovedCount(t: Tree, pending: multiset<nat>, dp: nat)
    requires Inv(t, pending) && 1 <= dp < |t| && t[dp].kind == Dir && !Live(t, dp)
    ensures t[dp].nlink == 0
  {
    assert t[dp].nlink == |LinksSpec.Links(t, dp)| + pending[dp];
  }

  /** After link's entry the references to dp and to inode i go. */
  lemma {:induction false} LinkedTwo(t: Tree, pending: multiset<nat>, refs: seq<nat>, dp: nat, i: nat, live: bool)
    requires dp < |t| == |refs| && i < |t| && dp != i && t[dp].kind == Dir && refs[dp] >= 1 && refs[i] >= 1
    requires t[i].nlink >= 1
    requires Inv(t, pending) <==> live
    requires live ==> t[dp].nlink >= 1 && Held(t, refs[i := refs[i] - 1])
    requires !live ==> t[dp].nlink == 0 && Miscounted(t, pending, i)
    ensures Inv(Dropped(t, dp, refs[dp] == 1 && t[dp].nlink == 0), pending) <==> live
    ensures live ==> Held(t, refs[dp := refs[dp] - 1][i := refs[i] - 1])
  {
    hide Inv;
    if !live { StaysMiscounted(t, pending, dp, i, refs[dp] == 1 && t[dp].nlink == 0); }
  }

  lemma {:induction false} NothingMade(t: Tree, refs: seq<nat>, dp: nat, name: string, kind: Kind)
    requires dp < |t| == |refs| && refs[dp] >= 1 && forall j :: 1 <= j < |t| ==> t[j].kind != Free
    ensures NewlyMade(t, refs, dp, name, kind, t, refs, Panic)
  {}

  lemma {:induction false} MadeOne(t: Tree, refs: seq<nat>, dp: nat, name: string, kind: Kind, t': Tree,
                                   refs': seq<nat>, i: nat)
    requires dp < |t| == |refs| && refs[dp] >= 1 && 1 <= i < |t| && i != dp && t[i].kind == Free
    requires (forall j :: 1 <= j < i ==> t[j].kind != Free)
    requires refs' == refs[i := refs[i] + 1][dp := refs[dp] - 1]
    requires var a := Added(t, dp, FirstEmpty(t[dp].entries, 0), name, kind, i);
             t' == Dropped(a, dp, refs[dp] == 1 && a[dp].nlink == 0)
    ensures NewlyMade(t, refs, dp, name, kind, t', refs', Got(i))
  {}

  /** mkdir in a removed directory: it is live again, and no directory has an entry for it. */
  lemma {:induction false} MakeDirBreaks(t: Tree, pending: multiset<nat>, dp: nat, k: nat, name: string, i: nat)
    requires Inv(t, pending) && FreeSlot(t, dp, k, name) && 1 <= i < |t| && t[i].kind == Free && !Live(t, dp)
    ensures dp != i && !InodeOk(MakeDir(t, dp, k, name, i), dp)
  {
    var t' := MakeDir(t, dp, k, name, i);
    assert InodeOk(t, dp);
    assert t[dp].nlink == |LinksSpec.Links(t, dp)| + pending[dp];
    FreeUnnamed(t, pending, dp);
    var p := t[dp].entries[1].inum;
    forall j: nat ensures !EntryFor(t', p, j, dp) {
      if Live(t', p) && p != i && p != dp { assert Live(t, p); }
    }
  }

  /** A name that is not taken goes to a slot after the first two, in a removed directory as well. */
  lemma {:induction false} NewSlot(t: Tree, pending: multiset<nat>, dp: nat, name: string)
    requires Inv(t, pending) && dp < |t| && t[dp].kind == Dir && Lookup(t[dp].entries, name, 0) == |t[dp].entries|
    ensures FreeSlot(t, dp, FirstEmpty(t[dp].entries, 0), name)
  {
    assert InodeOk(t, dp);
    if Live(t, dp) { NameFree(t, dp, name); }
  }

  lemma {:induction false} HeldNew(t: Tree, refs: seq<nat>, t': Tree, i: nat)
    requires Held(t, refs) && |t'| == |t| && i < |t| && t'[i].kind != Free && t'[i].nlink >= 1
    requires forall c ::
               0 <= c < |t| && c != i ==>
                 && t'[c].kind == t[c].kind && (t[c].nlink >= 1 ==> t'[c].nlink >= 1)
                 && (t[c].nlink == 0 <==> t'[c].nlink == 0)
    ensures Held(t', refs[i := refs[i] + 1])
  {}

  lemma {:induction false} HeldMore(t: Tree, refs: seq<nat>, i: nat)
    requires Held(t, refs) && i < |t| && t[i].kind != Free
    ensures |refs| == |t| && Held(t, refs[i := refs[i] + 1])
  {}

  lemma {:induction false} HeldFewer(t: Tree, refs: seq<nat>, i: nat)
    requires Held(t, refs) && i < |t| && t[i].nlink >= 1 && refs[i] >= 1
    ensures Held(t, refs[i := refs[i] - 1])
  {}

  lemma {:induction false} HeldLinked(t: Tree, refs: seq<nat>, dp: nat, k: nat, e: Dirent, i: nat)
    requires Held(t, refs) && dp < |t| && k <= |t[dp].entries| && i < |t| && t[i].nlink >= 1 && refs[i] >= 1
    ensures Held(PutEntry(t, dp, k, e), refs[i := refs[i] - 1])
  {}

  lemma {:induction false} HeldLess(t: Tree, refs: seq<nat>, dp: nat, k: nat, i: nat)
    requires |refs| == |t| && dp < |t| && k < |t[dp].entries| && t[dp].entries[k].inum == i && i < |t| && i != dp
    requires refs[i] >= 1 && refs[dp] >= 1
    requires Held(t, refs[i := refs[i] - 1]) && Unlinked(t, dp, k)[dp].nlink >= 1 && t[dp].kind != Free
    ensures Held(Dropped(Unlinked(t, dp, k), i, refs[i] == 1 && Unlinked(t, dp, k)[i].nlink == 0),
            refs[i := refs[i] - 1][dp := refs[dp] - 1])
  {}

  lemma {:induction false} NamedInode(t: Tree, pending: multiset<nat>, dp: nat, k: nat)
    requires Inv(t, pending) && dp < |t| && t[dp].kind == Dir && k < |t[dp].entries| && t[dp].entries[k].inum != 0
    ensures t[dp].entries[k].inum < |t|
  {
    assert InodeOk(t, dp);
    if Live(t, dp) { NoDangling(t, pending, dp, k); }
  }

  /** A name that is not taken is neither "." nor "..", and the first two slots are. */
  lemma {:induction false} NameFree(t: Tree, dp: nat, name: string)
    requires Shape(t) && Live(t, dp) && Lookup(t[dp].entries, name, 0) == |t[dp].entries|
    ensures MayAdd(t, dp, FirstEmpty(t[dp].entries, 0), name)
  {
    assert InodeOk(t, dp);
    var es := t[dp].entries;
    assert InodeOk(t, es[1].inum);
    assert es[0].inum != 0 && es[1].inum != 0;
  }

  lemma {:induction false} CreateReady(t: Tree, pending: multiset<nat>, refs: seq<nat>, dp: nat, name: string, i: nat)
    requires Inv(t, pending) && Held(t, refs) && Live(t, dp) && Lookup(t[dp].entries, name, 0) == |t[dp].entries|
    requires 1 <= i < |t| && t[i].kind == Free
    ensures MayAdd(t, dp, FirstEmpty(t[dp].entries, 0), name) && dp != i && |refs| == |t|
  {
    NameFree(t, dp, name);
  }

  /** dirlookup finds what dirlink wrote. */
  lemma {:induction false} NewName(es: seq<Dirent>, name: string, inum: nat)
    requires Lookup(es, name, 0) == |es| && inum != 0
    ensures var es' := SetSlot(es, FirstEmpty(es, 0), Dirent(inum, name));
            Lookup(es', name, 0) == FirstEmpty(es, 0) < |es'| && es'[FirstEmpty(es, 0)] == Dirent(inum, name)
  {
    var k := FirstEmpty(es, 0);
    var es' := SetSlot(es, k, Dirent(inum, name));
    assert es'[k] == Dirent(inum, name);
    forall j | 0 <= j < |es| && j != k ensures es'[j] == es[j] && (es'[j].inum == 0 || es'[j].name != name) {}
    var r := Lookup(es', name, 0);
    assert r <= k;
  }

  lemma {:induction false} PendingCounted(t: Tree, pending: multiset<nat>, i: nat)
    requires Inv(t, pending) && i in pending
    ensures 1 <= i < |t| && t[i].nlink >= 1 && t[i].kind in {File, Dev}
  {
    assert t[i].nlink == |LinksSpec.Links(t, i)| + pending[i];
  }

  lemma {:induction false} UnlinkReady(t: Tree, pending: multiset<nat>, refs: seq<nat>, dp: nat, k: nat, name: string)
    requires Inv(t, pending) && dp < |t| && t[dp].kind == Dir && name != "." && name != ".." && k < |t[dp].entries|
    requires t[dp].entries[k].inum != 0 && t[dp].entries[k].name == name
    ensures Live(t, dp) && k >= 2
    ensures var i := t[dp].entries[k].inum; 1 <= i < |t| && t[i].nlink >= 1 && t[i].kind != Free && i != dp
  {
    assert InodeOk(t, dp);
    EntryCounted(t, pending, dp, k);
  }

  lemma {:induction false} UnlinkDone(t: Tree, pending: multiset<nat>, dp: nat, k: nat)
    requires Inv(t, pending) && Live(t, dp) && 2 <= k < |t[dp].entries| && t[dp].entries[k].inum != 0
    requires t[dp].entries[k].inum < |t|
    requires t[t[dp].entries[k].inum].kind == Dir ==> Emptied(t[t[dp].entries[k].inum].entries)
    ensures Inv(Unlinked(t, dp, k), pending) && Unlinked(t, dp, k)[dp].nlink >= 1
    ensures var i := t[dp].entries[k].inum;
            Unlinked(t, dp, k)[i].nlink == 0 ==> Inv(Dropped(Unlinked(t, dp, k), i, true), pending)
    ensures t[t[dp].entries[k].inum].kind == Dir ==> t[dp].nlink >= 2
  {
    var i := t[dp].entries[k].inum;
    EntryCounted(t, pending, dp, k);
    if t[i].kind == Dir {
      RemoveDirInv(t, pending, dp, k, i);
      TwoLinks(t, pending, dp, k, i);
    } else {
      UnlinkFileInv(t, pending, dp, k);
    }
    if Unlinked(t, dp, k)[i].nlink == 0 { FreeInv(Unlinked(t, dp, k), pending, i); }
  }
}
