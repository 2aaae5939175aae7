/** Directory entries and link counts (sysfile.c, fs.c). */
module LinksSpec {

  const ROOT: nat := 1          // ROOTINO

  datatype Kind = Free | File | Dir | Dev

  /** A directory slot; inum 0 is an empty one. */
  datatype Dirent = Dirent(inum: nat, name: string)

  datatype Inode = Inode(kind: Kind, nlink: int, entries: seq<Dirent>)

  type Tree = seq<Inode>

  /** A directory that has not been removed. */
  predicate Live(t: Tree, d: nat) { d < |t| && t[d].kind == Dir && t[d].nlink >= 1 }

  /** Slot k of directory d is an entry for inode i, other than ".". */
  predicate Names(t: Tree, d: nat, k: nat, i: nat)
  {
    Live(t, d) && k < |t[d].entries| && t[d].entries[k].inum == i && t[d].entries[k].name != "."
  }

  /** All entries for i in live directories, not counting ".". */
  ghost function Links(t: Tree, i: nat): set<(nat, nat)>
  {
    set d: nat, k: nat | d < |t| && k < |t[d].entries| && Names(t, d, k, i) :: (d, k)
  }

  lemma {:induction false} InLinks(t: Tree, i: nat)
    ensures forall d: nat, k: nat {:trigger (d, k) in Links(t, i)} :: (d, k) in Links(t, i) <==> Names(t, d, k, i)
  {}

  /** A live directory starts with "." and "..", the latter for a live directory; its other entries have other names
      and never name the root. */
  ghost predicate DirOk(t: Tree, d: nat)
    requires d < |t|
  {
    var es := t[d].entries;
    && |es| >= 2 && es[0] == Dirent(d, ".") && es[1].name == ".." && Live(t, es[1].inum)
    && (d == ROOT ==> es[1].inum == ROOT)
    && (forall k :: 2 <= k < |es| && es[k].inum != 0 ==>
          es[k].name != "." && es[k].name != ".." && es[k].inum < |t| && es[k].inum != ROOT && es[k].inum != d)
  }

  /** An entry for a directory is in its parent. */
  ghost predicate ParentOk(t: Tree, d: nat, k: nat)
    requires d < |t| && k < |t[d].entries|
  {
    var r := t[d].entries[k].inum;
    r != 0 && r < |t| && t[r].kind == Dir ==> Live(t, r) && |t[r].entries| >= 2 && t[r].entries[1].inum == d
  }

  /** Two entries of a directory never name the same directory. */
  ghost predicate TwinOk(t: Tree, d: nat, j: nat, k: nat)
    requires d < |t| && j < k < |t[d].entries|
  {
    t[d].entries[j].inum == t[d].entries[k].inum ==> !IsDir(t, t[d].entries[j].inum)
  }

  ghost predicate InodeOk(t: Tree, d: nat)
    requires d < |t|
  {
    && (d == 0 ==> t[d].kind == Free) && (t[d].kind == Free ==> t[d].nlink == 0)
    && (t[d].kind == Dir && t[d].nlink < 1 ==> Gone(t[d].entries, |t|))
    && (Live(t, d) ==>
          && DirOk(t, d) && (d != ROOT ==> Listed(t, d))
          && (forall k: nat {:trigger ParentOk(t, d, k)} :: 2 <= k < |t[d].entries| ==> ParentOk(t, d, k))
          && (forall j: nat, k: nat {:trigger TwinOk(t, d, j, k)} :: 2 <= j < k < |t[d].entries| ==>
                TwinOk(t, d, j, k)))
  }

  ghost predicate Shape(t: Tree)
  {
    Live(t, ROOT) && forall d: nat {:trigger InodeOk(t, d)} :: d < |t| ==> InodeOk(t, d)
  }

  predicate IsDir(t: Tree, r: nat) { r != 0 && r < |t| && t[r].kind == Dir }

  /** isdirempty. */
  predicate Emptied(es: seq<Dirent>) { forall k :: 2 <= k < |es| ==> es[k].inum == 0 }

  /** What is left in a removed directory. */
  predicate Gone(es: seq<Dirent>, ninodes: nat)
  {
    && |es| >= 2 && es[0].name == "." && es[1].name == ".." && Emptied(es)
    && 1 <= es[0].inum < ninodes && 1 <= es[1].inum < ninodes
  }

  /** A directory has an entry in its parent. */
  ghost predicate Listed(t: Tree, r: nat)
    requires r < |t|
  {
    |t[r].entries| >= 2 && exists k :: EntryFor(t, t[r].entries[1].inum, k, r)
  }

  ghost predicate EntryFor(t: Tree, d: nat, k: nat, r: nat)
  {
    Live(t, d) && 2 <= k < |t[d].entries| && t[d].entries[k].inum == r
  }

  /** LINK COUNTS. nlink is the number of entries, and one for each link() under way. */
  ghost predicate Counted(t: Tree, pending: multiset<nat>)
  {
    forall i: nat {:trigger Links(t, i)} :: 1 <= i < |t| ==> t[i].nlink == |Links(t, i)| + pending[i]
  }

  ghost predicate Inv(t: Tree, pending: multiset<nat>)
  {
    && Shape(t) && Counted(t, pending)
    && (forall i :: i in pending ==> 1 <= i < |t| && t[i].kind in {File, Dev})
  }

  // ----- a slot of a live directory -----

  /** Slot k, which may be the one after the last, gets entry e. */
  function SetSlot(es: seq<Dirent>, k: nat, e: Dirent): seq<Dirent>
    requires k <= |es|
  {
    if k < |es| then es[k := e] else es + [e]
  }

  function PutEntry(t: Tree, d: nat, k: nat, e: Dirent): Tree
    requires d < |t| && k <= |t[d].entries|
  {
    t[d := t[d].(entries := SetSlot(t[d].entries, k, e))]
  }

  /** Writing a slot changes the links of the inodes it named before and names now. */
  lemma {:induction false} PutLinks(t: Tree, d: nat, k: nat, e: Dirent, i: nat)
    requires Live(t, d) && 2 <= k <= |t[d].entries| && e.name != "."
    requires (k < |t[d].entries| ==> t[d].entries[k].name != "." || t[d].entries[k].inum != i)
    ensures Links(PutEntry(t, d, k, e), i) ==
            if e.inum == i then Links(t, i) + {(d, k)} else Links(t, i) - {(d, k)}
  {
    var t' := PutEntry(t, d, k, e);
    InLinks(t, i);
    InLinks(t', i);
    forall c: nat, j: nat
      ensures (c, j) in Links(t', i)
              <==> (c, j) in if e.inum == i then Links(t, i) + {(d, k)} else Links(t, i) - {(d, k)}
    {
      assert (c, j) in Links(t', i) <==> Names(t', c, j, i);
    }
  }

  /** The same live directories with the same entries. */
  ghost predicate SameDirs(t: Tree, t': Tree)
  {
    && |t'| == |t|
    && (forall d: nat {:trigger Live(t', d)} :: d < |t| ==>
          (Live(t', d) <==> Live(t, d)) && (Live(t, d) ==> t'[d].entries == t[d].entries))
  }

  lemma {:induction false} LinksSame(t: Tree, t': Tree, i: nat)
    requires SameDirs(t, t')
    ensures Links(t', i) == Links(t, i)
  {
    InLinks(t, i);
    InLinks(t', i);
    forall d: nat, k: nat ensures (d, k) in Links(t', i) <==> (d, k) in Links(t, i) {
      assert (d, k) in Links(t', i) <==> Names(t', d, k, i);
      if d < |t| { assert Live(t', d) <==> Live(t, d); }
    }
  }

  // ----- sys_link: nlink++, later an entry or nlink-- -----

  function Bump(t: Tree, i: nat, delta: int): Tree
    requires i < |t|
  {
    t[i := t[i].(nlink := t[i].nlink + delta)]
  }

  lemma {:induction false} BumpInv(t: Tree, pending: multiset<nat>, i: nat)
    requires Inv(t, pending) && 1 <= i < |t| && t[i].kind in {File, Dev}
    ensures Inv(Bump(t, i, 1), pending + multiset{i})
  {
    var t' := Bump(t, i, 1);
    assert SameDirs(t, t');
    FileShape(t, t');
    forall j: nat | 1 <= j < |t|
      ensures t'[j].nlink == |Links(t', j)| + (pending + multiset{i})[j]
    {
      LinksSame(t, t', j);
      assert t[j].nlink == |Links(t, j)| + pending[j];
    }
  }

  lemma {:induction false} UnbumpInv(t: Tree, pending: multiset<nat>, i: nat)
    requires Inv(t, pending) && i in pending
    ensures i < |t| && Inv(Bump(t, i, -1), pending - multiset{i})
  {
    var t' := Bump(t, i, -1);
    assert SameDirs(t, t');
    FileShape(t, t');
    forall j: nat | 1 <= j < |t|
      ensures t'[j].nlink == |Links(t', j)| + (pending - multiset{i})[j]
    {
      LinksSame(t, t', j);
      assert t[j].nlink == |Links(t, j)| + pending[j];
    }
  }

  lemma {:induction false} ListedStays(t: Tree, t': Tree, r: nat)
    requires r < |t| == |t'| && Listed(t, r) && |t'[r].entries| >= 2 && t'[r].entries[1] == t[r].entries[1]
    requires var p := t[r].entries[1].inum;
             Live(t, p) ==> Live(t', p) && |t'[p].entries| >= |t[p].entries|
                            && forall k :: 2 <= k < |t[p].entries| && t[p].entries[k].inum == r ==>
                                  t'[p].entries[k].inum == r
    ensures Listed(t', r)
  {
    var k :| EntryFor(t, t[r].entries[1].inum, k, r);
    assert EntryFor(t', t'[r].entries[1].inum, k, r);
  }

  /** Link counts of files do not matter to the shape. */
  lemma {:induction false} FileShape(t: Tree, t': Tree)
    requires Shape(t) && |t'| == |t|
    requires forall d :: 0 <= d < |t| ==> t'[d].kind == t[d].kind && t'[d].entries == t[d].entries
    requires forall d :: 0 <= d < |t| && t[d].kind in {Free, Dir} ==> t'[d] == t[d]
    ensures Shape(t')
  {
    forall d: nat | d < |t'| ensures InodeOk(t', d) {
      assert InodeOk(t, d);
      if Live(t, d) {
        if d != ROOT { ListedStays(t, t', d); }
        forall k: nat | 2 <= k < |t'[d].entries| ensures ParentOk(t', d, k) { assert ParentOk(t, d, k); }
        forall j: nat, k: nat | 2 <= j < k < |t'[d].entries| ensures TwinOk(t', d, j, k) { assert TwinOk(t, d, j, k); }
      }
    }
  }

  /** dirlink of a file that has a link under way, or of a file just created. */
  lemma {:induction false} EntryShape(t: Tree, d: nat, k: nat, e: Dirent)
    requires Shape(t) && Live(t, d) && 2 <= k <= |t[d].entries| && (k < |t[d].entries| ==> t[d].entries[k].inum == 0)
    requires e.name != "." && e.name != ".." && 1 <= e.inum < |t| && e.inum != ROOT && t[e.inum].kind != Dir
    ensures Shape(PutEntry(t, d, k, e))
  {
    var t' := PutEntry(t, d, k, e);
    forall c: nat | c < |t'| ensures InodeOk(t', c) { EntryDir(t, d, k, e, c); }
  }

  lemma {:induction false} EntryDir(t: Tree, d: nat, k: nat, e: Dirent, c: nat)
    requires Shape(t) && Live(t, d) && 2 <= k <= |t[d].entries| && (k < |t[d].entries| ==> t[d].entries[k].inum == 0)
    requires e.name != "." && e.name != ".." && 1 <= e.inum < |t| && e.inum != ROOT && t[e.inum].kind != Dir && c < |t|
    ensures InodeOk(PutEntry(t, d, k, e), c)
  {
    var t' := PutEntry(t, d, k, e);
    assert InodeOk(t, c);
    if Live(t, c) {
      if c != ROOT { ListedStays(t, t', c); }
      forall j: nat | 2 <= j < |t'[c].entries| ensures ParentOk(t', c, j) {
        if !(c == d && j == k) { assert ParentOk(t, c, j); }
      }
      forall i: nat, j: nat | 2 <= i < j < |t'[c].entries| ensures TwinOk(t', c, i, j) {
        if !(c == d && (i == k || j == k)) { assert TwinOk(t, c, i, j); }
      }
    }
  }

  /** One entry more: its inode has a link more, the others as many as before. */
  lemma {:induction false} EntryCounts(t: Tree, d: nat, k: nat, e: Dirent, i: nat)
    requires Shape(t) && Live(t, d) && 2 <= k <= |t[d].entries| && (k < |t[d].entries| ==> t[d].entries[k].inum == 0)
    requires e.name != "." && i >= 1
    ensures |Links(PutEntry(t, d, k, e), i)| == |Links(t, i)| + if e.inum == i then 1 else 0
  {
    PutLinks(t, d, k, e, i);
    InLinks(t, i);
    assert (d, k) !in Links(t, i);
  }

  lemma {:induction false} LinkInv(t: Tree, pending: multiset<nat>, d: nat, k: nat, name: string, i: nat)
    requires Inv(t, pending) && Live(t, d) && 2 <= k <= |t[d].entries|
    requires (k < |t[d].entries| ==> t[d].entries[k].inum == 0)
    requires name != "." && name != ".." && i in pending
    ensures Inv(PutEntry(t, d, k, Dirent(i, name)), pending - multiset{i})
  {
    var t' := PutEntry(t, d, k, Dirent(i, name));
    EntryShape(t, d, k, Dirent(i, name));
    forall j: nat | 1 <= j < |t| ensures t'[j].nlink == |Links(t', j)| + (pending - multiset{i})[j] {
      EntryCounts(t, d, k, Dirent(i, name), j);
      assert t[j].nlink == |Links(t, j)| + pending[j];
    }
  }

  // ----- create -----

  lemma {:induction false} FreeUnnamed(t: Tree, pending: multiset<nat>, i: nat)
    requires Inv(t, pending) && 1 <= i < |t| && t[i].nlink == 0
    ensures Links(t, i) == {} && pending[i] == 0
    ensures forall d: nat, k: nat {:trigger t[d].entries[k]} ::
              Live(t, d) && 1 <= k < |t[d].entries| ==> t[d].entries[k].inum != i
  {
    assert t[i].nlink == |Links(t, i)| + pending[i];
    InLinks(t, i);
    forall d: nat, k: nat | Live(t, d) && 1 <= k < |t[d].entries| ensures t[d].entries[k].inum != i {
      assert InodeOk(t, d);
      assert (d, k) !in Links(t, i);
      assert !Names(t, d, k, i);
    }
  }

  lemma {:induction false} NewFileShape(t: Tree, i: nat, kind: Kind)
    requires Shape(t) && 1 <= i < |t| && t[i].kind == Free && kind in {File, Dev}
    ensures Shape(t[i := Inode(kind, 1, [])])
  {
    var t' := t[i := Inode(kind, 1, [])];
    forall d: nat | d < |t'| ensures InodeOk(t', d) {
      assert InodeOk(t, d);
      if d != i && Live(t, d) {
        if d != ROOT { ListedStays(t, t', d); }
        forall k: nat | 2 <= k < |t'[d].entries| ensures ParentOk(t', d, k) { assert ParentOk(t, d, k); }
        forall j: nat, k: nat | 2 <= j < k < |t'[d].entries| ensures TwinOk(t', d, j, k) { assert TwinOk(t, d, j, k); }
      }
    }
  }

  /** A free inode becomes a file with no entry yet. */
  lemma {:induction false} NewFile(t: Tree, pending: multiset<nat>, i: nat, kind: Kind)
    requires Inv(t, pending) && 1 <= i < |t| && t[i].kind == Free && kind in {File, Dev}
    ensures Inv(t[i := Inode(kind, 1, [])], pending + multiset{i}) && i != ROOT
  {
    var t' := t[i := Inode(kind, 1, [])];
    assert InodeOk(t, i);
    FreeUnnamed(t, pending, i);
    assert SameDirs(t, t');
    NewFileShape(t, i, kind);
    forall j: nat | 1 <= j < |t|
      ensures t'[j].nlink == |Links(t', j)| + (pending + multiset{i})[j]
    {
      LinksSame(t, t', j);
      assert t[j].nlink == |Links(t, j)| + pending[j];
    }
  }

  /** mkdir: inode i becomes a directory in dp, which gets an entry for it and a link for its "..". */
  function MakeDir(t: Tree, dp: nat, k: nat, name: string, i: nat): Tree
    requires dp < |t| && i < |t| && dp != i && k <= |t[dp].entries|
  {
    var t1 := t[i := Inode(Dir, 1, [Dirent(i, "."), Dirent(dp, "..")])];
    PutEntry(Bump(t1, dp, 1), dp, k, Dirent(i, name))
  }

  ghost predicate MayAdd(t: Tree, dp: nat, k: nat, name: string)
  {
    && Live(t, dp) && 2 <= k <= |t[dp].entries| && (k < |t[dp].entries| ==> t[dp].entries[k].inum == 0)
    && name != "." && name != ".."
  }

  lemma {:induction false} MakeDirNew(t: Tree, dp: nat, k: nat, name: string, i: nat)
    requires Shape(t) && MayAdd(t, dp, k, name) && 1 <= i < |t| && t[i].kind == Free
    ensures dp != i && i != ROOT && InodeOk(MakeDir(t, dp, k, name, i), i)
  {
    assert InodeOk(t, dp) && InodeOk(t, i);
    var t' := MakeDir(t, dp, k, name, i);
    assert t'[dp].entries[k] == Dirent(i, name);
    assert EntryFor(t', t'[i].entries[1].inum, k, i);
  }

  lemma {:induction false} MakeDirOld(t: Tree, dp: nat, k: nat, name: string, i: nat, c: nat)
    requires Shape(t) && MayAdd(t, dp, k, name) && 1 <= i < |t| && t[i].kind == Free && dp != i && i != ROOT && c < |t|
    requires c != i
    requires forall d: nat, j: nat {:trigger t[d].entries[j]} ::
               Live(t, d) && 1 <= j < |t[d].entries| ==> t[d].entries[j].inum != i
    ensures InodeOk(MakeDir(t, dp, k, name, i), c)
  {
    var t' := MakeDir(t, dp, k, name, i);
    assert InodeOk(t, c) && InodeOk(t, dp);
    if Live(t, c) {
      if c != ROOT { ListedStays(t, t', c); }
      forall j: nat | 2 <= j < |t'[c].entries| ensures ParentOk(t', c, j) { MakeDirParent(t, dp, k, name, i, c, j); }
      forall a: nat, j: nat | 2 <= a < j < |t'[c].entries| ensures TwinOk(t', c, a, j) {
        if !(c == dp && (a == k || j == k)) { assert TwinOk(t, c, a, j); }
      }
    }
  }

  lemma {:induction false} MakeDirParent(t: Tree, dp: nat, k: nat, name: string, i: nat, c: nat, j: nat)
    requires Shape(t) && MayAdd(t, dp, k, name) && 1 <= i < |t| && t[i].kind == Free && dp != i && i != ROOT && c < |t|
    requires c != i && Live(t, c)
    requires forall d: nat, j: nat {:trigger t[d].entries[j]} ::
               Live(t, d) && 1 <= j < |t[d].entries| ==> t[d].entries[j].inum != i
    requires 2 <= j < |MakeDir(t, dp, k, name, i)[c].entries|
    ensures ParentOk(MakeDir(t, dp, k, name, i), c, j)
  {
    assert InodeOk(t, c) && InodeOk(t, dp);
    if !(c == dp && j == k) { assert ParentOk(t, c, j); }
  }

  lemma {:induction false} NewDirLinks(t: Tree, dp: nat, i: nat, t1: Tree, j: nat)
    requires i < |t| && !Live(t, i) && t1 == t[i := Inode(Dir, 1, [Dirent(i, "."), Dirent(dp, "..")])]
    ensures Links(t1, j) == Links(t, j) + (if j == dp then {(i, 1)} else {})
  {
    InLinks(t, j);
    InLinks(t1, j);
    var more := if j == dp then {(i, 1)} else {};
    forall d: nat, a: nat ensures (d, a) in Links(t1, j) <==> (d, a) in Links(t, j) + more {
      assert (d, a) in Links(t1, j) <==> Names(t1, d, a, j);
      assert (d, a) in Links(t, j) <==> Names(t, d, a, j);
    }
  }

  /** The new directory's entry, and its ".." for the parent. */
  lemma {:induction false} MakeDirLinks(t: Tree, dp: nat, k: nat, name: string, i: nat, j: nat)
    requires MayAdd(t, dp, k, name) && 1 <= i < |t| && t[i].kind == Free && dp != i && j >= 1
    ensures |Links(MakeDir(t, dp, k, name, i), j)| ==
            |Links(t, j)| + (if j == i then 1 else 0) + (if j == dp then 1 else 0)
  {
    hide Links;
    var t1 := t[i := Inode(Dir, 1, [Dirent(i, "."), Dirent(dp, "..")])];
    var t2 := Bump(t1, dp, 1);
    NewDirLinks(t, dp, i, t1, j);
    InLinks(t, j);
    assert (i, 1) !in Links(t, j) by { assert !Names(t, i, 1, j); }
    LinksSame(t1, t2, j);
    PutLinks(t2, dp, k, Dirent(i, name), j);
    assert (dp, k) !in Links(t, j) by { assert !Names(t, dp, k, j); }
  }

  lemma {:induction false} MakeDirInv(t: Tree, pending: multiset<nat>, dp: nat, k: nat, name: string, i: nat)
    requires Inv(t, pending) && MayAdd(t, dp, k, name) && 1 <= i < |t| && t[i].kind == Free
    ensures dp != i && Inv(MakeDir(t, dp, k, name, i), pending)
  {
    MakeDirNew(t, dp, k, name, i);
    var t' := MakeDir(t, dp, k, name, i);
    assert InodeOk(t, i);
    FreeUnnamed(t, pending, i);
    forall c: nat | c < |t'| ensures InodeOk(t', c) { if c != i { MakeDirOld(t, dp, k, name, i, c); } }
    forall j: nat | 1 <= j < |t| ensures t'[j].nlink == |Links(t', j)| + pending[j] {
      MakeDirLinks(t, dp, k, name, i, j);
      assert t[j].nlink == |Links(t, j)| + pending[j];
    }
  }

  // ----- sys_unlink -----

  function Cleared(t: Tree, dp: nat, k: nat): Tree
    requires dp < |t| && k <= |t[dp].entries|
  {
    PutEntry(t, dp, k, Dirent(0, ""))
  }

  /** One entry less. */
  lemma {:induction false} ClearCounts(t: Tree, d: nat, k: nat, i: nat)
    requires Shape(t) && Live(t, d) && 2 <= k < |t[d].entries| && t[d].entries[k].inum >= 1 && i >= 1
    ensures |Links(Cleared(t, d, k), i)| == |Links(t, i)| - if t[d].entries[k].inum == i then 1 else 0
  {
    assert InodeOk(t, d);
    PutLinks(t, d, k, Dirent(0, ""), i);
    InLinks(t, i);
    assert (d, k) in Links(t, i) <==> Names(t, d, k, i);
  }

  /** An entry names something: an inode with a link count, so that unlink's panic cannot happen. */
  lemma {:induction false} EntryCounted(t: Tree, pending: multiset<nat>, d: nat, k: nat)
    requires Inv(t, pending) && Live(t, d) && 2 <= k < |t[d].entries| && t[d].entries[k].inum != 0
    ensures var i := t[d].entries[k].inum; 1 <= i < |t| && t[i].nlink >= 1 && t[i].kind != Free && i != ROOT && i != d
  {
    var i := t[d].entries[k].inum;
    assert InodeOk(t, d) && ParentOk(t, d, k);
    InLinks(t, i);
    assert (d, k) in Links(t, i) by { assert Names(t, d, k, i); }
    assert t[i].nlink == |Links(t, i)| + pending[i];
    assert InodeOk(t, i);
  }

  /** unlink of a file or device. */
  lemma {:induction false} UnlinkFileInv(t: Tree, pending: multiset<nat>, dp: nat, k: nat)
    requires Inv(t, pending) && Live(t, dp) && 2 <= k < |t[dp].entries| && t[dp].entries[k].inum != 0
    requires t[dp].entries[k].inum < |t| && t[t[dp].entries[k].inum].kind != Dir
    ensures Inv(Bump(Cleared(t, dp, k), t[dp].entries[k].inum, -1), pending)
  {
    var i := t[dp].entries[k].inum;
    var t1 := Cleared(t, dp, k);
    var t' := Bump(t1, i, -1);
    EntryCounted(t, pending, dp, k);
    forall c: nat | c < |t'| ensures InodeOk(t', c) { UnlinkFileShape(t, dp, k, c); }
    forall j: nat | 1 <= j < |t| ensures t'[j].nlink == |Links(t', j)| + pending[j] {
      ClearCounts(t, dp, k, j);
      LinksSame(t1, t', j);
      assert t[j].nlink == |Links(t, j)| + pending[j];
    }
  }

  lemma {:induction false} UnlinkFileShape(t: Tree, dp: nat, k: nat, c: nat)
    requires Shape(t) && Live(t, dp) && 2 <= k < |t[dp].entries| && c < |t|
    requires var i := t[dp].entries[k].inum; 1 <= i < |t| && t[i].kind in {File, Dev} && i != dp
    ensures InodeOk(Bump(Cleared(t, dp, k), t[dp].entries[k].inum, -1), c)
  {
    var i := t[dp].entries[k].inum;
    var t' := Bump(Cleared(t, dp, k), i, -1);
    assert InodeOk(t, c);
    if Live(t, c) {
      if c != ROOT { ListedStays(t, t', c); }
      forall j: nat | 2 <= j < |t'[c].entries| ensures ParentOk(t', c, j) { assert ParentOk(t, c, j); }
      forall a: nat, j: nat | 2 <= a < j < |t'[c].entries| ensures TwinOk(t', c, a, j) { assert TwinOk(t, c, a, j); }
    }
  }

  /** unlink of an empty directory: its parent loses the link for "..", and the directory its last one. */
  function RemoveDir(t: Tree, dp: nat, k: nat): Tree
    requires dp < |t| && k < |t[dp].entries| && t[dp].entries[k].inum < |t|
  {
    Bump(Bump(Cleared(t, dp, k), dp, -1), t[dp].entries[k].inum, -1)
  }

  /** The links of an empty directory are its one entry. */
  lemma {:induction false} OnlyEntry(t: Tree, dp: nat, k: nat, i: nat)
    requires Shape(t) && Live(t, dp) && 2 <= k < |t[dp].entries| && t[dp].entries[k].inum == i && IsDir(t, i)
    requires Emptied(t[i].entries)
    ensures Links(t, i) == {(dp, k)} && Live(t, i) && |t[i].entries| >= 2 && t[i].entries[1] == Dirent(dp, "..")
    ensures i != dp && i != ROOT
  {
    assert InodeOk(t, dp) && ParentOk(t, dp, k) && InodeOk(t, i);
    InLinks(t, i);
    forall d: nat, a: nat ensures (d, a) in Links(t, i) <==> (d, a) == (dp, k) { EntryOnly(t, dp, k, i, d, a); }
  }

  lemma {:induction false} EntryOnly(t: Tree, dp: nat, k: nat, i: nat, d: nat, a: nat)
    requires Shape(t) && Live(t, dp) && 2 <= k < |t[dp].entries| && t[dp].entries[k].inum == i && IsDir(t, i)
    requires Emptied(t[i].entries)
    ensures Names(t, d, a, i) <==> d == dp && a == k
  {
    assert InodeOk(t, dp) && ParentOk(t, dp, k) && InodeOk(t, i);
    if Live(t, d) {
      assert InodeOk(t, d);
      NotParent(t, i, d);
      if 2 <= a < |t[d].entries| && t[d].entries[a].inum == i {
        assert ParentOk(t, d, a);
        if a < k { TwinsDiffer(t, dp, a, k); }
        if k < a { TwinsDiffer(t, dp, k, a); }
      }
    }
  }

  /** An empty directory is no one's parent. */
  lemma {:induction false} NotParent(t: Tree, i: nat, d: nat)
    requires Shape(t) && Live(t, d) && IsDir(t, i) && i != ROOT && Emptied(t[i].entries)
    ensures |t[d].entries| >= 2 && t[d].entries[1].inum != i
  {
    assert InodeOk(t, d) && InodeOk(t, i);
    if d != ROOT { var k :| EntryFor(t, t[d].entries[1].inum, k, d); }
  }

  lemma {:induction false} TwinsDiffer(t: Tree, d: nat, j: nat, k: nat)
    requires Shape(t) && Live(t, d) && 2 <= j < k < |t[d].entries| && IsDir(t, t[d].entries[j].inum)
    ensures t[d].entries[j].inum != t[d].entries[k].inum
  {
    assert InodeOk(t, d) && TwinOk(t, d, j, k);
  }

  lemma {:induction false} ClearedLinks(t: Tree, dp: nat, k: nat, i: nat, t': Tree, j: nat)
    requires Shape(t) && Live(t, dp) && 2 <= k < |t[dp].entries| && t[dp].entries[k].inum == i && IsDir(t, i)
    requires Emptied(t[i].entries)
    requires t[i].nlink == 1 && t[dp].nlink >= 2 && t' == RemoveDir(t, dp, k) && j >= 1
    ensures |Links(t', j)| == |Links(t, j)| - (if j == i then 1 else 0) - (if j == dp then 1 else 0)
  {
    hide Links;
    OnlyEntry(t, dp, k, i);
    InLinks(t, j);
    InLinks(t', j);
    assert InodeOk(t, i) && InodeOk(t, dp);
    var less := (if j == i then {(dp, k)} else {}) + (if j == dp then {(i, 1)} else {});
    assert less <= Links(t, j) by {
      assert Names(t, dp, k, i) && Names(t, i, 1, dp);
    }
    forall d: nat, a: nat ensures (d, a) in Links(t', j) <==> (d, a) in Links(t, j) - less {
      RemovedNames(t, dp, k, i, t', j, d, a);
      assert (d, a) in Links(t', j) <==> Names(t', d, a, j);
      assert (d, a) in Links(t, j) <==> Names(t, d, a, j);
    }
    Pairwise(Links(t', j), Links(t, j) - less);
  }

  lemma {:induction false} Pairwise(a: set<(nat, nat)>, b: set<(nat, nat)>)
    requires forall d: nat, k: nat {:trigger (d, k) in a} :: (d, k) in a <==> (d, k) in b
    ensures a == b
  {
    forall x | x in a ensures x in b { assert (x.0, x.1) in a; }
    forall x | x in b ensures x in a { assert (x.0, x.1) in a; }
  }

  lemma {:induction false} RemovedNames(t: Tree, dp: nat, k: nat, i: nat, t': Tree, j: nat, d: nat, a: nat)
    requires Shape(t) && Live(t, dp) && 2 <= k < |t[dp].entries| && t[dp].entries[k].inum == i && IsDir(t, i)
    requires Emptied(t[i].entries)
    requires t[i].nlink == 1 && t[dp].nlink >= 2 && t' == RemoveDir(t, dp, k) && j >= 1
    ensures Names(t', d, a, j)
            <==> Names(t, d, a, j) && !(j == i && d == dp && a == k) && !(j == dp && d == i && a == 1)
  {
    OnlyEntry(t, dp, k, i);
    assert InodeOk(t, i) && InodeOk(t, dp);
    assert t'[i].nlink == 0 && !Live(t', i);
    if d == i && Names(t, d, a, j) { assert a == 1 && j == dp; }
  }

  lemma {:induction false} RemoveShape(t: Tree, dp: nat, k: nat, i: nat, t': Tree, c: nat)
    requires Shape(t) && Live(t, dp) && 2 <= k < |t[dp].entries| && t[dp].entries[k].inum == i && IsDir(t, i)
    requires Emptied(t[i].entries)
    requires t[i].nlink == 1 && t[dp].nlink >= 2 && t' == RemoveDir(t, dp, k) && c < |t|
    ensures InodeOk(t', c)
  {
    OnlyEntry(t, dp, k, i);
    assert InodeOk(t, c) && InodeOk(t, dp);
    if c != i && Live(t, c) {
      EntryOnly(t, dp, k, i, c, 1);
      if c != ROOT { RemoveListed(t, dp, k, i, t', c); }
      forall j: nat | 2 <= j < |t'[c].entries| ensures ParentOk(t', c, j) {
        assert ParentOk(t, c, j);
        EntryOnly(t, dp, k, i, c, j);
      }
      forall a: nat, j: nat | 2 <= a < j < |t'[c].entries| ensures TwinOk(t', c, a, j) { assert TwinOk(t, c, a, j); }
    }
  }

  lemma {:induction false} RemoveListed(t: Tree, dp: nat, k: nat, i: nat, t': Tree, c: nat)
    requires dp < |t| && k < |t[dp].entries| && t[dp].entries[k].inum == i && i < |t| && t' == RemoveDir(t, dp, k)
    requires c < |t| && c != i && i != dp && Listed(t, c) && t[c].entries[1].inum != i && t[dp].nlink >= 2 && 2 <= k
    ensures Listed(t', c)
  {
    var j :| EntryFor(t, t[c].entries[1].inum, j, c);
    assert EntryFor(t', t'[c].entries[1].inum, j, c);
  }

  /** A directory with a subdirectory has at least two links: one of its own and one for the "..". */
  lemma {:induction false} TwoLinks(t: Tree, pending: multiset<nat>, dp: nat, k: nat, i: nat)
    requires Inv(t, pending) && Live(t, dp) && 2 <= k < |t[dp].entries| && t[dp].entries[k].inum == i && IsDir(t, i)
    requires Emptied(t[i].entries)
    ensures t[i].nlink == 1 && t[dp].nlink >= 2
  {
    OnlyEntry(t, dp, k, i);
    assert InodeOk(t, dp) && InodeOk(t, i);
    assert t[i].nlink == |Links(t, i)| + pending[i];
    assert t[dp].nlink == |Links(t, dp)| + pending[dp];
    assert pending[i] == 0 && pending[dp] == 0;
    InLinks(t, dp);
    assert (i, 1) in Links(t, dp) by { assert Names(t, i, 1, dp); }
    var other := DpLink(t, dp);
    assert {(i, 1), other} <= Links(t, dp);
    Two(Links(t, dp), (i, 1), other);
  }

  lemma {:induction false} Two(s: set<(nat, nat)>, x: (nat, nat), y: (nat, nat))
    requires x in s && y in s && x != y
    ensures |s| >= 2
  {
    assert {x, y} <= s;
    assert |s - {x, y}| == |s| - 2;
  }

  /** The entry for dp in its parent, or the root's own "..". */
  lemma {:induction false} DpLink(t: Tree, dp: nat) returns (x: (nat, nat))
    requires Shape(t) && Live(t, dp)
    ensures x in Links(t, dp) && (x == (ROOT, 1) || x.1 >= 2)
  {
    assert InodeOk(t, dp);
    InLinks(t, dp);
    if dp == ROOT {
      x := (ROOT, 1);
      assert Names(t, ROOT, 1, ROOT);
    } else {
      var p := t[dp].entries[1].inum;
      var k :| EntryFor(t, p, k, dp);
      assert InodeOk(t, p);
      x := (p, k);
      assert Names(t, p, k, dp);
    }
  }

  lemma {:induction false} RemoveDirInv(t: Tree, pending: multiset<nat>, dp: nat, k: nat, i: nat)
    requires Inv(t, pending) && Live(t, dp) && 2 <= k < |t[dp].entries| && t[dp].entries[k].inum == i && IsDir(t, i)
    requires Emptied(t[i].entries)
    ensures Inv(RemoveDir(t, dp, k), pending) && RemoveDir(t, dp, k)[i].nlink == 0
  {
    var t' := RemoveDir(t, dp, k);
    TwoLinks(t, pending, dp, k, i);
    OnlyEntry(t, dp, k, i);
    forall c: nat | c < |t'| ensures InodeOk(t', c) { RemoveShape(t, dp, k, i, t', c); }
    assert Live(t', ROOT);
    forall j: nat | 1 <= j < |t| ensures t'[j].nlink == |Links(t', j)| + pending[j] {
      ClearedLinks(t, dp, k, i, t', j);
      assert t[j].nlink == |Links(t, j)| + pending[j];
    }
  }

  // ----- iput -----

  /** An inode without links and references is freed. */
  lemma {:induction false} FreeInv(t: Tree, pending: multiset<nat>, i: nat)
    requires Inv(t, pending) && 1 <= i < |t| && t[i].nlink == 0
    ensures Inv(t[i := Inode(Free, 0, [])], pending)
  {
    var t' := t[i := Inode(Free, 0, [])];
    FreeUnnamed(t, pending, i);
    assert SameDirs(t, t');
    forall c: nat | c < |t'| ensures InodeOk(t', c) {
      assert InodeOk(t, c);
      if c != i && Live(t, c) {
        if c != ROOT { ListedStays(t, t', c); }
        forall j: nat | 2 <= j < |t'[c].entries| ensures ParentOk(t', c, j) { assert ParentOk(t, c, j); }
        forall a: nat, j: nat | 2 <= a < j < |t'[c].entries| ensures TwinOk(t', c, a, j) { assert TwinOk(t, c, a, j); }
      }
    }
    forall j: nat | 1 <= j < |t|
      ensures t'[j].nlink == |Links(t', j)| + pending[j]
    {
      LinksSame(t, t', j);
      assert t[j].nlink == |Links(t, j)| + pending[j];
    }
  }

  /** NO DANGLING ENTRY. An entry of a live directory names an inode that is allocated. */
  lemma {:induction false} NoDangling(t: Tree, pending: multiset<nat>, d: nat, k: nat)
    requires Inv(t, pending) && Live(t, d) && k < |t[d].entries| && t[d].entries[k].inum != 0
    ensures t[d].entries[k].inum < |t| && t[t[d].entries[k].inum].kind != Free
  {
    assert InodeOk(t, d);
    if k >= 2 { EntryCounted(t, pending, d, k); }
  }
}
