/** The disk image refines a tree of named files: every fisopfs operation does to the paths
    and bytes what the tree operation does, with the same result, and the runs agree
    (TP3-fisopfs/fisopfs.c). */
module FsRefine {
  import opened Fs
  import opened FsLinks
  import opened FsOps

  // ----- counting inodes and entries -----

  ghost function PathsUpTo(d: Disk, k: nat): set<string>
  {
    set i | 0 <= i < k && Occupied(d, i) :: d.inodes[i].path
  }

  lemma PathsStep(d: Disk, k: nat)
    requires |d.used| == |d.inodes| && PathsDistinct(d) && k < |d.used|
    ensures PathsUpTo(d, 0) == {}
    ensures d.used[k] ==> PathsUpTo(d, k + 1) == PathsUpTo(d, k) + {d.inodes[k].path}
    ensures d.used[k] ==> d.inodes[k].path !in PathsUpTo(d, k)
    ensures !d.used[k] ==> PathsUpTo(d, k + 1) == PathsUpTo(d, k)
  {
    if d.used[k] {
      assert Occupied(d, k);
    }
  }

  lemma {:induction false} CountPaths(d: Disk, k: nat)
    requires |d.used| == |d.inodes| > 0 && PathsDistinct(d) && k <= |d.used|
    ensures |PathsUpTo(d, k)| <= k
    ensures |PathsUpTo(d, k)| == k <==> forall i :: 0 <= i < k ==> d.used[i]
  {
    hide PathsUpTo, PathsDistinct;
    if k == 0 {
      PathsStep(d, 0);
    } else {
      CountPaths(d, k - 1);
      PathsStep(d, k - 1);
    }
  }

  lemma KeysArePaths(d: Disk)
    requires Inv(d)
    ensures TreeOf(d).Keys == PathsUpTo(d, |d.used|)
  {
    hide InodesOk, EntriesOk, EntriesOnce, AllReached, DotDotOk;
    var t := TreeOf(d);
    forall i | Occupied(d, i) ensures d.inodes[i].path in t {
      TreeAt(d, i);
    }
  }

  /** No inode is free exactly when the tree has as many paths as there are inodes. */
  lemma FullIff(d: Disk)
    requires Inv(d)
    ensures FreeFrom(d.used, 0) < 0 <==> |TreeOf(d)| == |d.used|
    ensures |TreeOf(d)| <= |d.used|
  {
    hide TreeOf, PathsUpTo, InodesOk, EntriesOk, EntriesOnce, AllReached, DotDotOk;
    Lengths(d);
    KeysArePaths(d);
    assert |TreeOf(d)| == |TreeOf(d).Keys|;
    CountPaths(d, |d.used|);
  }

  ghost function ChildPaths(d: Disk, p: nat, n: int): set<string>
    requires IsDir(d, p)
  {
    set s | Dots(d.inodes[p].path) <= s < n && Child(d, p, s) < |d.inodes| :: d.inodes[Child(d, p, s)].path
  }

  lemma ChildPathsStep(d: Disk, p: nat, n: int)
    requires Inv(d) && IsDir(d, p) && Dots(d.inodes[p].path) <= n < Live(d.inodes[p])
    ensures Child(d, p, n) < |d.inodes|
    ensures ChildPaths(d, p, n + 1) == ChildPaths(d, p, n) + {d.inodes[Child(d, p, n)].path}
    ensures d.inodes[Child(d, p, n)].path !in ChildPaths(d, p, n)
  {
    hide InodesOk, TableOk, Dots, Live, AllReached, DotDotOk, Parent;
    TableFacts(d, p);
    assert Holds(d, p, n) && NamesChild(d, p, n);
    forall s | Dots(d.inodes[p].path) <= s < n && Child(d, p, s) < |d.inodes|
      ensures d.inodes[Child(d, p, s)].path != d.inodes[Child(d, p, n)].path {
      assert Holds(d, p, s) && NamesChild(d, p, s);
    }
  }

  lemma {:induction false} CountChildPaths(d: Disk, p: nat, n: int)
    requires Inv(d) && IsDir(d, p) && Dots(d.inodes[p].path) <= n <= Live(d.inodes[p])
    ensures |ChildPaths(d, p, n)| == n - Dots(d.inodes[p].path)
    decreases n
  {
    hide Inv, Dots, Live, ChildPaths;
    if n > Dots(d.inodes[p].path) {
      CountChildPaths(d, p, n - 1);
      ChildPathsStep(d, p, n - 1);
    } else {
      assert ChildPaths(d, p, n) == {} by {
        NoChildPaths(d, p);
      }
    }
  }

  lemma NoChildPaths(d: Disk, p: nat)
    requires IsDir(d, p)
    ensures ChildPaths(d, p, Dots(d.inodes[p].path)) == {}
  {
  }

  lemma EntryIsChild(d: Disk, p: nat, s: int)
    requires Inv(d) && Holds(d, p, s)
    ensures Child(d, p, s) < |d.inodes|
    ensures d.inodes[Child(d, p, s)].path in Children(TreeOf(d), d.inodes[p].path)
  {
    hide TableOk, Dots, Live, AllReached, DotDotOk, Parent, WellFormed, TreeOf;
    assert NamesChild(d, p, s);
    var c := Child(d, p, s);
    TreeAt(d, c);
    TableFacts(d, p);
    assert InodeOk(d.inodes[c], c);
    SplitJoin(d.inodes[c].path);
  }

  lemma ChildHasEntry(d: Disk, p: nat, q: string) returns (s: int)
    requires Inv(d) && IsDir(d, p) && q in Children(TreeOf(d), d.inodes[p].path)
    ensures Holds(d, p, s) && Child(d, p, s) < |d.inodes| && d.inodes[Child(d, p, s)].path == q
  {
    hide TableOk, Dots, Live, AllReached, DotDotOk, Parent, WellFormed, TreeOf;
    var c := TreeSource(d, q);
    assert InodeOk(d.inodes[c], c) && c != 0;
    var i;
    i, s := OneEntryEach(d, c);
    assert NamesChild(d, i, s) && i == p;
  }

  lemma ChildPathsAre(d: Disk, p: nat)
    requires Inv(d) && IsDir(d, p)
    ensures ChildPaths(d, p, Live(d.inodes[p])) == Children(TreeOf(d), d.inodes[p].path)
  {
    hide InodesOk, PathsDistinct, EntriesOk, EntriesOnce, AllReached, DotDotOk;
    hide TableOk, Dots, Live, Children, TreeOf, Child;
    TableFacts(d, p);
    forall s | Dots(d.inodes[p].path) <= s < Live(d.inodes[p])
      ensures Child(d, p, s) < |d.inodes|
      ensures d.inodes[Child(d, p, s)].path in Children(TreeOf(d), d.inodes[p].path) {
      EntryIsChild(d, p, s);
    }
    forall q | q in Children(TreeOf(d), d.inodes[p].path) ensures q in ChildPaths(d, p, Live(d.inodes[p])) {
      var s := ChildHasEntry(d, p, q);
    }
  }

  /** The table of a directory is full exactly when the tree gives it as many children as
      there is room for: fifteen in the root, fourteen right under it, thirteen deeper. */
  lemma RoomIff(d: Disk, p: nat)
    requires Inv(d) && IsDir(d, p)
    ensures Live(d.inodes[p]) == MAX_DIR_ENTRIES <==>
      |Children(TreeOf(d), d.inodes[p].path)| == Room(d.inodes[p].path)
    ensures Live(d.inodes[p]) == Dots(d.inodes[p].path) <==> Children(TreeOf(d), d.inodes[p].path) == {}
    ensures EmptySlotFrom(d.inodes[p].slots, 0) ==
      if Live(d.inodes[p]) < MAX_DIR_ENTRIES then Live(d.inodes[p]) else -1
  {
    hide TableOk, Dots, Live, EntriesOk, EntriesOnce, AllReached, DotDotOk, Parent, WellFormed, TreeOf;
    TableFacts(d, p);
    CountChildPaths(d, p, Live(d.inodes[p]));
    ChildPathsAre(d, p);
    var s := EmptySlotFrom(d.inodes[p].slots, 0);
    assert s >= 0 ==> Child(d, p, s) == 0;
    assert Live(d.inodes[p]) < MAX_DIR_ENTRIES ==> Child(d, p, Live(d.inodes[p])) == 0;
  }

  // ----- create and mkdir -----

  function Fresh(c: nat, p: nat, path: string, kind: Kind): Inode
  {
    if kind.DirT? then WithDots(NewInode(c, path, kind), c, p) else NewInode(c, path, kind)
  }

  lemma FreshFile(c: nat, path: string)
    requires WellFormed(path) && c != 0
    ensures InodeOk(NewInode(c, path, RegT), c) && NewInode(c, path, RegT).path == path
    ensures NodeOf(NewInode(c, path, RegT)) == File([])
  {
    hide TableOk;
  }

  lemma FreshDir(c: nat, p: nat, path: string)
    requires WellFormed(path) && c != 0 && (Parent(path) == ROOT <==> p == 0)
    ensures var ino := WithDots(NewInode(c, path, DirT), c, p);
      && InodeOk(ino, c) && ino.path == path && NodeOf(ino) == Dir
      && Live(ino) == Dots(path) && (Dots(path) == 2 ==> ino.slots[1].inodo == p)
  {
    hide BytesOk, Parent;
    SplitJoin(path);
    var ino := WithDots(NewInode(c, path, DirT), c, p);
    assert ino.path == path;
    assert TableOk(ino) by {
      hide WellFormed;
    }
  }

  lemma FreshOk(d: Disk, c: nat, p: nat, path: string, kind: Kind)
    requires Inv(d) && WellFormed(path) && IsDir(d, p) && Parent(path) == d.inodes[p].path
    requires c != 0
    ensures var ino := Fresh(c, p, path, kind);
      && ino.path == path && InodeOk(ino, c)
      && (kind.DirT? ==> Live(ino) == Dots(ino.path) && (Dots(ino.path) == 2 ==> ino.slots[1].inodo == p))
    ensures NodeOf(Fresh(c, p, path, kind)) == if kind.DirT? then Dir else File([])
  {
    hide EntriesOk, EntriesOnce, AllReached, DotDotOk, Parent, TreeOf;
    hide WellFormed, InodeOk, TableOk, Live, Dots, NewInode;
    Lengths(d);
    TableFacts(d, p);
    if kind.DirT? {
      assert Parent(path) == ROOT <==> p == 0 by {
        RootIsZero(d, p);
      }
      FreshDir(c, p, path);
    } else {
      FreshFile(c, path);
    }
  }

  lemma RootIsZero(d: Disk, p: nat)
    requires Inv(d) && IsDir(d, p)
    ensures d.inodes[p].path == ROOT <==> p == 0
  {
    hide EntriesOk, EntriesOnce, AllReached, DotDotOk;
    Lengths(d);
    assert InodeOk(d.inodes[p], p);
  }

  lemma FreshLinkable(d: Disk, c: nat, p: nat, path: string, kind: Kind)
    requires Inv(d) && WellFormed(path) && IsDir(d, p) && Parent(path) == d.inodes[p].path
    requires c < |d.used| && !d.used[c] && Live(d.inodes[p]) < MAX_DIR_ENTRIES && path !in TreeOf(d)
    ensures Linkable(d, c, p, Fresh(c, p, path, kind))
  {
    hide InodesOk, PathsDistinct, EntriesOk, EntriesOnce, AllReached, DotDotOk, Parent, TreeOf;
    hide WellFormed, InodeOk, Live, Dots, Fresh, TableOk;
    Lengths(d);
    TableFacts(d, p);
    FreshOk(d, c, p, path, kind);
    forall i | Occupied(d, i) ensures d.inodes[i].path != path {
      TreeAt(d, i);
    }
  }

  lemma MakeLinks(d: Disk, path: string, kind: Kind)
    requires Inv(d) && WellFormed(path)
    requires TreeMake(TreeOf(d), path, Dir, |d.used|).1 == OK && !Overflows(TreeOf(d), path, |d.used|)
    ensures Make(d, path, kind).1 == OK
    ensures ParentDir(d, path).0 == OK && FreeFrom(d.used, 0) >= 0
    ensures var c, p := FreeFrom(d.used, 0), ParentDir(d, path).1;
      && Linkable(d, c, p, Fresh(c, p, path, kind))
      && TableOk(d.inodes[p])
      && Make(d, path, kind).0 == Linked(d, c, p, Fresh(c, p, path, kind))
  {
    hide InodesOk, PathsDistinct, EntriesOk, EntriesOnce, AllReached, DotDotOk,
      TableOk, Live, Dots, Parent, WellFormed, TreeOf, Name, Find;
    Lengths(d);
    ParentInTree(d, path);
    var (err, p) := ParentDir(d, path);
    TableFacts(d, p);
    EntryIsPath(d, p, path, MAX_DIR_ENTRIES);
    FullIff(d);
    RoomIff(d, p);
    var c := FreeFrom(d.used, 0);
    assert c != p;
    FreshLinkable(d, c, p, path, kind);
  }

  /** The exception: the table is full, and the inode taken for the node stays occupied while
      no entry names it. */
  lemma OverflowBreaks(d: Disk, path: string, kind: Kind)
    requires Inv(d) && WellFormed(path) && Overflows(TreeOf(d), path, |d.used|)
    ensures Make(d, path, kind).1 == if kind.DirT? then EPERM else ENOSPC
    ensures exists c :: Occupied(Make(d, path, kind).0, c) && !Occupied(d, c) && !Reached(Make(d, path, kind).0, c)
    ensures !Inv(Make(d, path, kind).0)
  {
    hide InodesOk, PathsDistinct, EntriesOnce, DotDotOk, Live, Dots, Parent, WellFormed, TreeOf, Name, Find;
    Lengths(d);
    ParentInTree(d, path);
    var (err, p) := ParentDir(d, path);
    TableFacts(d, p);
    EntryIsPath(d, p, path, MAX_DIR_ENTRIES);
    FullIff(d);
    RoomIff(d, p);
    var c := FreeFrom(d.used, 0);
    var e := Make(d, path, kind).0;
    assert e == Disk(d.used[c := true], d.inodes[c := NewInode(c, path, kind)]);
    forall i, s | Holds(e, i, s) ensures Child(e, i, s) != c {
      if i != c {
        assert Holds(d, i, s) && NamesChild(d, i, s);
      }
    }
    assert Occupied(e, c) && !Reached(e, c);
  }

  function NodeFor(kind: Kind): Node
  {
    if kind.DirT? then Dir else File([])
  }

  /** create and mkdir: unless the parent's table is full they are the tree operation, with
      the same errors in the same order, and keep both views in agreement. */
  lemma MakeRefines(d: Disk, path: string, kind: Kind)
    requires Inv(d) && WellFormed(path)
    ensures Inv(Make(d, path, kind).0) <==> !Overflows(TreeOf(d), path, |d.used|)
    ensures !Overflows(TreeOf(d), path, |d.used|) ==>
      (TreeOf(Make(d, path, kind).0), Make(d, path, kind).1) == TreeMake(TreeOf(d), path, NodeFor(kind), |d.used|)
    ensures |Make(d, path, kind).0.used| == |d.used|
  {
    hide InodesOk, PathsDistinct, EntriesOk, EntriesOnce, AllReached, DotDotOk;
    hide TreeOf, Name, Parent, WellFormed, Fresh, Linkable, TableOk, Live;
    Lengths(d);
    ParentInTree(d, path);
    FullIff(d);
    if Overflows(TreeOf(d), path, |d.used|) {
      OverflowBreaks(d, path, kind);
    } else if TreeMake(TreeOf(d), path, NodeFor(kind), |d.used|).1 == OK {
      MakeLinks(d, path, kind);
      var c, p := FreeFrom(d.used, 0), ParentDir(d, path).1;
      LinkedTree(d, c, p, Fresh(c, p, path, kind));
      FreshOk(d, c, p, path, kind);
    } else if TreeParent(TreeOf(d), path) == OK {
      var p := ParentDir(d, path).1;
      TableFacts(d, p);
      EntryIsPath(d, p, path, MAX_DIR_ENTRIES);
    }
  }

  // ----- unlink and rmdir -----

  /** The parent of an occupied path is a directory, and its table has the entry. */
  lemma HasEntry(d: Disk, c: nat) returns (p: int, s: int)
    requires Inv(d) && Occupied(d, c) && c != 0
    ensures ParentDir(d, d.inodes[c].path) == (OK, p) && p != c
    ensures Holds(d, p, s) && Child(d, p, s) == c && s == EntryOf(d, p, Name(d.inodes[c].path))
    ensures s < d.inodes[p].tam / ENTRY_SIZE
  {
    hide InodesOk, EntriesOk, EntriesOnce, AllReached, DotDotOk;
    hide Parent, Name, WellFormed, BytesOk, TreeOf, Dots;
    var path := d.inodes[c].path;
    p, s := OneEntryEach(d, c);
    Lengths(d);
    ParentIs(d, c, p, s);
    FindInTree(d, Parent(path));
    FindInTree(d, path);
    TreeAt(d, c);
    TableFacts(d, p);
    EntryIsPath(d, p, path, d.inodes[p].tam / ENTRY_SIZE);
  }

  lemma NoEntriesIff(d: Disk, c: nat)
    requires Inv(d) && IsDir(d, c)
    ensures |d.inodes[c].slots| >= MAX_DIR_ENTRIES
    ensures OnlyDots(d.inodes[c]) <==> Children(TreeOf(d), d.inodes[c].path) == {}
    ensures OnlyDots(d.inodes[c]) <==> forall s :: !Holds(d, c, s)
  {
    hide Parent, BytesOk, TreeOf, EntriesOnce, AllReached, DotDotOk;
    TableFacts(d, c);
    RoomIff(d, c);
    var dots := Dots(d.inodes[c].path);
    if dots < Live(d.inodes[c]) {
      assert Holds(d, c, dots) && NamesChild(d, c, dots);
      var k := Child(d, c, dots);
      assert InodeOk(d.inodes[k], k);
    } else {
      forall s | 0 <= s < MAX_DIR_ENTRIES && Child(d, c, s) != 0
        ensures d.inodes[c].slots[s].nombre == "." || d.inodes[c].slots[s].nombre == ".." {
        assert s < dots;
      }
    }
  }

  lemma UnlinkRefines(d: Disk, path: string)
    requires Inv(d)
    ensures Inv(Unlink(d, path).0) && |Unlink(d, path).0.used| == |d.used|
    ensures (TreeOf(Unlink(d, path).0), Unlink(d, path).1) == TreeUnlink(TreeOf(d), path)
  {
    hide InodesOk, PathsDistinct, EntriesOk, EntriesOnce, AllReached, DotDotOk;
    hide TreeOf, Name, Parent, Live, Dots, EntryOf;
    Lengths(d);
    ParentInTree(d, path);
    FindInTree(d, path);
    if ParentDir(d, path).0 == OK && path in TreeOf(d) && TreeOf(d)[path].File? {
      var c := Find(d, path);
      var p, s := HasEntry(d, c);
      assert forall t :: !Holds(d, c, t);
      TableFacts(d, p);
      assert Unlink(d, path).0 == Unlinked(d, c, p, s);
      UnlinkedTree(d, c, p, s);
    }
  }

  /** rmdir: the tree operation; EIO, its error for a missing entry, never comes back. */
  lemma RmdirRefines(d: Disk, path: string)
    requires Inv(d)
    ensures Inv(Rmdir(d, path).0) && |Rmdir(d, path).0.used| == |d.used|
    ensures (TreeOf(Rmdir(d, path).0), Rmdir(d, path).1) == TreeRmdir(TreeOf(d), path)
    ensures Rmdir(d, path).1 != EIO
  {
    hide InodesOk, PathsDistinct, EntriesOk, EntriesOnce, AllReached, DotDotOk;
    hide TreeOf, Name, Parent, Live, Dots, EntryOf, OnlyDots;
    Lengths(d);
    FindInTree(d, path);
    if path != ROOT && path in TreeOf(d) && TreeOf(d)[path].Dir? {
      var c := Find(d, path);
      NoEntriesIff(d, c);
      var p, s := HasEntry(d, c);
      if OnlyDots(d.inodes[c]) {
        TableFacts(d, p);
        assert Rmdir(d, path).0 == Unlinked(d, c, p, s);
        UnlinkedTree(d, c, p, s);
      }
    }
  }
}
