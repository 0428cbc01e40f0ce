/** Linking a new inode into its parent's table and unlinking one keep the two views of the
    fisopfs tree in agreement (TP3-fisopfs/fs.c). */
module FsLinks {
  import opened Fs

  lemma ParentIs(d: Disk, c: nat, p: int, s: int)
    requires Inv(d) && Occupied(d, c) && c != 0 && Holds(d, p, s) && Child(d, p, s) == c
    ensures d.inodes[p].path == Parent(d.inodes[c].path) && p != c && WellFormed(d.inodes[c].path)
  {
    hide Dots, Live, TableOk, BytesOk;
    assert NamesChild(d, p, s) && InodeOk(d.inodes[c], c);
    SplitJoin(d.inodes[c].path);
  }

  /** Filling the first empty slot: the table keeps its shape and grows by one. */
  lemma AddedTable(dir: Inode, child: nat, name: string)
    requires TableOk(dir) && Live(dir) < MAX_DIR_ENTRIES && child != 0
    ensures TableOk(Added(dir, Live(dir), child, name))
    ensures Live(Added(dir, Live(dir), child, name)) == Live(dir) + 1
    ensures forall s :: 0 <= s <= MAX_DIR_ENTRIES ==>
      Added(dir, Live(dir), child, name).slots[s] == if s == Live(dir) then Entry(child, name) else dir.slots[s]
  {
    hide Dots, Parent;
  }

  /** Taking out a slot after the dots: the table keeps its shape and shrinks by one. */
  lemma RemovedTable(dir: Inode, s: nat)
    requires TableOk(dir) && Dots(dir.path) <= s < Live(dir)
    ensures TableOk(Removed(dir, s)) && Live(Removed(dir, s)) == Live(dir) - 1
    ensures forall t :: 0 <= t < Live(dir) - 1 ==> Removed(dir, s).slots[t] == dir.slots[if t < s then t else t + 1]
  {
    hide Dots, Parent;
    var n := dir.tam / ENTRY_SIZE;
    assert Live(dir) <= n;
  }

  function Linked(d: Disk, c: nat, p: nat, ino: Inode): Disk
    requires |d.used| == |d.inodes| && c < |d.used| && p < |d.used|
    requires TableOk(d.inodes[p]) && Live(d.inodes[p]) < MAX_DIR_ENTRIES
  {
    Disk(d.used[c := true],
         d.inodes[c := ino][p := Added(d.inodes[p], Live(d.inodes[p]), c, ino.nombre)])
  }

  /** What a node that is about to be linked looks like: a file or a directory with only dots. */
  ghost predicate Linkable(d: Disk, c: int, p: int, ino: Inode)
  {
    && Inv(d) && 0 <= c < |d.used| && !d.used[c] && c != 0
    && |d.used| == |d.inodes| && IsDir(d, p) && TableOk(d.inodes[p]) && Live(d.inodes[p]) < MAX_DIR_ENTRIES
    && InodeOk(ino, c) && Parent(ino.path) == d.inodes[p].path
    && (forall i :: Occupied(d, i) ==> d.inodes[i].path != ino.path)
    && (ino.tipo.DirT? ==> Live(ino) == Dots(ino.path) && (Dots(ino.path) == 2 ==> ino.slots[1].inodo == p))
  }

  lemma LinkInodes(d: Disk, c: nat, p: nat, ino: Inode)
    requires Linkable(d, c, p, ino)
    ensures InodesOk(Linked(d, c, p, ino)) && PathsDistinct(Linked(d, c, p, ino))
  {
    hide EntriesOk, EntriesOnce, AllReached, DotDotOk, WellFormed, Dots, Parent, Live, TableOk, BytesOk;
    var e := Linked(d, c, p, ino);
    assert InodeOk(d.inodes[p], p);
    AddedTable(d.inodes[p], c, ino.nombre);
    forall i | Occupied(e, i) ensures InodeOk(e.inodes[i], i) {
      assert i != c ==> Occupied(d, i);
    }
    forall i, j | Occupied(e, i) && Occupied(e, j) && e.inodes[i].path == e.inodes[j].path ensures i == j {
      assert i != c ==> Occupied(d, i);
      assert j != c ==> Occupied(d, j);
    }
  }

  lemma Lengths(d: Disk)
    requires Inv(d)
    ensures |d.used| == |d.inodes| > 0 && d.used[0] && d.inodes[0].path == ROOT && IsDir(d, 0)
  {
    hide EntriesOk, EntriesOnce, AllReached, DotDotOk, WellFormed, TableOk;
    assert InodeOk(d.inodes[0], 0);
  }

  lemma TableFacts(d: Disk, i: int)
    requires InodesOk(d) && IsDir(d, i)
    ensures |d.used| == |d.inodes| && InodeOk(d.inodes[i], i) && TableOk(d.inodes[i])
    ensures |d.inodes[i].slots| == MAX_DIR_ENTRIES + 1
    ensures 0 <= Dots(d.inodes[i].path) <= Live(d.inodes[i]) <= MAX_DIR_ENTRIES
    ensures forall s :: 0 <= s <= MAX_DIR_ENTRIES ==> (Child(d, i, s) != 0 <==> s < Live(d.inodes[i]))
    ensures forall s :: 0 <= s <= MAX_DIR_ENTRIES ==> Child(d, i, s) == d.inodes[i].slots[s].inodo
  {
    hide WellFormed, BytesOk, Dots, Live;
    assert InodeOk(d.inodes[i], i);
  }

  /** The entries afterwards are those of before and the new one. */
  lemma {:induction false} LinkHolds(d: Disk, c: nat, p: nat, ino: Inode, i: int, s: int)
    requires Linkable(d, c, p, ino)
    ensures Holds(Linked(d, c, p, ino), i, s) <==> Holds(d, i, s) || (i == p && s == Live(d.inodes[p]))
    ensures Child(Linked(d, c, p, ino), p, Live(d.inodes[p])) == c
  {
    hide EntriesOk, EntriesOnce, AllReached, DotDotOk, WellFormed, Dots, Parent, Live, TableOk, BytesOk;
    LinkInodes(d, c, p, ino);
    TableFacts(d, p);
    AddedTable(d.inodes[p], c, ino.nombre);
    var e := Linked(d, c, p, ino);
    assert c != p && e.inodes[p].path == d.inodes[p].path;
    if IsDir(e, i) && i != c {
      TableFacts(d, i);
    }
  }

  lemma LinkChild(d: Disk, c: nat, p: nat, ino: Inode, i: int, s: int)
    requires Linkable(d, c, p, ino) && Holds(d, i, s)
    ensures 0 <= s < |d.inodes[i].slots| == |Linked(d, c, p, ino).inodes[i].slots|
    ensures Linked(d, c, p, ino).inodes[i].slots[s] == d.inodes[i].slots[s]
    ensures Child(Linked(d, c, p, ino), i, s) == Child(d, i, s)
    ensures Child(d, i, s) != c && i != c
  {
    hide EntriesOnce, AllReached, DotDotOk, WellFormed, Dots, Parent, Live, TableOk, BytesOk;
    TableFacts(d, p);
    TableFacts(d, i);
    AddedTable(d.inodes[p], c, ino.nombre);
    assert NamesChild(d, i, s);
  }

  lemma LinkEntries(d: Disk, c: nat, p: nat, ino: Inode)
    requires Linkable(d, c, p, ino)
    ensures EntriesOk(Linked(d, c, p, ino)) && EntriesOnce(Linked(d, c, p, ino))
  {
    hide AllReached, DotDotOk, WellFormed, Dots, Parent, Name, TableOk, Live, BytesOk;
    var e := Linked(d, c, p, ino);
    LinkInodes(d, c, p, ino);
    assert InodeOk(d.inodes[p], p);
    AddedTable(d.inodes[p], c, ino.nombre);
    forall i, s | Holds(e, i, s) ensures NamesChild(e, i, s) {
      LinkHolds(d, c, p, ino, i, s);
      if Holds(d, i, s) {
        LinkChild(d, c, p, ino, i, s);
        assert NamesChild(d, i, s);
      }
    }
    forall i, s, t | Holds(e, i, s) && Holds(e, i, t) && Child(e, i, s) == Child(e, i, t) ensures s == t {
      LinkHolds(d, c, p, ino, i, s);
      LinkHolds(d, c, p, ino, i, t);
      if Holds(d, i, s) {
        LinkChild(d, c, p, ino, i, s);
      }
      if Holds(d, i, t) {
        LinkChild(d, c, p, ino, i, t);
      }
    }
  }

  lemma LinkReached(d: Disk, c: nat, p: nat, ino: Inode)
    requires Linkable(d, c, p, ino)
    ensures AllReached(Linked(d, c, p, ino))
  {
    hide EntriesOk, EntriesOnce, DotDotOk, WellFormed, Dots, Parent, Name, TableOk, Live, BytesOk;
    var e := Linked(d, c, p, ino);
    LinkInodes(d, c, p, ino);
    TableFacts(d, p);
    forall k | Occupied(e, k) && k != 0 ensures Reached(e, k) {
      if k == c {
        LinkHolds(d, c, p, ino, p, Live(d.inodes[p]));
      } else {
        assert Reached(d, k);
        var i, s :| Holds(d, i, s) && Child(d, i, s) == k;
        LinkHolds(d, c, p, ino, i, s);
        LinkChild(d, c, p, ino, i, s);
      }
    }
  }

  lemma LinkDotDot(d: Disk, c: nat, p: nat, ino: Inode)
    requires Linkable(d, c, p, ino)
    ensures DotDotOk(Linked(d, c, p, ino))
  {
    hide EntriesOk, EntriesOnce, AllReached, WellFormed, Dots, Parent, Name, TableOk, Live, BytesOk;
    var e := Linked(d, c, p, ino);
    TableFacts(d, p);
    LinkInodes(d, c, p, ino);
    AddedTable(d.inodes[p], c, ino.nombre);
    forall i | IsDir(e, i) && Dots(e.inodes[i].path) == 2
      ensures IsDir(e, Child(e, i, 1)) && e.inodes[Child(e, i, 1)].path == Parent(e.inodes[i].path) {
      if i == c {
        TableFacts(e, c);
      } else {
        TableFacts(d, i);
        assert IsDir(d, Child(d, i, 1));
        assert Child(e, i, 1) == Child(d, i, 1);
      }
    }
  }

  lemma LinkKeepsInv(d: Disk, c: nat, p: nat, ino: Inode)
    requires Linkable(d, c, p, ino)
    ensures Inv(Linked(d, c, p, ino))
  {
    hide InodesOk, PathsDistinct, EntriesOk, EntriesOnce, AllReached, DotDotOk;
    LinkInodes(d, c, p, ino);
    LinkEntries(d, c, p, ino);
    LinkReached(d, c, p, ino);
    LinkDotDot(d, c, p, ino);
  }

  /** Freeing inode c and taking its entry, slot s of p, out of the table. */
  function Unlinked(d: Disk, c: nat, p: nat, s: nat): Disk
    requires |d.used| == |d.inodes| && c < |d.used| && p < |d.used|
    requires TableOk(d.inodes[p]) && s < Live(d.inodes[p])
  {
    Disk(d.used[c := false], d.inodes[c := Blank()][p := Removed(d.inodes[p], s)])
  }

  ghost predicate Unlinkable(d: Disk, c: int, p: int, s: int)
  {
    && Inv(d) && Occupied(d, c) && c != 0 && Holds(d, p, s) && Child(d, p, s) == c
    && forall t :: !Holds(d, c, t)
  }

  lemma {:induction false} UnlinkInodes(d: Disk, c: nat, p: nat, s: nat)
    requires Unlinkable(d, c, p, s)
    ensures InodesOk(Unlinked(d, c, p, s)) && PathsDistinct(Unlinked(d, c, p, s)) && c != p
  {
    hide EntriesOk, EntriesOnce, AllReached, DotDotOk, WellFormed, Dots, Parent, Live, TableOk, BytesOk;
    var e := Unlinked(d, c, p, s);
    assert c != p;
    RemovedTable(d.inodes[p], s);
    forall i | Occupied(e, i) ensures InodeOk(e.inodes[i], i) {
      assert Occupied(d, i);
    }
    forall i, j | Occupied(e, i) && Occupied(e, j) && e.inodes[i].path == e.inodes[j].path ensures i == j {
      assert Occupied(d, i) && Occupied(d, j);
    }
  }

  /** Where slot t of directory i was before slot s of p went. */
  function Before(i: int, t: int, p: int, s: int): int
  {
    if i == p && t >= s then t + 1 else t
  }

  /** The entries afterwards are those of before, without the one taken out. */
  lemma UnlinkHolds(d: Disk, c: nat, p: nat, s: nat, i: int, t: int)
    requires Unlinkable(d, c, p, s)
    ensures Holds(Unlinked(d, c, p, s), i, t) <==> Holds(d, i, Before(i, t, p, s))
  {
    hide EntriesOk, EntriesOnce, AllReached, DotDotOk, InodesOk, PathsDistinct;
    hide WellFormed, Dots, Parent, Live, TableOk, BytesOk;
    TableFacts(d, p);
    UnlinkInodes(d, c, p, s);
    if i == c {
      assert !Holds(d, c, t);
    } else if i == p {
      RemovedTable(d.inodes[p], s);
    } else if IsDir(d, i) {
      TableFacts(d, i);
    }
  }

  lemma {:induction false} UnlinkChild(d: Disk, c: nat, p: nat, s: nat, i: int, t: int)
    requires Unlinkable(d, c, p, s) && Holds(Unlinked(d, c, p, s), i, t)
    ensures Holds(d, i, Before(i, t, p, s)) && Child(d, i, Before(i, t, p, s)) != c && i != c
    ensures Child(Unlinked(d, c, p, s), i, t) == Child(d, i, Before(i, t, p, s))
    ensures |Unlinked(d, c, p, s).inodes[i].slots| == |d.inodes[i].slots| > Before(i, t, p, s)
    ensures Unlinked(d, c, p, s).inodes[i].slots[t] == d.inodes[i].slots[Before(i, t, p, s)]
  {
    hide AllReached, DotDotOk, WellFormed, Dots, Parent, Live, TableOk, BytesOk, InodesOk;
    UnlinkHolds(d, c, p, s, i, t);
    SlotBefore(d, c, p, s, i, t);
    var u := Before(i, t, p, s);
    assert u != s || i != p;
    assert NamesChild(d, i, u) && NamesChild(d, p, s);
  }

  lemma SlotBefore(d: Disk, c: nat, p: nat, s: nat, i: int, t: int)
    requires Unlinkable(d, c, p, s) && Holds(d, i, Before(i, t, p, s))
    ensures i != c && 0 <= t && |Unlinked(d, c, p, s).inodes[i].slots| == |d.inodes[i].slots| > Before(i, t, p, s)
    ensures Unlinked(d, c, p, s).inodes[i].slots[t] == d.inodes[i].slots[Before(i, t, p, s)]
  {
    hide EntriesOk, EntriesOnce, AllReached, DotDotOk, WellFormed, Dots, Parent, Live, TableOk, BytesOk;
    UnlinkInodes(d, c, p, s);
    TableFacts(d, p);
    TableFacts(d, i);
    RemovedTable(d.inodes[p], s);
  }

  lemma UnlinkEntries(d: Disk, c: nat, p: nat, s: nat)
    requires Unlinkable(d, c, p, s)
    ensures EntriesOk(Unlinked(d, c, p, s)) && EntriesOnce(Unlinked(d, c, p, s))
  {
    hide AllReached, DotDotOk, WellFormed, Dots, Parent, Name, TableOk;
    var e := Unlinked(d, c, p, s);
    forall i, t | Holds(e, i, t) ensures NamesChild(e, i, t) {
      UnlinkChild(d, c, p, s, i, t);
      assert NamesChild(d, i, Before(i, t, p, s));
    }
    forall i, t, u | Holds(e, i, t) && Holds(e, i, u) && Child(e, i, t) == Child(e, i, u) ensures t == u {
      UnlinkChild(d, c, p, s, i, t);
      UnlinkChild(d, c, p, s, i, u);
    }
  }

  lemma UnlinkReached(d: Disk, c: nat, p: nat, s: nat)
    requires Unlinkable(d, c, p, s)
    ensures AllReached(Unlinked(d, c, p, s))
  {
    hide WellFormed, Dots, Parent, Name, TableOk;
    var e := Unlinked(d, c, p, s);
    forall k | Occupied(e, k) && k != 0 ensures Reached(e, k) {
      assert Occupied(d, k) && Reached(d, k);
      var i, u :| Holds(d, i, u) && Child(d, i, u) == k;
      var t := if i == p && u > s then u - 1 else u;
      UnlinkHolds(d, c, p, s, i, t);
      assert i == p ==> u != s;
      assert Before(i, t, p, s) == u;
      UnlinkChild(d, c, p, s, i, t);
    }
  }

  lemma UnlinkDotDot(d: Disk, c: nat, p: nat, s: nat)
    requires Unlinkable(d, c, p, s)
    ensures DotDotOk(Unlinked(d, c, p, s))
  {
    hide EntriesOk, EntriesOnce, AllReached, InodesOk, WellFormed, Parent, Name, TableOk, Live, BytesOk;
    TableFacts(d, p);
    UnlinkInodes(d, c, p, s);
    RemovedTable(d.inodes[p], s);
    var e := Unlinked(d, c, p, s);
    forall i | IsDir(e, i) && Dots(e.inodes[i].path) == 2
      ensures IsDir(e, Child(e, i, 1)) && e.inodes[Child(e, i, 1)].path == Parent(e.inodes[i].path) {
      assert IsDir(d, i);
      TableFacts(d, i);
      assert Child(e, i, 1) == Child(d, i, 1);
      NotDotDot(d, c, p, s, i);
    }
  }

  /** The ".." of a directory never names an inode without children. */
  lemma NotDotDot(d: Disk, c: nat, p: nat, s: nat, i: int)
    requires Unlinkable(d, c, p, s) && IsDir(d, i) && Dots(d.inodes[i].path) == 2
    ensures Child(d, i, 1) != c
  {
    hide EntriesOk, EntriesOnce, AllReached, InodesOk, WellFormed, Parent, Name, TableOk, Live, BytesOk, Holds;
    Lengths(d);
    assert i != 0;
    var j, t := OneEntryEach(d, i);
    ParentIs(d, i, j, t);
    assert IsDir(d, Child(d, i, 1)) && d.inodes[Child(d, i, 1)].path == d.inodes[j].path;
  }

  lemma UnlinkKeepsInv(d: Disk, c: nat, p: nat, s: nat)
    requires Unlinkable(d, c, p, s)
    ensures Inv(Unlinked(d, c, p, s))
  {
    hide InodesOk, PathsDistinct, EntriesOk, EntriesOnce, AllReached, DotDotOk;
    UnlinkInodes(d, c, p, s);
    UnlinkEntries(d, c, p, s);
    UnlinkReached(d, c, p, s);
    UnlinkDotDot(d, c, p, s);
  }
}
