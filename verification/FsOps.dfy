/** create, mkdir, unlink, rmdir, read, write and truncate of fisopfs (TP3-fisopfs/fisopfs.c)
    on a disk image, and the tree of named files they implement. */
module FsOps {
  import opened Fs
  import opened FsLinks

  datatype Errno = OK | EPERM | ENOENT | EIO | EBUSY | EEXIST | ENOTDIR | EISDIR | EFBIG | ENOSPC | ENOTEMPTY

  // ----- the operations, on the disk image -----

  function FindFrom(d: Disk, path: string, i: nat): (k: int)
    requires |d.used| == |d.inodes| && i <= |d.used|
    ensures k == -1 || (i <= k < |d.used| && d.used[k] && d.inodes[k].path == path)
    ensures forall j :: i <= j < (if k < 0 then |d.used| else k) ==> !(d.used[j] && d.inodes[j].path == path)
    decreases |d.used| - i
  {
    if i == |d.used| then -1
    else if d.used[i] && d.inodes[i].path == path then i
    else FindFrom(d, path, i + 1)
  }

  function Find(d: Disk, path: string): (k: int)
    requires |d.used| == |d.inodes|
    ensures k == -1 || (Occupied(d, k) && d.inodes[k].path == path)
  {
    FindFrom(d, path, 0)
  }

  function FreeFrom(used: seq<bool>, i: nat): (k: int)
    requires i <= |used|
    ensures k == -1 || (i <= k < |used| && !used[k])
    ensures forall j :: i <= j < (if k < 0 then |used| else k) ==> used[j]
    decreases |used| - i
  {
    if i == |used| then -1 else if !used[i] then i else FreeFrom(used, i + 1)
  }

  /** obtener_dir_padre. */
  function ParentDir(d: Disk, path: string): (r: (Errno, int))
    requires |d.used| == |d.inodes|
    ensures r.0 == OK ==> IsDir(d, r.1) && d.inodes[r.1].path == Parent(path)
  {
    var p := Find(d, Parent(path));
    if p < 0 then (ENOENT, -1) else if d.inodes[p].tipo.RegT? then (ENOTDIR, -1) else (OK, p)
  }

  function NewInode(i: nat, path: string, kind: Kind): Inode
  {
    Inode(i, 0, kind, Clip(path), Name(path), NoSlots(), Zeros(MAX_CONTENT))
  }

  function WithDots(dir: Inode, self: nat, parent: nat): Inode
    requires |dir.slots| >= 2
  {
    dir.(slots := dir.slots[0 := Entry(self, ".")][1 := Entry(parent, "..")], tam := 2 * ENTRY_SIZE)
  }

  /** create for a regular file, mkdir for a directory; only the error for a full directory
      differs (mkdir hands on the -1 of agregar_entrada_directorio). */
  function Make(d: Disk, path: string, kind: Kind): (Disk, Errno)
    requires Inv(d)
  {
    var (err, p) := ParentDir(d, path);
    if err != OK then (d, err)
    else
      TableFacts(d, p);
      if EntryFrom(d.inodes[p].slots, Name(path), 0, MAX_DIR_ENTRIES) >= 0 then (d, EEXIST)
      else
        var c := FreeFrom(d.used, 0);
        if c < 0 then (d, ENOSPC)
        else
          var e := Disk(d.used[c := true], d.inodes[c := NewInode(c, path, kind)]);
          var s := EmptySlotFrom(e.inodes[p].slots, 0);
          if s < 0 then (e, if kind.DirT? then EPERM else ENOSPC)
          else
            var f := e.(inodes := e.inodes[p := Added(e.inodes[p], s, c, e.inodes[c].nombre)]);
            (if kind.DirT? then f.(inodes := f.inodes[c := WithDots(f.inodes[c], c, p)]) else f, OK)
  }

  function Freed(d: Disk, c: nat): Disk
    requires |d.used| == |d.inodes| && c < |d.used|
  {
    Disk(d.used[c := false], d.inodes[c := Blank()])
  }

  function EntryOf(d: Disk, p: nat, name: string): int
    requires Inv(d) && IsDir(d, p)
  {
    TableFacts(d, p);
    EntryFrom(d.inodes[p].slots, name, 0, d.inodes[p].tam / ENTRY_SIZE)
  }

  function Unlink(d: Disk, path: string): (Disk, Errno)
    requires Inv(d)
  {
    var (err, p) := ParentDir(d, path);
    if err != OK then (d, err)
    else
      var c := Find(d, path);
      if c < 0 then (d, ENOENT)
      else if d.inodes[c].tipo.DirT? then (d, EISDIR)
      else
        var s := EntryOf(d, p, Name(path));
        var e := Freed(d, c);
        (if s < 0 then e else e.(inodes := e.inodes[p := Removed(e.inodes[p], s)]), OK)
  }

  function Rmdir(d: Disk, path: string): (Disk, Errno)
    requires Inv(d)
  {
    if path == ROOT then (d, EBUSY)
    else
      var c := Find(d, path);
      if c < 0 then (d, ENOENT)
      else if d.inodes[c].tipo.RegT? then (d, ENOTDIR)
      else
        TableFacts(d, c);
        if !OnlyDots(d.inodes[c]) then (d, ENOTEMPTY)
        else
          var (err, p) := ParentDir(d, path);
          if err != OK then (d, err)
          else
            var s := EntryOf(d, p, Name(path));
            if s < 0 then (d, EIO)
            else (Freed(d.(inodes := d.inodes[p := Removed(d.inodes[p], s)]), c), OK)
  }

  // ----- the tree -----

  datatype Node = Dir | File(bytes: seq<Byte>)

  type Tree = map<string, Node>

  function NodeOf(ino: Inode): Node
  {
    if ino.tipo.DirT? || ino.tam > |ino.content| then Dir else File(ino.content[..ino.tam])
  }

  ghost function TreeOf(d: Disk): Tree
    requires Inv(d)
  {
    map i | 0 <= i < |d.used| && Occupied(d, i) :: d.inodes[i].path := NodeOf(d.inodes[i])
  }

  ghost function Children(t: Tree, dir: string): set<string>
  {
    set q | q in t && q != ROOT && Parent(q) == dir
  }

  /** How many children a directory has room for. */
  function Room(dir: string): nat
  {
    MAX_DIR_ENTRIES - Dots(dir)
  }

  function TreeParent(t: Tree, path: string): Errno
  {
    if Parent(path) !in t then ENOENT else if t[Parent(path)].File? then ENOTDIR else OK
  }

  /** The case in which create and mkdir leave an inode that no entry names. */
  ghost predicate Overflows(t: Tree, path: string, inodes: nat)
  {
    && TreeParent(t, path) == OK && path !in t && |t| < inodes
    && |Children(t, Parent(path))| == Room(Parent(path))
  }

  ghost function TreeMake(t: Tree, path: string, node: Node, inodes: nat): (Tree, Errno)
  {
    if TreeParent(t, path) != OK then (t, TreeParent(t, path))
    else if path in t then (t, EEXIST)
    else if |t| == inodes then (t, ENOSPC)
    else (t[path := node], OK)
  }

  function TreeUnlink(t: Tree, path: string): (Tree, Errno)
  {
    if TreeParent(t, path) != OK then (t, TreeParent(t, path))
    else if path !in t then (t, ENOENT)
    else if t[path].Dir? then (t, EISDIR)
    else (t - {path}, OK)
  }

  ghost function TreeRmdir(t: Tree, path: string): (Tree, Errno)
  {
    if path == ROOT then (t, EBUSY)
    else if path !in t then (t, ENOENT)
    else if t[path].File? then (t, ENOTDIR)
    else if Children(t, path) != {} then (t, ENOTEMPTY)
    else (t - {path}, OK)
  }

  // ----- the disk and its tree -----

  lemma TreeAt(d: Disk, i: int)
    requires Inv(d) && Occupied(d, i)
    ensures d.inodes[i].path in TreeOf(d) && TreeOf(d)[d.inodes[i].path] == NodeOf(d.inodes[i])
    ensures NodeOf(d.inodes[i]).Dir? <==> d.inodes[i].tipo.DirT?
  {
    assert InodeOk(d.inodes[i], i);
    var t := TreeOf(d);
    assert d.inodes[i].path in t;
  }

  lemma FindInTree(d: Disk, path: string)
    requires Inv(d)
    ensures Find(d, path) >= 0 <==> path in TreeOf(d)
    ensures forall i :: Occupied(d, i) && d.inodes[i].path == path ==> Find(d, path) == i
    ensures path in TreeOf(d) ==> TreeOf(d)[path] == NodeOf(d.inodes[Find(d, path)])
    ensures path in TreeOf(d) ==> (TreeOf(d)[path].Dir? <==> d.inodes[Find(d, path)].tipo.DirT?)
  {
    if Find(d, path) >= 0 {
      TreeAt(d, Find(d, path));
    }
  }

  lemma TreeSource(d: Disk, q: string) returns (i: int)
    requires Inv(d) && q in TreeOf(d)
    ensures Occupied(d, i) && d.inodes[i].path == q && TreeOf(d)[q] == NodeOf(d.inodes[i])
  {
    hide InodesOk, EntriesOk, EntriesOnce, AllReached, DotDotOk;
    Lengths(d);
    FindInTree(d, q);
    i := Find(d, q);
  }

  lemma ParentInTree(d: Disk, path: string)
    requires Inv(d)
    ensures ParentDir(d, path).0 == TreeParent(TreeOf(d), path)
  {
    hide Inv;
    FindInTree(d, Parent(path));
  }

  lemma LinkedTree(d: Disk, c: nat, p: nat, ino: Inode)
    requires Linkable(d, c, p, ino)
    ensures Inv(Linked(d, c, p, ino)) && ino.path !in TreeOf(d)
    ensures TreeOf(Linked(d, c, p, ino)) == TreeOf(d)[ino.path := NodeOf(ino)]
  {
    hide InodesOk, PathsDistinct, EntriesOk, EntriesOnce, AllReached, DotDotOk, TableOk, Live, Dots, Parent, TreeOf;
    LinkKeepsInv(d, c, p, ino);
    TableFacts(d, p);
    var e := Linked(d, c, p, ino);
    var t, u := TreeOf(d), TreeOf(e);
    forall i | Occupied(d, i) ensures i != c && Occupied(e, i)
      && e.inodes[i].path == d.inodes[i].path && NodeOf(e.inodes[i]) == NodeOf(d.inodes[i]) {
    }
    TreeAt(e, c);
    forall q | q in t ensures q in u && u[q] == t[q] && q != ino.path {
      var i := TreeSource(d, q);
      TreeAt(e, i);
    }
    forall q | q in u && q != ino.path ensures q in t {
      var i := TreeSource(e, q);
      assert Occupied(d, i);
      TreeAt(d, i);
    }
  }

  lemma UnlinkedTree(d: Disk, c: nat, p: nat, s: nat)
    requires Unlinkable(d, c, p, s)
    ensures Inv(Unlinked(d, c, p, s))
    ensures TreeOf(Unlinked(d, c, p, s)) == TreeOf(d) - {d.inodes[c].path}
  {
    hide InodesOk, EntriesOk, EntriesOnce, AllReached, DotDotOk, TableOk, Live, Dots, Parent, TreeOf;
    TableFacts(d, p);
    UnlinkKeepsInv(d, c, p, s);
    UnlinkInodes(d, c, p, s);
    var e := Unlinked(d, c, p, s);
    var t, u := TreeOf(d), TreeOf(e);
    forall i | Occupied(e, i) ensures i != c && Occupied(d, i)
      && e.inodes[i].path == d.inodes[i].path && NodeOf(e.inodes[i]) == NodeOf(d.inodes[i]) {
    }
    forall q | q in u ensures q in t && t[q] == u[q] && q != d.inodes[c].path {
      var i := TreeSource(e, q);
      TreeAt(d, i);
    }
    forall q | q in t && q != d.inodes[c].path ensures q in u {
      var i := TreeSource(d, q);
      assert Occupied(e, i);
      TreeAt(e, i);
    }
  }

  // ----- entries and paths -----

  lemma SlotIsPath(d: Disk, p: nat, path: string, s: nat)
    requires Inv(d) && IsDir(d, p) && WellFormed(path) && Parent(path) == d.inodes[p].path
    requires s < |d.inodes[p].slots| && IsSlot(d.inodes[p].slots[s], Name(path))
    ensures Holds(d, p, s) && Child(d, p, s) == Find(d, path) && path in TreeOf(d)
  {
    hide Parent, BytesOk, EntriesOnce, AllReached, DotDotOk, PathsDistinct;
    TableFacts(d, p);
    assert Holds(d, p, s) && NamesChild(d, p, s);
    var c := Child(d, p, s);
    assert InodeOk(d.inodes[c], c);
    SplitJoin(path);
    SplitJoin(d.inodes[c].path);
    FindInTree(d, d.inodes[c].path);
  }

  lemma PathHasSlot(d: Disk, p: nat, path: string) returns (s: int)
    requires Inv(d) && IsDir(d, p) && WellFormed(path) && Parent(path) == d.inodes[p].path
    requires path in TreeOf(d)
    ensures Holds(d, p, s) && IsSlot(d.inodes[p].slots[s], Name(path)) && Child(d, p, s) == Find(d, path)
  {
    hide Parent, WellFormed, BytesOk, TableOk, Live, Dots, EntriesOnce, AllReached, DotDotOk;
    FindInTree(d, path);
    var c := Find(d, path);
    SplitJoin(path);
    assert InodeOk(d.inodes[c], c) && InodeOk(d.inodes[p], p) && c != 0;
    var i;
    i, s := OneEntryEach(d, c);
    assert NamesChild(d, i, s) && i == p;
    TableFacts(d, p);
  }

  /** Looking up the last part of `path` in its parent's table finds the entry of the inode
      that has this path, however many slots past the live ones are looked at. */
  lemma EntryIsPath(d: Disk, p: nat, path: string, n: nat)
    requires Inv(d) && IsDir(d, p) && WellFormed(path) && Parent(path) == d.inodes[p].path
    requires Live(d.inodes[p]) <= n <= |d.inodes[p].slots|
    ensures var s := EntryFrom(d.inodes[p].slots, Name(path), 0, n);
      if s < 0 then path !in TreeOf(d)
      else path in TreeOf(d) && Holds(d, p, s) && Child(d, p, s) == Find(d, path)
  {
    hide Inv, WellFormed, TreeOf, Parent, Find;
    var s := EntryFrom(d.inodes[p].slots, Name(path), 0, n);
    if s >= 0 {
      SlotIsPath(d, p, path, s);
    } else if path in TreeOf(d) {
      var t := PathHasSlot(d, p, path);
    }
  }
}
