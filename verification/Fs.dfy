/** The fisopfs disk image (TP3-fisopfs/fs.c): one table of inodes that is searched by full
    path, and a table of entries inside every directory inode. `Inv` says that the two views
    describe one tree; this module proves that linking and unlinking a node keep it. */
module Fs {
  const MAX_PATH: nat := 256
  const MAX_CONTENT: nat := 4096
  const ENTRY_SIZE: nat := 260
  const MAX_DIR_ENTRIES: nat := MAX_CONTENT / ENTRY_SIZE
  const ROOT: string := "/"

  type Byte = b: int | 0 <= b < 256

  datatype Entry = Entry(inodo: nat, nombre: string)
  datatype Kind = DirT | RegT

  /** `slots` and `content` are the two ways the program reads the same 4096 bytes; a
      directory is only ever read as slots and a regular file as bytes. The table has fifteen
      whole entries; slot 15 is the part of a sixteenth that still fits. */
  datatype Inode = Inode(inumero: nat, tam: nat, tipo: Kind, path: string, nombre: string,
                         slots: seq<Entry>, content: seq<Byte>)

  datatype Disk = Disk(used: seq<bool>, inodes: seq<Inode>)

  const EMPTY: Entry := Entry(0, "")

  function NoSlots(): (t: seq<Entry>)
    ensures |t| == MAX_DIR_ENTRIES + 1 && forall i :: 0 <= i < |t| ==> t[i] == EMPTY
  {
    seq(MAX_DIR_ENTRIES + 1, i => EMPTY)
  }

  /** memset(inode, 0, sizeof(inodo_t)); type 0 is a directory. */
  function Blank(): Inode
  {
    Inode(0, 0, DirT, "", "", NoSlots(), Zeros(MAX_CONTENT))
  }

  function Zeros(n: nat): (z: seq<Byte>)
    ensures |z| == n && forall i :: 0 <= i < n ==> z[i] == 0
  {
    seq(n, i => 0)
  }

  // ----- paths -----

  /** strrchr(path, '/'), as an index. */
  function LastSlash(path: string): (k: int)
    ensures -1 <= k < |path|
    ensures k >= 0 ==> path[k] == '/'
    ensures forall i :: k < i < |path| ==> path[i] != '/'
  {
    if path == "" then -1
    else if path[|path| - 1] == '/' then |path| - 1
    else LastSlash(path[..|path| - 1])
  }

  function Clip(s: string): (c: string)
    ensures |c| < MAX_PATH && c <= s
    ensures |c| == if |s| < 256 then |s| else 255
  {
    if |s| > MAX_PATH - 1 then s[..MAX_PATH - 1] else s
  }

  function Parent(path: string): string
  {
    var k := LastSlash(path);
    if k <= 0 then ROOT else Clip(path[..k])
  }

  function Name(path: string): string
  {
    Clip(path[LastSlash(path) + 1..])
  }

  function Join(dir: string, name: string): string
  {
    if dir == ROOT then dir + name else dir + "/" + name
  }

  /** An absolute path of a node below the root, as the FUSE layer passes it. */
  predicate WellFormed(path: string)
  {
    && 2 <= |path| < MAX_PATH
    && path[0] == '/' && path[|path| - 1] != '/'
    && (forall i :: 0 <= i < |path| - 1 ==> path[i] == '/' ==> path[i + 1] != '/')
    && Name(path) != "." && Name(path) != ".."
  }

  /** separar_path on any path that fits: what is before the last slash, or the root, and what is
      after it. */
  lemma SplitAt(dir: string, name: string)
    requires '/' !in name && |dir| < MAX_PATH && |name| < MAX_PATH
    ensures Name(dir + "/" + name) == name && Parent(dir + "/" + name) == if dir == "" then "/" else dir
    ensures Name(name) == name && Parent(name) == "/"
  {
    var path := dir + "/" + name;
    forall i | |dir| < i < |path| ensures path[i] != '/' {
      assert path[i] == name[i - |dir| - 1];
    }
    assert path[|dir|] == '/' && path[|dir| + 1..] == name && path[..|dir|] == dir;
    assert LastSlash(path) == |dir|;
    assert forall i :: 0 <= i < |name| ==> name[i] != '/';
    assert name[0..] == name;
  }

  /** Splitting a path and joining the parts again gives the path back, and only the path's
      own parts do. */
  lemma SplitJoin(path: string)
    requires WellFormed(path)
    ensures Join(Parent(path), Name(path)) == path
    ensures Name(path) != "" && '/' !in Name(path)
    ensures path != ROOT && |Parent(path)| < |path|
  {
    var k := LastSlash(path);
    assert k >= 0;
    assert path == path[..k] + "/" + path[k + 1..];
    if k == 0 {
      assert path[..1] == ROOT;
    } else {
      assert path[k - 1] != '/';
      assert path[..k] != ROOT;
    }
  }

  lemma LastSlashIs(path: string, k: nat)
    requires k < |path| && path[k] == '/' && forall i :: k < i < |path| ==> path[i] != '/'
    ensures LastSlash(path) == k
  {
    hide LastSlash;
  }

  lemma JoinParts(dir: string, name: string)
    requires name != "" && '/' !in name
    ensures var path, k := Join(dir, name), if dir == ROOT then 0 else |dir|;
      && k < |path| && path[k] == '/' && path[k + 1..] == name
      && path[..k] == (if dir == ROOT then "" else dir)
      && forall i :: k < i < |path| ==> path[i] != '/'
  {
    var path, k := Join(dir, name), if dir == ROOT then 0 else |dir|;
    forall i | k < i < |path| ensures path[i] != '/' {
      assert path[i] == name[i - k - 1];
    }
  }

  lemma JoinSplit(dir: string, name: string)
    requires dir == ROOT || WellFormed(dir)
    requires name != "" && '/' !in name && |Join(dir, name)| < MAX_PATH
    ensures Parent(Join(dir, name)) == dir && Name(Join(dir, name)) == name
  {
    assert dir != "";
    hide LastSlash, WellFormed, Join;
    JoinParts(dir, name);
    LastSlashIs(Join(dir, name), if dir == ROOT then 0 else |dir|);
  }

  // ----- directory tables -----

  predicate IsSlot(e: Entry, name: string)
  {
    e.inodo != 0 && e.nombre == name
  }

  /** The first live slot called `name` in slots[i..n], or -1. */
  function EntryFrom(slots: seq<Entry>, name: string, i: nat, n: nat): (s: int)
    requires i <= n <= |slots|
    ensures s == -1 || (i <= s < n && IsSlot(slots[s], name))
    ensures forall j :: i <= j < (if s < 0 then n else s) ==> !IsSlot(slots[j], name)
    decreases n - i
  {
    if i == n then -1
    else if IsSlot(slots[i], name) then i
    else EntryFrom(slots, name, i + 1, n)
  }

  /** The first slot in slots[i..15] whose inode number is the "empty" mark, or -1. */
  function EmptySlotFrom(slots: seq<Entry>, i: nat): (s: int)
    requires i <= MAX_DIR_ENTRIES <= |slots|
    ensures s == -1 || (i <= s < MAX_DIR_ENTRIES && slots[s].inodo == 0)
    ensures forall j :: i <= j < (if s < 0 then MAX_DIR_ENTRIES else s) ==> slots[j].inodo != 0
    decreases MAX_DIR_ENTRIES - i
  {
    if i == MAX_DIR_ENTRIES then -1
    else if slots[i].inodo == 0 then i
    else EmptySlotFrom(slots, i + 1)
  }

  function Added(dir: Inode, s: nat, child: nat, name: string): Inode
    requires s < |dir.slots|
  {
    dir.(slots := dir.slots[s := Entry(child, name)], tam := dir.tam + ENTRY_SIZE)
  }

  /** Slot s goes, the ones after it move down, and slot n - 1 is emptied. */
  function Shifted(slots: seq<Entry>, s: nat, n: nat): (t: seq<Entry>)
    requires s < n <= |slots|
    ensures |t| == |slots|
    ensures forall i :: 0 <= i < |t| ==>
      t[i] == if i < s || i >= n then slots[i] else if i < n - 1 then slots[i + 1] else EMPTY
  {
    slots[..s] + slots[s + 1..n] + [EMPTY] + slots[n..]
  }

  function Removed(dir: Inode, s: nat): Inode
    requires dir.tam >= ENTRY_SIZE && s < dir.tam / ENTRY_SIZE <= |dir.slots|
  {
    dir.(slots := Shifted(dir.slots, s, dir.tam / ENTRY_SIZE), tam := dir.tam - ENTRY_SIZE)
  }

  predicate OnlyDots(dir: Inode)
    requires |dir.slots| >= MAX_DIR_ENTRIES
  {
    forall s :: 0 <= s < MAX_DIR_ENTRIES ==>
      dir.slots[s].inodo == 0 || dir.slots[s].nombre == "." || dir.slots[s].nombre == ".."
  }

  // ----- the invariant -----

  /** How many dot entries the table keeps: the root has none, and in a directory right under
      the root ".." carries inode 0, which is the "empty" mark. */
  function Dots(path: string): nat
  {
    if path == ROOT then 0 else if Parent(path) == ROOT then 1 else 2
  }

  /** In a directory right under the root `tam` counts one entry more than are live. */
  function Extra(path: string): nat
  {
    if path != ROOT && Parent(path) == ROOT then 1 else 0
  }

  function Live(dir: Inode): int
  {
    dir.tam / ENTRY_SIZE - Extra(dir.path)
  }

  ghost predicate TableOk(dir: Inode)
  {
    && |dir.slots| == MAX_DIR_ENTRIES + 1
    && dir.tam % ENTRY_SIZE == 0 && dir.tam >= ENTRY_SIZE * Extra(dir.path)
    && Dots(dir.path) <= Live(dir) <= MAX_DIR_ENTRIES
    && (forall s :: 0 <= s < |dir.slots| ==> (dir.slots[s].inodo != 0 <==> s < Live(dir)))
    && (Dots(dir.path) >= 1 ==> dir.slots[0] == Entry(dir.inumero, "."))
    && (Dots(dir.path) == 2 ==> dir.slots[1].nombre == "..")
  }

  ghost predicate BytesOk(file: Inode)
  {
    && |file.content| == MAX_CONTENT && file.tam <= MAX_CONTENT
    && (forall i :: file.tam <= i < MAX_CONTENT ==> file.content[i] == 0)
  }

  ghost predicate InodeOk(ino: Inode, i: nat)
  {
    && ino.inumero == i
    && (i == 0 ==> ino.path == ROOT && ino.tipo.DirT?)
    && (i != 0 ==> WellFormed(ino.path) && ino.nombre == Name(ino.path))
    && (ino.tipo.DirT? ==> TableOk(ino))
    && (ino.tipo.RegT? ==> BytesOk(ino))
  }

  predicate Occupied(d: Disk, i: int)
  {
    0 <= i < |d.used| && i < |d.inodes| && d.used[i]
  }

  predicate IsDir(d: Disk, i: int)
  {
    Occupied(d, i) && d.inodes[i].tipo.DirT?
  }

  /** Slot s of directory i holds a child. */
  ghost predicate Holds(d: Disk, i: int, s: int)
  {
    IsDir(d, i) && TableOk(d.inodes[i]) && Dots(d.inodes[i].path) <= s < Live(d.inodes[i])
  }

  function Child(d: Disk, i: int, s: int): nat
  {
    if 0 <= i < |d.inodes| && 0 <= s < |d.inodes[i].slots| then d.inodes[i].slots[s].inodo else 0
  }

  ghost predicate InodesOk(d: Disk)
  {
    |d.used| == |d.inodes| > 0 && d.used[0] && forall i :: Occupied(d, i) ==> InodeOk(d.inodes[i], i)
  }

  ghost predicate PathsDistinct(d: Disk)
  {
    forall i, j :: Occupied(d, i) && Occupied(d, j) && d.inodes[i].path == d.inodes[j].path ==> i == j
  }

  /** What entry (i, s) names: an occupied inode whose path is i's path joined with the name. */
  ghost predicate NamesChild(d: Disk, i: int, s: int)
    requires Holds(d, i, s)
  {
    && Occupied(d, Child(d, i, s))
    && Parent(d.inodes[Child(d, i, s)].path) == d.inodes[i].path
    && d.inodes[Child(d, i, s)].nombre == d.inodes[i].slots[s].nombre
  }

  ghost predicate EntriesOk(d: Disk)
  {
    forall i, s :: Holds(d, i, s) ==> NamesChild(d, i, s)
  }

  ghost predicate EntriesOnce(d: Disk)
  {
    forall i, s, t :: Holds(d, i, s) && Holds(d, i, t) && Child(d, i, s) == Child(d, i, t) ==> s == t
  }

  ghost predicate Reached(d: Disk, c: int)
  {
    exists i, s :: Holds(d, i, s) && Child(d, i, s) == c
  }

  ghost predicate AllReached(d: Disk)
  {
    forall c :: Occupied(d, c) && c != 0 ==> Reached(d, c)
  }

  /** Where ".." is live it names the parent. */
  ghost predicate DotDotOk(d: Disk)
  {
    forall i :: IsDir(d, i) && Dots(d.inodes[i].path) == 2 ==>
      IsDir(d, Child(d, i, 1)) && d.inodes[Child(d, i, 1)].path == Parent(d.inodes[i].path)
  }

  ghost predicate Inv(d: Disk)
  {
    InodesOk(d) && PathsDistinct(d) && EntriesOk(d) && EntriesOnce(d) && AllReached(d) && DotDotOk(d)
  }

  /** One to one: every occupied inode but the root is named by exactly one entry, that entry
      is in the directory with its parent's path, and its path is the two joined. */
  lemma OneEntryEach(d: Disk, c: int) returns (i: int, s: int)
    requires Inv(d) && Occupied(d, c) && c != 0
    ensures Holds(d, i, s) && Child(d, i, s) == c
    ensures d.inodes[c].path == Join(d.inodes[i].path, d.inodes[i].slots[s].nombre)
    ensures forall j, t :: Holds(d, j, t) && Child(d, j, t) == c ==> j == i && t == s
  {
    assert Reached(d, c);
    i, s :| Holds(d, i, s) && Child(d, i, s) == c;
    assert NamesChild(d, i, s);
    SplitJoin(d.inodes[c].path);
    forall j, t | Holds(d, j, t) && Child(d, j, t) == c ensures j == i && t == s {
      assert NamesChild(d, j, t);
    }
  }
}
