/** The program itself: the superblock's two arrays, searched and updated in place
    (TP3-fisopfs/fs.c, TP3-fisopfs/fisopfs.c). Each method is proved to do to the disk image
    what the function of the same name in FsOps and FsFiles does. */
module Fisopfs {
  import opened Fs
  import opened FsLinks
  import opened FsOps
  import opened FsFiles
  import FsRefine
  import FsRuns

  class FileSystem {
    const bitmap: array<bool>
    const inodos: array<Inode>

    ghost predicate Valid()
      reads this, bitmap
    {
      bitmap.Length == inodos.Length > 0
    }

    function Image(): Disk
      reads this, bitmap, inodos
    {
      Disk(bitmap[..], inodos[..])
    }

    /** inicializar_filesystem. */
    constructor (n: nat)
      requires n > 0
      ensures Valid() && Image() == FsRuns.Mkfs(n) && Inv(Image())
      ensures TreeOf(Image()) == map[ROOT := Dir]
      ensures fresh(bitmap) && fresh(inodos)
    {
      bitmap := new bool[n](_ => false);
      inodos := new Inode[n](_ => Blank());
      new;
      inodos[0] := inodos[0].(path := ROOT, tipo := DirT);
      bitmap[0] := true;
      FsRuns.MkfsInv(n);
      assert Image() == FsRuns.Mkfs(n);
    }

    /** buscar_inodo. */
    method FindInode(path: string) returns (k: int)
      requires Valid()
      ensures k == Find(Image(), path)
    {
      var i := 0;
      while i < inodos.Length
        invariant 0 <= i <= inodos.Length
        invariant FindFrom(Image(), path, i) == Find(Image(), path)
      {
        if bitmap[i] && inodos[i].path == path {
          return i;
        }
        i := i + 1;
      }
      return -1;
    }

    /** obtener_inodo_libre. */
    method FreeInode() returns (k: int)
      requires Valid()
      ensures k == FreeFrom(Image().used, 0)
    {
      var i := 0;
      while i < bitmap.Length
        invariant 0 <= i <= bitmap.Length
        invariant FreeFrom(bitmap[..], i) == FreeFrom(bitmap[..], 0)
      {
        if !bitmap[i] {
          return i;
        }
        i := i + 1;
      }
      return -1;
    }

    /** crear_inodo. */
    method CreateInode(path: string, kind: Kind) returns (i: int)
      requires Valid()
      modifies bitmap, inodos
      ensures i == FreeFrom(old(Image().used), 0)
      ensures Image() == if i < 0 then old(Image())
        else Disk(old(Image().used)[i := true], old(Image().inodes)[i := NewInode(i, path, kind)])
    {
      i := FreeInode();
      if i >= 0 {
        bitmap[i] := true;
        inodos[i] := inodos[i].(inumero := i, tam := 0, tipo := kind);
        inodos[i] := inodos[i].(slots := NoSlots(), content := Zeros(MAX_CONTENT));
        inodos[i] := inodos[i].(path := Clip(path), nombre := Name(path));
      }
    }

    /** The search of buscar_entrada_en_directorio (n = 15) and of eliminar_entrada_directorio
        (n = tam / 260). */
    method FindEntry(p: nat, name: string, n: nat) returns (s: int)
      requires Valid() && p < inodos.Length && n <= |inodos[p].slots|
      ensures s == EntryFrom(inodos[p].slots, name, 0, n)
    {
      var i := 0;
      while i < n
        invariant 0 <= i <= n
        invariant EntryFrom(inodos[p].slots, name, i, n) == EntryFrom(inodos[p].slots, name, 0, n)
      {
        if inodos[p].slots[i].inodo != 0 && inodos[p].slots[i].nombre == name {
          return i;
        }
        i := i + 1;
      }
      return -1;
    }

    /** agregar_entrada_directorio. */
    method AddEntry(p: nat, child: nat) returns (ok: bool)
      requires Valid() && p < inodos.Length && child < inodos.Length
      requires |inodos[p].slots| == MAX_DIR_ENTRIES + 1 && inodos[child].inumero == child
      requires |inodos[child].nombre| < MAX_PATH
      modifies inodos
      ensures var s := EmptySlotFrom(old(inodos[p].slots), 0);
        && ok == (s >= 0)
        && inodos[..] == if s < 0 then old(inodos[..])
           else old(inodos[..])[p := Added(old(inodos[p]), s, child, old(inodos[child].nombre))]
    {
      var i := 0;
      while i < MAX_DIR_ENTRIES
        invariant 0 <= i <= MAX_DIR_ENTRIES
        invariant inodos[..] == old(inodos[..])
        invariant EmptySlotFrom(inodos[p].slots, i) == EmptySlotFrom(inodos[p].slots, 0)
      {
        if inodos[p].slots[i].inodo == 0 {
          var number, name := inodos[child].inumero, Clip(inodos[child].nombre);
          inodos[p] := inodos[p].(slots := inodos[p].slots[i := Entry(number, name)]);
          inodos[p] := inodos[p].(tam := inodos[p].tam + ENTRY_SIZE);
          return true;
        }
        i := i + 1;
      }
      return false;
    }

    /** The inner loop of eliminar_entrada_directorio: the slots after s move down. */
    method ShiftDown(p: nat, s: nat, n: nat)
      requires Valid() && p < inodos.Length && s < n <= |inodos[p].slots|
      modifies inodos
      ensures inodos[..] == old(inodos[..])[p := old(inodos[p]).(slots := Shifted(old(inodos[p].slots), s, n))]
    {
      hide Moved, Shifted;
      ghost var was := inodos[p].slots;
      MovedEnds(was, s, n);
      var j := s;
      while j < n - 1
        invariant s <= j <= n - 1
        invariant inodos[..] == old(inodos[..])[p := old(inodos[p]).(slots := Moved(was, s, j))]
      {
        assert inodos[p].slots == Moved(was, s, j);
        MovedStep(was, s, j);
        inodos[p] := inodos[p].(slots := inodos[p].slots[j := inodos[p].slots[j + 1]]);
        j := j + 1;
      }
      assert inodos[p].slots == Moved(was, s, n - 1);
      inodos[p] := inodos[p].(slots := inodos[p].slots[n - 1 := EMPTY]);
    }

    /** eliminar_entrada_directorio. */
    method RemoveEntry(p: nat, name: string) returns (ok: bool)
      requires Valid() && p < inodos.Length
      requires inodos[p].tam / ENTRY_SIZE <= |inodos[p].slots|
      modifies inodos
      ensures var s := EntryFrom(old(inodos[p].slots), name, 0, old(inodos[p].tam) / ENTRY_SIZE);
        && ok == (s >= 0)
        && inodos[..] == if s < 0 then old(inodos[..]) else old(inodos[..])[p := Removed(old(inodos[p]), s)]
    {
      var n := inodos[p].tam / ENTRY_SIZE;
      var i := FindEntry(p, name, n);
      if i < 0 {
        return false;
      }
      ShiftDown(p, i, n);
      inodos[p] := inodos[p].(tam := inodos[p].tam - ENTRY_SIZE);
      return true;
    }

    /** directorio_esta_vacio. */
    method DirIsEmpty(i: nat) returns (empty: bool)
      requires Valid() && i < inodos.Length && |inodos[i].slots| >= MAX_DIR_ENTRIES
      ensures empty == OnlyDots(inodos[i])
    {
      var s := 0;
      while s < MAX_DIR_ENTRIES
        invariant 0 <= s <= MAX_DIR_ENTRIES
        invariant forall t :: 0 <= t < s ==>
          inodos[i].slots[t].inodo == 0 || inodos[i].slots[t].nombre == "." || inodos[i].slots[t].nombre == ".."
      {
        var e := inodos[i].slots[s];
        if e.inodo != 0 && e.nombre != "." && e.nombre != ".." {
          return false;
        }
        s := s + 1;
      }
      return true;
    }

    /** inicializar_entradas_directorio. */
    method InitDots(c: nat, parent: nat)
      requires Valid() && c < inodos.Length && |inodos[c].slots| >= 2
      modifies inodos
      ensures inodos[..] == old(inodos[..])[c := WithDots(old(inodos[c]), c, parent)]
    {
      inodos[c] := inodos[c].(slots := inodos[c].slots[0 := Entry(c, ".")]);
      inodos[c] := inodos[c].(slots := inodos[c].slots[1 := Entry(parent, "..")]);
      inodos[c] := inodos[c].(tam := 2 * ENTRY_SIZE);
    }

    /** The memcpy and the size update of fisopfs_write. */
    method CopyIn(k: nat, data: seq<Byte>, offset: nat)
      requires Valid() && k < inodos.Length && offset + |data| <= |inodos[k].content|
      modifies inodos
      ensures inodos[..] == old(inodos[..])[k := Written(old(inodos[k]), data, offset)]
    {
      var content := inodos[k].content;
      inodos[k] := inodos[k].(content := content[..offset] + data + content[offset + |data|..]);
      if offset + |data| > inodos[k].tam {
        inodos[k] := inodos[k].(tam := offset + |data|);
      }
    }

    /** The memset and the size update of fisopfs_truncate. */
    method CutTo(k: nat, size: nat)
      requires Valid() && k < inodos.Length && inodos[k].tam <= |inodos[k].content|
      modifies inodos
      ensures inodos[..] == old(inodos[..])[k := Cut(old(inodos[k]), size)]
    {
      if size < inodos[k].tam {
        var f := inodos[k];
        inodos[k] := f.(content := f.content[..size] + Zeros(f.tam - size) + f.content[f.tam..]);
      }
      inodos[k] := inodos[k].(tam := size);
    }

    /** obtener_dir_padre. */
    method ParentOf(path: string) returns (err: Errno, p: int)
      requires Valid()
      ensures (err, p) == ParentDir(Image(), path)
    {
      p := FindInode(Parent(path));
      if p < 0 {
        return ENOENT, -1;
      }
      if inodos[p].tipo != DirT {
        return ENOTDIR, -1;
      }
      return OK, p;
    }

    /** fisopfs_create. The last two clauses say it in terms of the tree. */
    method CreateFile(path: string) returns (err: Errno)
      requires Valid() && Inv(Image())
      modifies bitmap, inodos
      ensures (Image(), err) == Make(old(Image()), path, RegT)
      ensures WellFormed(path) && !Overflows(old(TreeOf(Image())), path, bitmap.Length) ==>
        Inv(Image()) && (TreeOf(Image()), err) == TreeMake(old(TreeOf(Image())), path, File([]), bitmap.Length)
    {
      hide Inv, TreeOf, TreeMake, Overflows, WellFormed, Find, ParentDir, FreeFrom, EntryFrom, EmptySlotFrom;
      hide Parent, Name, Added, WithDots;
      ghost var d := Image();
      if WellFormed(path) {
        FsRefine.MakeRefines(d, path, RegT);
      }
      var p;
      err, p := ParentOf(path);
      if err != OK {
        return;
      }
      DirFacts(d, p);
      var child := FindEntry(p, Name(path), MAX_DIR_ENTRIES);
      if child >= 0 {
        return EEXIST;
      }
      NameFits(path);
      var c := CreateInode(path, RegT);
      if c < 0 {
        return ENOSPC;
      }
      var ok := AddEntry(p, c);
      if !ok {
        return ENOSPC;
      }
      return OK;
    }

    /** fisopfs_mkdir. */
    method Mkdir(path: string) returns (err: Errno)
      requires Valid() && Inv(Image())
      modifies bitmap, inodos
      ensures (Image(), err) == Make(old(Image()), path, DirT)
      ensures WellFormed(path) && !Overflows(old(TreeOf(Image())), path, bitmap.Length) ==>
        Inv(Image()) && (TreeOf(Image()), err) == TreeMake(old(TreeOf(Image())), path, Dir, bitmap.Length)
    {
      hide Inv, TreeOf, TreeMake, Overflows, WellFormed, Find, ParentDir, FreeFrom, EntryFrom, EmptySlotFrom;
      hide Parent, Name, Added, WithDots;
      ghost var d := Image();
      if WellFormed(path) {
        FsRefine.MakeRefines(d, path, DirT);
      }
      var p;
      err, p := ParentOf(path);
      if err != OK {
        return;
      }
      DirFacts(d, p);
      var child := FindEntry(p, Name(path), MAX_DIR_ENTRIES);
      if child >= 0 {
        return EEXIST;
      }
      NameFits(path);
      var c := CreateInode(path, DirT);
      if c < 0 {
        return ENOSPC;
      }
      var ok := AddEntry(p, c);
      if !ok {
        return EPERM;
      }
      InitDots(c, p);
      return OK;
    }

    /** fisopfs_unlink. */
    method RemoveFile(path: string) returns (err: Errno)
      requires Valid() && Inv(Image())
      modifies bitmap, inodos
      ensures Inv(Image()) && (Image(), err) == Unlink(old(Image()), path)
      ensures (TreeOf(Image()), err) == TreeUnlink(old(TreeOf(Image())), path)
    {
      hide Inv, TreeOf, TreeUnlink, Find, ParentDir, EntryFrom, Parent, Name, Removed, OnlyDots;
      ghost var d := Image();
      FsRefine.UnlinkRefines(d, path);
      Lengths(d);
      var p;
      err, p := ParentOf(path);
      if err != OK {
        return;
      }
      DirFacts(d, p);
      var c := FindInode(path);
      if c < 0 {
        return ENOENT;
      }
      if inodos[c].tipo != RegT {
        return EISDIR;
      }
      bitmap[c] := false;
      inodos[c] := Blank();
      assert inodos[p] == d.inodes[p];
      var _ := RemoveEntry(p, Name(path));
      return OK;
    }

    /** fisopfs_rmdir. */
    method RemoveDir(path: string) returns (err: Errno)
      requires Valid() && Inv(Image())
      modifies bitmap, inodos
      ensures Inv(Image()) && (Image(), err) == Rmdir(old(Image()), path)
      ensures (TreeOf(Image()), err) == TreeRmdir(old(TreeOf(Image())), path)
    {
      hide Inv, TreeOf, TreeRmdir, Find, ParentDir, EntryFrom, Parent, Name, Removed, OnlyDots;
      ghost var d := Image();
      FsRefine.RmdirRefines(d, path);
      Lengths(d);
      if path == ROOT {
        return EBUSY;
      }
      var c := FindInode(path);
      if c < 0 {
        return ENOENT;
      }
      if inodos[c].tipo != DirT {
        return ENOTDIR;
      }
      DirFacts(d, c);
      var empty := DirIsEmpty(c);
      if !empty {
        return ENOTEMPTY;
      }
      var p;
      err, p := ParentOf(path);
      if err != OK {
        return;
      }
      DirFacts(d, p);
      var ok := RemoveEntry(p, Name(path));
      if !ok {
        return EIO;
      }
      bitmap[c] := false;
      inodos[c] := Blank();
      return OK;
    }

    /** fisopfs_read. */
    method ReadAt(path: string, size: nat, offset: nat) returns (buffer: seq<Byte>, err: Errno)
      requires Valid() && Inv(Image())
      ensures (buffer, err) == TreeRead(TreeOf(Image()), path, size, offset)
    {
      hide Inv, TreeOf, TreeRead, Find, Written, Cut, InodeOk;
      ReadRefines(Image(), path, size, offset);
      Lengths(Image());
      var k := FindInode(path);
      if k < 0 {
        return [], ENOENT;
      }
      if inodos[k].tipo != RegT {
        return [], EISDIR;
      }
      FileFacts(Image(), k);
      if offset >= inodos[k].tam {
        return [], OK;
      }
      var n := size;
      if offset + n > inodos[k].tam {
        n := inodos[k].tam - offset;
      }
      return inodos[k].content[offset..offset + n], OK;
    }

    /** fisopfs_write. */
    method WriteAt(path: string, data: seq<Byte>, offset: nat) returns (err: Errno)
      requires Valid() && Inv(Image())
      modifies inodos
      ensures Inv(Image()) && (Image(), err) == Write(old(Image()), path, data, offset)
      ensures !EmptyWritePastEnd(old(TreeOf(Image())), path, data, offset) ==>
        (TreeOf(Image()), err) == TreeWrite(old(TreeOf(Image())), path, data, offset)
    {
      hide Inv, TreeOf, TreeWrite, EmptyWritePastEnd, Find, Written, Cut, InodeOk;
      ghost var d := Image();
      WriteRefines(d, path, data, offset);
      Lengths(d);
      var k := FindInode(path);
      if k < 0 {
        return ENOENT;
      }
      if inodos[k].tipo != RegT {
        return EISDIR;
      }
      if offset + |data| > MAX_CONTENT {
        return EFBIG;
      }
      FileFacts(Image(), k);
      CopyIn(k, data, offset);
      return OK;
    }

    /** fisopfs_truncate. */
    method SetSize(path: string, size: nat) returns (err: Errno)
      requires Valid() && Inv(Image())
      modifies inodos
      ensures Inv(Image()) && (Image(), err) == Truncate(old(Image()), path, size)
      ensures (TreeOf(Image()), err) == TreeTruncate(old(TreeOf(Image())), path, size)
    {
      hide Inv, TreeOf, TreeTruncate, Find, Written, Cut, InodeOk;
      ghost var d := Image();
      TruncateRefines(d, path, size);
      Lengths(d);
      var k := FindInode(path);
      if k < 0 {
        return ENOENT;
      }
      if inodos[k].tipo != RegT {
        return EISDIR;
      }
      if size > MAX_CONTENT {
        return EFBIG;
      }
      FileFacts(Image(), k);
      CutTo(k, size);
      return OK;
    }
  }

  /** The table when slots s..j have been moved: slot j is there twice. */
  function Moved(slots: seq<Entry>, s: nat, j: nat): (t: seq<Entry>)
    requires s <= j < |slots|
    ensures |t| == |slots|
  {
    slots[..s] + slots[s + 1..j + 1] + slots[j..]
  }

  lemma MovedStep(slots: seq<Entry>, s: nat, j: nat)
    requires s <= j && j + 1 < |slots|
    ensures Moved(slots, s, j)[j := Moved(slots, s, j)[j + 1]] == Moved(slots, s, j + 1)
  {
  }

  lemma MovedEnds(slots: seq<Entry>, s: nat, n: nat)
    requires s < n <= |slots|
    ensures Moved(slots, s, s) == slots
    ensures Moved(slots, s, n - 1)[n - 1 := EMPTY] == Shifted(slots, s, n)
  {
  }

  lemma NameFits(path: string)
    ensures |Name(path)| < MAX_PATH
  {
  }

  lemma FileFacts(d: Disk, k: int)
    requires Inv(d) && Occupied(d, k) && d.inodes[k].tipo.RegT?
    ensures InodeOk(d.inodes[k], k) && |d.inodes[k].content| == MAX_CONTENT && d.inodes[k].tam <= MAX_CONTENT
  {
    assert InodeOk(d.inodes[k], k);
  }

  lemma DirFacts(d: Disk, p: int)
    requires Inv(d) && IsDir(d, p)
    ensures |d.inodes[p].slots| == MAX_DIR_ENTRIES + 1 && d.inodes[p].tam / ENTRY_SIZE <= |d.inodes[p].slots|
  {
    TableFacts(d, p);
  }
}
