/** Regular files of fisopfs as POSIX byte sequences: pread, pwrite and ftruncate of the
    System Interfaces volume of POSIX.1-2017 against TP3-fisopfs/fisopfs.c. The proof rests on
    the bytes past `tam` being zero (`Fs.BytesOk`). */
module FsFiles {
  import opened Fs
  import opened FsLinks
  import opened FsOps

  // ----- the operations, on the disk image -----

  function Read(d: Disk, path: string, size: nat, offset: nat): (seq<Byte>, Errno)
    requires Inv(d)
  {
    Lengths(d);
    var k := Find(d, path);
    if k < 0 then ([], ENOENT)
    else if d.inodes[k].tipo.DirT? then ([], EISDIR)
    else
      assert InodeOk(d.inodes[k], k);
      var f := d.inodes[k];
      if offset >= f.tam then ([], OK)
      else (f.content[offset..offset + if offset + size > f.tam then f.tam - offset else size], OK)
  }

  function Written(f: Inode, data: seq<Byte>, offset: nat): Inode
    requires offset + |data| <= |f.content|
  {
    f.(content := f.content[..offset] + data + f.content[offset + |data|..],
       tam := if offset + |data| > f.tam then offset + |data| else f.tam)
  }

  function Write(d: Disk, path: string, data: seq<Byte>, offset: nat): (Disk, Errno)
    requires Inv(d)
  {
    Lengths(d);
    var k := Find(d, path);
    if k < 0 then (d, ENOENT)
    else if d.inodes[k].tipo.DirT? then (d, EISDIR)
    else if offset + |data| > MAX_CONTENT then (d, EFBIG)
    else
      assert InodeOk(d.inodes[k], k);
      (d.(inodes := d.inodes[k := Written(d.inodes[k], data, offset)]), OK)
  }

  function Cut(f: Inode, size: nat): Inode
    requires f.tam <= |f.content|
  {
    f.(content := if size < f.tam then f.content[..size] + Zeros(f.tam - size) + f.content[f.tam..] else f.content,
       tam := size)
  }

  function Truncate(d: Disk, path: string, size: nat): (Disk, Errno)
    requires Inv(d)
  {
    Lengths(d);
    var k := Find(d, path);
    if k < 0 then (d, ENOENT)
    else if d.inodes[k].tipo.DirT? then (d, EISDIR)
    else if size > MAX_CONTENT then (d, EFBIG)
    else
      assert InodeOk(d.inodes[k], k);
      (d.(inodes := d.inodes[k := Cut(d.inodes[k], size)]), OK)
  }

  // ----- POSIX -----

  /** Byte i of a file; a hole or a byte past the end reads as zero. */
  function ByteAt(f: seq<Byte>, i: int): Byte
  {
    if 0 <= i < |f| then f[i] else 0
  }

  /** ftruncate: the first n bytes, or the file extended with zeros to n bytes. */
  function Ftruncate(f: seq<Byte>, n: nat): seq<Byte>
  {
    seq(n, i => ByteAt(f, i))
  }

  /** pwrite of at least one byte: the data at the offset, the other bytes as they were, any gap
      zero. */
  function Pwrite(f: seq<Byte>, data: seq<Byte>, offset: nat): seq<Byte>
  {
    seq(if offset + |data| > |f| then offset + |data| else |f|,
        i => if offset <= i < offset + |data| then data[i - offset] else ByteAt(f, i))
  }

  /** pread: the bytes from the offset on that are in the file, at most `size` of them. */
  function Pread(f: seq<Byte>, size: nat, offset: nat): seq<Byte>
  {
    if offset >= |f| then [] else if size <= |f| - offset then f[offset..][..size] else f[offset..]
  }

  function TreeRead(t: Tree, path: string, size: nat, offset: nat): (seq<Byte>, Errno)
  {
    if path !in t then ([], ENOENT)
    else if t[path].Dir? then ([], EISDIR)
    else (Pread(t[path].bytes, size, offset), OK)
  }

  /** A write of no bytes changes nothing, wherever it is. */
  function TreeWrite(t: Tree, path: string, data: seq<Byte>, offset: nat): (Tree, Errno)
  {
    if path !in t then (t, ENOENT)
    else if t[path].Dir? then (t, EISDIR)
    else if data == [] then (t, OK)
    else if offset + |data| > MAX_CONTENT then (t, EFBIG)
    else (t[path := File(Pwrite(t[path].bytes, data, offset))], OK)
  }

  function TreeTruncate(t: Tree, path: string, size: nat): (Tree, Errno)
  {
    if path !in t then (t, ENOENT)
    else if t[path].Dir? then (t, EISDIR)
    else if size > MAX_CONTENT then (t, EFBIG)
    else (t[path := File(Ftruncate(t[path].bytes, size))], OK)
  }

  /** The one write that is not pwrite: no bytes, at an offset past the end. Up to 4096 it extends
      the file, beyond it fails. */
  predicate EmptyWritePastEnd(t: Tree, path: string, data: seq<Byte>, offset: nat)
  {
    path in t && t[path].File? && data == [] && |t[path].bytes| < offset
  }

  // ----- the refinement -----

  lemma BytesPadded(f: Inode, i: nat)
    requires f.tipo.RegT? && BytesOk(f) && i < MAX_CONTENT
    ensures NodeOf(f).File? && |NodeOf(f).bytes| == f.tam && ByteAt(NodeOf(f).bytes, i) == f.content[i]
  {
  }

  lemma WrittenByte(f: Inode, data: seq<Byte>, offset: nat, i: nat)
    requires BytesOk(f) && offset + |data| <= MAX_CONTENT && i < MAX_CONTENT
    ensures |Written(f, data, offset).content| == MAX_CONTENT
    ensures Written(f, data, offset).content[i] ==
      if offset <= i < offset + |data| then data[i - offset] else f.content[i]
  {
  }

  lemma WrittenOk(f: Inode, data: seq<Byte>, offset: nat)
    requires BytesOk(f) && offset + |data| <= MAX_CONTENT
    ensures BytesOk(Written(f, data, offset)) && Written(f, data, offset).tipo == f.tipo
    ensures Written(f, data, offset).tam == if offset + |data| > f.tam then offset + |data| else f.tam
    ensures data == [] ==> Written(f, data, offset).content == f.content
  {
    var g := Written(f, data, offset);
    forall i | g.tam <= i < MAX_CONTENT ensures |g.content| == MAX_CONTENT && g.content[i] == 0 {
      WrittenByte(f, data, offset, i);
    }
  }

  /** What an inode holds after some bytes are written is what pwrite says. */
  lemma WrittenIsPwrite(f: Inode, data: seq<Byte>, offset: nat)
    requires f.tipo.RegT? && BytesOk(f) && data != [] && offset + |data| <= MAX_CONTENT
    ensures NodeOf(Written(f, data, offset)) == File(Pwrite(NodeOf(f).bytes, data, offset))
  {
    hide ByteAt, Written;
    WrittenOk(f, data, offset);
    var g, w := Written(f, data, offset), Pwrite(NodeOf(f).bytes, data, offset);
    forall i | 0 <= i < g.tam ensures |w| == g.tam && g.content[i] == w[i] {
      WrittenByte(f, data, offset, i);
      BytesPadded(f, i);
    }
    assert g.content[..g.tam] == w;
  }

  /** A write of no bytes only ever extends the file. */
  lemma EmptyWriteExtends(f: Inode, offset: nat)
    requires f.tipo.RegT? && BytesOk(f) && offset <= MAX_CONTENT
    ensures NodeOf(Written(f, [], offset)) ==
      if offset > f.tam then File(Ftruncate(NodeOf(f).bytes, offset)) else NodeOf(f)
  {
    hide ByteAt, Written;
    WrittenOk(f, [], offset);
    if offset > f.tam {
      forall i | 0 <= i < offset ensures ByteAt(NodeOf(f).bytes, i) == f.content[i] {
        BytesPadded(f, i);
      }
      assert f.content[..offset] == Ftruncate(NodeOf(f).bytes, offset);
    }
  }

  lemma CutIs(f: Inode, size: nat)
    requires f.tipo.RegT? && BytesOk(f) && size <= MAX_CONTENT
    ensures BytesOk(Cut(f, size))
    ensures NodeOf(Cut(f, size)) == File(Ftruncate(NodeOf(f).bytes, size))
  {
    var g := Cut(f, size);
    assert forall i :: 0 <= i < MAX_CONTENT ==> g.content[i] == if size <= i < f.tam then 0 else f.content[i];
    forall i: nat | i < MAX_CONTENT ensures ByteAt(NodeOf(f).bytes, i) == f.content[i] {
      BytesPadded(f, i);
    }
  }

  ghost predicate OnlyBytesChange(d: Disk, k: nat, g: Inode)
  {
    && Inv(d) && |d.used| == |d.inodes| && Occupied(d, k) && d.inodes[k].tipo.RegT? && BytesOk(g)
    && g == d.inodes[k].(content := g.content, tam := g.tam)
  }

  function WithFile(d: Disk, k: nat, g: Inode): Disk
    requires k < |d.inodes|
  {
    d.(inodes := d.inodes[k := g])
  }

  lemma SameInodes(d: Disk, k: nat, g: Inode)
    requires OnlyBytesChange(d, k, g)
    ensures InodesOk(WithFile(d, k, g)) && PathsDistinct(WithFile(d, k, g)) && DotDotOk(WithFile(d, k, g))
    ensures forall i :: Occupied(WithFile(d, k, g), i) <==> Occupied(d, i)
  {
    hide EntriesOk, EntriesOnce, AllReached, WellFormed, Parent, Name, Dots, Live, TableOk, BytesOk;
    var e := WithFile(d, k, g);
    assert forall i :: Occupied(e, i) <==> Occupied(d, i);
    forall i | Occupied(e, i) ensures InodeOk(e.inodes[i], i) {
      assert InodeOk(d.inodes[i], i);
    }
  }

  lemma SameEntries(d: Disk, k: nat, g: Inode)
    requires OnlyBytesChange(d, k, g)
    ensures forall i, s :: Holds(WithFile(d, k, g), i, s) <==> Holds(d, i, s)
    ensures forall i, s :: Child(WithFile(d, k, g), i, s) == Child(d, i, s)
  {
    hide EntriesOk, EntriesOnce, AllReached, InodesOk, DotDotOk, PathsDistinct;
    hide WellFormed, Parent, Name, Dots, Live, TableOk, BytesOk;
  }

  lemma FileChangedInv(d: Disk, k: nat, g: Inode)
    requires OnlyBytesChange(d, k, g)
    ensures Inv(WithFile(d, k, g))
  {
    hide WellFormed, Parent, Name, Dots, Live, TableOk, BytesOk, InodesOk, PathsDistinct, DotDotOk, Child;
    SameInodes(d, k, g);
    SameEntries(d, k, g);
    var e := WithFile(d, k, g);
    hide Holds;
    forall i, s | Holds(e, i, s) ensures NamesChild(e, i, s) {
      assert NamesChild(d, i, s);
    }
    forall c | Occupied(e, c) && c != 0 ensures Reached(e, c) {
      assert Reached(d, c);
      var i, s :| Holds(d, i, s) && Child(d, i, s) == c;
      assert Holds(e, i, s) && Child(e, i, s) == c;
    }
  }

  /** Changing the bytes of one regular file changes that file and nothing else. */
  lemma FileChanged(d: Disk, k: nat, g: Inode)
    requires OnlyBytesChange(d, k, g)
    ensures Inv(WithFile(d, k, g))
    ensures TreeOf(WithFile(d, k, g)) == TreeOf(d)[d.inodes[k].path := NodeOf(g)]
  {
    hide InodesOk, PathsDistinct, EntriesOk, EntriesOnce, AllReached, DotDotOk, BytesOk, TreeOf, Find;
    FileChangedInv(d, k, g);
    SameInodes(d, k, g);
    var e := WithFile(d, k, g);
    var t, u := TreeOf(d), TreeOf(e);
    TreeAt(e, k);
    TreeAt(d, k);
    forall q | q in u ensures q in t && (q != d.inodes[k].path ==> u[q] == t[q]) {
      var i := TreeSource(e, q);
      TreeAt(d, i);
    }
    forall q | q in t ensures q in u {
      var i := TreeSource(d, q);
      TreeAt(e, i);
    }
  }

  lemma FileAt(d: Disk, path: string)
    requires Inv(d) && path in TreeOf(d) && TreeOf(d)[path].File?
    ensures var k := Find(d, path);
      && Occupied(d, k) && d.inodes[k].tipo.RegT? && BytesOk(d.inodes[k]) && d.inodes[k].path == path
      && TreeOf(d)[path] == NodeOf(d.inodes[k]) && |TreeOf(d)[path].bytes| == d.inodes[k].tam
  {
    FindInTree(d, path);
    var k := Find(d, path);
    assert InodeOk(d.inodes[k], k);
  }

  /** read returns exactly the bytes pread does. */
  lemma ReadRefines(d: Disk, path: string, size: nat, offset: nat)
    requires Inv(d)
    ensures Read(d, path, size, offset) == TreeRead(TreeOf(d), path, size, offset)
  {
    hide InodesOk, PathsDistinct, EntriesOk, EntriesOnce, AllReached, DotDotOk, TreeOf;
    Lengths(d);
    FindInTree(d, path);
    if path in TreeOf(d) && TreeOf(d)[path].File? {
      FileAt(d, path);
      var f := d.inodes[Find(d, path)];
      if offset < f.tam {
        assert Pread(f.content[..f.tam], size, offset) ==
          f.content[offset..offset + if offset + size > f.tam then f.tam - offset else size];
      }
    }
  }

  /** write is pwrite, in its effect and its reply, exactly when it is not an empty write past the
      end; that one is a truncate to the offset. Either way both views of the tree still agree. */
  lemma WriteRefines(d: Disk, path: string, data: seq<Byte>, offset: nat)
    requires Inv(d)
    ensures var (e, err) := Write(d, path, data, offset);
      && Inv(e)
      && ((TreeOf(e), err) == TreeWrite(TreeOf(d), path, data, offset)
          <==> !EmptyWritePastEnd(TreeOf(d), path, data, offset))
      && (EmptyWritePastEnd(TreeOf(d), path, data, offset) ==>
            (TreeOf(e), err) == TreeTruncate(TreeOf(d), path, offset))
    ensures |Write(d, path, data, offset).0.used| == |d.used|
  {
    hide InodesOk, PathsDistinct, EntriesOk, EntriesOnce, AllReached, DotDotOk, TreeOf, BytesOk, Written, Find;
    FindInTree(d, path);
    Lengths(d);
    var t := TreeOf(d);
    if path in t && t[path].File? {
      FileAt(d, path);
      SizeBound(d.inodes[Find(d, path)]);
    }
    if path in t && t[path].File? && offset + |data| <= MAX_CONTENT {
      var k := Find(d, path);
      WrittenOk(d.inodes[k], data, offset);
      if data == [] {
        EmptyWriteExtends(d.inodes[k], offset);
        assert t[path := t[path]] == t;
      } else {
        WrittenIsPwrite(d.inodes[k], data, offset);
      }
      WrittenFields(d.inodes[k], data, offset);
      FileChanged(d, k, Written(d.inodes[k], data, offset));
      assert Write(d, path, data, offset).0 == WithFile(d, k, Written(d.inodes[k], data, offset));
      if EmptyWritePastEnd(t, path, data, offset) {
        assert TreeWrite(t, path, data, offset).0[path] == t[path];
        assert TreeTruncate(t, path, offset).0[path] != t[path] by {
          assert |Ftruncate(t[path].bytes, offset)| == offset;
        }
      }
    }
  }

  lemma SizeBound(f: Inode)
    requires BytesOk(f)
    ensures f.tam <= MAX_CONTENT
  {
  }

  lemma WrittenFields(f: Inode, data: seq<Byte>, offset: nat)
    requires BytesOk(f) && offset + |data| <= MAX_CONTENT
    ensures offset + |data| <= |f.content|
    ensures var g := Written(f, data, offset); g == f.(content := g.content, tam := g.tam)
  {
  }

  /** truncate is ftruncate for every size up to 4096. */
  lemma TruncateRefines(d: Disk, path: string, size: nat)
    requires Inv(d)
    ensures Inv(Truncate(d, path, size).0)
    ensures (TreeOf(Truncate(d, path, size).0), Truncate(d, path, size).1) == TreeTruncate(TreeOf(d), path, size)
    ensures |Truncate(d, path, size).0.used| == |d.used|
  {
    hide InodesOk, PathsDistinct, EntriesOk, EntriesOnce, AllReached, DotDotOk, TreeOf, Find;
    FindInTree(d, path);
    Lengths(d);
    var t := TreeOf(d);
    if path in t && t[path].File? && size <= MAX_CONTENT {
      FileAt(d, path);
      var k := Find(d, path);
      CutIs(d.inodes[k], size);
      FileChanged(d, k, Cut(d.inodes[k], size));
    }
  }
}
