/** Runs of fisopfs: from a fresh disk, any sequence of calls leaves a disk whose tree and whose
    replies are those of the same calls on a tree of named files (TP3-fisopfs/fisopfs.c). */
module FsRuns {
  import opened Fs
  import opened FsLinks
  import opened FsOps
  import opened FsRefine
  import opened FsFiles

  datatype Call =
    | CreateFile(path: string)
    | MakeDir(path: string)
    | RemoveFile(path: string)
    | RemoveDir(path: string)
    | ReadAt(path: string, size: nat, offset: nat)
    | WriteAt(path: string, data: seq<Byte>, offset: nat)
    | SetSize(path: string, size: nat)

  datatype Reply = Reply(err: Errno, bytes: seq<Byte>)

  function Step(d: Disk, c: Call): (Disk, Reply)
    requires Inv(d)
  {
    match c
    case CreateFile(path) => var (e, r) := Make(d, path, RegT); (e, Reply(r, []))
    case MakeDir(path) => var (e, r) := Make(d, path, DirT); (e, Reply(r, []))
    case RemoveFile(path) => var (e, r) := Unlink(d, path); (e, Reply(r, []))
    case RemoveDir(path) => var (e, r) := Rmdir(d, path); (e, Reply(r, []))
    case ReadAt(path, size, offset) => var (b, r) := Read(d, path, size, offset); (d, Reply(r, b))
    case WriteAt(path, data, offset) => var (e, r) := Write(d, path, data, offset); (e, Reply(r, []))
    case SetSize(path, size) => var (e, r) := Truncate(d, path, size); (e, Reply(r, []))
  }

  ghost function TreeStep(t: Tree, c: Call, inodes: nat): (Tree, Reply)
  {
    match c
    case CreateFile(path) => var (u, r) := TreeMake(t, path, File([]), inodes); (u, Reply(r, []))
    case MakeDir(path) => var (u, r) := TreeMake(t, path, Dir, inodes); (u, Reply(r, []))
    case RemoveFile(path) => var (u, r) := TreeUnlink(t, path); (u, Reply(r, []))
    case RemoveDir(path) => var (u, r) := TreeRmdir(t, path); (u, Reply(r, []))
    case ReadAt(path, size, offset) => var (b, r) := TreeRead(t, path, size, offset); (t, Reply(r, b))
    case WriteAt(path, data, offset) => var (u, r) := TreeWrite(t, path, data, offset); (u, Reply(r, []))
    case SetSize(path, size) => var (u, r) := TreeTruncate(t, path, size); (u, Reply(r, []))
  }

  /** The path of a new node is well formed; no directory overflows; no empty write lands past
      the end of a file. All of it can be told from the tree before the call. */
  ghost predicate Allowed(t: Tree, c: Call, inodes: nat)
  {
    match c
    case CreateFile(path) => WellFormed(path) && !Overflows(t, path, inodes)
    case MakeDir(path) => WellFormed(path) && !Overflows(t, path, inodes)
    case WriteAt(path, data, offset) => !EmptyWritePastEnd(t, path, data, offset)
    case _ => true
  }

  lemma StepRefines(d: Disk, c: Call)
    requires Inv(d) && Allowed(TreeOf(d), c, |d.used|)
    ensures Inv(Step(d, c).0) && |Step(d, c).0.used| == |d.used|
    ensures (TreeOf(Step(d, c).0), Step(d, c).1) == TreeStep(TreeOf(d), c, |d.used|)
  {
    hide Inv, TreeOf, Make, Unlink, Rmdir, Read, Write, Truncate, Overflows, EmptyWritePastEnd, WellFormed;
    hide TreeMake, TreeUnlink, TreeRmdir, TreeRead, TreeWrite, TreeTruncate;
    match c
    case CreateFile(path) => MakeRefines(d, path, RegT);
    case MakeDir(path) => MakeRefines(d, path, DirT);
    case RemoveFile(path) => UnlinkRefines(d, path);
    case RemoveDir(path) => RmdirRefines(d, path);
    case ReadAt(path, size, offset) => ReadRefines(d, path, size, offset);
    case WriteAt(path, data, offset) => WriteRefines(d, path, data, offset);
    case SetSize(path, size) => TruncateRefines(d, path, size);
  }

  // ----- runs -----

  ghost function TreeRun(t: Tree, calls: seq<Call>, inodes: nat): (Tree, seq<Reply>)
    decreases |calls|
  {
    if calls == [] then (t, [])
    else
      var (u, r) := TreeStep(t, calls[0], inodes);
      var (v, rs) := TreeRun(u, calls[1..], inodes);
      (v, [r] + rs)
  }

  ghost predicate AllAllowed(t: Tree, calls: seq<Call>, inodes: nat)
    decreases |calls|
  {
    calls != [] ==>
      Allowed(t, calls[0], inodes) && AllAllowed(TreeStep(t, calls[0], inodes).0, calls[1..], inodes)
  }

  /** `e` and `rs` are what a run of the calls from `d` ends in and answers. */
  ghost predicate Runs(d: Disk, calls: seq<Call>, e: Disk, rs: seq<Reply>)
    requires Inv(d)
    decreases |calls|
  {
    if calls == [] then e == d && rs == []
    else
      rs != [] && rs[0] == Step(d, calls[0]).1 && Inv(Step(d, calls[0]).0) &&
      Runs(Step(d, calls[0]).0, calls[1..], e, rs[1..])
  }

  /** From any disk whose two views agree: every allowed run goes through, the views agree at
      its end, and the tree and all the replies are those of the tree operations. */
  lemma {:induction false} RunRefines(d: Disk, calls: seq<Call>) returns (e: Disk, rs: seq<Reply>)
    requires Inv(d) && AllAllowed(TreeOf(d), calls, |d.used|)
    ensures Runs(d, calls, e, rs) && Inv(e)
    ensures (TreeOf(e), rs) == TreeRun(TreeOf(d), calls, |d.used|)
    decreases |calls|
  {
    hide Inv, TreeOf, Step, TreeStep, Allowed;
    if calls == [] {
      e, rs := d, [];
    } else {
      StepRefines(d, calls[0]);
      var d', r := Step(d, calls[0]).0, Step(d, calls[0]).1;
      e, rs := RunRefines(d', calls[1..]);
      rs := [r] + rs;
      assert rs[1..] == TreeRun(TreeOf(d'), calls[1..], |d.used|).1;
    }
  }

  // ----- the fresh disk -----

  /** inicializar_filesystem. */
  function Mkfs(inodes: nat): Disk
    requires inodes > 0
  {
    Disk(seq(inodes, i => i == 0), seq(inodes, i => if i == 0 then Blank().(path := ROOT) else Blank()))
  }

  lemma MkfsInv(inodes: nat)
    requires inodes > 0
    ensures Inv(Mkfs(inodes))
    ensures TreeOf(Mkfs(inodes)) == map[ROOT := Dir]
  {
    hide WellFormed, BytesOk;
    var d := Mkfs(inodes);
    assert forall i :: Occupied(d, i) <==> i == 0;
    var root := d.inodes[0];
    assert root == Blank().(path := ROOT);
    assert Live(root) == 0 && TableOk(root) && InodeOk(root, 0);
    assert InodesOk(d);
    assert forall i, s :: !Holds(d, i, s);
    assert Dots(ROOT) == 0;
    TreeAt(d, 0);
    forall q | q in TreeOf(d) ensures q == ROOT {
      var i := TreeSource(d, q);
    }
  }

  /** The tree of a disk is a tree: below the root every path is a name joined to the path of
      a directory that is there. */
  lemma TreeIsClosed(d: Disk, q: string)
    requires Inv(d) && q in TreeOf(d) && q != ROOT
    ensures WellFormed(q) && Parent(q) in TreeOf(d) && TreeOf(d)[Parent(q)] == Dir
    ensures q == Join(Parent(q), Name(q)) && '/' !in Name(q) && Name(q) !in {"", ".", ".."}
    ensures |Children(TreeOf(d), Parent(q))| <= Room(Parent(q))
  {
    hide BytesOk, TreeOf, TableOk, Live;
    Lengths(d);
    var c := TreeSource(d, q);
    assert InodeOk(d.inodes[c], c) && c != 0;
    SplitJoin(q);
    var p, s := OneEntryEach(d, c);
    assert NamesChild(d, p, s);
    TreeAt(d, p);
    ChildPathsAre(d, p);
    TableFacts(d, p);
    CountChildPaths(d, p, Live(d.inodes[p]));
  }
}
