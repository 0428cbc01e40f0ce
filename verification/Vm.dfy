/** The abstract memory state behind TP2-sched/kern/pmap.c: which page backs each page
    directory, page table and user mapping, and which pages the kernel is holding while an
    operation is under way. Reference counts and the free list are functions of it. */
module Vm {
  import opened Mmu

  datatype Pte = Pte(page: nat, perm: nat)

  // A page-directory slot, and a user page number split into its two table indices.
  datatype PdeKey = PdeKey(dir: nat, pdx: nat)
  datatype PteKey = PteKey(dir: nat, pdx: nat, ptx: nat)

  datatype Vm = Vm(
    pool: set<nat>,             // pages page_init handed to the allocator
    roots: set<nat>,            // page directories of live environments
    tables: map<PdeKey, nat>,   // present user PDEs
    maps: map<PteKey, Pte>,     // present user PTEs
    held: set<nat>,             // pages carrying one count not yet (or no longer) in a table
    hand: set<nat>              // pages taken off the free list and not yet counted
  )

  ghost function Pdes(vm: Vm, p: nat): set<PdeKey>
  {
    set k | k in vm.tables && vm.tables[k] == p
  }

  ghost function Ptes(vm: Vm, p: nat): set<PteKey>
  {
    set k | k in vm.maps && vm.maps[k].page == p
  }

  function One(b: bool): nat { if b then 1 else 0 }

  /** How many things name page `p`: directory roots, user PDEs, user PTEs, held counts. */
  ghost function Refs(vm: Vm, p: nat): nat
  {
    One(p in vm.roots) + |Pdes(vm, p)| + |Ptes(vm, p)| + One(p in vm.held)
  }

  ghost predicate Free(vm: Vm, p: nat)
  {
    p in vm.pool && Refs(vm, p) == 0 && p !in vm.hand
  }

  ghost predicate IsTable(vm: Vm, p: nat)
  {
    exists k :: k in vm.tables && vm.tables[k] == p
  }

  ghost predicate IsMapped(vm: Vm, p: nat)
  {
    exists k :: k in vm.maps && vm.maps[k].page == p
  }

  /** Data pages: mapped, or on their way into or out of a mapping. */
  ghost predicate IsData(vm: Vm, p: nat)
  {
    IsMapped(vm, p) || p in vm.held || p in vm.hand
  }

  function TableOf(k: PteKey): PdeKey { PdeKey(k.dir, k.pdx) }

  ghost predicate WellFormed(vm: Vm)
  {
    && vm.roots <= vm.pool && vm.held <= vm.pool && vm.hand <= vm.pool
    && (forall k :: k in vm.tables ==>
          k.dir in vm.roots && k.pdx < NUSERPDE && vm.tables[k] in vm.pool)
    && (forall k, l :: k in vm.tables && l in vm.tables && vm.tables[k] == vm.tables[l] ==> k == l)
    && (forall k :: k in vm.maps ==>
          && TableOf(k) in vm.tables && k.ptx < NPTENTRIES
          && vm.maps[k].page in vm.pool
          && vm.maps[k].perm < PGSIZE && Has(vm.maps[k].perm, PTE_P))
    // a page serves one purpose at a time
    && (forall k :: k in vm.tables ==>
          vm.tables[k] !in vm.roots && vm.tables[k] !in vm.hand && vm.tables[k] !in vm.held)
    && (forall k, l :: k in vm.maps && l in vm.tables ==> vm.maps[k].page != vm.tables[l])
    && (forall k :: k in vm.maps ==> vm.maps[k].page !in vm.roots && vm.maps[k].page !in vm.hand)
    && vm.hand !! vm.held && vm.roots !! vm.hand && vm.roots !! vm.held
  }

  // ---- the elementary transitions ----

  /** page_alloc: a free page is taken in hand. */
  ghost function Take(vm: Vm, p: nat): Vm { vm.(hand := vm.hand + {p}) }

  /** `pp_ref++` before the page is named anywhere. */
  ghost function Hold(vm: Vm, p: nat): Vm { vm.(held := vm.held + {p}, hand := vm.hand - {p}) }

  /** `pp_ref--` of a held count. */
  ghost function Release(vm: Vm, p: nat): Vm { vm.(held := vm.held - {p}) }

  /** A held page is written into an empty PTE. */
  ghost function Install(vm: Vm, k: PteKey, e: Pte): Vm
  {
    vm.(maps := vm.maps[k := e], held := vm.held - {e.page})
  }

  /** A PTE is cleared and the count it stood for dropped. */
  ghost function Unmap(vm: Vm, k: PteKey): Vm { vm.(maps := vm.maps - {k}) }

  /** A fresh page in hand becomes the page table behind an empty PDE. */
  ghost function AddTable(vm: Vm, k: PdeKey, t: nat): Vm
  {
    vm.(tables := vm.tables[k := t], hand := vm.hand - {t})
  }

  /** A PDE is cleared; its count is still to be dropped. */
  ghost function DropTable(vm: Vm, k: PdeKey): Vm
    requires k in vm.tables
  {
    vm.(tables := vm.tables - {k}, held := vm.held + {vm.tables[k]})
  }

  ghost function AddRoot(vm: Vm, p: nat): Vm { vm.(roots := vm.roots + {p}, hand := vm.hand - {p}) }

  ghost function DropRoot(vm: Vm, p: nat): Vm { vm.(roots := vm.roots - {p}, held := vm.held + {p}) }

  // ---- how single updates move the counts ----

  lemma PtesAdd(vm: Vm, w: Vm, k: PteKey, e: Pte, p: nat)
    requires k !in vm.maps && w.maps == vm.maps[k := e]
    ensures |Ptes(w, p)| == |Ptes(vm, p)| + One(p == e.page)
  {
    assert Ptes(w, p) == Ptes(vm, p) + if p == e.page then {k} else {};
  }

  lemma PdesSame(vm: Vm, w: Vm, p: nat)
    requires w.tables == vm.tables
    ensures Pdes(w, p) == Pdes(vm, p)
  {
  }

  lemma RefsMap(vm: Vm, k: PteKey, e: Pte, p: nat)
    requires k !in vm.maps
    ensures Refs(vm.(maps := vm.maps[k := e]), p) == Refs(vm, p) + One(p == e.page)
  {
    hide Ptes, Pdes;
    var w := vm.(maps := vm.maps[k := e]);
    PtesAdd(vm, w, k, e, p);
    PdesSame(vm, w, p);
  }

  lemma RefsUnmap(vm: Vm, k: PteKey, p: nat)
    requires k in vm.maps
    ensures Refs(vm, p) == Refs(vm.(maps := vm.maps - {k}), p) + One(p == vm.maps[k].page)
  {
    var w := vm.(maps := vm.maps - {k});
    assert w.maps[k := vm.maps[k]] == vm.maps;
    RefsMap(w, k, vm.maps[k], p);
  }

  lemma PdesAdd(vm: Vm, w: Vm, k: PdeKey, t: nat, p: nat)
    requires k !in vm.tables && w.tables == vm.tables[k := t]
    ensures |Pdes(w, p)| == |Pdes(vm, p)| + One(p == t)
  {
    assert Pdes(w, p) == Pdes(vm, p) + if p == t then {k} else {};
  }

  lemma PtesSame(vm: Vm, w: Vm, p: nat)
    requires w.maps == vm.maps
    ensures Ptes(w, p) == Ptes(vm, p)
  {
  }

  lemma RefsTable(vm: Vm, k: PdeKey, t: nat, p: nat)
    requires k !in vm.tables
    ensures Refs(vm.(tables := vm.tables[k := t]), p) == Refs(vm, p) + One(p == t)
  {
    hide Ptes, Pdes;
    var w := vm.(tables := vm.tables[k := t]);
    PdesAdd(vm, w, k, t, p);
    PtesSame(vm, w, p);
  }

  lemma RefsUntable(vm: Vm, k: PdeKey, p: nat)
    requires k in vm.tables
    ensures Refs(vm, p) == Refs(vm.(tables := vm.tables - {k}), p) + One(p == vm.tables[k])
  {
    var w := vm.(tables := vm.tables - {k});
    assert w.tables[k := vm.tables[k]] == vm.tables;
    RefsTable(w, k, vm.tables[k], p);
  }

  /** Roots, held and hand sets enter the count as plain memberships. */
  lemma RefsSets(vm: Vm, w: Vm, p: nat)
    requires vm.tables == w.tables && vm.maps == w.maps
    ensures Refs(w, p) + One(p in vm.roots) + One(p in vm.held) == Refs(vm, p) + One(p in w.roots) + One(p in w.held)
  {
    hide Ptes, Pdes;
    PdesSame(vm, w, p);
    PtesSame(vm, w, p);
  }

  lemma CountedPositive(vm: Vm, p: nat)
    ensures p in vm.roots || p in vm.held || IsTable(vm, p) || IsMapped(vm, p) <==> Refs(vm, p) > 0
  {
    if IsTable(vm, p) {
      var k :| k in vm.tables && vm.tables[k] == p;
      assert k in Pdes(vm, p);
    }
    if IsMapped(vm, p) {
      var k :| k in vm.maps && vm.maps[k].page == p;
      assert k in Ptes(vm, p);
    }
    if |Pdes(vm, p)| > 0 {
      var k :| k in Pdes(vm, p);
      assert IsTable(vm, p);
    }
    if |Ptes(vm, p)| > 0 {
      var k :| k in Ptes(vm, p);
      assert IsMapped(vm, p);
    }
  }

  /** What a successful page_insert does as a whole: one PTE is set, `t` becomes the page
      table if there was none, and a page in hand is in hand no longer. */
  ghost function Inserted(vm: Vm, k: PteKey, e: Pte, t: nat): Vm
  {
    vm.(tables := if TableOf(k) in vm.tables then vm.tables else vm.tables[TableOf(k) := t],
        maps := vm.maps[k := e],
        hand := vm.hand - {e.page})
  }

  /** Walk, hold, unmap and install compose to Inserted. */
  lemma InsertSteps(vm: Vm, w: Vm, k: PteKey, e: Pte, t: nat)
    requires w == if TableOf(k) in vm.tables then vm else AddTable(Take(vm, t), TableOf(k), t)
    requires e.page !in vm.held && (TableOf(k) in vm.tables || t !in vm.hand)
    ensures Install(Unmap(Hold(w, e.page), k), k, e) == Inserted(vm, k, e, t)
  {
    var x := Install(Unmap(Hold(w, e.page), k), k, e);
    assert x.held == vm.held;
    assert x.maps == vm.maps[k := e];
    assert x.hand == vm.hand - {e.page};
  }

  /** env_free part-way: directory `dir` has lost its tables below index `d`, and its
      mappings below entry `t` of table `d`. */
  ghost function Cleared(vm: Vm, dir: nat, d: nat, t: nat): Vm
  {
    vm.(tables := map k | k in vm.tables && (k.dir != dir || k.pdx >= d) :: vm.tables[k],
        maps := map k | k in vm.maps && (k.dir != dir || k.pdx > d || (k.pdx == d && k.ptx >= t)) :: vm.maps[k])
  }

  /** The state without directory `dir` and everything below it. */
  ghost function Without(vm: Vm, dir: nat): Vm
  {
    vm.(roots := vm.roots - {dir},
        tables := map k | k in vm.tables && k.dir != dir :: vm.tables[k],
        maps := map k | k in vm.maps && k.dir != dir :: vm.maps[k])
  }

  lemma ClearedStart(vm: Vm, dir: nat)
    ensures Cleared(vm, dir, 0, 0) == vm
  {
    assert Cleared(vm, dir, 0, 0).tables == vm.tables;
    assert Cleared(vm, dir, 0, 0).maps == vm.maps;
  }

  lemma ClearedEntry(vm: Vm, dir: nat, d: nat, t: nat)
    ensures Cleared(vm, dir, d, t + 1) == Unmap(Cleared(vm, dir, d, t), PteKey(dir, d, t))
  {
    assert Cleared(vm, dir, d, t + 1).maps == Unmap(Cleared(vm, dir, d, t), PteKey(dir, d, t)).maps;
  }

  lemma ClearedNoTable(vm: Vm, dir: nat, d: nat)
    requires WellFormed(vm) && PdeKey(dir, d) !in vm.tables
    ensures Cleared(vm, dir, d + 1, 0) == Cleared(vm, dir, d, 0)
  {
    var next := Cleared(vm, dir, d + 1, 0);
    forall k | k in vm.maps && k.dir == dir ensures k.pdx != d {
      assert TableOf(k) in vm.tables;
    }
    hide WellFormed;
    assert next.tables == Cleared(vm, dir, d, 0).tables;
    assert next.maps == Cleared(vm, dir, d, 0).maps;
  }

  lemma ClearedTable(vm: Vm, dir: nat, d: nat)
    requires WellFormed(vm) && PdeKey(dir, d) in vm.tables
    ensures var done := Cleared(vm, dir, d, NPTENTRIES);
      && Cleared(vm, dir, d + 1, 0) == Release(DropTable(done, PdeKey(dir, d)), vm.tables[PdeKey(dir, d)])
      && forall t :: PteKey(dir, d, t) !in done.maps
  {
    forall k | k in vm.maps ensures k.ptx < NPTENTRIES {
    }
    assert vm.tables[PdeKey(dir, d)] !in vm.held;
    hide WellFormed;
    ClearedMaps(vm, dir, d);
    ClearedTables(vm, dir, d);
    var done := Cleared(vm, dir, d, NPTENTRIES);
    var after := Release(DropTable(done, PdeKey(dir, d)), vm.tables[PdeKey(dir, d)]);
    assert after.held == vm.held;
  }

  lemma ClearedMaps(vm: Vm, dir: nat, d: nat)
    requires forall k :: k in vm.maps ==> k.ptx < NPTENTRIES
    ensures Cleared(vm, dir, d + 1, 0).maps == Cleared(vm, dir, d, NPTENTRIES).maps
    ensures forall t :: PteKey(dir, d, t) !in Cleared(vm, dir, d, NPTENTRIES).maps
  {
  }

  lemma ClearedTables(vm: Vm, dir: nat, d: nat)
    ensures Cleared(vm, dir, d + 1, 0).tables == Cleared(vm, dir, d, NPTENTRIES).tables - {PdeKey(dir, d)}
  {
  }

  lemma ClearedAll(vm: Vm, dir: nat)
    requires WellFormed(vm) && dir in vm.roots
    ensures var done := Cleared(vm, dir, NUSERPDE, 0);
      && (forall d :: PdeKey(dir, d) !in done.tables)
      && Release(DropRoot(done, dir), dir) == Without(vm, dir)
  {
    var done := Cleared(vm, dir, NUSERPDE, 0);
    var after := Release(DropRoot(done, dir), dir);
    forall k | k in vm.maps && k.dir == dir ensures k.pdx < NUSERPDE {
      assert TableOf(k) in vm.tables;
    }
    assert after.tables == Without(vm, dir).tables;
    assert after.maps == Without(vm, dir).maps;
    assert after.held == vm.held;
  }

  // ---- each transition keeps the state well formed and moves the counts as stated ----

  lemma TakeKeeps(vm: Vm, p: nat)
    requires WellFormed(vm) && Free(vm, p)
    ensures WellFormed(Take(vm, p))
    ensures forall q :: Refs(Take(vm, p), q) == Refs(vm, q)
    ensures forall q :: Free(Take(vm, p), q) <==> Free(vm, q) && q != p
  {
    CountedPositive(vm, p);
    forall q ensures Refs(Take(vm, p), q) == Refs(vm, q) {
      RefsSets(vm, Take(vm, p), q);
    }
  }

  lemma HoldKeeps(vm: Vm, p: nat)
    requires WellFormed(vm) && p in vm.pool && p !in vm.held && p !in vm.roots && !IsTable(vm, p)
    ensures WellFormed(Hold(vm, p))
    ensures forall q :: Refs(Hold(vm, p), q) == Refs(vm, q) + One(q == p)
    ensures p in vm.hand || IsMapped(vm, p) ==> forall q :: Free(Hold(vm, p), q) <==> Free(vm, q)
  {
    forall q ensures Refs(Hold(vm, p), q) == Refs(vm, q) + One(q == p) {
      RefsSets(vm, Hold(vm, p), q);
    }
    CountedPositive(vm, p);
  }

  lemma ReleaseKeeps(vm: Vm, p: nat)
    requires WellFormed(vm) && p in vm.held
    ensures WellFormed(Release(vm, p))
    ensures forall q :: Refs(vm, q) == Refs(Release(vm, p), q) + One(q == p)
    ensures forall q :: Free(Release(vm, p), q) <==> Free(vm, q) || (q == p && Refs(vm, p) == 1)
  {
    forall q ensures Refs(vm, q) == Refs(Release(vm, p), q) + One(q == p) {
      RefsSets(vm, Release(vm, p), q);
    }
  }

  lemma InstallKeeps(vm: Vm, k: PteKey, e: Pte)
    requires WellFormed(vm) && e.page in vm.held && k !in vm.maps
    requires TableOf(k) in vm.tables && k.ptx < NPTENTRIES
    requires e.perm < PGSIZE && Has(e.perm, PTE_P)
    ensures WellFormed(Install(vm, k, e))
    ensures forall q :: Refs(Install(vm, k, e), q) == Refs(vm, q)
    ensures forall q :: Free(Install(vm, k, e), q) <==> Free(vm, q)
  {
    forall q ensures Refs(Install(vm, k, e), q) == Refs(vm, q) {
      RefsMap(vm, k, e, q);
      RefsSets(vm.(maps := vm.maps[k := e]), Install(vm, k, e), q);
    }
  }

  lemma UnmapKeeps(vm: Vm, k: PteKey)
    requires WellFormed(vm) && k in vm.maps
    ensures WellFormed(Unmap(vm, k))
    ensures forall q :: Refs(vm, q) == Refs(Unmap(vm, k), q) + One(q == vm.maps[k].page)
    ensures forall q :: Free(Unmap(vm, k), q) <==> Free(vm, q) || (q == vm.maps[k].page && Refs(vm, q) == 1)
  {
    forall q ensures Refs(vm, q) == Refs(Unmap(vm, k), q) + One(q == vm.maps[k].page) {
      RefsUnmap(vm, k, q);
    }
  }

  lemma AddTableKeeps(vm: Vm, k: PdeKey, t: nat)
    requires WellFormed(vm) && t in vm.hand && Refs(vm, t) == 0
    requires k !in vm.tables && k.dir in vm.roots && k.pdx < NUSERPDE
    ensures WellFormed(AddTable(vm, k, t))
    ensures forall q :: Refs(AddTable(vm, k, t), q) == Refs(vm, q) + One(q == t)
    ensures forall q :: Free(AddTable(vm, k, t), q) <==> Free(vm, q)
  {
    CountedPositive(vm, t);
    forall q ensures Refs(AddTable(vm, k, t), q) == Refs(vm, q) + One(q == t) {
      RefsTable(vm, k, t, q);
      RefsSets(vm.(tables := vm.tables[k := t]), AddTable(vm, k, t), q);
    }
  }

  lemma DropTableKeeps(vm: Vm, k: PdeKey)
    requires WellFormed(vm) && k in vm.tables
    requires forall t :: PteKey(k.dir, k.pdx, t) !in vm.maps
    ensures WellFormed(DropTable(vm, k))
    ensures forall q :: Refs(DropTable(vm, k), q) == Refs(vm, q)
    ensures forall q :: Free(DropTable(vm, k), q) <==> Free(vm, q)
  {
    forall l | l in vm.maps ensures TableOf(l) != k {
      assert l == PteKey(l.dir, l.pdx, l.ptx);
    }
    forall q ensures Refs(DropTable(vm, k), q) == Refs(vm, q) {
      RefsUntable(vm, k, q);
      RefsSets(vm.(tables := vm.tables - {k}), DropTable(vm, k), q);
    }
  }

  lemma AddRootKeeps(vm: Vm, p: nat)
    requires WellFormed(vm) && p in vm.hand && Refs(vm, p) == 0
    ensures WellFormed(AddRoot(vm, p))
    ensures forall q :: Refs(AddRoot(vm, p), q) == Refs(vm, q) + One(q == p)
    ensures forall q :: Free(AddRoot(vm, p), q) <==> Free(vm, q)
  {
    CountedPositive(vm, p);
    forall q ensures Refs(AddRoot(vm, p), q) == Refs(vm, q) + One(q == p) {
      RefsSets(vm, AddRoot(vm, p), q);
    }
  }

  lemma DropRootKeeps(vm: Vm, p: nat)
    requires WellFormed(vm) && p in vm.roots
    requires forall d :: PdeKey(p, d) !in vm.tables
    ensures WellFormed(DropRoot(vm, p))
    ensures forall q :: Refs(DropRoot(vm, p), q) == Refs(vm, q)
    ensures forall q :: Free(DropRoot(vm, p), q) <==> Free(vm, q)
  {
    forall l | l in vm.tables ensures l.dir != p {
      assert l == PdeKey(l.dir, l.pdx);
    }
    forall q ensures Refs(DropRoot(vm, p), q) == Refs(vm, q) {
      RefsSets(vm, DropRoot(vm, p), q);
    }
  }
}
