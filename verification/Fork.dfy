/** The page system calls of TP2-sched/kern/syscall.c, and the user-level fork of
    TP2-sched/lib/fork.c built on them, over the page tables of Pmap. Each method is proved to
    take the steps of the lazy machine of Cow that it stands for, and to fail exactly when it
    runs out of the free pages it needs. */
module Fork {
  import opened Common
  import opened Mmu
  import opened Vm
  import opened Pmap
  import opened AddressSpaces
  import opened Cow

  const E_INVAL: int := 3
  const E_NO_MEM: int := 4
  const NENV: nat := 1024

  /** What the lazy machine sees of the kernel, given the handlers and duplications under way. */
  ghost function SnapAt(k: Kernel, handlers: map<nat, Handler>, pending: map<PteKey, Option<nat>>): Sys
    reads k, k.frames
  {
    Sys(k.vm.maps, k.frames[..], handlers, pending)
  }

  ghost function SnapIn(k: Kernel, handlers: map<nat, Handler>): Sys
    reads k, k.frames
  {
    SnapAt(k, handlers, map[])
  }

  ghost function Snap(k: Kernel): Sys
    reads k, k.frames
  {
    SnapIn(k, map[])
  }

  ghost predicate UserPerms(maps: map<PteKey, Pte>)
  {
    forall k :: k in maps ==> Has(maps[k].perm, PTE_U)
  }

  /** The kernel holds nothing in flight, and pages are shared only the way fork shares them. */
  ghost predicate ForkOk(k: Kernel)
    reads k, k.pages, k.frames
  {
    && k.Valid() && k.vm.held == {} && |k.vm.roots| <= NENV
    && Exclusive(k.vm.maps) && SharedAcross(k.vm.maps) && UserPerms(k.vm.maps)
  }

  // ---- sixteen bits are enough for the counts ----

  lemma {:induction false} OnePerDirectory(keys: set<PteKey>, dirs: set<nat>)
    requires forall k :: k in keys ==> k.dir in dirs
    requires forall k, l :: k in keys && l in keys && k.dir == l.dir ==> k == l
    ensures |keys| <= |dirs|
    decreases |keys|
  {
    if keys != {} {
      var k :| k in keys;
      OnePerDirectory(keys - {k}, dirs - {k.dir});
    }
  }

  /** While pages are shared only between equal addresses, a data page is referenced at most
      once per environment, so pp_ref stays far below 2^16. */
  lemma SharedPageRefs(vm: Vm, p: nat)
    requires WellFormed(vm) && SharedAcross(vm.maps) && IsMapped(vm, p) && p !in vm.held
    ensures Refs(vm, p) <= |vm.roots|
  {
    forall k | k in Ptes(vm, p) ensures k.dir in vm.roots {
      assert TableOf(k) in vm.tables;
    }
    assert Pdes(vm, p) == {};
    OnePerDirectory(Ptes(vm, p), vm.roots);
  }

  lemma SnapInMemory(k: Kernel)
    requires k.Valid()
    ensures InMemory(Snap(k))
  {
    SnapInMemoryWith(k, map[]);
  }

  lemma SnapInMemoryWith(k: Kernel, handlers: map<nat, Handler>)
    requires k.Valid()
    ensures InMemory(SnapIn(k, handlers))
  {
    SnapAtInMemory(k, handlers, map[]);
  }

  lemma SnapAtInMemory(k: Kernel, handlers: map<nat, Handler>, pending: map<PteKey, Option<nat>>)
    requires k.Valid()
    ensures InMemory(SnapAt(k, handlers, pending))
  {
    BackedShape(k.frames[..], k.vm);
    forall l | l in k.vm.maps ensures k.vm.maps[l].page < k.frames.Length {
      MappedInPool(k.vm, l);
    }
  }

  lemma PermsPresent(vm: Vm, k: PteKey)
    requires WellFormed(vm) && k in vm.maps
    ensures Has(vm.maps[k].perm, PTE_P) && vm.maps[k].perm < PGSIZE
  {
  }

  // ---- how many pages are free ----

  ghost function FreeSet(vm: Vm): set<nat>
  {
    set p | p in vm.pool && Free(vm, p)
  }

  ghost function FreePages(vm: Vm): nat
  {
    |FreeSet(vm)|
  }

  lemma NoneFree(vm: Vm)
    ensures FreePages(vm) == 0 <==> forall p :: !Free(vm, p)
  {
    if FreePages(vm) > 0 {
      var p :| p in FreeSet(vm);
      assert Free(vm, p);
    }
    if p: nat :| Free(vm, p) {
      assert p in FreeSet(vm);
    }
  }

  lemma TakeCount(vm: Vm, p: nat)
    requires WellFormed(vm) && Free(vm, p)
    ensures FreePages(Take(vm, p)) == FreePages(vm) - 1
  {
    TakeKeeps(vm, p);
    assert FreeSet(vm) == FreeSet(Take(vm, p)) + {p};
  }

  lemma InsertFreeAt(vm: Vm, k: PteKey, e: Pte, t: nat, q: nat)
    requires WellFormed(vm) && IsMapped(vm, e.page) && e.page !in vm.held && k !in vm.maps
    requires TableOf(k) in vm.tables || Free(vm, t)
    ensures Free(Inserted(vm, k, e, t), q) <==> Free(vm, q) && !(TableOf(k) !in vm.tables && q == t)
  {
    hide WellFormed, Refs;
    InsertableFacts(vm, e.page);
    InsertCounts(vm, k, e, t, q);
  }

  /** Mapping a page that is mapped already at an empty entry takes a page for the page table,
      if there is none, and no other. */
  lemma InsertFree(vm: Vm, k: PteKey, e: Pte, t: nat)
    requires WellFormed(vm) && IsMapped(vm, e.page) && e.page !in vm.held && k !in vm.maps
    requires TableOf(k) in vm.tables || Free(vm, t)
    ensures FreePages(Inserted(vm, k, e, t)) == FreePages(vm) - One(TableOf(k) !in vm.tables)
  {
    hide WellFormed, Refs, IsMapped, Free;
    var w := Inserted(vm, k, e, t);
    forall q: nat ensures Free(w, q) <==> Free(vm, q) && !(TableOf(k) !in vm.tables && q == t) {
      InsertFreeAt(vm, k, e, t, q);
    }
    if TableOf(k) in vm.tables {
      assert FreeSet(w) == FreeSet(vm);
    } else {
      FreeInPool(vm, t);
      assert FreeSet(vm) == FreeSet(w) + {t};
    }
  }

  lemma FreeInPool(vm: Vm, p: nat)
    requires Free(vm, p)
    ensures p in vm.pool
  {
  }

  lemma ReinsertFree(vm: Vm, k: PteKey, perm: nat, t: nat)
    requires WellFormed(vm) && k in vm.maps && vm.maps[k].page !in vm.held
    ensures FreePages(Inserted(vm, k, Pte(vm.maps[k].page, perm), t)) == FreePages(vm)
  {
    var w := Inserted(vm, k, Pte(vm.maps[k].page, perm), t);
    forall q | q in vm.pool ensures Free(w, q) <==> Free(vm, q) {
      ReinsertNeverFrees(vm, k, perm, t, q);
    }
    assert FreeSet(w) == FreeSet(vm);
  }

  // ---- the system calls ----

  /** When no page table can be had, the page that was taken stays in hand: the wrapper does
      not give it back. That is so exactly when one page is free and a table is needed. */
  method SysPageAlloc(k: Kernel, dir: nat, va: nat, perm: nat)
    returns (r: int, ghost got: nat, ghost table: nat)
    requires k.Valid() && dir in k.vm.roots
    modifies k`pageFreeList, k`free, k`vm, k.pages, k.frames
    ensures k.Valid()
    ensures r == 0 || r == -E_INVAL || r == -E_NO_MEM
    ensures r == -E_INVAL <==> va >= UTOP || va % PGSIZE != 0 || !OnlySyscallBits(OrUserPresent(perm))
    ensures r == -E_INVAL ==> k.vm == old(k.vm)
    ensures r != -E_INVAL ==>
      (r == -E_NO_MEM <==>
         FreePages(old(k.vm)) == 0 || (TableOf(KeyOf(dir, va)) !in old(k.vm).tables && FreePages(old(k.vm)) == 1))
    ensures r == -E_NO_MEM ==>
      if FreePages(old(k.vm)) == 0 then k.vm == old(k.vm)
      else Free(old(k.vm), got) && k.vm == Take(old(k.vm), got)
    ensures r == 0 ==>
      && Free(old(k.vm), got) && got < k.frames.Length && k.frames[got] == Zeroed()
      && k.vm == Inserted(Take(old(k.vm), got), KeyOf(dir, va), Pte(got, OrUserPresent(perm)), table)
      && (TableOf(KeyOf(dir, va)) !in old(k.vm).tables ==> Free(Take(old(k.vm), got), table))
    ensures forall p: nat :: p < k.frames.Length && IsData(old(k.vm), p) ==> k.frames[p] == old(k.frames[p])
  {
    hide WellFormed, Backed, Refs, Linked, FreePages;
    if va >= UTOP || va % PGSIZE != 0 {
      return -E_INVAL, 0, 0;
    }
    var full := OrUserPresent(perm);
    if !OnlySyscallBits(full) {
      return -E_INVAL, 0, 0;
    }
    NoneFree(k.vm);
    var page := k.PageAlloc(true);
    if page == NULL {
      return -E_NO_MEM, 0, 0;
    }
    got := page;
    DataIsOnlyData(old(k.vm));
    TakeKeeps(old(k.vm), page);
    TakeCount(old(k.vm), page);
    NoneFree(k.vm);
    assert Insertable(k.vm, page);
    assert Refs(k.vm, page) == 0;
    assert forall p :: IsData(old(k.vm), p) ==> IsData(k.vm, p) && p != page;
    assert IsData(k.vm, page);
    var noMem, t := k.PageInsert(dir, page, va, full);
    r := if noMem then -E_NO_MEM else 0;
    table := t;
  }

  /** A memory in which that happens: one directory, no page table, one free page. Once the page
      is in hand nothing is free, and no step short of using it makes it free again. */
  lemma PageIsKept(va: nat)
    requires va < UTOP
    ensures var vm := Vm({1, 2}, {1}, map[], map[], {}, {});
      && WellFormed(vm) && TableOf(KeyOf(1, va)) !in vm.tables && FreePages(vm) == 1
      && Free(vm, 2) && FreePages(Take(vm, 2)) == 0 && Refs(Take(vm, 2), 2) == 0
  {
    var vm := Vm({1, 2}, {1}, map[], map[], {}, {});
    assert Pdes(vm, 2) == {} && Ptes(vm, 2) == {};
    assert Free(vm, 2) && !Free(vm, 1);
    assert FreeSet(vm) == {2};
    TakeKeeps(vm, 2);
    TakeCount(vm, 2);
  }

  method SysPageMap(k: Kernel, src: nat, srcva: nat, dst: nat, dstva: nat, perm: nat)
    returns (r: int, ghost table: nat)
    requires k.Valid() && src in k.vm.roots && dst in k.vm.roots && perm < PGSIZE
    requires srcva < UTOP && KeyOf(src, srcva) in k.vm.maps ==>
      var p := k.vm.maps[KeyOf(src, srcva)].page; p !in k.vm.held && Refs(k.vm, p) < MAXREF
    modifies k`pageFreeList, k`free, k`vm, k.pages, k.frames
    ensures k.Valid()
    ensures r == 0 || r == -E_INVAL || r == -E_NO_MEM
    ensures r == -E_INVAL <==>
      || srcva >= UTOP || srcva % PGSIZE != 0 || dstva >= UTOP || dstva % PGSIZE != 0
      || KeyOf(src, srcva) !in old(k.vm).maps
      || (Has(perm, PTE_W) && !Has(old(k.vm).maps[KeyOf(src, srcva)].perm, PTE_W))
    ensures r != -E_INVAL ==>
      (r == -E_NO_MEM <==> TableOf(KeyOf(dst, dstva)) !in old(k.vm).tables && FreePages(old(k.vm)) == 0)
    ensures r != 0 ==> k.vm == old(k.vm)
    ensures r == 0 ==>
      && k.vm == Inserted(old(k.vm), KeyOf(dst, dstva),
                          Pte(old(k.vm).maps[KeyOf(src, srcva)].page, OrUserPresent(perm)), table)
      && (TableOf(KeyOf(dst, dstva)) !in old(k.vm).tables ==> Free(old(k.vm), table))
    ensures forall p: nat :: p < k.frames.Length && IsData(old(k.vm), p) ==> k.frames[p] == old(k.frames[p])
  {
    hide WellFormed, Backed, Refs, Linked, FreePages;
    if srcva >= UTOP || srcva % PGSIZE != 0 {
      return -E_INVAL, 0;
    }
    if dstva >= UTOP || dstva % PGSIZE != 0 {
      return -E_INVAL, 0;
    }
    var page, pte := k.PageLookup(src, srcva);
    if page == NULL {
      return -E_INVAL, 0;
    }
    if Has(perm, PTE_W) && !Has(PteFlags(pte), PTE_W) {
      return -E_INVAL, 0;
    }
    assert IsMapped(k.vm, page);
    NoneFree(k.vm);
    var noMem, t := k.PageInsert(dst, page, dstva, OrUserPresent(perm));
    r := if noMem then -E_NO_MEM else 0;
    table := t;
  }

  method SysPageUnmap(k: Kernel, dir: nat, va: nat) returns (r: int)
    requires k.Valid() && dir in k.vm.roots
    modifies k`pageFreeList, k`free, k`vm, k.pages, k.frames
    ensures k.Valid()
    ensures r == if va >= UTOP || va % PGSIZE != 0 then -E_INVAL else 0
    ensures k.vm == if r == 0 then Unmap(old(k.vm), KeyOf(dir, va)) else old(k.vm)
    ensures forall p: nat :: p < k.frames.Length && IsData(old(k.vm), p) ==> k.frames[p] == old(k.frames[p])
  {
    hide WellFormed, Backed, Refs, Linked;
    if va >= UTOP || va % PGSIZE != 0 {
      return -E_INVAL;
    }
    DataIsOnlyData(k.vm);
    k.PageRemove(dir, va);
    return 0;
  }

  // ---- user level: uvpd, uvpt, duppage ----

  /** uvpd[pn >> 10] and uvpt[pn]: the loads go through the MMU and the directory's mapping of
      itself, and give the directory and page-table entries of page number `pn`. */
  method ReadUvpt(k: Kernel, dir: nat, pn: nat) returns (pde: nat, pte: nat)
    requires k.Valid() && dir in k.vm.roots && pn * PGSIZE < UTOP
    ensures Has(pde, PTE_P) <==> TableOf(KeyOf(dir, pn * PGSIZE)) in k.vm.tables
    ensures Has(pde, PTE_P) ==> Has(pde, PTE_U)
    ensures Has(pte, PTE_P) <==> KeyOf(dir, pn * PGSIZE) in k.vm.maps
    ensures Has(pte, PTE_P) ==> PteFlags(pte) == k.vm.maps[KeyOf(dir, pn * PGSIZE)].perm
  {
    hide Backed, Refs, Linked, Load;
    UserPdx(pn * PGSIZE);
    ghost var key := KeyOf(dir, pn * PGSIZE);
    PnFields(pn);
    BackedShape(k.frames[..], k.vm);
    UvpdReads(k.frames[..], k.vm, dir, key.pdx);
    PdeAt(k.frames[..], k.vm, TableOf(key));
    pde := Load(k.frames[..], dir, UVPD + 4 * (pn / 1024)).value;
    if !Has(pde, PTE_P) {
      UnmappedWithoutTable(k.vm, key);
      return pde, 0;
    }
    UvptReads(k.frames[..], k.vm, key);
    PteAt(k.frames[..], k.vm, key);
    pte := Load(k.frames[..], dir, UVPT + 4 * pn).value;
  }

  lemma PnFields(pn: nat)
    requires pn * PGSIZE < UTOP
    ensures PDX(pn * PGSIZE) == pn / 1024 && pn == PDX(pn * PGSIZE) * 1024 + PTX(pn * PGSIZE)
  {
    PageNumber(pn * PGSIZE);
    assert pn * PGSIZE / PGSIZE == pn;
  }

  lemma SharedDupChild(maps: map<PteKey, Pte>, key: PteKey, child: nat, perm: nat)
    requires SharedAcross(maps) && key in maps
    ensures SharedAcross(maps[ChildKey(key, child) := Pte(maps[key].page, perm)])
  {
  }

  /** The memory after a duplication, `t` being the child's new page table if it needed one. */
  ghost function Duped(vm: Vm, key: PteKey, child: nat, t: nat): Vm
    requires key in vm.maps
  {
    var c := TableOf(ChildKey(key, child));
    vm.(tables := if c in vm.tables then vm.tables else vm.tables[c := t],
        maps := DupMaps(vm.maps, key, child))
  }

  /** The two system calls of duppage for a page that is or becomes copy-on-write. */
  lemma TwoInserts(vm: Vm, key: PteKey, child: nat, t: nat, t2: nat)
    requires WellFormed(vm) && key in vm.maps && child != key.dir && Writable(vm.maps[key].perm)
    ensures var e := Pte(vm.maps[key].page, DupPerm(vm.maps[key].perm));
      Inserted(Inserted(vm, ChildKey(key, child), e, t), key, e, t2) == Duped(vm, key, child, t)
  {
    hide DupPerm, Has;
    assert vm.hand - {vm.maps[key].page} == vm.hand;
  }

  lemma OneInsert(vm: Vm, key: PteKey, child: nat, t: nat)
    requires WellFormed(vm) && key in vm.maps && !Writable(vm.maps[key].perm)
    ensures var e := Pte(vm.maps[key].page, DupPerm(vm.maps[key].perm));
      Inserted(vm, ChildKey(key, child), e, t) == Duped(vm, key, child, t)
  {
    hide DupPerm, Has;
    assert vm.hand - {vm.maps[key].page} == vm.hand;
  }

  lemma SameAddress(parent: nat, child: nat, va: nat)
    ensures ChildKey(KeyOf(parent, va), child) == KeyOf(child, va)
  {
  }

  /** The steps of duppage for a page with these permissions. */
  function DupSteps(perm: nat, key: PteKey, child: nat): seq<Cow.Step>
  {
    if Writable(perm) then [DupFirst(key, child), DupLast(key, child)] else [DupOnly(key, child)]
  }

  /** The child's entry that the parent's is to follow. */
  function OnlyPending(key: PteKey, child: nat): map<PteKey, Option<nat>>
  {
    map[ChildKey(key, child) := Some(key.dir)]
  }

  lemma FirstIsStep(s: Sys, t: Sys, key: PteKey, child: nat)
    requires s.handlers == t.handlers == map[] && s.pending == map[] && t.pending == OnlyPending(key, child)
    requires key in s.maps && child != key.dir && key != XstackKey(key.dir) && Writable(s.maps[key].perm)
    requires t.maps == s.maps[ChildKey(key, child) := Pte(s.maps[key].page, DupPerm(s.maps[key].perm))]
    requires SameData(s, t, {})
    ensures LazyStep(s, t, DupFirst(key, child))
  {
    hide Has, DupPerm, Writable, SameData;
    assert t.pending == s.pending[ChildKey(key, child) := Some(key.dir)];
  }

  lemma LastIsStep(s: Sys, t: Sys, key: PteKey, child: nat)
    requires s.handlers == t.handlers == map[] && t.pending == map[] && s.pending == OnlyPending(key, child)
    requires key in s.maps && t.maps == s.maps[key := Pte(s.maps[key].page, DupPerm(s.maps[key].perm))]
    requires SameData(s, t, {})
    ensures LazyStep(s, t, DupLast(key, child))
  {
    hide Has, DupPerm, SameData;
    assert t.pending == s.pending - {ChildKey(key, child)};
  }

  lemma OnlyIsStep(s: Sys, t: Sys, key: PteKey, child: nat)
    requires s.handlers == t.handlers == map[] && s.pending == t.pending == map[]
    requires key in s.maps && child != key.dir && key != XstackKey(key.dir) && !Writable(s.maps[key].perm)
    requires t.maps == DupMaps(s.maps, key, child) && SameData(s, t, {})
    ensures LazyStep(s, t, DupOnly(key, child))
  {
    hide Has, DupPerm, Writable, SameData;
  }

  lemma TwoSteps(s: Sys, mid: Sys, t: Sys, first: Cow.Step, last: Cow.Step)
    requires LazyStep(s, mid, first) && LazyStep(mid, t, last)
    ensures LazyRun([s, mid, t], [first, last])
  {
    hide LazyStep;
  }

  /** The two calls for a page that is writable or copy-on-write: the child's entry, then the
      parent's own. The second one cannot fail. */
  method MapBoth(k: Kernel, parent: nat, child: nat, va: nat, perm: nat)
    returns (ok: bool, ghost table: nat, ghost trace: seq<Sys>)
    requires ForkOk(k) && parent in k.vm.roots && child in k.vm.roots && child != parent
    requires va < UTOP && va % PGSIZE == 0 && KeyOf(parent, va) in k.vm.maps
    requires KeyOf(parent, va) != XstackKey(parent)
    requires Writable(k.vm.maps[KeyOf(parent, va)].perm) && perm == DupPerm(k.vm.maps[KeyOf(parent, va)].perm)
    modifies k`pageFreeList, k`free, k`vm, k.pages, k.frames
    ensures k.Valid()
    ensures ok <==> TableOf(KeyOf(child, va)) in old(k.vm).tables || FreePages(old(k.vm)) > 0
    ensures !ok ==> k.vm == old(k.vm)
    ensures ok ==> k.vm == Duped(old(k.vm), KeyOf(parent, va), child, table)
    ensures ok && KeyOf(child, va) !in old(k.vm).maps ==>
      FreePages(k.vm) == FreePages(old(k.vm)) - One(TableOf(KeyOf(child, va)) !in old(k.vm).tables)
    ensures ok ==> LazyRun(trace, [DupFirst(KeyOf(parent, va), child), DupLast(KeyOf(parent, va), child)])
    ensures ok ==> |trace| == 3 && trace[0] == old(Snap(k)) && trace[2] == Snap(k)
  {
    hide WellFormed, Backed, Refs, Linked, Exclusive, SharedAcross, Has, FreePages, Free;
    hide Duped, UserPerms, InMemory, SameData, Inserted, DupPerm, LazyStep, LazyRun, Writable;
    ghost var key := KeyOf(parent, va);
    ghost var before, s := k.vm, Snap(k);
    ghost var page := before.maps[key].page;
    SnapInMemory(k);
    SameAddress(parent, child, va);
    assert IsMapped(before, page);
    SharedPageRefs(before, page);
    var r;
    r, table := SysPageMap(k, parent, va, child, va, perm);
    if r < 0 {
      return false, table, [];
    }
    ghost var mid, first := k.vm, SnapAt(k, map[], OnlyPending(key, child));
    FirstMap(before, mid, key, child, Pte(page, perm), table);
    SnapAtInMemory(k, map[], OnlyPending(key, child));
    DataKept(before, s, first);
    FirstIsStep(s, first, key, child);
    SharedDupChild(before.maps, key, child, perm);
    SharedPageRefs(mid, page);
    ghost var t;
    r, t := SysPageMap(k, parent, va, parent, va, perm);
    SnapInMemory(k);
    DataKept(mid, first, Snap(k));
    InsertedMaps(mid, key, Pte(page, perm), t);
    LastIsStep(first, Snap(k), key, child);
    TwoInserts(before, key, child, table, t);
    ReinsertFree(mid, key, perm, t);
    if ChildKey(key, child) !in before.maps {
      InsertFree(before, ChildKey(key, child), Pte(page, perm), table);
    }
    TwoSteps(s, first, Snap(k), DupFirst(key, child), DupLast(key, child));
    return true, table, [s, first, Snap(k)];
  }

  lemma InsertedMaps(vm: Vm, key: PteKey, e: Pte, t: nat)
    ensures Inserted(vm, key, e, t).maps == vm.maps[key := e]
  {
  }

  /** The one call for a read-only page. */
  method MapOnce(k: Kernel, parent: nat, child: nat, va: nat, perm: nat)
    returns (ok: bool, ghost table: nat, ghost trace: seq<Sys>)
    requires ForkOk(k) && parent in k.vm.roots && child in k.vm.roots && child != parent
    requires va < UTOP && va % PGSIZE == 0 && KeyOf(parent, va) in k.vm.maps
    requires KeyOf(parent, va) != XstackKey(parent)
    requires !Writable(k.vm.maps[KeyOf(parent, va)].perm) && perm == DupPerm(k.vm.maps[KeyOf(parent, va)].perm)
    modifies k`pageFreeList, k`free, k`vm, k.pages, k.frames
    ensures k.Valid()
    ensures ok <==> TableOf(KeyOf(child, va)) in old(k.vm).tables || FreePages(old(k.vm)) > 0
    ensures !ok ==> k.vm == old(k.vm)
    ensures ok ==> k.vm == Duped(old(k.vm), KeyOf(parent, va), child, table)
    ensures ok && KeyOf(child, va) !in old(k.vm).maps ==>
      FreePages(k.vm) == FreePages(old(k.vm)) - One(TableOf(KeyOf(child, va)) !in old(k.vm).tables)
    ensures ok ==> LazyRun(trace, [DupOnly(KeyOf(parent, va), child)])
    ensures ok ==> |trace| == 2 && trace[0] == old(Snap(k)) && trace[1] == Snap(k)
  {
    hide WellFormed, Backed, Refs, Linked, Exclusive, SharedAcross, Has, FreePages, Free;
    hide Duped, UserPerms, InMemory, SameData, Inserted, DupPerm, LazyStep, LazyRun, Writable;
    ghost var key := KeyOf(parent, va);
    ghost var before, s := k.vm, Snap(k);
    ghost var page := before.maps[key].page;
    SnapInMemory(k);
    SameAddress(parent, child, va);
    assert IsMapped(before, page);
    SharedPageRefs(before, page);
    var r;
    r, table := SysPageMap(k, parent, va, child, va, perm);
    if r < 0 {
      return false, table, [];
    }
    OneInsert(before, key, child, table);
    DupedMaps(before, key, child, table);
    SnapInMemory(k);
    DataKept(before, s, Snap(k));
    OnlyIsStep(s, Snap(k), key, child);
    StartRun(s, Snap(k), DupOnly(key, child));
    if ChildKey(key, child) !in before.maps {
      InsertFree(before, ChildKey(key, child), Pte(page, perm), table);
    }
    return true, table, [s, Snap(k)];
  }

  /** The permission bits duppage starts from. */
  method SharedPerm(flags: nat) returns (perm: nat)
    ensures DupPerm(flags) == if Writable(flags) then perm + PTE_COW else perm
  {
    perm := PTE_U + PTE_P;
    if Has(flags, PTE_PCD) || Has(flags, PTE_PWT) {
      perm := perm + PTE_PCD + PTE_PWT;
    }
  }

  /** duppage, call by call the steps of the lazy machine. It succeeds exactly when the child has the
      page table already or a page is free for it, and takes that page and no other. */
  method DupPage(k: Kernel, parent: nat, child: nat, pn: nat)
    returns (ok: bool, ghost table: nat, ghost trace: seq<Sys>)
    requires ForkOk(k) && parent in k.vm.roots && child in k.vm.roots && child != parent
    requires pn * PGSIZE < UTOP && KeyOf(parent, pn * PGSIZE) in k.vm.maps
    requires KeyOf(parent, pn * PGSIZE) != XstackKey(parent)
    modifies k`pageFreeList, k`free, k`vm, k.pages, k.frames
    ensures k.Valid() && k.vm.roots == old(k.vm).roots
    ensures ok <==> TableOf(KeyOf(child, pn * PGSIZE)) in old(k.vm).tables || FreePages(old(k.vm)) > 0
    ensures !ok ==> k.vm == old(k.vm)
    ensures ok ==> ForkOk(k) && |trace| > 0 && trace[0] == old(Snap(k)) && trace[|trace| - 1] == Snap(k)
    ensures ok ==> var key := KeyOf(parent, pn * PGSIZE);
      LazyRun(trace, DupSteps(old(k.vm).maps[key].perm, key, child))
    ensures ok ==> k.vm == Duped(old(k.vm), KeyOf(parent, pn * PGSIZE), child, table)
    ensures ok && KeyOf(child, pn * PGSIZE) !in old(k.vm).maps ==>
      FreePages(k.vm) == FreePages(old(k.vm)) - One(TableOf(KeyOf(child, pn * PGSIZE)) !in old(k.vm).tables)
  {
    hide WellFormed, Backed, Refs, Linked, Exclusive, SharedAcross, Has, FreePages, Free;
    hide Duped, LazyStep, LazyRun, UserPerms, InMemory, SameData, DupPerm;
    var va := pn * PGSIZE;
    ghost var key := KeyOf(parent, va);
    ghost var before := k.vm;
    var pde, pte := ReadUvpt(k, parent, pn);
    PermsPresent(before, key);
    var flags := PteFlags(pte);
    var perm := SharedPerm(flags);
    if Has(flags, PTE_W) || Has(flags, PTE_COW) {
      ok, table, trace := MapBoth(k, parent, child, va, perm + PTE_COW);
    } else {
      ok, table, trace := MapOnce(k, parent, child, va, perm);
    }
    if ok {
      SharingDup(before.maps, key, child);
      DupedMaps(before, key, child, table);
      UserPermsDup(before.maps, key, child);
    }
  }

  /** What the two calls, or the one, come to for a child that had nothing there. */
  lemma DupRunIs(e: Eager, perm: nat, key: PteKey, child: nat)
    requires child != key.dir && ChildKey(key, child) !in e
    ensures EagerRun(e, DupSteps(perm, key, child)) == if key in e then e[ChildKey(key, child) := e[key]] else e
  {
    hide Writable;
    var c := ChildKey(key, child);
    assert e - {c} == e;
    if Writable(perm) {
      assert DupSteps(perm, key, child) == [DupFirst(key, child)] + [DupLast(key, child)];
      EagerRunSplit(e, [DupFirst(key, child)], [DupLast(key, child)]);
      OneStep(e, DupFirst(key, child));
      OneStep(e, DupLast(key, child));
    } else {
      OneStep(e, DupOnly(key, child));
    }
  }

  lemma DupedMaps(vm: Vm, key: PteKey, child: nat, t: nat)
    requires key in vm.maps
    ensures Duped(vm, key, child, t).maps == DupMaps(vm.maps, key, child)
    ensures Duped(vm, key, child, t).roots == vm.roots && Duped(vm, key, child, t).held == vm.held
  {
  }

  lemma UserPermsDup(maps: map<PteKey, Pte>, key: PteKey, child: nat)
    requires UserPerms(maps) && key in maps
    ensures UserPerms(DupMaps(maps, key, child))
  {
    hide Has, DupPerm;
  }

  lemma FirstMap(vm: Vm, mid: Vm, key: PteKey, child: nat, e: Pte, t: nat)
    requires WellFormed(vm) && key in vm.maps && child != key.dir && e.page == vm.maps[key].page
    requires mid == Inserted(vm, ChildKey(key, child), e, t)
    ensures key in mid.maps && mid.maps[key] == vm.maps[key] && TableOf(key) in mid.tables
    ensures mid.maps == vm.maps[ChildKey(key, child) := e] && mid.held == vm.held && mid.roots == vm.roots
    ensures IsMapped(mid, e.page)
  {
    assert mid.maps[key].page == e.page;
  }

  // ---- user level: the page-fault handler ----

  /** The frame behind a mapped user address, found by the MMU's walk. */
  method Physical(k: Kernel, dir: nat, va: nat) returns (p: nat)
    requires k.Valid() && KeyOf(dir, va) in k.vm.maps
    ensures p == k.vm.maps[KeyOf(dir, va)].page
  {
    hide Backed, Refs, Linked;
    ghost var key := KeyOf(dir, va);
    PdeAt(k.frames[..], k.vm, TableOf(key));
    PteAt(k.frames[..], k.vm, key);
    var pde := k.frames[dir][PDX(va)];
    var pte := k.frames[PteAddr(pde)][PTX(va)];
    p := PteAddr(pte);
  }

  /** `addr` rounded down to its page. */
  function RoundDown(addr: nat): (va: nat)
    ensures va <= addr && va % PGSIZE == 0
  {
    addr - addr % PGSIZE
  }

  lemma RoundDownKey(dir: nat, addr: nat)
    requires addr < WORD
    ensures KeyOf(dir, RoundDown(addr)) == KeyOf(dir, addr)
  {
    assert RoundDown(addr) / PGSIZE == addr / PGSIZE;
    SameEntrySamePage(dir, addr, RoundDown(addr));
  }

  /** A page just allocated and mapped once is referenced once. */
  lemma NewPageCount(vm: Vm, k: PteKey, e: Pte, t: nat)
    requires WellFormed(vm) && Free(vm, e.page)
    requires TableOf(k) in vm.tables || Free(Take(vm, e.page), t)
    ensures Refs(Inserted(Take(vm, e.page), k, e, t), e.page) <= 1
  {
    TakeKeeps(vm, e.page);
    InsertCounts(Take(vm, e.page), k, e, t, e.page);
  }

  lemma RunSnoc(trace: seq<Sys>, steps: seq<Cow.Step>, t: Sys, step: Cow.Step)
    requires LazyRun(trace, steps) && LazyStep(trace[|steps|], t, step)
    ensures LazyRun(trace + [t], steps + [step])
  {
    hide LazyStep;
    var more := trace + [t];
    forall i | 0 <= i < |steps| + 1 ensures LazyStep(more[i], more[i + 1], (steps + [step])[i]) {
      if i < |steps| {
        assert LazyStep(trace[i], trace[i + 1], steps[i]);
      }
    }
  }

  /** The first steps of a handler: the allocation and `n` words of the copy. */
  function Begun(key: PteKey, n: nat): seq<Cow.Step>
  {
    [FaultAlloc(key)] + Copies(key.dir, n)
  }

  lemma BegunMore(key: PteKey, n: nat)
    ensures Begun(key, 0) == [FaultAlloc(key)]
    ensures Begun(key, n + 1) == Begun(key, n) + [FaultCopy(key.dir)]
  {
  }

  function Only(dir: nat, h: Handler): map<nat, Handler>
  {
    map[dir := h]
  }

  /** One word of the memmove, through the MMU's translation of both addresses. */
  method CopyWord(k: Kernel, dir: nat, srcva: nat, i: nat)
    requires k.Valid() && PftempKey(dir) in k.vm.maps && KeyOf(dir, srcva) in k.vm.maps && i < NPTENTRIES
    modifies k.frames
    ensures k.Valid()
    ensures var to, from := k.vm.maps[PftempKey(dir)].page, k.vm.maps[KeyOf(dir, srcva)].page;
      && to < k.frames.Length && from < k.frames.Length && |old(k.frames[to])| == |old(k.frames[from])| == NPTENTRIES
      && k.frames[..] == old(k.frames[..])[to := Put(old(k.frames[to]), i, old(k.frames[from])[i])]
  {
    hide Backed, Refs, Linked, WellFormed;
    BackedShape(k.frames[..], k.vm);
    MappedInPool(k.vm, KeyOf(dir, srcva));
    MappedInPool(k.vm, PftempKey(dir));
    ghost var fs := k.frames[..];
    var from := Physical(k, dir, srcva);
    var to := Physical(k, dir, PFTEMP);
    DataIsOnlyData(k.vm);
    assert IsMapped(k.vm, to);
    k.frames[to] := Put(k.frames[to], i, k.frames[from][i]);
    BackedData(fs, k.frames[..], k.vm, k.vm);
  }

  method CopyNext(k: Kernel, dir: nat, srcva: nat, i: nat, ghost before: seq<Sys>) returns (ghost trace: seq<Sys>)
    requires k.Valid() && InHandler(Snap(k), dir, KeyOf(dir, srcva)) && i < NPTENTRIES
    requires LazyRun(before, Begun(KeyOf(dir, srcva), i)) && |before| == i + 2
    requires before[i + 1] == SnapIn(k, Only(dir, Handler(KeyOf(dir, srcva), i, false)))
    modifies k.frames
    ensures k.Valid() && LazyRun(trace, Begun(KeyOf(dir, srcva), i + 1)) && |trace| == i + 3
    ensures trace[0] == before[0]
    ensures trace[i + 2] == SnapIn(k, Only(dir, Handler(KeyOf(dir, srcva), i + 1, false)))
    ensures var to, from := k.vm.maps[PftempKey(dir)].page, k.vm.maps[KeyOf(dir, srcva)].page;
      && to < k.frames.Length && from < k.frames.Length && |old(k.frames[to])| == |old(k.frames[from])| == NPTENTRIES
      && k.frames[..] == old(k.frames[..])[to := Put(old(k.frames[to]), i, old(k.frames[from])[i])]
  {
    hide Backed, Refs, Linked, WellFormed, LazyStep, Has, LazyRun, InMemory, Only, SameData;
    ghost var key := KeyOf(dir, srcva);
    ghost var s := SnapIn(k, Only(dir, Handler(key, i, false)));
    SnapInMemoryWith(k, s.handlers);
    CopyWord(k, dir, srcva, i);
    ghost var s' := SnapIn(k, Only(dir, Handler(key, i + 1, false)));
    SnapInMemoryWith(k, s'.handlers);
    WordIsStep(s, s', dir, key, i);
    RunSnoc(before, Begun(key, i), s', FaultCopy(dir));
    BegunMore(key, i);
    trace := before + [s'];
  }

  /** memmove of the page of `srcva` to PFTEMP, one step of the lazy machine a word. */
  method CopyPage(k: Kernel, dir: nat, srcva: nat, ghost start: seq<Sys>) returns (ghost trace: seq<Sys>)
    requires k.Valid() && InHandler(Snap(k), dir, KeyOf(dir, srcva))
    requires k.vm.maps[PftempKey(dir)].page != k.vm.maps[KeyOf(dir, srcva)].page
    requires LazyRun(start, Begun(KeyOf(dir, srcva), 0))
    requires start[1] == SnapIn(k, Only(dir, Handler(KeyOf(dir, srcva), 0, false)))
    modifies k.frames
    ensures k.Valid() && LazyRun(trace, Begun(KeyOf(dir, srcva), NPTENTRIES)) && trace[0] == start[0]
    ensures trace[1 + NPTENTRIES] == SnapIn(k, Only(dir, Handler(KeyOf(dir, srcva), NPTENTRIES, false)))
    ensures var to, from := k.vm.maps[PftempKey(dir)].page, k.vm.maps[KeyOf(dir, srcva)].page;
      && to < k.frames.Length && from < k.frames.Length
      && k.frames[..] == old(k.frames[..])[to := old(k.frames[from])]
  {
    hide Backed, Refs, Linked, WellFormed, LazyStep, Has, LazyRun, InMemory, Only, Begun;
    ghost var key := KeyOf(dir, srcva);
    ghost var to, from := k.vm.maps[PftempKey(dir)].page, k.vm.maps[key].page;
    ghost var fs := k.frames[..];
    SnapInMemory(k);
    PageBounds(k, PftempKey(dir));
    PageBounds(k, key);
    trace := start;
    BegunMore(key, 0);
    RunLength(start, Begun(key, 0));
    for i := 0 to NPTENTRIES
      invariant k.Valid() && |k.frames[to]| == NPTENTRIES
      invariant k.frames[..] == fs[to := k.frames[to]]
      invariant forall j :: 0 <= j < i ==> k.frames[to][j] == fs[from][j]
      invariant LazyRun(trace, Begun(key, i)) && |trace| == i + 2 && trace[0] == start[0]
      invariant trace[i + 1] == SnapIn(k, Only(dir, Handler(key, i, false)))
    {
      assert k.frames[from] == fs[from];
      trace := CopyNext(k, dir, srcva, i, trace);
    }
    assert k.frames[to] == fs[from];
  }

  lemma PageBounds(k: Kernel, l: PteKey)
    requires k.Valid() && l in k.vm.maps
    ensures k.vm.maps[l].page < k.frames.Length && |k.frames[k.vm.maps[l].page]| == NPTENTRIES
  {
    hide Refs, Linked;
    MappedInPool(k.vm, l);
    BackedShape(k.frames[..], k.vm);
  }

  lemma WordIsStep(s: Sys, s': Sys, dir: nat, key: PteKey, i: nat)
    requires InMemory(s) && InMemory(s') && InHandler(s, dir, key) && i < NPTENTRIES
    requires s.handlers == Only(dir, Handler(key, i, false)) && s'.handlers == Only(dir, Handler(key, i + 1, false))
    requires s'.maps == s.maps && s'.pending == s.pending
    requires var to, from := s.maps[PftempKey(dir)].page, s.maps[key].page;
      s'.mem == s.mem[to := Put(s.mem[to], i, s.mem[from][i])]
    ensures LazyStep(s, s', FaultCopy(dir))
  {
    hide Has;
    assert s'.handlers == s.handlers[dir := s.handlers[dir].(copied := i + 1)];
  }

  lemma SnapInv(k: Kernel)
    requires ForkOk(k)
    ensures CowInv(Snap(k))
  {
    hide WellFormed, Backed, Refs, Linked, Exclusive, SharedAcross, Has, InMemory;
    SnapInMemory(k);
    assert Settled(Snap(k)) == k.vm.maps;
  }

  lemma SettledWithout(s: Sys)
    requires CowInv(s) && s.handlers == map[] && s.pending == map[]
    ensures Exclusive(s.maps) && SharedAcross(s.maps)
  {
    hide Exclusive, SharedAcross, Has, HandlersOk;
    assert Settled(s) == s.maps;
  }

  /** The first part of pgfault: a page at PFTEMP. It fails exactly when no page is free, or one
      only and PFTEMP has no page table yet. */
  method MapTemp(k: Kernel, dir: nat, ghost key: PteKey) returns (ok: bool, ghost got: nat, ghost table: nat)
    requires ForkOk(k) && dir in k.vm.roots && key.dir == dir && key in k.vm.maps && Visible(key)
    modifies k`pageFreeList, k`free, k`vm, k.pages, k.frames
    ensures k.Valid() && k.vm.roots == old(k.vm).roots && k.vm.held == {}
    ensures ok <==> FreePages(old(k.vm)) >= FaultCost(old(k.vm), dir)
    ensures !ok ==> k.vm.maps == old(k.vm).maps
    ensures ok ==>
      && k.vm == Inserted(Take(old(k.vm), got), PftempKey(dir), Pte(got, PTE_P + PTE_U + PTE_W), table)
      && Free(old(k.vm), got)
      && (TableOf(PftempKey(dir)) !in old(k.vm).tables ==> Free(Take(old(k.vm), got), table))
      && got != k.vm.maps[key].page && Refs(k.vm, got) <= 1
      && LazyStep(old(Snap(k)), SnapIn(k, Only(dir, Handler(key, 0, false))), FaultAlloc(key))
  {
    hide WellFormed, Backed, Refs, Linked, Exclusive, SharedAcross;
    hide Has, SameData, InMemory, IsData, FreePages, LazyStep;
    ghost var before, s0 := k.vm, Snap(k);
    SnapInMemory(k);
    PermsOfPgfault();
    PlainPerm();
    TempKey(dir);
    var r;
    r, got, table := SysPageAlloc(k, dir, PFTEMP, PTE_P + PTE_U + PTE_W);
    if r < 0 {
      return false, got, table;
    }
    ghost var s1 := SnapIn(k, Only(dir, Handler(key, 0, false)));
    SnapInMemoryWith(k, s1.handlers);
    DataKept(before, s0, s1);
    NewPageCount(before, PftempKey(dir), Pte(got, PTE_P + PTE_U + PTE_W), table);
    FreeIsUnmapped(before, got);
    AllocIsStep(s0, s1, key, got);
    return true, got, table;
  }

  /** The last part: the copy is mapped at the faulting address, and PFTEMP unmapped. Neither call
      can fail. */
  method MoveTemp(k: Kernel, dir: nat, va: nat, ghost got: nat, ghost copied: seq<Sys>) returns (ghost trace: seq<Sys>)
    requires k.Valid() && dir in k.vm.roots && va < UTOP && va % PGSIZE == 0 && k.vm.held == {}
    requires KeyOf(dir, va) in k.vm.maps && PftempKey(dir) in k.vm.maps
    requires k.vm.maps[PftempKey(dir)] == Pte(got, PTE_P + PTE_U + PTE_W) && Refs(k.vm, got) < MAXREF
    requires LazyRun(copied, Begun(KeyOf(dir, va), NPTENTRIES))
    requires copied[1 + NPTENTRIES] == SnapIn(k, Only(dir, Handler(KeyOf(dir, va), NPTENTRIES, false)))
    modifies k`pageFreeList, k`free, k`vm, k.pages, k.frames
    ensures k.Valid() && k.vm.roots == old(k.vm).roots && k.vm.held == {}
    ensures k.vm ==
      old(k.vm).(maps := old(k.vm).maps[KeyOf(dir, va) := Pte(got, PTE_P + PTE_U + PTE_W)] - {PftempKey(dir)})
    ensures LazyRun(trace, FaultSteps(KeyOf(dir, va))) && |trace| == |FaultSteps(KeyOf(dir, va))| + 1
    ensures trace[0] == copied[0] && trace[|trace| - 1] == Snap(k)
  {
    hide WellFormed, Backed, Refs, Linked, Has, SameData, InMemory, IsData, LazyStep, LazyRun;
    ghost var key, perms := KeyOf(dir, va), PTE_P + PTE_U + PTE_W;
    PermsOfPgfault();
    TempKey(dir);
    RunLength(copied, Begun(key, NPTENTRIES));
    ghost var s2, vm2 := SnapIn(k, Only(dir, Handler(key, NPTENTRIES, false))), k.vm;
    SnapInMemoryWith(k, s2.handlers);
    MappedInPool(vm2, key);
    NotInHand(vm2, PftempKey(dir));
    HasTable(vm2, key);
    var r;
    ghost var t;
    r, t := SysPageMap(k, dir, PFTEMP, dir, va, PTE_P + PTE_U + PTE_W);
    assert r == 0;
    ghost var s3, vm3 := SnapIn(k, Only(dir, Handler(key, NPTENTRIES, true))), k.vm;
    SnapInMemoryWith(k, s3.handlers);
    DataKept(vm2, s2, s3);
    MapIsStep(s2, s3, key, Pte(got, perms));
    RunSnoc(copied, Begun(key, NPTENTRIES), s3, FaultMap(dir));
    trace := copied + [s3];
    r := SysPageUnmap(k, dir, PFTEMP);
    SnapInMemory(k);
    DataKept(vm3, s3, Snap(k));
    UnmapIsStep(s3, Snap(k), key);
    ghost var steps := Begun(key, NPTENTRIES) + [FaultMap(dir)];
    RunLength(trace, steps);
    RunSnoc(trace, steps, Snap(k), FaultUnmap(dir));
    trace := trace + [Snap(k)];
    assert FaultSteps(key) == steps + [FaultUnmap(dir)];
  }

  lemma NotInHand(vm: Vm, l: PteKey)
    requires WellFormed(vm) && l in vm.maps
    ensures vm.hand - {vm.maps[l].page} == vm.hand
  {
  }

  lemma HasTable(vm: Vm, l: PteKey)
    requires WellFormed(vm) && l in vm.maps
    ensures TableOf(l) in vm.tables
  {
  }

  /** The memory after a whole fault: the page at `key` is `got`, and PFTEMP is unmapped. */
  ghost function Faulted(vm: Vm, key: PteKey, got: nat, t: nat): Vm
  {
    var temp := PftempKey(key.dir);
    vm.(tables := if TableOf(temp) in vm.tables then vm.tables else vm.tables[TableOf(temp) := t],
        maps := (vm.maps - {temp})[key := Pte(got, PTE_P + PTE_U + PTE_W)])
  }

  /** The pages that nothing but `key` and the scratch address maps. */
  ghost function GivenUp(vm: Vm, key: PteKey): set<nat>
  {
    set l | l in vm.maps && (l == key || l == PftempKey(key.dir))
            && (forall m :: m in vm.maps && vm.maps[m].page == vm.maps[l].page ==> m == key || m == PftempKey(key.dir))
          :: vm.maps[l].page
  }

  lemma FaultParts(vm: Vm, key: PteKey, got: nat, t: nat)
    requires WellFormed(vm) && Free(vm, got) && key != PftempKey(key.dir)
    ensures var e, temp := Pte(got, PTE_P + PTE_U + PTE_W), PftempKey(key.dir);
      var mid := Inserted(Take(vm, got), temp, e, t);
      mid.(maps := mid.maps[key := e] - {temp}) == Faulted(vm, key, got, t)
  {
    var e, temp := Pte(got, PTE_P + PTE_U + PTE_W), PftempKey(key.dir);
    var mid := Inserted(Take(vm, got), temp, e, t);
    assert mid.hand == vm.hand;
    assert mid.maps[key := e] - {temp} == (vm.maps - {temp})[key := e];
  }

  /** A page is free exactly when it is allocatable, not in hand, and nothing names it. */
  lemma FreeIff(vm: Vm, q: nat)
    ensures Free(vm, q) <==>
      q in vm.pool && q !in vm.hand && q !in vm.roots && q !in vm.held && !IsTable(vm, q) && !IsMapped(vm, q)
  {
    CountedPositive(vm, q);
  }

  lemma FaultedMapped(vm: Vm, key: PteKey, got: nat, t: nat, q: nat)
    requires key in vm.maps && key != PftempKey(key.dir)
    ensures IsMapped(Faulted(vm, key, got, t), q) <==> q == got || (IsMapped(vm, q) && q !in GivenUp(vm, key))
  {
    var w := Faulted(vm, key, got, t);
    assert w.maps[key].page == got;
    if IsMapped(vm, q) && q !in GivenUp(vm, key) {
      var l :| l in vm.maps && vm.maps[l].page == q;
      var m := if l == key || l == PftempKey(key.dir) then
                 var n :| n in vm.maps && vm.maps[n].page == q && n != key && n != PftempKey(key.dir); n
               else l;
      assert w.maps[m].page == q;
    }
    if IsMapped(w, q) && q != got {
      var l :| l in w.maps && w.maps[l].page == q;
      assert vm.maps[l].page == q;
    }
  }

  lemma FaultedTable(vm: Vm, key: PteKey, got: nat, t: nat, q: nat)
    ensures IsTable(Faulted(vm, key, got, t), q) <==>
      IsTable(vm, q) || (TableOf(PftempKey(key.dir)) !in vm.tables && q == t)
  {
    var w, k := Faulted(vm, key, got, t), TableOf(PftempKey(key.dir));
    if k !in vm.tables {
      assert w.tables[k] == t;
    }
    if IsTable(vm, q) {
      var l :| l in vm.tables && vm.tables[l] == q;
      assert w.tables[l] == q;
    }
  }

  lemma GivenUpPages(vm: Vm, key: PteKey, q: nat)
    requires WellFormed(vm) && vm.held == {} && q in GivenUp(vm, key)
    ensures IsMapped(vm, q) && q in vm.pool && q !in vm.hand && q !in vm.roots && !IsTable(vm, q) && !Free(vm, q)
  {
    FreeIff(vm, q);
  }

  /** The free pages that a fault takes. */
  function Taken(vm: Vm, key: PteKey, got: nat, t: nat): set<nat>
  {
    if TableOf(PftempKey(key.dir)) in vm.tables then {got} else {got, t}
  }

  lemma FaultedFreeAt(vm: Vm, key: PteKey, got: nat, t: nat, q: nat)
    requires WellFormed(vm) && vm.held == {} && key in vm.maps && key != PftempKey(key.dir)
    ensures Free(Faulted(vm, key, got, t), q) <==>
      (Free(vm, q) && q !in Taken(vm, key, got, t)) || (q in GivenUp(vm, key) && q !in Taken(vm, key, got, t))
  {
    hide WellFormed, IsMapped, IsTable, GivenUp, Free;
    FreeIff(vm, q);
    FreeIff(Faulted(vm, key, got, t), q);
    FaultedMapped(vm, key, got, t, q);
    FaultedTable(vm, key, got, t, q);
    if q in GivenUp(vm, key) {
      GivenUpPages(vm, key, q);
    }
  }

  lemma TakenFree(vm: Vm, key: PteKey, got: nat, t: nat)
    requires WellFormed(vm) && Free(vm, got)
    requires TableOf(PftempKey(key.dir)) !in vm.tables ==> Free(Take(vm, got), t)
    ensures forall q :: q in Taken(vm, key, got, t) ==> Free(vm, q)
    ensures |Taken(vm, key, got, t)| == FaultCost(vm, key.dir)
  {
    hide WellFormed, Free;
    TakeKeeps(vm, got);
  }

  /** What a whole fault does to the free pages: one goes, a second one if PFTEMP had no page
      table, and those come back that only the two addresses mapped. */
  lemma FaultedFree(vm: Vm, key: PteKey, got: nat, t: nat)
    requires WellFormed(vm) && vm.held == {} && key in vm.maps && key != PftempKey(key.dir) && Free(vm, got)
    requires TableOf(PftempKey(key.dir)) !in vm.tables ==> Free(Take(vm, got), t)
    ensures FreePages(Faulted(vm, key, got, t)) + FaultCost(vm, key.dir)
         == FreePages(vm) + |GivenUp(vm, key)|
  {
    hide WellFormed, Free, GivenUp, Taken, FaultCost, Faulted;
    var w, given, taken := Faulted(vm, key, got, t), GivenUp(vm, key), Taken(vm, key, got, t);
    TakenFree(vm, key, got, t);
    forall q | q in given ensures !Free(vm, q) && q in vm.pool {
      GivenUpPages(vm, key, q);
    }
    forall q: nat ensures Free(w, q) <==> (Free(vm, q) && q !in taken) || q in given {
      FaultedFreeAt(vm, key, got, t, q);
    }
    forall q | Free(vm, q) || Free(w, q) ensures q in vm.pool {
      if Free(vm, q) {
        FreeInPool(vm, q);
      }
    }
    SamePool(vm, key, got, t);
    assert FreeSet(w) == FreeSet(vm) - taken + given;
    assert taken <= FreeSet(vm);
  }

  lemma SamePool(vm: Vm, key: PteKey, got: nat, t: nat)
    ensures Faulted(vm, key, got, t).pool == vm.pool
  {
  }

  /** How many free pages a page fault takes. */
  ghost function FaultCost(vm: Vm, dir: nat): nat
  {
    1 + One(TableOf(PftempKey(dir)) !in vm.tables)
  }

  /** pgfault: for a write fault on any mapped visible page of the current environment the
      handler takes its steps one after the other. It succeeds exactly when a page is free, and
      a second one if PFTEMP has no page table yet. */
  method PgFault(k: Kernel, dir: nat, addr: nat, err: bv32)
    returns (ok: bool, ghost trace: seq<Sys>, ghost got: nat, ghost table: nat)
    requires ForkOk(k) && dir in k.vm.roots && addr < UTOP
    requires KeyOf(dir, addr) in k.vm.maps && Visible(KeyOf(dir, addr))
    modifies k`pageFreeList, k`free, k`vm, k.pages, k.frames
    ensures k.Valid() && k.vm.roots == old(k.vm).roots
    ensures ok <==> FreePages(old(k.vm)) >= FaultCost(old(k.vm), dir)
    ensures !ok ==> k.vm.maps == old(k.vm).maps
    ensures ok ==> ForkOk(k) && LazyRun(trace, FaultSteps(KeyOf(dir, addr)))
    ensures ok ==> |trace| > 0 && trace[0] == old(Snap(k)) && trace[|trace| - 1] == Snap(k)
    ensures ok ==> k.vm == Faulted(old(k.vm), KeyOf(dir, addr), got, table)
    ensures ok ==>
      FreePages(k.vm) + FaultCost(old(k.vm), dir) == FreePages(old(k.vm)) + |GivenUp(old(k.vm), KeyOf(dir, addr))|
  {
    hide WellFormed, Backed, Refs, Linked, Exclusive, SharedAcross;
    hide Has, SameData, InMemory, FreePages, LazyRun, LazyStep;
    hide CowInv, UserPerms, FaultSteps, Begun, Settled, View, EagerRun, GivenUp;
    ghost var s0, key, before := Snap(k), KeyOf(dir, addr), k.vm;
    SnapInv(k);
    RoundDownKey(dir, addr);
    got, table := 0, 0;
    var pde, pte := ReadUvpt(k, dir, addr / PGSIZE);
    PgfaultNeverPanics(err, Has(PteFlags(pte), PTE_COW));
    if PgfaultGuard(err, Has(PteFlags(pte), PTE_COW)) != 0 {
      return false, [], got, table;
    }
    ok, got, table := MapTemp(k, dir, key);
    if !ok {
      return false, [], got, table;
    }
    ghost var s1 := SnapIn(k, Only(dir, Handler(key, 0, false)));
    BegunMore(key, 0);
    StartRun(s0, s1, FaultAlloc(key));
    var va := RoundDown(addr);
    PermsOfPgfault();
    trace := CopyPage(k, dir, va, [s0, s1]);
    trace := MoveTemp(k, dir, va, got, trace);
    CowRefinesEager(trace, FaultSteps(key));
    SettledWithout(Snap(k));
    FaultParts(before, key, got, table);
    UserPermsKept(before.maps, key, PftempKey(dir), got);
    FaultedFree(before, key, got, table);
  }

  lemma UserPermsKept(maps: map<PteKey, Pte>, key: PteKey, temp: PteKey, got: nat)
    requires UserPerms(maps)
    ensures UserPerms(maps[temp := Pte(got, PTE_P + PTE_U + PTE_W)][key := Pte(got, PTE_P + PTE_U + PTE_W)] - {temp})
  {
    hide Has;
    PermsOfPgfault();
  }

  lemma TempKey(dir: nat)
    ensures KeyOf(dir, PFTEMP) == PftempKey(dir) && PFTEMP < UTOP && PFTEMP % PGSIZE == 0
  {
  }

  lemma RunLength(trace: seq<Sys>, steps: seq<Cow.Step>)
    requires LazyRun(trace, steps)
    ensures |trace| == |steps| + 1
  {
    hide LazyStep;
  }

  lemma StartRun(s: Sys, t: Sys, step: Cow.Step)
    requires LazyStep(s, t, step)
    ensures LazyRun([s, t], [step])
  {
    hide LazyStep;
  }

  lemma AllocIsStep(s: Sys, s': Sys, key: PteKey, got: nat)
    requires InMemory(s) && InMemory(s') && SameData(s, s', {})
    requires s.handlers == map[] && s.pending == s'.pending == map[]
    requires key in s.maps && Visible(key) && Unmapped(s, got) && got < |s.mem|
    requires s'.maps == s.maps[PftempKey(key.dir) := Pte(got, PTE_P + PTE_U + PTE_W)]
    requires s'.handlers == Only(key.dir, Handler(key, 0, false))
    ensures LazyStep(s, s', FaultAlloc(key))
  {
    assert s'.handlers == s.handlers[key.dir := Handler(key, 0, false)];
    assert FaultAllocStep(s, s', key, got);
  }

  lemma MapIsStep(s: Sys, s': Sys, key: PteKey, e: Pte)
    requires InMemory(s) && InMemory(s') && SameData(s, s', {}) && s.pending == s'.pending
    requires PftempKey(key.dir) in s.maps && s.maps[PftempKey(key.dir)] == e && e.perm == PTE_P + PTE_U + PTE_W
    requires s.handlers == Only(key.dir, Handler(key, NPTENTRIES, false))
    requires s'.handlers == Only(key.dir, Handler(key, NPTENTRIES, true))
    requires s'.maps == s.maps[key := e]
    ensures LazyStep(s, s', FaultMap(key.dir))
  {
    assert s'.handlers == s.handlers[key.dir := s.handlers[key.dir].(mapped := true)];
  }

  lemma UnmapIsStep(s: Sys, s': Sys, key: PteKey)
    requires InMemory(s) && InMemory(s') && SameData(s, s', {}) && s.pending == s'.pending
    requires s.handlers == Only(key.dir, Handler(key, NPTENTRIES, true)) && s'.handlers == map[]
    requires s'.maps == s.maps - {PftempKey(key.dir)}
    ensures LazyStep(s, s', FaultUnmap(key.dir))
  {
    assert s'.handlers == s.handlers - {key.dir};
  }

  lemma DataKept(vm: Vm, s: Sys, s': Sys)
    requires InMemory(s) && InMemory(s') && |s.mem| == |s'.mem| && s.maps == vm.maps
    requires forall p: nat :: p < |s.mem| && IsData(vm, p) ==> s'.mem[p] == s.mem[p]
    ensures SameData(s, s', {})
  {
    forall l | l in s.maps ensures IsData(vm, s.maps[l].page) {
      assert IsMapped(vm, s.maps[l].page);
    }
  }

  lemma PermsOfPgfault()
    ensures OrUserPresent(PTE_P + PTE_U + PTE_W) == PTE_P + PTE_U + PTE_W
    ensures Has(PTE_P + PTE_U + PTE_W, PTE_W) && Has(PTE_P + PTE_U + PTE_W, PTE_U)
  {
  }

  lemma FreeIsUnmapped(vm: Vm, p: nat)
    requires Free(vm, p)
    ensures forall k :: k in vm.maps ==> vm.maps[k].page != p
  {
    CountedPositive(vm, p);
    assert !IsMapped(vm, p);
  }

  // ---- fork ----

  function PageNo(l: PteKey): nat { l.pdx * 1024 + l.ptx }

  function ParentKey(l: PteKey, parent: nat): PteKey { PteKey(parent, l.pdx, l.ptx) }

  /** What the environments see when `child` has received a copy of each of the parent's
      visible pages numbered below `n`, and nothing else has changed. */
  ghost predicate Copied(e0: Eager, e: Eager, parent: nat, child: nat, n: nat)
  {
    && (forall l :: l in e0 ==> l in e && e[l] == e0[l])
    && (forall l :: l in e0 && l.dir == parent && PageNo(l) < n ==>
          ChildKey(l, child) in e && e[ChildKey(l, child)] == e0[l])
    && (forall l :: l in e && l !in e0 ==> l.dir == child && PageNo(l) < n && ParentKey(l, parent) in e0)
  }

  lemma KeyOfPage(dir: nat, pn: nat)
    requires pn * PGSIZE < UTOP
    ensures PageNo(KeyOf(dir, pn * PGSIZE)) == pn
    ensures forall l: PteKey ::
      l.dir == dir && l.pdx < 1024 && l.ptx < 1024 && PageNo(l) == pn ==> l == KeyOf(dir, pn * PGSIZE)
  {
    PageNumber(pn * PGSIZE);
    assert pn * PGSIZE / PGSIZE == pn;
    forall l: PteKey | l.dir == dir && l.pdx < 1024 && l.ptx < 1024 && PageNo(l) == pn
      ensures l == KeyOf(dir, pn * PGSIZE)
    {
      PgaddrInverse(l.pdx, l.ptx, 0);
      assert PGADDR(l.pdx, l.ptx, 0) == pn * PGSIZE;
    }
  }

  /** A page number with nothing visible to copy may be skipped. */
  lemma CopiedSkip(e0: Eager, e: Eager, parent: nat, child: nat, n: nat)
    requires Copied(e0, e, parent, child, n)
    requires forall l :: l in e0 && l.dir == parent ==> PageNo(l) != n
    ensures Copied(e0, e, parent, child, n + 1)
  {
  }

  lemma CopiedDup(e0: Eager, e: Eager, perm: nat, key: PteKey, child: nat, n: nat)
    requires Copied(e0, e, key.dir, child, n) && PageNo(key) == n && child != key.dir
    requires forall l :: l in e0 ==> l.dir != child
    requires forall l :: l in e0 && l.dir == key.dir && PageNo(l) == n ==> l == key
    requires key in e ==> key in e0
    requires ChildKey(key, child) !in e
    ensures Copied(e0, EagerRun(e, DupSteps(perm, key, child)), key.dir, child, n + 1)
  {
    var c := ChildKey(key, child);
    var e' := EagerRun(e, DupSteps(perm, key, child));
    DupRunIs(e, perm, key, child);
    hide EagerRun, DupSteps;
    if key in e {
      assert ParentKey(c, key.dir) == key;
      forall l | l in e0 && l.dir == key.dir && PageNo(l) < n + 1
        ensures ChildKey(l, child) in e' && e'[ChildKey(l, child)] == e0[l]
      {
        if PageNo(l) < n {
          assert ChildKey(l, child) != c;
        }
      }
    }
  }

  lemma KeyBounds(vm: Vm, k: PteKey)
    requires WellFormed(vm) && k in vm.maps
    ensures k.dir in vm.roots && k.pdx < NUSERPDE && k.ptx < NPTENTRIES && PageNo(k) < UTOP / PGSIZE
  {
    assert TableOf(k) in vm.tables;
  }

  // ---- the page tables the child needs ----

  /** The page-table indices under which the parent has pages below number `n` to share. */
  ghost function TablesBelow(vm: Vm, parent: nat, n: nat): set<nat>
  {
    set l | l in vm.maps && l.dir == parent && l != XstackKey(parent) && PageNo(l) < n :: l.pdx
  }

  ghost function TablesNeeded(vm: Vm, parent: nat): set<nat>
  {
    set l | l in vm.maps && l.dir == parent && l != XstackKey(parent) :: l.pdx
  }

  ghost function TablesOf(vm: Vm, dir: nat): set<nat>
  {
    set k | k in vm.tables && k.dir == dir :: k.pdx
  }

  /** After the pages below `n`: the child has a page table for each index it needs so far, each
      took one free page, and nothing else was taken. */
  ghost predicate Progress(vm0: Vm, vm: Vm, parent: nat, child: nat, n: nat)
  {
    && (forall l: PteKey :: l.dir == parent ==> (l in vm.maps <==> l in vm0.maps))
    && (forall l :: l in vm.maps && l.dir == child ==> PageNo(l) < n)
    && TablesOf(vm, child) == TablesBelow(vm0, parent, n)
    && FreePages(vm) + |TablesBelow(vm0, parent, n)| == FreePages(vm0)
  }

  lemma ProgressStart(vm: Vm, parent: nat, child: nat)
    requires forall l :: l in vm.maps ==> l.dir != child
    requires forall k :: k in vm.tables ==> k.dir != child
    ensures Progress(vm, vm, parent, child, 0)
  {
    hide FreePages;
    assert TablesBelow(vm, parent, 0) == {};
    assert TablesOf(vm, child) == {};
  }

  /** Nothing to share at this page number. */
  lemma ProgressSkip(vm0: Vm, vm: Vm, parent: nat, child: nat, n: nat)
    requires Progress(vm0, vm, parent, child, n)
    requires forall l :: l in vm0.maps && l.dir == parent && PageNo(l) == n ==> l == XstackKey(parent)
    ensures Progress(vm0, vm, parent, child, n + 1)
  {
    hide FreePages;
    assert TablesBelow(vm0, parent, n + 1) == TablesBelow(vm0, parent, n);
  }

  lemma TablesGrow(vm0: Vm, parent: nat, key: PteKey, n: nat)
    requires key in vm0.maps && key.dir == parent && key != XstackKey(parent) && PageNo(key) == n
    requires forall l :: l in vm0.maps && l.dir == parent && PageNo(l) == n ==> l == key
    ensures TablesBelow(vm0, parent, n + 1) == TablesBelow(vm0, parent, n) + {key.pdx}
  {
  }

  lemma DupedTables(vm: Vm, key: PteKey, child: nat, t: nat)
    requires key in vm.maps
    ensures TablesOf(Duped(vm, key, child, t), child) == TablesOf(vm, child) + {key.pdx}
    ensures PdeKey(child, key.pdx) in vm.tables <==> key.pdx in TablesOf(vm, child)
  {
    hide DupMaps;
  }

  lemma ProgressDup(vm0: Vm, vm: Vm, key: PteKey, child: nat, t: nat, n: nat)
    requires Progress(vm0, vm, key.dir, child, n) && child != key.dir && key in vm.maps
    requires key in vm0.maps && key != XstackKey(key.dir) && PageNo(key) == n
    requires forall l :: l in vm0.maps && l.dir == key.dir && PageNo(l) == n ==> l == key
    requires FreePages(Duped(vm, key, child, t)) == FreePages(vm) - One(PdeKey(child, key.pdx) !in vm.tables)
    ensures Progress(vm0, Duped(vm, key, child, t), key.dir, child, n + 1)
  {
    hide FreePages, DupPerm, Has, TablesOf, TablesBelow;
    TablesGrow(vm0, key.dir, key, n);
    DupPages(vm.maps, key, child);
    DupedTables(vm, key, child, t);
    var below := TablesBelow(vm0, key.dir, n);
    if key.pdx in below {
      assert below + {key.pdx} == below;
    }
  }

  /** After the pages below `n`: the parent has the page tables it had, each of its pages below
      `n` is the child's page too, and it can write to none of them. */
  ghost predicate Given(vm0: Vm, vm: Vm, parent: nat, child: nat, n: nat)
  {
    && (forall k: PdeKey :: k.dir == parent ==> (k in vm.tables <==> k in vm0.tables))
    && (forall l :: l in vm.maps && l.dir == parent && l != XstackKey(parent) && PageNo(l) < n ==>
          && ChildKey(l, child) in vm.maps && vm.maps[ChildKey(l, child)].page == vm.maps[l].page
          && !Has(vm.maps[l].perm, PTE_W))
  }

  lemma GivenDup(vm0: Vm, vm: Vm, key: PteKey, child: nat, t: nat, n: nat)
    requires Given(vm0, vm, key.dir, child, n) && child != key.dir && key in vm.maps
    requires forall l :: l in vm.maps && l.dir == key.dir && PageNo(l) == n ==> l == key
    ensures Given(vm0, Duped(vm, key, child, t), key.dir, child, n + 1)
  {
    hide DupPerm, Has;
    DupPages(vm.maps, key, child);
    var w := Duped(vm, key, child, t);
    NotWritable(vm.maps[key].perm);
    forall l | l in w.maps && l.dir == key.dir && l != XstackKey(key.dir) && PageNo(l) < n + 1
      ensures ChildKey(l, child) in w.maps && w.maps[ChildKey(l, child)].page == w.maps[l].page
      ensures !Has(w.maps[l].perm, PTE_W)
    {
      assert l in vm.maps && w.maps[l].page == vm.maps[l].page;
      if l != key {
        assert PageNo(l) < n && ChildKey(l, child) != ChildKey(key, child);
      }
    }
  }

  lemma NotWritable(perm: nat)
    ensures Writable(perm) || !Has(perm, PTE_W)
  {
  }

  lemma GivenStart(vm: Vm, parent: nat, child: nat)
    ensures Given(vm, vm, parent, child, 0)
  {
  }

  lemma GivenSkip(vm0: Vm, vm: Vm, parent: nat, child: nat, n: nat)
    requires Given(vm0, vm, parent, child, n)
    requires forall l :: l in vm.maps && l.dir == parent && PageNo(l) == n ==> l == XstackKey(parent)
    ensures Given(vm0, vm, parent, child, n + 1)
  {
    hide Has;
  }

  /** The body of fork's loop for one page number. */
  method DupIfPresent(k: Kernel, parent: nat, child: nat, pnum: nat, ghost vm0: Vm, ghost e0: Eager) returns (ok: bool)
    requires ForkOk(k) && parent in k.vm.roots && child in k.vm.roots && child != parent
    requires pnum < UTOP / PGSIZE && InMemory(Snap(k))
    requires WellFormed(vm0) && forall l :: l in e0 ==> l in vm0.maps && l.dir != child && Visible(l)
    requires Copied(e0, View(Snap(k)), parent, child, pnum)
    requires Progress(vm0, k.vm, parent, child, pnum) && Given(vm0, k.vm, parent, child, pnum)
    modifies k`pageFreeList, k`free, k`vm, k.pages, k.frames
    ensures k.Valid() && k.vm.roots == old(k.vm).roots
    ensures ok ==> ForkOk(k) && InMemory(Snap(k))
    ensures ok ==> Copied(e0, View(Snap(k)), parent, child, pnum + 1)
    ensures ok ==> Progress(vm0, k.vm, parent, child, pnum + 1) && Given(vm0, k.vm, parent, child, pnum + 1)
    ensures !ok ==> FreePages(vm0) < |TablesNeeded(vm0, parent)|
  {
    hide WellFormed, Backed, Refs, Linked, Exclusive, SharedAcross, Has, UserPerms, InMemory, SameData;
    hide LazyStep, LazyRun, DupSteps, EagerRun, Copied, View, Progress, Given, FreePages, Duped, TablesNeeded, CowInv;
    ghost var key := KeyOf(parent, pnum * PGSIZE);
    ghost var s, vm := Snap(k), k.vm;
    OnlyKeyOfPage(vm0, e0, parent, pnum);
    OnlyMapOfPage(vm0, parent, pnum);
    OnlyMapOfPage(vm, parent, pnum);
    KeyOfPage(parent, pnum);
    if pnum == UXSTACKTOP / PGSIZE - 1 {
      assert key == XstackKey(parent);
      CopiedSkip(e0, View(s), parent, child, pnum);
      ProgressSkip(vm0, vm, parent, child, pnum);
      GivenSkip(vm0, vm, parent, child, pnum);
      return true;
    }
    var pde, pte := ReadUvpt(k, parent, pnum);
    if !Has(pde, PTE_P) || !Has(pde, PTE_U) || !Has(pte, PTE_P) || !Has(PteFlags(pte), PTE_U) {
      NotMappedNotSeen(k.vm, s, key, pde, pte);
      CopiedContains(e0, View(s), parent, child, pnum);
      CopiedSkip(e0, View(s), parent, child, pnum);
      ProgressKeys(vm0, vm, parent, child, pnum, key);
      ProgressSkip(vm0, vm, parent, child, pnum);
      GivenSkip(vm0, vm, parent, child, pnum);
      return true;
    }
    NotXstack(parent, pnum);
    CopiedParent(e0, View(s), parent, child, pnum);
    ProgressKeys(vm0, vm, parent, child, pnum, key);
    ChildAbsent(vm0, vm, parent, child, pnum);
    SnapInv(k);
    ghost var t, trace;
    ok, t, trace := DupPage(k, parent, child, pnum);
    if ok {
      SnapInMemory(k);
      RunLength(trace, DupSteps(vm.maps[key].perm, key, child));
      CowRefinesEager(trace, DupSteps(vm.maps[key].perm, key, child));
      NotSeen(s, ChildKey(key, child));
      CopiedDup(e0, View(s), vm.maps[key].perm, key, child, pnum);
      ProgressDup(vm0, vm, key, child, t, pnum);
      GivenDup(vm0, vm, key, child, t, pnum);
    } else {
      ShortOfTables(vm0, vm, key, child, pnum);
    }
  }

  lemma NotSeen(s: Sys, l: PteKey)
    requires InMemory(s) && l !in s.maps
    ensures l !in View(s)
  {
  }

  lemma OnlyMapOfPage(vm: Vm, parent: nat, pn: nat)
    requires WellFormed(vm) && pn * PGSIZE < UTOP
    ensures forall l :: l in vm.maps && l.dir == parent && PageNo(l) == pn ==> l == KeyOf(parent, pn * PGSIZE)
  {
    KeyOfPage(parent, pn);
    forall l | l in vm.maps ensures l.pdx < 1024 && l.ptx < 1024 {
      KeyBounds(vm, l);
    }
  }

  lemma ProgressKeys(vm0: Vm, vm: Vm, parent: nat, child: nat, n: nat, key: PteKey)
    requires Progress(vm0, vm, parent, child, n) && key.dir == parent
    ensures key in vm.maps <==> key in vm0.maps
  {
  }

  lemma ChildAbsent(vm0: Vm, vm: Vm, parent: nat, child: nat, n: nat)
    requires Progress(vm0, vm, parent, child, n) && n * PGSIZE < UTOP
    ensures KeyOf(child, n * PGSIZE) !in vm.maps
    ensures KeyOf(child, n * PGSIZE).pdx == KeyOf(parent, n * PGSIZE).pdx
  {
    KeyOfPage(child, n);
  }

  /** If duppage fails, the pages free at the start did not cover the tables. */
  lemma ShortOfTables(vm0: Vm, vm: Vm, key: PteKey, child: nat, n: nat)
    requires Progress(vm0, vm, key.dir, child, n) && FreePages(vm) == 0
    requires key in vm0.maps && key != XstackKey(key.dir) && PdeKey(child, key.pdx) !in vm.tables
    ensures FreePages(vm0) < |TablesNeeded(vm0, key.dir)|
  {
    hide FreePages;
    var below, all := TablesBelow(vm0, key.dir, n), TablesNeeded(vm0, key.dir);
    assert below <= all && key.pdx in all && key.pdx !in TablesOf(vm, child);
    SmallerSet(below, all - {key.pdx});
  }

  lemma {:induction false} SmallerSet(a: set<nat>, b: set<nat>)
    requires a <= b
    ensures |a| <= |b|
  {
    if a != {} {
      var x :| x in a;
      SmallerSet(a - {x}, b - {x});
    }
  }

  lemma CopiedContains(e0: Eager, e: Eager, parent: nat, child: nat, n: nat)
    requires Copied(e0, e, parent, child, n)
    ensures forall l :: l in e0 ==> l in e
  {
  }

  lemma CopiedParent(e0: Eager, e: Eager, parent: nat, child: nat, n: nat)
    requires Copied(e0, e, parent, child, n) && child != parent
    ensures forall l :: l in e && l.dir == parent ==> l in e0
  {
  }

  lemma CopiedStart(e0: Eager, parent: nat, child: nat)
    ensures Copied(e0, e0, parent, child, 0)
  {
  }

  lemma ViewKeys(s: Sys)
    requires InMemory(s)
    ensures forall l :: l in View(s) ==> l in s.maps && Visible(l)
  {
  }

  /** The page-number loop of fork: it completes exactly when there is a free page for each page
      table the child needs. */
  method DupAll(k: Kernel, parent: nat, child: nat) returns (ok: bool)
    requires ForkOk(k) && parent in k.vm.roots && child in k.vm.roots && child != parent
    requires forall l :: l in k.vm.maps ==> l.dir != child
    requires forall l :: l in k.vm.tables ==> l.dir != child
    modifies k`pageFreeList, k`free, k`vm, k.pages, k.frames
    ensures k.Valid() && k.vm.roots == old(k.vm).roots
    ensures ok <==> FreePages(old(k.vm)) >= |TablesNeeded(old(k.vm), parent)|
    ensures ok ==> ForkOk(k) && InMemory(old(Snap(k))) && InMemory(Snap(k))
    ensures ok ==> Copied(View(old(Snap(k))), View(Snap(k)), parent, child, UTOP / PGSIZE)
    ensures ok ==> Progress(old(k.vm), k.vm, parent, child, UTOP / PGSIZE)
    ensures ok ==> Given(old(k.vm), k.vm, parent, child, UTOP / PGSIZE)
  {
    hide WellFormed, Backed, Refs, Linked, Exclusive, SharedAcross, Has, UserPerms, InMemory, Copied, View;
    hide Progress, Given, FreePages, TablesNeeded;
    SnapInMemory(k);
    ghost var vm0, e0 := k.vm, View(Snap(k));
    ViewKeys(Snap(k));
    CopiedStart(e0, parent, child);
    ProgressStart(vm0, parent, child);
    GivenStart(vm0, parent, child);
    for pnum := 0 to UTOP / PGSIZE
      invariant ForkOk(k) && k.vm.roots == old(k.vm).roots && InMemory(Snap(k))
      invariant Copied(e0, View(Snap(k)), parent, child, pnum)
      invariant Progress(vm0, k.vm, parent, child, pnum) && Given(vm0, k.vm, parent, child, pnum)
    {
      ok := DupIfPresent(k, parent, child, pnum, vm0, e0);
      if !ok {
        return;
      }
    }
    ProgressEnd(vm0, k.vm, parent, child);
    return true;
  }

  lemma ProgressEnd(vm0: Vm, vm: Vm, parent: nat, child: nat)
    requires WellFormed(vm0) && Progress(vm0, vm, parent, child, UTOP / PGSIZE)
    ensures TablesOf(vm, child) == TablesNeeded(vm0, parent)
    ensures FreePages(vm) + |TablesNeeded(vm0, parent)| == FreePages(vm0)
  {
    hide FreePages;
    forall l | l in vm0.maps ensures PageNo(l) < UTOP / PGSIZE {
      KeyBounds(vm0, l);
    }
    assert TablesBelow(vm0, parent, UTOP / PGSIZE) == TablesNeeded(vm0, parent);
  }

  lemma NotXstack(parent: nat, pn: nat)
    requires pn * PGSIZE < UTOP && pn != UXSTACKTOP / PGSIZE - 1
    ensures KeyOf(parent, pn * PGSIZE) != XstackKey(parent)
  {
    SameEntrySamePage(parent, pn * PGSIZE, UXSTACKTOP - PGSIZE);
  }

  lemma NotMappedNotSeen(vm: Vm, s: Sys, key: PteKey, pde: nat, pte: nat)
    requires WellFormed(vm) && UserPerms(vm.maps) && s.maps == vm.maps && InMemory(s)
    requires Has(pde, PTE_P) <==> TableOf(key) in vm.tables
    requires Has(pde, PTE_P) ==> Has(pde, PTE_U)
    requires Has(pte, PTE_P) <==> key in vm.maps
    requires Has(pte, PTE_P) ==> PteFlags(pte) == vm.maps[key].perm
    requires !Has(pde, PTE_P) || !Has(pde, PTE_U) || !Has(pte, PTE_P) || !Has(PteFlags(pte), PTE_U)
    ensures key !in vm.maps && key !in View(s)
  {
  }

  lemma OnlyKeyOfPage(vm: Vm, e0: Eager, parent: nat, pn: nat)
    requires WellFormed(vm) && pn * PGSIZE < UTOP && forall l :: l in e0 ==> l in vm.maps
    ensures forall l :: l in e0 && l.dir == parent && PageNo(l) == pn ==> l == KeyOf(parent, pn * PGSIZE)
  {
    KeyOfPage(parent, pn);
    forall l | l in e0 ensures l.pdx < 1024 && l.ptx < 1024 {
      KeyBounds(vm, l);
    }
  }

  /** What fork promises: the child sees the parent's visible pages as they were, everybody
      else sees what they saw, and the child sees nothing more. */
  ghost predicate Forked(e0: Eager, e: Eager, parent: nat, child: nat)
  {
    && (forall l :: l in e0 ==> l in e && e[l] == e0[l])
    && (forall l: PteKey :: l.dir == child ==> (l in e <==> ParentKey(l, parent) in e0))
    && (forall l: PteKey :: l.dir == child && l in e ==> e[l] == e0[ParentKey(l, parent)])
    && (forall l :: l in e && l.dir != child ==> l in e0)
  }

  lemma CopiedIsForked(vm: Vm, e0: Eager, e: Eager, parent: nat, child: nat)
    requires WellFormed(vm) && Copied(e0, e, parent, child, UTOP / PGSIZE)
    requires forall l :: l in e0 ==> l in vm.maps && l.dir != child
    ensures Forked(e0, e, parent, child)
  {
    forall l: PteKey | l.dir == child
      ensures l in e <==> ParentKey(l, parent) in e0
      ensures l in e ==> e[l] == e0[ParentKey(l, parent)]
    {
      var up := ParentKey(l, parent);
      assert ChildKey(up, child) == l;
      if up in e0 {
        KeyBounds(vm, up);
      }
    }
  }

  /** The page-table index of the exception stack. */
  const XSTACK_PDX: nat := 954

  function StackKey(dir: nat): PteKey { KeyOf(dir, USTACKTOP - PGSIZE) }

  lemma StackFacts(dir: nat)
    ensures Visible(StackKey(dir)) && StackKey(dir).dir == dir && StackKey(dir).pdx == XSTACK_PDX
    ensures PageNo(StackKey(dir)) < UTOP / PGSIZE
    ensures (USTACKTOP - PGSIZE) / PGSIZE * PGSIZE == USTACKTOP - PGSIZE
  {
  }

  /** A store to the stack is refused: the page is there but not writable. */
  ghost predicate StackFaults(vm: Vm, dir: nat)
  {
    StackKey(dir) in vm.maps && !Has(vm.maps[StackKey(dir)].perm, PTE_W)
  }

  /** An environment pushes something on its stack. If the MMU refuses the store, pgfault runs. */
  method PushOnStack(k: Kernel, dir: nat) returns (ok: bool, ghost got: nat, ghost table: nat)
    requires ForkOk(k) && dir in k.vm.roots
    modifies k`pageFreeList, k`free, k`vm, k.pages, k.frames
    ensures k.Valid() && k.vm.roots == old(k.vm).roots
    ensures ok <==> (StackFaults(old(k.vm), dir) ==> FreePages(old(k.vm)) >= FaultCost(old(k.vm), dir))
    ensures ok ==> ForkOk(k) && InMemory(old(Snap(k))) && InMemory(Snap(k)) && View(Snap(k)) == View(old(Snap(k)))
    ensures ok ==>
      k.vm == if StackFaults(old(k.vm), dir) then Faulted(old(k.vm), StackKey(dir), got, table) else old(k.vm)
    ensures ok && StackFaults(old(k.vm), dir) ==>
      FreePages(k.vm) + FaultCost(old(k.vm), dir) == FreePages(old(k.vm)) + |GivenUp(old(k.vm), StackKey(dir))|
  {
    hide WellFormed, Backed, Refs, Linked, Exclusive, SharedAcross, Has, UserPerms, InMemory;
    hide FreePages, GivenUp, Faulted, FaultCost, LazyRun, FaultSteps, CowInv, View;
    SnapInMemory(k);
    SnapInv(k);
    StackFacts(dir);
    ok, got, table := true, 0, 0;
    var pde, pte := ReadUvpt(k, dir, (USTACKTOP - PGSIZE) / PGSIZE);
    if Has(pte, PTE_P) && !Has(PteFlags(pte), PTE_W) {
      ghost var trace;
      ok, trace, got, table := PgFault(k, dir, USTACKTOP - PGSIZE, 2);
      if ok {
        SnapInMemory(k);
        WholeFault(trace, StackKey(dir));
      }
    }
  }

  /** A whole run of the handler changes nobody's view. */
  lemma WholeFault(trace: seq<Sys>, key: PteKey)
    requires LazyRun(trace, FaultSteps(key)) && |trace| > 0 && CowInv(trace[0])
    ensures InMemory(trace[0]) && InMemory(trace[|trace| - 1]) && View(trace[|trace| - 1]) == View(trace[0])
  {
    hide Exclusive, SharedAcross, HandlersOk, LazyStep, View, InMemory, EagerRun;
    CowRefinesEager(trace, FaultSteps(key));
    FaultsAreInvisible(View(trace[0]), FaultSteps(key));
  }

  /** How many free pages fork takes: the child's directory, its exception stack, and one page
      table for each index under which the child has anything. The loop shares the stack that
      fork runs on like any other page, so the next push faults and takes what a fault takes. */
  ghost function ForkCost(vm: Vm, parent: nat): nat
  {
    2 + |TablesNeeded(vm, parent) + {XSTACK_PDX}| + if StackKey(parent) in vm.maps then FaultCost(vm, parent) else 0
  }

  /** sys_exofork's new directory and the page loop. The child's stack comes out shared, so the
      parent's next push faults and gives no page up. */
  method ChildPages(k: Kernel, parent: nat) returns (ok: bool, child: int)
    requires ForkOk(k) && parent in k.vm.roots && |k.vm.roots| < NENV
    modifies k`pageFreeList, k`free, k`vm, k.pages, k.frames
    ensures k.Valid()
    ensures ok <==> FreePages(old(k.vm)) >= 1 + |TablesNeeded(old(k.vm), parent)|
    ensures ok ==> ForkOk(k) && child >= 0 && child !in old(k.vm).roots
                   && k.vm.roots == old(k.vm).roots + {child as nat}
    ensures ok ==> FreePages(k.vm) + 1 + |TablesNeeded(old(k.vm), parent)| == FreePages(old(k.vm))
    ensures ok ==> TablesOf(k.vm, child) == TablesNeeded(old(k.vm), parent)
    ensures ok ==> StackShared(old(k.vm), k.vm, parent)
    ensures ok ==> InMemory(old(Snap(k))) && InMemory(Snap(k))
                   && Forked(View(old(Snap(k))), View(Snap(k)), parent, child)
  {
    hide WellFormed, Backed, Refs, Linked, Exclusive, SharedAcross, Has, UserPerms, InMemory;
    hide Copied, Forked, FreePages, Progress, Given, TablesNeeded, View, StackShared;
    ghost var before, s0 := k.vm, Snap(k);
    SnapInMemory(k);
    ViewKeys(s0);
    NoneFree(before);
    child := k.EnvSetupVm();
    if child == NULL {
      return false, child;
    }
    ghost var vm1 := k.vm;
    SnapInMemory(k);
    NewDirectory(before, s0, Snap(k), child);
    NewDirectoryCount(before, child, parent);
    ok := DupAll(k, parent, child);
    if ok {
      CopiedIsForked(before, View(s0), View(Snap(k)), parent, child);
      ProgressEnd(vm1, k.vm, parent, child);
      StackGiven(before, vm1, k.vm, parent, child);
    }
  }

  /** The memory half of fork(): the child's directory and pages, the push that comes with the
      next call, and a fresh exception stack for the child. It succeeds exactly when there are as
      many free pages as it takes. */
  method ForkChild(k: Kernel, parent: nat) returns (ok: bool, child: int)
    requires ForkOk(k) && parent in k.vm.roots && |k.vm.roots| < NENV
    modifies k`pageFreeList, k`free, k`vm, k.pages, k.frames
    ensures k.Valid()
    ensures ok <==> FreePages(old(k.vm)) >= ForkCost(old(k.vm), parent)
    ensures ok ==> ForkOk(k) && child >= 0 && child !in old(k.vm).roots
                   && k.vm.roots == old(k.vm).roots + {child as nat}
    ensures ok ==> InMemory(old(Snap(k))) && InMemory(Snap(k))
                   && Forked(View(old(Snap(k))), View(Snap(k)), parent, child)
    ensures ok && StackKey(parent) in old(k.vm).maps ==>
      StackKey(parent) in k.vm.maps && Has(k.vm.maps[StackKey(parent)].perm, PTE_W)
    ensures ok ==> var x := XstackKey(child);
      && x in k.vm.maps && k.vm.maps[x].perm == PTE_P + PTE_U + PTE_W
      && k.vm.maps[x].page < k.frames.Length && k.frames[k.vm.maps[x].page] == Zeroed()
  {
    hide WellFormed, Backed, Refs, Linked, Exclusive, SharedAcross, Has, UserPerms, InMemory;
    hide Forked, FreePages, TablesNeeded, View, FaultCost, GivenUp, StackFaults, Faulted, StackKey;
    ghost var before := k.vm;
    CostParts(before, parent);
    ok, child := ChildPages(k, parent);
    if !ok {
      return;
    }
    ghost var vm := k.vm;
    ghost var g, t;
    ok, g, t := PushOnStack(k, parent);
    if !ok {
      return;
    }
    StackFacts(parent);
    PermsOfPgfault();
    FaultedOther(vm, parent, child, g, t);
    XstackTable(vm, child);
    ok, g := ChildStack(k, child);
  }

  /** The exception stack of the child, the last thing fork needs memory for. */
  method ChildStack(k: Kernel, child: nat) returns (ok: bool, ghost got: nat)
    requires ForkOk(k) && child in k.vm.roots
    modifies k`pageFreeList, k`free, k`vm, k.pages, k.frames
    ensures k.Valid() && k.vm.roots == old(k.vm).roots
    ensures ok <==> FreePages(old(k.vm)) >= 1 + One(PdeKey(child, XSTACK_PDX) !in old(k.vm).tables)
    ensures ok ==> ForkOk(k) && InMemory(old(Snap(k))) && InMemory(Snap(k)) && View(Snap(k)) == View(old(Snap(k)))
    ensures ok ==>
      && k.vm.maps == old(k.vm).maps[XstackKey(child) := Pte(got, PTE_P + PTE_U + PTE_W)]
      && got < k.frames.Length && k.frames[got] == Zeroed()
  {
    hide WellFormed, Backed, Refs, Linked, Exclusive, SharedAcross, Has, UserPerms, InMemory, SameData;
    hide IsData, FreePages, CowInv, View;
    ghost var vm2, s2 := k.vm, Snap(k);
    SnapInMemory(k);
    XstackTable(vm2, child);
    PermsOfPgfault();
    PlainPerm();
    SnapInv(k);
    var r;
    ghost var t;
    r, got, t := SysPageAlloc(k, child, UXSTACKTOP - PGSIZE, PTE_U + PTE_P + PTE_W);
    if r < 0 {
      return false, got;
    }
    SnapInMemory(k);
    DataKept(vm2, s2, Snap(k));
    FreeIsUnmapped(vm2, got);
    XstackAlloc(s2, Snap(k), child, got);
    return true, got;
  }

  /** The parent's stack, if it has one, faults at the next push, the fault gives no page up, and
      the page table for it is among those the child has. */
  ghost predicate StackShared(before: Vm, vm: Vm, parent: nat)
  {
    && (StackFaults(vm, parent) <==> StackKey(parent) in before.maps)
    && FaultCost(vm, parent) == FaultCost(before, parent)
    && (StackKey(parent) in before.maps ==>
          GivenUp(vm, StackKey(parent)) == {} && XSTACK_PDX in TablesNeeded(before, parent))
  }

  lemma FaultedOther(vm: Vm, parent: nat, child: nat, got: nat, t: nat)
    requires child != parent
    ensures var w := Faulted(vm, StackKey(parent), got, t);
      && (PdeKey(child, XSTACK_PDX) in w.tables <==> PdeKey(child, XSTACK_PDX) in vm.tables)
      && StackKey(parent) in w.maps && w.maps[StackKey(parent)].perm == PTE_P + PTE_U + PTE_W
  {
  }

  lemma StackGiven(before: Vm, vm0: Vm, vm: Vm, parent: nat, child: nat)
    requires Progress(vm0, vm, parent, child, UTOP / PGSIZE) && Given(vm0, vm, parent, child, UTOP / PGSIZE)
    requires before.maps == vm0.maps && before.tables == vm0.tables && child != parent
    ensures StackShared(before, vm, parent)
  {
    hide Has, FreePages;
    StackFacts(parent);
    var key, temp := StackKey(parent), PftempKey(parent);
    assert key != XstackKey(parent) && temp != XstackKey(parent);
    assert PageNo(temp) < UTOP / PGSIZE;
    if key in vm.maps {
      assert vm.maps[ChildKey(key, child)].page == vm.maps[key].page;
      assert temp in vm.maps ==> vm.maps[ChildKey(temp, child)].page == vm.maps[temp].page;
    }
  }

  lemma NewDirectoryCount(vm: Vm, child: nat, parent: nat)
    requires WellFormed(vm) && Free(vm, child)
    ensures FreePages(AddRoot(Take(vm, child), child)) == FreePages(vm) - 1
    ensures TablesNeeded(AddRoot(Take(vm, child), child), parent) == TablesNeeded(vm, parent)
    ensures forall k :: k in vm.tables ==> k.dir != child
  {
    var w := Take(vm, child);
    CountedPositive(vm, child);
    TakeKeeps(vm, child);
    TakeCount(vm, child);
    AddRootKeeps(w, child);
    assert FreeSet(AddRoot(w, child)) == FreeSet(w);
  }

  lemma CostParts(vm: Vm, parent: nat)
    ensures ForkCost(vm, parent) ==
      2 + |TablesNeeded(vm, parent)| + One(XSTACK_PDX !in TablesNeeded(vm, parent))
        + if StackKey(parent) in vm.maps then FaultCost(vm, parent) else 0
  {
    hide TablesNeeded, FaultCost, StackKey;
    var all := TablesNeeded(vm, parent);
    if XSTACK_PDX in all {
      assert all + {XSTACK_PDX} == all;
    }
  }

  lemma XstackTable(vm: Vm, child: nat)
    ensures TableOf(KeyOf(child, UXSTACKTOP - PGSIZE)) == PdeKey(child, XSTACK_PDX)
    ensures PdeKey(child, XSTACK_PDX) in vm.tables <==> XSTACK_PDX in TablesOf(vm, child)
    ensures KeyOf(child, UXSTACKTOP - PGSIZE) == XstackKey(child)
  {
    assert PDX(UXSTACKTOP - PGSIZE) == XSTACK_PDX;
  }

  lemma PlainPerm()
    ensures OnlySyscallBits(PTE_P + PTE_U + PTE_W)
    ensures PTE_U + PTE_P + PTE_W == PTE_P + PTE_U + PTE_W
  {
  }

  /** A new directory shows nothing and leaves every view as it was. */
  lemma NewDirectory(vm: Vm, s: Sys, s': Sys, child: nat)
    requires WellFormed(vm) && Free(vm, child) && InMemory(s) && InMemory(s')
    requires s.maps == s'.maps == vm.maps && |s.mem| == |s'.mem| && s.pending == s'.pending
    requires forall p: nat :: p < |s.mem| && p != child ==> s'.mem[p] == s.mem[p]
    ensures View(s') == View(s)
    ensures child !in vm.roots && forall l :: l in vm.maps ==> l.dir != child
  {
    CountedPositive(vm, child);
    FreeIsUnmapped(vm, child);
    forall l | l in vm.maps ensures l.dir != child {
      KeyBounds(vm, l);
    }
  }

  /** Giving the child its exception stack changes no view. */
  lemma XstackAlloc(s: Sys, s': Sys, child: nat, got: nat)
    requires CowInv(s) && InMemory(s') && UserPerms(s.maps)
    requires Unmapped(s, got) && got < |s.mem| == |s'.mem| && s'.mem[got] == seq(NPTENTRIES, i => 0)
    requires s'.maps == s.maps[XstackKey(child) := Pte(got, PTE_P + PTE_U + PTE_W)]
    requires SameData(s, s', {}) && s.handlers == s'.handlers == map[] && s.pending == s'.pending == map[]
    ensures Exclusive(s'.maps) && SharedAcross(s'.maps) && View(s') == View(s) && UserPerms(s'.maps)
  {
    hide Exclusive, SharedAcross, InMemory, Has;
    PermsOfPgfault();
    AllocRefines(s, s', XstackKey(child), PTE_P + PTE_U + PTE_W, got);
    SettledWithout(s');
  }
}
