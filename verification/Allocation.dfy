/** Whole runs of the page allocator of TP2-sched/kern/pmap.c, from page_init on: which pages it
    ever gives out. */
module Allocation {
  import opened Mmu
  import opened Vm
  import opened Pmap

  /** What the rest of the kernel asks of pmap.c and of env.c's address spaces. */
  datatype Request =
    | Alloc(zero: bool)
    | Insert(page: nat, dir: nat, va: nat, perm: nat)
    | Share(from: nat, fromVa: nat, dir: nat, va: nat, perm: nat)
    | Remove(dir: nat, va: nat)
    | NewSpace
    | EndSpace(dir: nat)

  /** The kernel names page `p` somewhere, or may hand it out. */
  ghost predicate Known(vm: Vm, p: nat)
  {
    p in vm.roots || IsTable(vm, p) || IsMapped(vm, p) || p in vm.held || p in vm.hand || Free(vm, p)
  }

  lemma KnownInPool(vm: Vm)
    requires WellFormed(vm)
    ensures forall p :: Known(vm, p) ==> p in vm.pool
  {
  }

  /** What a kernel that keeps count of its directories and of the pages it has in hand knows. */
  ghost predicate Books(vm: Vm, dirs: set<nat>, hand: set<nat>)
  {
    dirs == vm.roots && hand == vm.hand && vm.held == {}
  }

  lemma HandIsInsertable(vm: Vm, p: nat)
    requires WellFormed(vm)
    ensures p in vm.hand ==> Insertable(vm, p) && Refs(vm, p) == 0
  {
    CountedPositive(vm, p);
  }

  /** page_lookup in one directory and page_insert in another, unless the count of the page would
      not fit its sixteen bits. */
  method ShareMapped(k: Kernel, r: Request, ghost hand: set<nat>)
    requires k.Valid() && Books(k.vm, k.vm.roots, hand) && r.Share?
    requires r.from in k.vm.roots && r.fromVa < UTOP && r.dir in k.vm.roots && r.va < UTOP && r.perm < PGSIZE
    modifies k`pageFreeList, k`free, k`vm, k.pages, k.frames
    ensures k.Valid() && Books(k.vm, old(k.vm).roots, hand) && k.vm.pool == old(k.vm).pool
  {
    hide WellFormed, Backed, Refs, Linked;
    var page, pte := k.PageLookup(r.from, r.fromVa);
    if page != NULL {
      MappedInPool(k.vm, KeyOf(r.from, r.fromVa));
      NotInHand(k.vm, KeyOf(r.from, r.fromVa));
      if k.pages[page].ref < MAXREF {
        var noMem, t := k.PageInsert(r.dir, page, r.va, r.perm);
      }
    }
  }

  lemma NotInHand(vm: Vm, k: PteKey)
    requires WellFormed(vm) && k in vm.maps
    ensures vm.maps[k].page !in vm.hand
  {
  }

  /** One request. A request the kernel does not make is passed over: an address above UTOP, a
      directory or a page it does not have. */
  method Serve(k: Kernel, r: Request, dirs: set<nat>, hand: set<nat>)
    returns (page: int, dirs': set<nat>, hand': set<nat>)
    requires k.Valid() && Books(k.vm, dirs, hand)
    modifies k`pageFreeList, k`free, k`vm, k.pages, k.frames
    ensures k.Valid() && Books(k.vm, dirs', hand')
    ensures k.vm.pool == old(k.vm).pool
    ensures page != NULL <==> r.Alloc? && exists p :: Free(old(k.vm), p)
    ensures page != NULL ==> page >= 0 && Free(old(k.vm), page)
  {
    hide WellFormed, Backed, Refs, Linked, Free;
    page, dirs', hand' := NULL, dirs, hand;
    match r
    case Alloc(zero) =>
      page := k.PageAlloc(zero);
      if page != NULL {
        hand' := hand + {page as nat};
      }
    case Insert(pp, dir, va, perm) =>
      if pp in hand && dir in dirs && va < UTOP && perm < PGSIZE {
        HandIsInsertable(k.vm, pp);
        var noMem, t := k.PageInsert(dir, pp, va, perm);
        hand' := if noMem then hand else hand - {pp};
      }
    case Share(from, fromVa, dir, va, perm) =>
      if from in dirs && fromVa < UTOP && dir in dirs && va < UTOP && perm < PGSIZE {
        ShareMapped(k, r, hand);
      }
    case Remove(dir, va) =>
      if dir in dirs && va < UTOP {
        k.PageRemove(dir, va);
      }
    case NewSpace =>
      var dir := k.EnvSetupVm();
      if dir != NULL {
        FreshDirectory(old(k.vm), dir);
        dirs' := dirs + {dir as nat};
      }
    case EndSpace(dir) =>
      if dir in dirs {
        k.EnvFree(dir);
        dirs' := dirs - {dir};
      }
  }

  lemma FreshDirectory(vm: Vm, p: nat)
    requires WellFormed(vm) && Free(vm, p)
    ensures AddRoot(Take(vm, p), p).hand == vm.hand
  {
  }

  /** From page_init on, whatever is asked in whatever order: no page that page_alloc returns, and no
      page the kernel uses for a directory, a page table or a mapping, is page 0, the page of the
      multiprocessor entry code, in the hole for devices, or one of the kernel's own. */
  method ServeAll(k: Kernel, kernelEnd: nat, requests: seq<Request>) returns (given: seq<nat>)
    requires k.Valid() && k.vm == Booted({})
    modifies k`pageFreeList, k`free, k`vm, k.pages, k.frames
    ensures k.Valid()
    ensures forall p: nat :: p in given || Known(k.vm, p) ==>
      && p < k.pages.Length && p * 4096 != 0 && p * 4096 != 0x7000
      && !(0xA_0000 <= p * 4096 < 0x10_0000) && !(0x10_0000 <= p * 4096 < kernelEnd * 4096)
  {
    hide WellFormed, Backed, Refs, Linked, Allocatable, Known;
    k.PageInit(kernelEnd);
    ghost var pool := k.vm.pool;
    var dirs, hand := {}, {};
    given := [];
    for i := 0 to |requests|
      invariant k.Valid() && Books(k.vm, dirs, hand) && k.vm.pool == pool
      invariant forall p :: p in given ==> p in pool
    {
      var page;
      page, dirs, hand := Serve(k, requests[i], dirs, hand);
      if page != NULL {
        given := given + [page as nat];
      }
    }
    KnownInPool(k.vm);
  }
}
