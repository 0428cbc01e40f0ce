/** The physical page allocator and the two-level page tables of TP2-sched/kern/pmap.c, with
    the address-space set-up and tear-down of TP2-sched/kern/env.c. The concrete state is the
    source's: a PageInfo array threaded by a linked free list, and physical frames whose words
    are the page-directory and page-table entries. `vm` is the abstract state they stand for. */
module Pmap {
  import opened Mmu
  import opened Vm

  const NULL: int := -1
  const MPENTRY_PAGE: nat := 7
  const IOPHYS_PAGE: nat := 0xA0
  const EXTPHYS_PAGE: nat := 0x100
  const MAXREF: nat := 0xFFFF

  datatype PageInfo = PageInfo(link: int, ref: nat)

  function Zeroed(): (f: seq<nat>)
    ensures |f| == NPTENTRIES && forall i :: 0 <= i < NPTENTRIES ==> f[i] == 0
  {
    seq(NPTENTRIES, i => 0)
  }

  /** Following links from `head` visits exactly the pages of `list`, each once, then NULL. */
  ghost predicate Linked(ps: seq<PageInfo>, head: int, list: seq<nat>)
    decreases |list|
  {
    if list == [] then head == NULL
    else
      && head == list[0] < |ps|
      && list[0] !in list[1..]
      && Linked(ps, ps[list[0]].link, list[1..])
  }

  lemma {:induction false} LinkedFrame(ps: seq<PageInfo>, qs: seq<PageInfo>, head: int, list: seq<nat>)
    requires Linked(ps, head, list) && |ps| <= |qs|
    requires forall p :: p in list && p < |ps| ==> ps[p].link == qs[p].link
    ensures Linked(qs, head, list)
    decreases |list|
  {
    if list != [] {
      assert list[0] in list;
      LinkedFrame(ps, qs, ps[list[0]].link, list[1..]);
    }
  }

  lemma LinkedNil(ps: seq<PageInfo>)
    ensures Linked(ps, NULL, [])
  {
  }

  /** Pushing a page: its link becomes the old head. */
  lemma LinkedPush(ps: seq<PageInfo>, qs: seq<PageInfo>, head: int, list: seq<nat>, p: nat)
    requires Linked(ps, head, list) && p !in list && p < |ps| == |qs| && qs[p].link == head
    requires forall q :: 0 <= q < |ps| && q != p ==> qs[q].link == ps[q].link
    ensures Linked(qs, p, [p] + list)
  {
    LinkedFrame(ps, qs, head, list);
    assert ([p] + list)[1..] == list;
  }

  /** A linked list is acyclic and within bounds. */
  lemma {:induction false} LinkedNoDuplicates(ps: seq<PageInfo>, head: int, list: seq<nat>)
    requires Linked(ps, head, list)
    ensures forall i :: 0 <= i < |list| ==> list[i] < |ps|
    ensures forall i, j :: 0 <= i < j < |list| ==> list[i] != list[j]
    decreases |list|
  {
    if list != [] {
      LinkedNoDuplicates(ps, ps[list[0]].link, list[1..]);
    }
  }

  ghost function PdeWord(vm: Vm, k: PdeKey): nat
  {
    if k in vm.tables then Word(vm.tables[k], PTE_P + PTE_W + PTE_U) else 0
  }

  ghost function PteWord(vm: Vm, k: PteKey): nat
  {
    if k in vm.maps then Word(vm.maps[k].page, vm.maps[k].perm) else 0
  }

  ghost predicate Shaped(fs: seq<seq<nat>>, vm: Vm)
  {
    && (forall p :: 0 <= p < |fs| ==> |fs[p]| == NPTENTRIES)
    && (forall r :: r in vm.roots ==> r < |fs|)
    && (forall k :: k in vm.tables ==> vm.tables[k] < |fs|)
  }

  ghost predicate PdesBacked(fs: seq<seq<nat>>, vm: Vm)
    requires Shaped(fs, vm)
  {
    forall k: PdeKey :: k.dir in vm.roots && k.pdx < NUSERPDE ==> fs[k.dir][k.pdx] == PdeWord(vm, k)
  }

  ghost predicate PtesBacked(fs: seq<seq<nat>>, vm: Vm)
    requires Shaped(fs, vm)
  {
    forall k: PteKey :: TableOf(k) in vm.tables && k.ptx < NPTENTRIES ==>
      fs[vm.tables[TableOf(k)]][k.ptx] == PteWord(vm, k)
  }

  ghost predicate SelfMapped(fs: seq<seq<nat>>, vm: Vm)
    requires Shaped(fs, vm)
  {
    forall r :: r in vm.roots ==> fs[r][UVPT_PDX] == SelfPde(r)
  }

  /** The frames of every directory and page table hold exactly the entries of `vm`: each
      user PDE and PTE is zero or present. */
  ghost predicate Backed(fs: seq<seq<nat>>, vm: Vm)
  {
    Shaped(fs, vm) && PdesBacked(fs, vm) && PtesBacked(fs, vm) && SelfMapped(fs, vm)
  }

  /** The entry at UVPT with which a directory maps itself, so that its page tables can be read
      as memory. */
  function SelfPde(dir: nat): nat { Word(dir, PTE_P + PTE_U) }

  /** It is present, for the user to read and not to write, and names the directory. */
  lemma SelfPdeParts(dir: nat)
    ensures var w := SelfPde(dir);
      PteAddr(w) == dir && Has(w, PTE_P) && Has(w, PTE_U) && !Has(w, PTE_W) && !Has(w, PTE_COW)
  {
    ByTwo(2048 * dir + 2, 1);
    ByTwo(1024 * dir + 1, 0);
    ByFour(1024 * dir + 1, 1);
    ByTwo(512 * dir, 1);
    ByTwo(dir, 0);
    WordParts(dir, PTE_P + PTE_U);
    assert (2048 * (2 * dir) + 5) / 2048 == 2 * dir;
  }

  lemma SelfPdeWord(dir: nat)
    ensures SelfPde(dir) == Word(dir, PTE_P + PTE_U) == dir * 4096 + 5
  {
  }

  lemma BackedShape(fs: seq<seq<nat>>, vm: Vm)
    requires Backed(fs, vm)
    ensures forall p :: 0 <= p < |fs| ==> |fs[p]| == NPTENTRIES
  {
  }

  /** Reading a user PDE: zero means no page table, anything else names it. */
  lemma PdeAt(fs: seq<seq<nat>>, vm: Vm, k: PdeKey)
    requires Backed(fs, vm) && k.dir in vm.roots && k.pdx < NUSERPDE
    ensures k.dir < |fs| && |fs[k.dir]| == NPTENTRIES
    ensures fs[k.dir][k.pdx] == 0 <==> k !in vm.tables
    ensures k in vm.tables ==> PteAddr(fs[k.dir][k.pdx]) == vm.tables[k] < |fs|
    ensures k in vm.tables ==> Has(fs[k.dir][k.pdx], PTE_P) && Has(fs[k.dir][k.pdx], PTE_U)
  {
    hide Has, PteAddr, Word;
    if k in vm.tables {
      PdeParts(vm.tables[k]);
    }
  }

  /** Reading a user PTE: zero means unmapped, anything else is present and gives page and
      permissions. This is why testing the whole word decides presence. */
  lemma PteAt(fs: seq<seq<nat>>, vm: Vm, k: PteKey)
    requires WellFormed(vm) && Backed(fs, vm) && TableOf(k) in vm.tables && k.ptx < NPTENTRIES
    ensures var t := vm.tables[TableOf(k)];
      && t < |fs| && |fs[t]| == NPTENTRIES
      && (fs[t][k.ptx] == 0 <==> k !in vm.maps)
      && (fs[t][k.ptx] != 0 <==> Has(fs[t][k.ptx], PTE_P))
      && (k in vm.maps ==>
            PteAddr(fs[t][k.ptx]) == vm.maps[k].page && PteFlags(fs[t][k.ptx]) == vm.maps[k].perm)
  {
    if k in vm.maps {
      WordParts(vm.maps[k].page, vm.maps[k].perm);
    }
  }

  /** Frames that are neither directories nor page tables may change freely. */
  lemma BackedData(fs: seq<seq<nat>>, gs: seq<seq<nat>>, vm: Vm, w: Vm)
    requires Backed(fs, vm) && |gs| == |fs|
    requires w.roots <= vm.roots && w.tables == vm.tables && w.maps == vm.maps
    requires forall p :: 0 <= p < |fs| ==> |gs[p]| == |fs[p]|
    requires forall p: nat :: p < |fs| && (p in vm.roots || IsTable(vm, p)) ==> gs[p] == fs[p]
    ensures Backed(gs, w)
  {
  }

  /** Frame `p` with word `i` overwritten. */
  function Store(fs: seq<seq<nat>>, p: nat, i: nat, w: nat): (gs: seq<seq<nat>>)
    requires p < |fs| && i < |fs[p]|
    ensures |gs| == |fs| && |gs[p]| == |fs[p]| && gs[p][i] == w
    ensures forall q :: 0 <= q < |fs| && q != p ==> gs[q] == fs[q]
    ensures forall j :: 0 <= j < |fs[p]| && j != i ==> gs[p][j] == fs[p][j]
  {
    var frame: seq<nat> := fs[p][i := w];
    fs[p := frame]
  }

  /** Overwriting one entry of a page table. */
  lemma StorePte(fs: seq<seq<nat>>, vm: Vm, w: Vm, k: PteKey, word: nat)
    requires Backed(fs, vm) && WellFormed(vm) && TableOf(k) in vm.tables && k.ptx < NPTENTRIES
    requires w.roots == vm.roots && w.tables == vm.tables && word == PteWord(w, k)
    requires forall l: PteKey :: l != k ==> PteWord(w, l) == PteWord(vm, l)
    ensures Backed(Store(fs, vm.tables[TableOf(k)], k.ptx, word), w)
  {
    hide PteWord, PdeWord, SelfPde, WellFormed;
    var t := vm.tables[TableOf(k)];
    var gs := Store(fs, t, k.ptx, word);
    TableFacts(vm, TableOf(k));
    forall l: PteKey | TableOf(l) in w.tables && l.ptx < NPTENTRIES
      ensures gs[w.tables[TableOf(l)]][l.ptx] == PteWord(w, l)
    {
      if l != k {
        SameTable(vm, TableOf(l), TableOf(k));
      }
    }
    forall l: PdeKey | l.dir in w.roots && l.pdx < NUSERPDE ensures gs[l.dir][l.pdx] == PdeWord(w, l) {
      SamePde(vm, w, l);
    }
  }

  lemma SamePde(vm: Vm, w: Vm, l: PdeKey)
    requires w.tables == vm.tables
    ensures PdeWord(w, l) == PdeWord(vm, l)
  {
  }

  lemma SameTable(vm: Vm, k: PdeKey, l: PdeKey)
    requires WellFormed(vm) && k in vm.tables && l in vm.tables
    ensures vm.tables[k] == vm.tables[l] <==> k == l
  {
  }

  lemma BackedInstall(fs: seq<seq<nat>>, vm: Vm, k: PteKey, e: Pte)
    requires Backed(fs, vm) && WellFormed(vm) && TableOf(k) in vm.tables && k.ptx < NPTENTRIES
    ensures Backed(Store(fs, vm.tables[TableOf(k)], k.ptx, Word(e.page, e.perm)), Install(vm, k, e))
  {
    hide Backed, WellFormed, Word;
    StorePte(fs, vm, Install(vm, k, e), k, Word(e.page, e.perm));
  }

  lemma BackedUnmap(fs: seq<seq<nat>>, vm: Vm, k: PteKey)
    requires Backed(fs, vm) && WellFormed(vm) && TableOf(k) in vm.tables && k.ptx < NPTENTRIES
    ensures Backed(Store(fs, vm.tables[TableOf(k)], k.ptx, 0), Unmap(vm, k))
  {
    hide Backed, WellFormed, Word;
    StorePte(fs, vm, Unmap(vm, k), k, 0);
  }

  /** Overwriting one entry of a directory; a new page table is all zeros and maps nothing. */
  lemma StorePde(fs: seq<seq<nat>>, vm: Vm, w: Vm, k: PdeKey, word: nat)
    requires Backed(fs, vm) && WellFormed(vm) && k.dir in vm.roots && k.pdx < NUSERPDE
    requires w.roots == vm.roots && w.maps == vm.maps && word == PdeWord(w, k)
    requires forall l :: l in w.tables && l != k ==> l in vm.tables && w.tables[l] == vm.tables[l]
    requires forall l: PdeKey :: l != k ==> PdeWord(w, l) == PdeWord(vm, l)
    requires k in w.tables ==> k !in vm.tables && w.tables[k] < |fs| && w.tables[k] !in vm.roots
                               && fs[w.tables[k]] == Zeroed()
    ensures Backed(Store(fs, k.dir, k.pdx, word), w)
  {
    hide PteWord, PdeWord, SelfPde, WellFormed;
    var gs := Store(fs, k.dir, k.pdx, word);
    forall l: PteKey | TableOf(l) in w.tables && l.ptx < NPTENTRIES
      ensures gs[w.tables[TableOf(l)]][l.ptx] == PteWord(w, l)
    {
      SamePte(vm, w, l);
      if TableOf(l) == k {
        UnmappedWithoutTable(vm, l);
      } else {
        TableFacts(vm, TableOf(l));
      }
    }
  }

  lemma SamePte(vm: Vm, w: Vm, l: PteKey)
    requires w.maps == vm.maps
    ensures PteWord(w, l) == PteWord(vm, l) && (l !in vm.maps ==> PteWord(w, l) == 0)
  {
  }

  lemma BackedAddTable(fs: seq<seq<nat>>, vm: Vm, k: PdeKey, t: nat)
    requires Backed(fs, vm) && WellFormed(vm) && k !in vm.tables && k.dir in vm.roots && k.pdx < NUSERPDE
    requires t < |fs| && t !in vm.roots && !IsTable(vm, t) && fs[t] == Zeroed()
    ensures Backed(Store(fs, k.dir, k.pdx, Word(t, PTE_P + PTE_W + PTE_U)), AddTable(vm, k, t))
  {
    hide Backed, WellFormed, Word;
    StorePde(fs, vm, AddTable(vm, k, t), k, Word(t, PTE_P + PTE_W + PTE_U));
  }

  lemma BackedDropTable(fs: seq<seq<nat>>, vm: Vm, k: PdeKey)
    requires Backed(fs, vm) && WellFormed(vm) && k in vm.tables
    ensures Backed(Store(fs, k.dir, k.pdx, 0), DropTable(vm, k))
  {
    TableFacts(vm, k);
    hide Backed, WellFormed, Word;
    StorePde(fs, vm, DropTable(vm, k), k, 0);
  }

  lemma BackedAddRoot(fs: seq<seq<nat>>, vm: Vm, p: nat)
    requires Backed(fs, vm) && WellFormed(vm) && p < |fs| && p in vm.hand
    requires forall d :: 0 <= d < NUSERPDE ==> fs[p][d] == 0
    requires fs[p][UVPT_PDX] == SelfPde(p)
    ensures Backed(fs, AddRoot(vm, p))
  {
  }

  function KeyOf(dir: nat, va: nat): PteKey { PteKey(dir, PDX(va), PTX(va)) }

  lemma HeldInPool(vm: Vm, p: nat)
    requires WellFormed(vm) && p in vm.held
    ensures p in vm.pool
  {
  }

  lemma RootInPool(vm: Vm, p: nat)
    requires WellFormed(vm) && p in vm.roots
    ensures p in vm.pool
  {
  }

  lemma TableFacts(vm: Vm, k: PdeKey)
    requires WellFormed(vm) && k in vm.tables
    ensures k.dir in vm.roots && k.pdx < NUSERPDE && vm.tables[k] !in vm.roots
  {
  }

  /** A data page is no directory, no page table and not free. */
  lemma DataIsOnlyData(vm: Vm)
    requires WellFormed(vm)
    ensures forall p :: IsData(vm, p) ==> p !in vm.roots && !IsTable(vm, p) && !Free(vm, p)
  {
    forall p | IsData(vm, p) ensures p !in vm.roots && !IsTable(vm, p) && !Free(vm, p) {
      CountedPositive(vm, p);
    }
  }

  /** A page that page_insert may be given: fresh from page_alloc or found by page_lookup. */
  ghost predicate Insertable(vm: Vm, pp: nat)
  {
    pp in vm.hand || (IsMapped(vm, pp) && pp !in vm.held)
  }

  lemma InsertableFacts(vm: Vm, pp: nat)
    requires WellFormed(vm) && Insertable(vm, pp)
    ensures pp in vm.pool && pp !in vm.held && pp !in vm.roots && !IsTable(vm, pp) && !Free(vm, pp)
  {
    CountedPositive(vm, pp);
  }

  lemma UnmappedWithoutTable(vm: Vm, k: PteKey)
    requires WellFormed(vm) && TableOf(k) !in vm.tables
    ensures k !in vm.maps
  {
  }

  lemma MappedInPool(vm: Vm, k: PteKey)
    requires WellFormed(vm) && k in vm.maps
    ensures vm.maps[k].page in vm.pool && TableOf(k) in vm.tables
  {
  }

  /** Page `i` is memory nobody else uses, `kernelEnd` being the first page after the kernel: it is
      not the page of the BIOS structures or of the multiprocessor entry code, and not in the hole
      for devices or among the pages of the kernel. */
  ghost predicate Allocatable(i: nat, kernelEnd: nat)
  {
    var pa := i * PGSIZE;
    && pa != 0 && pa != 0x7000
    && (pa < 0xA_0000 || 0x10_0000 <= pa) && (pa < 0x10_0000 || kernelEnd * PGSIZE <= pa)
  }

  lemma Reserved(i: nat, kernelEnd: nat)
    ensures Allocatable(i, kernelEnd) <==>
      !(i == 0 || i == MPENTRY_PAGE || (IOPHYS_PAGE <= i < EXTPHYS_PAGE) || (EXTPHYS_PAGE <= i < kernelEnd))
  {
  }

  /** Nothing mapped, no directory, nothing in hand. */
  ghost function Booted(pool: set<nat>): Vm { Vm(pool, {}, map[], map[], {}, {}) }

  lemma InitialBacked(fs: seq<seq<nat>>, pool: set<nat>)
    requires forall p :: 0 <= p < |fs| ==> |fs[p]| == NPTENTRIES
    ensures Backed(fs, Booted(pool))
  {
  }

  lemma InitialVm(pool: set<nat>)
    ensures WellFormed(Booted(pool))
    ensures forall p :: Refs(Booted(pool), p) == 0
    ensures forall p :: Free(Booted(pool), p) <==> p in pool
  {
    forall p: nat ensures Refs(Booted(pool), p) == 0 {
      assert Pdes(Booted(pool), p) == {};
      assert Ptes(Booted(pool), p) == {};
    }
  }

  class Kernel {
    const pages: array<PageInfo>
    const frames: array<seq<nat>>
    const kernPgdir: seq<nat>
    var pageFreeList: int
    ghost var free: seq<nat>
    ghost var vm: Vm

    /** The links thread exactly the pages of `free`; every other page has a NULL link. */
    ghost predicate ListOk()
      reads this, pages
    {
      && Linked(pages[..], pageFreeList, free)
      && (forall p: nat :: p < pages.Length && p !in free ==> pages[p].link == NULL)
    }

    ghost predicate Valid()
      reads this, pages, frames
    {
      && pages.Length == frames.Length
      && |kernPgdir| == NPTENTRIES && (forall d :: 0 <= d < NUSERPDE ==> kernPgdir[d] == 0)
      && WellFormed(vm)
      && (forall p :: p in vm.pool ==> p < pages.Length)
      && ListOk()
      && Backed(frames[..], vm)
      // reference counts are exact, and fit in sixteen bits
      && (forall p :: p in vm.pool ==> pages[p].ref == Refs(vm, p) <= MAXREF)
      // the free list is exactly the unreferenced pages nobody holds
      && (forall p: nat :: p in free <==> Free(vm, p))
    }

    /** mem_init up to page_init: zeroed PageInfo structures and no page to allocate. */
    constructor (memory: seq<seq<nat>>, kernPgdir: seq<nat>)
      requires forall p :: 0 <= p < |memory| ==> |memory[p]| == NPTENTRIES
      requires |kernPgdir| == NPTENTRIES && forall d :: 0 <= d < NUSERPDE ==> kernPgdir[d] == 0
      ensures Valid() && fresh(pages) && fresh(frames)
      ensures pages.Length == |memory| && vm == Booted({})
    {
      hide WellFormed, Backed, Refs;
      this.pages := new PageInfo[|memory|](_ => PageInfo(NULL, 0));
      this.frames := new seq<nat>[|memory|](i requires 0 <= i < |memory| => memory[i]);
      this.kernPgdir := kernPgdir;
      this.pageFreeList := NULL;
      this.free := [];
      this.vm := Booted({});
      new;
      InitialVm({});
      InitialBacked(frames[..], {});
    }

    /** page_init: the allocatable pages, and no others, go on the free list. */
    method PageInit(kernelEnd: nat)
      requires Valid() && vm == Booted({})
      modifies this`pageFreeList, this`free, this`vm, pages
      ensures Valid()
      ensures vm == Booted(set p: nat | p < pages.Length && Allocatable(p, kernelEnd))
      ensures forall p: nat :: p in vm.pool <==>
        && p < pages.Length && p * 4096 != 0 && p * 4096 != 0x7000
        && !(0xA_0000 <= p * 4096 < 0x10_0000) && !(0x10_0000 <= p * 4096 < kernelEnd * 4096)
    {
      hide WellFormed, Backed, Refs, Linked;
      BackedShape(frames[..], vm);
      pageFreeList := NULL;
      free := [];
      LinkedNil(pages[..]);
      for i := 0 to pages.Length
        modifies this`pageFreeList, this`free, pages
        invariant Linked(pages[..], pageFreeList, free)
        invariant forall p: nat :: p in free <==> p < i && Allocatable(p, kernelEnd)
        invariant forall p: nat :: p < i && Allocatable(p, kernelEnd) ==> pages[p].ref == 0
        invariant forall p: nat :: p < i && p !in free ==> pages[p].link == NULL
      {
        ghost var ps := pages[..];
        pages[i] := pages[i].(link := NULL);
        LinkedFrame(ps, pages[..], pageFreeList, free);
        Reserved(i, kernelEnd);
        if i == 0 {
          continue;
        }
        if MPENTRY_PAGE == i {
          continue;
        }
        if i >= IOPHYS_PAGE && i < EXTPHYS_PAGE {
          continue;
        }
        if i >= EXTPHYS_PAGE && i < kernelEnd {
          continue;
        }
        pages[i] := PageInfo(pageFreeList, 0);
        LinkedPush(ps, pages[..], pageFreeList, free, i);
        pageFreeList := i;
        free := [i as nat] + free;
      }
      ghost var pool := set p: nat | p < pages.Length && Allocatable(p, kernelEnd);
      InitialVm(pool);
      InitialBacked(frames[..], pool);
      vm := Booted(pool);
    }

    // ---- the allocator proper: contracts on the list alone ----

    method Pop() returns (pp: int)
      requires ListOk()
      modifies this`pageFreeList, this`free, pages
      ensures ListOk()
      ensures old(free) == [] ==> pp == NULL && free == [] && pages[..] == old(pages[..])
      ensures old(free) != [] ==> pp == old(free)[0] && free == old(free)[1..]
      ensures forall p: nat :: p < pages.Length ==> pages[p].ref == old(pages[p].ref)
    {
      if pageFreeList == NULL {
        return NULL;
      }
      pp := pageFreeList;
      pageFreeList := pages[pp].link;
      pages[pp] := pages[pp].(link := NULL);
      free := free[1..];
      LinkedFrame(old(pages[..]), pages[..], pageFreeList, free);
    }

    /** Both panics of page_free are the assertions at its head. */
    method PageFree(pp: nat)
      requires ListOk() && pp < pages.Length && pp !in free
      requires pages[pp].ref == 0
      modifies this`pageFreeList, this`free, pages
      ensures ListOk() && free == [pp] + old(free)
      ensures forall p: nat :: p < pages.Length ==> pages[p].ref == old(pages[p].ref)
    {
      assert pages[pp].ref == 0;
      assert pages[pp].link == NULL;
      pages[pp] := pages[pp].(link := pageFreeList);
      pageFreeList := pp;
      LinkedPush(old(pages[..]), pages[..], old(pageFreeList), free, pp);
      free := [pp] + free;
    }

    method PageDecref(pp: nat)
      requires ListOk() && pp < pages.Length && pp !in free
      requires pages[pp].ref > 0
      modifies this`pageFreeList, this`free, pages
      ensures ListOk()
      ensures free == if old(pages[pp].ref) == 1 then [pp] + old(free) else old(free)
      ensures forall p: nat :: p < pages.Length ==> pages[p].ref == old(pages[p].ref) - One(p == pp)
    {
      pages[pp] := pages[pp].(ref := pages[pp].ref - 1);
      LinkedFrame(old(pages[..]), pages[..], pageFreeList, free);
      if pages[pp].ref == 0 {
        PageFree(pp);
      }
    }

    // ---- page_alloc against the abstract state ----

    method PageAlloc(zero: bool) returns (pp: int)
      requires Valid()
      modifies this`pageFreeList, this`free, this`vm, pages, frames
      ensures Valid()
      ensures pp == NULL <==> forall p :: !Free(old(vm), p)
      ensures pp == NULL ==> vm == old(vm) && pages[..] == old(pages[..])
      ensures pp != NULL ==> pp >= 0 && Free(old(vm), pp) && vm == Take(old(vm), pp)
      ensures pp != NULL && zero ==> frames[pp] == Zeroed()
      ensures forall p: nat :: p < frames.Length && (p != pp || !zero) ==> frames[p] == old(frames[p])
    {
      hide WellFormed, Backed, Refs;
      ghost var before := vm;
      assert forall p :: Free(vm, p) ==> p in free;
      pp := Pop();
      if pp == NULL {
        return;
      }
      TakeKeeps(vm, pp);
      CountedPositive(vm, pp);
      BackedShape(frames[..], vm);
      if zero {
        frames[pp] := Zeroed();
      }
      BackedData(old(frames[..]), frames[..], vm, Take(vm, pp));
      vm := Take(vm, pp);
      assert old(free) == [pp as nat] + free;
    }

    // ---- pgdir_walk, page_lookup, page_remove, page_insert ----

    /** Returns the page-table page behind `va`; the PTE is its word PTX(va). */
    method PgdirWalk(dir: nat, va: nat, create: bool) returns (table: int)
      requires Valid() && dir in vm.roots && va < UTOP
      modifies this`pageFreeList, this`free, this`vm, pages, frames
      ensures Valid()
      ensures var k := PdeKey(dir, PDX(va));
        if k in old(vm).tables then
          table == old(vm).tables[k] && vm == old(vm)
        else if create && exists p :: Free(old(vm), p) then
          && table >= 0 && Free(old(vm), table) && vm == AddTable(Take(old(vm), table), k, table)
          && frames[dir] == old(frames[dir])[PDX(va) := table * 4096 + 7]
        else
          table == NULL && vm == old(vm)
      ensures vm == old(vm) ==> frames[..] == old(frames[..]) && pages[..] == old(pages[..])
      ensures forall q :: !Free(old(vm), q) ==> Refs(vm, q) == Refs(old(vm), q)
      ensures forall p: nat :: p < frames.Length && p != dir && !Free(old(vm), p) ==> frames[p] == old(frames[p])
    {
      hide WellFormed, Backed, Refs;
      UserPdx(va);
      var pdx := PDX(va);
      ghost var k := PdeKey(dir, pdx);
      PdeAt(frames[..], vm, k);
      if frames[dir][pdx] == 0 && create {
        var page := PageAlloc(true);
        if page != NULL {
          TakeKeeps(old(vm), page);
          AddTableKeeps(vm, k, page);
          AddFreshTable(dir, pdx, page);
          return page;
        }
      }
      if frames[dir][pdx] != 0 {
        return PteAddr(frames[dir][pdx]);
      }
      return NULL;
    }

    /** The two statements of pgdir_walk that count a new table and install its PDE. */
    method AddFreshTable(dir: nat, pdx: nat, page: nat)
      requires Valid() && dir in vm.roots && pdx < NUSERPDE && PdeKey(dir, pdx) !in vm.tables
      requires page in vm.hand && Refs(vm, page) == 0
      requires page < frames.Length && frames[page] == Zeroed()
      modifies this`vm, pages, frames
      ensures Valid() && vm == AddTable(old(vm), PdeKey(dir, pdx), page)
      ensures frames[dir] == old(frames[dir])[pdx := page * 4096 + 7]
      ensures forall p: nat :: p < frames.Length && p != dir ==> frames[p] == old(frames[p])
    {
      hide WellFormed, Backed, Refs;
      ghost var k := PdeKey(dir, pdx);
      PdeAt(frames[..], vm, k);
      CountedPositive(vm, page);
      AddTableKeeps(vm, k, page);
      BackedAddTable(frames[..], vm, k, page);
      ghost var ps := pages[..];
      pages[page] := pages[page].(ref := pages[page].ref + 1);
      LinkedFrame(ps, pages[..], pageFreeList, free);
      ghost var fs := frames[..];
      frames[dir] := frames[dir][pdx := Word(page, PTE_P + PTE_W + PTE_U)];
      assert frames[..] == Store(fs, dir, pdx, Word(page, PTE_P + PTE_W + PTE_U));
      vm := AddTable(vm, k, page);
    }

    /** `*pte && PTE_P` in the source is a logical and, so it only asks whether the entry is
        nonzero; that decides presence because every user PTE is zero or present. */
    method PageLookup(dir: nat, va: nat) returns (pp: int, pte: nat)
      requires Valid() && dir in vm.roots && va < UTOP
      modifies this`pageFreeList, this`free, this`vm, pages, frames
      ensures Valid() && vm == old(vm) && frames[..] == old(frames[..]) && pages[..] == old(pages[..])
      ensures var k := KeyOf(dir, va);
        if k in vm.maps then pp == vm.maps[k].page && PteFlags(pte) == vm.maps[k].perm else pp == NULL
    {
      hide Backed, Refs;
      var table := PgdirWalk(dir, va, false);
      if table == NULL {
        return NULL, 0;
      }
      PteAt(frames[..], vm, KeyOf(dir, va));
      pte := frames[table][PTX(va)];
      if pte == 0 {
        return NULL, 0;
      }
      pp := PteAddr(pte);
    }

    method PageRemove(dir: nat, va: nat)
      requires Valid() && dir in vm.roots && va < UTOP
      modifies this`pageFreeList, this`free, this`vm, pages, frames
      ensures Valid() && vm == Unmap(old(vm), KeyOf(dir, va))
      ensures forall p: nat :: p < frames.Length && !IsTable(old(vm), p) ==> frames[p] == old(frames[p])
    {
      hide WellFormed, Backed, Refs;
      ghost var k := KeyOf(dir, va);
      var table := PgdirWalk(dir, va, false);
      var page, pte := PageLookup(dir, va);
      if table != NULL {
        PteAt(frames[..], vm, k);
      } else {
        UnmappedWithoutTable(vm, k);
      }
      if table == NULL || frames[table][PTX(va)] == 0 {
        assert vm.maps - {k} == vm.maps;
        return;
      }
      ClearPte(table, PTX(va), page, k);
    }

    /** `page_decref(page); *pte = 0;`, in the source's order. */
    method ClearPte(table: nat, ptx: nat, page: nat, ghost k: PteKey)
      requires Valid() && k in vm.maps && ptx == k.ptx < NPTENTRIES
      requires TableOf(k) in vm.tables && vm.tables[TableOf(k)] == table && vm.maps[k].page == page
      modifies this`pageFreeList, this`free, this`vm, pages, frames
      ensures Valid() && vm == Unmap(old(vm), k)
      ensures forall p: nat :: p < frames.Length && p != table ==> frames[p] == old(frames[p])
    {
      hide WellFormed, Backed, Refs, Linked;
      PteAt(frames[..], vm, k);
      UnmapKeeps(vm, k);
      BackedUnmap(frames[..], vm, k);
      CountedPositive(vm, page);
      assert IsMapped(vm, page);
      MappedInPool(vm, k);
      PageDecref(page);
      ghost var fs := frames[..];
      frames[table] := frames[table][ptx := 0];
      assert frames[..] == Store(fs, table, ptx, 0);
      vm := Unmap(vm, k);
    }

    /** `pp->pp_ref++` on a page no table names yet. */
    method CountHeld(pp: nat)
      requires Valid() && Insertable(vm, pp) && Refs(vm, pp) < MAXREF
      modifies this`vm, pages
      ensures Valid() && vm == Hold(old(vm), pp)
      ensures forall q :: Refs(vm, q) == Refs(old(vm), q) + One(q == pp)
    {
      hide WellFormed, Backed, Refs;
      InsertableFacts(vm, pp);
      HoldKeeps(vm, pp);
      BackedData(frames[..], frames[..], vm, Hold(vm, pp));
      ghost var ps := pages[..];
      pages[pp] := pages[pp].(ref := pages[pp].ref + 1);
      LinkedFrame(ps, pages[..], pageFreeList, free);
      vm := Hold(vm, pp);
    }

    /** Fails exactly when a page table is needed and no page is free, and then changes
        nothing. The count is raised before the old mapping goes, so re-inserting a page at
        its own address never frees it. */
    method PageInsert(dir: nat, pp: nat, va: nat, perm: nat) returns (noMem: bool, ghost newTable: nat)
      requires Valid() && dir in vm.roots && va < UTOP && perm < PGSIZE
      requires Insertable(vm, pp)
      requires Refs(vm, pp) < MAXREF
      modifies this`pageFreeList, this`free, this`vm, pages, frames
      ensures Valid()
      ensures noMem <==> PdeKey(dir, PDX(va)) !in old(vm).tables && forall p :: !Free(old(vm), p)
      ensures noMem ==> vm == old(vm) && frames[..] == old(frames[..]) && pages[..] == old(pages[..])
      ensures !noMem ==> vm == Inserted(old(vm), KeyOf(dir, va), Pte(pp, OrPresent(perm)), newTable)
      ensures !noMem && PdeKey(dir, PDX(va)) !in old(vm).tables ==> Free(old(vm), newTable)
      ensures forall p: nat :: p < frames.Length && IsData(old(vm), p) ==> frames[p] == old(frames[p])
    {
      hide WellFormed, Backed, Refs;
      ghost var k := KeyOf(dir, va);
      var table := PgdirWalk(dir, va, true);
      if table == NULL {
        return true, 0;
      }
      newTable := table;
      DataIsOnlyData(old(vm));
      InsertableFacts(old(vm), pp);
      assert forall p :: IsData(old(vm), p) ==> !IsTable(vm, p);
      assert Insertable(vm, pp);
      InsertSteps(old(vm), vm, k, Pte(pp, OrPresent(perm)), table);
      CountHeld(pp);
      PageRemove(dir, va);
      WriteHeld(dir, PTX(va), table, pp, OrPresent(perm), k);
      return false, table;
    }

    /** `*page_table = new_pte;` */
    method WriteHeld(dir: nat, ptx: nat, table: nat, pp: nat, perm: nat, ghost k: PteKey)
      requires Valid() && k !in vm.maps && k.ptx == ptx < NPTENTRIES && pp in vm.held
      requires TableOf(k) in vm.tables && vm.tables[TableOf(k)] == table
      requires perm < PGSIZE && Has(perm, PTE_P)
      modifies this`vm, frames
      ensures Valid() && vm == Install(old(vm), k, Pte(pp, perm))
      ensures table < frames.Length && ptx < |old(frames[table])|
      ensures frames[table] == old(frames[table])[ptx := pp * 4096 + perm]
      ensures forall p: nat :: p < frames.Length && p != table ==> frames[p] == old(frames[p])
    {
      hide WellFormed, Backed, Refs, Linked;
      PteAt(frames[..], vm, k);
      InstallKeeps(vm, k, Pte(pp, perm));
      BackedInstall(frames[..], vm, k, Pte(pp, perm));
      ghost var fs := frames[..];
      frames[table] := frames[table][ptx := Word(pp, perm)];
      assert frames[..] == Store(fs, table, ptx, Word(pp, perm));
      vm := Install(vm, k, Pte(pp, perm));
    }

    /** env_setup_vm: a zeroed page receives a copy of the kernel's directory, is counted as a
        directory, and maps itself at UVPT. */
    method EnvSetupVm() returns (dir: int)
      requires Valid()
      modifies this`pageFreeList, this`free, this`vm, pages, frames
      ensures Valid()
      ensures dir == NULL <==> forall p :: !Free(old(vm), p)
      ensures dir == NULL ==> vm == old(vm)
      ensures dir != NULL ==> dir >= 0 && Free(old(vm), dir) && vm == AddRoot(Take(old(vm), dir), dir)
      ensures dir != NULL ==> frames[dir] == kernPgdir[957 := dir * 4096 + 5]
      ensures forall p: nat :: p < frames.Length && p != dir ==> frames[p] == old(frames[p])
    {
      hide WellFormed, Backed, Refs, IsTable, Word;
      dir := PageAlloc(true);
      if dir == NULL {
        return;
      }
      TakeKeeps(old(vm), dir);
      CountedPositive(vm, dir);
      AddRootKeeps(vm, dir);
      BackedShape(frames[..], vm);
      ghost var fs := frames[..];
      frames[dir] := kernPgdir[PDX(UVPT) := Word(dir, PTE_P + PTE_U)];
      assert PDX(UVPT) == UVPT_PDX;
      SelfPdeWord(dir);
      BackedData(fs, frames[..], vm, vm);
      BackedAddRoot(frames[..], vm, dir);
      ghost var ps := pages[..];
      pages[dir] := pages[dir].(ref := pages[dir].ref + 1);
      LinkedFrame(ps, pages[..], pageFreeList, free);
      vm := AddRoot(vm, dir);
    }

    /** page_decref of a count that no table stands for any more. */
    method DecrefHeld(pp: nat)
      requires Valid() && pp in vm.held
      modifies this`pageFreeList, this`free, this`vm, pages
      ensures Valid() && vm == Release(old(vm), pp)
    {
      hide WellFormed, Backed, Refs, Linked;
      ReleaseKeeps(vm, pp);
      HeldInPool(vm, pp);
      CountedPositive(vm, pp);
      BackedData(frames[..], frames[..], vm, Release(vm, pp));
      PageDecref(pp);
      vm := Release(vm, pp);
    }

    /** `pgdir[pdeno] = 0; page_decref(pa2page(pa));` */
    method FreeTable(dir: nat, pdeno: nat, table: nat)
      requires Valid() && PdeKey(dir, pdeno) in vm.tables && vm.tables[PdeKey(dir, pdeno)] == table
      requires forall t :: PteKey(dir, pdeno, t) !in vm.maps
      modifies this`pageFreeList, this`free, this`vm, pages, frames
      ensures Valid() && vm == Release(DropTable(old(vm), PdeKey(dir, pdeno)), table)
      ensures forall p: nat :: p < frames.Length && p != dir ==> frames[p] == old(frames[p])
    {
      hide WellFormed, Backed, Refs, Linked;
      ghost var k := PdeKey(dir, pdeno);
      TableFacts(vm, k);
      PdeAt(frames[..], vm, k);
      DropTableKeeps(vm, k);
      BackedDropTable(frames[..], vm, k);
      ghost var fs := frames[..];
      frames[dir] := frames[dir][pdeno := 0];
      assert frames[..] == Store(fs, dir, pdeno, 0);
      vm := DropTable(vm, k);
      DecrefHeld(table);
    }

    /** The inner loop of env_free: every present entry of one page table is removed. */
    method FreeTableEntries(dir: nat, pdeno: nat, table: nat, ghost start: Vm)
      requires Valid() && WellFormed(start) && vm == Cleared(start, dir, pdeno, 0)
      requires pdeno < NUSERPDE && PdeKey(dir, pdeno) in start.tables && start.tables[PdeKey(dir, pdeno)] == table
      requires dir in vm.roots
      modifies this`pageFreeList, this`free, this`vm, pages, frames
      ensures Valid() && vm == Cleared(start, dir, pdeno, NPTENTRIES)
      ensures forall p: nat :: p < frames.Length && !IsTable(start, p) ==> frames[p] == old(frames[p])
    {
      hide WellFormed, Backed, Refs, Linked;
      for pteno := 0 to NPTENTRIES
        invariant Valid() && vm == Cleared(start, dir, pdeno, pteno)
        invariant forall p: nat :: p < frames.Length && !IsTable(start, p) ==> frames[p] == old(frames[p])
      {
        ghost var k := PteKey(dir, pdeno, pteno);
        ClearedEntry(start, dir, pdeno, pteno);
        PteAt(frames[..], vm, k);
        if Has(frames[table][pteno], PTE_P) {
          PgaddrInverse(pdeno, pteno, 0);
          UserPdx(PGADDR(pdeno, pteno, 0));
          PageRemove(dir, PGADDR(pdeno, pteno, 0));
        } else {
          assert vm.maps - {k} == vm.maps;
        }
      }
    }

    /** env_free, as far as memory goes. */
    method EnvFree(dir: nat)
      requires Valid() && dir in vm.roots
      modifies this`pageFreeList, this`free, this`vm, pages, frames
      ensures Valid() && vm == Without(old(vm), dir)
      ensures forall p: nat :: p < frames.Length && IsData(old(vm), p) ==> frames[p] == old(frames[p])
    {
      hide WellFormed, Backed, Refs, Linked;
      ghost var start := vm;
      DataIsOnlyData(start);
      ClearedStart(start, dir);
      for pdeno := 0 to NUSERPDE
        invariant Valid() && vm == Cleared(start, dir, pdeno, 0)
        invariant forall p: nat :: p < frames.Length && !IsTable(start, p) && p != dir ==> frames[p] == old(frames[p])
      {
        ghost var k := PdeKey(dir, pdeno);
        PdeAt(frames[..], vm, k);
        if !Has(frames[dir][pdeno], PTE_P) {
          ClearedNoTable(start, dir, pdeno);
          continue;
        }
        ClearedTable(start, dir, pdeno);
        var table := PteAddr(frames[dir][pdeno]);
        FreeTableEntries(dir, pdeno, table, start);
        FreeTable(dir, pdeno, table);
      }
      ClearedAll(start, dir);
      DropRootKeeps(vm, dir);
      RootInPool(vm, dir);
      BackedData(frames[..], frames[..], vm, DropRoot(vm, dir));
      vm := DropRoot(vm, dir);
      DecrefHeld(dir);
    }
  }
}
