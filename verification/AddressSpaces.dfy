/** What the abstract memory state guarantees: the tables in memory translate addresses as a
    finite map, every operation changes exactly the addresses and counts it names, and no page
    is lost or shared by accident. */
module AddressSpaces {
  import opened Common
  import opened Mmu
  import opened Vm
  import opened Pmap

  /** The finite map an address space stands for. */
  ghost function Translate(vm: Vm, dir: nat, va: nat): Option<Pte>
  {
    if KeyOf(dir, va) in vm.maps then Some(vm.maps[KeyOf(dir, va)]) else None
  }

  /** The MMU's own walk over physical frames (32-bit paging, 4-KByte pages): an entry is used
      only if its P bit is set. */
  function HardwareWalk(fs: seq<seq<nat>>, cr3: nat, va: nat): Option<Pte>
    requires forall p :: 0 <= p < |fs| ==> |fs[p]| == NPTENTRIES
    requires cr3 < |fs|
  {
    var pde := fs[cr3][PDX(va)];
    if !Has(pde, PTE_P) || PteAddr(pde) >= |fs| then None
    else
      var pte := fs[PteAddr(pde)][PTX(va)];
      if !Has(pte, PTE_P) then None else Some(Pte(PteAddr(pte), PteFlags(pte)))
  }

  /** The two-level tables refine the finite map. */
  lemma {:induction false} WalkIsTranslate(fs: seq<seq<nat>>, vm: Vm, dir: nat, va: nat)
    requires WellFormed(vm) && Backed(fs, vm) && dir in vm.roots && va < UTOP
    ensures HardwareWalk(fs, dir, va) == Translate(vm, dir, va)
  {
    UserPdx(va);
    var k := KeyOf(dir, va);
    PdeAt(fs, vm, TableOf(k));
    if TableOf(k) in vm.tables {
      PteAt(fs, vm, k);
    } else {
      UnmappedWithoutTable(vm, k);
    }
  }

  // ---- the page tables as memory: uvpt and uvpd ----

  const UVPD: nat := UVPT + UVPT / 4096 * 4

  /** The word a program reads at an aligned address. */
  function Load(fs: seq<seq<nat>>, cr3: nat, la: nat): Option<nat>
    requires forall p :: 0 <= p < |fs| ==> |fs[p]| == NPTENTRIES
    requires cr3 < |fs|
  {
    var e := HardwareWalk(fs, cr3, la);
    if e.None? || e.value.page >= |fs| then None else Some(fs[e.value.page][PGOFF(la) / 4])
  }

  lemma UvptFields(pn: nat)
    requires pn < 0x10_0000
    ensures PDX(UVPT + 4 * pn) == UVPT_PDX && PTX(UVPT + 4 * pn) == pn / 1024
    ensures PGOFF(UVPT + 4 * pn) / 4 == pn % 1024
  {
    var d, i := pn / 1024, pn % 1024;
    assert UVPT + 4 * pn == 957 * 0x40_0000 + d * 4096 + 4 * i;
    assert (UVPT + 4 * pn) / 4096 == 957 * 1024 + d;
    assert (UVPT + 4 * pn) / 0x40_0000 == 957;
  }

  lemma SelfWalk(fs: seq<seq<nat>>, vm: Vm, dir: nat)
    requires Backed(fs, vm) && dir in vm.roots
    ensures dir < |fs| && |fs[dir]| == NPTENTRIES
    ensures Has(fs[dir][UVPT_PDX], PTE_P) && PteAddr(fs[dir][UVPT_PDX]) == dir
  {
    WordParts(dir, PTE_P + PTE_U);
  }

  /** uvpd[d]: going through the directory twice ends at the directory itself. */
  lemma UvpdReads(fs: seq<seq<nat>>, vm: Vm, dir: nat, d: nat)
    requires Backed(fs, vm) && dir in vm.roots && d < 1024
    ensures dir < |fs| && |fs[dir]| == NPTENTRIES && Load(fs, dir, UVPD + 4 * d) == Some(fs[dir][d])
  {
    hide Has, PteAddr;
    SelfWalk(fs, vm, dir);
    var pn := UVPT_PDX * 1024 + d;
    assert UVPD + 4 * d == UVPT + 4 * pn;
    UvptFields(pn);
  }

  /** uvpt[pn]: going through the directory once as a page table ends at the page table of page
      number pn, at the entry of that page. */
  lemma UvptReads(fs: seq<seq<nat>>, vm: Vm, k: PteKey)
    requires WellFormed(vm) && Backed(fs, vm) && TableOf(k) in vm.tables && k.ptx < NPTENTRIES
    ensures k.dir < |fs| && vm.tables[TableOf(k)] < |fs| && |fs[vm.tables[TableOf(k)]]| == NPTENTRIES
    ensures Load(fs, k.dir, UVPT + 4 * (k.pdx * 1024 + k.ptx)) == Some(fs[vm.tables[TableOf(k)]][k.ptx])
  {
    hide Has, PteAddr;
    TableFacts(vm, TableOf(k));
    SelfWalk(fs, vm, k.dir);
    PdeAt(fs, vm, TableOf(k));
    var pn := k.pdx * 1024 + k.ptx;
    UvptFields(pn);
    assert pn / 1024 == k.pdx && pn % 1024 == k.ptx;
  }

  lemma PageNumber(va: nat)
    requires va < WORD
    ensures va / PGSIZE == PDX(va) * 1024 + PTX(va)
  {
    assert va / PGSIZE < 0x10_0000;
    assert va / PGSIZE / 1024 == va / 0x40_0000;
  }

  /** Two user addresses share a table entry exactly when they are on the same page. */
  lemma SameEntrySamePage(dir: nat, va: nat, vb: nat)
    requires va < WORD && vb < WORD
    ensures KeyOf(dir, va) == KeyOf(dir, vb) <==> va / PGSIZE == vb / PGSIZE
  {
    PageNumber(va);
    PageNumber(vb);
    hide PDX, PTX;
  }

  /** page_insert changes the translation of the addresses on the named page of the named
      directory, and of nothing else; page_remove likewise. */
  lemma InsertTranslates(vm: Vm, dir: nat, va: nat, e: Pte, t: nat, dir': nat, vb: nat)
    requires va < UTOP && vb < UTOP
    ensures Translate(Inserted(vm, KeyOf(dir, va), e, t), dir', vb)
         == if dir' == dir && vb / PGSIZE == va / PGSIZE then Some(e) else Translate(vm, dir', vb)
    ensures Translate(Unmap(vm, KeyOf(dir, va)), dir', vb)
         == if dir' == dir && vb / PGSIZE == va / PGSIZE then None else Translate(vm, dir', vb)
  {
    SameEntrySamePage(dir, va, vb);
  }

  /** Counting for page_insert as a whole: the inserted page gains a reference, the page it
      displaces loses one, a new page table has one. */
  lemma InsertCounts(vm: Vm, k: PteKey, e: Pte, t: nat, q: nat)
    requires WellFormed(vm) && Insertable(vm, e.page)
    requires TableOf(k) in vm.tables || Free(vm, t)
    ensures var lost := One(k in vm.maps && vm.maps[k].page == q);
      Refs(Inserted(vm, k, e, t), q) + lost
        == Refs(vm, q) + One(q == e.page) + One(TableOf(k) !in vm.tables && q == t)
  {
    InsertableFacts(vm, e.page);
    var w := vm;
    if TableOf(k) !in vm.tables {
      TakeKeeps(vm, t);
      w := Take(vm, t);
      RefsTable(w, TableOf(k), t, q);
      RefsSets(w.(tables := w.tables[TableOf(k) := t]), AddTable(w, TableOf(k), t), q);
      w := AddTable(w, TableOf(k), t);
    }
    assert Refs(w, q) == Refs(vm, q) + One(TableOf(k) !in vm.tables && q == t);
    var held := Hold(w, e.page);
    RefsSets(w, held, q);
    if k in held.maps {
      RefsUnmap(held, k, q);
    } else {
      assert held.maps - {k} == held.maps;
    }
    var gone := Unmap(held, k);
    RefsMap(gone, k, e, q);
    RefsSets(gone.(maps := gone.maps[k := e]), Install(gone, k, e), q);
    InsertSteps(vm, w, k, e, t);
  }

  /** The corner case of page_insert: putting a page back at its own address, with any
      permissions, moves no count and frees nothing. */
  lemma ReinsertNeverFrees(vm: Vm, k: PteKey, perm: nat, t: nat, q: nat)
    requires WellFormed(vm) && k in vm.maps && vm.maps[k].page !in vm.held
    ensures Refs(Inserted(vm, k, Pte(vm.maps[k].page, perm), t), q) == Refs(vm, q)
    ensures Free(Inserted(vm, k, Pte(vm.maps[k].page, perm), t), q) <==> Free(vm, q)
  {
    assert IsMapped(vm, vm.maps[k].page);
    InsertCounts(vm, k, Pte(vm.maps[k].page, perm), t, q);
  }

  // ---- no page is lost, none serves two purposes ----

  /** Every allocatable page is free, a directory, a page table, or data: exactly one. */
  lemma OnePurpose(vm: Vm, p: nat)
    requires WellFormed(vm) && p in vm.pool
    ensures One(Free(vm, p)) + One(p in vm.roots) + One(IsTable(vm, p)) + One(IsData(vm, p)) == 1
  {
    CountedPositive(vm, p);
    DataIsOnlyData(vm);
  }

  /** A page table and a directory are always named exactly once. */
  lemma TablesAreUnshared(vm: Vm, p: nat)
    requires WellFormed(vm) && (IsTable(vm, p) || p in vm.roots)
    ensures Refs(vm, p) == 1
  {
    if IsTable(vm, p) {
      var k :| k in vm.tables && vm.tables[k] == p;
      assert Pdes(vm, p) == {k};
    } else {
      assert Pdes(vm, p) == {};
    }
    assert Ptes(vm, p) == {};
  }

  // ---- env_free ----

  ghost function OwnTables(vm: Vm, dir: nat, p: nat): set<PdeKey>
  {
    set k | k in vm.tables && k.dir == dir && vm.tables[k] == p
  }

  ghost function OwnMaps(vm: Vm, dir: nat, p: nat): set<PteKey>
  {
    set k | k in vm.maps && k.dir == dir && vm.maps[k].page == p
  }

  /** How many of the references to `p` belong to directory `dir`. */
  ghost function Owned(vm: Vm, dir: nat, p: nat): nat
  {
    One(p == dir) + |OwnTables(vm, dir, p)| + |OwnMaps(vm, dir, p)|
  }

  lemma WithoutKeeps(vm: Vm, dir: nat)
    requires WellFormed(vm)
    ensures WellFormed(Without(vm, dir))
  {
  }

  lemma WithoutPdes(vm: Vm, dir: nat, p: nat)
    ensures |Pdes(vm, p)| == |Pdes(Without(vm, dir), p)| + |OwnTables(vm, dir, p)|
  {
    assert Pdes(vm, p) == Pdes(Without(vm, dir), p) + OwnTables(vm, dir, p);
    assert Pdes(Without(vm, dir), p) !! OwnTables(vm, dir, p);
  }

  lemma WithoutPtes(vm: Vm, dir: nat, p: nat)
    ensures |Ptes(vm, p)| == |Ptes(Without(vm, dir), p)| + |OwnMaps(vm, dir, p)|
  {
    assert Ptes(vm, p) == Ptes(Without(vm, dir), p) + OwnMaps(vm, dir, p);
    assert Ptes(Without(vm, dir), p) !! OwnMaps(vm, dir, p);
  }

  lemma WithoutCounts(vm: Vm, dir: nat, p: nat)
    requires dir in vm.roots
    ensures Refs(Without(vm, dir), p) + Owned(vm, dir, p) == Refs(vm, p)
  {
    WithoutPdes(vm, dir, p);
    WithoutPtes(vm, dir, p);
  }

  lemma HandUncounted(vm: Vm, p: nat)
    requires WellFormed(vm) && p in vm.hand
    ensures Refs(vm, p) == 0
  {
    CountedPositive(vm, p);
  }

  /** Freeing an environment gives back exactly what it owned: each page loses the references
      the environment held and no others, the pages that join the free list are exactly those
      it alone referenced, and every other address space translates as before. */
  lemma EnvFreeGivesBack(vm: Vm, dir: nat, p: nat)
    requires WellFormed(vm) && dir in vm.roots
    ensures WellFormed(Without(vm, dir))
    ensures Refs(Without(vm, dir), p) + Owned(vm, dir, p) == Refs(vm, p)
    ensures Free(Without(vm, dir), p) <==>
      Free(vm, p) || (p in vm.pool && Owned(vm, dir, p) > 0 && Refs(vm, p) == Owned(vm, dir, p))
    ensures forall dir', va: nat :: dir' != dir ==> Translate(Without(vm, dir), dir', va) == Translate(vm, dir', va)
    ensures forall va: nat :: Translate(Without(vm, dir), dir, va) == None
  {
    hide WellFormed, Refs, Owned;
    WithoutKeeps(vm, dir);
    WithoutCounts(vm, dir, p);
    if p in vm.hand {
      HandUncounted(vm, p);
    }
  }
}
