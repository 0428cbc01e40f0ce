/** The kernel's check of user pointers (user_mem_check in TP2-sched/kern/pmap.c), and the page-fault
    handler with that check of the exception stack. */
module UserMem {
  import opened Mmu
  import opened Vm
  import opened Pmap
  import opened AddressSpaces
  import opened Cow
  import Upcall
  import Words

  /** `(b & a) == a`: every bit of `a` is set in `b`. */
  function Covers(a: nat, b: nat): bool
    decreases a
  {
    a == 0 || ((a % 2 == 1 ==> b % 2 == 1) && Covers(a / 2, b / 2))
  }

  /** The test of the source, on words. */
  predicate Within(x: bv32, y: bv32) { y & x == x }

  lemma WithinDown(x: bv32, y: bv32)
    requires y & x == x
    ensures x & 1 == 1 ==> y & 1 == 1
    ensures (y >> 1) & (x >> 1) == x >> 1
  {
  }

  lemma WithinUp(x: bv32, y: bv32)
    requires (x & 1 == 1 ==> y & 1 == 1) && (y >> 1) & (x >> 1) == x >> 1
    ensures y & x == x
  {
  }

  lemma WithinStep(x: bv32, y: bv32)
    ensures Within(x, y) <==> (x & 1 == 1 ==> y & 1 == 1) && Within(x >> 1, y >> 1)
  {
    if Within(x, y) {
      WithinDown(x, y);
    } else if (x & 1 == 1 ==> y & 1 == 1) && Within(x >> 1, y >> 1) {
      WithinUp(x, y);
    }
  }

  lemma SmallerHalf(x: bv32)
    ensures x != 0 ==> x >> 1 < x
    ensures Within(0, x)
  {
  }

  lemma HalfWord(x: bv32)
    ensures Words.Num(x) / 2 == Words.Num(x >> 1)
    ensures Words.Num(x) % 2 == 1 <==> x & 1 == 1
    ensures Words.Num(x) == 0 <==> x == 0
  {
    Words.Half(x);
    Words.NumIsZero(x);
    hide Words.Num;
  }

  lemma CoversStep(a: nat, b: nat)
    ensures a != 0 ==> (Covers(a, b) <==> (a % 2 == 1 ==> b % 2 == 1) && Covers(a / 2, b / 2))
    ensures a == 0 ==> Covers(a, b)
  {
  }

  /** On the numbers of words it is the test the source makes. */
  lemma {:induction false} CoversBits(x: bv32, y: bv32)
    ensures Covers(Words.Num(x), Words.Num(y)) <==> Within(x, y)
    decreases x
  {
    hide Words.Num, Within, Covers;
    HalfWord(x);
    HalfWord(y);
    CoversStep(Words.Num(x), Words.Num(y));
    if x == 0 {
      SmallerHalf(y);
    } else {
      SmallerHalf(x);
      WithinStep(x, y);
      CoversBits(x >> 1, y >> 1);
    }
  }

  /** ROUNDUP of the end of the range to a page, in 32-bit arithmetic. */
  function RangeEnd(va: nat, len: nat): (hi: nat)
    ensures hi < WORD && hi % PGSIZE == 0
  {
    var last := ((va + len) % WORD + PGSIZE - 1) % WORD;
    last - last % PGSIZE
  }

  /** The page at `va` is mapped with all of these permissions. */
  ghost predicate Allows(vm: Vm, dir: nat, va: nat, perm: nat)
  {
    KeyOf(dir, va) in vm.maps && Covers(OrPresent(perm), vm.maps[KeyOf(dir, va)].perm)
  }

  /** All whole pages from `lo` up to `hi` do. */
  ghost predicate AllAllow(vm: Vm, dir: nat, lo: nat, hi: nat, perm: nat)
  {
    forall pn: nat :: lo <= pn * PGSIZE < hi ==> Allows(vm, dir, pn * PGSIZE, perm)
  }

  lemma CoversPresent(perm: nat)
    ensures !Covers(OrPresent(perm), 0)
  {
  }

  /** The first page that does not, or the address itself on the page where the range begins. */
  ghost predicate FirstBad(vm: Vm, dir: nat, va: nat, hi: nat, perm: nat, bad: nat)
  {
    && va <= bad < hi && !Allows(vm, dir, bad - bad % PGSIZE, perm)
    && (bad == va || bad % PGSIZE == 0)
    && AllAllow(vm, dir, va - va % PGSIZE, bad - bad % PGSIZE, perm)
  }

  /** One page: its entry is there and has all the bits. */
  method CheckPage(k: Kernel, dir: nat, act: nat, perm: nat) returns (ok: bool)
    requires k.Valid() && dir in k.vm.roots && act < UTOP
    modifies k`pageFreeList, k`free, k`vm, k.pages, k.frames
    ensures k.Valid() && k.vm == old(k.vm)
    ensures k.frames[..] == old(k.frames[..]) && k.pages[..] == old(k.pages[..])
    ensures ok <==> Allows(k.vm, dir, act, perm)
  {
    hide WellFormed, Backed, Refs, Linked, Covers;
    var table := k.PgdirWalk(dir, act, false);
    if table == NULL {
      NoTable(k.vm, KeyOf(dir, act));
      return false;
    }
    PteAt(k.frames[..], k.vm, KeyOf(dir, act));
    CoversPresent(perm);
    return Covers(OrPresent(perm), PteFlags(k.frames[table][PTX(act)]));
  }

  method UserMemCheck(k: Kernel, dir: nat, va: nat, len: nat, perm: nat) returns (ok: bool, bad: nat)
    requires k.Valid() && dir in k.vm.roots && va < WORD
    modifies k`pageFreeList, k`free, k`vm, k.pages, k.frames
    ensures k.Valid() && k.vm == old(k.vm)
    ensures k.frames[..] == old(k.frames[..]) && k.pages[..] == old(k.pages[..])
    ensures ok <==> RangeEnd(va, len) <= UTOP && AllAllow(k.vm, dir, va - va % PGSIZE, RangeEnd(va, len), perm)
    ensures !ok ==>
      if RangeEnd(va, len) > UTOP then bad == va else FirstBad(k.vm, dir, va, RangeEnd(va, len), perm, bad)
  {
    hide WellFormed, Backed, Refs, Linked, Allows;
    var lo, hi := va - va % PGSIZE, RangeEnd(va, len);
    bad := va;
    if hi > UTOP {
      return false, va;
    }
    var act := lo;
    while act < hi
      invariant lo <= act && act % PGSIZE == 0
      invariant k.Valid() && k.vm == old(k.vm)
      invariant k.frames[..] == old(k.frames[..]) && k.pages[..] == old(k.pages[..])
      invariant AllAllow(k.vm, dir, lo, act, perm)
      decreases hi - act
    {
      ok := CheckPage(k, dir, act, perm);
      PageOf(act);
      if !ok {
        return false, if act > va then act else va;
      }
      act := act + PGSIZE;
    }
    return true, bad;
  }

  lemma NoTable(vm: Vm, k: PteKey)
    requires WellFormed(vm) && TableOf(k) !in vm.tables
    ensures k !in vm.maps
  {
  }

  lemma PageOf(act: nat)
    requires act % PGSIZE == 0
    ensures act / PGSIZE * PGSIZE == act
    ensures forall pn: nat :: pn * PGSIZE < act + PGSIZE ==> pn * PGSIZE <= act
  {
  }

  // ---- what the check promises ----

  /** What user_mem_check finds. */
  ghost predicate Passes(vm: Vm, dir: nat, va: nat, len: nat, perm: nat)
  {
    RangeEnd(va, len) <= UTOP && AllAllow(vm, dir, va - va % PGSIZE, RangeEnd(va, len), perm)
  }

  ghost predicate MayAccess(vm: Vm, dir: nat, a: nat, perm: nat)
  {
    a < UTOP && Allows(vm, dir, a, perm)
  }

  /** It passes exactly when the program may access every address of the range. */
  ghost predicate Right(vm: Vm, dir: nat, va: nat, len: nat, perm: nat)
  {
    Passes(vm, dir, va, len, perm) <==> forall a: nat :: va <= a < va + len ==> MayAccess(vm, dir, a, perm)
  }

  lemma SamePageAllows(vm: Vm, dir: nat, a: nat, b: nat, perm: nat)
    requires a < WORD && b < WORD && a / PGSIZE == b / PGSIZE
    ensures Allows(vm, dir, a, perm) <==> Allows(vm, dir, b, perm)
  {
    SameEntrySamePage(dir, a, b);
  }

  lemma RangeEndIs(va: nat, len: nat)
    requires 0 < len && va + len <= WORD - PGSIZE
    ensures va + len <= RangeEnd(va, len) < va + len + PGSIZE
  {
  }

  lemma StraightIsRight(vm: Vm, dir: nat, va: nat, len: nat, perm: nat)
    requires 0 < len && va + len <= WORD - PGSIZE
    ensures Right(vm, dir, va, len, perm)
  {
    hide Allows, RangeEnd;
    RangeEndIs(va, len);
    var lo, hi := va - va % PGSIZE, RangeEnd(va, len);
    if Passes(vm, dir, va, len, perm) {
      forall a: nat | va <= a < va + len ensures MayAccess(vm, dir, a, perm) {
        var pn := a / PGSIZE;
        assert lo <= pn * PGSIZE < hi;
        SamePageAllows(vm, dir, pn * PGSIZE, a, perm);
      }
    }
    if forall a: nat :: va <= a < va + len ==> MayAccess(vm, dir, a, perm) {
      assert MayAccess(vm, dir, va + len - 1, perm);
      forall pn: nat | lo <= pn * PGSIZE < hi ensures Allows(vm, dir, pn * PGSIZE, perm) {
        var a := if pn * PGSIZE < va then va else pn * PGSIZE;
        assert va <= a < va + len && MayAccess(vm, dir, a, perm);
        SamePageAllows(vm, dir, pn * PGSIZE, a, perm);
      }
    }
  }

  lemma CoversItself(a: nat)
    ensures Covers(a, a)
  {
  }

  lemma Below(x: nat, y: nat)
    requires y <= x
    ensures y - y % PGSIZE <= x - x % PGSIZE
  {
    assert y / PGSIZE <= x / PGSIZE;
    assert y - y % PGSIZE == PGSIZE * (y / PGSIZE) && x - x % PGSIZE == PGSIZE * (x / PGSIZE);
  }

  lemma WrappedEnd(va: nat, len: nat)
    requires va < WORD && 0 < len < WORD && va + len > WORD - PGSIZE && RangeEnd(va, len) <= UTOP
    ensures RangeEnd(va, len) <= va - va % PGSIZE + PGSIZE
  {
    var sum := if va + len < WORD then va + len else va + len - WORD;
    assert (va + len) % WORD == sum;
    var up := sum + PGSIZE - 1;
    if up >= WORD {
      assert up % WORD == up - WORD < PGSIZE;
    } else if va + len >= WORD {
      assert up % WORD == up && up < va + PGSIZE;
      Below(va + PGSIZE, up);
      assert (va + PGSIZE) % PGSIZE == va % PGSIZE;
    }
  }

  lemma OneFits(q: nat, pn: nat)
    requires q * PGSIZE <= pn * PGSIZE < q * PGSIZE + PGSIZE
    ensures pn == q
  {
  }

  /** When the sum wraps round, the range has addresses that nobody may access; what the loop
      visits is at most the page where the range begins. */
  lemma WrappedIsWrong(dir: nat, va: nat, len: nat, perm: nat) returns (vm: Vm)
    requires va < WORD && 0 < len < WORD && va + len > WORD - PGSIZE && RangeEnd(va, len) <= UTOP
    ensures !Right(vm, dir, va, len, perm)
  {
    hide RangeEnd, Covers, OrPresent;
    var lo := va - va % PGSIZE;
    assert lo == va / PGSIZE * PGSIZE;
    vm := OnePage(KeyOf(dir, lo), OrPresent(perm));
    CoversItself(OrPresent(perm));
    assert Allows(vm, dir, lo, perm);
    WrappedEnd(va, len);
    hide Allows;
    forall pn: nat | lo <= pn * PGSIZE < RangeEnd(va, len) ensures Allows(vm, dir, pn * PGSIZE, perm) {
      OneFits(va / PGSIZE, pn);
    }
    var last := if va + len > WORD then WORD - 1 else va + len - 1;
    assert va <= last < va + len && !MayAccess(vm, dir, last, perm);
  }

  /** A state that maps one page. */
  ghost function OnePage(k: PteKey, perm: nat): (vm: Vm)
    ensures k in vm.maps && vm.maps[k].perm == perm
  {
    Vm({}, {}, map[], map[k := Pte(0, perm)], {}, {})
  }

  /** The end of the range is computed in 32 bits. So the check answers right in every state of
      the page tables if and only if the range ends a page below 2^32, or its rounded end lies
      above UTOP all the same. */
  lemma RightIff(dir: nat, va: nat, len: nat, perm: nat)
    requires va < WORD && 0 < len < WORD
    ensures (forall vm: Vm :: Right(vm, dir, va, len, perm)) <==> va + len <= WORD - PGSIZE || RangeEnd(va, len) > UTOP
  {
    if va + len <= WORD - PGSIZE {
      forall vm: Vm ensures Right(vm, dir, va, len, perm) {
        StraightIsRight(vm, dir, va, len, perm);
      }
    } else if RangeEnd(va, len) > UTOP {
      forall vm: Vm ensures Right(vm, dir, va, len, perm) {
        var last := if va + len > WORD then WORD - 1 else va + len - 1;
        assert va <= last < va + len && !MayAccess(vm, dir, last, perm);
      }
    } else {
      var vm := WrappedIsWrong(dir, va, len, perm);
    }
  }

  // ---- the page-fault handler ----

  /** The environment has an exception stack it can write to. */
  ghost predicate HasXstack(vm: Vm, dir: nat)
  {
    && XstackKey(dir) in vm.maps
    && Has(vm.maps[XstackKey(dir)].perm, PTE_P) && Has(vm.maps[XstackKey(dir)].perm, PTE_W)
    && Has(vm.maps[XstackKey(dir)].perm, PTE_U)
  }

  lemma CoversSeven(b: nat)
    ensures Covers(7, b) <==> Has(b, PTE_P) && Has(b, PTE_W) && Has(b, PTE_U)
  {
    assert b / 4 == b / 2 / 2;
    assert Covers(7, b) <==> b % 2 == 1 && Covers(3, b / 2);
    assert Covers(3, b / 2) <==> b / 2 % 2 == 1 && Covers(1, b / 2 / 2);
  }

  lemma XstackRange(vm: Vm, dir: nat)
    ensures Passes(vm, dir, UXSTACKTOP - PGSIZE, PGSIZE, PTE_U + PTE_W) <==> HasXstack(vm, dir)
  {
    var va := UXSTACKTOP - PGSIZE;
    assert OrPresent(PTE_U + PTE_W) == 7 && RangeEnd(va, PGSIZE) == UTOP && va % PGSIZE == 0;
    assert Allows(vm, dir, va, PTE_U + PTE_W) <==> HasXstack(vm, dir) by {
      if KeyOf(dir, va) in vm.maps {
        CoversSeven(vm.maps[KeyOf(dir, va)].perm);
      }
      hide Covers;
    }
    hide Allows, HasXstack;
    assert va == (UTOP / PGSIZE - 1) * PGSIZE;
    forall pn: nat | va <= pn * PGSIZE < UTOP ensures pn * PGSIZE == va {
    }
  }

  /** page_fault_handler for a fault in user mode, in directory `dir`: the environment goes on in
      its upcall exactly when it has registered one, its exception stack is mapped for it to
      write, and the frame fits. */
  method HandleFault(k: Kernel, cpu: Upcall.Cpu, dir: nat, faultVa: Upcall.Word32, err: Upcall.Word32,
                     oesp: Upcall.Word32, upcall: nat)
    returns (out: Upcall.Outcome)
    requires k.Valid() && dir in k.vm.roots && |cpu.mem| == WORD && Upcall.CtxOk(cpu.State())
    modifies k`pageFreeList, k`free, k`vm, k.pages, k.frames, cpu
    ensures k.Valid() && k.vm == old(k.vm) && k.frames[..] == old(k.frames[..])
    ensures out == if upcall == 0 || !HasXstack(k.vm, dir) then Upcall.Destroyed
                   else if UXSTACKTOP - PGSIZE <= old(cpu.esp) < UXSTACKTOP - PGSIZE + 56 then Upcall.Panicked
                   else Upcall.Resumed
    ensures out == Upcall.Resumed ==>
      && |cpu.mem| == WORD && cpu.eip == upcall && cpu.esp + 52 <= WORD
      && cpu.esp == (if UXSTACKTOP - PGSIZE <= old(cpu.esp) < UXSTACKTOP then old(cpu.esp) - 56 else UXSTACKTOP - 53)
      && Upcall.Read32(cpu.mem, cpu.esp) == faultVa && Upcall.Read32(cpu.mem, cpu.esp + 4) == err
      && Upcall.Read32(cpu.mem, cpu.esp + 8) == old(cpu.edi) && Upcall.Read32(cpu.mem, cpu.esp + 12) == old(cpu.esi)
      && Upcall.Read32(cpu.mem, cpu.esp + 16) == old(cpu.ebp) && Upcall.Read32(cpu.mem, cpu.esp + 20) == oesp
      && Upcall.Read32(cpu.mem, cpu.esp + 24) == old(cpu.ebx) && Upcall.Read32(cpu.mem, cpu.esp + 28) == old(cpu.edx)
      && Upcall.Read32(cpu.mem, cpu.esp + 32) == old(cpu.ecx) && Upcall.Read32(cpu.mem, cpu.esp + 36) == old(cpu.eax)
      && Upcall.Read32(cpu.mem, cpu.esp + 40) == old(cpu.eip) && Upcall.Read32(cpu.mem, cpu.esp + 44) == old(cpu.eflags)
      && Upcall.Read32(cpu.mem, cpu.esp + 48) == old(cpu.esp)
    ensures out == Upcall.Resumed ==>
      && cpu.mem == Upcall.Push(old(cpu.mem), old(cpu.State()), faultVa, err, oesp)
      && cpu.State() == old(cpu.State()).(esp := Upcall.FrameAt(old(cpu.State())), eip := upcall)
  {
    hide WellFormed, Backed, Refs, Linked, AllAllow, HasXstack;
    var mapped := false;
    if upcall != 0 {
      var bad;
      mapped, bad := UserMemCheck(k, dir, UXSTACKTOP - PGSIZE, PGSIZE, PTE_U + PTE_W);
      XstackRange(k.vm, dir);
    }
    out := cpu.PageFaultHandler(faultVa, err, oesp, upcall, mapped);
  }
}
