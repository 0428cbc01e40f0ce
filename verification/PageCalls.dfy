/** The page system calls as a program makes them (TP2-sched/kern/syscall.c): the addresses are
    checked first, then the environments are looked up by id, then the memory operation runs on
    their directories. */
module PageCalls {
  import opened Common
  import opened Mmu
  import opened Vm
  import opened Pmap
  import Fork
  import opened EnvMemory
  import EnvIds

  const E_BAD_ENV: int := 2
  const E_NO_FREE_ENV: int := 5

  /** The slot that `envid` names for the caller, who may touch itself and its children. */
  function Named(envs: seq<EnvIds.Env>, envid: int, curenv: nat): int
    requires |envs| == EnvIds.NENV && curenv < |envs|
  {
    EnvIds.Lookup(envs, envid, curenv, true)
  }

  /** Zero is the caller; another id is a live slot that carries it and is the caller's own or has the
      caller's id as its parent. */
  ghost predicate NameIs(envs: seq<EnvIds.Env>, envid: int, curenv: nat, e: int)
    requires curenv < |envs|
  {
    if envid == 0 then e == curenv
    else if exists i: nat :: i < |envs| && Touchable(envs, envid, curenv, i)
    then 0 <= e < |envs| && Touchable(envs, envid, curenv, e) else e == EnvIds.NULL
  }

  ghost predicate Touchable(envs: seq<EnvIds.Env>, envid: int, curenv: nat, i: nat)
    requires curenv < |envs| && i < |envs|
  {
    envs[i].status != FREE && envs[i].id == envid && (i == curenv || envs[i].parent == envs[curenv].id)
  }

  /** What the lookup that all the calls below go through finds. */
  lemma NamedIs(envs: seq<EnvIds.Env>, allocs: seq<nat>, envid: int, curenv: nat)
    requires EnvIds.Issued(envs, allocs) && curenv < |envs|
    ensures NameIs(envs, envid, curenv, Named(envs, envid, curenv))
  {
    EnvIds.LiveIds(envs, allocs);
    forall i: nat | i < |envs| && Touchable(envs, envid, curenv, i) ensures EnvIds.ENVX(envid) == i {
      assert EnvIds.Live(envs, i);
    }
    var e := Named(envs, envid, curenv);
    assert envid != 0 && e != EnvIds.NULL ==> 0 <= e < |envs| && Touchable(envs, envid, curenv, e);
  }

  /** A new child, in slot `e` with its creator's id as its parent, is named by its id exactly for
      itself and its creator: nobody else in the table can touch it. */
  lemma ChildBelongs(envs: seq<EnvIds.Env>, allocs: seq<nat>, creator: nat, e: nat, x: nat)
    requires EnvIds.Issued(envs, allocs) && creator < |envs| && e < |envs| && x < |envs|
    requires envs[creator].status != FREE && envs[e].status != FREE && envs[x].status != FREE
    requires envs[e].parent == envs[creator].id
    ensures Named(envs, envs[e].id, x) == (if x == e || x == creator then e else EnvIds.NULL)
  {
    EnvIds.LiveIds(envs, allocs);
    assert EnvIds.Live(envs, creator) && EnvIds.Live(envs, e) && EnvIds.Live(envs, x);
  }

  /** sys_exofork, as far as the table and the memory go. */
  method SysExofork(s: Envs, curenv: nat) returns (r: int, ghost e: int)
    requires s.Valid() && EnvIds.Live(s.table.envs[..], curenv)
    modifies s.table, s.table.envs, s.pgdirs
    modifies s.kernel`pageFreeList, s.kernel`free, s.kernel`vm, s.kernel.pages, s.kernel.frames
    ensures s.Valid()
    ensures r > 0 || r == -E_NO_FREE_ENV || r == -Fork.E_NO_MEM
    ensures r == -E_NO_FREE_ENV <==> |Slots(old(s.table.envs[..]))| == EnvIds.NENV
    ensures r == -Fork.E_NO_MEM <==>
      |Slots(old(s.table.envs[..]))| != EnvIds.NENV && forall p :: !Free(old(s.kernel.vm), p)
    ensures r <= 0 ==> s.kernel.vm == old(s.kernel.vm) && s.table.envs[..] == old(s.table.envs[..])
    ensures r > 0 ==>
      && 0 <= e < |s.table.envs[..]| && e as nat !in Slots(old(s.table.envs[..]))
      && Slots(s.table.envs[..]) == Slots(old(s.table.envs[..])) + {e as nat}
      && s.table.envs[e].id == r && s.table.envs[e].status == NOT_RUNNABLE
      && s.table.envs[e].parent == old(s.table.envs[..])[curenv].id
      && (forall i :: 0 <= i < |s.table.envs[..]| && i != e ==> s.table.envs[..][i] == old(s.table.envs[..])[i])
      && s.pgdirs[e] >= 0 && Free(old(s.kernel.vm), s.pgdirs[e])
      && s.kernel.vm == AddRoot(Take(old(s.kernel.vm), s.pgdirs[e]), s.pgdirs[e])
      && forall x: nat :: x < |s.table.envs[..]| && EnvIds.Live(s.table.envs[..], x) ==>
           Named(s.table.envs[..], r, x) == if x == e || x == curenv then e else EnvIds.NULL
  {
    hide Owned, Slots, EnvIds.Issued, EnvIds.Linked, EnvIds.ListsFree, WellFormed, Backed, Linked, Refs, Free, Named;
    ghost var before := s.table.envs[..];
    var slot, err := s.Create(s.table.envs[curenv].id);
    e := slot;
    if err == EnvIds.NO_FREE_ENV {
      return -E_NO_FREE_ENV, e;
    }
    if err == EnvIds.NO_MEM {
      return -Fork.E_NO_MEM, e;
    }
    ghost var made := s.table.envs[..];
    assert made[curenv] == before[curenv] by {
      StillSlot(before, made, curenv, e);
    }
    s.table.envs[slot] := s.table.envs[slot].(status := NOT_RUNNABLE);
    StillInUse(made, s.table.envs[..], slot);
    StillThere(made, s.table.envs[..], s.table.allocs, s.table.freeList, s.table.list, slot);
    StillOwned(made, s.table.envs[..], s.pgdirs[..], s.kernel.vm.roots, slot);
    r := s.table.envs[slot].id;
    PositiveId(s.table.envs[..], s.table.allocs, slot);
    forall x: nat | x < |s.table.envs[..]| && EnvIds.Live(s.table.envs[..], x)
      ensures Named(s.table.envs[..], r, x) == if x == e || x == curenv then e else EnvIds.NULL
    {
      ChildBelongs(s.table.envs[..], s.table.allocs, curenv, slot, x);
    }
  }

  lemma StillSlot(was: seq<EnvIds.Env>, envs: seq<EnvIds.Env>, i: nat, e: int)
    requires i < |was| == |envs| && EnvIds.Live(was, i) && e >= 0 && e as nat !in Slots(was)
    requires forall j :: 0 <= j < |was| && j != e ==> envs[j] == was[j]
    ensures envs[i] == was[i] && i != e
  {
  }

  lemma PositiveId(envs: seq<EnvIds.Env>, allocs: seq<nat>, e: nat)
    requires EnvIds.Issued(envs, allocs) && EnvIds.Live(envs, e)
    ensures envs[e].id > 0
  {
    EnvIds.LiveIds(envs, allocs);
  }

  lemma StillInUse(was: seq<EnvIds.Env>, envs: seq<EnvIds.Env>, e: nat)
    requires e < |was| && EnvIds.Live(was, e) && envs == was[e := was[e].(status := NOT_RUNNABLE)]
    ensures Slots(envs) == Slots(was)
  {
  }

  lemma StillThere(was: seq<EnvIds.Env>, envs: seq<EnvIds.Env>, allocs: seq<nat>, head: int, list: seq<nat>, e: nat)
    requires e < |was| && EnvIds.Live(was, e) && envs == was[e := was[e].(status := NOT_RUNNABLE)]
    requires EnvIds.Issued(was, allocs) && EnvIds.Linked(was, head, list) && EnvIds.ListsFree(was, list)
    ensures EnvIds.Issued(envs, allocs) && EnvIds.Linked(envs, head, list) && EnvIds.ListsFree(envs, list)
  {
    forall k | 0 <= k < |list| ensures list[k] != e {
      assert list[k] in list;
    }
  }

  lemma StillOwned(was: seq<EnvIds.Env>, envs: seq<EnvIds.Env>, dirs: seq<int>, roots: set<nat>, e: nat)
    requires e < |was| && EnvIds.Live(was, e) && envs == was[e := was[e].(status := NOT_RUNNABLE)]
    requires Owned(was, dirs, roots)
    ensures Owned(envs, dirs, roots)
  {
    forall r | r in roots ensures exists i :: 0 <= i < |envs| && EnvIds.Live(envs, i) && dirs[i] == r {
      var i :| 0 <= i < |was| && EnvIds.Live(was, i) && dirs[i] == r;
      assert EnvIds.Live(envs, i);
    }
  }

  lemma NamedIsLive(s: Envs, envid: int, curenv: nat)
    requires s.Valid() && EnvIds.Live(s.table.envs[..], curenv)
    ensures var e := Named(s.table.envs[..], envid, curenv);
      e != EnvIds.NULL ==> 0 <= e < EnvIds.NENV && s.pgdirs[e] >= 0 && s.pgdirs[e] in s.kernel.vm.roots
  {
    var e := Named(s.table.envs[..], envid, curenv);
    if e != EnvIds.NULL {
      OwnDirectory(s.table.envs[..], s.pgdirs[..], s.kernel.vm.roots, e);
    }
  }

  /** envid2env with checkperm set, down to the page directory. */
  method DirectoryOf(s: Envs, curenv: nat, envid: int) returns (dir: int)
    requires s.Valid() && EnvIds.Live(s.table.envs[..], curenv)
    ensures var e := Named(s.table.envs[..], envid, curenv);
      if e == EnvIds.NULL then dir == EnvIds.NULL
      else 0 <= e < EnvIds.NENV && dir == s.pgdirs[e] && dir >= 0 && dir in s.kernel.vm.roots
  {
    hide Owned, EnvIds.Issued, EnvIds.Linked, EnvIds.ListsFree, WellFormed, Backed, Linked, Refs;
    NamedIsLive(s, envid, curenv);
    var e, err := s.table.Envid2env(envid, curenv, true);
    if err != EnvIds.OK {
      return EnvIds.NULL;
    }
    return s.pgdirs[e];
  }

  /** sys_page_alloc. */
  method SysPageAlloc(s: Envs, curenv: nat, envid: int, va: nat, perm: nat)
    returns (r: int, ghost dir: int, ghost got: nat, ghost table: nat)
    requires s.Valid() && EnvIds.Live(s.table.envs[..], curenv)
    modifies s.kernel`pageFreeList, s.kernel`free, s.kernel`vm, s.kernel.pages, s.kernel.frames
    ensures s.Valid() && s.table.envs[..] == old(s.table.envs[..]) && s.pgdirs[..] == old(s.pgdirs[..])
    ensures var e := Named(s.table.envs[..], envid, curenv);
      if va >= 0xeec0_0000 || va % 4096 != 0 then r == -Fork.E_INVAL
      else if e == EnvIds.NULL then r == -E_BAD_ENV
      else
        && 0 <= e < EnvIds.NENV && dir == s.pgdirs[e] >= 0
        && var free, tableThere := Fork.FreePages(old(s.kernel.vm)), TableOf(KeyOf(dir, va)) in old(s.kernel.vm).tables;
           r == if !OnlySyscallBits(OrUserPresent(perm)) then -Fork.E_INVAL
                else if free == 0 || (!tableThere && free == 1) then -Fork.E_NO_MEM else 0
    ensures r == -Fork.E_INVAL || r == -E_BAD_ENV ==> s.kernel.vm == old(s.kernel.vm)
    ensures r == -Fork.E_NO_MEM ==>
      if Fork.FreePages(old(s.kernel.vm)) == 0 then s.kernel.vm == old(s.kernel.vm)
      else Free(old(s.kernel.vm), got) && s.kernel.vm == Take(old(s.kernel.vm), got)
    ensures r == 0 ==>
      && dir >= 0 && Free(old(s.kernel.vm), got) && got < s.kernel.frames.Length && s.kernel.frames[got] == Zeroed()
      && s.kernel.vm ==
         Inserted(Take(old(s.kernel.vm), got), KeyOf(dir, va), Pte(got, OrUserPresent(perm)), table)
  {
    hide Owned, EnvIds.Issued, EnvIds.Linked, EnvIds.ListsFree, WellFormed, Backed, Linked, Refs, Free;
    dir, got, table := EnvIds.NULL, 0, 0;
    if va >= UTOP || va % PGSIZE != 0 {
      return -Fork.E_INVAL, dir, got, table;
    }
    var d := DirectoryOf(s, curenv, envid);
    dir := d;
    if d == EnvIds.NULL {
      return -E_BAD_ENV, dir, got, table;
    }
    r, got, table := Fork.SysPageAlloc(s.kernel, d, va, perm);
  }

  /** sys_page_unmap. */
  method SysPageUnmap(s: Envs, curenv: nat, envid: int, va: nat) returns (r: int, ghost dir: int)
    requires s.Valid() && EnvIds.Live(s.table.envs[..], curenv)
    modifies s.kernel`pageFreeList, s.kernel`free, s.kernel`vm, s.kernel.pages, s.kernel.frames
    ensures s.Valid() && s.table.envs[..] == old(s.table.envs[..]) && s.pgdirs[..] == old(s.pgdirs[..])
    ensures var e := Named(s.table.envs[..], envid, curenv);
      if va >= 0xeec0_0000 || va % 4096 != 0 then r == -Fork.E_INVAL
      else if e == EnvIds.NULL then r == -E_BAD_ENV
      else r == 0 && 0 <= e < EnvIds.NENV && dir == s.pgdirs[e] >= 0
    ensures s.kernel.vm == if r == 0 && dir >= 0 then Unmap(old(s.kernel.vm), KeyOf(dir, va)) else old(s.kernel.vm)
  {
    hide Owned, EnvIds.Issued, EnvIds.Linked, EnvIds.ListsFree, WellFormed, Backed, Linked, Refs;
    dir := EnvIds.NULL;
    if va >= UTOP || va % PGSIZE != 0 {
      return -Fork.E_INVAL, dir;
    }
    var d := DirectoryOf(s, curenv, envid);
    dir := d;
    if d == EnvIds.NULL {
      return -E_BAD_ENV, dir;
    }
    r := Fork.SysPageUnmap(s.kernel, d, va);
  }

  /** What the source entry of sys_page_map must be like: mapped, and not mapped writable from a
      read-only entry. */
  ghost predicate BadSource(vm: Vm, src: nat, srcva: nat, perm: nat)
  {
    || KeyOf(src, srcva) !in vm.maps
    || (Has(perm, PTE_W) && !Has(vm.maps[KeyOf(src, srcva)].perm, PTE_W))
  }

  /** sys_page_map. */
  method SysPageMap(s: Envs, curenv: nat, srcid: int, srcva: nat, dstid: int, dstva: nat, perm: nat)
    returns (r: int, ghost src: int, ghost dst: int, ghost table: nat)
    requires s.Valid() && EnvIds.Live(s.table.envs[..], curenv) && perm < PGSIZE
    requires forall l :: l in s.kernel.vm.maps ==> Refs(s.kernel.vm, s.kernel.vm.maps[l].page) < MAXREF
    modifies s.kernel`pageFreeList, s.kernel`free, s.kernel`vm, s.kernel.pages, s.kernel.frames
    ensures s.Valid() && s.table.envs[..] == old(s.table.envs[..]) && s.pgdirs[..] == old(s.pgdirs[..])
    ensures var e, f := Named(s.table.envs[..], srcid, curenv), Named(s.table.envs[..], dstid, curenv);
      if srcva >= 0xeec0_0000 || srcva % 4096 != 0 || dstva >= 0xeec0_0000 || dstva % 4096 != 0
      then r == -Fork.E_INVAL
      else if e == EnvIds.NULL || f == EnvIds.NULL then r == -E_BAD_ENV
      else
        && 0 <= e < EnvIds.NENV && 0 <= f < EnvIds.NENV && src == s.pgdirs[e] >= 0 && dst == s.pgdirs[f] >= 0
        && r == if BadSource(old(s.kernel.vm), src, srcva, perm) then -Fork.E_INVAL
                else if TableOf(KeyOf(dst, dstva)) !in old(s.kernel.vm).tables && Fork.FreePages(old(s.kernel.vm)) == 0
                then -Fork.E_NO_MEM else 0
    ensures r != 0 ==> s.kernel.vm == old(s.kernel.vm)
    ensures r == 0 ==>
      && src >= 0 && dst >= 0 && KeyOf(src, srcva) in old(s.kernel.vm).maps
      && s.kernel.vm == Inserted(old(s.kernel.vm), KeyOf(dst, dstva),
                                 Pte(old(s.kernel.vm).maps[KeyOf(src, srcva)].page, OrUserPresent(perm)), table)
  {
    hide Owned, EnvIds.Issued, EnvIds.Linked, EnvIds.ListsFree, WellFormed, Backed, Linked, Refs;
    src, dst, table := EnvIds.NULL, EnvIds.NULL, 0;
    if srcva >= UTOP || srcva % PGSIZE != 0 || dstva >= UTOP || dstva % PGSIZE != 0 {
      return -Fork.E_INVAL, src, dst, table;
    }
    var d := DirectoryOf(s, curenv, srcid);
    src := d;
    if d == EnvIds.NULL {
      return -E_BAD_ENV, src, dst, table;
    }
    var t := DirectoryOf(s, curenv, dstid);
    dst := t;
    if t == EnvIds.NULL {
      return -E_BAD_ENV, src, dst, table;
    }
    r, table := Fork.SysPageMap(s.kernel, d, srcva, t, dstva, perm);
  }
}
