/** Environments with their memory (env_alloc and env_free in TP2-sched/kern/env.c): the slots in
    use and the page directories allocated belong together one to one. */
module EnvMemory {
  import opened Common
  import Vm
  import Pmap
  import AddressSpaces
  import opened EnvIds

  /** Every slot in use has a directory of its own, and there are no other directories. */
  ghost predicate Owned(envs: seq<Env>, dirs: seq<int>, roots: set<nat>)
  {
    && |envs| == |dirs|
    && (forall i :: 0 <= i < |envs| && Live(envs, i) ==> dirs[i] >= 0 && dirs[i] in roots)
    && (forall i, j :: 0 <= i < j < |envs| && Live(envs, i) && Live(envs, j) ==> dirs[i] != dirs[j])
    && (forall r :: r in roots ==> exists i :: 0 <= i < |envs| && Live(envs, i) && dirs[i] == r)
  }

  /** The slots in use. */
  ghost function Slots(envs: seq<Env>): set<nat>
  {
    set i: nat | i < |envs| && Live(envs, i)
  }

  /** A new environment in slot `e` with the new directory `d`. */
  lemma OwnedMore(was: seq<Env>, envs: seq<Env>, dirs: seq<int>, roots: set<nat>, e: nat, d: nat)
    requires Owned(was, dirs, roots) && |envs| == |was| && e < |was| && !Live(was, e) && Live(envs, e)
    requires forall i :: 0 <= i < |was| && i != e ==> envs[i] == was[i]
    requires d !in roots
    ensures Owned(envs, dirs[e := d], roots + {d})
  {
    var after := dirs[e := d];
    forall r | r in roots + {d} ensures exists i :: 0 <= i < |envs| && Live(envs, i) && after[i] == r {
      if r == d {
        assert Live(envs, e) && after[e] == r;
      } else {
        var i :| 0 <= i < |was| && Live(was, i) && dirs[i] == r;
        assert Live(envs, i) && after[i] == r;
      }
    }
  }

  /** The environment of slot `e` goes, and its directory with it. */
  lemma OwnedLess(was: seq<Env>, envs: seq<Env>, dirs: seq<int>, roots: set<nat>, e: nat)
    requires Owned(was, dirs, roots) && |envs| == |was| && e < |was| && Live(was, e) && !Live(envs, e)
    requires forall i :: 0 <= i < |was| && i != e ==> envs[i] == was[i]
    ensures dirs[e] >= 0 && Owned(envs, dirs[e := 0], roots - {dirs[e] as nat})
  {
    var d, after := dirs[e] as nat, dirs[e := 0];
    forall i | 0 <= i < |envs| && Live(envs, i) ensures after[i] == dirs[i] >= 0 && dirs[i] in roots - {d} {
      assert Live(was, i) && i != e;
    }
    forall i, j | 0 <= i < j < |envs| && Live(envs, i) && Live(envs, j) ensures after[i] != after[j] {
      assert Live(was, i) && Live(was, j);
    }
    forall r | r in roots - {d} ensures exists i :: 0 <= i < |envs| && Live(envs, i) && after[i] == r {
      var i :| 0 <= i < |was| && Live(was, i) && dirs[i] == r;
      assert Live(envs, i) && after[i] == r;
    }
  }

  lemma {:induction false} Sizes(slots: set<nat>, dirs: seq<int>, roots: set<nat>)
    requires forall i :: i in slots ==> i < |dirs| && dirs[i] in roots
    requires forall i, j :: i in slots && j in slots && i != j ==> dirs[i] != dirs[j]
    requires forall r :: r in roots ==> exists i :: i in slots && dirs[i] == r
    ensures |slots| == |roots|
    decreases |slots|
  {
    if slots == {} {
      assert roots == {};
    } else {
      var i :| i in slots;
      var d: nat := dirs[i];
      forall r | r in roots - {d} ensures exists j :: j in slots - {i} && dirs[j] == r {
        var j :| j in slots && dirs[j] == r;
        assert j in slots - {i};
      }
      Sizes(slots - {i}, dirs, roots - {d});
    }
  }

  /** There are as many page directories as environments, so at most NENV. */
  lemma AsManyDirectories(envs: seq<Env>, dirs: seq<int>, roots: set<nat>)
    requires Owned(envs, dirs, roots) && |envs| == NENV
    ensures |roots| == |Slots(envs)| <= NENV
  {
    forall r | r in roots ensures exists i: nat :: i in Slots(envs) && dirs[i] == r {
      var i :| 0 <= i < |envs| && Live(envs, i) && dirs[i] == r;
      assert i as nat in Slots(envs);
    }
    Sizes(Slots(envs), dirs, roots);
    AtMost(Slots(envs), NENV);
  }

  lemma {:induction false} AtMost(slots: set<nat>, n: nat)
    requires forall i :: i in slots ==> i < n
    ensures |slots| <= n
    decreases n
  {
    if n > 0 {
      AtMost(slots - {n - 1}, n - 1);
    }
  }

  /** The free list is empty exactly when all slots are in use; otherwise it begins with a free one. */
  lemma ListAndSlots(envs: seq<Env>, head: int, list: seq<nat>)
    requires |envs| == NENV && Linked(envs, head, list) && ListsFree(envs, list)
    ensures head == NULL <==> |Slots(envs)| == NENV
    ensures head == NULL <==> list == []
    ensures list != [] ==> head == list[0] < NENV && !Live(envs, head)
  {
    if list == [] {
      AllSlots(Slots(envs), NENV);
    } else {
      var e := list[0];
      assert e in list;
      AtMost(Slots(envs) + {e}, NENV);
    }
  }

  lemma {:induction false} AllSlots(slots: set<nat>, n: nat)
    requires forall i: nat :: i in slots <==> i < n
    ensures |slots| == n
    decreases n
  {
    if n > 0 {
      AllSlots(slots - {n - 1}, n - 1);
    }
  }

  lemma SlotsMore(was: seq<Env>, envs: seq<Env>, e: nat)
    requires |envs| == |was| && e < |was| && !Live(was, e) && Live(envs, e)
    requires forall i :: 0 <= i < |was| && i != e ==> envs[i] == was[i]
    ensures Slots(envs) == Slots(was) + {e} && e !in Slots(was)
  {
  }

  lemma SlotsLess(was: seq<Env>, envs: seq<Env>, e: nat)
    requires |envs| == |was| && e < |was| && Live(was, e) && !Live(envs, e)
    requires forall i :: 0 <= i < |was| && i != e ==> envs[i] == was[i]
    ensures Slots(envs) == Slots(was) - {e}
  {
  }

  lemma FreshRoot(vm: Vm.Vm, dir: nat)
    requires Vm.Free(vm, dir)
    ensures dir !in vm.roots
  {
    Vm.CountedPositive(vm, dir);
  }

  lemma NoneOwned(envs: seq<Env>, list: seq<nat>, dirs: seq<int>)
    requires |envs| == |dirs| == |list| == NENV && ListsFree(envs, list)
    requires forall i :: 0 <= i < NENV ==> list[i] == i
    ensures Owned(envs, dirs, {}) && Slots(envs) == {}
  {
    forall i | 0 <= i < NENV ensures !Live(envs, i) {
      assert list[i] in list;
    }
  }

  class Envs {
    const table: EnvTable
    const kernel: Pmap.Kernel
    const pgdirs: array<int>

    ghost predicate Valid()
      reads this, table, table.envs, kernel, kernel.pages, kernel.frames, pgdirs
    {
      && table.Valid() && kernel.Valid() && kernel.vm.held == {}
      && table.envs.Length == pgdirs.Length == NENV
      && Owned(table.envs[..], pgdirs[..], kernel.vm.roots)
    }

    /** env_init, after mem_init: no environment and no directory. */
    constructor (kernel: Pmap.Kernel)
      requires kernel.Valid() && kernel.vm.roots == {} && kernel.vm.held == {}
      ensures Valid() && this.kernel == kernel && fresh(table) && fresh(table.envs) && fresh(pgdirs)
      ensures Slots(table.envs[..]) == {}
    {
      hide Linked, ListsFree, Owned, Slots, Vm.WellFormed, Pmap.Backed, Pmap.Linked, Vm.Refs;
      this.kernel := kernel;
      table := new EnvTable();
      pgdirs := new int[NENV](_ => 0);
      new;
      NoneOwned(table.envs[..], table.list, pgdirs[..]);
    }

    /** The free list of slots, taken with env_setup_vm in between. */
    method TakeSlot(parent: int) returns (e: int, dir: int, err: Errno)
      requires Valid()
      modifies table, table.envs
      modifies kernel`pageFreeList, kernel`free, kernel`vm, kernel.pages, kernel.frames
      ensures table.Valid() && kernel.Valid() && pgdirs[..] == old(pgdirs[..])
      ensures err == if |Slots(old(table.envs[..]))| == NENV then NO_FREE_ENV
                     else if forall p :: !Vm.Free(old(kernel.vm), p) then NO_MEM else OK
      ensures err != OK ==> kernel.vm == old(kernel.vm) && table.envs[..] == old(table.envs[..])
      ensures err == OK ==>
        && 0 <= e < NENV && !Live(old(table.envs[..]), e) && dir >= 0 && Vm.Free(old(kernel.vm), dir)
        && kernel.vm == Vm.AddRoot(Vm.Take(old(kernel.vm), dir), dir)
        && table.envs[e].parent == parent && table.envs[e].status == RUNNABLE
        && forall i :: 0 <= i < NENV && i != e ==> table.envs[..][i] == old(table.envs[..])[i]
    {
      hide Issued, Linked, ListsFree, Owned, Slots, Vm.WellFormed, Pmap.Backed, Pmap.Linked, Vm.Refs, Vm.Free;
      ListAndSlots(table.envs[..], table.freeList, table.list);
      dir := NULL;
      if table.freeList != NULL {
        dir := kernel.EnvSetupVm();
      }
      e, err := table.EnvAlloc(parent, dir != NULL);
    }

    /** env_alloc. */
    method Create(parent: int) returns (e: int, err: Errno)
      requires Valid()
      modifies table, table.envs, pgdirs
      modifies kernel`pageFreeList, kernel`free, kernel`vm, kernel.pages, kernel.frames
      ensures Valid()
      ensures err == if |Slots(old(table.envs[..]))| == NENV then NO_FREE_ENV
                     else if forall p :: !Vm.Free(old(kernel.vm), p) then NO_MEM else OK
      ensures err != OK ==> kernel.vm == old(kernel.vm) && table.envs[..] == old(table.envs[..])
      ensures err == OK ==>
        && 0 <= e < NENV && Slots(table.envs[..]) == Slots(old(table.envs[..])) + {e as nat}
        && e as nat !in Slots(old(table.envs[..])) && pgdirs[e] >= 0 && Vm.Free(old(kernel.vm), pgdirs[e])
        && kernel.vm == Vm.AddRoot(Vm.Take(old(kernel.vm), pgdirs[e]), pgdirs[e])
        && table.envs[e].parent == parent && table.envs[e].status == RUNNABLE
        && forall i :: 0 <= i < NENV && i != e ==> table.envs[..][i] == old(table.envs[..])[i]
    {
      hide Issued, Linked, ListsFree, Owned, Slots, Vm.WellFormed, Pmap.Backed, Pmap.Linked, Vm.Refs, Vm.Free;
      ghost var was, roots, dirs := table.envs[..], kernel.vm.roots, pgdirs[..];
      var dir;
      e, dir, err := TakeSlot(parent);
      if err == OK {
        pgdirs[e] := dir;
        FreshRoot(old(kernel.vm), dir);
        OwnedMore(was, table.envs[..], dirs, roots, e, dir);
        SlotsMore(was, table.envs[..], e);
      }
    }

    /** env_free. */
    method Destroy(e: nat)
      requires Valid() && Live(table.envs[..], e)
      modifies table, table.envs, pgdirs
      modifies kernel`pageFreeList, kernel`free, kernel`vm, kernel.pages, kernel.frames
      ensures Valid()
      ensures Slots(table.envs[..]) == Slots(old(table.envs[..])) - {e}
      ensures old(pgdirs[e]) >= 0 && kernel.vm == Vm.Without(old(kernel.vm), old(pgdirs[e]))
      ensures table.envs[e].id == old(table.envs[e].id)
      ensures forall i :: 0 <= i < NENV && i != e ==> table.envs[..][i] == old(table.envs[..])[i]
    {
      hide Issued, Linked, ListsFree, Owned, Slots, Vm.WellFormed, Pmap.Backed, Pmap.Linked, Vm.Refs;
      ghost var was, roots, dirs := table.envs[..], kernel.vm.roots, pgdirs[..];
      OwnDirectory(was, dirs, roots, e);
      kernel.EnvFree(pgdirs[e]);
      pgdirs[e] := 0;
      table.EnvFree(e);
      OwnedLess(was, table.envs[..], dirs, roots, e);
      SlotsLess(was, table.envs[..], e);
    }
  }

  lemma OwnDirectory(envs: seq<Env>, dirs: seq<int>, roots: set<nat>, e: nat)
    requires Owned(envs, dirs, roots) && e < |envs| && Live(envs, e)
    ensures dirs[e] >= 0 && dirs[e] in roots
  {
  }
}
