/** Environment ids and the free list of environments (TP2-sched/kern/env.c,
    TP2-sched/inc/env.h): what an id says about its slot, and for how long an old id is
    recognised as stale. */
module EnvIds {
  import opened Common

  const NENV: nat := 1024
  const GENERATION: nat := 0x1000
  const PERIOD: nat := 0x7_FFFF
  const NULL: int := -1

  datatype Errno = OK | BAD_ENV | NO_FREE_ENV | NO_MEM
  datatype Env = Env(link: int, id: int, parent: int, status: Status)

  // ----- ids, in wrapping 32-bit arithmetic -----

  function ENVX(id: int): (i: nat)
    ensures i < NENV
  {
    id % NENV
  }

  /** The id of slot i after an allocation that finds `id` in it. `& ~(NENV - 1)` takes off the
      index and `| (e - envs)` puts one in; WordForms.NextIdWords says so of the words. */
  function NextId(id: int, i: nat): int
  {
    var generation := ToInt32(id + GENERATION) - ENVX(ToInt32(id + GENERATION));
    (if generation <= 0 then GENERATION else generation) + i
  }

  /** The id of slot i after its k-th allocation; 0 before the first. */
  function IdAfter(i: nat, k: nat): (id: int)
  {
    if k == 0 then 0 else GENERATION * ((k - 1) % PERIOD + 1) + i
  }

  lemma IdParts(i: nat, k: nat)
    requires i < NENV && k > 0
    ensures 0 < IdAfter(i, k) < 0x8000_0000 && ENVX(IdAfter(i, k)) == i
    ensures IdAfter(i, k) / GENERATION == (k - 1) % PERIOD + 1
  {
  }

  /** One allocation moves a slot from its k-th id to its next, through the wrap to a negative
      number, which starts the generations over. */
  lemma {:induction false} NextIdIs(i: nat, k: nat)
    requires i < NENV
    ensures NextId(IdAfter(i, k), i) == IdAfter(i, k + 1)
  {
    if k > 0 {
      Wraps(k);
      NextGeneration(i, (k - 1) % PERIOD + 1);
    }
  }

  lemma EnvxOf(q: int, i: nat)
    requires i < NENV
    ensures ENVX(NENV * q + i) == i
  {
  }

  lemma Fits(x: int)
    requires 0 <= x < 0x8000_0000
    ensures ToInt32(x) == x
  {
  }

  lemma Overflows(i: nat)
    requires i < NENV
    ensures ToInt32(0x8000_0000 + i) == i - 0x8000_0000
  {
  }

  lemma {:induction false} NextGeneration(i: nat, g: nat)
    requires i < NENV && 0 < g <= PERIOD
    ensures NextId(GENERATION * g + i, i) == GENERATION * (if g == PERIOD then 1 else g + 1) + i
  {
    hide ToInt32, ENVX;
    if g == PERIOD {
      Overflows(i);
      EnvxOf(-0x20_0000, i);
    } else {
      Fits(GENERATION * (g + 1) + i);
      EnvxOf(4 * (g + 1), i);
    }
  }

  lemma Wraps(k: nat)
    requires k > 0
    ensures k % PERIOD == if (k - 1) % PERIOD + 1 == PERIOD then 0 else (k - 1) % PERIOD + 1
  {
  }

  /** A slot has the same id after its k-th and its m-th allocation exactly when the two are a
      multiple of 2^19 - 1 apart. */
  lemma SameIdIff(i: nat, k: nat, m: nat)
    requires i < NENV && 0 < k <= m
    ensures IdAfter(i, k) == IdAfter(i, m) <==> (m - k) % PERIOD == 0
  {
    IdParts(i, k);
    IdParts(i, m);
    ModEqual(k - 1, m - 1);
  }

  lemma ModEqual(a: nat, b: nat)
    requires a <= b
    ensures a % PERIOD == b % PERIOD <==> (b - a) % PERIOD == 0
  {
    var q, r := a / PERIOD, b / PERIOD;
    assert a == PERIOD * q + a % PERIOD && b == PERIOD * r + b % PERIOD;
    if a % PERIOD == b % PERIOD {
      assert b - a == PERIOD * (r - q);
    } else {
      var d := (b - a) / PERIOD;
      assert b - a == PERIOD * d + (b - a) % PERIOD;
      assert b == PERIOD * (q + d) + a % PERIOD + (b - a) % PERIOD;
    }
  }

  // ----- the table -----

  /** Every slot carries the id of its last allocation, and a slot in use has had one. */
  ghost predicate Issued(envs: seq<Env>, allocs: seq<nat>)
  {
    && |envs| == |allocs| == NENV
    && forall i :: 0 <= i < NENV ==>
      envs[i].id == IdAfter(i, allocs[i]) && (envs[i].status != FREE ==> allocs[i] > 0)
  }

  function After(list: seq<nat>, k: nat): int
  {
    if k + 1 < |list| then list[k + 1] else NULL
  }

  /** Following the links from `head` visits exactly `list`, in that order. */
  ghost predicate Linked(envs: seq<Env>, head: int, list: seq<nat>)
  {
    && head == (if list == [] then NULL else list[0])
    && (forall k :: 0 <= k < |list| ==> list[k] < |envs|)
    && (forall k :: 0 <= k < |list| ==> envs[list[k]].link == After(list, k))
  }

  /** `list` has exactly the free slots, each once. */
  ghost predicate ListsFree(envs: seq<Env>, list: seq<nat>)
  {
    && (forall j, k :: 0 <= j < k < |list| ==> list[j] != list[k])
    && (forall i :: 0 <= i < |envs| ==> (envs[i].status == FREE <==> i in list))
  }

  predicate Live(envs: seq<Env>, i: int)
  {
    0 <= i < |envs| && envs[i].status != FREE
  }

  /** checkperm's rule: the environment itself or a child of the current one. */
  predicate Permitted(envs: seq<Env>, i: nat, curenv: int, checkperm: bool)
    requires i < |envs| && (checkperm ==> 0 <= curenv < |envs|)
  {
    checkperm ==> i == curenv || envs[i].parent == envs[curenv].id
  }

  function Lookup(envs: seq<Env>, envid: int, curenv: int, checkperm: bool): int
    requires |envs| == NENV && (checkperm ==> 0 <= curenv < |envs|)
  {
    if envid == 0 then curenv
    else if Live(envs, ENVX(envid)) && envs[ENVX(envid)].id == envid && Permitted(envs, ENVX(envid), curenv, checkperm)
    then ENVX(envid) else NULL
  }

  /** Live ids are positive, distinct, and give their slot. */
  lemma LiveIds(envs: seq<Env>, allocs: seq<nat>)
    requires Issued(envs, allocs)
    ensures forall i :: Live(envs, i) ==> 0 < envs[i].id < 0x8000_0000 && ENVX(envs[i].id) == i
    ensures forall i, j :: Live(envs, i) && Live(envs, j) && envs[i].id == envs[j].id ==> i == j
  {
    forall i | Live(envs, i) ensures 0 < envs[i].id < 0x8000_0000 && ENVX(envs[i].id) == i {
      IdParts(i, allocs[i]);
    }
  }

  /** A non-zero id names an environment exactly when some live slot carries it, and then that
      one; so no other slot can be meant. */
  lemma {:induction false} LookupIff(envs: seq<Env>, allocs: seq<nat>, envid: int)
    requires Issued(envs, allocs) && envid != 0
    ensures Lookup(envs, envid, NULL, false) != NULL <==> exists i :: Live(envs, i) && envs[i].id == envid
    ensures forall i :: Live(envs, i) && envs[i].id == envid ==> Lookup(envs, envid, NULL, false) == i
  {
    LiveIds(envs, allocs);
    var i := ENVX(envid);
    assert Lookup(envs, envid, NULL, false) != NULL ==> Live(envs, i) && envs[i].id == envid;
  }

  /** The id that slot i was given by its k-th allocation, looked up any number of allocations
      later: it is still good exactly when the slot is in use and no allocation came after, as
      long as fewer than 2^19 - 1 did. */
  lemma StaleIff(envs: seq<Env>, allocs: seq<nat>, i: nat, k: nat)
    requires Issued(envs, allocs) && i < NENV && 0 < k <= allocs[i] < k + PERIOD
    ensures Lookup(envs, IdAfter(i, k), NULL, false) == if Live(envs, i) && allocs[i] == k then i else NULL
  {
    IdParts(i, k);
    SameIdIff(i, k, allocs[i]);
    assert allocs[i] - k < PERIOD;
  }

  /** And the bound is exact: 2^19 - 1 allocations later the old id is good again. */
  lemma StaleBoundIsTight(envs: seq<Env>, allocs: seq<nat>, i: nat, k: nat)
    requires Issued(envs, allocs) && Live(envs, i) && 0 < k && allocs[i] == k + PERIOD
    ensures Lookup(envs, IdAfter(i, k), NULL, false) == i
  {
    IdParts(i, k);
    SameIdIff(i, k, allocs[i]);
  }

  // ----- the program -----

  lemma AllFree(envs: seq<Env>, list: seq<nat>, allocs: seq<nat>)
    requires |envs| == |list| == |allocs| == NENV
    requires forall k :: 0 <= k < NENV ==> envs[k] == Env(if k == NENV - 1 then NULL else k + 1, 0, 0, FREE)
    requires forall k :: 0 <= k < NENV ==> list[k] == k && allocs[k] == 0
    ensures Issued(envs, allocs) && Linked(envs, 0, list) && ListsFree(envs, list)
  {
    forall k | 0 <= k < NENV ensures k in list {
      assert list[k] in list;
    }
  }

  class EnvTable {
    const envs: array<Env>
    var freeList: int
    ghost var list: seq<nat>
    ghost var allocs: seq<nat>

    ghost predicate Valid()
      reads this, envs
    {
      && Issued(envs[..], allocs)
      && Linked(envs[..], freeList, list)
      && ListsFree(envs[..], list)
    }

    /** env_init: all slots free, in order. */
    constructor ()
      ensures Valid() && fresh(envs)
      ensures list == seq(NENV, i => i) && allocs == seq(NENV, i => 0)
    {
      hide Issued, Linked, ListsFree;
      envs := new Env[NENV](_ => Env(NULL, 0, 0, FREE));
      new;
      var i := 0;
      while i < NENV
        invariant 0 <= i <= NENV
        invariant forall k :: 0 <= k < i ==> envs[k] == Env(k + 1, 0, 0, FREE)
        invariant forall k :: i <= k < NENV ==> envs[k] == Env(NULL, 0, 0, FREE)
      {
        envs[i] := envs[i].(id := 0, status := FREE, link := i + 1);
        i := i + 1;
      }
      envs[NENV - 1] := envs[NENV - 1].(link := NULL);
      freeList := 0;
      list := seq(NENV, k => k);
      allocs := seq(NENV, k => 0);
      AllFree(envs[..], list, allocs);
    }

    /** envid2env. */
    method Envid2env(envid: int, curenv: int, checkperm: bool) returns (e: int, err: Errno)
      requires Valid() && (checkperm ==> 0 <= curenv < envs.Length)
      ensures err == OK ==> e == Lookup(envs[..], envid, curenv, checkperm)
      ensures err == OK <==> envid == 0 || Lookup(envs[..], envid, curenv, checkperm) != NULL
      ensures err == OK || (err == BAD_ENV && e == NULL)
      ensures envid == 0 ==> err == OK && e == curenv
      ensures envid != 0 ==>
        (err == OK <==> exists i: nat ::
           && i < envs.Length && envs[i].status != FREE && envs[i].id == envid
           && (checkperm ==> i == curenv || envs[i].parent == envs[curenv].id))
      ensures envid != 0 && err == OK ==> 0 <= e < envs.Length && envs[e].status != FREE && envs[e].id == envid
      ensures forall i: nat :: i < envs.Length && envs[i].status != FREE && envs[i].id == envid && err == OK ==> e == i
    {
      LiveIds(envs[..], allocs);
      assert forall i :: 0 <= i < envs.Length ==>
        envs[i] == envs[..][i] && (Live(envs[..], i) <==> envs[i].status != FREE);
      if envid == 0 {
        return curenv, OK;
      }
      e := ENVX(envid);
      if envs[e].status == FREE || envs[e].id != envid {
        return NULL, BAD_ENV;
      }
      if checkperm && e != curenv && envs[e].parent != envs[curenv].id {
        return NULL, BAD_ENV;
      }
      return e, OK;
    }

    /** env_alloc; `vm` is whether env_setup_vm finds a page. The slot is the one freed last,
        and it gets the next of its ids. */
    method EnvAlloc(parent: int, vm: bool) returns (e: int, err: Errno)
      requires Valid()
      modifies this, envs
      ensures Valid()
      ensures err == if old(list) == [] then NO_FREE_ENV else if !vm then NO_MEM else OK
      ensures err != OK ==> list == old(list) && allocs == old(allocs) && envs[..] == old(envs[..])
      ensures err == OK ==>
        && e == old(list)[0] && list == old(list)[1..]
        && allocs == old(allocs)[e := old(allocs)[e] + 1]
        && envs[e].id == IdAfter(e, allocs[e]) && envs[e].parent == parent && envs[e].status == RUNNABLE
        && forall i :: 0 <= i < NENV && i != e ==> envs[i] == old(envs[i])
    {
      hide Issued, Linked, ListsFree, IdAfter, NextId;
      HeadFacts(envs[..], freeList, list);
      e := freeList;
      if e == NULL {
        return NULL, NO_FREE_ENV;
      }
      if !vm {
        return NULL, NO_MEM;
      }
      ghost var was := envs[..];
      ghost var k := IssuedAt(was, allocs, e);
      NextIdIs(e, k);
      envs[e] := envs[e].(id := NextId(envs[e].id, e));
      envs[e] := envs[e].(parent := parent, status := RUNNABLE);
      freeList := envs[e].link;
      AllocIssued(was, envs[..], allocs, e);
      allocs := allocs[e := k + 1];
      Popped(was, envs[..], list, freeList);
      list := list[1..];
      return e, OK;
    }

    /** The end of env_free: the slot goes back to the front of the list and keeps its id. */
    method EnvFree(e: nat)
      requires Valid() && Live(envs[..], e)
      modifies this, envs
      ensures Valid() && allocs == old(allocs) && list == [e] + old(list)
      ensures envs[e].status == FREE && envs[e].id == old(envs[e].id)
      ensures forall i :: 0 <= i < NENV && i != e ==> envs[i] == old(envs[i])
    {
      hide Linked, ListsFree, IdAfter;
      ghost var was := envs[..];
      envs[e] := envs[e].(status := FREE);
      envs[e] := envs[e].(link := freeList);
      Pushed(was, envs[..], list, freeList, e);
      freeList := e;
      list := [e] + list;
    }
  }

  lemma HeadFacts(envs: seq<Env>, head: int, list: seq<nat>)
    requires Linked(envs, head, list)
    ensures head == NULL <==> list == []
    ensures list != [] ==> 0 <= head < |envs| && head == list[0]
  {
  }

  lemma IssuedAt(envs: seq<Env>, allocs: seq<nat>, e: nat) returns (k: nat)
    requires Issued(envs, allocs) && e < |envs|
    ensures |envs| == |allocs| == NENV && k == allocs[e] && envs[e].id == IdAfter(e, k)
  {
    k := allocs[e];
  }

  lemma AllocIssued(was: seq<Env>, envs: seq<Env>, allocs: seq<nat>, e: nat)
    requires Issued(was, allocs) && e < |envs| == |was|
    requires forall i :: 0 <= i < |was| && i != e ==> envs[i] == was[i]
    requires envs[e].id == IdAfter(e, allocs[e] + 1)
    ensures Issued(envs, allocs[e := allocs[e] + 1])
  {
    hide IdAfter;
  }

  lemma Popped(was: seq<Env>, envs: seq<Env>, list: seq<nat>, head: int)
    requires list != [] && Linked(was, list[0], list) && ListsFree(was, list) && |envs| == |was|
    requires head == was[list[0]].link && envs[list[0]].status != FREE
    requires forall i :: 0 <= i < |was| && i != list[0] ==> envs[i] == was[i]
    ensures Linked(envs, head, list[1..]) && ListsFree(envs, list[1..])
  {
    assert list == [list[0]] + list[1..];
    assert list[0] < |was|;
    PoppedLinked(was, envs, list, head);
    PoppedFree(was, envs, list[0], list[1..]);
  }

  lemma PoppedLinked(was: seq<Env>, envs: seq<Env>, list: seq<nat>, head: int)
    requires list != [] && Linked(was, list[0], list) && |envs| == |was| && head == was[list[0]].link
    requires forall i :: 1 <= i < |list| ==> list[i] != list[0]
    requires forall i :: 0 <= i < |was| && i != list[0] ==> envs[i] == was[i]
    ensures Linked(envs, head, list[1..])
  {
    var rest := list[1..];
    assert head == After(list, 0);
    forall k | 0 <= k < |rest| ensures rest[k] < |envs| && envs[rest[k]].link == After(rest, k) {
      assert was[list[k + 1]].link == After(list, k + 1) == After(rest, k);
    }
  }

  lemma PoppedFree(was: seq<Env>, envs: seq<Env>, e: nat, rest: seq<nat>)
    requires ListsFree(was, [e] + rest) && |envs| == |was| && e < |envs| && envs[e].status != FREE
    requires forall i :: 0 <= i < |was| && i != e ==> envs[i] == was[i]
    ensures ListsFree(envs, rest)
  {
    var list := [e] + rest;
    forall j, k | 0 <= j < k < |rest| ensures rest[j] != rest[k] {
      assert list[j + 1] != list[k + 1];
    }
    assert e !in rest by {
      forall k | 0 <= k < |rest| ensures rest[k] != e {
        assert list[0] != list[k + 1];
      }
    }
    forall i | 0 <= i < |envs| ensures envs[i].status == FREE <==> i in rest {
      assert i in list <==> i == e || i in rest;
    }
  }

  lemma Pushed(was: seq<Env>, envs: seq<Env>, list: seq<nat>, head: int, e: nat)
    requires Linked(was, head, list) && ListsFree(was, list) && |envs| == |was|
    requires Live(was, e) && envs[e].status == FREE && envs[e].link == head
    requires forall i :: 0 <= i < |was| && i != e ==> envs[i] == was[i]
    ensures Linked(envs, e, [e] + list) && ListsFree(envs, [e] + list)
  {
    var more := [e] + list;
    assert e !in list;
    assert Linked(envs, e, more) by {
      hide ListsFree;
      forall k | 0 <= k < |more| ensures more[k] < |envs|
        && envs[more[k]].link == After(more, k) {
        if k > 0 {
          assert more[k] == list[k - 1] && list[k - 1] in list;
          assert was[list[k - 1]].link == After(list, k - 1) == After(more, k);
        }
      }
    }
    PushedFree(was, envs, e, list);
  }

  lemma PushedFree(was: seq<Env>, envs: seq<Env>, e: nat, list: seq<nat>)
    requires ListsFree(was, list) && |envs| == |was| && e < |envs| && envs[e].status == FREE
    requires e !in list
    requires forall i :: 0 <= i < |was| && i != e ==> envs[i] == was[i]
    ensures ListsFree(envs, [e] + list)
  {
    var more := [e] + list;
    forall j, k | 0 <= j < k < |more| ensures more[j] != more[k] {
      assert more[k] == list[k - 1] && list[k - 1] in list;
    }
    forall i | 0 <= i < |envs| ensures envs[i].status == FREE <==> i in more {
      assert i in more <==> i == e || i in list;
    }
  }
}
