/** The translation cache of one CPU against the page tables in memory. Kernel operations are
    broken into the individual stores and instructions of pmap.c, env.c and sched.c, and the
    hardware may cache any present entry of the loaded directory, or drop any cached one,
    between any two of them. */
module Tlb {
  import opened Common
  import opened Mmu
  import opened Vm
  import opened AddressSpaces

  datatype Slot = Slot(pdx: nat, ptx: nat)

  /** Where the kernel is inside a multi-step operation. */
  datatype Pc =
    | Ready                           // between operations, and in user mode
    | MustFlush(k: PteKey, back: Pc)  // page_remove has zeroed the PTE, not yet invalidated
    | Switching(dir: nat)             // env_run has set curenv, not yet loaded cr3
    | Halting                         // sched_halt has cleared curenv, not yet loaded cr3
    | Loading(dir: nat)               // load_icode runs on the new directory, curenv is NULL
    | Freeing(dir: nat)               // env_free is emptying the directory

  datatype Cpu = Cpu(
    roots: set<nat>, maps: map<PteKey, Pte>,
    cr3: Option<nat>,                 // loaded directory; None is kern_pgdir, with no user part
    cur: Option<nat>,                 // curenv's directory
    tlb: map<Slot, Pte>,
    pc: Pc
  )

  datatype Step =
    | Fill(s: Slot)
    | Evict(s: Slot)
    | ClearPte(k: PteKey)
    | Invalidate
    | WritePte(k: PteKey, e: Pte)
    | NewRoot(dir: nat)
    | SetCurenv(dir: nat)
    | ClearCurenv
    | LoadCr3
    | BeginLoad(dir: nat)
    | BeginFree(dir: nat)
    | EndFree

  function KeyIn(dir: nat, s: Slot): PteKey { PteKey(dir, s.pdx, s.ptx) }

  ghost predicate Enabled(c: Cpu, step: Step)
  {
    match step
    case Fill(s) => c.cr3.Some? && KeyIn(c.cr3.value, s) in c.maps
    case Evict(s) => true
    case ClearPte(k) =>
      k in c.maps && (c.pc.Ready? || c.pc.Loading? || (c.pc.Freeing? && c.pc.dir == k.dir))
    case Invalidate => c.pc.MustFlush?
    case WritePte(k, e) => k !in c.maps && k.dir in c.roots && (c.pc.Ready? || c.pc.Loading?)
    case NewRoot(dir) => c.pc.Ready? && dir !in c.roots
    case SetCurenv(dir) => c.pc.Ready? && dir in c.roots
    case ClearCurenv => c.pc.Ready?
    case LoadCr3 => c.pc.Switching? || c.pc.Halting? || c.pc.Loading?
    case BeginLoad(dir) => c.pc.Ready? && c.cur.None? && dir in c.roots
    case BeginFree(dir) => c.pc.Ready? && dir in c.roots
    case EndFree => c.pc.Freeing? && forall k :: k in c.maps ==> k.dir != c.pc.dir
  }

  function Apply(c: Cpu, step: Step): Cpu
    requires Enabled(c, step)
  {
    match step
    case Fill(s) => c.(tlb := c.tlb[s := c.maps[KeyIn(c.cr3.value, s)]])
    case Evict(s) => c.(tlb := c.tlb - {s})
    case ClearPte(k) => c.(maps := c.maps - {k}, pc := MustFlush(k, c.pc))
    // invlpg runs only if there is no curenv or the directory is curenv's
    case Invalidate =>
      var k := c.pc.k;
      if c.cur.None? || c.cur.value == k.dir
      then c.(tlb := c.tlb - {Slot(k.pdx, k.ptx)}, pc := c.pc.back)
      else c.(pc := c.pc.back)
    case WritePte(k, e) => c.(maps := c.maps[k := e])
    case NewRoot(dir) => c.(roots := c.roots + {dir})
    case SetCurenv(dir) => c.(cur := Some(dir), pc := Switching(dir))
    case ClearCurenv => c.(cur := None, pc := Halting)
    // a load of cr3 flushes the whole cache
    case LoadCr3 => c.(cr3 := if c.pc.Switching? then Some(c.pc.dir) else None, tlb := map[], pc := Ready)
    case BeginLoad(dir) => c.(cr3 := Some(dir), tlb := map[], pc := Loading(dir))
    // env_free leaves the directory first if it is curenv's
    case BeginFree(dir) =>
      if c.cur == Some(dir) then c.(cr3 := None, tlb := map[], pc := Freeing(dir)) else c.(pc := Freeing(dir))
    // the directory is gone; env_destroy then clears curenv if it was its own
    case EndFree =>
      c.(roots := c.roots - {c.pc.dir}, cur := if c.cur == Some(c.pc.dir) then None else c.cur, pc := Ready)
  }

  /** Every cached translation is the page table's, except the one page_remove is about to
      invalidate. */
  ghost predicate Agrees(c: Cpu)
  {
    forall s :: s in c.tlb ==>
      && c.cr3.Some?
      && ((KeyIn(c.cr3.value, s) in c.maps && c.maps[KeyIn(c.cr3.value, s)] == c.tlb[s])
          || (c.pc.MustFlush? && c.pc.k == KeyIn(c.cr3.value, s)))
  }

  /** Which directory is loaded, at each point of the kernel's path. */
  ghost predicate CurenvOk(roots: set<nat>, cr3: Option<nat>, cur: Option<nat>, pc: Pc)
  {
    match pc
    case Ready => cr3.None? || cr3 == cur
    case MustFlush(k, back) => !back.MustFlush? && CurenvOk(roots, cr3, cur, back)
    case Switching(dir) => dir in roots && cur == Some(dir)
    case Halting => cur.None?
    case Loading(dir) => cr3 == Some(dir) && cur.None?
    case Freeing(dir) => cr3 != Some(dir) && (cr3.None? || cr3 == cur)
  }

  ghost predicate Inv(c: Cpu)
  {
    && Agrees(c) && CurenvOk(c.roots, c.cr3, c.cur, c.pc)
    && (c.cr3.Some? ==> c.cr3.value in c.roots)
    && (forall k :: k in c.maps ==> k.dir in c.roots)
    && (c.pc.MustFlush? ==> c.pc.k !in c.maps && !c.pc.back.Switching? && !c.pc.back.Halting?)
  }

  ghost predicate Runs(c: Cpu, steps: seq<Step>)
    decreases |steps|
  {
    steps == [] || (Enabled(c, steps[0]) && Runs(Apply(c, steps[0]), steps[1..]))
  }

  ghost function Run(c: Cpu, steps: seq<Step>): Cpu
    requires Runs(c, steps)
    decreases |steps|
  {
    if steps == [] then c else Run(Apply(c, steps[0]), steps[1..])
  }

  /** What the hardware may use at a point where no invalidation is pending. */
  ghost predicate TlbAgreement(c: Cpu)
  {
    forall s :: s in c.tlb ==>
      c.cr3.Some? && KeyIn(c.cr3.value, s) in c.maps && c.maps[KeyIn(c.cr3.value, s)] == c.tlb[s]
  }

  lemma {:induction false} StepKeepsInv(c: Cpu, step: Step)
    requires Inv(c) && Enabled(c, step)
    ensures Inv(Apply(c, step))
  {
    if step.Invalidate? && c.cur.Some? && c.cur.value != c.pc.k.dir {
      // nothing of a directory that is not loaded is cached
      assert CurenvOk(c.roots, c.cr3, c.cur, c.pc.back);
      assert c.cr3.Some? ==> c.cr3.value != c.pc.k.dir;
    }
  }

  /** Over any run of stores, invalidations, directory loads and hardware cache fills, every
      cached translation equals the page table's whenever no invalidation is pending. */
  lemma {:induction false} TlbAgreesAlways(c: Cpu, steps: seq<Step>)
    requires Inv(c) && Runs(c, steps)
    ensures Inv(Run(c, steps))
    ensures !Run(c, steps).pc.MustFlush? ==> TlbAgreement(Run(c, steps))
    decreases |steps|
  {
    if steps != [] {
      StepKeepsInv(c, steps[0]);
      TlbAgreesAlways(Apply(c, steps[0]), steps[1..]);
    }
  }

  /** A machine that has just loaded the kernel directory satisfies the invariant. */
  lemma BootInv(roots: set<nat>, maps: map<PteKey, Pte>)
    requires forall k :: k in maps ==> k.dir in roots
    ensures Inv(Cpu(roots, maps, None, None, map[], Ready))
  {
  }

  // ---- what the steps do, beyond keeping the invariant ----

  /** The store of a step to the entry `k`, if it is one. */
  predicate Touches(step: Step, k: PteKey)
  {
    (step.ClearPte? && step.k == k) || (step.WritePte? && step.k == k)
  }

  lemma {:induction false} UntouchedStays(c: Cpu, steps: seq<Step>, k: PteKey)
    requires Runs(c, steps) && forall i :: 0 <= i < |steps| ==> !Touches(steps[i], k)
    ensures k in Run(c, steps).maps <==> k in c.maps
    ensures k in c.maps ==> Run(c, steps).maps[k] == c.maps[k]
    decreases |steps|
  {
    if steps != [] {
      assert !Touches(steps[0], k);
      assert forall i :: 0 <= i < |steps| - 1 ==> steps[1..][i] == steps[i + 1];
      UntouchedStays(Apply(c, steps[0]), steps[1..], k);
    }
  }

  /** After any run, an entry is what its last store made it: gone after page_remove's, and the entry
      written after page_insert's. */
  lemma {:induction false} LastStoreStands(c: Cpu, steps: seq<Step>, i: nat, k: PteKey)
    requires Runs(c, steps) && i < |steps| && Touches(steps[i], k)
    requires forall j :: i < j < |steps| ==> !Touches(steps[j], k)
    ensures var t := Run(c, steps);
      if steps[i].WritePte? then k in t.maps && t.maps[k] == steps[i].e else k !in t.maps
    decreases |steps|
  {
    assert forall j :: 0 <= j < |steps| - 1 ==> steps[1..][j] == steps[j + 1];
    if i == 0 {
      UntouchedStays(Apply(c, steps[0]), steps[1..], k);
    } else {
      LastStoreStands(Apply(c, steps[0]), steps[1..], i - 1, k);
    }
  }

  /** With the last store to an entry of the loaded directory and no invalidation pending, the cache
      holds for it what that store wrote or nothing. */
  lemma {:induction false} CachedIsLastStore(c: Cpu, steps: seq<Step>, i: nat, s: Slot)
    requires Inv(c) && Runs(c, steps)
    requires var t := Run(c, steps); !t.pc.MustFlush? && t.cr3.Some? && s in t.tlb
    requires var k := KeyIn(Run(c, steps).cr3.value, s);
      i < |steps| && Touches(steps[i], k) && forall j :: i < j < |steps| ==> !Touches(steps[j], k)
    ensures steps[i].WritePte? && Run(c, steps).tlb[s] == steps[i].e
  {
    TlbAgreesAlways(c, steps);
    LastStoreStands(c, steps, i, KeyIn(Run(c, steps).cr3.value, s));
  }

  /** A load of cr3 loads curenv's directory, and the kernel's if there is no curenv, with an empty
      cache: an environment the kernel returns to runs on its own page tables. */
  lemma LoadsCurenv(c: Cpu)
    requires Inv(c) && Enabled(c, LoadCr3)
    ensures var t := Apply(c, LoadCr3);
      t.cr3 == c.cur == t.cur && t.tlb == map[] && t.pc == Ready && t.maps == c.maps && t.roots == c.roots
  {
    assert CurenvOk(c.roots, c.cr3, c.cur, c.pc);
  }

  /** The loaded directory changes at a load of cr3, at the start of load_icode, and at the start of
      env_free of curenv's own directory: freeing another environment leaves curenv on its tables. */
  lemma LoadedChanges(c: Cpu, step: Step)
    requires Inv(c) && Enabled(c, step) && Apply(c, step).cr3 != c.cr3
    ensures match step
      case LoadCr3 => Apply(c, step).cr3 == c.cur
      case BeginLoad(dir) => Apply(c, step).cr3 == Some(dir) && c.cur == None
      case BeginFree(dir) => Apply(c, step).cr3 == None && c.cur == Some(dir)
      case _ => false
  {
    assert CurenvOk(c.roots, c.cr3, c.cur, c.pc);
  }

  /** curenv changes at env_run and sched_halt, and when it is itself freed. */
  lemma CurenvChanges(c: Cpu, step: Step)
    requires Enabled(c, step) && Apply(c, step).cur != c.cur
    ensures match step
      case SetCurenv(dir) => Apply(c, step).cur == Some(dir) && Apply(c, step).pc == Switching(dir)
      case ClearCurenv => Apply(c, step).cur == None && Apply(c, step).pc == Halting
      case EndFree => Apply(c, step).cur == None && c.cur == Some(c.pc.dir)
      case _ => false
  {
  }

  /** A directory is there from its allocation to its env_free, which leaves nothing mapped in it. */
  lemma {:induction false} RootsChange(c: Cpu, step: Step, dir: nat)
    requires Inv(c) && Enabled(c, step)
    ensures dir in Apply(c, step).roots <==>
      (dir in c.roots || step == NewRoot(dir)) && !(step == EndFree && c.pc == Freeing(dir))
    ensures dir !in Apply(c, step).roots ==> forall k :: k in Apply(c, step).maps ==> k.dir != dir
  {
    StepKeepsInv(c, step);
  }

  // ---- what each operation of the kernel and the hardware comes to ----

  lemma RunOfOne(c: Cpu, a: Step)
    requires Enabled(c, a)
    ensures Runs(c, [a]) && Run(c, [a]) == Apply(c, a)
  {
    assert [a][1..] == [];
    assert Runs(Apply(c, a), []);
  }

  lemma {:induction false} RunOfTwo(c: Cpu, a: Step, b: Step)
    requires Enabled(c, a) && Enabled(Apply(c, a), b)
    ensures Runs(c, [a, b]) && Run(c, [a, b]) == Apply(Apply(c, a), b)
  {
    assert [a, b][1..] == [b];
    RunOfOne(Apply(c, a), b);
  }

  /** page_remove, wherever the kernel calls it: the entry is gone, no other entry changes, and the
      cache of the loaded directory has it no longer. */
  lemma Removes(c: Cpu, k: PteKey)
    requires Inv(c) && k in c.maps && (c.pc.Ready? || c.pc.Loading? || c.pc == Freeing(k.dir))
    ensures Runs(c, [ClearPte(k), Invalidate])
    ensures var t := Run(c, [ClearPte(k), Invalidate]);
      && t.maps == c.maps - {k} && t.(maps := c.maps, tlb := c.tlb) == c
      && (c.cr3 == Some(k.dir) ==> Slot(k.pdx, k.ptx) !in t.tlb)
  {
    assert CurenvOk(c.roots, c.cr3, c.cur, c.pc);
    RunOfTwo(c, ClearPte(k), Invalidate);
  }

  /** env_run: curenv, on its own tables, with nothing cached. */
  lemma Switches(c: Cpu, dir: nat)
    requires c.pc.Ready? && dir in c.roots
    ensures Runs(c, [SetCurenv(dir), LoadCr3])
    ensures Run(c, [SetCurenv(dir), LoadCr3]) == c.(cur := Some(dir), cr3 := Some(dir), tlb := map[])
  {
    RunOfTwo(c, SetCurenv(dir), LoadCr3);
  }

  /** sched_halt: nobody, on the kernel's tables. */
  lemma Halts(c: Cpu)
    requires c.pc.Ready?
    ensures Runs(c, [ClearCurenv, LoadCr3])
    ensures Run(c, [ClearCurenv, LoadCr3]) == c.(cur := None, cr3 := None, tlb := map[])
  {
    RunOfTwo(c, ClearCurenv, LoadCr3);
  }

  /** load_icode, from the kernel's tables and back, with one page inserted on the way. */
  lemma {:induction false} Loads(c: Cpu, dir: nat, k: PteKey, e: Pte)
    requires c.pc.Ready? && c.cur == None && dir in c.roots && k !in c.maps && k.dir in c.roots
    ensures Enabled(c, BeginLoad(dir)) && Apply(c, BeginLoad(dir)).cr3 == Some(dir)
    ensures Apply(c, BeginLoad(dir)).tlb == map[]
    ensures var t := Apply(c, BeginLoad(dir));
      && Runs(t, [WritePte(k, e), LoadCr3])
      && Run(t, [WritePte(k, e), LoadCr3]) == c.(maps := c.maps[k := e], cr3 := None, tlb := map[])
  {
    RunOfTwo(Apply(c, BeginLoad(dir)), WritePte(k, e), LoadCr3);
  }

  /** env_alloc and env_free of an environment with nothing mapped: its directory comes and goes; the
      CPU leaves the tables of curenv, and curenv itself, only if it is the one freed. */
  lemma Comes(c: Cpu, dir: nat)
    requires c.pc.Ready? && dir !in c.roots
    ensures Enabled(c, NewRoot(dir)) && Apply(c, NewRoot(dir)) == c.(roots := c.roots + {dir})
  {
  }

  lemma Goes(c: Cpu, dir: nat)
    requires c.pc.Ready? && dir in c.roots && forall k :: k in c.maps ==> k.dir != dir
    ensures Runs(c, [BeginFree(dir), EndFree])
    ensures Run(c, [BeginFree(dir), EndFree]) ==
      if c.cur == Some(dir) then c.(roots := c.roots - {dir}, cur := None, cr3 := None, tlb := map[])
      else c.(roots := c.roots - {dir})
  {
    RunOfTwo(c, BeginFree(dir), EndFree);
  }

  /** The hardware may cache any present entry of the loaded directory, or drop what it cached. */
  lemma Caches(c: Cpu, s: Slot)
    requires c.cr3.Some? && KeyIn(c.cr3.value, s) in c.maps
    ensures Runs(c, [Fill(s), Evict(s)])
    ensures Apply(c, Fill(s)) == c.(tlb := c.tlb[s := c.maps[PteKey(c.cr3.value, s.pdx, s.ptx)]])
    ensures Run(c, [Fill(s), Evict(s)]) == c.(tlb := c.tlb - {s})
  {
    RunOfTwo(c, Fill(s), Evict(s));
    assert c.tlb[s := c.maps[KeyIn(c.cr3.value, s)]] - {s} == c.tlb - {s};
  }
}
