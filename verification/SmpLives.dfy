/** What becomes of an environment, and of a CPU in the kernel, over runs of the machine of Smp:
    TP2-sched/kern/trap.c, env.c, syscall.c and sched.c. */
module SmpLives {
  import opened Common
  import opened Smp

  // ---- the life of an environment ----

  predicate ByItself(m: Machine, step: Step, e: nat)
    requires step.c < |m.cpus|
  {
    m.cpus[step.c].cur == Some(e)
  }

  predicate Does(step: Step, a: Action) { step.Act? && step.a == a }

  /** The only ways a status changes. */
  predicate MayBecome(m: Machine, step: Step, e: nat, to: Status)
    requires step.c < |m.cpus| && e < |m.envs|
  {
    match m.envs[e].status
    case FREE => to.NOT_RUNNABLE? && Does(step, Exofork(e))
    case DYING => to.FREE? && step.Reap? && ByItself(m, step, e)
    case NOT_RUNNABLE =>
      || (to.RUNNABLE? && (Does(step, SetStatus(e, RUNNABLE)) || (Does(step, IpcSend(e)) && m.envs[e].recving)))
      || (to.FREE? && Does(step, Destroy(e)))
    case RUNNABLE =>
      || (to.RUNNING? && step.Resumed? && m.cpus[step.c].at == RunEnv(e))
      || (to.NOT_RUNNABLE? && Does(step, SetStatus(e, NOT_RUNNABLE)))
      || (to.FREE? && Does(step, Destroy(e)))
    case RUNNING =>
      || (to.DYING? && Does(step, Destroy(e)) && !ByItself(m, step, e))
      || (to.FREE? && ByItself(m, step, e) && Does(step, Destroy(e)))
      || (to.NOT_RUNNABLE? && ByItself(m, step, e) && (Does(step, IpcRecv) || Does(step, SetStatus(e, NOT_RUNNABLE))))
      || (to.RUNNABLE? && ByItself(m, step, e) && (Does(step, SetStatus(e, RUNNABLE)) || Does(step, IpcSend(e))))
      || (to.RUNNABLE? && ByItself(m, step, e) && step.Resumed? && m.cpus[step.c].at != RunEnv(e))
  }

  lemma OnlyTheseActs(m: Machine, c: nat, a: Action, e: nat)
    requires Inv(m) && Enabled(m, Act(c, a)) && Harmless(m, c, a) && e < |m.envs|
    ensures |Next(m, Act(c, a)).envs| == |m.envs|
    ensures var to := Next(m, Act(c, a)).envs[e].status;
      to != m.envs[e].status ==> MayBecome(m, Act(c, a), e, to)
  {
    assert CpuOk(m.envs, c, m.cpus[c]);
    hide CpuOk, Inv;
  }

  lemma OnlyTheseMoves(m: Machine, step: Step, e: nat)
    requires Inv(m) && Enabled(m, step) && !step.Act? && e < |m.envs|
    ensures |Next(m, step).envs| == |m.envs|
    ensures var to := Next(m, step).envs[e].status; to != m.envs[e].status ==> MayBecome(m, step, e, to)
  {
    assert CpuOk(m.envs, step.c, m.cpus[step.c]);
    hide Inv, Effect, Possible;
  }

  /** Every change of a status in a permitted step is one of these. */
  lemma OnlyThese(m: Machine, step: Step, e: nat)
    requires Inv(m) && Enabled(m, step) && Allowed(m, step) && e < |m.envs|
    ensures |Next(m, step).envs| == |m.envs|
    ensures var to := Next(m, step).envs[e].status; to != m.envs[e].status ==> MayBecome(m, step, e, to)
  {
    hide Inv, Next, Harmless, MayBecome, Enabled;
    if step.Act? {
      OnlyTheseActs(m, step.c, step.a, e);
    } else {
      OnlyTheseMoves(m, step, e);
    }
  }

  /** And these steps do change it so; nobody else's status changes. */
  lemma TheseDo(m: Machine, c: nat, a: Action, e: nat)
    requires Inv(m) && Enabled(m, Act(c, a)) && e < |m.envs|
    ensures var s, t, cur := m.envs[e], Next(m, Act(c, a)).envs[e], m.cpus[c].cur;
      match a
      case Exofork(f) => if f == e then t.status == NOT_RUNNABLE && !t.recving else t == s
      case SetStatus(f, to) => t == if f == e then s.(status := to) else s
      case Destroy(f) =>
        t == if f != e then s
             else if s.status == RUNNING && cur != Some(e) then s.(status := DYING) else s.(status := FREE)
      case IpcRecv => t == if cur == Some(e) then s.(status := NOT_RUNNABLE, recving := true) else s
      case IpcRecvFails => t == if cur == Some(e) then s.(recving := true) else s
      case IpcSend(f) => t == if f == e then s.(status := RUNNABLE, recving := false) else s
      case _ => t == s
  {
  }

  predicate NoFork(steps: seq<Step>, e: nat)
  {
    forall i :: 0 <= i < |steps| ==> !Does(steps[i], Exofork(e))
  }

  predicate NoSetStatus(steps: seq<Step>, e: nat)
  {
    forall i :: 0 <= i < |steps| ==> !(steps[i].Act? && steps[i].a.SetStatus? && steps[i].a.e == e)
  }

  /** A free slot stays free until it is given to a new child. */
  lemma {:induction false} FreeStaysFree(m: Machine, steps: seq<Step>, e: nat)
    requires Inv(m) && Runs(m, steps) && NoFork(steps, e) && e < |m.envs| && m.envs[e].status.FREE?
    ensures e < |Run(m, steps).envs| && Run(m, steps).envs[e].status.FREE?
    decreases |steps|
  {
    if steps != [] {
      hide Inv, Next, Enabled, Allowed;
      OnlyThese(m, steps[0], e);
      StepPreserves(m, steps[0]);
      FreeStaysFree(Next(m, steps[0]), steps[1..], e);
    }
  }

  /** An environment that has been told to die never does anything else. */
  lemma {:induction false} DyingOnlyDies(m: Machine, steps: seq<Step>, e: nat)
    requires Inv(m) && Runs(m, steps) && NoFork(steps, e) && e < |m.envs| && m.envs[e].status.DYING?
    ensures e < |Run(m, steps).envs| && (Run(m, steps).envs[e].status.DYING? || Run(m, steps).envs[e].status.FREE?)
    decreases |steps|
  {
    if steps != [] {
      hide Inv, Next, Enabled, Allowed;
      OnlyThese(m, steps[0], e);
      StepPreserves(m, steps[0]);
      if Next(m, steps[0]).envs[e].status.FREE? {
        FreeStaysFree(Next(m, steps[0]), steps[1..], e);
      } else {
        DyingOnlyDies(Next(m, steps[0]), steps[1..], e);
      }
    }
  }

  /** After a destruction from another CPU, however the run goes on: the environment is dying or
      free, and free as soon as no CPU has it as curenv, until its slot is given to a child. */
  lemma DestroyedForGood(m: Machine, before: seq<Step>, c: nat, e: nat, steps: seq<Step>)
    requires Boot(m) && Runs(m, before)
    requires var r := Run(m, before);
      && Enabled(r, Act(c, Destroy(e))) && Allowed(r, Act(c, Destroy(e)))
      && Runs(Next(r, Act(c, Destroy(e))), steps) && NoFork(steps, e)
    ensures var t := Run(Next(Run(m, before), Act(c, Destroy(e))), steps);
      && e < |t.envs| && (t.envs[e].status.DYING? || t.envs[e].status.FREE?)
      && ((forall d :: 0 <= d < |t.cpus| ==> t.cpus[d].cur != Some(e)) ==> t.envs[e].status.FREE?)
  {
    BootInv(m);
    RunPreservesInv(m, before);
    hide Inv, Boot, Runs, Run, Next, Enabled, Harmless;
    DestroyedFrom(Run(m, before), c, e, steps);
  }

  lemma DestroyedFrom(r: Machine, c: nat, e: nat, steps: seq<Step>)
    requires Inv(r) && Enabled(r, Act(c, Destroy(e))) && Allowed(r, Act(c, Destroy(e)))
    requires Runs(Next(r, Act(c, Destroy(e))), steps) && NoFork(steps, e)
    ensures var t := Run(Next(r, Act(c, Destroy(e))), steps);
      && e < |t.envs| && (t.envs[e].status.DYING? || t.envs[e].status.FREE?)
      && ((forall d :: 0 <= d < |t.cpus| ==> t.cpus[d].cur != Some(e)) ==> t.envs[e].status.FREE?)
  {
    var n := Next(r, Act(c, Destroy(e)));
    Destroyed(r, c, e);
    hide Inv, Runs, Run, Next, Enabled, Harmless;
    StepPreserves(r, Act(c, Destroy(e)));
    RunPreservesInv(n, steps);
    if n.envs[e].status.FREE? {
      FreeStaysFree(n, steps, e);
    } else {
      DyingOnlyDies(n, steps, e);
    }
    if Run(n, steps).envs[e].status.DYING? {
      OnlyCurrentDies(Run(n, steps), e);
    }
  }

  lemma Destroyed(r: Machine, c: nat, e: nat)
    requires Inv(r) && Enabled(r, Act(c, Destroy(e)))
    ensures e < |r.envs| == |Next(r, Act(c, Destroy(e))).envs|
    ensures var s := Next(r, Act(c, Destroy(e))).envs[e].status; s.FREE? || s.DYING?
  {
    hide Inv;
  }

  lemma OnlyCurrentDies(m: Machine, e: nat)
    requires Inv(m) && e < |m.envs| && m.envs[e].status.DYING?
    ensures exists d :: 0 <= d < |m.cpus| && m.cpus[d].cur == Some(e)
  {
    hide CpuOk;
    var d: nat :| Current(m.cpus, d, e);
    assert m.cpus[d].cur == Some(e);
  }

  /** The trap that finds its environment dying frees it and goes to the scheduler without one;
      the slot is free from then on. */
  lemma ReapedIsFree(m: Machine, before: seq<Step>, c: nat, e: nat, steps: seq<Step>)
    requires Boot(m) && Runs(m, before)
    requires var r := Run(m, before);
      && Enabled(r, Reap(c)) && r.cpus[c].cur == Some(e) && e < |r.envs| && r.envs[e].status.DYING?
      && Runs(Next(r, Reap(c)), steps) && NoFork(steps, e)
    ensures var n := Next(Run(m, before), Reap(c));
      && n.cpus[c].cur.None? && n.cpus[c].at.Yield? && n.lock == Some(c)
      && e < |Run(n, steps).envs| && Run(n, steps).envs[e].status.FREE?
  {
    BootInv(m);
    RunPreservesInv(m, before);
    var r := Run(m, before);
    assert CpuOk(r.envs, c, r.cpus[c]);
    StepPreserves(r, Reap(c));
    FreeStaysFree(Next(r, Reap(c)), steps, e);
  }

  /** The kernel does nothing on behalf of a dying environment. */
  lemma NoWorkForTheDying(m: Machine, before: seq<Step>, c: nat)
    requires Boot(m) && Runs(m, before) && c < |Run(m, before).cpus|
    ensures var r := Run(m, before); var cpu := r.cpus[c];
      cpu.cur.Some? && (cpu.at.Dispatch? || cpu.at.Dispatched? || cpu.at.Yield? || cpu.at.RunEnv?) ==>
        cpu.cur.value < |r.envs| && !r.envs[cpu.cur.value].status.DYING? && !r.envs[cpu.cur.value].status.FREE?
  {
    BootInv(m);
    RunPreservesInv(m, before);
    assert CpuOk(Run(m, before).envs, c, Run(m, before).cpus[c]);
  }

  /** A child made by sys_exofork waits, and no send can wake it, until somebody sets its status. */
  lemma {:induction false} ForkedWaits(m: Machine, steps: seq<Step>, e: nat)
    requires Inv(m) && Runs(m, steps) && NoFork(steps, e) && NoSetStatus(steps, e) && e < |m.envs|
    requires m.envs[e].status.FREE? || (m.envs[e].status.NOT_RUNNABLE? && !m.envs[e].recving)
    ensures e < |Run(m, steps).envs|
    ensures var f := Run(m, steps).envs[e]; f.status.FREE? || (f.status.NOT_RUNNABLE? && !f.recving)
    decreases |steps|
  {
    if steps != [] {
      hide Inv, Next, Enabled, Allowed;
      OnlyThese(m, steps[0], e);
      StepPreserves(m, steps[0]);
      if m.envs[e].status.NOT_RUNNABLE? {
        FlagKept(m, steps[0], e);
      }
      ForkedWaits(Next(m, steps[0]), steps[1..], e);
    }
  }

  /** Only an environment that runs can ask for a message. */
  lemma FlagKept(m: Machine, step: Step, e: nat)
    requires Inv(m) && Enabled(m, step) && e < |m.envs| && m.envs[e].status.NOT_RUNNABLE? && !m.envs[e].recving
    ensures e < |Next(m, step).envs| && !Next(m, step).envs[e].recving
  {
    if step.Act? && m.cpus[step.c].cur.Some? {
      CallerRuns(m, step.c);
    }
    hide Inv;
  }

  /** The environment of a CPU that is about to make a call is running. */
  lemma CallerRuns(m: Machine, c: nat)
    requires Inv(m) && c < |m.cpus| && m.cpus[c].at.Dispatch? && m.cpus[c].cur.Some?
    ensures m.cpus[c].cur.value < |m.envs| && m.envs[m.cpus[c].cur.value].status.RUNNING?
  {
    assert CpuOk(m.envs, c, m.cpus[c]);
  }

  lemma ChildWaits(m: Machine, before: seq<Step>, c: nat, e: nat, steps: seq<Step>)
    requires Boot(m) && Runs(m, before)
    requires var r := Run(m, before);
      && Enabled(r, Act(c, Exofork(e))) && Runs(Next(r, Act(c, Exofork(e))), steps)
      && NoFork(steps, e) && NoSetStatus(steps, e)
    ensures Run(m, before).envs[e].status.FREE?
    ensures var t := Run(Next(Run(m, before), Act(c, Exofork(e))), steps);
      e < |t.envs| && (t.envs[e].status.NOT_RUNNABLE? || t.envs[e].status.FREE?)
  {
    BootInv(m);
    RunPreservesInv(m, before);
    var r := Run(m, before);
    TheseDo(r, c, Exofork(e), e);
    StepPreserves(r, Act(c, Exofork(e)));
    ForkedWaits(Next(r, Act(c, Exofork(e))), steps, e);
  }

  // ---- the way of a CPU through the kernel ----

  /** How far CPU `c` is on its way back to environment `e`: after the call, in env_run, out of the
      lock, in user mode. */
  predicate Returning(m: Machine, c: nat, e: nat, stage: nat)
  {
    && c < |m.cpus| && e < |m.envs|
    && match stage
       case 0 => m.cpus[c].cur == Some(e) && m.cpus[c].at.Dispatched? && m.envs[e].status.RUNNING?
       case 1 => m.cpus[c].at == RunEnv(e)
       case 2 => m.cpus[c].cur == Some(e) && m.cpus[c].at.Leaving?
       case 3 => m.cpus[c].cur == Some(e) && m.cpus[c].at.User?
       case _ => false
  }

  function Own(steps: seq<Step>, c: nat): nat
    decreases |steps|
  {
    if steps == [] then 0 else (if steps[0].c == c then 1 else 0) + Own(steps[1..], c)
  }

  lemma ReturningOwn(m: Machine, step: Step, c: nat, e: nat, stage: nat)
    requires Inv(m) && Enabled(m, step) && Returning(m, c, e, stage) && step.c == c && stage < 3
    ensures Returning(Next(m, step), c, e, stage + 1)
  {
    assert CpuOk(m.envs, c, m.cpus[c]);
    hide Inv;
  }

  /** A CPU outside the kernel moves nobody else, and changes no status. */
  lemma OutsideStep(m: Machine, step: Step, e: nat)
    requires Enabled(m, step) && !InKernel(m.cpus[step.c].at) && e < |m.envs|
    ensures e < |Next(m, step).envs| && Next(m, step).envs[e].status == m.envs[e].status
  {
  }

  lemma OthersPlace(m: Machine, step: Step, c: nat)
    requires Enabled(m, step) && c < |m.cpus| && step.c != c
    ensures |Next(m, step).cpus| == |m.cpus| && Next(m, step).cpus[c] == m.cpus[c]
    ensures |Next(m, step).envs| == |m.envs|
  {
  }

  lemma ReturningOther(m: Machine, step: Step, c: nat, e: nat, stage: nat)
    requires Inv(m) && Enabled(m, step) && Returning(m, c, e, stage) && step.c != c
    ensures Returning(Next(m, step), c, e, stage)
  {
    if stage == 0 {
      assert InKernel(m.cpus[c].at) && !InKernel(m.cpus[step.c].at);
    }
    hide Inv, Next, Enabled, InKernel;
    OthersPlace(m, step, c);
    if stage == 0 {
      OutsideStep(m, step, e);
    }
  }

  /** A call that leaves its environment running returns to it, and an environment that has been
      chosen is run: in every interleaving the CPU's own steps lead there and nowhere else. */
  lemma {:induction false} ReturnsTo(m: Machine, steps: seq<Step>, c: nat, e: nat, stage: nat)
    requires Inv(m) && Runs(m, steps) && Returning(m, c, e, stage) && stage + Own(steps, c) <= 3
    ensures Returning(Run(m, steps), c, e, stage + Own(steps, c))
    decreases |steps|
  {
    hide Inv, Next, Enabled, Harmless, Returning;
    if steps != [] {
      var n := Next(m, steps[0]);
      var own := steps[0].c == c;
      assert Own(steps, c) == (if own then 1 else 0) + Own(steps[1..], c);
      if own {
        ReturningOwn(m, steps[0], c, e, stage);
      } else {
        ReturningOther(m, steps[0], c, e, stage);
      }
      StepPreserves(m, steps[0]);
      ReturnsTo(n, steps[1..], c, e, if own then stage + 1 else stage);
    }
  }

  /** Alone, it leaves everything else as it was and the lock free. */
  lemma ReturnsUnchanged(m: Machine, c: nat, e: nat)
    requires Inv(m) && Returning(m, c, e, 0)
    ensures Runs(m, [Finish(c), Resumed(c), RecordCpu(c)])
    ensures Run(m, [Finish(c), Resumed(c), RecordCpu(c)]) ==
      Machine(m.envs, m.cpus[c := Cpu(Some(e), STARTED, User)], None)
  {
    assert CpuOk(m.envs, c, m.cpus[c]);
    var m1 := Next(m, Finish(c));
    var m2 := Next(m1, Resumed(c));
    var m3 := Next(m2, RecordCpu(c));
    assert m1 == m.(cpus := m.cpus[c := Cpu(Some(e), STARTED, RunEnv(e))]);
    assert m2 == Machine(m.envs, m.cpus[c := Cpu(Some(e), STARTED, Leaving)], None);
    assert m3 == Machine(m.envs, m.cpus[c := Cpu(Some(e), STARTED, User)], None);
    RunOfThree(m, Finish(c), Resumed(c), RecordCpu(c));
  }

  lemma RunOfThree(m: Machine, a: Step, b: Step, d: Step)
    requires Enabled(m, a) && Enabled(Next(m, a), b) && Enabled(Next(Next(m, a), b), d)
    requires !a.Act? && !b.Act? && !d.Act?
    ensures Runs(m, [a, b, d]) && Run(m, [a, b, d]) == Next(Next(Next(m, a), b), d)
  {
    hide Next, Enabled;
    var m1, m2, m3 := Next(m, a), Next(Next(m, a), b), Next(Next(Next(m, a), b), d);
    assert Runs(m3, []) && Run(m3, []) == m3;
    assert [d][1..] == [];
    assert Runs(m2, [d]) && Run(m2, [d]) == m3;
    assert [b, d][1..] == [d];
    assert Runs(m1, [b, d]) && Run(m1, [b, d]) == m3;
    assert [a, b, d][1..] == [b, d];
  }

  /** A trap from user mode with the lock free enters the kernel with it, for the same environment. */
  lemma TrapEnters(m: Machine, c: nat)
    requires Inv(m) && c < |m.cpus| && m.cpus[c].at.User? && m.lock.None?
    ensures var steps := [Trap(c), Exchange(c), Acquire(c)];
      Runs(m, steps) && Run(m, steps) == Machine(m.envs, m.cpus[c := m.cpus[c].(at := ZombieCheck)], Some(c))
  {
    assert CpuOk(m.envs, c, m.cpus[c]);
    var m1 := Next(m, Trap(c));
    var m2 := Next(m1, Exchange(c));
    assert m2.cpus == m.cpus[c := m.cpus[c].(at := SpinUser)];
    assert Next(m2, Acquire(c)) == Machine(m.envs, m.cpus[c := m.cpus[c].(at := ZombieCheck)], Some(c));
    RunOfThree(m, Trap(c), Exchange(c), Acquire(c));
  }

  /** An interrupt at hlt wakes the CPU into the kernel, with the lock and no environment. */
  lemma HaltedWakes(m: Machine, c: nat)
    requires Inv(m) && c < |m.cpus| && m.cpus[c].at.Halted? && m.lock.None?
    ensures var steps := [Trap(c), Exchange(c), Acquire(c)];
      Runs(m, steps) && Run(m, steps) == Machine(m.envs, m.cpus[c := Cpu(None, STARTED, Dispatch)], Some(c))
  {
    assert CpuOk(m.envs, c, m.cpus[c]);
    var m1 := Next(m, Trap(c));
    var m2 := Next(m1, Exchange(c));
    assert m2.cpus == m.cpus[c := Cpu(None, STARTED, SpinHalted(false))];
    assert Next(m2, Acquire(c)) == Machine(m.envs, m.cpus[c := Cpu(None, STARTED, Dispatch)], Some(c));
    RunOfThree(m, Trap(c), Exchange(c), Acquire(c));
  }

  /** A CPU halts, without environment and lock, exactly if some environment can still run or is
      on another CPU; otherwise it stays in the monitor. */
  lemma HaltsOrStays(m: Machine, c: nat)
    requires Inv(m) && Enabled(m, Halt(c))
    ensures Next(m, Halt(c)).envs == m.envs
    ensures var cpu, lock := Next(m, Halt(c)).cpus[c], Next(m, Halt(c)).lock;
      if forall e :: 0 <= e < |m.envs| ==> m.envs[e].status.FREE? || m.envs[e].status.NOT_RUNNABLE?
      then cpu.at.Monitor? && lock == Some(c)
      else cpu == Cpu(None, HALTED, Halted) && lock == None
  {
    HasLock(m, c);
  }

  /** When round robin finds nobody, its curenv goes on if it is still running; otherwise the CPU is
      about to halt. With priorities an environment that last ran elsewhere would not go on, but
      the curenv of a CPU last ran there. */
  lemma NobodyFound(m: Machine, c: nat, priorities: bool)
    requires Inv(m) && Enabled(m, PickNone(c, priorities))
    ensures Next(m, PickNone(c, priorities)).envs == m.envs && Next(m, PickNone(c, priorities)).lock == m.lock
    ensures var cur, t := m.cpus[c].cur, Next(m, PickNone(c, priorities));
      if cur.Some? && cur.value < |m.envs| && m.envs[cur.value].status.RUNNING?
      then t.cpus[c].at == RunEnv(cur.value) else t.cpus[c].at.Halting?
  {
    assert CpuOk(m.envs, c, m.cpus[c]);
  }

  /** A trapped environment that is not dying goes on to its call, and nothing changes. */
  lemma SurvivesCheck(m: Machine, c: nat)
    requires Inv(m) && c < |m.cpus| && m.cpus[c].at.ZombieCheck?
    ensures Enabled(m, Reap(c)) && m.cpus[c].cur.Some? && m.cpus[c].cur.value < |m.envs|
    ensures !m.envs[m.cpus[c].cur.value].status.DYING? ==>
      Next(m, Reap(c)) == m.(cpus := m.cpus[c := m.cpus[c].(at := Dispatch)])
  {
    assert CpuOk(m.envs, c, m.cpus[c]);
  }

  /** Which calls get through: a status may be written, and an environment destroyed, if its slot is in
      use, a child made in any free slot, and a message sent to whoever waits for one; on a CPU
      without an environment there is only the interrupt. */
  lemma CallsPossible(m: Machine, c: nat, a: Action)
    requires Inv(m) && c < |m.cpus| && m.cpus[c].at.Dispatch?
    ensures m.cpus[c].cur == None ==> (Enabled(m, Act(c, a)) <==> a == Timer || a == Nothing)
    ensures m.cpus[c].cur != None ==>
      (Enabled(m, Act(c, a)) <==>
         match a
         case Exofork(e) => e < |m.envs| && m.envs[e].status == FREE
         case SetStatus(e, to) => e < |m.envs| && m.envs[e].status != FREE && (to == RUNNABLE || to == NOT_RUNNABLE)
         case Destroy(e) => e < |m.envs| && m.envs[e].status != FREE
         case IpcSend(e) => e < |m.envs| && m.envs[e].status != FREE && m.envs[e].recving
         case _ => true)
  {
    assert CpuOk(m.envs, c, m.cpus[c]);
  }

  /** Where a call leads: to the scheduler, without an environment, if it destroyed its own; to the
      scheduler at a timer interrupt or when it waits for a message; into the environment again
      after a fault handled for it; and otherwise to the end of trap. */
  lemma CallsLead(m: Machine, c: nat, a: Action)
    requires Inv(m) && Enabled(m, Act(c, a))
    ensures var cpu, t := m.cpus[c], Next(m, Act(c, a));
      && t.lock == m.lock == Some(c) && |t.cpus| == |m.cpus|
      && (forall d :: 0 <= d < |m.cpus| && d != c ==> t.cpus[d] == m.cpus[d])
      && t.cpus[c].status == cpu.status
      && if a.Destroy? && cpu.cur == Some(a.e) then t.cpus[c].cur == None && t.cpus[c].at == Yield
         else t.cpus[c].cur == cpu.cur && t.cpus[c].at == match a
           case IpcRecv => Yield
           case Timer => Yield
           case Resume => RunEnv(cpu.cur.value)
           case _ => Dispatched
  {
    HasLock(m, c);
  }

  /** The scheduler finds somebody runnable, or nobody is: round robin gives up exactly then. The
      priority scheduler may pass over environments above its limit. */
  lemma SchedulerDecides(m: Machine, c: nat)
    requires Inv(m) && c < |m.cpus| && m.cpus[c].at.Yield?
    ensures Enabled(m, PickNone(c, false)) <==> !exists e :: Enabled(m, Pick(c, e))
    ensures forall e: nat :: Enabled(m, Pick(c, e)) <==> e < |m.envs| && m.envs[e].status == RUNNABLE
    ensures Enabled(m, PickNone(c, true))
  {
    assert CpuOk(m.envs, c, m.cpus[c]);
    assert forall e: nat :: e < |m.envs| && m.envs[e].status.RUNNABLE? ==> Enabled(m, Pick(c, e));
  }

  lemma PickFacts(m: Machine, c: nat, e: nat)
    requires Inv(m) && Enabled(m, Pick(c, e))
    ensures c < |m.cpus| && e < |m.envs| && m.cpus[c].status.STARTED? && m.cpus[c].at.Yield?
    ensures m.cpus[c].cur.Some? ==> m.cpus[c].cur.value < |m.envs|
    ensures m.envs[e].status.RUNNABLE?
  {
    assert CpuOk(m.envs, c, m.cpus[c]);
  }

  lemma PickedLeaves(m: Machine, c: nat, e: nat)
    requires Enabled(m, Pick(c, e)) && m.cpus[c].status.STARTED?
    requires m.cpus[c].cur.Some? ==> m.cpus[c].cur.value < |m.envs|
    ensures Enabled(Next(m, Pick(c, e)), Resumed(c))
    ensures var t := Next(Next(m, Pick(c, e)), Resumed(c));
      && t.lock == None && |t.envs| == |m.envs|
      && t.cpus == m.cpus[c := Cpu(Some(e), STARTED, Leaving)]
      && t.envs[e] == m.envs[e].(status := RUNNING)
      && forall f :: 0 <= f < |m.envs| && f != e ==>
           t.envs[f] == if m.cpus[c].cur == Some(f) && m.envs[f].status == RUNNING
                        then m.envs[f].(status := RUNNABLE) else m.envs[f]
  {
    var m1 := Next(m, Pick(c, e));
    assert m1 == m.(cpus := m.cpus[c := m.cpus[c].(at := RunEnv(e))]);
    hide Enabled;
    assert Next(m1, Resumed(c)).cpus == m.cpus[c := Cpu(Some(e), STARTED, Leaving)];
  }

  lemma LeavingEnds(m: Machine, c: nat, e: nat)
    requires c < |m.cpus| && e < |m.envs| && m.cpus[c] == Cpu(Some(e), STARTED, Leaving)
    ensures Enabled(m, RecordCpu(c))
    ensures Next(m, RecordCpu(c)) ==
      Machine(m.envs[e := m.envs[e].(cpunum := c)], m.cpus[c := Cpu(Some(e), STARTED, User)], m.lock)
  {
  }

  /** Whoever is picked runs: it is curenv, running on this CPU and recorded there, the old curenv has
      stepped down if it was still running, and the lock is free. */
  lemma PickedRuns(m: Machine, c: nat, e: nat)
    requires Inv(m) && Enabled(m, Pick(c, e))
    ensures Runs(m, [Pick(c, e), Resumed(c), RecordCpu(c)])
    ensures var t := Run(m, [Pick(c, e), Resumed(c), RecordCpu(c)]);
      && t.lock == None && |t.envs| == |m.envs| && c < |m.cpus|
      && t.cpus == m.cpus[c := Cpu(Some(e), STARTED, User)]
      && t.envs[e] == m.envs[e].(status := RUNNING, cpunum := c)
      && forall f :: 0 <= f < |m.envs| && f != e ==>
           t.envs[f] == if m.cpus[c].cur == Some(f) && m.envs[f].status == RUNNING
                        then m.envs[f].(status := RUNNABLE) else m.envs[f]
  {
    PickFacts(m, c, e);
    hide Inv, Runs, Run, Next, Enabled;
    PickedLeaves(m, c, e);
    LeavingEnds(Next(Next(m, Pick(c, e)), Resumed(c)), c, e);
    RunOfThree(m, Pick(c, e), Resumed(c), RecordCpu(c));
  }

  /** A CPU that starts waits for the lock and then goes to the scheduler with it. */
  lemma StartedYields(m: Machine, c: nat)
    requires Inv(m) && c < |m.cpus| && m.cpus[c].at.SpinBoot?
    ensures Enabled(m, Acquire(c)) <==> m.lock == None
    ensures m.lock == None ==>
      Next(m, Acquire(c)) == Machine(m.envs, m.cpus[c := Cpu(None, STARTED, Yield)], Some(c))
  {
    assert CpuOk(m.envs, c, m.cpus[c]);
  }
}
