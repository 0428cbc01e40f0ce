/** Environments on several CPUs under the big kernel lock: trap entry (kern/trap.c), the
    status changes of kern/syscall.c and kern/env.c, and the two ways out of the kernel,
    env_run and sched_halt (kern/sched.c). Any CPU may take its next step at any time. */
module Smp {
  import opened Common

  datatype Env = Env(status: Status, cpunum: int, recving: bool)

  datatype CpuStatus = STARTED | HALTED

  /** Where a CPU is in the path from a trap back to user mode or to a halt. */
  datatype Place =
    | User                          // running curenv's code
    | Halted                        // at hlt, interrupts enabled
    | Trapped(user: bool)           // in trap(), before the exchange of cpu_status
    | SpinHalted(user: bool)        // in the first lock_kernel() of trap()
    | SpinUser                      // in the second lock_kernel() of trap()
    | SpinBoot                      // in the lock_kernel() of mp_main()
    | ZombieCheck                   // lock held, before the ENV_DYING test
    | Dispatch                      // lock held, in trap_dispatch()
    | Dispatched                    // lock held, back from trap_dispatch()
    | Yield                         // lock held, in sched_yield()
    | RunEnv(e: nat)                // lock held, in env_run(e)
    | Halting                       // lock held, in sched_halt()
    | Leaving                       // env_run has released the lock, env_cpunum not yet set
    | Monitor                       // lock held for ever: nothing left to run

  datatype Cpu = Cpu(cur: Option<nat>, status: CpuStatus, at: Place)

  datatype Machine = Machine(envs: seq<Env>, cpus: seq<Cpu>, lock: Option<nat>)

  predicate InKernel(p: Place)
  {
    p.ZombieCheck? || p.Dispatch? || p.Dispatched? || p.Yield? || p.RunEnv? || p.Halting? || p.Monitor?
  }

  predicate OnCpu(s: Status) { s.RUNNING? || s.DYING? }

  /** What trap_dispatch may do to environments on behalf of curenv. */
  datatype Action =
    | Nothing                        // any call that changes no status
    | Exofork(e: nat)                // env_alloc, then ENV_NOT_RUNNABLE
    | SetStatus(e: nat, to: Status)  // sys_env_set_status
    | Destroy(e: nat)                // env_destroy, from sys_env_destroy or a failed check
    | IpcRecv                        // sys_ipc_recv on its successful path
    | IpcRecvFails                   // sys_ipc_recv with a bad address: only the flag is set
    | IpcSend(e: nat)                // sys_ipc_try_send to an environment with the flag set
    | Timer                          // sched_yield from the clock interrupt
    | Resume                         // page_fault_handler's env_run(curenv)

  datatype Step =
    | Trap(c: nat)
    | Exchange(c: nat)
    | Acquire(c: nat)
    | Reap(c: nat)
    | Act(c: nat, a: Action)
    | Finish(c: nat)
    | Pick(c: nat, e: nat)
    | PickNone(c: nat, priorities: bool)  // nobody was found, by the priority scheduler or by round robin
    | Resumed(c: nat)
    | RecordCpu(c: nat)
    | Halt(c: nat)

  // ---- the steps ----

  /** The source permits an action whenever its system call gets that far. */
  predicate Possible(m: Machine, c: nat, a: Action)
    requires c < |m.cpus|
  {
    var cpu := m.cpus[c];
    match a
    case Nothing => true
    case Exofork(e) => cpu.cur.Some? && e < |m.envs| && m.envs[e].status.FREE?
    case SetStatus(e, to) =>
      cpu.cur.Some? && e < |m.envs| && !m.envs[e].status.FREE? && (to.RUNNABLE? || to.NOT_RUNNABLE?)
    case Destroy(e) => cpu.cur.Some? && e < |m.envs| && !m.envs[e].status.FREE?
    case IpcRecv => cpu.cur.Some? && cpu.cur.value < |m.envs|
    case IpcRecvFails => cpu.cur.Some? && cpu.cur.value < |m.envs|
    case IpcSend(e) => cpu.cur.Some? && e < |m.envs| && !m.envs[e].status.FREE? && m.envs[e].recving
    case Timer => true
    case Resume => cpu.cur.Some?
  }

  /** The condition under which an action leaves other CPUs' environments alone: a status is
      overwritten only if the target is curenv or is on no CPU, and an environment that is
      already dying is not destroyed again. */
  predicate Harmless(m: Machine, c: nat, a: Action)
    requires c < |m.cpus|
  {
    match a
    case SetStatus(e, _) => m.cpus[c].cur == Some(e) || (e < |m.envs| && !OnCpu(m.envs[e].status))
    case IpcSend(e) => m.cpus[c].cur == Some(e) || (e < |m.envs| && !OnCpu(m.envs[e].status))
    case Destroy(e) => e < |m.envs| && !m.envs[e].status.DYING?
    case _ => true
  }

  function SetEnv(m: Machine, e: nat, s: Status): Machine
    requires e < |m.envs|
  {
    m.(envs := m.envs[e := m.envs[e].(status := s)])
  }

  function SetRecving(m: Machine, e: nat, recving: bool): Machine
    requires e < |m.envs|
  {
    m.(envs := m.envs[e := m.envs[e].(recving := recving)])
  }

  function SetCpu(m: Machine, c: nat, cpu: Cpu): Machine
    requires c < |m.cpus|
  {
    m.(cpus := m.cpus[c := cpu])
  }

  function Goto(m: Machine, c: nat, p: Place): Machine
    requires c < |m.cpus|
  {
    SetCpu(m, c, m.cpus[c].(at := p))
  }

  function Effect(m: Machine, c: nat, a: Action): Machine
    requires c < |m.cpus| && Possible(m, c, a)
  {
    match a
    case Nothing => Goto(m, c, Dispatched)
    case Exofork(e) => Goto(SetRecving(SetEnv(m, e, NOT_RUNNABLE), e, false), c, Dispatched)
    case SetStatus(e, to) => Goto(SetEnv(m, e, to), c, Dispatched)
    case Destroy(e) =>
      if m.envs[e].status.RUNNING? && m.cpus[c].cur != Some(e) then
        Goto(SetEnv(m, e, DYING), c, Dispatched)
      else if m.cpus[c].cur == Some(e) then
        SetCpu(SetEnv(m, e, FREE), c, m.cpus[c].(cur := None, at := Yield))
      else
        Goto(SetEnv(m, e, FREE), c, Dispatched)
    case IpcRecv =>
      var e := m.cpus[c].cur.value;
      Goto(SetRecving(SetEnv(m, e, NOT_RUNNABLE), e, true), c, Yield)
    case IpcRecvFails => Goto(SetRecving(m, m.cpus[c].cur.value, true), c, Dispatched)
    case IpcSend(e) => Goto(SetRecving(SetEnv(m, e, RUNNABLE), e, false), c, Dispatched)
    case Timer => Goto(m, c, Yield)
    case Resume => Goto(m, c, RunEnv(m.cpus[c].cur.value))
  }

  predicate Enabled(m: Machine, step: Step)
  {
    && step.c < |m.cpus|
    && var cpu := m.cpus[step.c];
       match step
       case Trap(_) => cpu.at.User? || cpu.at.Halted?
       case Exchange(_) => cpu.at.Trapped?
       case Acquire(_) => (cpu.at.SpinHalted? || cpu.at.SpinUser? || cpu.at.SpinBoot?) && m.lock.None?
       case Reap(_) => cpu.at.ZombieCheck? && cpu.cur.Some? && cpu.cur.value < |m.envs|
       case Act(c, a) =>
         // a trap taken at hlt is a timer or a spurious interrupt
         cpu.at.Dispatch? && Possible(m, c, a) && (cpu.cur.None? ==> a.Timer? || a.Nothing?)
       case Finish(_) => cpu.at.Dispatched? && (cpu.cur.Some? ==> cpu.cur.value < |m.envs|)
       case Pick(_, e) => cpu.at.Yield? && e < |m.envs| && m.envs[e].status.RUNNABLE?
       case PickNone(_, priorities) =>
         // round robin finds any runnable environment, the priority scheduler those within the limit
         && cpu.at.Yield? && (cpu.cur.Some? ==> cpu.cur.value < |m.envs|)
         && (!priorities ==> forall e :: 0 <= e < |m.envs| ==> !m.envs[e].status.RUNNABLE?)
       case Resumed(_) => cpu.at.RunEnv? && cpu.at.e < |m.envs| && (cpu.cur.Some? ==> cpu.cur.value < |m.envs|)
       case RecordCpu(_) => cpu.at.Leaving? && cpu.cur.Some? && cpu.cur.value < |m.envs|
       case Halt(_) => cpu.at.Halting?
  }

  predicate SomethingToRun(envs: seq<Env>)
  {
    exists e :: 0 <= e < |envs| && (envs[e].status.RUNNABLE? || OnCpu(envs[e].status))
  }

  function Next(m: Machine, step: Step): Machine
    requires Enabled(m, step)
  {
    var c := step.c;
    var cpu := m.cpus[c];
    match step
    case Trap(_) => Goto(m, c, Trapped(cpu.at.User?))
    case Exchange(_) =>
      SetCpu(m, c, cpu.(status := STARTED,
                        at := if cpu.status.HALTED? then SpinHalted(cpu.at.user)
                              else if cpu.at.user then SpinUser else Dispatch))
    case Acquire(_) =>
      // after the first lock_kernel() a trap from user mode would go on to the second
      Goto(m.(lock := Some(c)), c,
           if cpu.at.SpinBoot? then Yield
           else if cpu.at.SpinUser? then ZombieCheck else if cpu.at.user then SpinUser else Dispatch)
    case Reap(_) =>
      if m.envs[cpu.cur.value].status.DYING?
      then SetCpu(SetEnv(m, cpu.cur.value, FREE), c, cpu.(cur := None, at := Yield))
      else Goto(m, c, Dispatch)
    case Act(_, a) => Effect(m, c, a)
    case Finish(_) =>
      if cpu.cur.Some? && m.envs[cpu.cur.value].status.RUNNING?
      then Goto(m, c, RunEnv(cpu.cur.value)) else Goto(m, c, Yield)
    case Pick(_, e) => Goto(m, c, RunEnv(e))
    case PickNone(_, priorities) =>
      // the priority scheduler compares env_cpunum, round robin does not
      if cpu.cur.Some? && m.envs[cpu.cur.value].status.RUNNING?
         && (!priorities || m.envs[cpu.cur.value].cpunum == c)
      then Goto(m, c, RunEnv(cpu.cur.value)) else Goto(m, c, Halting)
    case Resumed(_) =>
      var e := cpu.at.e;
      var m' := if cpu.cur.Some? && m.envs[cpu.cur.value].status.RUNNING? && cpu.cur.value != e
                then SetEnv(m, cpu.cur.value, RUNNABLE) else m;
      SetCpu(SetEnv(m', e, RUNNING).(lock := None), c, cpu.(cur := Some(e), at := Leaving))
    case RecordCpu(_) =>
      var e := cpu.cur.value;
      Goto(m.(envs := m.envs[e := m.envs[e].(cpunum := c)]), c, User)
    case Halt(_) =>
      if SomethingToRun(m.envs)
      then SetCpu(m.(lock := None), c, Cpu(None, HALTED, Halted))
      else Goto(m, c, Monitor)
  }

  // ---- the invariant ----

  /** What holds of one CPU, given where it is. */
  ghost predicate CpuOk(envs: seq<Env>, c: nat, cpu: Cpu)
  {
    && (cpu.cur.Some? ==> cpu.cur.value < |envs|)
    && match cpu.at
       case User => OnUserSide(envs, c, cpu) && cpu.status.STARTED?
       case Trapped(user) =>
         if user then OnUserSide(envs, c, cpu) && cpu.status.STARTED? else cpu.cur.None? && cpu.status.HALTED?
       case SpinUser => OnUserSide(envs, c, cpu) && cpu.status.STARTED?
       case ZombieCheck => OnUserSide(envs, c, cpu) && cpu.status.STARTED?
       case Leaving => cpu.cur.Some? && OnCpu(envs[cpu.cur.value].status) && cpu.status.STARTED?
       case Halted => cpu.cur.None? && cpu.status.HALTED?
       case SpinHalted(user) => !user && cpu.cur.None? && cpu.status.STARTED?
       case SpinBoot => cpu.cur.None? && cpu.status.STARTED?
       case Dispatch => cpu.status.STARTED? &&
         (cpu.cur.Some? ==> envs[cpu.cur.value].status.RUNNING? && envs[cpu.cur.value].cpunum == c)
       case Dispatched => cpu.status.STARTED? && InKernelOk(envs, c, cpu)
       case Yield => cpu.status.STARTED? && InKernelOk(envs, c, cpu)
       case RunEnv(e) => cpu.status.STARTED? && InKernelOk(envs, c, cpu) && e < |envs|
         && (envs[e].status.RUNNABLE? || (cpu.cur == Some(e) && envs[e].status.RUNNING?))
       // sched_halt is never reached with a running curenv
       case Halting => cpu.status.STARTED? && (cpu.cur.Some? ==> !OnCpu(envs[cpu.cur.value].status))
       case Monitor => true
  }

  /** Between a completed env_run and the zombie test, curenv is on this CPU. */
  ghost predicate OnUserSide(envs: seq<Env>, c: nat, cpu: Cpu)
  {
    cpu.cur.Some? && cpu.cur.value < |envs|
    && OnCpu(envs[cpu.cur.value].status) && envs[cpu.cur.value].cpunum == c
  }

  ghost predicate InKernelOk(envs: seq<Env>, c: nat, cpu: Cpu)
  {
    cpu.cur.Some? ==>
      && cpu.cur.value < |envs|
      && !envs[cpu.cur.value].status.DYING? && !envs[cpu.cur.value].status.FREE?
      && (envs[cpu.cur.value].status.RUNNING? ==> envs[cpu.cur.value].cpunum == c)
  }

  ghost predicate Current(cpus: seq<Cpu>, c: nat, e: nat)
  {
    c < |cpus| && cpus[c].cur == Some(e)
  }

  ghost predicate Inv(m: Machine)
  {
    // the lock is held by exactly the CPU that is inside
    && (m.lock.Some? ==> m.lock.value < |m.cpus|)
    && (forall c :: 0 <= c < |m.cpus| ==> (InKernel(m.cpus[c].at) <==> m.lock == Some(c)))
    && (forall c :: 0 <= c < |m.cpus| ==> CpuOk(m.envs, c, m.cpus[c]))
    // no environment is curenv of two CPUs
    && (forall c, d :: 0 <= c < d < |m.cpus| && m.cpus[c].cur.Some? ==> m.cpus[c].cur != m.cpus[d].cur)
    // an environment marked as running or dying is curenv somewhere
    && (forall e: nat :: e < |m.envs| && OnCpu(m.envs[e].status) ==> exists c: nat :: Current(m.cpus, c, e))
  }

  // ---- preservation ----

  /** A step that moves one CPU and changes no environment. */
  lemma MovePreserves(m: Machine, m': Machine, c: nat)
    requires Inv(m) && c < |m.cpus| && |m'.cpus| == |m.cpus| && m'.envs == m.envs
    requires m'.cpus == m.cpus[c := m'.cpus[c]] && m'.cpus[c].cur == m.cpus[c].cur
    requires CpuOk(m'.envs, c, m'.cpus[c])
    requires InKernel(m'.cpus[c].at) <==> m'.lock == Some(c)
    requires m'.lock == m.lock || (m.lock == None && m'.lock == Some(c)) || (m.lock == Some(c) && m'.lock == None)
    ensures Inv(m')
  {
    forall e: nat | e < |m'.envs| && OnCpu(m'.envs[e].status) ensures exists d: nat :: Current(m'.cpus, d, e) {
      var d: nat :| Current(m.cpus, d, e);
      assert Current(m'.cpus, d, e);
    }
  }

  /** A CPU outside the kernel depends on the record of its own curenv only. */
  lemma OutsideFrame(envs: seq<Env>, envs': seq<Env>, d: nat, cpu: Cpu)
    requires CpuOk(envs, d, cpu) && !InKernel(cpu.at) && |envs| == |envs'|
    requires cpu.cur.Some? ==> SameCpu(envs[cpu.cur.value], envs'[cpu.cur.value])
    ensures CpuOk(envs', d, cpu)
  {
  }

  predicate SameCpu(e: Env, f: Env) { f.status == e.status && f.cpunum == e.cpunum }

  lemma OutsideHasCpu(envs: seq<Env>, d: nat, cpu: Cpu)
    requires CpuOk(envs, d, cpu) && !InKernel(cpu.at) && cpu.cur.Some?
    ensures OnCpu(envs[cpu.cur.value].status)
  {
  }

  /** Nobody is disturbed by a status write of the CPU that is inside to an environment on no CPU, or to
      its own curenv. */
  lemma StatusPreserves(m: Machine, m': Machine, c: nat, e: nat)
    requires Inv(m) && c < |m.cpus| && e < |m.envs| && m.lock == Some(c) == m'.lock
    requires |m'.envs| == |m.envs| && forall f :: 0 <= f < |m.envs| && f != e ==> m'.envs[f] == m.envs[f]
    requires |m'.cpus| == |m.cpus| && forall d :: 0 <= d < |m.cpus| && d != c ==> m'.cpus[d] == m.cpus[d]
    requires m.cpus[c].cur == Some(e) || !OnCpu(m.envs[e].status)
    requires m'.cpus[c].cur == m.cpus[c].cur || (m.cpus[c].cur == Some(e) && m'.cpus[c].cur == None)
    requires !OnCpu(m'.envs[e].status)
    requires CpuOk(m'.envs, c, m'.cpus[c]) && InKernel(m'.cpus[c].at)
    ensures Inv(m')
  {
    hide CpuOk;
    forall d | 0 <= d < |m.cpus| && d != c ensures CpuOk(m'.envs, d, m'.cpus[d]) {
      StatusFrame(m, m', c, e, d);
    }
    forall x: nat | x < |m'.envs| && OnCpu(m'.envs[x].status) ensures exists d: nat :: Current(m'.cpus, d, x) {
      assert x != e;
      var d: nat :| Current(m.cpus, d, x);
      assert Current(m'.cpus, d, x);
    }
  }

  lemma StatusFrame(m: Machine, m': Machine, c: nat, e: nat, d: nat)
    requires Inv(m) && c < |m.cpus| && d < |m.cpus| && d != c && m.lock == Some(c) && e < |m.envs|
    requires |m'.envs| == |m.envs| && forall f :: 0 <= f < |m.envs| && f != e ==> m'.envs[f] == m.envs[f]
    requires m.cpus[c].cur == Some(e) || !OnCpu(m.envs[e].status)
    ensures CpuOk(m'.envs, d, m.cpus[d])
  {
    assert CpuOk(m.envs, d, m.cpus[d]) && !InKernel(m.cpus[d].at);
    if m.cpus[d].cur.Some? {
      OutsideHasCpu(m.envs, d, m.cpus[d]);
      assert m.cpus[d].cur != m.cpus[c].cur;
    }
    hide CpuOk;
    OutsideFrame(m.envs, m'.envs, d, m.cpus[d]);
  }

  /** Nor by a write that changes no status and no CPU number. */
  lemma FlagPreserves(m: Machine, m': Machine, c: nat)
    requires Inv(m) && c < |m.cpus| && m.lock == Some(c) == m'.lock
    requires |m'.envs| == |m.envs| && forall f :: 0 <= f < |m.envs| ==> SameCpu(m.envs[f], m'.envs[f])
    requires |m'.cpus| == |m.cpus| && forall d :: 0 <= d < |m.cpus| && d != c ==> m'.cpus[d] == m.cpus[d]
    requires m'.cpus[c].cur == m.cpus[c].cur && CpuOk(m'.envs, c, m'.cpus[c]) && InKernel(m'.cpus[c].at)
    ensures Inv(m')
  {
    hide CpuOk;
    forall d | 0 <= d < |m.cpus| && d != c ensures CpuOk(m'.envs, d, m'.cpus[d]) {
      assert !InKernel(m.cpus[d].at);
      assert CpuOk(m.envs, d, m.cpus[d]);
      CurInRange(m.envs, d, m.cpus[d]);
      OutsideFrame(m.envs, m'.envs, d, m.cpus[d]);
    }
    forall x: nat | x < |m'.envs| && OnCpu(m'.envs[x].status) ensures exists d: nat :: Current(m'.cpus, d, x) {
      var d: nat :| Current(m.cpus, d, x);
      assert Current(m'.cpus, d, x);
    }
  }

  lemma CurInRange(envs: seq<Env>, d: nat, cpu: Cpu)
    requires CpuOk(envs, d, cpu)
    ensures cpu.cur.Some? ==> cpu.cur.value < |envs|
  {
  }

  /** Marking an environment that runs on another CPU as dying. */
  lemma KillPreserves(m: Machine, c: nat, e: nat)
    requires Inv(m) && c < |m.cpus| && e < |m.envs| && m.cpus[c].at == Dispatch && m.cpus[c].cur != Some(e)
    requires m.envs[e].status.RUNNING?
    ensures Inv(Goto(SetEnv(m, e, DYING), c, Dispatched))
  {
    var m' := Goto(SetEnv(m, e, DYING), c, Dispatched);
    forall d | 0 <= d < |m.cpus| && d != c ensures CpuOk(m'.envs, d, m'.cpus[d]) {
      OthersSurviveKill(m.envs, m'.envs, e, d, m.cpus[d]);
    }
    assert CpuOk(m'.envs, c, m'.cpus[c]);
    hide CpuOk;
    forall x: nat | x < |m'.envs| && OnCpu(m'.envs[x].status) ensures exists d: nat :: Current(m'.cpus, d, x) {
      var d: nat :| Current(m.cpus, d, x);
      assert Current(m'.cpus, d, x);
    }
  }

  /** A CPU outside the kernel does not mind its environment changing from running to dying. */
  lemma OthersSurviveKill(envs: seq<Env>, envs': seq<Env>, e: nat, d: nat, cpu: Cpu)
    requires CpuOk(envs, d, cpu) && !InKernel(cpu.at) && e < |envs|
    requires envs' == envs[e := envs[e].(status := DYING)]
    ensures CpuOk(envs', d, cpu)
  {
  }

  /** The CPU that acts, after a call that leaves the statuses on CPUs alone. */
  lemma ActorOk(m: Machine, c: nat, a: Action)
    requires Inv(m) && Enabled(m, Act(c, a)) && Harmless(m, c, a)
    ensures var m' := Effect(m, c, a); CpuOk(m'.envs, c, m'.cpus[c]) && InKernel(m'.cpus[c].at)
  {
    assert CpuOk(m.envs, c, m.cpus[c]);
  }

  lemma QuietPreserves(m: Machine, c: nat, a: Action)
    requires Inv(m) && Enabled(m, Act(c, a)) && (a.Nothing? || a.Timer? || a.Resume?)
    ensures Inv(Effect(m, c, a))
  {
    ActorOk(m, c, a);
    HasLock(m, c);
    hide CpuOk, Inv;
    MovePreserves(m, Effect(m, c, a), c);
  }

  lemma HasLock(m: Machine, c: nat)
    requires Inv(m) && c < |m.cpus| && InKernel(m.cpus[c].at)
    ensures m.lock == Some(c)
  {
    hide CpuOk;
  }

  lemma IpcPreserves(m: Machine, c: nat, a: Action)
    requires Inv(m) && Enabled(m, Act(c, a)) && Harmless(m, c, a)
    requires a.IpcRecv? || a.IpcRecvFails? || a.IpcSend?
    ensures Inv(Effect(m, c, a))
  {
    ActorOk(m, c, a);
    HasLock(m, c);
    hide CpuOk, Inv;
    match a
    case IpcRecv => StatusPreserves(m, Effect(m, c, a), c, m.cpus[c].cur.value);
    case IpcSend(e) => StatusPreserves(m, Effect(m, c, a), c, e);
    case IpcRecvFails => FlagPreserves(m, Effect(m, c, a), c);
  }

  lemma EnvPreserves(m: Machine, c: nat, a: Action)
    requires Inv(m) && Enabled(m, Act(c, a)) && Harmless(m, c, a)
    requires a.Exofork? || a.SetStatus? || a.Destroy?
    ensures Inv(Effect(m, c, a))
  {
    ActorOk(m, c, a);
    HasLock(m, c);
    hide CpuOk, Inv;
    if a.Destroy? && m.envs[a.e].status.RUNNING? && m.cpus[c].cur != Some(a.e) {
      KillPreserves(m, c, a.e);
    } else {
      StatusPreserves(m, Effect(m, c, a), c, a.e);
    }
  }

  lemma ActPreserves(m: Machine, c: nat, a: Action)
    requires Inv(m) && Enabled(m, Act(c, a)) && Harmless(m, c, a)
    ensures Inv(Effect(m, c, a)) && Effect(m, c, a) == Next(m, Act(c, a))
  {
    hide Inv, Harmless;
    match a
    case Nothing => QuietPreserves(m, c, a);
    case Timer => QuietPreserves(m, c, a);
    case Resume => QuietPreserves(m, c, a);
    case IpcRecv => IpcPreserves(m, c, a);
    case IpcRecvFails => IpcPreserves(m, c, a);
    case IpcSend(_) => IpcPreserves(m, c, a);
    case Exofork(_) => EnvPreserves(m, c, a);
    case SetStatus(_, _) => EnvPreserves(m, c, a);
    case Destroy(_) => EnvPreserves(m, c, a);
  }

  /** The other CPUs during env_run: none has the chosen environment, and none minds. */
  lemma RunOthers(m: Machine, c: nat, d: nat)
    requires Inv(m) && Enabled(m, Resumed(c)) && d < |m.cpus| && d != c
    ensures CpuOk(Next(m, Resumed(c)).envs, d, m.cpus[d])
    ensures m.cpus[d].cur != Some(m.cpus[c].at.e)
  {
    var m' := Next(m, Resumed(c));
    assert CpuOk(m.envs, c, m.cpus[c]) && CpuOk(m.envs, d, m.cpus[d]);
    assert !InKernel(m.cpus[d].at);
    assert m.cpus[d].cur.Some? ==> m.cpus[d].cur != m.cpus[c].cur;
    if m.cpus[d].cur.Some? {
      OutsideHasCpu(m.envs, d, m.cpus[d]);
    }
    OutsideFrame(m.envs, m'.envs, d, m.cpus[d]);
  }

  lemma RunnerOk(m: Machine, c: nat)
    requires Inv(m) && Enabled(m, Resumed(c))
    ensures CpuOk(Next(m, Resumed(c)).envs, c, Next(m, Resumed(c)).cpus[c])
  {
    assert CpuOk(m.envs, c, m.cpus[c]);
  }

  lemma RunCovers(m: Machine, c: nat, x: nat)
    requires Inv(m) && Enabled(m, Resumed(c))
    requires x < |m.envs| && OnCpu(Next(m, Resumed(c)).envs[x].status)
    ensures exists d: nat :: Current(Next(m, Resumed(c)).cpus, d, x)
  {
    assert CpuOk(m.envs, c, m.cpus[c]);
    assert m.cpus[c].cur.Some? ==> !m.envs[m.cpus[c].cur.value].status.DYING?;
    hide CpuOk;
    var m' := Next(m, Resumed(c));
    if x == m.cpus[c].at.e {
      assert Current(m'.cpus, c, x);
    } else {
      var d: nat :| Current(m.cpus, d, x);
      assert Current(m'.cpus, d, x);
    }
  }

  /** env_run: the old curenv goes back to runnable, the chosen one becomes curenv. */
  lemma RunPreserves(m: Machine, c: nat)
    requires Inv(m) && Enabled(m, Resumed(c))
    ensures Inv(Next(m, Resumed(c)))
  {
    hide CpuOk, OnCpu;
    var m' := Next(m, Resumed(c));
    RunnerOk(m, c);
    HasLock(m, c);
    forall d | 0 <= d < |m.cpus| && d != c
      ensures CpuOk(m'.envs, d, m'.cpus[d]) && m'.cpus[d].cur != m'.cpus[c].cur
    {
      RunOthers(m, c, d);
    }
    forall x: nat | x < |m'.envs| && OnCpu(m'.envs[x].status) ensures exists d: nat :: Current(m'.cpus, d, x) {
      RunCovers(m, c, x);
    }
  }

  lemma HaltPreserves(m: Machine, c: nat)
    requires Inv(m) && Enabled(m, Halt(c))
    ensures Inv(Next(m, Halt(c)))
  {
    var m' := Next(m, Halt(c));
    assert CpuOk(m.envs, c, m.cpus[c]);
    assert CpuOk(m'.envs, c, m'.cpus[c]);
    HasLock(m, c);
    assert m.cpus[c].cur.Some? ==> !OnCpu(m.envs[m.cpus[c].cur.value].status);
    hide CpuOk;
    if SomethingToRun(m.envs) {
      forall x: nat | x < |m'.envs| && OnCpu(m'.envs[x].status) ensures exists d: nat :: Current(m'.cpus, d, x) {
        var d: nat :| Current(m.cpus, d, x);
        assert d != c;
        assert Current(m'.cpus, d, x);
      }
    } else {
      MovePreserves(m, m', c);
    }
  }

  lemma RecordPreserves(m: Machine, c: nat)
    requires Inv(m) && Enabled(m, RecordCpu(c))
    ensures Inv(Next(m, RecordCpu(c)))
  {
    var m' := Next(m, RecordCpu(c));
    assert CpuOk(m.envs, c, m.cpus[c]) && CpuOk(m'.envs, c, m'.cpus[c]);
    hide CpuOk;
    forall d | 0 <= d < |m.cpus| && d != c ensures CpuOk(m'.envs, d, m'.cpus[d]) {
      RecordFrame(m, c, d);
    }
    forall x: nat | x < |m'.envs| && OnCpu(m'.envs[x].status) ensures exists d: nat :: Current(m'.cpus, d, x) {
      var d: nat :| Current(m.cpus, d, x);
      assert Current(m'.cpus, d, x);
    }
  }

  /** Inside the kernel only curenv's CPU number matters, and no two CPUs share a curenv. */
  lemma RecordFrame(m: Machine, c: nat, d: nat)
    requires Inv(m) && Enabled(m, RecordCpu(c)) && d < |m.cpus| && d != c
    ensures CpuOk(Next(m, RecordCpu(c)).envs, d, m.cpus[d])
  {
    assert CpuOk(m.envs, d, m.cpus[d]);
    assert m.cpus[d].cur.Some? ==> m.cpus[d].cur != m.cpus[c].cur;
  }

  predicate Allowed(m: Machine, step: Step)
    requires Enabled(m, step)
  {
    step.Act? ==> Harmless(m, step.c, step.a)
  }

  lemma EnterPreserves(m: Machine, step: Step)
    requires Inv(m) && Enabled(m, step) && (step.Trap? || step.Exchange? || step.Acquire?)
    ensures Inv(Next(m, step))
  {
    var m', c := Next(m, step), step.c;
    assert CpuOk(m.envs, c, m.cpus[c]);
    assert CpuOk(m'.envs, c, m'.cpus[c]);
    hide CpuOk;
    MovePreserves(m, m', c);
  }

  lemma ReapPreserves(m: Machine, c: nat)
    requires Inv(m) && Enabled(m, Reap(c))
    ensures Inv(Next(m, Reap(c)))
  {
    var m' := Next(m, Reap(c));
    assert CpuOk(m.envs, c, m.cpus[c]);
    assert CpuOk(m'.envs, c, m'.cpus[c]);
    HasLock(m, c);
    hide CpuOk, Inv;
    if m.envs[m.cpus[c].cur.value].status.DYING? {
      StatusPreserves(m, m', c, m.cpus[c].cur.value);
    } else {
      MovePreserves(m, m', c);
    }
  }

  lemma LeavePreserves(m: Machine, step: Step)
    requires Inv(m) && Enabled(m, step) && (step.Finish? || step.Pick? || step.PickNone?)
    ensures Inv(Next(m, step))
  {
    var m', c := Next(m, step), step.c;
    assert CpuOk(m.envs, c, m.cpus[c]);
    assert CpuOk(m'.envs, c, m'.cpus[c]);
    HasLock(m, c);
    hide CpuOk, Inv;
    MovePreserves(m, m', c);
  }

  lemma StepPreserves(m: Machine, step: Step)
    requires Inv(m) && Enabled(m, step) && Allowed(m, step)
    ensures Inv(Next(m, step))
  {
    hide Inv, Next, Enabled, Harmless, Effect;
    match step
    case Trap(_) => EnterPreserves(m, step);
    case Exchange(_) => EnterPreserves(m, step);
    case Acquire(_) => EnterPreserves(m, step);
    case Reap(c) => ReapPreserves(m, c);
    case Act(c, a) => ActPreserves(m, c, a);
    case Finish(_) => LeavePreserves(m, step);
    case Pick(_, _) => LeavePreserves(m, step);
    case PickNone(_, _) => LeavePreserves(m, step);
    case Resumed(c) => RunPreserves(m, c);
    case RecordCpu(c) => RecordPreserves(m, c);
    case Halt(c) => HaltPreserves(m, c);
  }

  // ---- whole runs ----

  predicate Runs(m: Machine, steps: seq<Step>)
    decreases |steps|
  {
    steps == [] || (Enabled(m, steps[0]) && Allowed(m, steps[0]) && Runs(Next(m, steps[0]), steps[1..]))
  }

  function Run(m: Machine, steps: seq<Step>): Machine
    requires Runs(m, steps)
    decreases |steps|
  {
    if steps == [] then m else Run(Next(m, steps[0]), steps[1..])
  }

  /** Boot: nothing runs yet; the boot CPU is in sched_yield with the lock, and the others, which
      have told it that they are up, wait for the lock in mp_main. */
  predicate Boot(m: Machine)
  {
    && |m.cpus| > 0 && m.lock == Some(0) && m.cpus[0] == Cpu(None, STARTED, Yield)
    && (forall c :: 1 <= c < |m.cpus| ==> m.cpus[c] == Cpu(None, STARTED, SpinBoot))
    && (forall e :: 0 <= e < |m.envs| ==> !OnCpu(m.envs[e].status))
  }

  lemma BootInv(m: Machine)
    requires Boot(m)
    ensures Inv(m)
  {
  }

  lemma {:induction false} RunPreservesInv(m: Machine, steps: seq<Step>)
    requires Inv(m) && Runs(m, steps)
    ensures Inv(Run(m, steps))
    decreases |steps|
  {
    if steps != [] {
      StepPreserves(m, steps[0]);
      RunPreservesInv(Next(m, steps[0]), steps[1..]);
    }
  }

  ghost function CpusOf(m: Machine, e: nat): set<nat>
  {
    set c: nat | c < |m.cpus| && m.cpus[c].cur == Some(e)
  }

  lemma OnSomeCpu(m: Machine, e: nat)
    requires Inv(m) && e < |m.envs| && OnCpu(m.envs[e].status)
    ensures |CpusOf(m, e)| == 1
  {
    hide CpuOk;
    var c: nat :| Current(m.cpus, c, e);
    forall d: nat | d < |m.cpus| && m.cpus[d].cur == Some(e) ensures d == c {
    }
    assert CpusOf(m, e) == {c};
  }

  lemma OutsideIsOnCpu(m: Machine, c: nat)
    requires Inv(m) && m.lock.None? && c < |m.cpus| && m.cpus[c].cur.Some?
    ensures m.cpus[c].cur.value < |m.envs| && OnCpu(m.envs[m.cpus[c].cur.value].status)
  {
    assert CpuOk(m.envs, c, m.cpus[c]) && !InKernel(m.cpus[c].at);
  }

  /** In every reachable state in which no CPU is inside the kernel, an environment is running
      or dying exactly when it is curenv of exactly one CPU. */
  lemma OneCpuPerEnv(m: Machine, steps: seq<Step>, e: nat)
    requires Boot(m) && Runs(m, steps)
    ensures var r := Run(m, steps);
      e < |r.envs| && r.lock.None? ==> (OnCpu(r.envs[e].status) <==> |CpusOf(r, e)| == 1)
  {
    BootInv(m);
    hide Inv;
    RunPreservesInv(m, steps);
    var r := Run(m, steps);
    if e < |r.envs| && r.lock.None? {
      if OnCpu(r.envs[e].status) {
        OnSomeCpu(r, e);
      } else if |CpusOf(r, e)| == 1 {
        var c :| c in CpusOf(r, e);
        OutsideIsOnCpu(r, c);
      }
    }
  }

  /** At most one CPU is inside; a CPU spinning for the lock does not hold it already; a trap
      from user mode spins only in the second lock_kernel(), with a curenv; one from hlt only
      in the first; and sched_halt is never entered with a curenv that is running. */
  ghost predicate Disciplined(m: Machine, c: nat, d: nat)
    requires c < |m.cpus| && d < |m.cpus|
  {
    var cpu := m.cpus[c];
    && (InKernel(cpu.at) && InKernel(m.cpus[d].at) ==> c == d)
    && (cpu.at.SpinUser? || cpu.at.SpinHalted? || cpu.at.SpinBoot? ==> m.lock != Some(c))
    && (cpu.at.SpinUser? ==> cpu.cur.Some?)
    && (cpu.at.SpinHalted? ==> !cpu.at.user && cpu.cur.None?)
    && (cpu.at.SpinBoot? ==> cpu.cur.None?)
    && (cpu.at.Halting? && cpu.cur.Some? ==> cpu.cur.value < |m.envs| && !m.envs[cpu.cur.value].status.RUNNING?)
  }

  /** Mutual exclusion and the lock discipline of trap(), in every reachable state. */
  lemma LockDiscipline(m: Machine, steps: seq<Step>, c: nat, d: nat)
    requires Boot(m) && Runs(m, steps)
    requires c < |Run(m, steps).cpus| && d < |Run(m, steps).cpus|
    ensures Disciplined(Run(m, steps), c, d)
  {
    BootInv(m);
    RunPreservesInv(m, steps);
    var r := Run(m, steps);
    assert CpuOk(r.envs, c, r.cpus[c]);
    assert InKernel(r.cpus[c].at) <==> r.lock == Some(c);
    assert InKernel(r.cpus[d].at) <==> r.lock == Some(d);
  }

  // ---- the excluded transitions are exactly the harmful ones ----

  /** A status write or a destruction keeps the invariant if and only if it is harmless, so
      the exclusion in `Allowed` cannot be relaxed. */
  lemma HarmlessIsExact(m: Machine, c: nat, a: Action)
    requires Inv(m) && Enabled(m, Act(c, a))
    ensures Inv(Effect(m, c, a)) <==> Harmless(m, c, a)
  {
    if Harmless(m, c, a) {
      ActPreserves(m, c, a);
    } else {
      var e := a.e;
      assert OnCpu(m.envs[e].status);
      var d: nat :| Current(m.cpus, d, e);
      var m' := Effect(m, c, a);
      assert d != c && !InKernel(m.cpus[d].at);
      assert m'.cpus[d] == m.cpus[d];
      assert !CpuOk(m'.envs, d, m'.cpus[d]);
    }
  }

  // ---- sends ----

  /** Whoever waits for a message is blocked, or gone. */
  ghost predicate Blocked(m: Machine)
  {
    forall e :: 0 <= e < |m.envs| && m.envs[e].recving ==> m.envs[e].status.NOT_RUNNABLE? || m.envs[e].status.FREE?
  }

  /** Steps that keep it so: no receive fails, and no parent makes a waiting child runnable. */
  predicate Orderly(m: Machine, step: Step)
  {
    step.Act? ==>
      && !step.a.IpcRecvFails?
      && (step.a.SetStatus? && step.a.e < |m.envs| && step.a.to.RUNNABLE? ==> !m.envs[step.a.e].recving)
  }

  predicate OrderlyRun(m: Machine, steps: seq<Step>)
    requires Runs(m, steps)
    decreases |steps|
  {
    steps == [] || (Orderly(m, steps[0]) && OrderlyRun(Next(m, steps[0]), steps[1..]))
  }

  lemma BlockedAct(m: Machine, c: nat, a: Action)
    requires Enabled(m, Act(c, a)) && Orderly(m, Act(c, a)) && Blocked(m)
    ensures Blocked(Next(m, Act(c, a)))
  {
  }

  lemma BlockedKept(m: Machine, step: Step)
    requires Inv(m) && Enabled(m, step) && Orderly(m, step) && Blocked(m)
    ensures Blocked(Next(m, step))
  {
    assert CpuOk(m.envs, step.c, m.cpus[step.c]);
    hide Inv, Effect;
    if step.Act? {
      BlockedAct(m, step.c, step.a);
    }
  }

  lemma {:induction false} BlockedRun(m: Machine, steps: seq<Step>)
    requires Inv(m) && Blocked(m) && Runs(m, steps) && OrderlyRun(m, steps)
    ensures Blocked(Run(m, steps))
    decreases |steps|
  {
    if steps != [] {
      hide Inv, Blocked, Next, Enabled, Allowed, Orderly;
      StepPreserves(m, steps[0]);
      BlockedKept(m, steps[0]);
      BlockedRun(Next(m, steps[0]), steps[1..]);
    }
  }

  /** In orderly runs no send reaches an environment on a CPU, so sends need not be excluded. */
  lemma SendsAreHarmless(m: Machine, steps: seq<Step>, c: nat, e: nat)
    requires Boot(m) && Blocked(m) && Runs(m, steps) && OrderlyRun(m, steps)
    ensures Enabled(Run(m, steps), Act(c, IpcSend(e))) ==> Harmless(Run(m, steps), c, IpcSend(e))
  {
    BootInv(m);
    BlockedRun(m, steps);
  }
}
