/** The big kernel lock one memory access at a time (TP2-sched/kern/spinlock.c): any number of
    CPUs interleave the two reads of holding(), the atomic xchg and the writes of the owner
    field. */
module Spinlock {
  import opened Common

  /** What a CPU does next. `Rest` is outside both functions; a panic is final. */
  datatype Phase =
    | Rest
    | LockReadsLocked | LockReadsCpu | Xchg | RecordsCpu
    | UnlockReadsLocked | UnlockReadsCpu | ClearsCpu | Releases
    | Panicked

  /** `inside` is history: the CPU's xchg found the lock free and it has not let go since. */
  datatype Cpu = Cpu(phase: Phase, inside: bool)

  /** lock->locked, lock->cpu (0 is None) and the CPUs. */
  datatype State = State(locked: bool, owner: Option<nat>, cpus: seq<Cpu>)

  datatype Step = CallLock(c: nat) | CallUnlock(c: nat) | Continue(c: nat)

  predicate Enabled(s: State, step: Step)
  {
    && step.c < |s.cpus|
    && match step
       case CallLock(c) => s.cpus[c].phase == Rest
       case CallUnlock(c) => s.cpus[c].phase == Rest
       case Continue(c) => s.cpus[c].phase != Rest && s.cpus[c].phase != Panicked
  }

  function Goto(s: State, c: nat, phase: Phase): State
    requires c < |s.cpus|
  {
    s.(cpus := s.cpus[c := s.cpus[c].(phase := phase)])
  }

  function Next(s: State, step: Step): State
    requires Enabled(s, step)
  {
    var c := step.c;
    match step
    case CallLock(_) => Goto(s, c, LockReadsLocked)
    case CallUnlock(_) => Goto(s, c, UnlockReadsLocked)
    case Continue(_) =>
      match s.cpus[c].phase
      case LockReadsLocked => Goto(s, c, if s.locked then LockReadsCpu else Xchg)
      case LockReadsCpu => Goto(s, c, if s.owner == Some(c) then Panicked else Xchg)
      case Xchg =>
        if s.locked then s
        else s.(locked := true, cpus := s.cpus[c := Cpu(RecordsCpu, true)])
      case RecordsCpu => Goto(s, c, Rest).(owner := Some(c))
      case UnlockReadsLocked => Goto(s, c, if s.locked then UnlockReadsCpu else Panicked)
      case UnlockReadsCpu => Goto(s, c, if s.owner == Some(c) then ClearsCpu else Panicked)
      case ClearsCpu => Goto(s, c, Releases).(owner := None)
      case Releases => s.(locked := false, cpus := s.cpus[c := Cpu(Rest, false)])
      case _ => s
  }

  function Boot(n: nat): State
  {
    State(false, None, seq(n, i => Cpu(Rest, false)))
  }

  // ----- runs -----

  predicate Runnable(s: State, steps: seq<Step>)
    decreases |steps|
  {
    steps != [] ==> Enabled(s, steps[0]) && Runnable(Next(s, steps[0]), steps[1..])
  }

  function Run(s: State, steps: seq<Step>): State
    requires Runnable(s, steps)
    decreases |steps|
  {
    if steps == [] then s else Run(Next(s, steps[0]), steps[1..])
  }

  /** The owner field is set only while its CPU is between recording and clearing it. */
  predicate Recorded(k: Cpu)
  {
    k.inside && k.phase != RecordsCpu && k.phase != Releases
  }

  ghost predicate OneInside(s: State)
  {
    && (forall c :: 0 <= c < |s.cpus| ==> (s.cpus[c].inside ==> s.locked))
    && (s.locked ==> exists c :: 0 <= c < |s.cpus| && s.cpus[c].inside)
    && (forall c, k :: 0 <= c < |s.cpus| && 0 <= k < |s.cpus| && s.cpus[c].inside && s.cpus[k].inside ==> c == k)
  }

  ghost predicate OwnerOk(s: State)
  {
    && (forall c :: 0 <= c < |s.cpus| ==> (s.owner == Some(c) <==> Recorded(s.cpus[c])))
    && (s.owner.Some? ==> s.owner.value < |s.cpus|)
  }

  predicate PhaseOk(k: Cpu)
  {
    && (k.phase == Xchg ==> !k.inside)
    && (k.phase == RecordsCpu || k.phase == ClearsCpu || k.phase == Releases ==> k.inside)
  }

  ghost predicate Inv(s: State)
  {
    OneInside(s) && OwnerOk(s) && forall c :: 0 <= c < |s.cpus| ==> PhaseOk(s.cpus[c])
  }

  lemma StepKeepsOneInside(s: State, step: Step)
    requires Inv(s) && Enabled(s, step)
    ensures OneInside(Next(s, step))
  {
    hide OwnerOk, Recorded;
    var t, c := Next(s, step), step.c;
    assert PhaseOk(s.cpus[c]);
    assert forall k :: 0 <= k < |s.cpus| && k != c ==> t.cpus[k] == s.cpus[k];
    if t.locked && s.locked {
      var k :| 0 <= k < |s.cpus| && s.cpus[k].inside;
      assert t.cpus[k].inside;
    } else if t.locked {
      assert t.cpus[c].inside;
    }
  }

  lemma StepKeepsOwner(s: State, step: Step)
    requires Inv(s) && Enabled(s, step)
    ensures OwnerOk(Next(s, step))
  {
    var t, c := Next(s, step), step.c;
    assert PhaseOk(s.cpus[c]);
    forall k | 0 <= k < |s.cpus| ensures t.owner == Some(k) <==> Recorded(t.cpus[k]) {
      assert k != c ==> t.cpus[k] == s.cpus[k];
      assert s.cpus[c].inside && s.cpus[k].inside ==> k == c;
    }
  }

  lemma StepKeepsPhase(s: State, step: Step)
    requires Inv(s) && Enabled(s, step)
    ensures PhaseOk(Next(s, step).cpus[step.c])
  {
    assert PhaseOk(s.cpus[step.c]);
  }

  lemma StepKeepsInv(s: State, step: Step)
    requires Inv(s) && Enabled(s, step)
    ensures Inv(Next(s, step)) && |Next(s, step).cpus| == |s.cpus|
  {
    hide OneInside, OwnerOk;
    StepKeepsOneInside(s, step);
    StepKeepsOwner(s, step);
    StepKeepsPhase(s, step);
    var t := Next(s, step);
    forall c | 0 <= c < |t.cpus| ensures PhaseOk(t.cpus[c]) {
      assert c != step.c ==> t.cpus[c] == s.cpus[c];
    }
  }

  lemma BootInv(n: nat)
    ensures Inv(Boot(n))
  {
  }

  lemma {:induction false} RunKeepsInv(s: State, steps: seq<Step>)
    requires Inv(s) && Runnable(s, steps)
    ensures Inv(Run(s, steps)) && |Run(s, steps).cpus| == |s.cpus|
    decreases |steps|
  {
    if steps != [] {
      StepKeepsInv(s, steps[0]);
      RunKeepsInv(Next(s, steps[0]), steps[1..]);
    }
  }

  /** Every interleaving on any number of CPUs from boot: at most one is inside, and the lock
      word says whether one is. */
  lemma MutualExclusion(n: nat, steps: seq<Step>)
    requires Runnable(Boot(n), steps)
    ensures |Run(Boot(n), steps).cpus| == n
    ensures var t := Run(Boot(n), steps); forall c, k :: 0 <= c < n && 0 <= k < n ==>
      (t.cpus[c].inside && t.cpus[k].inside ==> c == k)
    ensures var t := Run(Boot(n), steps); t.locked <==> exists c :: 0 <= c < n && t.cpus[c].inside
  {
    BootInv(n);
    RunKeepsInv(Boot(n), steps);
  }

  // ----- holding() and the two panics -----

  /** A call that fits: lock from outside, unlock from inside. */
  predicate Paired(s: State, step: Step)
    requires Enabled(s, step)
  {
    match step
    case CallLock(c) => !s.cpus[c].inside
    case CallUnlock(c) => s.cpus[c].inside
    case Continue(_) => true
  }

  predicate InLockCheck(p: Phase)
  {
    p == LockReadsLocked || p == LockReadsCpu
  }

  predicate InUnlockCheck(p: Phase)
  {
    p == UnlockReadsLocked || p == UnlockReadsCpu
  }

  /** In the middle of a call that fits. */
  predicate Fine(k: Cpu)
  {
    && k.phase != Panicked
    && (InLockCheck(k.phase) ==> !k.inside)
    && (InUnlockCheck(k.phase) ==> k.inside)
  }

  /** In the check of a call that does not fit. */
  predicate Doomed(k: Cpu)
  {
    (InLockCheck(k.phase) && k.inside) || (InUnlockCheck(k.phase) && !k.inside)
  }

  predicate AllPaired(s: State, steps: seq<Step>)
    requires Runnable(s, steps)
    decreases |steps|
  {
    steps != [] ==> Paired(s, steps[0]) && AllPaired(Next(s, steps[0]), steps[1..])
  }

  lemma StepStaysFine(s: State, step: Step)
    requires Inv(s) && Enabled(s, step) && Paired(s, step)
    requires forall c :: 0 <= c < |s.cpus| ==> Fine(s.cpus[c])
    ensures forall c :: 0 <= c < |s.cpus| ==> Fine(Next(s, step).cpus[c])
  {
    StepKeepsInv(s, step);
  }

  lemma {:induction false} StaysFine(s: State, steps: seq<Step>)
    requires Inv(s) && Runnable(s, steps) && AllPaired(s, steps)
    requires forall c :: 0 <= c < |s.cpus| ==> Fine(s.cpus[c])
    ensures |Run(s, steps).cpus| == |s.cpus|
    ensures forall c :: 0 <= c < |s.cpus| ==> Fine(Run(s, steps).cpus[c])
    decreases |steps|
  {
    if steps != [] {
      StepKeepsInv(s, steps[0]);
      StepStaysFine(s, steps[0]);
      StaysFine(Next(s, steps[0]), steps[1..]);
    }
  }

  /** If all calls from boot on are paired, no interleaving reaches either panic. */
  lemma PairedNeverPanics(n: nat, steps: seq<Step>)
    requires Runnable(Boot(n), steps) && AllPaired(Boot(n), steps)
    ensures |Run(Boot(n), steps).cpus| == n
    ensures forall c :: 0 <= c < n ==> Run(Boot(n), steps).cpus[c].phase != Panicked
  {
    BootInv(n);
    StaysFine(Boot(n), steps);
  }

  function OwnSteps(steps: seq<Step>, c: nat): nat
    decreases |steps|
  {
    if steps == [] then 0 else (if steps[0].c == c then 1 else 0) + OwnSteps(steps[1..], c)
  }

  /** How many of its own steps the CPU is still from the panic. */
  function ToPanic(k: Cpu): nat
  {
    if k.phase == LockReadsLocked || k.phase == UnlockReadsLocked then 2
    else if k.phase == Panicked then 0 else 1
  }

  lemma StepStaysDoomed(s: State, step: Step, c: nat)
    requires Inv(s) && Enabled(s, step) && c < |s.cpus|
    requires Doomed(s.cpus[c]) || s.cpus[c].phase == Panicked
    ensures var k := Next(s, step).cpus[c];
      && (Doomed(k) || k.phase == Panicked)
      && ToPanic(k) + (if step.c == c then 1 else 0) <= ToPanic(s.cpus[c])
  {
  }

  lemma {:induction false} DoomedRun(s: State, steps: seq<Step>, c: nat)
    requires Inv(s) && Runnable(s, steps) && c < |s.cpus|
    requires Doomed(s.cpus[c]) || s.cpus[c].phase == Panicked
    ensures |Run(s, steps).cpus| == |s.cpus|
    ensures OwnSteps(steps, c) <= ToPanic(s.cpus[c])
    ensures OwnSteps(steps, c) == ToPanic(s.cpus[c]) ==> Run(s, steps).cpus[c].phase == Panicked
    decreases |steps|
  {
    if steps != [] {
      StepKeepsInv(s, steps[0]);
      StepStaysDoomed(s, steps[0], c);
      DoomedRun(Next(s, steps[0]), steps[1..], c);
    }
  }

  /** The other half: in the check of a call that does not fit, a second lock or an unlock
      from outside, wherever a run has led, the CPU panics within its next two steps whatever
      the others do between its reads, so the two separate reads of holding() give the right
      answer. */
  lemma UnpairedPanics(n: nat, before: seq<Step>, steps: seq<Step>, c: nat)
    requires Runnable(Boot(n), before) && Runnable(Run(Boot(n), before), steps)
    requires c < |Run(Boot(n), before).cpus| && Doomed(Run(Boot(n), before).cpus[c])
    ensures var k := Run(Boot(n), before).cpus[c];
      && OwnSteps(steps, c) <= ToPanic(k) <= 2
      && |Run(Run(Boot(n), before), steps).cpus| == n > c
      && (OwnSteps(steps, c) == ToPanic(k) ==> Run(Run(Boot(n), before), steps).cpus[c].phase == Panicked)
  {
    BootInv(n);
    RunKeepsInv(Boot(n), before);
    DoomedRun(Run(Boot(n), before), steps, c);
  }

  // ----- a free lock is granted, and given back -----

  /** The CPU is outside both functions. */
  predicate AtRest(s: State, c: nat, inside: bool)
  {
    c < |s.cpus| && s.cpus[c].phase == Rest && s.cpus[c].inside == inside
  }

  lemma RunOfOne(s: State, a: Step)
    requires Enabled(s, a)
    ensures Runnable(s, [a]) && Run(s, [a]) == Next(s, a)
  {
    hide Next, Enabled;
    assert [a][1..] == [];
    assert Run(Next(s, a), []) == Next(s, a);
  }

  lemma {:induction false} RunAfter(s: State, first: seq<Step>, next: seq<Step>)
    requires Runnable(s, first) && Runnable(Run(s, first), next)
    ensures Runnable(s, first + next) && Run(s, first + next) == Run(Run(s, first), next)
    decreases |first|
  {
    hide Next, Enabled;
    if first == [] {
      assert first + next == next;
    } else {
      assert (first + next)[1..] == first[1..] + next;
      RunAfter(Next(s, first[0]), first[1..], next);
    }
  }

  /** Four steps of one CPU, one after the other. */
  lemma FourSteps(s: State, a: Step, b: Step, d: Step, e: Step) returns (steps: seq<Step>)
    requires Enabled(s, a) && Enabled(Next(s, a), b) && Enabled(Next(Next(s, a), b), d)
    requires Enabled(Next(Next(Next(s, a), b), d), e)
    ensures steps == [a, b, d, e] && Runnable(s, steps)
    ensures Run(s, steps) == Next(Next(Next(Next(s, a), b), d), e)
  {
    hide Next, Enabled;
    var s1, s2, s3 := Next(s, a), Next(Next(s, a), b), Next(Next(Next(s, a), b), d);
    RunOfOne(s, a);
    RunOfOne(s1, b);
    RunOfOne(s2, d);
    RunOfOne(s3, e);
    RunAfter(s2, [d], [e]);
    RunAfter(s1, [b], [d] + [e]);
    RunAfter(s, [a], [b] + ([d] + [e]));
    steps := [a] + ([b] + ([d] + [e]));
  }

  lemma FreeLockGranted(s: State, c: nat)
    requires Inv(s) && !s.locked && AtRest(s, c, false)
    ensures var steps := [CallLock(c), Continue(c), Continue(c), Continue(c)];
      && Runnable(s, steps)
      && Run(s, steps) == State(true, Some(c), s.cpus[c := Cpu(Rest, true)])
  {
    var s1 := Goto(s, c, LockReadsLocked);
    var s2 := Goto(s, c, Xchg);
    var s3 := State(true, s.owner, s.cpus[c := Cpu(RecordsCpu, true)]);
    assert Next(s, CallLock(c)) == s1;
    assert Next(s1, Continue(c)) == s2;
    assert Next(s2, Continue(c)) == s3;
    assert Next(s3, Continue(c)) == State(true, Some(c), s.cpus[c := Cpu(Rest, true)]);
    var steps := FourSteps(s, CallLock(c), Continue(c), Continue(c), Continue(c));
  }

  /** Wherever a run has led: if the lock is free, a CPU that calls spin_lock and goes on alone has
      it after three more steps, and nothing else has changed. */
  lemma LockSucceeds(n: nat, before: seq<Step>, c: nat)
    requires Runnable(Boot(n), before)
    requires !Run(Boot(n), before).locked && AtRest(Run(Boot(n), before), c, false)
    ensures var s, steps := Run(Boot(n), before), [CallLock(c), Continue(c), Continue(c), Continue(c)];
      && Runnable(s, steps)
      && Run(s, steps).locked && Run(s, steps).owner == Some(c)
      && |Run(s, steps).cpus| == |s.cpus| == n > c
      && Run(s, steps).cpus[c].phase == Rest && Run(s, steps).cpus[c].inside
      && forall k :: 0 <= k < n && k != c ==> Run(s, steps).cpus[k] == s.cpus[k] && !s.cpus[k].inside
  {
    BootInv(n);
    RunKeepsInv(Boot(n), before);
    FreeLockGranted(Run(Boot(n), before), c);
  }

  /** A holder that calls spin_unlock and goes on alone is outside after four more steps, with the
      word clear and no owner. */
  lemma UnlockSucceeds(n: nat, before: seq<Step>, c: nat)
    requires Runnable(Boot(n), before) && AtRest(Run(Boot(n), before), c, true)
    ensures var s, steps := Run(Boot(n), before),
                            [CallUnlock(c), Continue(c), Continue(c), Continue(c)] + [Continue(c)];
      && Runnable(s, steps)
      && !Run(s, steps).locked && Run(s, steps).owner == None
      && |Run(s, steps).cpus| == |s.cpus| == n > c
      && Run(s, steps).cpus[c].phase == Rest && !Run(s, steps).cpus[c].inside
      && forall k :: 0 <= k < n && k != c ==> Run(s, steps).cpus[k] == s.cpus[k]
  {
    BootInv(n);
    RunKeepsInv(Boot(n), before);
    HeldLockReleased(Run(Boot(n), before), c);
  }

  lemma UnlockStates(s: State, c: nat) returns (s1: State, s2: State, s3: State, s4: State)
    requires Inv(s) && AtRest(s, c, true)
    ensures Enabled(s, CallUnlock(c)) && Next(s, CallUnlock(c)) == s1
    ensures Enabled(s1, Continue(c)) && Next(s1, Continue(c)) == s2
    ensures Enabled(s2, Continue(c)) && Next(s2, Continue(c)) == s3
    ensures Enabled(s3, Continue(c)) && Next(s3, Continue(c)) == s4
    ensures Enabled(s4, Continue(c)) && Next(s4, Continue(c)) == State(false, None, s.cpus[c := Cpu(Rest, false)])
  {
    assert Recorded(s.cpus[c]) && s.owner == Some(c) && s.locked;
    hide Inv;
    s1 := Goto(s, c, UnlockReadsLocked);
    s2 := Goto(s, c, UnlockReadsCpu);
    s3 := Goto(s, c, ClearsCpu);
    s4 := Goto(s, c, Releases).(owner := None);
    assert s2.cpus == s1.cpus[c := Cpu(UnlockReadsCpu, true)];
    assert s3.cpus == s2.cpus[c := Cpu(ClearsCpu, true)];
    assert s4.cpus == s3.cpus[c := Cpu(Releases, true)];
    assert s4.cpus[c := Cpu(Rest, false)] == s.cpus[c := Cpu(Rest, false)];
  }

  lemma HeldLockReleased(s: State, c: nat)
    requires Inv(s) && AtRest(s, c, true)
    ensures var steps := [CallUnlock(c), Continue(c), Continue(c), Continue(c)] + [Continue(c)];
      && Runnable(s, steps)
      && Run(s, steps) == State(false, None, s.cpus[c := Cpu(Rest, false)])
  {
    hide Inv, Next, Enabled, AtRest;
    var s1, s2, s3, s4 := UnlockStates(s, c);
    var steps := FourSteps(s, CallUnlock(c), Continue(c), Continue(c), Continue(c));
    RunOfOne(s4, Continue(c));
    RunAfter(s, steps, [Continue(c)]);
  }

  /** When several CPUs are at the exchange, the first to step gets a free lock, and from then on
      the others stay where they are whenever they step. */
  lemma FirstGetsIt(n: nat, before: seq<Step>, c: nat, k: nat)
    requires Runnable(Boot(n), before)
    requires var s := Run(Boot(n), before);
      && c < |s.cpus| && k < |s.cpus| && c != k && !s.locked
      && s.cpus[c].phase == Xchg && s.cpus[k].phase == Xchg
    ensures var s := Run(Boot(n), before);
      && Runnable(s, [Continue(c)]) && Run(s, [Continue(c)]).locked && |Run(s, [Continue(c)]).cpus| == |s.cpus| == n
      && Run(s, [Continue(c)]).cpus[c].inside && !Run(s, [Continue(c)]).cpus[k].inside
      && Runnable(s, [Continue(c), Continue(k)])
      && Run(s, [Continue(c), Continue(k)]) == Run(s, [Continue(c)])
  {
    BootInv(n);
    RunKeepsInv(Boot(n), before);
    var s := Run(Boot(n), before);
    assert PhaseOk(s.cpus[k]);
    var s1 := State(true, s.owner, s.cpus[c := Cpu(RecordsCpu, true)]);
    assert Next(s, Continue(c)) == s1;
    assert Next(s1, Continue(k)) == s1;
    RunOfOne(s, Continue(c));
    RunOfOne(s1, Continue(k));
    RunAfter(s, [Continue(c)], [Continue(k)]);
    assert [Continue(c)] + [Continue(k)] == [Continue(c), Continue(k)];
  }

  /** A held lock is not taken: while another CPU is inside, a step at the exchange changes nothing. */
  lemma HeldLockWaits(n: nat, before: seq<Step>, c: nat, k: nat)
    requires Runnable(Boot(n), before)
    requires var s := Run(Boot(n), before);
      c < |s.cpus| && k < |s.cpus| && s.cpus[c].inside && s.cpus[k].phase == Xchg
    ensures Runnable(Run(Boot(n), before), [Continue(k)])
    ensures Run(Run(Boot(n), before), [Continue(k)]) == Run(Boot(n), before)
  {
    BootInv(n);
    RunKeepsInv(Boot(n), before);
    RunOfOne(Run(Boot(n), before), Continue(k));
  }
}
