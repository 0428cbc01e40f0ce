/** Every interleaving of the pipe sieve prints exactly the primes up to n in order, can always
    go on until all processes have exited, and comes to an end (TP0-fork/primes.c). */
module SieveRuns {
  import opened Primes
  import opened Sieve

  // ----- what the invariant says about the process that takes the step -----

  ghost predicate EndIsReal(s: Net, k: nat)
    requires 1 <= k < |s.procs| && k - 1 < |s.pipes|
  {
    Queue(s.pipes[k - 1]) == [] && s.pipes[k - 1].writers == {} ==>
      && s.pipes[k - 1].sent == Stream(s.n, k - 1) && s.pipes[k - 1].got == |s.pipes[k - 1].sent|
      && !Holding(s.procs[k - 1])
  }

  ghost predicate Local(s: Net, k: nat)
    requires Shape(s)
  {
    && k < |s.procs|
    && ProcOk(s.n, k, s.procs[k], In(s, k), Out(s, k))
    && (k >= 1 ==> EndIsReal(s, k))
    && (k >= 1 ==> PipeOk(s.n, s.cap, k - 1, s.pipes[k - 1], s.procs[k - 1], true, s.procs[k]))
    && (k < |s.pipes| ==> PipeOk(s.n, s.cap, k, s.pipes[k], s.procs[k], k + 1 < |s.procs|, ChildOf(s, k)))
    && (k >= 1 && (s.procs[k].phase.CloseReadEnd? || s.procs[k].phase.Write?) ==> s.procs[k].prime > 0)
  }

  lemma ClosedIsDone(n: int, k: nat, f: Proc, i: Pipe, o: Pipe)
    requires ProcOk(n, k, f, i, o) && Forked(f) && !Holding(f)
    ensures o.sent == Stream(n, k)
  {
    hide Stream, Keep;
  }

  /** A process whose input is at its end has read all that its pipe will ever carry. */
  lemma {:induction false} EndOfInput(s: Net, k: nat)
    requires Inv(s) && 1 <= k < |s.procs|
    ensures EndIsReal(s, k)
  {
    hide Stream, Heads, ProcOk, ProcsOk, PipesOk, Forked, Holding, HasIn, Printed, Setup, Ended, Reads;
    var a, p := s.procs[k - 1], s.pipes[k - 1];
    assert Forked(a);
    PipeAt(s, k - 1);
    ProcAt(s, k - 1);
    if p.writers == {} && Queue(p) == [] {
      ClosedIsDone(s.n, k - 1, a, In(s, k - 1), p);
    }
  }

  lemma PipeAt(s: Net, k: nat)
    requires Inv(s) && k < |s.pipes|
    ensures k < |s.procs|
    ensures PipeOk(s.n, s.cap, k, s.pipes[k], s.procs[k], k + 1 < |s.procs|, ChildOf(s, k))
  {
    hide ProcsOk, PipeOk, Heads, Printed, Forked, HasIn;
  }

  lemma ProcAt(s: Net, k: nat)
    requires Inv(s) && k < |s.procs|
    ensures ProcOk(s.n, k, s.procs[k], In(s, k), Out(s, k))
  {
    hide Shape, PipesOk, ProcOk, Heads, Printed;
  }

  lemma PrimePositive(n: int, k: nat, f: Proc, i: Pipe, o: Pipe)
    requires ProcOk(n, k, f, i, o)
    ensures (f.phase.CloseReadEnd? || f.phase.Write?) && k >= 1 ==> f.prime > 0
  {
    hide Keep;
    if f.phase.CloseReadEnd? && k >= 1 {
      assert Stream(n, k - 1)[0] in Stream(n, k - 1);
    }
  }

  lemma LocalAt(s: Net, k: nat)
    requires Inv(s) && k < |s.procs|
    ensures Local(s, k)
  {
    hide ProcsOk, PipesOk, PipeOk, ProcOk, EndIsReal, Heads, Printed, Forked, HasIn, In, Out;
    ProcAt(s, k);
    PrimePositive(s.n, k, s.procs[k], In(s, k), Out(s, k));
    if k >= 1 {
      EndOfInput(s, k);
      PipeAt(s, k - 1);
    }
    if k < |s.pipes| {
      PipeAt(s, k);
    }
  }

  // ----- streams -----

  lemma KeepSnoc(xs: seq<int>, g: nat, p: int)
    requires p > 0 && 1 <= g < |xs|
    ensures Keep(xs[1..g + 1], p) == Keep(xs[1..g], p) + if xs[g] % p != 0 then [xs[g]] else []
  {
    assert xs[1..g + 1][..g] == xs[1..g + 1];
    assert xs[1..g + 1][..g - 1] == xs[1..g];
  }

  lemma StreamNext(n: int, k: nat)
    requires k >= 1 && Stream(n, k - 1) != []
    ensures Stream(n, k - 1)[0] > 0
    ensures Stream(n, k) == Keep(Stream(n, k - 1)[1..], Stream(n, k - 1)[0])
  {
    assert Stream(n, k - 1)[0] in Stream(n, k - 1);
  }

  /** What a filter has let through so far is a prefix of its stream. */
  lemma KeptPrefix(n: int, k: nat, sent: seq<int>, g: nat)
    requires k >= 1 && sent <= Stream(n, k - 1) && 1 <= g <= |sent|
    ensures Stream(n, k - 1) != [] && Stream(n, k - 1)[0] > 0
    ensures Keep(sent[1..g], Stream(n, k - 1)[0]) <= Stream(n, k)
  {
    hide Keep;
    StreamNext(n, k);
    assert sent[1..g] <= Stream(n, k - 1)[1..];
    KeepPrefix(sent[1..g], Stream(n, k - 1)[1..], Stream(n, k - 1)[0]);
  }

  lemma KeepNothing(p: int)
    ensures p > 0 ==> Keep([], p) == []
  {
  }

  lemma EmptyRange(n: int)
    ensures Stream(n, 0) == Range(n) && (n < 2 ==> Range(n) == [])
  {
  }

  // ----- what the process has done -----

  lemma OwnPlain(s: Net, k: nat)
    requires Shape(s) && Local(s, k) && Enabled(s, k)
    requires var f := s.procs[k].phase; !f.ReadFirst? && !f.CloseReadEnd? && !f.Loop? && !f.Write?
    ensures var t := Next(s, k); k < |t.procs| && ProcOk(t.n, k, t.procs[k], In(t, k), Out(t, k))
  {
    hide Heads, Stream, Keep, EndIsReal;
    match s.procs[k].phase
    case CloseGrand =>
    case CloseInherited =>
    case Leave =>
    case Print =>
    case MakePipe =>
    case Fork =>
    case CloseWrite =>
    case CloseIn =>
    case Wait =>
  }

  lemma OwnReadFirst(s: Net, k: nat)
    requires Shape(s) && Local(s, k) && Enabled(s, k) && s.procs[k].phase.ReadFirst?
    ensures var t := Next(s, k); k < |t.procs| && ProcOk(t.n, k, t.procs[k], In(t, k), Out(t, k))
  {
    hide Heads, Stream, Keep;
  }

  lemma OwnCloseReadEnd(s: Net, k: nat)
    requires Shape(s) && Local(s, k) && Enabled(s, k) && s.procs[k].phase.CloseReadEnd?
    ensures var t := Next(s, k); k < |t.procs| && ProcOk(t.n, k, t.procs[k], In(t, k), Out(t, k))
  {
    hide Heads, Stream, Keep;
    KeepNothing(s.procs[k].prime);
    EmptyRange(s.n);
    assert k >= 1 ==> s.pipes[k - 1].sent[1..1] == [];
  }

  lemma OwnLoop(s: Net, k: nat)
    requires Shape(s) && Local(s, k) && Enabled(s, k) && s.procs[k].phase.Loop?
    ensures var t := Next(s, k); k < |t.procs| && ProcOk(t.n, k, t.procs[k], In(t, k), Out(t, k))
  {
    hide Heads, Stream, Keep;
    var p := s.pipes[k - 1];
    if Queue(p) == [] {
      StreamNext(s.n, k);
      assert p.sent[1..|p.sent|] == p.sent[1..];
    } else {
      KeepSnoc(p.sent, p.got, s.procs[k].prime);
    }
  }

  lemma OwnWrite(s: Net, k: nat)
    requires Shape(s) && Local(s, k) && Enabled(s, k) && s.procs[k].phase.Write?
    ensures var t := Next(s, k); k < |t.procs| && ProcOk(t.n, k, t.procs[k], In(t, k), Out(t, k))
  {
    hide Heads, Stream, Keep;
    var num := s.procs[k].num;
    if k == 0 {
      EmptyRange(s.n);
      assert Range(s.n)[..num - 1] == Range(s.n)[..num - 2] + [num];
    }
  }

  lemma StepOwn(s: Net, k: nat)
    requires Shape(s) && Local(s, k) && Enabled(s, k)
    ensures var t := Next(s, k); k < |t.procs| && ProcOk(t.n, k, t.procs[k], In(t, k), Out(t, k))
  {
    hide Next, Enabled, ProcOk, PipeOk, EndIsReal;
    match s.procs[k].phase
    case ReadFirst => OwnReadFirst(s, k);
    case CloseReadEnd => OwnCloseReadEnd(s, k);
    case Loop => OwnLoop(s, k);
    case Write => OwnWrite(s, k);
    case _ => OwnPlain(s, k);
  }

  // ----- what the step leaves alone -----

  lemma FrameProcs(s: Net, k: nat, j: nat)
    requires Shape(s) && Enabled(s, k)
    ensures var t := Next(s, k);
      && t.n == s.n && t.cap == s.cap && |t.procs| >= |s.procs|
      && (j < |s.procs| && j != k ==> t.procs[j] == s.procs[j])
      && (|t.procs| > |s.procs| ==>
            && s.procs[k].phase.Fork? && |t.procs| == |s.procs| + 1
            && t.procs[|s.procs|] == Proc(if k == 0 then CloseInherited else CloseGrand, 0, 0))
  {
    hide Forked, HasIn, Queue;
  }

  lemma FramePipes(s: Net, k: nat)
    requires Shape(s) && Enabled(s, k)
    ensures var t := Next(s, k);
      && |t.pipes| >= |s.pipes|
      && (|t.pipes| > |s.pipes| ==>
            s.procs[k].phase.MakePipe? && |t.pipes| == |s.pipes| + 1 && t.pipes[|s.pipes|] == Pipe([], 0, {k}, {k}))
  {
    hide Queue;
  }

  lemma FrameSent(s: Net, k: nat, j: nat)
    requires Shape(s) && Enabled(s, k) && j < |s.pipes| <= |Next(s, k).pipes|
    ensures var t := Next(s, k);
      && s.pipes[j].sent <= t.pipes[j].sent
      && (j != k ==> s.pipes[j].sent == t.pipes[j].sent)
      && (j + 1 != k ==> s.pipes[j].got == t.pipes[j].got)
  {
    hide Queue;
  }

  lemma FrameEnds(s: Net, k: nat, j: nat)
    requires Shape(s) && Enabled(s, k) && j < |s.pipes| <= |Next(s, k).pipes| && j != k && j + 1 != k
    ensures var t := Next(s, k);
      t.pipes[j].writers == s.pipes[j].writers && t.pipes[j].readers >= s.pipes[j].readers - {k}
  {
    hide Queue;
  }

  /** What a process has done does not change by another's step. */
  lemma ProcFrame(n: int, k: nat, f: Proc, i: Pipe, o: Pipe, i': Pipe, o': Pipe)
    requires ProcOk(n, k, f, i, o)
    requires i'.got == i.got && i.sent <= i'.sent && o'.sent == o.sent
    ensures ProcOk(n, k, f, i', o')
  {
    hide Stream, Keep;
    assert 1 <= i.got <= |i.sent| ==> i'.sent[1..i.got] == i.sent[1..i.got];
  }

  lemma StepOthers(s: Net, k: nat, j: nat)
    requires Inv(s) && k < |s.procs| && Enabled(s, k) && j != k && j < |Next(s, k).procs|
    ensures var t := Next(s, k); ProcOk(t.n, j, t.procs[j], In(t, j), Out(t, j))
  {
    hide Next, Enabled, ProcOk, ProcsOk, PipesOk, Heads, Printed, HasIn, Queue;
    var t := Next(s, k);
    FrameProcs(s, k, j);
    FramePipes(s, k);
    if j < |s.procs| {
      ProcAt(s, j);
      if 1 <= j <= |s.pipes| {
        FrameSent(s, k, j - 1);
      }
      if j < |s.pipes| {
        FrameSent(s, k, j);
      }
      if s.procs[k].phase.MakePipe? {
        NewPipeIsOwn(s, k);
      }
      ProcFrame(s.n, j, s.procs[j], In(s, j), Out(s, j), In(t, j), Out(t, j));
    } else {
      ForkIsLast(s, k);
      PipeAt(s, k);
      FrameSent(s, k, k);
      ChildStarts(t.n, j, In(t, j), Out(t, j));
    }
  }

  lemma ChildStarts(n: int, j: nat, i: Pipe, o: Pipe)
    requires j >= 1 && i.got == 0
    ensures ProcOk(n, j, Proc(if j == 1 then CloseInherited else CloseGrand, 0, 0), i, o)
  {
  }

  /** Only the last process makes a pipe or forks. */
  lemma ForkIsLast(s: Net, k: nat)
    requires Shape(s) && k < |s.procs| && s.procs[k].phase.Fork?
    ensures k == |s.procs| - 1 && |s.pipes| == |s.procs|
  {
  }

  lemma NewPipeIsOwn(s: Net, k: nat)
    requires Shape(s) && k < |s.procs| && s.procs[k].phase.MakePipe?
    ensures k == |s.procs| - 1 == |s.pipes|
  {
  }

  // ----- the pipes -----

  lemma OutWrite(s: Net, k: nat)
    requires Shape(s) && Local(s, k) && Enabled(s, k) && k < |Next(s, k).pipes| && k < |Next(s, k).procs|
    requires s.procs[k].phase.Write?
    ensures var t := Next(s, k);
      PipeOk(t.n, t.cap, k, t.pipes[k], t.procs[k], k + 1 < |t.procs|, ChildOf(t, k))
  {
    hide Heads, Stream, Keep, EndIsReal;
    if k == 0 {
      EmptyRange(s.n);
    } else {
      KeptPrefix(s.n, k, s.pipes[k - 1].sent, s.pipes[k - 1].got);
    }
  }

  lemma OutSetup(s: Net, k: nat)
    requires Shape(s) && Local(s, k) && Enabled(s, k) && k < |Next(s, k).pipes| && k < |Next(s, k).procs|
    requires s.procs[k].phase.MakePipe? || s.procs[k].phase.Fork? || s.procs[k].phase.CloseReadEnd?
    ensures var t := Next(s, k);
      PipeOk(t.n, t.cap, k, t.pipes[k], t.procs[k], k + 1 < |t.procs|, ChildOf(t, k))
  {
    hide Heads, Stream, Keep, EndIsReal, ProcOk;
    match s.procs[k].phase
    case MakePipe =>
    case Fork =>
    case CloseReadEnd =>
  }

  /** Steps that leave the process's own pipe alone and its place with regard to it. */
  lemma OutSame(s: Net, k: nat)
    requires Shape(s) && Local(s, k) && Enabled(s, k) && k < |Next(s, k).pipes| && k < |Next(s, k).procs|
    requires var f := s.procs[k].phase;
      f.CloseGrand? || f.CloseInherited? || f.ReadFirst? || f.Leave? || f.Print? || f.CloseIn? || f.Wait?
    ensures var t := Next(s, k);
      PipeOk(t.n, t.cap, k, t.pipes[k], t.procs[k], k + 1 < |t.procs|, ChildOf(t, k))
  {
    hide Heads, Stream, Keep, EndIsReal, ProcOk;
  }

  lemma OutLoop(s: Net, k: nat)
    requires Shape(s) && Local(s, k) && Enabled(s, k) && k < |Next(s, k).pipes| && k < |Next(s, k).procs|
    requires s.procs[k].phase.Loop? || s.procs[k].phase.CloseWrite?
    ensures var t := Next(s, k);
      PipeOk(t.n, t.cap, k, t.pipes[k], t.procs[k], k + 1 < |t.procs|, ChildOf(t, k))
  {
    hide Heads, Stream, Keep, EndIsReal, ProcOk;
  }

  lemma OutPlain(s: Net, k: nat)
    requires Shape(s) && Local(s, k) && Enabled(s, k) && k < |Next(s, k).pipes| && k < |Next(s, k).procs|
    requires !s.procs[k].phase.Write? && !s.procs[k].phase.MakePipe? && !s.procs[k].phase.Fork?
      && !s.procs[k].phase.CloseReadEnd?
    ensures var t := Next(s, k);
      PipeOk(t.n, t.cap, k, t.pipes[k], t.procs[k], k + 1 < |t.procs|, ChildOf(t, k))
  {
    hide Local, Next, PipeOk, Shape;
    if s.procs[k].phase.Loop? || s.procs[k].phase.CloseWrite? {
      OutLoop(s, k);
    } else {
      OutSame(s, k);
    }
  }

  /** The pipe a process writes. */
  lemma StepOut(s: Net, k: nat)
    requires Shape(s) && Local(s, k) && Enabled(s, k) && k < |Next(s, k).pipes| && k < |Next(s, k).procs|
    ensures var t := Next(s, k);
      PipeOk(t.n, t.cap, k, t.pipes[k], t.procs[k], k + 1 < |t.procs|, ChildOf(t, k))
  {
    hide Next, Local, Enabled, PipeOk;
    assert k < |s.procs| by {
      Index(s, k);
    }
    if s.procs[k].phase.Write? {
      OutWrite(s, k);
    } else if s.procs[k].phase.MakePipe? || s.procs[k].phase.Fork? || s.procs[k].phase.CloseReadEnd? {
      OutSetup(s, k);
    } else {
      OutPlain(s, k);
    }
  }

  lemma Index(s: Net, k: nat)
    requires Shape(s) && Local(s, k)
    ensures k < |s.procs|
  {
  }

  lemma InRead(s: Net, k: nat)
    requires Shape(s) && Local(s, k) && Enabled(s, k) && k >= 1
    requires k <= |Next(s, k).pipes| && k < |Next(s, k).procs|
    requires s.procs[k].phase.ReadFirst? || s.procs[k].phase.Loop?
    ensures var t := Next(s, k);
      PipeOk(t.n, t.cap, k - 1, t.pipes[k - 1], t.procs[k - 1], true, t.procs[k])
  {
    hide Heads, Stream, Keep, ProcOk;
  }

  lemma InPlain(s: Net, k: nat)
    requires Shape(s) && Local(s, k) && Enabled(s, k) && k >= 1
    requires k <= |Next(s, k).pipes| && k < |Next(s, k).procs|
    requires !s.procs[k].phase.ReadFirst? && !s.procs[k].phase.Loop?
    ensures var t := Next(s, k);
      PipeOk(t.n, t.cap, k - 1, t.pipes[k - 1], t.procs[k - 1], true, t.procs[k])
  {
    hide Heads, Stream, Keep, ProcOk, EndIsReal;
    match s.procs[k].phase
    case CloseGrand =>
    case CloseInherited =>
    case Leave =>
    case Print =>
    case MakePipe =>
    case Fork =>
    case CloseReadEnd =>
    case Write =>
    case CloseWrite =>
    case CloseIn =>
    case Wait =>
    case _ =>
  }

  /** The pipe a process reads. */
  lemma StepIn(s: Net, k: nat)
    requires Shape(s) && Local(s, k) && Enabled(s, k) && k >= 1
    requires k <= |Next(s, k).pipes| && k < |Next(s, k).procs|
    ensures var t := Next(s, k);
      PipeOk(t.n, t.cap, k - 1, t.pipes[k - 1], t.procs[k - 1], true, t.procs[k])
  {
    hide Next, Local, Enabled, PipeOk;
    Index(s, k);
    if s.procs[k].phase.ReadFirst? || s.procs[k].phase.Loop? {
      InRead(s, k);
    } else {
      InPlain(s, k);
    }
  }

  lemma StepOtherPipes(s: Net, k: nat, j: nat)
    requires Inv(s) && k < |s.procs| && Enabled(s, k) && j != k && j + 1 != k
    requires j < |Next(s, k).pipes| && j < |s.procs| <= |Next(s, k).procs|
    ensures var t := Next(s, k);
      PipeOk(t.n, t.cap, j, t.pipes[j], t.procs[j], j + 1 < |t.procs|, ChildOf(t, j))
  {
    hide Next, Enabled, ProcOk, ProcsOk, PipesOk, Heads, Printed, HasIn, Queue, Holding, Setup, Ended, Reads, Stream;
    var t := Next(s, k);
    FramePipes(s, k);
    FrameProcs(s, k, j);
    FrameProcs(s, k, j + 1);
    if s.procs[k].phase.MakePipe? {
      NewPipeIsOwn(s, k);
    }
    if s.procs[k].phase.Fork? {
      ForkIsLast(s, k);
    }
    PipeAt(s, j);
    FrameSent(s, k, j);
    FrameEnds(s, k, j);
  }

  // ----- one step keeps the invariant -----

  lemma StepChain(s: Net, k: nat)
    requires Shape(s) && k < |s.procs| && Enabled(s, k)
    ensures Chain(Next(s, k))
  {
    hide Queue, HasIn, Next, Enabled, Chain;
    if k < |s.procs| - 1 {
      KeepsFork(s, k);
    } else {
      LastStep(s, k);
    }
  }

  lemma KeepsFork(s: Net, k: nat)
    requires Shape(s) && k < |s.procs| - 1 && Enabled(s, k)
    ensures Chain(Next(s, k))
  {
    hide Queue;
    assert Forked(s.procs[k]) && PlaceOk(k, s.procs[k]);
  }

  lemma LastStep(s: Net, k: nat)
    requires Shape(s) && k == |s.procs| - 1 && Enabled(s, k)
    ensures Chain(Next(s, k))
  {
    hide Queue;
    assert !Forked(s.procs[k]) && PlaceOk(k, s.procs[k]);
  }

  lemma StepPlace(s: Net, k: nat)
    requires Shape(s) && Local(s, k) && Enabled(s, k)
    ensures k < |Next(s, k).procs| && PlaceOk(k, Next(s, k).procs[k])
  {
    assert PlaceOk(k, s.procs[k]);
    hide Stream, Keep, EndIsReal, PipeOk, Queue, Local;
    if s.procs[k].phase.CloseReadEnd? || s.procs[k].phase.Write? {
      PlaceLoop(s, k);
    } else {
      PlaceOther(s, k);
    }
  }

  lemma PlaceLoop(s: Net, k: nat)
    requires Shape(s) && Local(s, k) && Enabled(s, k)
    requires s.procs[k].phase.CloseReadEnd? || s.procs[k].phase.Write?
    ensures k < |Next(s, k).procs| && PlaceOk(k, Next(s, k).procs[k])
  {
    hide Stream, Keep, EndIsReal, PipeOk, ProcOk, Queue, Chain;
  }

  lemma PlaceOther(s: Net, k: nat)
    requires Shape(s) && Enabled(s, k) && PlaceOk(k, s.procs[k])
    requires !s.procs[k].phase.CloseReadEnd? && !s.procs[k].phase.Write?
    ensures k < |Next(s, k).procs| && PlaceOk(k, Next(s, k).procs[k])
  {
    hide Queue;
  }

  lemma StepShape(s: Net, k: nat)
    requires Shape(s) && Local(s, k) && Enabled(s, k)
    ensures Shape(Next(s, k))
  {
    hide Enabled, Next, EndIsReal, PipeOk, ProcOk, Chain;
    var t := Next(s, k);
    StepChain(s, k);
    StepPlace(s, k);
    FrameProcs(s, k, k);
    forall j | 0 <= j < |t.procs| ensures PlaceOk(j, t.procs[j]) {
      FrameProcs(s, k, j);
      if j == |s.procs| {
        ForkIsLast(s, k);
      }
    }
  }

  lemma StepPrints(s: Net, k: nat)
    requires Shape(s) && Local(s, k) && Enabled(s, k) && s.out == Heads(s.n, Printed(s))
    ensures var t := Next(s, k); |t.procs| >= 1 && t.out == Heads(t.n, Printed(t))
  {
    hide Stream, Keep, PipeOk, EndIsReal, HasIn, Queue;
    var f, t := s.procs[k], Next(s, k);
    if f.phase.Print? {
      assert k == |s.procs| - 1 && Printed(t) == k && Printed(s) == k - 1;
      assert Heads(s.n, k) == Heads(s.n, k - 1) + [f.prime];
    } else {
      hide ProcOk, Heads;
      SamePrinted(s, k);
    }
  }

  lemma SamePrinted(s: Net, k: nat)
    requires Shape(s) && k < |s.procs| && Enabled(s, k) && !s.procs[k].phase.Print?
    ensures var t := Next(s, k); |t.procs| >= 1 && t.out == s.out && t.n == s.n && Printed(t) == Printed(s)
  {
    hide Queue, HasIn;
    assert k < |s.procs| - 1 ==> Forked(s.procs[k]);
  }

  lemma StepPipesOk(s: Net, k: nat)
    requires Inv(s) && k < |s.procs| && Enabled(s, k) && Local(s, k)
    ensures PipesOk(Next(s, k))
  {
    hide Next, Enabled, Local, ProcOk, PipeOk, ProcsOk, Heads, Printed, HasIn, Forked;
    var t := Next(s, k);
    FrameProcs(s, k, k);
    FramePipes(s, k);
    forall j | 0 <= j < |t.pipes| && j < |t.procs|
      ensures PipeOk(t.n, t.cap, j, t.pipes[j], t.procs[j], j + 1 < |t.procs|, ChildOf(t, j)) {
      if j == k {
        StepOut(s, k);
      } else if j + 1 == k {
        StepIn(s, k);
      } else {
        NewPipeOwner(s, k, j);
        StepOtherPipes(s, k, j);
      }
    }
  }

  lemma NewPipeOwner(s: Net, k: nat, j: nat)
    requires Shape(s) && k < |s.procs| && Enabled(s, k) && j < |Next(s, k).pipes| && j != k
    ensures j < |s.procs|
  {
    hide Queue;
  }

  lemma StepKeepsInv(s: Net, k: nat)
    requires Inv(s) && k < |s.procs| && Enabled(s, k)
    ensures Inv(Next(s, k)) && Next(s, k).n == s.n && Next(s, k).cap == s.cap
  {
    hide Enabled, Next, Local, ProcOk, PipesOk, Shape, Heads, Printed;
    var t := Next(s, k);
    LocalAt(s, k);
    StepShape(s, k);
    StepPrints(s, k);
    FrameProcs(s, k, k);
    assert ProcsOk(t) by {
      forall j | 0 <= j < |t.procs| ensures ProcOk(t.n, j, t.procs[j], In(t, j), Out(t, j)) {
        if j == k {
          StepOwn(s, k);
        } else {
          StepOthers(s, k, j);
        }
      }
    }
    StepPipesOk(s, k);
  }

  lemma BootInv(n: int, cap: nat)
    requires cap >= 1
    ensures Inv(Boot(n, cap))
  {
  }
}
