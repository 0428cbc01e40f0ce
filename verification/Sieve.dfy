/** The pipe sieve as a network of processes (TP0-fork/primes.c): main and the filters it
    leads to, joined by bounded pipes, in any interleaving of their steps. Which processes
    hold which ends of a pipe is part of the state, since a read sees end-of-file only when
    the last write end is closed. */
module Sieve {
  import opened Primes

  /** The next thing a process does. Process 0 is main; process k + 1 is forked by process k
      and reads pipe k. `Left` is a filter whose first read found the end of the input. */
  datatype Phase =
    | CloseGrand | CloseInherited | ReadFirst | Leave | Print | MakePipe | Fork | CloseReadEnd
    | Loop | Write | CloseWrite | CloseIn | Wait | Finished | Left

  datatype Proc = Proc(phase: Phase, prime: int, num: int)

  /** Everything ever written to the pipe, how much of it has been read, and the processes
      with an open write or read end. */
  datatype Pipe = Pipe(sent: seq<int>, got: nat, writers: set<nat>, readers: set<nat>)

  datatype Net = Net(n: int, cap: nat, procs: seq<Proc>, pipes: seq<Pipe>, out: seq<int>)

  function Boot(n: int, cap: nat): Net
  {
    Net(n, cap, [Proc(MakePipe, 0, 0)], [], [])
  }

  predicate Exited(f: Proc)
  {
    f.phase.Finished? || f.phase.Left?
  }

  /** Phases after the fork. */
  predicate Forked(f: Proc)
  {
    || f.phase.CloseReadEnd? || f.phase.Loop? || f.phase.Write? || f.phase.CloseWrite?
    || f.phase.CloseIn? || f.phase.Wait? || f.phase.Finished?
  }

  /** Phases that only a process with an input pipe goes through. */
  predicate HasIn(f: Proc)
  {
    && !f.phase.MakePipe? && !f.phase.Fork? && !f.phase.CloseReadEnd? && !f.phase.Write?
    && !f.phase.CloseWrite? && !f.phase.Wait? && !f.phase.Finished?
  }

  /** Every process but the last has forked, so pipe k joins process k to process k + 1. */
  predicate Chain(s: Net)
  {
    && |s.procs| >= 1 && s.cap >= 1
    && |s.procs| - 1 <= |s.pipes| <= |s.procs|
    && (|s.pipes| == |s.procs| <==> s.procs[|s.procs| - 1].phase.Fork?)
    && (forall k :: 0 <= k < |s.procs| - 1 ==> Forked(s.procs[k]))
    && !Forked(s.procs[|s.procs| - 1])
  }

  predicate PlaceOk(k: nat, f: Proc)
  {
    && (HasIn(f) ==> k >= 1)
    && (f.phase.CloseGrand? ==> k >= 2)
    && (f.phase.Loop? ==> f.prime > 0)
  }

  /** The pipes and children that the phases speak of are there. */
  predicate Shape(s: Net)
  {
    Chain(s) && forall k :: 0 <= k < |s.procs| ==> PlaceOk(k, s.procs[k])
  }

  function Queue(p: Pipe): seq<int>
  {
    if p.got <= |p.sent| then p.sent[p.got..] else []
  }

  /** A read waits while the pipe is empty and somebody can still write; a write waits while
      the pipe is full; wait waits for the child. */
  predicate Enabled(s: Net, k: nat)
    requires Shape(s)
  {
    && k < |s.procs|
    && match s.procs[k].phase
       case ReadFirst => Queue(s.pipes[k - 1]) != [] || s.pipes[k - 1].writers == {}
       case Loop => Queue(s.pipes[k - 1]) != [] || s.pipes[k - 1].writers == {}
       case Write => |Queue(s.pipes[k])| < s.cap
       case Wait => Exited(s.procs[k + 1])
       case Finished => false
       case Left => false
       case _ => true
  }

  function Goto(s: Net, k: nat, phase: Phase): Net
    requires k < |s.procs|
  {
    s.(procs := s.procs[k := s.procs[k].(phase := phase)])
  }

  function Took(p: Pipe): Pipe
  {
    p.(got := p.got + 1)
  }

  function SetPipe(s: Net, k: int, p: Pipe): Net
    requires 0 <= k < |s.pipes|
  {
    s.(pipes := s.pipes[k := p])
  }

  /** The next number main has to write, or the end of its loop. */
  function MainLoop(s: Net, num: int): Net
    requires |s.procs| > 0
  {
    s.(procs := s.procs[0 := s.procs[0].(phase := if num <= s.n then Write else CloseWrite, num := num)])
  }

  function ForkChild(s: Net, k: nat): Net
    requires Shape(s) && k < |s.procs| && s.procs[k].phase.Fork?
  {
    var p := s.pipes[k].(writers := s.pipes[k].writers + {k + 1}, readers := s.pipes[k].readers + {k + 1});
    var t := SetPipe(Goto(s, k, CloseReadEnd), k, p);
    if k == 0 then t.(procs := t.procs + [Proc(CloseInherited, 0, 0)])
    else
      var q := t.pipes[k - 1];
      SetPipe(t, k - 1, q.(readers := q.readers + {k + 1})).(procs := t.procs + [Proc(CloseGrand, 0, 0)])
  }

  function CloseRead(s: Net, k: int, who: nat): Net
    requires 0 <= k < |s.pipes|
  {
    SetPipe(s, k, s.pipes[k].(readers := s.pipes[k].readers - {who}))
  }

  function CloseWriter(s: Net, k: int, who: nat): Net
    requires 0 <= k < |s.pipes|
  {
    SetPipe(s, k, s.pipes[k].(writers := s.pipes[k].writers - {who}))
  }

  function Next(s: Net, k: nat): Net
    requires Shape(s) && Enabled(s, k)
  {
    var f := s.procs[k];
    match f.phase
    case CloseGrand => Goto(CloseRead(s, k - 2, k), k, CloseInherited)
    case CloseInherited => Goto(CloseWriter(s, k - 1, k), k, ReadFirst)
    case ReadFirst =>
      var p := s.pipes[k - 1];
      if Queue(p) == [] then Goto(s, k, Leave)
      else SetPipe(s, k - 1, Took(p)).(procs := s.procs[k := Proc(Print, Queue(p)[0], 0)])
    case Leave => Goto(CloseRead(s, k - 1, k), k, Left)
    case Print => Goto(s, k, MakePipe).(out := s.out + [f.prime])
    case MakePipe => Goto(s, k, Fork).(pipes := s.pipes + [Pipe([], 0, {k}, {k})])
    case Fork => ForkChild(s, k)
    case CloseReadEnd =>
      var t := CloseRead(s, k, k);
      if k == 0 then MainLoop(t, 2) else Goto(t, k, Loop)
    case Loop =>
      var p := s.pipes[k - 1];
      if Queue(p) == [] then Goto(s, k, CloseWrite)
      else
        SetPipe(s, k - 1, Took(p)).(procs := s.procs[k :=
          f.(num := Queue(p)[0], phase := if Queue(p)[0] % f.prime != 0 then Write else Loop)])
    case Write =>
      var t := SetPipe(s, k, s.pipes[k].(sent := s.pipes[k].sent + [f.num]));
      if k == 0 then MainLoop(t, f.num + 1) else Goto(t, k, Loop)
    case CloseWrite => Goto(CloseWriter(s, k, k), k, if k == 0 then Wait else CloseIn)
    case CloseIn => Goto(CloseRead(s, k - 1, k), k, Wait)
    case Wait => Goto(s, k, Finished)
    case _ => s
  }

  // ----- the invariant -----

  const NO_PIPE: Pipe := Pipe([], 0, {}, {})

  function In(s: Net, k: int): Pipe
  {
    if 0 < k <= |s.pipes| then s.pipes[k - 1] else NO_PIPE
  }

  function Out(s: Net, k: int): Pipe
  {
    if 0 <= k < |s.pipes| then s.pipes[k] else NO_PIPE
  }

  predicate Primed(n: int, k: nat, f: Proc)
  {
    k == 0 || (Stream(n, k - 1) != [] && f.prime == Stream(n, k - 1)[0])
  }

  /** What process k has done with its input and output so far. */
  predicate ProcOk(n: int, k: nat, f: Proc, i: Pipe, o: Pipe)
  {
    match f.phase
    case CloseGrand => k >= 2 && i.got == 0
    case CloseInherited => k >= 1 && i.got == 0
    case ReadFirst => k >= 1 && i.got == 0
    case Leave => k >= 1 && Stream(n, k - 1) == []
    case Left => k >= 1 && Stream(n, k - 1) == []
    case Print => k >= 1 && Primed(n, k, f) && i.got == 1
    case MakePipe => Primed(n, k, f) && (k >= 1 ==> i.got == 1)
    case Fork => Primed(n, k, f) && (k >= 1 ==> i.got == 1) && o.sent == []
    case CloseReadEnd => Primed(n, k, f) && (k >= 1 ==> i.got == 1) && o.sent == []
    case Loop =>
      && k >= 1 && Primed(n, k, f) && f.prime > 0 && 1 <= i.got <= |i.sent|
      && o.sent == Keep(i.sent[1..i.got], f.prime)
    case Write =>
      if k == 0 then 2 <= f.num <= n && o.sent == Range(n)[..f.num - 2]
      else
        && Primed(n, k, f) && f.prime > 0 && 1 <= i.got <= |i.sent|
        && o.sent + [f.num] == Keep(i.sent[1..i.got], f.prime)
    case CloseWrite => Primed(n, k, f) && o.sent == Stream(n, k)
    case CloseIn => k >= 1 && Primed(n, k, f) && o.sent == Stream(n, k)
    case Wait => Primed(n, k, f) && o.sent == Stream(n, k)
    case Finished => Primed(n, k, f) && o.sent == Stream(n, k)
  }

  /** The process still has the write end of its own pipe. */
  predicate Holding(f: Proc)
  {
    f.phase.Fork? || f.phase.CloseReadEnd? || f.phase.Loop? || f.phase.Write? || f.phase.CloseWrite?
  }

  /** The setup closes of the process are not done: it still has its parent's write end. */
  predicate Setup(f: Proc)
  {
    f.phase.CloseGrand? || f.phase.CloseInherited?
  }

  /** The process has seen the end of its input. */
  predicate Ended(f: Proc)
  {
    f.phase.Leave? || f.phase.Left? || f.phase.CloseWrite? || f.phase.CloseIn? || f.phase.Wait? || f.phase.Finished?
  }

  predicate Reads(f: Proc)
  {
    !(f.phase.Wait? || f.phase.Finished? || f.phase.Left?)
  }

  /** Pipe k between process k and process k + 1, if that one is there. */
  ghost predicate PipeOk(n: int, cap: nat, k: nat, p: Pipe, a: Proc, child: bool, b: Proc)
  {
    && p.sent <= Stream(n, k) && p.got <= |p.sent| && |p.sent| - p.got <= cap
    && (forall w :: w in p.writers ==> (w == k && Holding(a)) || (w == k + 1 && child && Setup(b)))
    && (Holding(a) ==> k in p.writers)
    && (child && Ended(b) ==> !Holding(a))
    && (child && Reads(b) ==> k + 1 in p.readers)
    && (!child ==> p.got == 0)
  }

  const NOBODY: Proc := Proc(CloseGrand, 0, 0)

  function ChildOf(s: Net, k: int): Proc
  {
    if 0 <= k + 1 < |s.procs| then s.procs[k + 1] else NOBODY
  }

  ghost predicate ProcsOk(s: Net)
  {
    forall k :: 0 <= k < |s.procs| ==> ProcOk(s.n, k, s.procs[k], In(s, k), Out(s, k))
  }

  ghost predicate PipesOk(s: Net)
  {
    forall k :: 0 <= k < |s.pipes| && k < |s.procs| ==>
      PipeOk(s.n, s.cap, k, s.pipes[k], s.procs[k], k + 1 < |s.procs|, ChildOf(s, k))
  }

  /** How many filters have printed. */
  function Printed(s: Net): nat
    requires |s.procs| >= 1
  {
    var last := |s.procs| - 1;
    if last == 0 then 0 else last - 1 + if s.procs[last].phase.MakePipe? || s.procs[last].phase.Fork? then 1 else 0
  }

  ghost predicate Inv(s: Net)
  {
    Shape(s) && ProcsOk(s) && PipesOk(s) && s.out == Heads(s.n, Printed(s))
  }
}
