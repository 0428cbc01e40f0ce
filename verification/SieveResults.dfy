/** What the runs of the pipe sieve come to (TP0-fork/primes.c): no interleaving gets stuck,
    none goes on for ever, and what is printed is the primes up to n in ascending order. */
module SieveResults {
  import opened Primes
  import opened Sieve
  import opened SieveRuns

  // ----- output -----

  lemma StreamsUsed(s: Net)
    requires Inv(s)
    ensures forall i :: 0 <= i < Printed(s) ==> Stream(s.n, i) != []
  {
    hide PipesOk, Stream, Keep, Heads, HasIn;
    forall i | 0 <= i < Printed(s) ensures Stream(s.n, i) != [] {
      ProcAt(s, i + 1);
      assert i + 1 < |s.procs| - 1 ==> Forked(s.procs[i + 1]);
    }
  }

  /** At every moment what has been printed is primes in ascending order. */
  lemma OutputSoFar(s: Net)
    requires Inv(s)
    ensures Ascending(s.out) && forall x :: x in s.out ==> Prime(x) && 2 <= x <= s.n
  {
    hide ProcsOk, PipesOk, Shape, Stream, Ascending, Prime, Heads;
    StreamsUsed(s);
    HeadsAscend(s.n, Printed(s));
  }

  predicate AllExited(s: Net)
  {
    forall k :: 0 <= k < |s.procs| ==> Exited(s.procs[k])
  }

  /** When all processes have exited it is all the primes up to n. */
  lemma OutputAtEnd(s: Net)
    requires Inv(s) && AllExited(s)
    ensures Ascending(s.out) && forall x :: x in s.out <==> Prime(x) && x <= s.n
  {
    hide PipesOk, Stream, Ascending, Prime, Heads;
    StreamsUsed(s);
    var last := |s.procs| - 1;
    assert Exited(s.procs[last]);
    ProcAt(s, last);
    assert s.procs[last].phase.Left? && Printed(s) == last - 1;
    HeadsArePrimes(s.n, last - 1);
  }

  // ----- pipes -----

  /** Once a process has done its setup closes, its parent is the only one that can hold the
      write end of the pipe between them; so the parent's close is the end of the file. */
  lemma OneWriter(s: Net, k: nat)
    requires Inv(s) && k + 1 < |s.procs| && !Setup(s.procs[k + 1])
    ensures k < |s.pipes| && s.pipes[k].writers == if Holding(s.procs[k]) then {k} else {}
  {
    hide ProcsOk, Heads, Printed, Stream, Forked, HasIn, Holding, Setup, Ended, Reads;
    PipeAt(s, k);
  }

  /** Nobody writes to a pipe that has no reader. */
  lemma NoBrokenPipe(s: Net, k: nat)
    requires Inv(s) && k < |s.procs| && s.procs[k].phase.Write?
    ensures k + 1 < |s.procs| && k < |s.pipes| && k + 1 in s.pipes[k].readers
  {
    hide ProcsOk, Heads, Printed, Stream, HasIn;
    assert Forked(s.procs[k]);
    PipeAt(s, k);
  }

  // ----- no deadlock -----

  lemma WriterGoesOn(s: Net, k: nat) returns (j: nat)
    requires Inv(s) && k < |s.procs| && s.procs[k].phase.Write?
    ensures j < |s.procs| && Enabled(s, j)
    decreases |s.procs| - k
  {
    hide ProcsOk, Heads, Printed, Stream, HasIn;
    assert Forked(s.procs[k]);
    PipeAt(s, k);
    j := k;
    if !Enabled(s, k) {
      var b := s.procs[k + 1];
      if b.phase.Write? {
        j := WriterGoesOn(s, k + 1);
      } else {
        j := k + 1;
        assert !Ended(b) && Queue(s.pipes[k]) != [];
      }
    }
  }

  lemma ReaderGoesOn(s: Net, k: nat) returns (j: nat)
    requires Inv(s) && k < |s.procs| && (s.procs[k].phase.ReadFirst? || s.procs[k].phase.Loop?)
    ensures j < |s.procs| && Enabled(s, j)
    decreases k
  {
    hide ProcsOk, Heads, Printed, Stream;
    assert PlaceOk(k, s.procs[k]);
    j := k;
    if !Enabled(s, k) {
      OneWriter(s, k - 1);
      var a := s.procs[k - 1];
      assert Forked(a) && Holding(a);
      if a.phase.Loop? {
        j := ReaderGoesOn(s, k - 1);
      } else if a.phase.Write? {
        j := WriterGoesOn(s, k - 1);
      } else {
        j := k - 1;
      }
    }
  }

  lemma WaiterGoesOn(s: Net, k: nat) returns (j: nat)
    requires Inv(s) && k < |s.procs| && !Exited(s.procs[k])
    ensures j < |s.procs| && Enabled(s, j)
    decreases |s.procs| - k
  {
    hide ProcsOk, PipesOk, Heads, Printed, Stream, HasIn;
    var f := s.procs[k];
    if f.phase.Write? {
      j := WriterGoesOn(s, k);
    } else if f.phase.ReadFirst? || f.phase.Loop? {
      j := ReaderGoesOn(s, k);
    } else if f.phase.Wait? && !Exited(s.procs[k + 1]) {
      j := WaiterGoesOn(s, k + 1);
    } else {
      j := k;
    }
  }

  /** No deadlock with pipes of any size: as long as a process has not exited, some process
      can take a step. */
  lemma NoDeadlock(s: Net)
    requires Inv(s) && !AllExited(s)
    ensures exists k: nat :: k < |s.procs| && Enabled(s, k)
  {
    hide Inv, Enabled;
    var k :| 0 <= k < |s.procs| && !Exited(s.procs[k]);
    var j := WaiterGoesOn(s, k);
  }

  // ----- no run goes on for ever -----

  /** How many processes there can be: one for each number and two more. */
  function Most(n: int): nat
  {
    |Range(n)| + 2
  }

  function Input(n: int, k: nat): nat
  {
    if k == 0 then |Range(n)| else |Stream(n, k - 1)|
  }

  /** The numbers a process has still to take in (main: to write). */
  function LeftToDo(n: int, k: nat, i: Pipe, o: Pipe): int
  {
    Input(n, k) - if k == 0 then |o.sent| else i.got
  }

  function PhaseRank(p: Phase): nat
  {
    match p
    case CloseGrand => 12 case CloseInherited => 11 case ReadFirst => 10 case Print => 9
    case MakePipe => 8 case Fork => 7 case CloseReadEnd => 6 case Write => 5 case Loop => 4
    case CloseWrite => 3 case CloseIn => 2 case Leave => 2 case Wait => 1 case Finished => 0 case Left => 0
  }

  function ProcRank(n: int, k: nat, f: Proc, i: Pipe, o: Pipe): int
  {
    PhaseRank(f.phase) + if PhaseRank(f.phase) >= 4 then 2 * LeftToDo(n, k, i, o) else 0
  }

  /** The rank of process k; one that is still to be forked has its whole life before it. */
  function Rank(s: Net, k: nat): int
  {
    if k < |s.procs| then ProcRank(s.n, k, s.procs[k], In(s, k), Out(s, k))
    else 13 + 2 * Input(s.n, k)
  }

  function Total(s: Net, m: nat): int
  {
    if m == 0 then 0 else Total(s, m - 1) + Rank(s, m - 1)
  }

  lemma LeftNatural(s: Net, k: nat)
    requires Inv(s) && k < |s.procs|
    ensures LeftToDo(s.n, k, In(s, k), Out(s, k)) >= 0
  {
    hide ProcsOk, Heads, Printed, HasIn, Forked, Holding, Setup, Ended, Reads, Keep;
    if k >= 1 {
      PipeAt(s, k - 1);
    } else if |s.pipes| > 0 {
      PipeAt(s, 0);
    }
  }

  lemma {:induction false} TotalNatural(s: Net, m: nat)
    requires Inv(s)
    ensures Total(s, m) >= 0
  {
    hide Inv, LeftToDo, PhaseRank;
    if m > 0 {
      TotalNatural(s, m - 1);
      if m - 1 < |s.procs| {
        LeftNatural(s, m - 1);
      }
    }
  }

  /** There are never more processes than that. */
  lemma FewProcesses(s: Net)
    requires Inv(s)
    ensures |s.procs| <= Most(s.n)
  {
    hide PipesOk, Heads, Printed, Stream, HasIn;
    var last := |s.procs| - 1;
    if last >= 2 {
      assert Forked(s.procs[last - 1]);
      ProcAt(s, last - 1);
      StreamLength(s.n, last - 2);
    }
  }

  lemma RankSetup(s: Net, k: nat)
    requires Shape(s) && Local(s, k) && Enabled(s, k) && k < |Next(s, k).procs|
    requires LeftToDo(s.n, k, In(s, k), Out(s, k)) >= 0
    requires var f := s.procs[k].phase; f.CloseGrand? || f.CloseInherited? || f.Leave? || f.Print? || f.MakePipe?
    ensures Rank(Next(s, k), k) < Rank(s, k)
  {
    hide Stream, Keep, EndIsReal, PipeOk;
  }

  lemma RankFork(s: Net, k: nat)
    requires Shape(s) && Local(s, k) && Enabled(s, k) && k < |Next(s, k).procs|
    requires LeftToDo(s.n, k, In(s, k), Out(s, k)) >= 0
    requires var f := s.procs[k].phase; f.Fork? || f.CloseReadEnd?
    ensures Rank(Next(s, k), k) < Rank(s, k)
  {
    hide Stream, Keep, EndIsReal, PipeOk;
  }

  lemma RankReads(s: Net, k: nat)
    requires Shape(s) && Local(s, k) && Enabled(s, k) && k < |Next(s, k).procs|
    requires LeftToDo(s.n, k, In(s, k), Out(s, k)) >= 0
    requires var f := s.procs[k].phase; f.ReadFirst? || f.Loop?
    ensures Rank(Next(s, k), k) < Rank(s, k)
  {
    hide Stream, Keep, EndIsReal, PipeOk;
  }

  lemma RankWrites(s: Net, k: nat)
    requires Shape(s) && Local(s, k) && Enabled(s, k) && k < |Next(s, k).procs|
    requires LeftToDo(s.n, k, In(s, k), Out(s, k)) >= 0
    requires var f := s.procs[k].phase; f.Write?
    ensures Rank(Next(s, k), k) < Rank(s, k)
  {
    hide Stream, Keep, EndIsReal, PipeOk;
  }

  lemma RankCloses(s: Net, k: nat)
    requires Shape(s) && Local(s, k) && Enabled(s, k) && k < |Next(s, k).procs|
    requires LeftToDo(s.n, k, In(s, k), Out(s, k)) >= 0
    requires var f := s.procs[k].phase; f.CloseWrite? || f.CloseIn? || f.Wait?
    ensures Rank(Next(s, k), k) < Rank(s, k)
  {
    hide Stream, Keep, EndIsReal, PipeOk;
  }

  lemma {:induction false} OwnRank(s: Net, k: nat)
    requires Shape(s) && Local(s, k) && Enabled(s, k) && k < |Next(s, k).procs|
    requires LeftToDo(s.n, k, In(s, k), Out(s, k)) >= 0
    ensures Rank(Next(s, k), k) < Rank(s, k)
  {
    hide Local, Shape, Next, Rank, LeftToDo;
    match s.procs[k].phase
    case CloseGrand => RankSetup(s, k);
    case CloseInherited => RankSetup(s, k);
    case ReadFirst => RankReads(s, k);
    case Leave => RankSetup(s, k);
    case Print => RankSetup(s, k);
    case MakePipe => RankSetup(s, k);
    case Fork => RankFork(s, k);
    case CloseReadEnd => RankFork(s, k);
    case Loop => RankReads(s, k);
    case Write => RankWrites(s, k);
    case CloseWrite => RankCloses(s, k);
    case CloseIn => RankCloses(s, k);
    case Wait => RankCloses(s, k);
    case _ =>
  }

  lemma OtherRank(s: Net, k: nat, j: nat)
    requires Inv(s) && k < |s.procs| && Enabled(s, k) && j != k
    ensures Rank(Next(s, k), j) <= Rank(s, j)
  {
    hide Next, Enabled, ProcOk, ProcsOk, PipesOk, Heads, Printed, HasIn, Queue, Stream, Forked;
    var t := Next(s, k);
    FrameProcs(s, k, j);
    FramePipes(s, k);
    if j < |s.procs| {
      if 1 <= j <= |s.pipes| {
        FrameSent(s, k, j - 1);
      }
      if j < |s.pipes| {
        FrameSent(s, k, j);
      }
      if s.procs[k].phase.MakePipe? {
        NewPipeIsOwn(s, k);
      }
    } else if j < |t.procs| {
      ForkIsLast(s, k);
      PipeAt(s, k);
      FrameSent(s, k, k);
    }
  }

  lemma {:induction false} TotalDrops(s: Net, k: nat, m: nat)
    requires Inv(s) && k < |s.procs| && Enabled(s, k)
    ensures Total(Next(s, k), m) <= Total(s, m) - if k < m then 1 else 0
  {
    hide Next, Enabled, Rank, Local, Shape, ProcsOk, PipesOk, Heads, Printed;
    if m > 0 {
      TotalDrops(s, k, m - 1);
      if m - 1 == k {
        LocalAt(s, k);
        LeftNatural(s, k);
        FrameProcs(s, k, k);
        OwnRank(s, k);
      } else {
        OtherRank(s, k, m - 1);
      }
    }
  }

  // ----- runs -----

  predicate Runs(s: Net, ks: seq<nat>)
    decreases |ks|
  {
    ks != [] ==> Shape(s) && ks[0] < |s.procs| && Enabled(s, ks[0]) && Runs(Next(s, ks[0]), ks[1..])
  }

  function RunOf(s: Net, ks: seq<nat>): Net
    requires Runs(s, ks)
    decreases |ks|
  {
    if ks == [] then s else RunOf(Next(s, ks[0]), ks[1..])
  }

  /** Every interleaving keeps the invariant, and it has at most Total steps. */
  lemma {:induction false} RunKeepsInv(s: Net, ks: seq<nat>)
    requires Inv(s) && Runs(s, ks)
    ensures Inv(RunOf(s, ks)) && RunOf(s, ks).n == s.n
    ensures |ks| <= Total(s, Most(s.n))
    decreases |ks|
  {
    hide Inv, Next, Enabled, Total, Most;
    if ks == [] {
      TotalNatural(s, Most(s.n));
    } else {
      StepKeepsInv(s, ks[0]);
      FewProcesses(s);
      TotalDrops(s, ks[0], Most(s.n));
      RunKeepsInv(Next(s, ks[0]), ks[1..]);
    }
  }

  lemma {:induction false} BootTotal(n: int, cap: nat, m: nat)
    requires m <= Most(n)
    ensures Total(Boot(n, cap), m) <= m * (2 * |Range(n)| + 13)
  {
    hide Stream, Range;
    if m > 0 {
      BootTotal(n, cap, m - 1);
      RankAtBoot(n, cap, m - 1);
      assert m * (2 * |Range(n)| + 13) == (m - 1) * (2 * |Range(n)| + 13) + (2 * |Range(n)| + 13);
    }
  }

  lemma RankAtBoot(n: int, cap: nat, k: nat)
    ensures Rank(Boot(n, cap), k) <= 2 * |Range(n)| + 13
  {
    hide Stream, Range;
    if k > 0 {
      StreamLength(n, k - 1);
    }
  }

  /** The whole program, for any n, any pipe size and any schedule: the run is no longer than a
      bound that depends on n alone; what it has printed is primes in ascending order; and if
      nothing more can be done, all processes have exited and it is all the primes up to n. */
  lemma SievePrintsPrimes(n: int, cap: nat, ks: seq<nat>)
    requires cap >= 1 && Runs(Boot(n, cap), ks)
    ensures |ks| <= (|Range(n)| + 2) * (2 * |Range(n)| + 13)
    ensures var s := RunOf(Boot(n, cap), ks);
      && Shape(s) && Ascending(s.out) && (forall x :: x in s.out ==> Prime(x) && 2 <= x <= n)
      && ((forall k: nat :: k < |s.procs| ==> !Enabled(s, k)) ==>
            AllExited(s) && forall x :: x in s.out <==> Prime(x) && x <= n)
  {
    hide Next, Enabled, Total, ProcsOk, PipesOk, Prime, Ascending, Heads, Printed, AllExited, Range;
    BootInv(n, cap);
    BootTotal(n, cap, Most(n));
    RunKeepsInv(Boot(n, cap), ks);
    var s := RunOf(Boot(n, cap), ks);
    OutputSoFar(s);
    if AllExited(s) {
      OutputAtEnd(s);
    } else {
      NoDeadlock(s);
    }
  }
}
