/** Which processes of the sieve have which pipe ends open (TP0-fork/primes.c), at every moment. */
module SieveEnds {
  import opened Sieve
  import opened SieveRuns
  import opened SieveResults

  /** Has process `k + d` the read end of pipe `k` open? Its writer, until it closes it right after the
      fork; its reader, from its own fork until it closes it at the end; and the reader's child, which
      inherits it and closes it first of all. */
  predicate KeepsRead(d: int, f: Proc)
  {
    || (d == 0 && (f.phase.Fork? || f.phase.CloseReadEnd?))
    || (d == 1 && !(f.phase.Wait? || f.phase.Finished? || f.phase.Left?))
    || (d == 2 && f.phase.CloseGrand?)
  }

  /** And the write end: its writer until the end of its loop, and the reader until its second close. */
  predicate KeepsWrite(d: int, f: Proc)
  {
    || (d == 0 && (f.phase.Fork? || f.phase.CloseReadEnd? || f.phase.Loop? || f.phase.Write? || f.phase.CloseWrite?))
    || (d == 1 && (f.phase.CloseGrand? || f.phase.CloseInherited?))
  }

  ghost predicate EndExact(s: Net, k: nat, w: nat)
    requires k < |s.pipes|
  {
    && (w in s.pipes[k].readers <==> w < |s.procs| && KeepsRead(w - k, s.procs[w]))
    && (w in s.pipes[k].writers <==> w < |s.procs| && KeepsWrite(w - k, s.procs[w]))
  }

  ghost predicate EndsExact(s: Net)
  {
    forall k: nat, w: nat :: k < |s.pipes| ==> EndExact(s, k, w)
  }

  /** A step opens and closes its own process's ends only, but for the child it forks. */
  lemma OthersEnds(s: Net, k: nat, j: nat, w: nat)
    requires Shape(s) && k < |s.procs| && Enabled(s, k) && j < |s.pipes| <= |Next(s, k).pipes|
    requires w != k && w != |s.procs|
    ensures w in Next(s, k).pipes[j].readers <==> w in s.pipes[j].readers
    ensures w in Next(s, k).pipes[j].writers <==> w in s.pipes[j].writers
  {
    hide Queue, Chain, PlaceOk;
    if s.procs[k].phase.Fork? {
      ForkIsLast(s, k);
    }
  }

  /** The step reads, writes or prints, and opens and closes nothing. */
  predicate Moves(f: Proc)
  {
    f.phase.ReadFirst? || f.phase.Loop? || f.phase.Write? || f.phase.Print?
  }

  lemma OwnReads(s: Net, k: nat, j: nat)
    requires Shape(s) && k < |s.procs| && Enabled(s, k) && j < |s.pipes| <= |Next(s, k).pipes|
    requires EndExact(s, j, k) && k < |Next(s, k).procs|
    requires Moves(s.procs[k])
    ensures EndExact(Next(s, k), j, k)
  {
    hide Queue, Chain;
  }

  lemma OwnCloses(s: Net, k: nat, j: nat)
    requires Shape(s) && k < |s.procs| && Enabled(s, k) && j < |s.pipes| <= |Next(s, k).pipes|
    requires EndExact(s, j, k) && k < |Next(s, k).procs|
    requires !Moves(s.procs[k])
    requires s.procs[k].phase.MakePipe? ==> j < k
    requires !s.procs[k].phase.Fork?
    ensures EndExact(Next(s, k), j, k)
  {
    hide Queue, Chain;
    assert PlaceOk(k, s.procs[k]);
  }

  lemma OwnFork(s: Net, k: nat, j: nat)
    requires Shape(s) && k < |s.procs| && s.procs[k].phase.Fork? && Enabled(s, k)
    requires j < |s.pipes| <= |Next(s, k).pipes| && EndExact(s, j, k)
    ensures EndExact(Next(s, k), j, k)
  {
    ForkIsLast(s, k);
    hide Queue, PlaceOk, Chain;
    var t := Next(s, k);
    assert t.procs[k].phase == CloseReadEnd;
    assert k in t.pipes[j].readers <==> k in s.pipes[j].readers;
    assert k in t.pipes[j].writers <==> k in s.pipes[j].writers;
  }

  /** The child of a fork starts with what its parent had: both ends of the new pipe and, in a filter,
      the read end of the parent's own input. */
  lemma ChildEnds(s: Net, k: nat, j: nat)
    requires Shape(s) && k < |s.procs| && s.procs[k].phase.Fork? && Enabled(s, k)
    requires j < |s.pipes| <= |Next(s, k).pipes| && EndExact(s, j, |s.procs|)
    ensures EndExact(Next(s, k), j, |s.procs|)
  {
    ForkIsLast(s, k);
    hide Queue, PlaceOk;
  }

  lemma NobodysEnds(s: Net, k: nat, j: nat, w: nat)
    requires Shape(s) && k < |s.procs| && Enabled(s, k) && !s.procs[k].phase.Fork?
    requires j < |s.pipes| <= |Next(s, k).pipes| && w == |s.procs| && EndExact(s, j, w)
    ensures EndExact(Next(s, k), j, w)
  {
    FrameProcs(s, k, k);
    NobodyGains(s, k, j, w);
    hide Next, Enabled, Shape, KeepsRead, KeepsWrite;
  }

  lemma NobodyGains(s: Net, k: nat, j: nat, w: nat)
    requires Shape(s) && k < |s.procs| && Enabled(s, k) && !s.procs[k].phase.Fork?
    requires j < |s.pipes| <= |Next(s, k).pipes| && w == |s.procs|
    requires w !in s.pipes[j].readers && w !in s.pipes[j].writers
    ensures w !in Next(s, k).pipes[j].readers && w !in Next(s, k).pipes[j].writers
  {
    hide Queue, Chain, PlaceOk;
  }

  lemma MakerIsLast(s: Net, k: nat)
    requires Shape(s) && k < |s.procs| && s.procs[k].phase.MakePipe?
    ensures k == |s.procs| - 1 == |s.pipes|
  {
    hide Queue, PlaceOk, HasIn;
    assert k < |s.procs| - 1 ==> Forked(s.procs[k]);
  }

  lemma NewPipeEnds(s: Net, k: nat, w: nat)
    requires Shape(s) && k < |s.procs| && s.procs[k].phase.MakePipe? && Enabled(s, k)
    ensures |Next(s, k).pipes| == k + 1 && EndExact(Next(s, k), k, w)
  {
    MakerIsLast(s, k);
    hide Queue, Chain, PlaceOk;
  }

  lemma StepEnd(s: Net, k: nat, j: nat, w: nat)
    requires Inv(s) && k < |s.procs| && Enabled(s, k) && EndsExact(s) && j < |Next(s, k).pipes|
    ensures EndExact(Next(s, k), j, w)
  {
    hide Inv, Shape, Next, Enabled, KeepsRead, KeepsWrite;
    FramePipesOf(s, k);
    FrameProcsOf(s, k, w);
    if s.procs[k].phase.MakePipe? {
      MakerOf(s, k);
    }
    if j >= |s.pipes| {
      NewPipeEnds(s, k, w);
    } else {
      assert EndExact(s, j, w);
      if w == |s.procs| {
        if s.procs[k].phase.Fork? {
          ChildEnds(s, k, j);
        } else {
          NobodysEnds(s, k, j, w);
        }
      } else if w != k {
        OthersEnds(s, k, j, w);
      } else if Moves(s.procs[k]) {
        OwnReads(s, k, j);
      } else if s.procs[k].phase.Fork? {
        OwnFork(s, k, j);
      } else {
        OwnCloses(s, k, j);
      }
    }
  }

  lemma MakerOf(s: Net, k: nat)
    requires Inv(s) && k < |s.procs| && s.procs[k].phase.MakePipe?
    ensures Shape(s) && k == |s.procs| - 1 == |s.pipes|
  {
    hide ProcsOk, PipesOk, Printed;
    MakerIsLast(s, k);
  }

  lemma FramePipesOf(s: Net, k: nat)
    requires Inv(s) && k < |s.procs| && Enabled(s, k)
    ensures Shape(s) && |s.pipes| <= |Next(s, k).pipes|
    ensures |Next(s, k).pipes| > |s.pipes| ==> s.procs[k].phase.MakePipe? && |Next(s, k).pipes| == |s.pipes| + 1
  {
    hide ProcsOk, PipesOk, Printed, Next, Shape;
    FramePipes(s, k);
  }

  lemma FrameProcsOf(s: Net, k: nat, w: nat)
    requires Inv(s) && k < |s.procs| && Enabled(s, k)
    ensures Shape(s) && |s.procs| <= |Next(s, k).procs| <= |s.procs| + 1
    ensures w < |s.procs| && w != k ==> Next(s, k).procs[w] == s.procs[w]
  {
    hide ProcsOk, PipesOk, Printed, Next, Shape;
    FrameProcs(s, k, w);
  }

  lemma {:induction false} RunKeepsEnds(s: Net, ks: seq<nat>)
    requires Inv(s) && EndsExact(s) && Runs(s, ks)
    ensures EndsExact(RunOf(s, ks))
    decreases |ks|
  {
    hide Inv, Next, Enabled, EndExact;
    if ks != [] {
      StepKeepsInv(s, ks[0]);
      forall j: nat, w: nat | j < |Next(s, ks[0]).pipes| ensures EndExact(Next(s, ks[0]), j, w) {
        StepEnd(s, ks[0], j, w);
      }
      RunKeepsEnds(Next(s, ks[0]), ks[1..]);
    }
  }

  /** In every interleaving, at every moment, each pipe end is open in exactly the processes said
      above; and when all have exited, in none. */
  lemma EndsOverRuns(n: int, cap: nat, ks: seq<nat>)
    requires cap >= 1 && Runs(Boot(n, cap), ks)
    ensures EndsExact(RunOf(Boot(n, cap), ks))
    ensures var s := RunOf(Boot(n, cap), ks);
      AllExited(s) ==> forall k :: 0 <= k < |s.pipes| ==> s.pipes[k].readers == s.pipes[k].writers == {}
  {
    hide Inv;
    BootInv(n, cap);
    RunKeepsEnds(Boot(n, cap), ks);
    var s := RunOf(Boot(n, cap), ks);
    RunKeepsInv(Boot(n, cap), ks);
    if AllExited(s) {
      ExitedClosed(s);
    }
  }

  lemma ExitedClosed(s: Net)
    requires Inv(s) && AllExited(s) && EndsExact(s)
    ensures forall k :: 0 <= k < |s.pipes| ==> s.pipes[k].readers == s.pipes[k].writers == {}
  {
    hide ProcsOk, PipesOk, Printed, Shape;
    forall k: nat, w: nat | k < |s.pipes| ensures w !in s.pipes[k].readers && w !in s.pipes[k].writers {
      assert EndExact(s, k, w);
      assert w < |s.procs| ==> Exited(s.procs[w]);
    }
  }
}
