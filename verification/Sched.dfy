/** The two schedulers of TP2-sched/kern/sched.c: the scan-and-age priority scheduler with its
    reset, and round robin, each with the bound on how long a runnable environment waits. */
module Sched {
  import opened Common

  const PRIORIDAD_MIN: int := 1
  const PRIORIDAD_MAX: int := 10

  datatype Env = Env(status: Status, priority: int, runs: nat, cpunum: int)

  datatype Choice = Run(e: nat) | Halt

  /** How far `i` lies from `start` going up and around a table of `n` slots. */
  function Dist(n: nat, start: nat, i: nat): (d: nat)
    requires i < n && start <= n
    ensures d < n && (start + d) % n == i
  {
    Wrap(if i >= start then i else i + n, n);
    if i >= start then i - start else i + n - start
  }

  predicate Eligible(e: Env)
  {
    e.status.RUNNABLE? && e.priority <= PRIORIDAD_MAX
  }

  // ---- priorities: what is chosen, and what choosing does ----

  /** `i` has the lowest priority among the eligible, and is the first such from `start`. */
  predicate Chosen(envs: seq<Env>, start: nat, i: nat)
    requires start <= |envs|
  {
    && i < |envs| && Eligible(envs[i])
    && forall j :: 0 <= j < |envs| && Eligible(envs[j]) ==> Before(envs, start, i, j)
  }

  /** Lower priority first; among equals, the one met earlier on the way round from `start`. */
  predicate Before(envs: seq<Env>, start: nat, i: nat, j: nat)
    requires start <= |envs| && i < |envs| && j < |envs|
  {
    || envs[i].priority < envs[j].priority
    || (envs[i].priority == envs[j].priority && Dist(|envs|, start, i) <= Dist(|envs|, start, j))
  }

  lemma ChosenUnique(envs: seq<Env>, start: nat, i: nat, j: nat)
    requires start <= |envs| && Chosen(envs, start, i) && Chosen(envs, start, j)
    ensures i == j
  {
    assert Before(envs, start, i, j) && Before(envs, start, j, i);
    assert Dist(|envs|, start, i) == Dist(|envs|, start, j);
  }

  function ResetEnv(e: Env): Env
  {
    if e.status.RUNNABLE? then e.(priority := PRIORIDAD_MIN) else e
  }

  /** Every runnable priority goes back to the minimum. */
  function Reset(envs: seq<Env>): (r: seq<Env>)
    ensures |r| == |envs| && forall i :: 0 <= i < |envs| ==> r[i] == ResetEnv(envs[i])
  {
    seq(|envs|, i requires 0 <= i < |envs| => ResetEnv(envs[i]))
  }

  /** The accounting done for the chosen environment: reset, or age it if it has run before;
      then count the run. */
  function Charge(envs: seq<Env>, i: nat): (r: seq<Env>)
    requires i < |envs|
    ensures |r| == |envs|
  {
    var aged :=
      if envs[i].priority == PRIORIDAD_MAX then Reset(envs)
      else if envs[i].runs > 0 then envs[i := envs[i].(priority := envs[i].priority + 1)]
      else envs;
    aged[i := aged[i].(runs := aged[i].runs + 1)]
  }

  /** env_run: a curenv still running steps down, the new one runs. */
  function Dispatch(envs: seq<Env>, cur: int, i: nat): (r: seq<Env>)
    requires i < |envs| && -1 <= cur < |envs|
    ensures |r| == |envs|
  {
    var down := if cur >= 0 && envs[cur].status.RUNNING? && cur != i
                then envs[cur := envs[cur].(status := RUNNABLE)] else envs;
    down[i := down[i].(status := RUNNING, runs := down[i].runs + 1)]
  }

  class Scheduler {
    const envs: array<Env>

    constructor (n: nat)
      ensures fresh(envs) && envs.Length == n
      ensures forall i :: 0 <= i < n ==> envs[i] == Env(FREE, 0, 0, 0)
    {
      envs := new Env[n](_ => Env(FREE, 0, 0, 0));
    }

    method EnvRun(cur: int, i: nat)
      requires i < envs.Length && -1 <= cur < envs.Length
      modifies envs
      ensures envs[..] == Dispatch(old(envs[..]), cur, i)
      ensures envs[i] == old(envs[i]).(status := RUNNING, runs := old(envs[i]).runs + 1)
      ensures forall j :: 0 <= j < envs.Length && j != i ==>
        envs[j] == if j == cur && old(envs[j]).status.RUNNING? then old(envs[j]).(status := RUNNABLE) else old(envs[j])
    {
      if cur >= 0 && envs[cur].status.RUNNING? && cur != i {
        envs[cur] := envs[cur].(status := RUNNABLE);
      }
      envs[i] := envs[i].(status := RUNNING);
      envs[i] := envs[i].(runs := envs[i].runs + 1);
    }

    /** The scan: circular, from just after curenv, keeping the first strictly lower priority. */
    method Scan(start: nat) returns (elegido: int)
      requires envs.Length > 0 && start <= envs.Length
      ensures elegido >= 0 ==> Chosen(envs[..], start, elegido)
      ensures elegido < 0 ==> forall j :: 0 <= j < envs.Length ==> !Eligible(envs[j])
    {
      elegido := -1;
      var actual := PRIORIDAD_MAX + 1;
      var n := envs.Length;
      for i := 0 to n
        invariant elegido < 0 ==> actual == PRIORIDAD_MAX + 1
        invariant elegido >= 0 ==>
          && elegido < n && Eligible(envs[elegido]) && envs[elegido].priority == actual
          && Dist(n, start, elegido) < i
        invariant forall j :: 0 <= j < n && Dist(n, start, j) < i && Eligible(envs[j]) ==>
          elegido >= 0 && (actual < envs[j].priority
            || (actual == envs[j].priority && Dist(n, start, elegido) <= Dist(n, start, j)))
      {
        var ind := (i + start) % n;
        DistOf(n, start, i);
        if envs[ind].status.RUNNABLE? {
          if envs[ind].priority < actual {
            elegido := ind;
            actual := envs[ind].priority;
          }
        }
      }
    }

    /** sched_prioridades on a CPU with number `cpu`; `cur` is its curenv, or -1. */
    method SchedPrioridades(cur: int, cpu: int) returns (c: Choice)
      requires envs.Length > 0 && -1 <= cur < envs.Length
      modifies envs
      ensures var s := old(envs[..]);
        if exists j :: 0 <= j < |s| && Eligible(s[j]) then
          c.Run? && c.e < |s| && Chosen(s, cur + 1, c.e) && envs[..] == Dispatch(Charge(s, c.e), cur, c.e)
        else if cur >= 0 && s[cur].status.RUNNING? && s[cur].cpunum == cpu then
          c == Run(cur) && envs[..] == Dispatch(s, cur, cur)
        else
          c == Halt && envs[..] == s
    {
      ghost var s := envs[..];
      var elegido := Scan(cur + 1);
      if elegido < 0 && cur >= 0 && envs[cur].status.RUNNING? && envs[cur].cpunum == cpu {
        EnvRun(cur, cur);
        return Run(cur);
      }
      if elegido >= 0 {
        assert Eligible(s[elegido]);
        if envs[elegido].priority == PRIORIDAD_MAX {
          ResetAll();
        } else if envs[elegido].runs > 0 {
          envs[elegido] := envs[elegido].(priority := envs[elegido].priority + 1);
        }
        envs[elegido] := envs[elegido].(runs := envs[elegido].runs + 1);
        assert envs[..] == Charge(s, elegido);
        EnvRun(cur, elegido);
        return Run(elegido);
      }
      return Halt;
    }

    method ResetAll()
      modifies envs
      ensures envs[..] == Reset(old(envs[..]))
      ensures forall j :: 0 <= j < envs.Length ==>
        envs[j] == if old(envs[j]).status.RUNNABLE? then old(envs[j]).(priority := 1) else old(envs[j])
    {
      for i := 0 to envs.Length
        invariant forall j :: 0 <= j < i ==> envs[j] == ResetEnv(old(envs[j]))
        invariant forall j :: i <= j < envs.Length ==> envs[j] == old(envs[j])
      {
        if envs[i].status.RUNNABLE? {
          envs[i] := envs[i].(priority := PRIORIDAD_MIN);
        }
      }
    }

    /** The round-robin branch of sched_yield: the scan starts at curenv itself, or at slot 0. */
    method SchedRoundRobin(cur: int) returns (c: Choice)
      requires envs.Length > 0 && -1 <= cur < envs.Length
      modifies envs
      ensures var s := old(envs[..]); var start := if cur >= 0 then cur else 0;
        if exists j :: 0 <= j < |s| && s[j].status.RUNNABLE? then
          c.Run? && FirstFrom(s, start, c.e) && envs[..] == Dispatch(s, cur, c.e)
        else if cur >= 0 && s[cur].status.RUNNING? then
          c == Run(cur) && envs[..] == Dispatch(s, cur, cur)
        else
          c == Halt && envs[..] == s
    {
      ghost var s := envs[..];
      var n := envs.Length;
      var start := if cur >= 0 then cur else 0;
      for i := 0 to n
        invariant envs[..] == s
        invariant forall j :: 0 <= j < n && Dist(n, start, j) < i ==> !s[j].status.RUNNABLE?
      {
        var indice := (start + i) % n;
        DistOf(n, start, i);
        if envs[indice].status.RUNNABLE? {
          EnvRun(cur, indice);
          return Run(indice);
        }
      }
      assert forall j :: 0 <= j < n ==> Dist(n, start, j) < n;
      if cur >= 0 && envs[cur].status.RUNNING? {
        EnvRun(cur, cur);
        return Run(cur);
      }
      return Halt;
    }
  }

  /** The choice, slot by slot: nobody runnable has a lower priority, and nobody met earlier on the
      way round from `start` has the same one. */
  lemma {:induction false} ChosenMeans(envs: seq<Env>, start: nat, i: nat)
    requires start <= |envs| && i < |envs|
    ensures Chosen(envs, start, i) <==>
      && envs[i].status == RUNNABLE && envs[i].priority <= 10
      && forall j :: 0 <= j < |envs| && j != i && envs[j].status == RUNNABLE ==>
           && envs[i].priority <= envs[j].priority
           && (Dist(|envs|, start, j) < Dist(|envs|, start, i) ==> envs[i].priority < envs[j].priority)
  {
    if Chosen(envs, start, i) {
      forall j | 0 <= j < |envs| && j != i && envs[j].status == RUNNABLE
        ensures envs[i].priority <= envs[j].priority
        ensures Dist(|envs|, start, j) < Dist(|envs|, start, i) ==> envs[i].priority < envs[j].priority
      {
        assert Eligible(envs[j]) ==> Before(envs, start, i, j);
      }
    }
  }

  /** What a pick does to the table as a whole: the chosen environment runs, counted twice, at the
      minimum if it was at the maximum and otherwise one higher if it had run before; the old
      curenv steps down; and if the chosen one was at the maximum, everybody runnable is back at the
      minimum. */
  lemma PickEffects(s: seq<Env>, cur: int, i: nat, j: nat)
    requires i < |s| && -1 <= cur < |s| && j < |s| && s[i].status == RUNNABLE
    ensures var t := Dispatch(Charge(s, i), cur, i);
      && |t| == |s| && t[j].cpunum == s[j].cpunum
      && t[j].status == (if j == i then RUNNING else if j == cur && s[j].status == RUNNING then RUNNABLE
                         else s[j].status)
      && t[j].runs == (if j == i then s[j].runs + 2 else s[j].runs)
      && t[j].priority == (if s[i].priority == 10 then (if s[j].status == RUNNABLE then 1 else s[j].priority)
                           else if j == i && s[j].runs > 0 then s[j].priority + 1 else s[j].priority)
  {
  }

  lemma Wrap(x: nat, n: nat)
    requires 0 < n && x < 2 * n
    ensures x % n == if x < n then x else x - n
  {
    if x >= n {
      var q := x / n;
      assert x == q * n + x % n;
      assert q >= 2 ==> q * n >= 2 * n;
      assert q == 1;
    }
  }

  lemma DistOf(n: nat, start: nat, i: nat)
    requires i < n && start <= n
    ensures (i + start) % n < n && Dist(n, start, (i + start) % n) == i
    ensures forall j :: 0 <= j < n && Dist(n, start, j) == i ==> j == (i + start) % n
  {
    Wrap(i + start, n);
  }

  // ---- no starvation under priorities ----

  function LiveFrom(envs: seq<Env>, from: nat): set<nat>
  {
    set i: nat | from <= i < |envs| && !envs[i].status.FREE?
  }

  function Live(envs: seq<Env>): nat
  {
    |LiveFrom(envs, 0)|
  }

  function Max0(x: int): nat { if x > 0 then x else 0 }

  /** How many more times another environment can be chosen before the waiting one: once
      without ageing if it has never run, then once per priority level below the limit (10,
      and one more after the reset to come; or 2 once the reset has happened). */
  function Weight(e: Env, reset: bool): nat
  {
    if e.status.FREE? then 0
    else (if e.runs == 0 then 1 else 0) + if reset then Max0(2 - e.priority) else Max0(10 - e.priority) + 1
  }

  function Others(envs: seq<Env>, w: nat, reset: bool, from: nat): nat
    requires from <= |envs|
    decreases |envs| - from
  {
    if from == |envs| then 0
    else (if from == w then 0 else Weight(envs[from], reset)) + Others(envs, w, reset, from + 1)
  }

  function Potential(envs: seq<Env>, w: nat, reset: bool): nat
  {
    Others(envs, w, reset, 0) + if reset then 0 else 1
  }

  /** What may happen between two picks while environment `w` waits: other environments change
      status in any way except being created, raise their priority and run; `w` stays as it is. */
  predicate Between(s: seq<Env>, t: seq<Env>, w: nat)
  {
    && |s| == |t| && w < |s| && t[w].status.RUNNABLE? && t[w].priority == s[w].priority
    && forall f :: 0 <= f < |s| && f != w ==>
         (s[f].status.FREE? ==> t[f].status.FREE?) && t[f].priority >= s[f].priority && t[f].runs >= s[f].runs
  }

  datatype Round = Round(start: nat, chosen: nat, after: seq<Env>)

  /** `rounds` is a run of picks none of which chooses `w`. */
  predicate Waits(s: seq<Env>, w: nat, rounds: seq<Round>)
    decreases |rounds|
  {
    && w < |s| && s[w].status.RUNNABLE?
    && (rounds == [] ||
         var r := rounds[0];
         && r.start <= |s| && Chosen(s, r.start, r.chosen) && r.chosen != w
         && Between(Charge(s, r.chosen), r.after, w)
         && Waits(r.after, w, rounds[1..]))
  }

  /** How many of the picks reset the priorities. */
  function Resets(s: seq<Env>, rounds: seq<Round>): nat
    decreases |rounds|
  {
    if rounds == [] then 0
    else (if rounds[0].chosen < |s| && s[rounds[0].chosen].priority == PRIORIDAD_MAX then 1 else 0)
         + Resets(rounds[0].after, rounds[1..])
  }

  lemma OthersMonotone(s: seq<Env>, t: seq<Env>, w: nat, reset: bool, reset': bool, from: nat)
    requires |s| == |t| && from <= |s|
    requires forall f :: from <= f < |s| && f != w ==> Weight(t[f], reset') <= Weight(s[f], reset)
    ensures Others(t, w, reset', from) <= Others(s, w, reset, from)
    decreases |s| - from
  {
    if from < |s| {
      OthersMonotone(s, t, w, reset, reset', from + 1);
    }
  }

  lemma {:induction false} OthersDrop(s: seq<Env>, t: seq<Env>, w: nat, reset: bool, reset': bool, c: nat, from: nat)
    requires |s| == |t| && from <= c < |s| && c != w
    requires forall f :: from <= f < |s| && f != w ==> Weight(t[f], reset') <= Weight(s[f], reset)
    requires Weight(t[c], reset') < Weight(s[c], reset)
    ensures Others(t, w, reset', from) < Others(s, w, reset, from)
    decreases |s| - from
  {
    if from == c {
      OthersMonotone(s, t, w, reset, reset', from + 1);
    } else {
      OthersDrop(s, t, w, reset, reset', c, from + 1);
    }
  }

  /** The state of a waiting environment: eligible before the reset, at the minimum after it. */
  predicate Waiting(s: seq<Env>, w: nat, reset: bool)
  {
    && w < |s| && s[w].status.RUNNABLE?
    && if reset then s[w].priority == PRIORIDAD_MIN else s[w].priority <= PRIORIDAD_MAX
  }

  /** A pick of another environment uses up potential; it resets only if none did before. */
  lemma PickDrops(s: seq<Env>, t: seq<Env>, w: nat, start: nat, c: nat, reset: bool)
    requires start <= |s| && Chosen(s, start, c) && c != w && Waiting(s, w, reset)
    requires Between(Charge(s, c), t, w)
    ensures var resets := s[c].priority == PRIORIDAD_MAX;
      && !(reset && resets)
      && Waiting(t, w, reset || resets)
      && Potential(t, w, reset || resets) < Potential(s, w, reset)
  {
    assert Eligible(s[w]);
    var u := Charge(s, c);
    if s[c].priority == PRIORIDAD_MAX {
      forall f | 0 <= f < |s| && f != w ensures Weight(t[f], true) <= Weight(s[f], false) {
        assert u[f].status == s[f].status;
        assert u[f].priority == if s[f].status.RUNNABLE? then 1 else s[f].priority;
      }
      OthersMonotone(s, t, w, false, true, 0);
    } else {
      forall f | 0 <= f < |s| && f != w ensures Weight(t[f], reset) <= Weight(s[f], reset) {
        assert f != c ==> u[f] == s[f];
      }
      OthersDrop(s, t, w, reset, reset, c, 0);
    }
  }

  lemma {:induction false} WaitBounded(s: seq<Env>, w: nat, rounds: seq<Round>, reset: bool)
    requires Waits(s, w, rounds) && Waiting(s, w, reset)
    ensures |rounds| <= Potential(s, w, reset)
    ensures Resets(s, rounds) <= if reset then 0 else 1
    decreases |rounds|
  {
    if rounds != [] {
      var r := rounds[0];
      PickDrops(s, r.after, w, r.start, r.chosen, reset);
      WaitBounded(r.after, w, rounds[1..], reset || s[r.chosen].priority == PRIORIDAD_MAX);
    }
  }

  lemma {:induction false} OthersBound(s: seq<Env>, w: nat, from: nat)
    requires from <= |s| && forall f :: 0 <= f < |s| ==> s[f].priority >= 0
    ensures Others(s, w, false, from) + (if from <= w < |s| && !s[w].status.FREE? then 12 else 0)
      <= 12 * |LiveFrom(s, from)|
    decreases |s| - from
  {
    if from < |s| {
      OthersBound(s, w, from + 1);
      assert LiveFrom(s, from) == LiveFrom(s, from + 1) + if s[from].status.FREE? then {} else {from};
    }
  }

  /** No starvation: an environment that stays runnable with priority at most 10 is passed over
      at most 12(n - 1) + 1 times among n live environments, so it is chosen within
      12(n - 1) + 2 picks, and the priorities are reset at most once while it waits. */
  lemma {:induction false} NoStarvation(s: seq<Env>, w: nat, rounds: seq<Round>)
    requires Waits(s, w, rounds) && s[w].priority <= PRIORIDAD_MAX
    requires forall f :: 0 <= f < |s| ==> s[f].priority >= 0
    ensures |rounds| <= 12 * (Live(s) - 1) + 1
    ensures Resets(s, rounds) <= 1
  {
    WaitBounded(s, w, rounds, false);
    OthersBound(s, w, 0);
  }

  /** Someone is always chosen while an eligible environment waits. */
  lemma {:induction false} SomeoneChosen(s: seq<Env>, start: nat, w: nat) returns (c: nat)
    requires start <= |s| && w < |s| && Eligible(s[w])
    requires forall f :: 0 <= f < |s| ==> s[f].priority >= 0
    ensures Chosen(s, start, c)
    decreases s[w].priority, Dist(|s|, start, w)
  {
    c := w;
    if !Chosen(s, start, w) {
      var j :| 0 <= j < |s| && Eligible(s[j]) && !Before(s, start, w, j);
      c := SomeoneChosen(s, start, j);
    }
  }

  // ---- round robin ----

  /** The first runnable slot going up and around from `start`. */
  predicate FirstFrom(s: seq<Env>, start: nat, i: nat)
  {
    && start < |s| && i < |s| && s[i].status.RUNNABLE?
    && forall j :: 0 <= j < |s| && s[j].status.RUNNABLE? ==> Dist(|s|, start, i) <= Dist(|s|, start, j)
  }

  /** Nobody runnable is met before the one picked. */
  lemma FirstFromMeans(s: seq<Env>, start: nat, i: nat)
    requires start < |s| && i < |s|
    ensures FirstFrom(s, start, i) <==>
      && s[i].status == RUNNABLE
      && forall j :: 0 <= j < |s| && Dist(|s|, start, j) < Dist(|s|, start, i) ==> s[j].status != RUNNABLE
  {
  }

  /** `picks` are consecutive choices of one CPU whose curenv is the previous choice and is not
      runnable when it yields; environment `w` is runnable throughout and never chosen. */
  predicate RobinWaits(n: nat, cur: nat, w: nat, tables: seq<seq<Env>>, picks: seq<nat>)
    decreases |picks|
  {
    && |tables| == |picks|
    && (picks != [] ==>
          && |tables[0]| == n && cur < n && w < n
          && !tables[0][cur].status.RUNNABLE? && tables[0][w].status.RUNNABLE?
          && FirstFrom(tables[0], cur, picks[0]) && picks[0] != w
          && RobinWaits(n, picks[0], w, tables[1..], picks[1..]))
  }

  /** Each pick brings curenv strictly closer to the waiting environment. */
  lemma RobinCloser(s: seq<Env>, cur: nat, w: nat, i: nat)
    requires cur < |s| && w < |s| && !s[cur].status.RUNNABLE? && s[w].status.RUNNABLE?
    requires FirstFrom(s, cur, i) && i != w
    ensures Dist(|s|, i, w) < Dist(|s|, cur, w)
  {
    assert Dist(|s|, cur, i) <= Dist(|s|, cur, w);
    assert i != cur;
  }

  /** Round robin passes over a waiting environment at most Dist(curenv, w) - 1 times, so it is
      picked within n - 1 yields. */
  lemma {:induction false} RobinWaitBounded(n: nat, cur: nat, w: nat, tables: seq<seq<Env>>, picks: seq<nat>)
    requires RobinWaits(n, cur, w, tables, picks) && cur < n && w < n && cur != w
    ensures |picks| + 1 <= Dist(n, cur, w) <= n - 1
    decreases |picks|
  {
    if picks != [] {
      RobinCloser(tables[0], cur, w, picks[0]);
      RobinWaitBounded(n, picks[0], w, tables[1..], picks[1..]);
    }
  }

  /** The condition on curenv is needed: the scan begins at curenv itself, so a curenv that is
      runnable when it yields is picked again, whoever waits. */
  lemma RobinRepicksRunnable(s: seq<Env>, cur: nat, i: nat)
    requires FirstFrom(s, cur, i)
    ensures i == cur <==> s[cur].status.RUNNABLE?
  {
  }
}
