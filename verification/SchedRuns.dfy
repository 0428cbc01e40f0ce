/** sched_prioridades of TP2-sched/kern/sched.c on one CPU, pick by pick: the exact number of times a
    runnable environment can be passed over, and what happens above priority 10. */
module SchedRuns {
  import opened Common
  import opened Sched

  // ---- how often one CPU can pass over a waiting environment ----

  /** The runs of NoStarvation in which every pick is by the only CPU: the scan starts just after its
      curenv, which is the environment it picked last, or at slot 0 once that one is gone. */
  predicate OneCpu(s: seq<Env>, cur: int, w: nat, rounds: seq<Round>)
    decreases |rounds|
  {
    && w < |s| && s[w].status.RUNNABLE? && -1 <= cur < |s|
    && (rounds == [] ||
         var r := rounds[0];
         && r.start == cur + 1 && Chosen(s, cur + 1, r.chosen) && r.chosen != w
         && Between(Charge(s, r.chosen), r.after, w)
         && OneCpu(r.after, CurAfter(r), w, rounds[1..]))
  }

  function CurAfter(r: Round): (cur: int)
    requires r.chosen < |r.after|
  {
    if r.after[r.chosen].status.FREE? then -1 else r.chosen
  }

  lemma {:induction false} OneCpuWaits(s: seq<Env>, cur: int, w: nat, rounds: seq<Round>)
    requires OneCpu(s, cur, w, rounds)
    ensures Waits(s, w, rounds)
    decreases |rounds|
  {
    if rounds != [] {
      OneCpuWaits(rounds[0].after, CurAfter(rounds[0]), w, rounds[1..]);
    }
  }

  /** The largest number of picks that can pass over an environment waiting among `n`. */
  function Limit(n: nat): (r: nat)
    requires n > 0
  {
    if n == 1 then 0 else if n == 2 then 11 else if n == 3 then 24 else 12 * (n - 1) + 1
  }

  lemma AloneBounded(s: seq<Env>, cur: int, w: nat, rounds: seq<Round>)
    requires OneCpu(s, cur, w, rounds)
    requires forall f :: 0 <= f < |s| && f != w ==> s[f].status.FREE?
    ensures rounds == []
  {
  }

  /** How often `e` can be picked while its priority number is below `limit`. */
  function Lead(e: Env, limit: int): (r: nat)
  {
    if e.status.FREE? || e.priority >= limit then 0 else (if e.runs == 0 then 1 else 0) + limit - e.priority
  }

  predicate OnlyTwo(s: seq<Env>, w: nat, o: nat)
  {
    o < |s| && o != w && forall f :: 0 <= f < |s| && f != w && f != o ==> s[f].status.FREE?
  }

  /** Once it is curenv, the only other environment loses every tie. */
  lemma PairRound(s: seq<Env>, cur: int, w: nat, o: nat, r: Round)
    requires -1 <= cur < |s| && w < |s| && Eligible(s[w]) && OnlyTwo(s, w, o)
    requires Chosen(s, cur + 1, r.chosen) && r.chosen != w && Between(Charge(s, r.chosen), r.after, w)
    ensures var lead := Lead(s[o], s[w].priority);
      && r.chosen == o && !s[o].status.FREE? && (cur == o ==> lead > 0)
      && OnlyTwo(r.after, w, o) && r.after[w].priority <= PRIORIDAD_MAX
      && Lead(r.after[o], r.after[w].priority) <= Max0(lead - 1)
  {
    assert r.chosen == o && Before(s, cur + 1, o, w);
  }

  lemma {:induction false} PairBounded(s: seq<Env>, cur: int, w: nat, o: nat, rounds: seq<Round>)
    requires OneCpu(s, cur, w, rounds) && s[w].priority <= PRIORIDAD_MAX && OnlyTwo(s, w, o)
    ensures var lead := Lead(s[o], s[w].priority);
      |rounds| <= if cur == o || s[o].status.FREE? || lead > 0 then lead else 1
    decreases |rounds|
  {
    hide Chosen, Between, Charge, Lead, OnlyTwo;
    if rounds != [] {
      var r := rounds[0];
      PairRound(s, cur, w, o, r);
      PairBounded(r.after, CurAfter(r), w, o, rounds[1..]);
    }
  }

  predicate OnlyThree(s: seq<Env>, w: nat, a: nat, b: nat)
  {
    && a < |s| && b < |s| && a != b && a != w && b != w
    && forall f :: 0 <= f < |s| && f != w && f != a && f != b ==> s[f].status.FREE?
  }

  lemma {:induction false} OthersOfThree(s: seq<Env>, w: nat, a: nat, b: nat, reset: bool, from: nat)
    requires OnlyThree(s, w, a, b) && from <= |s|
    ensures Others(s, w, reset, from) ==
      (if from <= a then Weight(s[a], reset) else 0) + (if from <= b then Weight(s[b], reset) else 0)
    decreases |s| - from
  {
    if from < |s| {
      OthersOfThree(s, w, a, b, reset, from + 1);
    }
  }

  lemma ThreeStay(s: seq<Env>, w: nat, a: nat, b: nat, start: nat, r: Round)
    requires OnlyThree(s, w, a, b) && start <= |s| && w < |s|
    requires Chosen(s, start, r.chosen) && r.chosen != w && Between(Charge(s, r.chosen), r.after, w)
    ensures OnlyThree(r.after, w, a, b) && (r.chosen == a || r.chosen == b) && r.chosen < |s|
    ensures !s[r.chosen].status.FREE?
  {
  }

  /** The waiting environment wins a tie with a curenv and with those that come after it. */
  lemma WinsTies(s: seq<Env>, start: nat, w: nat, c: nat, o: nat)
    requires OnlyThree(s, w, c, o) && w < |s| && Eligible(s[w]) && start == c + 1
    requires s[w].priority <= s[c].priority && s[w].priority <= s[o].priority
    requires Dist(|s|, start, w) < Dist(|s|, start, o)
    ensures forall i: nat :: Chosen(s, start, i) ==> i == w
  {
    assert Chosen(s, start, w);
    forall i: nat | Chosen(s, start, i) ensures i == w {
      ChosenUnique(s, start, w, i);
    }
  }

  /** After the reset by `c`, with `o` having been curenv before: at most one more pick, and none
      unless `c` exits, when `o` is back at the minimum. */
  lemma AfterReset(s: seq<Env>, w: nat, c: nat, o: nat, cur: int, rounds: seq<Round>)
    requires OnlyThree(s, w, c, o) && OneCpu(s, cur, w, rounds) && s[w].priority == PRIORIDAD_MIN
    requires s[c].priority >= 1 && s[o].priority >= 1
    requires cur == c || s[c].status.FREE?
    requires cur == c ==> Dist(|s|, c + 1, w) < Dist(|s|, c + 1, o)
    ensures |rounds| <= 1
  {
    if s[c].status.FREE? {
      PairBounded(s, cur, w, o, rounds);
    } else if rounds != [] {
      WinsTies(s, c + 1, w, c, o);
    }
  }

  /** What the resetting pick changes for the three. */
  lemma ResetRound(s: seq<Env>, cur: int, w: nat, o: nat, r: Round)
    requires OnlyThree(s, w, r.chosen, o) && -1 <= cur < |s| && w < |s| && Eligible(s[w])
    requires Chosen(s, cur + 1, r.chosen) && Between(Charge(s, r.chosen), r.after, w)
    requires s[r.chosen].priority == PRIORIDAD_MAX
    ensures var c, t := r.chosen, r.after;
      && OnlyThree(t, w, c, o) && t[w].priority == PRIORIDAD_MIN <= t[c].priority
      && t[c].runs > 0 && t[o].runs >= s[o].runs && (s[o].status.FREE? ==> t[o].status.FREE?)
      && t[o].priority >= (if s[o].priority < 1 then s[o].priority else 1)
    ensures cur != r.chosen && Dist(|s|, cur + 1, r.chosen) < Dist(|s|, cur + 1, w)
  {
    assert Before(s, cur + 1, r.chosen, w);
  }

  /** With one of the other two being curenv or gone, the reset costs a pick. */
  lemma TripleReset(s: seq<Env>, cur: int, w: nat, o: nat, rounds: seq<Round>)
    requires OneCpu(s, cur, w, rounds) && s[w].priority <= PRIORIDAD_MAX
    requires rounds != [] && OnlyThree(s, w, rounds[0].chosen, o)
    requires s[rounds[0].chosen].priority == PRIORIDAD_MAX
    requires cur == rounds[0].chosen || cur == o || s[o].status.FREE?
    ensures |rounds| <= Weight(s[rounds[0].chosen], false) + Weight(s[o], false)
  {
    var r := rounds[0];
    var c, t := r.chosen, r.after;
    ResetRound(s, cur, w, o, r);
    if s[o].status.FREE? {
      PairBounded(t, CurAfter(r), w, c, rounds[1..]);
    } else if t[o].priority >= 1 {
      AfterReset(t, w, c, o, CurAfter(r), rounds[1..]);
    } else {
      OneCpuWaits(t, CurAfter(r), w, rounds[1..]);
      WaitBounded(t, w, rounds[1..], true);
      OthersOfThree(t, w, c, o, true, 0);
    }
  }

  lemma {:induction false} TripleBounded(s: seq<Env>, cur: int, w: nat, a: nat, b: nat, rounds: seq<Round>)
    requires OneCpu(s, cur, w, rounds) && s[w].priority <= PRIORIDAD_MAX && OnlyThree(s, w, a, b)
    requires cur == a || cur == b || s[a].status.FREE? || s[b].status.FREE?
    ensures |rounds| <= Weight(s[a], false) + Weight(s[b], false)
    decreases |rounds|
  {
    hide Chosen, Between, Charge, Weight, OnlyThree;
    if rounds != [] {
      var r := rounds[0];
      ThreeStay(s, w, a, b, cur + 1, r);
      if s[r.chosen].priority == PRIORIDAD_MAX {
        OnlyThreeSwap(s, w, a, b);
        TripleReset(s, cur, w, if r.chosen == a then b else a, rounds);
      } else {
        PickDrops(s, r.after, w, cur + 1, r.chosen, false);
        OthersOfThree(s, w, a, b, false, 0);
        OthersOfThree(r.after, w, a, b, false, 0);
        TripleBounded(r.after, CurAfter(r), w, a, b, rounds[1..]);
      }
    }
  }

  lemma OnlyThreeSwap(s: seq<Env>, w: nat, a: nat, b: nat)
    requires OnlyThree(s, w, a, b)
    ensures OnlyThree(s, w, b, a)
  {
  }

  /** The bound for a run from anywhere. */
  lemma TripleBound(s: seq<Env>, cur: int, w: nat, a: nat, b: nat, rounds: seq<Round>)
    requires OneCpu(s, cur, w, rounds) && s[w].priority <= PRIORIDAD_MAX && OnlyThree(s, w, a, b)
    requires s[a].priority >= 0 && s[b].priority >= 0
    ensures |rounds| <= 24
  {
    hide Chosen, Between, Charge, OnlyThree;
    OthersOfThree(s, w, a, b, false, 0);
    if rounds != [] {
      var r := rounds[0];
      ThreeStay(s, w, a, b, cur + 1, r);
      if s[r.chosen].priority == PRIORIDAD_MAX {
        OneCpuWaits(s, cur, w, rounds);
        WaitBounded(s, w, rounds, false);
      } else {
        PickDrops(s, r.after, w, cur + 1, r.chosen, false);
        OthersOfThree(r.after, w, a, b, false, 0);
        TripleBounded(r.after, CurAfter(r), w, a, b, rounds[1..]);
      }
    }
  }

  lemma SubsetSize(a: set<nat>, b: set<nat>)
    requires a <= b
    ensures |a| <= |b|
  {
    assert b == a + (b - a);
  }

  /** Counting the live environments finds which of the bounds applies. */
  lemma OthersAre(s: seq<Env>, w: nat, others: set<nat>)
    requires w < |s| && !s[w].status.FREE? && others == LiveFrom(s, 0) - {w}
    ensures Live(s) == |others| + 1
    ensures forall f: nat :: f < |s| && f != w && f !in others ==> s[f].status.FREE?
    ensures forall f :: f in others ==> f < |s| && f != w
  {
    assert LiveFrom(s, 0) == others + {w};
  }

  /** One CPU passes over a waiting environment at most Limit(n) times. */
  lemma OneCpuBound(s: seq<Env>, cur: int, w: nat, rounds: seq<Round>)
    requires OneCpu(s, cur, w, rounds) && s[w].priority <= PRIORIDAD_MAX
    requires forall f :: 0 <= f < |s| ==> s[f].priority >= 0
    ensures Live(s) > 0 && |rounds| <= Limit(Live(s))
  {
    assert w < |s| && s[w].status.RUNNABLE?;
    hide OneCpu, Live, LiveFrom;
    var others := LiveFrom(s, 0) - {w};
    OthersAre(s, w, others);
    OneCpuWaits(s, cur, w, rounds);
    NoStarvation(s, w, rounds);
    if others == {} {
      AloneBounded(s, cur, w, rounds);
    } else {
      var a :| a in others;
      if others - {a} == {} {
        assert others == {a};
        PairBounded(s, cur, w, a, rounds);
      } else {
        SubsetSize({a}, others);
        var b :| b in others - {a};
        if others - {a, b} == {} {
          assert others == {a, b};
          TripleBound(s, cur, w, a, b, rounds);
        } else {
          var c :| c in others - {a, b};
          SubsetSize({a, b, c}, others);
        }
      }
    }
  }

  // ---- one CPU, pick by pick ----

  /** What the chosen environment does before its CPU schedules again. The first three are system
      calls that return to it, each through env_run, which counts a run. */
  datatype Act =
    | Send(to: nat)     // wakes a blocked receiver
    | Raise             // raises its own priority number, sys_modificar_prioridad
    | Spawn(child: nat) // sys_exofork and sys_env_set_status make a runnable child in that slot
    | Ready             // makes itself runnable, which sys_env_set_status lets it do
    | Receive           // blocks in sys_ipc_recv
    | Exit              // destroys itself

  /** The environment picked and what it does; after no act or one that returns it yields, or the
      timer fires. */
  datatype Turn = Turn(chosen: nat, acts: seq<Act>)

  predicate Returns(a: Act)
  {
    a.Send? || a.Raise? || a.Spawn?
  }

  /** Only the last act gives the CPU up. */
  predicate Proper(acts: seq<Act>)
  {
    forall i :: 0 <= i < |acts| - 1 ==> Returns(acts[i])
  }

  predicate CreatesNone(acts: seq<Act>)
  {
    forall i :: 0 <= i < |acts| ==> !acts[i].Spawn?
  }

  /** sched_prioridades on the only CPU, with curenv `cur`, runs `c`. */
  predicate Picked(s: seq<Env>, cur: int, c: nat)
    requires -1 <= cur < |s|
  {
    || Chosen(s, cur + 1, c)
    || ((forall j :: 0 <= j < |s| ==> !Eligible(s[j])) && c == cur && s[c].status.RUNNING?)
  }

  /** The table when `c`, picked with curenv `cur`, starts to run. */
  function Dispatched(s: seq<Env>, cur: int, c: nat): (r: seq<Env>)
    requires -1 <= cur < |s| && c < |s|
    ensures |r| == |s|
  {
    if Eligible(s[c]) then Dispatch(Charge(s, c), cur, c) else Dispatch(s, cur, c)
  }

  function Counted(s: seq<Env>, c: nat, calls: nat): (r: seq<Env>)
    requires c < |s|
    ensures |r| == |s|
  {
    s[c := s[c].(runs := s[c].runs + calls)]
  }

  function Did(s: seq<Env>, c: nat, act: Act): (r: seq<Env>)
    requires c < |s|
    ensures |r| == |s|
  {
    match act
    case Send(e) =>
      Counted(if e < |s| && s[e].status.NOT_RUNNABLE? then s[e := s[e].(status := RUNNABLE)] else s, c, 1)
    case Raise => Counted(s[c := s[c].(priority := s[c].priority + 1)], c, 1)
    case Spawn(e) =>
      if e < |s| && s[e].status.FREE?
      then Counted(s[e := Env(RUNNABLE, s[c].priority, 0, s[e].cpunum)], c, 2) else Counted(s, c, 1)
    case Ready => s[c := s[c].(status := RUNNABLE)]
    case Receive => s[c := s[c].(status := NOT_RUNNABLE)]
    case Exit => s[c := s[c].(status := FREE)]
  }

  function Acted(s: seq<Env>, c: nat, acts: seq<Act>): (r: seq<Env>)
    requires c < |s|
    ensures |r| == |s|
    decreases |acts|
  {
    if acts == [] then s else Acted(Did(s, c, acts[0]), c, acts[1..])
  }

  /** The table at the CPU's next call of the scheduler. */
  function Next(s: seq<Env>, cur: int, t: Turn): (r: seq<Env>)
    requires -1 <= cur < |s| && t.chosen < |s|
    ensures |r| == |s|
  {
    Acted(Dispatched(s, cur, t.chosen), t.chosen, t.acts)
  }

  /** Its curenv at that call: the environment it picked last, or none once that one has exited. */
  function NextCur(t: Turn): (cur: int)
  {
    if t.acts != [] && t.acts[|t.acts| - 1].Exit? then -1 else t.chosen
  }

  /** The only CPU goes through `turns`, nobody is created, and `w`, runnable all the while, has
      none of them. */
  predicate PassedOver(s: seq<Env>, cur: int, w: nat, turns: seq<Turn>)
    decreases |turns|
  {
    && w < |s| && s[w].status.RUNNABLE? && -1 <= cur < |s|
    && (turns == [] ||
         var t := turns[0];
         && Picked(s, cur, t.chosen) && t.chosen != w && Proper(t.acts) && CreatesNone(t.acts)
         && PassedOver(Next(s, cur, t), NextCur(t), w, turns[1..]))
  }

  /** The only CPU goes through `turns` to table `t` and curenv `end`. */
  predicate Goes(s: seq<Env>, cur: int, turns: seq<Turn>, t: seq<Env>, end: int)
    decreases |turns|
  {
    && -1 <= cur < |s|
    && if turns == [] then s == t && cur == end
       else Picked(s, cur, turns[0].chosen) && Proper(turns[0].acts)
            && Goes(Next(s, cur, turns[0]), NextCur(turns[0]), turns[1..], t, end)
  }

  /** What sched_prioridades does is one of the things that may happen between two picks. */
  lemma ScheduledIsBetween(s: seq<Env>, cur: int, c: nat, w: nat)
    requires -1 <= cur < |s| && c < |s| && Eligible(s[c])
    requires w < |s| && w != c && s[w].status.RUNNABLE?
    ensures Between(Charge(s, c), Dispatch(Charge(s, c), cur, c), w)
  {
    assert Charge(s, c)[w].status.RUNNABLE?;
    assert cur >= 0 && s[cur].status.FREE? ==> Charge(s, c)[cur].status.FREE?;
  }

  /** Acts of `c` that create nobody leave `w` alone, only raise priorities and counts, and
      bring nobody back; `c` is gone afterwards exactly if it exits in the end. */
  lemma {:induction false} ActsAreBetween(s: seq<Env>, t: seq<Env>, c: nat, w: nat, acts: seq<Act>)
    requires c < |t| && w != c && Between(s, t, w) && CreatesNone(acts) && Proper(acts)
    requires !t[c].status.FREE?
    ensures Between(s, Acted(t, c, acts), w)
    ensures Acted(t, c, acts)[c].status.FREE? <==> acts != [] && acts[|acts| - 1].Exit?
    decreases |acts|
  {
    if acts != [] {
      ActIsBetween(s, t, c, w, acts[0]);
      var rest := acts[1..];
      if rest == [] {
        assert Acted(Did(t, c, acts[0]), c, rest) == Did(t, c, acts[0]);
      } else {
        assert Returns(acts[0]);
        hide Did, Between;
        ActsAreBetween(s, Did(t, c, acts[0]), c, w, rest);
      }
    }
  }

  lemma ActIsBetween(s: seq<Env>, t: seq<Env>, c: nat, w: nat, act: Act)
    requires c < |t| && w != c && Between(s, t, w) && !act.Spawn? && !t[c].status.FREE?
    ensures Between(s, Did(t, c, act), w)
    ensures Did(t, c, act)[c].status.FREE? <==> act.Exit?
  {
  }

  lemma OneAct(s: seq<Env>, c: nat, act: Act)
    requires c < |s|
    ensures Acted(s, c, [act]) == Did(s, c, act)
  {
    assert Acted(Did(s, c, act), c, []) == Did(s, c, act);
  }

  lemma {:induction false} ActsLeave(s: seq<Env>, c: nat, w: nat, acts: seq<Act>)
    requires c < |s| && w < |s| && w != c && s[w].status.RUNNABLE?
    ensures Acted(s, c, acts)[w] == s[w]
    decreases |acts|
  {
    if acts != [] {
      ActsLeave(Did(s, c, acts[0]), c, w, acts[1..]);
    }
  }

  /** While `w` waits below the limit, a turn is one pick and what may follow it. */
  lemma TurnIsBetween(s: seq<Env>, cur: int, w: nat, t: Turn)
    requires -1 <= cur < |s| && w < |s| && Eligible(s[w]) && Picked(s, cur, t.chosen) && t.chosen != w
    requires Proper(t.acts) && CreatesNone(t.acts)
    ensures t.chosen < |s| && Eligible(s[t.chosen]) && Chosen(s, cur + 1, t.chosen)
    ensures Between(Charge(s, t.chosen), Next(s, cur, t), w)
    ensures NextCur(t) == if Next(s, cur, t)[t.chosen].status.FREE? then -1 else t.chosen
  {
    ScheduledIsBetween(s, cur, t.chosen, w);
    ActsAreBetween(Charge(s, t.chosen), Dispatched(s, cur, t.chosen), t.chosen, w, t.acts);
  }

  /** So the runs of one CPU, act by act, are among the runs bounded above. */
  lemma {:induction false} PassedOverIsOneCpu(s: seq<Env>, cur: int, w: nat, turns: seq<Turn>)
    returns (rounds: seq<Round>)
    requires PassedOver(s, cur, w, turns) && s[w].priority <= PRIORIDAD_MAX
    ensures OneCpu(s, cur, w, rounds) && |rounds| == |turns|
    decreases |turns|
  {
    hide Chosen, Picked, Between, Next, Charge;
    rounds := [];
    if turns != [] {
      var t := turns[0];
      TurnIsBetween(s, cur, w, t);
      var next := Next(s, cur, t);
      PickDrops(s, next, w, cur + 1, t.chosen, false);
      var rest := PassedOverIsOneCpu(next, NextCur(t), w, turns[1..]);
      rounds := [Round(cur + 1, t.chosen, next)] + rest;
      assert rounds[1..] == rest;
    }
  }

  lemma Turned(s: seq<Env>, cur: int, w: nat, t: Turn, rest: seq<Turn>) returns (turns: seq<Turn>)
    requires w < |s| && s[w].status.RUNNABLE? && -1 <= cur < |s|
    requires Picked(s, cur, t.chosen) && t.chosen != w && |t.acts| <= 1 && CreatesNone(t.acts)
    requires PassedOver(Next(s, cur, t), NextCur(t), w, rest)
    ensures PassedOver(s, cur, w, turns) && |turns| == |rest| + 1
  {
    turns := [t] + rest;
    assert turns[1..] == rest;
  }

  // ---- the limit is attained ----

  predicate Climber(e: Env, status: Status, priority: int)
  {
    e.status == status && e.priority == priority && e.runs > 0
  }

  /** The waiting environment is in the last slot in use, with at least two others. */
  predicate Last(s: seq<Env>, w: nat, priority: int)
  {
    && 2 <= w < |s| && s[w].status.RUNNABLE? && s[w].priority == priority
    && forall f :: w < f < |s| ==> s[f].status.FREE?
  }

  /** The first runs: slots below k have had theirs, and slot 0 has blocked after it. */
  predicate Starting(s: seq<Env>, w: nat, k: nat)
  {
    && Last(s, w, 10) && k <= w
    && (k > 0 ==> Climber(s[0], NOT_RUNNABLE, 0))
    && (forall f :: 1 <= f < k ==> Climber(s[f], if f == k - 1 && k < w then RUNNING else RUNNABLE, 0))
    && (forall f :: k <= f < w ==> s[f].status.RUNNABLE? && s[f].priority == 0 && s[f].runs == 0)
  }

  function StartCur(k: nat, w: nat): (cur: int) { if k == 0 then w else k - 1 }

  /** What the environment of slot `k` does after its first run. */
  function StartAct(k: nat, w: nat): (acts: seq<Act>)
    ensures |acts| <= 1 && CreatesNone(acts)
  {
    if k == 0 then [Receive] else if k == w - 1 then [Ready] else []
  }

  /** The second runs, slot 0 still blocked. */
  predicate Leaving(s: seq<Env>, w: nat, k: nat)
  {
    && Last(s, w, 10) && 1 <= k < w && Climber(s[0], NOT_RUNNABLE, 0)
    && forall f :: 1 <= f < w ==>
         Climber(s[f], if f == k - 1 then RUNNING else RUNNABLE, if f < k then 1 else 0)
  }

  function LeavingCur(k: nat, w: nat): (cur: int) { if k == 1 then w - 1 else k - 1 }

  /** All but the last climb together: slots 1 to k - 1 have left priority `p`, the rest are at it. */
  predicate Climbing(s: seq<Env>, w: nat, p: int, k: nat)
  {
    && Last(s, w, 10) && 1 <= k <= w
    && forall f :: 0 <= f < w ==>
         Climber(s[f], if f == k - 1 then RUNNING else RUNNABLE, if 1 <= f < k then p + 1 else p)
  }

  /** After the reset by slot 1 and the exit of slot 2: slots below k have had their last pick. */
  predicate Ending(s: seq<Env>, w: nat, k: nat)
  {
    && Last(s, w, 1) && 3 <= k <= w && s[2].status.FREE?
    && forall f :: 0 <= f < w && f != 2 ==>
         Climber(s[f], if f == EndCur(k) then RUNNING else RUNNABLE, if f < k then 2 else 1)
  }

  function EndCur(k: nat): (cur: int) { if k == 3 then 1 else k - 1 }

  lemma EndingStep(s: seq<Env>, w: nat, k: nat)
    requires Ending(s, w, k) && k < w
    ensures Picked(s, EndCur(k), k) && Ending(Next(s, EndCur(k), Turn(k, [])), w, k + 1)
  {
    assert Chosen(s, EndCur(k) + 1, k);
  }

  lemma {:induction false} EndingRun(s: seq<Env>, w: nat, k: nat) returns (turns: seq<Turn>)
    requires Ending(s, w, k)
    ensures PassedOver(s, EndCur(k), w, turns) && |turns| == w - k
    decreases w - k
  {
    hide Picked, Next;
    turns := [];
    if k < w {
      EndingStep(s, w, k);
      turns := EndingRun(Next(s, EndCur(k), Turn(k, [])), w, k + 1);
      turns := Turned(s, EndCur(k), w, Turn(k, []), turns);
    }
  }

  /** Slot 1 resets everyone, ... */
  lemma ResetStep(s: seq<Env>, w: nat)
    requires Last(s, w, 10) && forall f :: 0 <= f < w ==> Climber(s[f], RUNNABLE, 10)
    ensures Picked(s, 0, 1) && Last(Next(s, 0, Turn(1, [])), w, 1)
    ensures forall f :: 0 <= f < w ==>
      Climber(Next(s, 0, Turn(1, []))[f], if f == 1 then RUNNING else RUNNABLE, 1)
  {
    assert Chosen(s, 1, 1);
  }

  /** ... slot 2 runs and exits, ... */
  lemma ExitStep(s: seq<Env>, w: nat)
    requires w > 2 && Last(s, w, 1)
    requires forall f :: 0 <= f < w ==> Climber(s[f], if f == 1 then RUNNING else RUNNABLE, 1)
    ensures Picked(s, 1, 2)
    ensures var t := Next(s, 1, Turn(2, [Exit]));
      && Last(t, w, 1) && t[2].status.FREE?
      && forall f :: 0 <= f < w && f != 2 ==> Climber(t[f], RUNNABLE, 1)
  {
    assert Chosen(s, 2, 2);
  }

  /** ... and the search begins again at slot 0. */
  lemma AgainSteps(s: seq<Env>, w: nat)
    requires w > 2 && Last(s, w, 1) && s[2].status.FREE?
    requires forall f :: 0 <= f < w && f != 2 ==> Climber(s[f], RUNNABLE, 1)
    ensures Picked(s, -1, 0)
    ensures var t := Next(s, -1, Turn(0, []));
      Last(t, w, 1) && Picked(t, 0, 1) && Ending(Next(t, 0, Turn(1, [])), w, 3)
  {
    assert Chosen(s, 0, 0);
    var t := Next(s, -1, Turn(0, []));
    assert Last(t, w, 1) && t[2].status.FREE?;
    assert forall f :: 0 <= f < w && f != 2 ==>
      Climber(t[f], if f == 0 then RUNNING else RUNNABLE, if f == 0 then 2 else 1);
    assert Chosen(t, 1, 1);
  }

  /** With two others it is the resetting environment that exits. */
  lemma ThreeSteps(s: seq<Env>)
    requires Last(s, 2, 10) && Climber(s[0], RUNNABLE, 10) && Climber(s[1], RUNNABLE, 10)
    ensures Picked(s, 0, 1)
    ensures var t := Next(s, 0, Turn(1, [Exit]));
      Last(t, 2, 1) && Picked(t, -1, 0) && Last(Next(t, -1, Turn(0, [])), 2, 1)
  {
    assert Chosen(s, 1, 1);
    var t := Next(s, 0, Turn(1, [Exit]));
    assert Chosen(t, 0, 0);
  }

  function ResetLength(w: nat): (r: nat) { if w == 2 then 2 else w + 1 }

  lemma ResetRun(s: seq<Env>, w: nat) returns (turns: seq<Turn>)
    requires Last(s, w, 10) && forall f :: 0 <= f < w ==> Climber(s[f], RUNNABLE, 10)
    ensures PassedOver(s, 0, w, turns) && |turns| == ResetLength(w)
  {
    hide Picked, Next;
    if w == 2 {
      ThreeSteps(s);
      var t := Next(s, 0, Turn(1, [Exit]));
      assert PassedOver(Next(t, -1, Turn(0, [])), 0, w, []);
      turns := Turned(t, -1, w, Turn(0, []), []);
      turns := Turned(s, 0, w, Turn(1, [Exit]), turns);
    } else {
      ResetStep(s, w);
      var s1 := Next(s, 0, Turn(1, []));
      ExitStep(s1, w);
      var s2 := Next(s1, 1, Turn(2, [Exit]));
      AgainSteps(s2, w);
      var s3 := Next(s2, -1, Turn(0, []));
      turns := EndingRun(Next(s3, 0, Turn(1, [])), w, 3);
      turns := Turned(s3, 0, w, Turn(1, []), turns);
      turns := Turned(s2, -1, w, Turn(0, []), turns);
      turns := Turned(s1, 1, w, Turn(2, [Exit]), turns);
      turns := Turned(s, 0, w, Turn(1, []), turns);
    }
  }

  /** The picks from priority `p` up to the limit. */
  function ClimbLength(p: nat, w: nat): (r: nat)
    requires p <= 10
    ensures r == (10 - p) * w
    decreases 10 - p
  {
    if p == 10 then 0 else w + ClimbLength(p + 1, w)
  }

  lemma ClimbStep(s: seq<Env>, w: nat, p: nat, k: nat)
    requires Climbing(s, w, p, k) && p < 10 && k < w
    ensures Picked(s, k - 1, k) && Climbing(Next(s, k - 1, Turn(k, [])), w, p, k + 1)
  {
    assert Chosen(s, k, k);
  }

  lemma ClimbWrap(s: seq<Env>, w: nat, p: nat)
    requires Climbing(s, w, p, w) && p < 10
    ensures Picked(s, w - 1, 0) && Climbing(Next(s, w - 1, Turn(0, [])), w, p + 1, 1)
    ensures var t := Next(s, w - 1, Turn(0, [Ready]));
      Last(t, w, 10) && forall f :: 0 <= f < w ==> Climber(t[f], RUNNABLE, p + 1)
  {
    assert Chosen(s, w, 0);
    assert Next(s, w - 1, Turn(0, [Ready])) == Acted(Next(s, w - 1, Turn(0, [])), 0, [Ready]);
  }

  lemma {:induction false} ClimbingRun(s: seq<Env>, w: nat, p: nat, k: nat) returns (turns: seq<Turn>)
    requires Climbing(s, w, p, k) && p < 10
    ensures PassedOver(s, k - 1, w, turns)
    ensures |turns| == ClimbLength(p, w) - (k - 1) + ResetLength(w)
    decreases 10 - p, w - k
  {
    hide Picked, Next, Climber, ResetLength;
    if k < w {
      ClimbStep(s, w, p, k);
      turns := ClimbingRun(Next(s, k - 1, Turn(k, [])), w, p, k + 1);
      turns := Turned(s, k - 1, w, Turn(k, []), turns);
    } else {
      ClimbWrap(s, w, p);
      if p < 9 {
        turns := ClimbingRun(Next(s, k - 1, Turn(0, [])), w, p + 1, 1);
        turns := Turned(s, k - 1, w, Turn(0, []), turns);
      } else {
        turns := ResetRun(Next(s, k - 1, Turn(0, [Ready])), w);
        turns := Turned(s, k - 1, w, Turn(0, [Ready]), turns);
      }
    }
  }

  lemma LeavingStep(s: seq<Env>, w: nat, k: nat)
    requires Leaving(s, w, k)
    ensures Picked(s, LeavingCur(k, w), k)
    ensures k < w - 1 ==> Leaving(Next(s, LeavingCur(k, w), Turn(k, [])), w, k + 1)
  {
    assert Chosen(s, LeavingCur(k, w) + 1, k);
  }

  /** The last of them wakes slot 0, which comes after it from then on. */
  lemma WakeSteps(s: seq<Env>, w: nat)
    requires w > 0 && Leaving(s, w, w - 1)
    ensures var k := w - 1; var t := Next(s, LeavingCur(k, w), Turn(k, [Send(0)]));
      && Picked(s, LeavingCur(k, w), k) && Last(t, w, 10)
      && Picked(t, k, 0) && Climbing(Next(t, k, Turn(0, [])), w, 1, 1)
  {
    var k := w - 1;
    assert Chosen(s, LeavingCur(k, w) + 1, k);
    var t := Next(s, LeavingCur(k, w), Turn(k, [Send(0)]));
    assert Last(t, w, 10) && Climber(t[0], RUNNABLE, 0);
    assert forall f :: 1 <= f < w ==> Climber(t[f], if f == k then RUNNING else RUNNABLE, 1);
    assert Chosen(t, w, 0);
  }

  lemma {:induction false} LeavingRun(s: seq<Env>, w: nat, k: nat) returns (turns: seq<Turn>)
    requires Leaving(s, w, k)
    ensures PassedOver(s, LeavingCur(k, w), w, turns)
    ensures |turns| == w - k + 1 + ClimbLength(1, w) + ResetLength(w)
    decreases w - k
  {
    hide Picked, Next, Climber;
    var cur := LeavingCur(k, w);
    if k < w - 1 {
      LeavingStep(s, w, k);
      turns := LeavingRun(Next(s, cur, Turn(k, [])), w, k + 1);
      turns := Turned(s, cur, w, Turn(k, []), turns);
    } else {
      WakeSteps(s, w);
      var t := Next(s, cur, Turn(k, [Send(0)]));
      turns := ClimbingRun(Next(t, k, Turn(0, [])), w, 1, 1);
      turns := Turned(t, k, w, Turn(0, []), turns);
      turns := Turned(s, cur, w, Turn(k, [Send(0)]), turns);
    }
  }

  lemma StartStep(s: seq<Env>, w: nat, k: nat)
    requires Starting(s, w, k) && k < w
    ensures Picked(s, StartCur(k, w), k)
    ensures Starting(Next(s, StartCur(k, w), Turn(k, StartAct(k, w))), w, k + 1)
  {
    assert Chosen(s, StartCur(k, w) + 1, k);
    if k == 0 || k == w - 1 {
      OneAct(Dispatched(s, StartCur(k, w), k), k, StartAct(k, w)[0]);
    }
  }

  lemma StartedIsLeaving(s: seq<Env>, w: nat)
    requires Starting(s, w, w)
    ensures Leaving(s, w, 1) && StartCur(w, w) == LeavingCur(1, w)
  {
  }

  lemma {:induction false} StartingRun(s: seq<Env>, w: nat, k: nat) returns (turns: seq<Turn>)
    requires Starting(s, w, k)
    ensures PassedOver(s, StartCur(k, w), w, turns)
    ensures |turns| == w - k + w + ClimbLength(1, w) + ResetLength(w)
    decreases w - k
  {
    hide Picked, Next, Climber, Leaving, ResetLength, ClimbLength;
    if k == w {
      StartedIsLeaving(s, w);
      turns := LeavingRun(s, w, 1);
    } else {
      var t := Turn(k, StartAct(k, w));
      StartStep(s, w, k);
      turns := StartingRun(Next(s, StartCur(k, w), t), w, k + 1);
      turns := Turned(s, StartCur(k, w), w, t, turns);
    }
  }

  /** With one other, which makes itself runnable after each run. */
  lemma {:induction false} PairRun(s: seq<Env>) returns (turns: seq<Turn>)
    requires |s| >= 2 && Climber(s[0], RUNNABLE, s[0].priority) && 0 <= s[0].priority <= 10
    requires s[1].status.RUNNABLE? && s[1].priority == 10 && forall f :: 2 <= f < |s| ==> s[f].status.FREE?
    ensures PassedOver(s, 0, 1, turns) && |turns| == 10 - s[0].priority
    decreases 10 - s[0].priority
  {
    turns := [];
    if s[0].priority < 10 {
      assert Chosen(s, 1, 0);
      turns := PairRun(Next(s, 0, Turn(0, [Ready])));
      turns := Turned(s, 0, 1, Turn(0, [Ready]), turns);
    }
  }

  // ---- where the run starts, and how the program gets there ----

  /** A table of `size` slots: those below `j` have exited after one run, then come new
      environments up to slot n - 1, which is `w`; the rest have never been used. */
  function Table(n: nat, size: nat, j: nat, w: Env): (s: seq<Env>)
    requires j < n <= size
    ensures |s| == size && s[n - 1] == w
  {
    seq(size, i requires 0 <= i < size =>
      if i == n - 1 then w
      else if i < j then Env(FREE, 0, 2, 0)
      else if i < n - 1 then Env(RUNNABLE, 0, 0, 0) else Env(FREE, 0, 0, 0))
  }

  /** `n` environments created at boot. */
  function BootTable(n: nat, size: nat): (s: seq<Env>)
    requires 0 < n <= size
  {
    Table(n, size, 0, Env(RUNNABLE, 0, 0, 0))
  }

  /** Nobody but the last, which has raised its own priority to 10 and then made itself runnable,
      has run yet. Its system calls count as runs. */
  function StartTable(n: nat, size: nat): (s: seq<Env>)
    requires 0 < n <= size
    ensures |s| == size
  {
    Table(n, size, 0, Env(RUNNABLE, 10, 2 + 2 * (n - 1) + 10, 0))
  }

  /** Raising the priority `i` times, then giving the CPU up. */
  function Raises(i: nat): (acts: seq<Act>)
  {
    if i == 0 then [Ready] else [Raise] + Raises(i - 1)
  }

  /** First replacing the `j` environments that have exited, the last one first. */
  function Setup(j: nat): (acts: seq<Act>)
  {
    if j == 0 then Raises(10) else [Spawn(j - 1)] + Setup(j - 1)
  }

  lemma {:induction false} RaisesProper(i: nat)
    ensures Raises(i) != [] && Proper(Raises(i)) && Raises(i)[|Raises(i)| - 1] == Ready
    decreases i
  {
    if i > 0 {
      RaisesProper(i - 1);
      assert Raises(i)[1..] == Raises(i - 1);
    }
  }

  lemma {:induction false} SetupProper(j: nat)
    ensures Setup(j) != [] && Proper(Setup(j)) && Setup(j)[|Setup(j)| - 1] == Ready
    decreases j
  {
    if j == 0 {
      RaisesProper(10);
    } else {
      SetupProper(j - 1);
      assert Setup(j)[1..] == Setup(j - 1);
    }
  }

  lemma {:induction false} Raised(n: nat, size: nat, priority: nat, runs: nat, i: nat)
    requires 0 < n <= size
    ensures Acted(Table(n, size, 0, Env(RUNNING, priority, runs, 0)), n - 1, Raises(i))
         == Table(n, size, 0, Env(RUNNABLE, priority + i, runs + i, 0))
    decreases i
  {
    var s := Table(n, size, 0, Env(RUNNING, priority, runs, 0));
    if i == 0 {
      OneAct(s, n - 1, Ready);
    } else {
      assert Raises(i)[1..] == Raises(i - 1);
      assert Did(s, n - 1, Raise) == Table(n, size, 0, Env(RUNNING, priority + 1, runs + 1, 0));
      Raised(n, size, priority + 1, runs + 1, i - 1);
    }
  }

  lemma {:induction false} SetUp(n: nat, size: nat, runs: nat, j: nat)
    requires j < n <= size
    ensures Acted(Table(n, size, j, Env(RUNNING, 0, runs, 0)), n - 1, Setup(j))
         == Table(n, size, 0, Env(RUNNABLE, 10, runs + 2 * j + 10, 0))
    decreases j
  {
    if j == 0 {
      Raised(n, size, 0, runs, 10);
    } else {
      var s := Table(n, size, j, Env(RUNNING, 0, runs, 0));
      assert Setup(j)[1..] == Setup(j - 1);
      assert Did(s, n - 1, Spawn(j - 1)) == Table(n, size, j - 1, Env(RUNNING, 0, runs + 2, 0));
      SetUp(n, size, runs + 2, j - 1);
    }
  }

  lemma ExitTurn(n: nat, size: nat, j: nat)
    requires j + 1 < n <= size
    ensures var s := Table(n, size, j, Env(RUNNABLE, 0, 0, 0));
      Picked(s, -1, j) && Next(s, -1, Turn(j, [Exit])) == Table(n, size, j + 1, Env(RUNNABLE, 0, 0, 0))
  {
    var s := Table(n, size, j, Env(RUNNABLE, 0, 0, 0));
    assert Chosen(s, 0, j);
    OneAct(Dispatched(s, -1, j), j, Exit);
  }

  lemma SetupTurn(n: nat, size: nat)
    requires 0 < n <= size
    ensures var s := Table(n, size, n - 1, Env(RUNNABLE, 0, 0, 0));
      Picked(s, -1, n - 1) && Next(s, -1, Turn(n - 1, Setup(n - 1))) == StartTable(n, size)
  {
    var s := Table(n, size, n - 1, Env(RUNNABLE, 0, 0, 0));
    assert Chosen(s, 0, n - 1);
    assert Dispatched(s, -1, n - 1) == Table(n, size, n - 1, Env(RUNNING, 0, 2, 0));
    SetUp(n, size, 2, n - 1);
  }

  /** All but the last exit after one run; the last replaces them and raises its own priority. */
  lemma {:induction false} StartIsReached(n: nat, size: nat, j: nat) returns (turns: seq<Turn>)
    requires j < n <= size
    ensures Goes(Table(n, size, j, Env(RUNNABLE, 0, 0, 0)), -1, turns, StartTable(n, size), n - 1)
    decreases n - j
  {
    hide Picked, Next, Table;
    var t;
    if j == n - 1 {
      SetupTurn(n, size);
      SetupProper(n - 1);
      t := Turn(n - 1, Setup(n - 1));
      turns := [];
    } else {
      ExitTurn(n, size, j);
      t := Turn(j, [Exit]);
      turns := StartIsReached(n, size, j + 1);
    }
    assert ([t] + turns)[1..] == turns;
    turns := [t] + turns;
  }

  lemma {:induction false} LiveBelow(s: seq<Env>, from: nat, n: nat)
    requires from <= n <= |s|
    requires forall f :: from <= f < |s| ==> (s[f].status.FREE? <==> f >= n)
    ensures |LiveFrom(s, from)| == n - from
    decreases n - from
  {
    if from < n {
      LiveBelow(s, from + 1, n);
      assert LiveFrom(s, from) == LiveFrom(s, from + 1) + {from};
    }
  }

  lemma PairStart(size: nat)
    requires size >= 2
    ensures Picked(StartTable(2, size), 1, 0)
    ensures var s := Next(StartTable(2, size), 1, Turn(0, [Ready]));
      && Climber(s[0], RUNNABLE, 0) && s[1].status.RUNNABLE? && s[1].priority == 10
      && forall f :: 2 <= f < size ==> s[f].status.FREE?
  {
    assert Chosen(StartTable(2, size), 2, 0);
  }

  lemma {:induction false} LimitRun(n: nat, size: nat) returns (turns: seq<Turn>)
    requires 0 < n <= size
    ensures PassedOver(StartTable(n, size), n - 1, n - 1, turns) && |turns| == Limit(n)
  {
    hide Picked, Next, Climber;
    var s := StartTable(n, size);
    if n == 1 {
      turns := [];
    } else if n == 2 {
      PairStart(size);
      turns := PairRun(Next(s, 1, Turn(0, [Ready])));
      turns := Turned(s, 1, 1, Turn(0, [Ready]), turns);
    } else {
      turns := StartingRun(s, n - 1, 0);
    }
  }

  /** For every number of environments the limit is attained, in a table of any size and in a run
      from boot: `before` leads to a table with n live environments, in which the last one then
      waits. From four on the limit is the bound of NoStarvation. */
  lemma LimitIsAttained(n: nat, size: nat) returns (before: seq<Turn>, s: seq<Env>, turns: seq<Turn>)
    requires 0 < n <= size
    ensures Goes(BootTable(n, size), -1, before, s, n - 1)
    ensures Live(s) == n && forall f :: 0 <= f < |s| ==> 0 <= s[f].priority <= PRIORIDAD_MAX
    ensures PassedOver(s, n - 1, n - 1, turns) && |turns| == Limit(n)
  {
    s := StartTable(n, size);
    LiveBelow(s, 0, n);
    hide Picked, Next, PassedOver, Goes;
    before := StartIsReached(n, size, 0);
    turns := LimitRun(n, size);
  }

  // ---- above the limit ----

  /** An environment above the limit is not picked and stays there until the pick that resets,
      which brings it to the minimum. */
  lemma AboveLimit(s: seq<Env>, cur: int, w: nat, t: Turn)
    requires -1 <= cur < |s| && w < |s| && s[w].status.RUNNABLE? && s[w].priority > PRIORIDAD_MAX
    requires Picked(s, cur, t.chosen)
    ensures t.chosen != w
    ensures Next(s, cur, t)[w].status.RUNNABLE?
    ensures Next(s, cur, t)[w].priority ==
      if ResetsAt(s, t) then PRIORIDAD_MIN else s[w].priority
  {
    ActsLeave(Dispatched(s, cur, t.chosen), t.chosen, w, t.acts);
  }

  predicate ResetsAt(s: seq<Env>, t: Turn)
  {
    t.chosen < |s| && Eligible(s[t.chosen]) && s[t.chosen].priority == PRIORIDAD_MAX
  }

  /** Any turns of the only CPU none of which resets the priorities. */
  predicate NoReset(s: seq<Env>, cur: int, turns: seq<Turn>)
    decreases |turns|
  {
    && -1 <= cur < |s|
    && (turns == [] ||
         var t := turns[0];
         && Picked(s, cur, t.chosen) && !ResetsAt(s, t) && Proper(t.acts) && CreatesNone(t.acts)
         && NoReset(Next(s, cur, t), NextCur(t), turns[1..]))
  }

  /** So whatever the others do, an environment above the limit has no turn before a reset. */
  lemma {:induction false} AboveLimitWaits(s: seq<Env>, cur: int, w: nat, turns: seq<Turn>)
    requires NoReset(s, cur, turns)
    requires w < |s| && s[w].status.RUNNABLE? && s[w].priority > PRIORIDAD_MAX
    ensures PassedOver(s, cur, w, turns)
    decreases |turns|
  {
    hide Next;
    if turns != [] {
      AboveLimit(s, cur, w, turns[0]);
      AboveLimitWaits(Next(s, cur, turns[0]), NextCur(turns[0]), w, turns[1..]);
    }
  }

  /** Above the limit an environment can starve: with curenv running and nobody eligible it is
      passed over any number of times. */
  lemma {:induction false} StarvesAbove(s: seq<Env>, cur: nat, w: nat, turns: nat) returns (run: seq<Turn>)
    requires cur < |s| && s[cur].status.RUNNING? && forall j :: 0 <= j < |s| ==> !Eligible(s[j])
    requires w < |s| && s[w].status.RUNNABLE?
    ensures PassedOver(s, cur, w, run) && |run| == turns
    decreases turns
  {
    run := [];
    if turns > 0 {
      var t := Turn(cur, []);
      run := StarvesAbove(Next(s, cur, t), cur, w, turns - 1);
      run := Turned(s, cur, w, t, run);
    }
  }
}
