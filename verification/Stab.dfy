/** stab_binsearch (TP2-sched/kern/kdebug.c): a binary search over a table in which only the
    entries of one type are ordered, which goes on after an exact match. */
module Stab {
  const WORD: nat := 0x1_0000_0000

  datatype Stab = Stab(ntype: int, value: nat)

  /** The search state: the window [l, r], the left end found so far, whether any entry of the
      type has been met, and the address being looked for. *region_right is always r. */
  datatype State = State(l: int, r: int, left: int, any: bool, addr: nat)

  /** The nearest entry of the type at or below `hi`, or lo - 1. */
  function LastOfType(stabs: seq<Stab>, ntype: int, lo: int, hi: int): (m: int)
    requires 0 <= lo <= hi + 1 <= |stabs|
    ensures lo - 1 <= m <= hi
    ensures m >= lo ==> stabs[m].ntype == ntype
    ensures forall i :: m < i <= hi ==> stabs[i].ntype != ntype
    decreases hi - lo + 1
  {
    if hi < lo || stabs[hi].ntype == ntype then hi else LastOfType(stabs, ntype, lo, hi - 1)
  }

  predicate InWindow(stabs: seq<Stab>, s: State)
  {
    0 <= s.l <= s.r + 1 <= |stabs|
  }

  function Probe(stabs: seq<Stab>, ntype: int, s: State): (m: int)
    requires InWindow(stabs, s) && s.l <= s.r
    ensures s.l - 1 <= m <= (s.l + s.r) / 2
    ensures m >= s.l ==> stabs[m].ntype == ntype
    ensures forall i :: m < i <= (s.l + s.r) / 2 ==> stabs[i].ntype != ntype
  {
    LastOfType(stabs, ntype, s.l, (s.l + s.r) / 2)
  }

  /** One iteration of the main loop. */
  function Step(stabs: seq<Stab>, ntype: int, s: State): (t: State)
    requires InWindow(stabs, s) && s.l <= s.r
    ensures InWindow(stabs, t)
  {
    var mid := (s.l + s.r) / 2;
    var m := Probe(stabs, ntype, s);
    if m < s.l then s.(l := mid + 1)
    else if stabs[m].value < s.addr then s.(any := true, left := m, l := mid + 1)
    else if stabs[m].value > s.addr then s.(any := true, r := m - 1)
    else s.(any := true, left := m, l := m, addr := (s.addr + 1) % WORD)
  }

  /** Twice the window, plus one if the next probe is an exact match: such a probe may leave
      the window as it is, but it changes the address, so the one after it is not exact. */
  function Measure(stabs: seq<Stab>, ntype: int, s: State): nat
    requires InWindow(stabs, s)
  {
    2 * (s.r - s.l + 1) +
      if s.l <= s.r && Probe(stabs, ntype, s) >= s.l && stabs[Probe(stabs, ntype, s)].value == s.addr then 1 else 0
  }

  lemma StepTerminates(stabs: seq<Stab>, ntype: int, s: State)
    requires InWindow(stabs, s) && s.l <= s.r
    ensures Measure(stabs, ntype, Step(stabs, ntype, s)) < Measure(stabs, ntype, s)
  {
    var t := Step(stabs, ntype, s);
    var m := Probe(stabs, ntype, s);
    if m == s.l && stabs[m].value == s.addr {
      assert t.addr != s.addr;
      assert Probe(stabs, ntype, t) == m;
    }
  }

  /** The main loop, run to the end. */
  function Search(stabs: seq<Stab>, ntype: int, s: State): (t: State)
    requires InWindow(stabs, s)
    ensures InWindow(stabs, t) && t.l == t.r + 1
    decreases Measure(stabs, ntype, s)
  {
    if s.l > s.r then s
    else
      StepTerminates(stabs, ntype, s);
      Search(stabs, ntype, Step(stabs, ntype, s))
  }

  lemma SearchNext(stabs: seq<Stab>, ntype: int, s: State)
    requires InWindow(stabs, s) && s.l <= s.r
    ensures Search(stabs, ntype, s) == Search(stabs, ntype, Step(stabs, ntype, s))
  {
    hide Step;
  }

  lemma SearchStops(stabs: seq<Stab>, ntype: int, s: State)
    requires InWindow(stabs, s) && s.l > s.r
    ensures Search(stabs, ntype, s) == s
  {
  }

  /** The closing loop: back from `hi` to an entry of the type, no further than `left`. */
  function Back(stabs: seq<Stab>, ntype: int, left: int, hi: int): (b: int)
    requires -1 <= hi < |stabs| && -1 <= left
    ensures b <= hi
    decreases hi - left
  {
    if hi <= left || stabs[hi].ntype == ntype then hi else Back(stabs, ntype, left, hi - 1)
  }

  function Finish(stabs: seq<Stab>, ntype: int, t: State): (int, int)
    requires InWindow(stabs, t) && -1 <= t.left
  {
    if !t.any then (t.left, t.left - 1) else (Back(stabs, ntype, t.left, t.r), t.r)
  }

  function Start(left: int, right: int, addr: nat): State { State(left, right, left, false, addr) }

  /** What the whole function stores through region_left and region_right. */
  function Binsearch(stabs: seq<Stab>, left: int, right: int, ntype: int, addr: nat): (int, int)
    requires 0 <= left <= right + 1 <= |stabs|
  {
    var t := Search(stabs, ntype, Start(left, right, addr));
    LeftInRange(stabs, ntype, Start(left, right, addr));
    Finish(stabs, ntype, t)
  }

  lemma {:induction false} LeftInRange(stabs: seq<Stab>, ntype: int, s: State)
    requires InWindow(stabs, s) && 0 <= s.left
    ensures 0 <= Search(stabs, ntype, s).left
    decreases Measure(stabs, ntype, s)
  {
    if s.l <= s.r {
      StepTerminates(stabs, ntype, s);
      LeftInRange(stabs, ntype, Step(stabs, ntype, s));
    }
  }

  /** The inner loop: down from `mid` to an entry of the type, no further than `l`. */
  method ScanDown(stabs: seq<Stab>, ntype: int, l: int, mid: int) returns (m: int)
    requires 0 <= l <= mid < |stabs|
    ensures m == LastOfType(stabs, ntype, l, mid)
  {
    m := mid;
    while m >= l && stabs[m].ntype != ntype
      invariant l - 1 <= m <= mid
      invariant LastOfType(stabs, ntype, l, m) == LastOfType(stabs, ntype, l, mid)
    {
      m := m - 1;
    }
  }

  /** The closing loop. */
  method ScanBack(stabs: seq<Stab>, ntype: int, left: int, right: int) returns (l: int)
    requires -1 <= right < |stabs| && -1 <= left
    ensures l == Back(stabs, ntype, left, right)
  {
    l := right;
    while l > left && stabs[l].ntype != ntype
      invariant -1 <= l <= right
      invariant Back(stabs, ntype, left, l) == Back(stabs, ntype, left, right)
    {
      l := l - 1;
    }
  }

  method StabBinsearch(stabs: seq<Stab>, left: int, right: int, ntype: int, addr0: nat)
    returns (regionLeft: int, regionRight: int)
    requires 0 <= left <= right + 1 <= |stabs|
    ensures (regionLeft, regionRight) == Binsearch(stabs, left, right, ntype, addr0)
  {
    hide LastOfType, Back, Measure, Search;
    ghost var start := Start(left, right, addr0);
    regionLeft, regionRight := left, right;
    var l, r, anyMatches := left, right, false;
    var addr: nat := addr0;
    while l <= r
      invariant 0 <= l <= r + 1 <= |stabs| && regionRight == r && regionLeft >= 0
      invariant Search(stabs, ntype, State(l, r, regionLeft, anyMatches, addr)) == Search(stabs, ntype, start)
      decreases Measure(stabs, ntype, State(l, r, regionLeft, anyMatches, addr))
    {
      StepTerminates(stabs, ntype, State(l, r, regionLeft, anyMatches, addr));
      SearchNext(stabs, ntype, State(l, r, regionLeft, anyMatches, addr));
      var trueM := (l + r) / 2;
      var m := ScanDown(stabs, ntype, l, trueM);
      if m < l {
        l := trueM + 1;
        continue;
      }
      anyMatches := true;
      if stabs[m].value < addr {
        regionLeft := m;
        l := trueM + 1;
      } else if stabs[m].value > addr {
        regionRight := m - 1;
        r := m - 1;
      } else {
        regionLeft := m;
        l := m;
        addr := (addr + 1) % WORD;
      }
    }
    SearchStops(stabs, ntype, State(l, r, regionLeft, anyMatches, addr));
    LeftInRange(stabs, ntype, start);
    if !anyMatches {
      regionRight := regionLeft - 1;
    } else {
      regionLeft := ScanBack(stabs, ntype, regionLeft, regionRight);
    }
  }

  // ---- what it is for ----

  ghost predicate Match(stabs: seq<Stab>, lo: int, hi: int, ntype: int, i: int)
    requires 0 <= lo <= hi + 1 <= |stabs|
  {
    lo <= i <= hi && stabs[i].ntype == ntype
  }

  /** Entries of the type are in order of value. */
  ghost predicate Ordered(stabs: seq<Stab>, lo: int, hi: int, ntype: int)
    requires 0 <= lo <= hi + 1 <= |stabs|
  {
    forall i, j :: Match(stabs, lo, hi, ntype, i) && Match(stabs, lo, hi, ntype, j) && i <= j ==>
      stabs[i].value <= stabs[j].value
  }

  ghost predicate HasValue(stabs: seq<Stab>, lo: int, hi: int, ntype: int, v: nat)
    requires 0 <= lo <= hi + 1 <= |stabs|
  {
    exists i :: Match(stabs, lo, hi, ntype, i) && stabs[i].value == v
  }

  ghost predicate AnyMatch(stabs: seq<Stab>, lo: int, hi: int, ntype: int)
    requires 0 <= lo <= hi + 1 <= |stabs|
  {
    exists i :: Match(stabs, lo, hi, ntype, i)
  }

  /** Some entry of the type starts at or below the address. */
  ghost predicate Contained(stabs: seq<Stab>, lo: int, hi: int, ntype: int, addr: nat)
    requires 0 <= lo <= hi + 1 <= |stabs|
  {
    exists i :: Match(stabs, lo, hi, ntype, i) && stabs[i].value <= addr
  }

  /** `left` is the last entry of the type at or below the address, and `right` is the index
      just before the next entry of the type, or the original right end. */
  ghost predicate Brackets(stabs: seq<Stab>, lo: int, hi: int, ntype: int, addr: nat, left: int, right: int)
    requires 0 <= lo <= hi + 1 <= |stabs|
  {
    && Match(stabs, lo, hi, ntype, left) && stabs[left].value <= addr
    && (forall i :: Match(stabs, lo, hi, ntype, i) && stabs[i].value <= addr ==> i <= left)
    && left <= right <= hi
    && (right == hi || Match(stabs, lo, hi, ntype, right + 1))
    && (forall i :: left < i <= right ==> !Match(stabs, lo, hi, ntype, i))
  }

  /** The search cannot be thrown off by what it does after an exact match: the address and its
      successor are not both values of the type, and an exact match is not the largest word. */
  ghost predicate NoRunOn(stabs: seq<Stab>, lo: int, hi: int, ntype: int, addr: nat)
    requires 0 <= lo <= hi + 1 <= |stabs|
  {
    HasValue(stabs, lo, hi, ntype, addr) ==>
      addr + 1 < WORD && !HasValue(stabs, lo, hi, ntype, addr + 1)
  }

  ghost predicate LoopInv(stabs: seq<Stab>, lo: int, hi: int, ntype: int, addr: nat, s: State)
    requires 0 <= lo <= hi + 1 <= |stabs|
  {
    && InWindow(stabs, s) && lo <= s.l && s.r <= hi
    && (s.addr == addr || (s.addr == addr + 1 && HasValue(stabs, lo, hi, ntype, addr)))
    && (forall i :: Match(stabs, lo, hi, ntype, i) && i < s.l ==> stabs[i].value <= addr)
    && (forall i :: Match(stabs, lo, hi, ntype, i) && i > s.r ==> stabs[i].value > addr)
    && (s.r == hi || Match(stabs, lo, hi, ntype, s.r + 1))
    && ((s.left == lo && forall i :: Match(stabs, lo, hi, ntype, i) ==> i >= s.l)
        || (Match(stabs, lo, hi, ntype, s.left) && stabs[s.left].value <= addr))
    && (!s.any ==> s.left == lo && s.r == hi && forall i :: Match(stabs, lo, hi, ntype, i) ==> i >= s.l)
    && (s.any ==> AnyMatch(stabs, lo, hi, ntype))
  }

  /** Entries up to the midpoint lie at or below the probe, the others above the midpoint. */
  lemma ProbeSplits(stabs: seq<Stab>, lo: int, hi: int, ntype: int, s: State)
    requires 0 <= lo <= hi + 1 <= |stabs| && InWindow(stabs, s) && s.l <= s.r
    ensures forall i :: Match(stabs, lo, hi, ntype, i) && s.l <= i <= (s.l + s.r) / 2 ==> i <= Probe(stabs, ntype, s)
  {
  }

  lemma StepUp(stabs: seq<Stab>, lo: int, hi: int, ntype: int, addr: nat, s: State)
    requires 0 <= lo <= hi + 1 <= |stabs| && Ordered(stabs, lo, hi, ntype)
    requires LoopInv(stabs, lo, hi, ntype, addr, s) && s.l <= s.r
    requires Probe(stabs, ntype, s) < s.l || stabs[Probe(stabs, ntype, s)].value < s.addr
    ensures LoopInv(stabs, lo, hi, ntype, addr, Step(stabs, ntype, s))
  {
    hide HasValue, Measure;
    ProbeSplits(stabs, lo, hi, ntype, s);
    var m := Probe(stabs, ntype, s);
    if m >= s.l {
      assert Match(stabs, lo, hi, ntype, m);
    }
    hide Probe;
  }

  lemma StepDown(stabs: seq<Stab>, lo: int, hi: int, ntype: int, addr: nat, s: State)
    requires 0 <= lo <= hi + 1 <= |stabs| && Ordered(stabs, lo, hi, ntype) && NoRunOn(stabs, lo, hi, ntype, addr)
    requires LoopInv(stabs, lo, hi, ntype, addr, s) && s.l <= s.r
    requires Probe(stabs, ntype, s) >= s.l && stabs[Probe(stabs, ntype, s)].value > s.addr
    ensures LoopInv(stabs, lo, hi, ntype, addr, Step(stabs, ntype, s))
  {
    hide HasValue, Measure, LastOfType;
    var m := Probe(stabs, ntype, s);
    assert Match(stabs, lo, hi, ntype, m);
  }

  lemma StepExact(stabs: seq<Stab>, lo: int, hi: int, ntype: int, addr: nat, s: State)
    requires 0 <= lo <= hi + 1 <= |stabs| && Ordered(stabs, lo, hi, ntype) && NoRunOn(stabs, lo, hi, ntype, addr)
    requires LoopInv(stabs, lo, hi, ntype, addr, s) && s.l <= s.r
    requires Probe(stabs, ntype, s) >= s.l && stabs[Probe(stabs, ntype, s)].value == s.addr
    ensures LoopInv(stabs, lo, hi, ntype, addr, Step(stabs, ntype, s))
  {
    var m := Probe(stabs, ntype, s);
    assert Match(stabs, lo, hi, ntype, m);
    // an exact match happens once: the successor is no value of the type
    assert HasValue(stabs, lo, hi, ntype, s.addr);
    assert s.addr == addr;
    hide Measure, LastOfType, Probe;
  }

  lemma StepKeepsInv(stabs: seq<Stab>, lo: int, hi: int, ntype: int, addr: nat, s: State)
    requires 0 <= lo <= hi + 1 <= |stabs| && Ordered(stabs, lo, hi, ntype) && NoRunOn(stabs, lo, hi, ntype, addr)
    requires LoopInv(stabs, lo, hi, ntype, addr, s) && s.l <= s.r
    ensures LoopInv(stabs, lo, hi, ntype, addr, Step(stabs, ntype, s))
  {
    hide LoopInv, Ordered, NoRunOn, Step, LastOfType;
    LoopInvWindow(stabs, lo, hi, ntype, addr, s);
    var m := Probe(stabs, ntype, s);
    if m < s.l || stabs[m].value < s.addr {
      StepUp(stabs, lo, hi, ntype, addr, s);
    } else if stabs[m].value > s.addr {
      StepDown(stabs, lo, hi, ntype, addr, s);
    } else {
      StepExact(stabs, lo, hi, ntype, addr, s);
    }
  }

  lemma LoopInvWindow(stabs: seq<Stab>, lo: int, hi: int, ntype: int, addr: nat, s: State)
    requires 0 <= lo <= hi + 1 <= |stabs| && LoopInv(stabs, lo, hi, ntype, addr, s)
    ensures InWindow(stabs, s)
  {
  }

  lemma {:induction false} SearchKeepsInv(stabs: seq<Stab>, lo: int, hi: int, ntype: int, addr: nat, s: State)
    requires 0 <= lo <= hi + 1 <= |stabs| && Ordered(stabs, lo, hi, ntype) && NoRunOn(stabs, lo, hi, ntype, addr)
    requires LoopInv(stabs, lo, hi, ntype, addr, s)
    ensures LoopInv(stabs, lo, hi, ntype, addr, Search(stabs, ntype, s))
    decreases Measure(stabs, ntype, s)
  {
    hide LoopInv, Ordered, NoRunOn, LastOfType;
    LoopInvWindow(stabs, lo, hi, ntype, addr, s);
    if s.l <= s.r {
      StepKeepsInv(stabs, lo, hi, ntype, addr, s);
      StepTerminates(stabs, ntype, s);
      SearchKeepsInv(stabs, lo, hi, ntype, addr, Step(stabs, ntype, s));
    }
  }

  lemma {:induction false} BackStops(stabs: seq<Stab>, ntype: int, left: int, hi: int)
    requires -1 <= hi < |stabs| && -1 <= left
    ensures var b := Back(stabs, ntype, left, hi);
      && (hi <= left ==> b == hi)
      && (hi > left ==> left <= b)
      && (b > left ==> stabs[b].ntype == ntype || hi <= left)
      && forall i :: b < i <= hi ==> stabs[i].ntype != ntype
    decreases hi - left
  {
    if hi > left && stabs[hi].ntype != ntype {
      BackStops(stabs, ntype, left, hi - 1);
    }
  }

  /** Where the search stops, as the rest of the function turns it into a result. */
  lemma FinishOutcomes(stabs: seq<Stab>, lo: int, hi: int, ntype: int, addr: nat, t: State)
    requires 0 <= lo <= hi + 1 <= |stabs| && Ordered(stabs, lo, hi, ntype)
    requires LoopInv(stabs, lo, hi, ntype, addr, t) && t.l == t.r + 1
    requires 0 <= t.left
    ensures var (left, right) := Finish(stabs, ntype, t);
      && (Contained(stabs, lo, hi, ntype, addr) ==> Brackets(stabs, lo, hi, ntype, addr, left, right))
      && (!AnyMatch(stabs, lo, hi, ntype) ==> (left, right) == (lo, lo - 1))
      && (AnyMatch(stabs, lo, hi, ntype) && !Contained(stabs, lo, hi, ntype, addr) ==>
            && Match(stabs, lo, hi, ntype, right + 1)
            && (forall i :: Match(stabs, lo, hi, ntype, i) ==> right < i)
            && left == if right < lo then right else lo)
  {
    if t.any {
      BackStops(stabs, ntype, t.left, t.r);
    }
  }

  /** The three outcomes. If an entry of the type starts at or below the address, the result
      brackets it. If there is no entry of the type, the result is empty, as documented, at the left
      end. If all entries of the type start above the address, the result ends just before the first
      of them and is not empty. */
  lemma BinsearchOutcomes(stabs: seq<Stab>, lo: int, hi: int, ntype: int, addr: nat)
    requires 0 <= lo <= hi + 1 <= |stabs| && Ordered(stabs, lo, hi, ntype) && NoRunOn(stabs, lo, hi, ntype, addr)
    ensures var (left, right) := Binsearch(stabs, lo, hi, ntype, addr);
      && (Contained(stabs, lo, hi, ntype, addr) ==> Brackets(stabs, lo, hi, ntype, addr, left, right))
      && (!AnyMatch(stabs, lo, hi, ntype) ==> (left, right) == (lo, lo - 1))
      && (AnyMatch(stabs, lo, hi, ntype) && !Contained(stabs, lo, hi, ntype, addr) ==>
            && Match(stabs, lo, hi, ntype, right + 1)
            && (forall i :: Match(stabs, lo, hi, ntype, i) ==> right < i)
            && left == if right < lo then right else lo)
  {
    var s := Start(lo, hi, addr);
    assert LoopInv(stabs, lo, hi, ntype, addr, s);
    hide LoopInv, Ordered, NoRunOn, Search, Finish, Contained, Brackets, AnyMatch;
    SearchKeepsInv(stabs, lo, hi, ntype, addr, s);
    LeftInRange(stabs, ntype, s);
    FinishOutcomes(stabs, lo, hi, ntype, addr, Search(stabs, ntype, s));
  }

  /** What the documentation promises of the two results. */
  ghost predicate Documented(stabs: seq<Stab>, lo: int, hi: int, ntype: int, addr: nat, left: int, right: int)
    requires 0 <= lo <= hi + 1 <= |stabs|
  {
    if Contained(stabs, lo, hi, ntype, addr) then Brackets(stabs, lo, hi, ntype, addr, left, right) else left > right
  }

  /** After an exact match at the largest word the address has wrapped to zero: the left end
      stays at the match and the right end comes down to just below it. */
  lemma {:induction false} WrappedEnds(stabs: seq<Stab>, ntype: int, s: State)
    requires InWindow(stabs, s) && s.l == s.left < |stabs| && s.any && s.addr == 0
    requires stabs[s.l].ntype == ntype
    requires forall i :: s.l <= i <= s.r && stabs[i].ntype == ntype ==> stabs[i].value > 0
    ensures Search(stabs, ntype, s) == s.(l := s.left, r := s.left - 1)
    decreases Measure(stabs, ntype, s)
  {
    hide LastOfType;
    if s.l <= s.r {
      StepTerminates(stabs, ntype, s);
      WrappedEnds(stabs, ntype, Step(stabs, ntype, s));
    }
  }

  lemma {:induction false} ExactAtMax(stabs: seq<Stab>, lo: int, hi: int, ntype: int, s: State)
    requires 0 <= lo <= hi + 1 <= |stabs| && Ordered(stabs, lo, hi, ntype)
    requires InWindow(stabs, s) && lo <= s.l && s.r == hi && s.addr == WORD - 1
    requires forall i :: 0 <= i < |stabs| ==> stabs[i].value < WORD
    requires forall i :: Match(stabs, lo, hi, ntype, i) && i < s.l ==> stabs[i].value < WORD - 1
    requires HasValue(stabs, lo, hi, ntype, WORD - 1)
    ensures var t := Search(stabs, ntype, s);
      t.any && Match(stabs, lo, hi, ntype, t.left) && t.r == t.left - 1
    decreases Measure(stabs, ntype, s)
  {
    hide LastOfType;
    assert s.l <= s.r;
    StepTerminates(stabs, ntype, s);
    var m, t := Probe(stabs, ntype, s), Step(stabs, ntype, s);
    ProbeSplits(stabs, lo, hi, ntype, s);
    assert m >= s.l ==> Match(stabs, lo, hi, ntype, m);
    if m < s.l || stabs[m].value < s.addr {
      ExactAtMax(stabs, lo, hi, ntype, t);
    } else {
      forall i | m <= i <= s.r && stabs[i].ntype == ntype ensures stabs[i].value > 0 {
        assert Match(stabs, lo, hi, ntype, i);
      }
      WrappedEnds(stabs, ntype, t);
    }
  }

  /** An exact match at the largest word: the result is never the documented one. */
  lemma MaxWordFails(stabs: seq<Stab>, lo: int, hi: int, ntype: int)
    requires 0 <= lo <= hi + 1 <= |stabs| && Ordered(stabs, lo, hi, ntype)
    requires forall i :: 0 <= i < |stabs| ==> stabs[i].value < WORD
    requires HasValue(stabs, lo, hi, ntype, WORD - 1)
    ensures var (left, right) := Binsearch(stabs, lo, hi, ntype, WORD - 1);
      !Documented(stabs, lo, hi, ntype, WORD - 1, left, right)
  {
    hide Search, Ordered;
    var s := Start(lo, hi, WORD - 1);
    ExactAtMax(stabs, lo, hi, ntype, s);
    var t := Search(stabs, ntype, s);
    BackStops(stabs, ntype, t.left, t.r);
  }

  /** As long as the address and its successor are not both values of the type, the function
      keeps its documented promise exactly when the table has no entry of the type or one at or
      below the address, and the address is not an entry at the largest word. */
  lemma DocumentedIff(stabs: seq<Stab>, lo: int, hi: int, ntype: int, addr: nat)
    requires 0 <= lo <= hi + 1 <= |stabs| && Ordered(stabs, lo, hi, ntype) && addr < WORD
    requires forall i :: 0 <= i < |stabs| ==> stabs[i].value < WORD
    requires !(HasValue(stabs, lo, hi, ntype, addr) && HasValue(stabs, lo, hi, ntype, addr + 1))
    ensures var (left, right) := Binsearch(stabs, lo, hi, ntype, addr);
      (&& (AnyMatch(stabs, lo, hi, ntype) ==> Contained(stabs, lo, hi, ntype, addr))
       && !(addr == WORD - 1 && HasValue(stabs, lo, hi, ntype, addr)))
      <==> Documented(stabs, lo, hi, ntype, addr, left, right)
  {
    hide Binsearch, Ordered, HasValue, AnyMatch, Contained, Brackets;
    if addr == WORD - 1 && HasValue(stabs, lo, hi, ntype, addr) {
      MaxWordFails(stabs, lo, hi, ntype);
    } else {
      BinsearchOutcomes(stabs, lo, hi, ntype, addr);
    }
  }

  /** With entries at 5 and 6, looking for 5 runs on to 6. */
  lemma RunsOn()
    ensures var stabs := [Stab(36, 5), Stab(36, 6)];
      && Ordered(stabs, 0, 1, 36) && Contained(stabs, 0, 1, 36, 5)
      && Binsearch(stabs, 0, 1, 36, 5) == (1, 1)
      && !Documented(stabs, 0, 1, 36, 5, 1, 1)
  {
    var stabs := [Stab(36, 5), Stab(36, 6)];
    assert Match(stabs, 0, 1, 36, 0) && stabs[0].value == 5;
    var s0 := Start(0, 1, 5);
    var s1 := Step(stabs, 36, s0);
    assert s1 == State(0, 1, 0, true, 6);
    var s2 := Step(stabs, 36, s1);
    assert s2 == State(1, 1, 0, true, 6);
    var s3 := Step(stabs, 36, s2);
    assert s3 == State(1, 1, 1, true, 7);
    var s4 := Step(stabs, 36, s3);
    assert s4 == State(2, 1, 1, true, 7);
    assert Search(stabs, 36, s4) == s4;
    assert Search(stabs, 36, s2) == s4;
    assert Search(stabs, 36, s0) == s4;
  }

  /** But with another entry at 6 it does not: the probes come from the other side. So when the
      successor is a value too, the layout of the table decides. */
  lemma DoesNotRunOn()
    ensures var stabs := [Stab(36, 5), Stab(36, 6), Stab(36, 6)];
      && Ordered(stabs, 0, 2, 36) && HasValue(stabs, 0, 2, 36, 5) && HasValue(stabs, 0, 2, 36, 6)
      && Binsearch(stabs, 0, 2, 36, 5) == (0, 0)
      && Documented(stabs, 0, 2, 36, 5, 0, 0)
  {
    var stabs := [Stab(36, 5), Stab(36, 6), Stab(36, 6)];
    StopsEarly();
    hide Binsearch;
    assert Match(stabs, 0, 2, 36, 0) && stabs[0].value == 5;
    assert Match(stabs, 0, 2, 36, 1) && stabs[1].value == 6;
  }

  lemma StopsEarly()
    ensures Binsearch([Stab(36, 5), Stab(36, 6), Stab(36, 6)], 0, 2, 36, 5) == (0, 0)
  {
    hide Search;
    Stops();
  }

  lemma Stops()
    ensures var stabs := [Stab(36, 5), Stab(36, 6), Stab(36, 6)];
      Search(stabs, 36, Start(0, 2, 5)) == State(1, 0, 0, true, 6)
  {
    var stabs := [Stab(36, 5), Stab(36, 6), Stab(36, 6)];
    var s0 := Start(0, 2, 5);
    var s1, s2, s3 := State(0, 0, 0, true, 5), State(0, 0, 0, true, 6), State(1, 0, 0, true, 6);
    assert Step(stabs, 36, s0) == s1;
    assert Step(stabs, 36, s1) == s2;
    assert Step(stabs, 36, s2) == s3;
    SearchStops(stabs, 36, s3);
    SearchNext(stabs, 36, s2);
    SearchNext(stabs, 36, s1);
    SearchNext(stabs, 36, s0);
  }
}
