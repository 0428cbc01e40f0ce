/** User page-fault upcalls: the frame page_fault_handler pushes on the exception stack
    (TP2-sched/kern/trap.c) and the instructions of _pgfault_upcall that unwind it
    (TP2-sched/lib/pfentry.S), over a byte-addressed 32-bit memory. */
module Upcall {
  import opened Mmu

  const EXSTK: nat := UXSTACKTOP - PGSIZE
  const EXSTK_TOP: nat := UXSTACKTOP - 1
  const FRAME_SIZE: nat := 52

  type Mem = seq<nat>

  /** A value of a 32-bit field. */
  type Word32 = w: nat | w < WORD

  // ---- little-endian words ----

  function Read32(m: Mem, a: nat): nat
    requires a + 4 <= |m|
  {
    m[a] + 0x100 * m[a + 1] + 0x1_0000 * m[a + 2] + 0x100_0000 * m[a + 3]
  }

  function Byte(w: nat, i: nat): (b: nat)
    requires i < 4
    ensures b < 256
  {
    (if i == 0 then w else if i == 1 then w / 0x100 else if i == 2 then w / 0x1_0000 else w / 0x100_0000) % 256
  }

  function Write32(m: Mem, a: nat, w: nat): (r: Mem)
    requires a + 4 <= |m|
    ensures |r| == |m|
    ensures forall x :: 0 <= x < |m| && !(a <= x < a + 4) ==> r[x] == m[x]
    ensures forall i :: 0 <= i < 4 ==> r[a + i] == Byte(w, i)
  {
    m[a := Byte(w, 0)][a + 1 := Byte(w, 1)][a + 2 := Byte(w, 2)][a + 3 := Byte(w, 3)]
  }

  lemma BytesOfWord(w: nat)
    requires w < WORD
    ensures Byte(w, 0) + 0x100 * Byte(w, 1) + 0x1_0000 * Byte(w, 2) + 0x100_0000 * Byte(w, 3) == w
  {
    assert w == 0x100 * (w / 0x100) + w % 0x100;
    assert w / 0x100 == 0x100 * (w / 0x1_0000) + w / 0x100 % 0x100;
    assert w / 0x1_0000 == 0x100 * (w / 0x100_0000) + w / 0x1_0000 % 0x100;
    assert w / 0x100_0000 < 256;
  }

  lemma ReadBack(m: Mem, a: nat, w: nat)
    requires a + 4 <= |m| && w < WORD
    ensures Read32(Write32(m, a, w), a) == w
  {
    BytesOfWord(w);
    var r := Write32(m, a, w);
    assert r[a + 0] == Byte(w, 0);
    assert r[a + 1] == Byte(w, 1);
    assert r[a + 2] == Byte(w, 2);
    assert r[a + 3] == Byte(w, 3);
  }

  /** The low byte comes first. */
  lemma LittleEndian(m: Mem, a: nat, w: Word32)
    requires a + 4 <= |m|
    ensures var r := Write32(m, a, w);
      && r[a] == w % 0x100 && r[a + 1] == w / 0x100 % 0x100
      && r[a + 2] == w / 0x1_0000 % 0x100 && r[a + 3] == w / 0x100_0000
  {
    var r := Write32(m, a, w);
    assert r[a + 0] == Byte(w, 0);
    assert r[a + 1] == Byte(w, 1);
    assert r[a + 2] == Byte(w, 2);
    assert r[a + 3] == Byte(w, 3);
  }

  lemma ReadElsewhere(m: Mem, m': Mem, a: nat)
    requires a + 4 <= |m| && |m'| == |m| && forall x :: a <= x < a + 4 ==> m'[x] == m[x]
    ensures Read32(m', a) == Read32(m, a)
  {
  }

  /** Consecutive words. */
  function WriteWords(m: Mem, a: nat, ws: seq<nat>): (r: Mem)
    requires a + 4 * |ws| <= |m|
    ensures |r| == |m|
    ensures forall x :: 0 <= x < |m| && !(a <= x < a + 4 * |ws|) ==> r[x] == m[x]
    decreases |ws|
  {
    if ws == [] then m else WriteWords(Write32(m, a, ws[0]), a + 4, ws[1..])
  }

  lemma {:induction false} ReadWords(m: Mem, a: nat, ws: seq<nat>, i: nat)
    requires a + 4 * |ws| <= |m| && i < |ws| && forall j :: 0 <= j < |ws| ==> ws[j] < WORD
    ensures Read32(WriteWords(m, a, ws), a + 4 * i) == ws[i]
    decreases |ws|
  {
    var m1 := Write32(m, a, ws[0]);
    if i == 0 {
      ReadBack(m, a, ws[0]);
      ReadElsewhere(m1, WriteWords(m, a, ws), a);
    } else {
      ReadWords(m1, a + 4, ws[1..], i - 1);
    }
  }

  // ---- the trap-time state and its frame ----

  datatype Regs = Regs(edi: nat, esi: nat, ebp: nat, ebx: nat, edx: nat, ecx: nat, eax: nat)

  datatype Ctx = Ctx(regs: Regs, eip: nat, eflags: nat, esp: nat)

  predicate CtxOk(c: Ctx)
  {
    && c.regs.edi < WORD && c.regs.esi < WORD && c.regs.ebp < WORD && c.regs.ebx < WORD
    && c.regs.edx < WORD && c.regs.ecx < WORD && c.regs.eax < WORD
    && c.eip < WORD && c.eflags < WORD && c.esp < WORD
  }

  /** struct UTrapframe, lowest address first; `oesp` is the slot pusha leaves and popa skips. */
  function FrameWords(c: Ctx, faultVa: nat, err: nat, oesp: nat): (ws: seq<nat>)
    ensures |ws| == 13
  {
    [faultVa, err, c.regs.edi, c.regs.esi, c.regs.ebp, oesp, c.regs.ebx, c.regs.edx, c.regs.ecx,
     c.regs.eax, c.eip, c.eflags, c.esp]
  }

  /** Is this a fault taken while already on the exception stack? */
  predicate Nested(c: Ctx) { EXSTK <= c.esp <= EXSTK_TOP }

  /** Where the frame goes: under the page's top byte, or under the trap-time stack with one
      word left free. */
  function FrameAt(c: Ctx): (f: nat)
    ensures EXSTK - 56 <= f && f + FRAME_SIZE <= EXSTK_TOP
  {
    if Nested(c) then c.esp - 4 - FRAME_SIZE else EXSTK_TOP - FRAME_SIZE
  }

  function Push(m: Mem, c: Ctx, faultVa: nat, err: nat, oesp: nat): (r: Mem)
    requires |m| == WORD
    ensures |r| == WORD
  {
    var m1 := if Nested(c) then Write32(m, c.esp - 4, 0) else m;
    WriteWords(m1, FrameAt(c), FrameWords(c, faultVa, err, oesp))
  }

  /** The frame of `c` is intact at address `f`. */
  predicate FrameIs(m: Mem, f: nat, c: Ctx)
    requires |m| == WORD && f + FRAME_SIZE <= WORD
  {
    && Read32(m, f + 8) == c.regs.edi && Read32(m, f + 12) == c.regs.esi && Read32(m, f + 16) == c.regs.ebp
    && Read32(m, f + 24) == c.regs.ebx && Read32(m, f + 28) == c.regs.edx && Read32(m, f + 32) == c.regs.ecx
    && Read32(m, f + 36) == c.regs.eax && Read32(m, f + 40) == c.eip && Read32(m, f + 44) == c.eflags
    && Read32(m, f + 48) == c.esp
  }

  lemma PushLeavesFrame(m: Mem, c: Ctx, faultVa: nat, err: nat, oesp: nat)
    requires |m| == WORD && CtxOk(c) && faultVa < WORD && err < WORD && oesp < WORD
    ensures FrameIs(Push(m, c, faultVa, err, oesp), FrameAt(c), c)
    ensures Read32(Push(m, c, faultVa, err, oesp), FrameAt(c)) == faultVa
    ensures Read32(Push(m, c, faultVa, err, oesp), FrameAt(c) + 4) == err
    ensures Read32(Push(m, c, faultVa, err, oesp), FrameAt(c) + 20) == oesp
    ensures forall x :: 0 <= x < WORD && !(FrameAt(c) <= x < FrameAt(c) + FRAME_SIZE) ==>
      (Nested(c) && c.esp - 4 <= x < c.esp) || Push(m, c, faultVa, err, oesp)[x] == m[x]
  {
    hide Read32, Byte;
    var ws := FrameWords(c, faultVa, err, oesp);
    var m1 := if Nested(c) then Write32(m, c.esp - 4, 0) else m;
    ReadWords(m1, FrameAt(c), ws, 0);
    ReadWords(m1, FrameAt(c), ws, 1);
    ReadWords(m1, FrameAt(c), ws, 5);
    ReadWords(m1, FrameAt(c), ws, 2);
    ReadWords(m1, FrameAt(c), ws, 3);
    ReadWords(m1, FrameAt(c), ws, 4);
    ReadWords(m1, FrameAt(c), ws, 6);
    ReadWords(m1, FrameAt(c), ws, 7);
    ReadWords(m1, FrameAt(c), ws, 8);
    ReadWords(m1, FrameAt(c), ws, 9);
    ReadWords(m1, FrameAt(c), ws, 10);
    ReadWords(m1, FrameAt(c), ws, 11);
    ReadWords(m1, FrameAt(c), ws, 12);
  }

  /** On the exception stack the word under the trap-time stack is cleared, for the return address. */
  lemma PushClearsSlot(m: Mem, c: Ctx, faultVa: nat, err: nat, oesp: nat)
    requires |m| == WORD && CtxOk(c) && Nested(c)
    ensures Read32(Push(m, c, faultVa, err, oesp), c.esp - 4) == 0
  {
    hide Read32;
    ReadBack(m, c.esp - 4, 0);
    ReadElsewhere(Write32(m, c.esp - 4, 0), Push(m, c, faultVa, err, oesp), c.esp - 4);
  }

  lemma FrameSurvives(m: Mem, m': Mem, f: nat, c: Ctx)
    requires |m| == |m'| == WORD && f + FRAME_SIZE <= WORD && FrameIs(m, f, c)
    requires forall x :: f <= x < f + FRAME_SIZE ==> m'[x] == m[x]
    ensures FrameIs(m', f, c)
  {
    hide Read32;
    ReadElsewhere(m, m', f + 8);
    ReadElsewhere(m, m', f + 12);
    ReadElsewhere(m, m', f + 16);
    ReadElsewhere(m, m', f + 24);
    ReadElsewhere(m, m', f + 28);
    ReadElsewhere(m, m', f + 32);
    ReadElsewhere(m, m', f + 36);
    ReadElsewhere(m, m', f + 40);
    ReadElsewhere(m, m', f + 44);
    ReadElsewhere(m, m', f + 48);
  }

  /** The word the upcall writes the return address to lies outside the frame it unwinds. */
  predicate SlotClear(f: nat, c: Ctx)
  {
    c.esp >= 4 && (c.esp <= f || f + FRAME_SIZE <= c.esp - 4)
  }

  /** What unwinding frame `f` leaves in memory: the return address under the trap-time stack,
      and the adjusted stack pointer in the frame. */
  function Unwound(m: Mem, f: nat, c: Ctx): (r: Mem)
    requires |m| == WORD && f + FRAME_SIZE <= WORD && 4 <= c.esp <= WORD
    ensures |r| == WORD
  {
    Write32(Write32(m, c.esp - 4, c.eip), f + 48, c.esp - 4)
  }

  datatype Outcome = Resumed | Destroyed | Panicked

  /** The processor, as far as the upcall uses it. */
  class Cpu {
    var edi: nat
    var esi: nat
    var ebp: nat
    var ebx: nat
    var edx: nat
    var ecx: nat
    var eax: nat
    var esp: nat
    var eip: nat
    var eflags: nat
    var mem: Mem

    function State(): Ctx
      reads this
    {
      Ctx(Regs(edi, esi, ebp, ebx, edx, ecx, eax), eip, eflags, esp)
    }

    method Pop() returns (v: nat)
      requires |mem| == WORD && esp + 4 <= WORD
      modifies this`esp
      ensures v == Read32(mem, old(esp)) && esp == old(esp) + 4
    {
      hide Read32;
      v := Read32(mem, esp);
      esp := esp + 4;
    }

    /** popal: seven registers, skipping the saved stack pointer. */
    method Popal()
      requires |mem| == WORD && esp + 32 <= WORD
      modifies this`edi, this`esi, this`ebp, this`ebx, this`edx, this`ecx, this`eax, this`esp
      ensures edi == Read32(mem, old(esp)) && esi == Read32(mem, old(esp) + 4) && ebp == Read32(mem, old(esp) + 8)
      ensures ebx == Read32(mem, old(esp) + 16) && edx == Read32(mem, old(esp) + 20)
      ensures ecx == Read32(mem, old(esp) + 24) && eax == Read32(mem, old(esp) + 28)
      ensures esp == old(esp) + 32
    {
      hide Read32;
      edi := Pop();
      esi := Pop();
      ebp := Pop();
      var skipped := Pop();
      ebx := Pop();
      edx := Pop();
      ecx := Pop();
      eax := Pop();
    }

    /** page_fault_handler for a user-mode fault; `mapped` is what user_mem_assert finds of the
        exception page, and `upcall` is curenv's registered entry point, or 0. */
    method PageFaultHandler(faultVa: Word32, err: Word32, oesp: Word32, upcall: nat, mapped: bool)
      returns (out: Outcome)
      requires |mem| == WORD && CtxOk(State())
      modifies this
      ensures out == if upcall == 0 || !mapped then Destroyed
                     else if EXSTK <= old(esp) < EXSTK + 56 then Panicked else Resumed
      ensures out == Resumed ==>
        && |mem| == WORD && esp + 52 <= WORD
        && esp == (if EXSTK <= old(esp) < UXSTACKTOP then old(esp) - 56 else UXSTACKTOP - 53)
        && Read32(mem, esp) == faultVa && Read32(mem, esp + 4) == err
        && Read32(mem, esp + 8) == old(edi) && Read32(mem, esp + 12) == old(esi) && Read32(mem, esp + 16) == old(ebp)
        && Read32(mem, esp + 20) == oesp && Read32(mem, esp + 24) == old(ebx) && Read32(mem, esp + 28) == old(edx)
        && Read32(mem, esp + 32) == old(ecx) && Read32(mem, esp + 36) == old(eax)
        && Read32(mem, esp + 40) == old(eip) && Read32(mem, esp + 44) == old(eflags)
        && Read32(mem, esp + 48) == old(esp)
        && (EXSTK <= old(esp) < UXSTACKTOP ==> Read32(mem, old(esp) - 4) == 0)
      ensures out == Resumed ==> |mem| == |old(mem)| && forall x :: 0 <= x < |mem| ==>
        || (esp <= x < esp + 52) || (EXSTK <= old(esp) < UXSTACKTOP && old(esp) - 4 <= x < old(esp))
        || mem[x] == old(mem)[x]
      ensures out == Resumed ==>
        mem == Push(old(mem), old(State()), faultVa, err, oesp)
        && State() == old(State()).(esp := FrameAt(old(State())), eip := upcall)
    {
      hide Read32, WriteWords, FrameWords, Write32;
      if upcall == 0 {
        return Destroyed;
      }
      if !mapped {
        return Destroyed;
      }
      ghost var c := State();
      var tmp := esp;
      if esp < EXSTK || esp > EXSTK_TOP {
        tmp := EXSTK_TOP - FRAME_SIZE;
      } else {
        tmp := tmp - 4;
        mem := Write32(mem, tmp, 0);
        tmp := tmp - FRAME_SIZE;
      }
      mem := WriteWords(mem, tmp, FrameWords(State(), faultVa, err, oesp));
      if tmp < EXSTK || tmp > EXSTK_TOP {
        return Panicked;
      }
      PushLeavesFrame(old(mem), c, faultVa, err, oesp);
      if Nested(c) {
        PushClearsSlot(old(mem), c, faultVa, err, oesp);
      }
      esp := tmp;
      eip := upcall;
      return Resumed;
    }

    /** The instructions of _pgfault_upcall after the handler returns, one statement each;
        arithmetic instructions leave the flags undefined. First the return address goes under
        the trap-time stack. */
    method PlantReturn(ghost c: Ctx)
      requires |mem| == WORD && CtxOk(c) && esp + FRAME_SIZE <= WORD && FrameIs(mem, esp, c) && SlotClear(esp, c)
      modifies this`eax, this`ebx, this`eflags, this`mem
      ensures mem == Unwound(old(mem), esp, c)
    {
      hide Read32, Write32;
      eax := Read32(mem, esp + 40);
      ebx := Read32(mem, esp + 48);
      ebx := ebx - 4;
      eflags := *;
      mem := Write32(mem, ebx, eax);
      mem := Write32(mem, esp + 48, ebx);
    }

    /** Then the registers come from the frame, and the return address last. */
    method UnwindUpcall(ghost c: Ctx)
      requires |mem| == WORD && CtxOk(c) && esp + FRAME_SIZE <= WORD && FrameIs(mem, esp, c) && SlotClear(esp, c)
      modifies this
      ensures State() == c
      ensures mem == Unwound(old(mem), old(esp), c)
    {
      hide Read32, Write32;
      ghost var f, m0 := esp, mem;
      PlantReturn(c);
      UnwoundReads(m0, f, c);
      hide Unwound, FrameIs;
      eax := Pop();
      eax := Pop();
      Popal();
      esp := esp + 4;
      eflags := *;
      eflags := Pop();
      esp := Read32(mem, esp);
      eip := Pop();
    }
  }

  // ---- nested faults ----

  /** What a handler running above frame `f` does until it returns: change memory below the
      live part of the exception stack, or anywhere outside it, and fault again. */
  datatype Body =
    | Done
    | Scribble(to: Mem, rest: Body)
    | Fault(c: Ctx, faultVa: nat, err: nat, oesp: nat, handler: Body, rest: Body)

  function RunBody(m: Mem, b: Body): (r: Mem)
    requires |m| == WORD && BodySized(b)
    ensures |r| == WORD
    decreases b
  {
    match b
    case Done => m
    case Scribble(to, rest) => RunBody(to, rest)
    case Fault(c, faultVa, err, oesp, handler, rest) =>
      RunBody(Unwound(RunBody(Push(m, c, faultVa, err, oesp), handler), FrameAt(c), c), rest)
  }

  predicate BodySized(b: Body)
  {
    match b
    case Done => true
    case Scribble(to, rest) => |to| == WORD && BodySized(rest)
    case Fault(c, _, _, _, handler, rest) => 4 <= c.esp <= WORD && BodySized(handler) && BodySized(rest)
  }

  /** A fault the kernel can take while the frame at `f` is live: the stack pointer is on the
      exception stack at or below it, and the new frame fits in the page. */
  predicate NestedFaultOk(f: nat, c: Ctx)
  {
    CtxOk(c) && Nested(c) && c.esp <= f && EXSTK <= FrameAt(c)
  }

  /** The handler respects the live part of the exception stack, from `f` up. */
  ghost predicate BodyOk(m: Mem, f: nat, b: Body)
    requires |m| == WORD && BodySized(b)
    decreases b
  {
    match b
    case Done => true
    case Scribble(to, rest) => (forall x :: f <= x < UXSTACKTOP ==> to[x] == m[x]) && BodyOk(to, f, rest)
    case Fault(c, faultVa, err, oesp, handler, rest) =>
      && NestedFaultOk(f, c) && faultVa < WORD && err < WORD && oesp < WORD
      && var m1 := Push(m, c, faultVa, err, oesp);
      && BodyOk(m1, FrameAt(c), handler)
      && BodyOk(Unwound(RunBody(m1, handler), FrameAt(c), c), f, rest)
  }

  /** The handler leaves everything from its own frame up as it was. */
  lemma {:induction false} BodyPreserves(m: Mem, f: nat, b: Body)
    requires |m| == WORD && BodySized(b) && BodyOk(m, f, b) && EXSTK <= f
    ensures forall x :: f <= x < UXSTACKTOP ==> RunBody(m, b)[x] == m[x]
    decreases b
  {
    hide Read32, Byte, Write32, WriteWords;
    match b
    case Done =>
    case Scribble(to, rest) => BodyPreserves(to, f, rest);
    case Fault(c, faultVa, err, oesp, handler, rest) =>
      var m1 := Push(m, c, faultVa, err, oesp);
      PushLeavesFrame(m, c, faultVa, err, oesp);
      BodyPreserves(m1, FrameAt(c), handler);
      var m3 := Unwound(RunBody(m1, handler), FrameAt(c), c);
      BodyPreserves(m3, f, rest);
  }

  /** At every nested return the frame being unwound is intact, so is what it says about the
      fault, the return address misses it and every frame still live, and the stack from the
      trap-time pointer up is as it was when the fault was taken. */
  ghost predicate EveryReturnRestores(m: Mem, f: nat, b: Body)
    requires |m| == WORD && BodySized(b)
    decreases b
  {
    match b
    case Done => true
    case Scribble(to, rest) => EveryReturnRestores(to, f, rest)
    case Fault(c, faultVa, err, oesp, handler, rest) =>
      var m1 := Push(m, c, faultVa, err, oesp);
      var m2 := RunBody(m1, handler);
      var m3 := Unwound(m2, FrameAt(c), c);
      && FrameIs(m2, FrameAt(c), c) && SlotClear(FrameAt(c), c) && c.esp <= f
      && Read32(m2, FrameAt(c)) == faultVa && Read32(m2, FrameAt(c) + 4) == err
      && (forall x :: c.esp <= x < UXSTACKTOP ==> m3[x] == m[x])
      && EveryReturnRestores(m1, FrameAt(c), handler)
      && EveryReturnRestores(m3, f, rest)
  }

  /** The round trip at any nesting depth. */
  lemma {:induction false} NestedRoundTrip(m: Mem, f: nat, b: Body)
    requires |m| == WORD && BodySized(b) && BodyOk(m, f, b) && EXSTK <= f
    ensures EveryReturnRestores(m, f, b)
    decreases b
  {
    hide Read32, Byte, Write32, WriteWords, FrameIs;
    match b
    case Done =>
    case Scribble(to, rest) => NestedRoundTrip(to, f, rest);
    case Fault(c, faultVa, err, oesp, handler, rest) =>
      var m1 := Push(m, c, faultVa, err, oesp);
      PushLeavesFrame(m, c, faultVa, err, oesp);
      BodyPreserves(m1, FrameAt(c), handler);
      FrameSurvives(m1, RunBody(m1, handler), FrameAt(c), c);
      ReadElsewhere(m1, RunBody(m1, handler), FrameAt(c));
      ReadElsewhere(m1, RunBody(m1, handler), FrameAt(c) + 4);
      NestedRoundTrip(m1, FrameAt(c), handler);
      NestedRoundTrip(Unwound(RunBody(m1, handler), FrameAt(c), c), f, rest);
  }

  /** A first fault, taken on the ordinary stack: neither the stack pointer nor the word below
      it touches the exception page. */
  predicate OffPage(c: Ctx)
  {
    CtxOk(c) && c.esp >= 4 && (c.esp < EXSTK || UXSTACKTOP <= c.esp - 4)
  }

  /** A first fault and everything nested in it: when its handler is done the upcall can unwind
      its frame, and the only bytes the push and the unwinding touch outside the exception page
      are those of the word under the trap-time stack. */
  lemma FirstFaultRoundTrip(m: Mem, c: Ctx, faultVa: nat, err: nat, oesp: nat, handler: Body)
    requires |m| == WORD && OffPage(c) && faultVa < WORD && err < WORD && oesp < WORD && BodySized(handler)
    requires BodyOk(Push(m, c, faultVa, err, oesp), FrameAt(c), handler)
    ensures var m1 := Push(m, c, faultVa, err, oesp);
      var m2 := RunBody(m1, handler);
      var f := FrameAt(c);
      && FrameIs(m2, f, c) && SlotClear(f, c) && EveryReturnRestores(m1, f, handler)
      && Read32(m2, f) == faultVa && Read32(m2, f + 4) == err
      && (forall x :: 0 <= x < EXSTK || UXSTACKTOP <= x < WORD ==> m1[x] == m[x])
      && (forall x :: (0 <= x < EXSTK || UXSTACKTOP <= x < WORD) && !(c.esp - 4 <= x < c.esp) ==>
            Unwound(m2, f, c)[x] == m2[x])
  {
    hide Read32, Byte, WriteWords, FrameIs;
    var m1 := Push(m, c, faultVa, err, oesp);
    PushLeavesFrame(m, c, faultVa, err, oesp);
    BodyPreserves(m1, FrameAt(c), handler);
    FrameSurvives(m1, RunBody(m1, handler), FrameAt(c), c);
    ReadElsewhere(m1, RunBody(m1, handler), FrameAt(c));
    ReadElsewhere(m1, RunBody(m1, handler), FrameAt(c) + 4);
    NestedRoundTrip(m1, FrameAt(c), handler);
  }

  /** The two stores of the unwinding disturb no other word of the frame. */
  lemma UnwoundReads(m: Mem, f: nat, c: Ctx)
    requires |m| == WORD && CtxOk(c) && f + FRAME_SIZE <= WORD && FrameIs(m, f, c) && SlotClear(f, c)
    ensures var r := Unwound(m, f, c);
      && Read32(r, f + 8) == c.regs.edi && Read32(r, f + 12) == c.regs.esi && Read32(r, f + 16) == c.regs.ebp
      && Read32(r, f + 24) == c.regs.ebx && Read32(r, f + 28) == c.regs.edx && Read32(r, f + 32) == c.regs.ecx
      && Read32(r, f + 36) == c.regs.eax && Read32(r, f + 44) == c.eflags
      && Read32(r, f + 48) == c.esp - 4 && Read32(r, c.esp - 4) == c.eip
  {
    hide Read32, Byte;
    var m1 := Write32(m, c.esp - 4, c.eip);
    var r := Unwound(m, f, c);
    FrameSurvives(m, m1, f, c);
    ReadBack(m, c.esp - 4, c.eip);
    ReadBack(m1, f + 48, c.esp - 4);
    ReadElsewhere(m1, r, c.esp - 4);
    ReadElsewhere(m1, r, f + 8);
    ReadElsewhere(m1, r, f + 12);
    ReadElsewhere(m1, r, f + 16);
    ReadElsewhere(m1, r, f + 24);
    ReadElsewhere(m1, r, f + 28);
    ReadElsewhere(m1, r, f + 32);
    ReadElsewhere(m1, r, f + 36);
    ReadElsewhere(m1, r, f + 44);
  }
}
