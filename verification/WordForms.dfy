/** The macros and assignments of the source that work on 32-bit words with shifts, masks and ors:
    inc/mmu.h's address fields and kern/env.c's environment ids. What they do to the numbers the
    words stand for is what Mmu and EnvIds say. */
module WordForms {
  import opened Common
  import opened Words
  import opened Mmu
  import opened EnvIds

  // ---- addresses ----

  function PdxBits(la: bv32): bv32 { (la >> 22) & 0x3FF }
  function PtxBits(la: bv32): bv32 { (la >> 12) & 0x3FF }
  function PgoffBits(la: bv32): bv32 { la & 0xFFF }
  function PgaddrBits(d: bv32, t: bv32, o: bv32): bv32 { (d << 22) | (t << 12) | o }

  /** The shift-and-mask macros are mutually inverse too. */
  lemma PgaddrBitsOfFields(la: bv32)
    ensures PgaddrBits(PdxBits(la), PtxBits(la), PgoffBits(la)) == la
  {
  }

  lemma FieldsOfPgaddrBits(d: bv32, t: bv32, o: bv32)
    requires d & 0x3FF == d && t & 0x3FF == t && o & 0xFFF == o
    ensures PdxBits(PgaddrBits(d, t, o)) == d
    ensures PtxBits(PgaddrBits(d, t, o)) == t
    ensures PgoffBits(PgaddrBits(d, t, o)) == o
  {
  }

  lemma FieldMasks(la: bv32)
    ensures PdxBits(la) == And(la >> 22, 0x3FF) && PtxBits(la) == And(la >> 12, 0x3FF)
    ensures PgoffBits(la) == And(la, 0xFFF)
    ensures Mask(10) == 0x3FF && Mask(12) == 0xFFF
  {
  }

  /** On the number a word stands for, the macros are the divisions and remainders used elsewhere. */
  lemma WordFields(la: bv32)
    ensures Num(la) < WORD
    ensures Num(PdxBits(la)) == PDX(Num(la))
    ensures Num(PtxBits(la)) == PTX(Num(la))
    ensures Num(PgoffBits(la)) == PGOFF(Num(la))
  {
    hide Num, And, Shr, PdxBits, PtxBits, PgoffBits, Mask;
    NumBound(la);
    FieldMasks(la);
    Powers();
    ShrBy12(la);
    ShrBy22(la);
    ShrIsDiv(la, 12);
    ShrIsDiv(la, 22);
    MaskIsMod(la >> 22, 10);
    MaskIsMod(la >> 12, 10);
    MaskIsMod(la, 12);
  }

  lemma WordAddress(d: bv32, t: bv32, o: bv32)
    requires d & 0x3FF == d && t & 0x3FF == t && o & 0xFFF == o
    ensures Num(PgaddrBits(d, t, o)) == PGADDR(Num(d), Num(t), Num(o))
  {
    var la := PgaddrBits(d, t, o);
    FieldsOfPgaddrBits(d, t, o);
    hide PgaddrBits, PdxBits, PtxBits, PgoffBits, Num;
    WordFields(la);
    PgaddrOfFields(Num(la));
  }

  // ---- permission bits ----

  lemma {:induction false} FlagOf(x: bv32, k: nat)
    ensures Has(Num(x), Pow2(k)) <==> Bit(Shr(x, k)) == 1
  {
    hide Num, Shr;
    ShrIsDiv(x, k);
    Half(Shr(x, k));
  }

  lemma FlagBits(x: bv32)
    ensures Bit(x) == 1 <==> x & 0x001 != 0
    ensures Bit(x >> 1) == 1 <==> x & 0x002 != 0
    ensures Bit(x >> 2) == 1 <==> x & 0x004 != 0
    ensures Bit(x >> 11) == 1 <==> x & 0x800 != 0
  {
  }

  lemma SmallShifts(x: bv32)
    ensures Shr(x, 0) == x && Shr(x, 1) == x >> 1 && Shr(x, 2) == x >> 2 && Shr(x, 3) == x >> 3 && Shr(x, 11) == x >> 11
  {
    ShrBy10(x);
    ShrSum(x, 10, 1);
  }

  /** The flag tests of pmap.c and fork.c are tests of the bits of the word. */
  lemma WordFlags(x: bv32)
    ensures Has(Num(x), PTE_P) <==> x & 0x001 != 0
    ensures Has(Num(x), PTE_W) <==> x & 0x002 != 0
    ensures Has(Num(x), PTE_U) <==> x & 0x004 != 0
    ensures Has(Num(x), PTE_COW) <==> x & 0x800 != 0
  {
    hide Num, Shr, Bit, Has;
    assert Pow2(0) == 1 && Pow2(1) == 2 && Pow2(2) == 4 && Pow2(11) == 0x800 by {
      Powers();
    }
    FlagOf(x, 0);
    FlagOf(x, 1);
    FlagOf(x, 2);
    FlagOf(x, 11);
    SmallShifts(x);
    FlagBits(x);
  }

  lemma OutsideBits(x: bv32)
    ensures x & 0xFFFF_F1F8 == 0 <==> x >> 12 == 0 && And(x >> 3, 0x3F) == 0
  {
  }

  /** The permissions the page calls take: those with no bit set outside PTE_SYSCALL, 0xE07. */
  lemma SyscallBits(x: bv32)
    ensures OnlySyscallBits(Num(x)) <==> x & 0xFFFF_F1F8 == 0
    ensures 0xFFFF_F1F8 ^ 0xFFFF_FFFF == 0xE07 as bv32
  {
    hide Num, Shr, And;
    assert Mask(6) == 0x3F && Pow2(3) == 8 && Pow2(6) == 64;
    OutsideBits(x);
    SmallShifts(x);
    ShrBy12(x);
    Powers();
    ShrIsDiv(x, 12);
    ShrIsDiv(x, 3);
    MaskIsMod(Shr(x, 3), 6);
    NumIsZero(x >> 12);
    NumIsZero(And(x >> 3, 0x3F));
  }

  // ---- environment ids ----

  function Or(x: bv32, y: bv32): bv32 { x | y }

  function GenerationOf(x: bv32): bv32 { And(Add(x, 0x1000), 0xFFFF_FC00) }

  predicate Negative(x: bv32) { x >> 31 == 1 }

  /** The new id as the source computes it in words, from the old id and the index `i`. */
  function NextIdBits(x: bv32, i: bv32): bv32
  {
    var generation := GenerationOf(x);
    Or(if generation == 0 || Negative(generation) then 0x1000 else generation, i)
  }

  lemma Parts10(x: bv32)
    ensures Num(Shr(x, 10)) == Num(x) / 1024 && Num(And(x, 0x3FF)) == Num(x) % 1024
  {
    assert Mask(10) == 0x3FF;
    hide Num, And, Shr, Mask;
    Powers();
    ShrIsDiv(x, 10);
    MaskIsMod(x, 10);
  }

  lemma MaskGenerationBits(x: bv32)
    ensures Shr(And(x, 0xFFFF_FC00), 10) == Shr(x, 10) && And(And(x, 0xFFFF_FC00), 0x3FF) == 0
  {
    ShrBy10(x);
    ShrBy10(And(x, 0xFFFF_FC00));
  }

  lemma Multiple(g: bv32, x: bv32)
    requires Shr(g, 10) == Shr(x, 10) && And(g, 0x3FF) == 0
    ensures Num(g) == Num(x) - ENVX(Num(x)) && Num(g) % NENV == 0
  {
    hide Num, And, Shr;
    Parts10(x);
    Parts10(g);
    NumIsZero(And(g, 0x3FF));
  }

  lemma MaskGeneration(x: bv32)
    ensures Num(And(x, 0xFFFF_FC00)) == Num(x) - ENVX(Num(x))
  {
    hide Num, And, Shr;
    MaskGenerationBits(x);
    Multiple(And(x, 0xFFFF_FC00), x);
  }

  lemma OrIndexBits(g: bv32, i: bv32)
    requires And(g, 0x3FF) == 0 && And(i, 0x3FF) == i
    ensures Shr(Or(g, i), 10) == Shr(g, 10) && And(Or(g, i), 0x3FF) == i
  {
    ShrBy10(g);
    ShrBy10(g | i);
  }

  lemma Joined(o: bv32, g: bv32, i: bv32)
    requires Shr(o, 10) == Shr(g, 10) && And(o, 0x3FF) == i && And(g, 0x3FF) == 0
    ensures Num(o) == Num(g) + Num(i) && Num(i) < NENV
  {
    hide Num, And, Shr;
    Parts10(o);
    Parts10(g);
    NumIsZero(And(g, 0x3FF));
  }

  lemma OrIndex(g: bv32, i: bv32)
    requires And(g, 0x3FF) == 0 && And(i, 0x3FF) == i
    ensures Num(Or(g, i)) == Num(g) + Num(i) && Num(i) < NENV
  {
    hide Num, And, Shr, Or;
    OrIndexBits(g, i);
    Joined(Or(g, i), g, i);
  }

  lemma CarryBits(x: bv32)
    ensures Shr(x + 0x1000, 12) == And(Add(Shr(x, 12), 1), 0xF_FFFF)
    ensures And(x + 0x1000, 0xFFF) == And(x, 0xFFF) && Shr(x, 12) != 0xFFFF_FFFF
  {
    ShrBy12(x);
    ShrBy12(x + 0x1000);
  }

  lemma Sum(x: bv32)
    ensures Add(x, 0x1000) == x + 0x1000
  {
  }

  lemma AddGenerationBits(x: bv32)
    ensures Shr(Add(x, 0x1000), 12) == And(Add(Shr(x, 12), 1), 0xF_FFFF)
    ensures And(Add(x, 0x1000), 0xFFF) == And(x, 0xFFF) && Shr(x, 12) != 0xFFFF_FFFF
  {
    hide Shr, Add, And;
    CarryBits(x);
    Sum(x);
  }

  lemma Parts12(x: bv32)
    ensures Num(Shr(x, 12)) == Num(x) / 4096 && Num(And(x, 0xFFF)) == Num(x) % 4096
  {
    assert Mask(12) == 0xFFF;
    hide Num, And, Shr, Mask;
    Powers();
    ShrIsDiv(x, 12);
    MaskIsMod(x, 12);
  }

  lemma Low20(x: bv32)
    ensures Num(And(x, 0xF_FFFF)) == Num(x) % 0x10_0000
  {
    Mask20();
    hide Num, And, Mask;
    Powers();
    MaskIsMod(x, 20);
  }

  lemma Mask20()
    ensures Mask(20) == 0xF_FFFF
  {
    assert Mask(10) == 0x3FF;
    assert Mask(15) == 0x7FFF;
  }

  lemma Advanced(x: bv32, y: bv32)
    requires Shr(y, 12) == And(Add(Shr(x, 12), 1), 0xF_FFFF) && And(y, 0xFFF) == And(x, 0xFFF)
    requires Shr(x, 12) != 0xFFFF_FFFF
    ensures Num(y) == (Num(x) + GENERATION) % 0x1_0000_0000
  {
    hide Num, And, Shr, Add;
    Increment(Shr(x, 12));
    Low20(Add(Shr(x, 12), 1));
    Parts12(x);
    Parts12(y);
    NumBound(x);
  }

  lemma AddGeneration(x: bv32)
    ensures Num(Add(x, 0x1000)) == (Num(x) + GENERATION) % 0x1_0000_0000
  {
    hide Num, And, Shr, Add;
    AddGenerationBits(x);
    Advanced(x, Add(x, 0x1000));
  }

  lemma SignShift(x: bv32)
    ensures Num(Shr(x, 31)) == (if Shr(x, 31) == 1 then 1 else 0)
  {
    ShrBy31(x);
    ZeroAndOne();
    TopBit(x);
    hide Num, Shr;
  }

  lemma TopBit(x: bv32)
    ensures x >> 31 == 0 || x >> 31 == 1
  {
  }

  lemma ZeroAndOne()
    ensures Num(0) == 0 && Num(1) == 1
  {
  }

  /** The halves of the words: those whose sign bit is clear stand for numbers below 2^31. */
  lemma SignHalf(n: nat)
    requires n < 0x1_0000_0000
    ensures ToInt32(n) <= 0 <==> n == 0 || n / 0x8000_0000 == 1
    ensures n / 0x8000_0000 < 2
  {
  }

  lemma Sign(x: bv32)
    ensures ToInt32(Num(x)) <= 0 <==> x == 0 || Shr(x, 31) == 1
  {
    hide Num, Shr, ToInt32;
    Powers();
    ShrIsDiv(x, 31);
    SignShift(x);
    NumBound(x);
    NumIsZero(x);
    SignHalf(Num(x));
  }

  lemma FirstGeneration()
    ensures Num(0x1000) == GENERATION
  {
    assert Add(0, 0x1000) == 0x1000;
    AddGeneration(0);
  }

  lemma SameWord(x: int, k: int)
    ensures ToInt32(x + 0x1_0000_0000 * k) == ToInt32(x)
  {
  }

  lemma Wrapped(n: nat)
    ensures ToInt32(ToInt32(n) + GENERATION) == ToInt32((n + GENERATION) % 0x1_0000_0000)
  {
    var k, q := (ToInt32(n) - n) / 0x1_0000_0000, (n + GENERATION) / 0x1_0000_0000;
    assert ToInt32(n) == n + 0x1_0000_0000 * k;
    hide ToInt32;
    SameWord(n + GENERATION, k);
    SameWord((n + GENERATION) % 0x1_0000_0000, q);
  }

  lemma WrappedIndex(m: nat)
    requires m < 0x1_0000_0000
    ensures ENVX(ToInt32(m)) == ENVX(m) && ToInt32(m) - ENVX(m) == ToInt32(m - ENVX(m))
  {
  }

  lemma Signed(n: nat, g: nat, i: nat)
    requires n < 0x1_0000_0000 && g < 0x1_0000_0000 && i < NENV
    requires var m := (n + GENERATION) % 0x1_0000_0000; g == m - ENVX(m)
    ensures NextId(ToInt32(n), i) == (if ToInt32(g) <= 0 then GENERATION else g) + i
    ensures 0 < NextId(ToInt32(n), i) < 0x8000_0000
  {
    var m := (n + GENERATION) % 0x1_0000_0000;
    assert g % NENV == 0;
    assert ToInt32(g) > 0 ==> ToInt32(g) == g;
    hide ToInt32, ENVX;
    Wrapped(n);
    WrappedIndex(m);
  }

  lemma Fits(v: int)
    requires 0 < v < 0x8000_0000
    ensures ToInt32(v) == v
  {
  }

  /** One allocation on the numbers of its words: the old id, its generation and the new id. */
  lemma NextIdNumbers(x: bv32, g: bv32, i: bv32, r: bv32)
    requires var m := (Num(x) + GENERATION) % 0x1_0000_0000; Num(g) == m - ENVX(m)
    requires Num(i) < NENV && Num(r) == (if g == 0 || Shr(g, 31) == 1 then GENERATION else Num(g)) + Num(i)
    ensures ToInt32(Num(r)) == NextId(ToInt32(Num(x)), Num(i))
  {
    hide Num, Shr, NextId, ToInt32;
    NumBound(x);
    NumBound(g);
    Sign(g);
    Signed(Num(x), Num(g), Num(i));
    Fits(Num(r));
  }

  lemma GenerationBits(x: bv32)
    ensures And(GenerationOf(x), 0x3FF) == 0 && And(0x1000, 0x3FF) == 0
  {
  }

  lemma GenerationNumber(x: bv32)
    ensures var m := (Num(x) + GENERATION) % 0x1_0000_0000; Num(GenerationOf(x)) == m - ENVX(m)
  {
    hide Num, And, Add;
    AddGeneration(x);
    MaskGeneration(Add(x, 0x1000));
  }

  lemma SignBit(x: bv32)
    ensures Negative(x) <==> Shr(x, 31) == 1
  {
    ShrBy31(x);
  }

  /** Adding, masking and or-ing words computes exactly NextId of the numbers they stand for. */
  lemma NextIdWords(x: bv32, i: bv32)
    requires And(i, 0x3FF) == i
    ensures ToInt32(Num(NextIdBits(x, i))) == NextId(ToInt32(Num(x)), Num(i))
  {
    var g := GenerationOf(x);
    hide Num, Shr, And, Or, GenerationOf, Negative, NextId, ToInt32, ENVX;
    GenerationNumber(x);
    GenerationBits(x);
    SignBit(g);
    FirstGeneration();
    OrIndex(if g == 0 || Negative(g) then 0x1000 else g, i);
    NextIdNumbers(x, g, i, NextIdBits(x, i));
  }
}
