/** Numbers as the machine's 32-bit words: what the shifts, masks and additions of the source do
    to the number a word stands for. */
module Words {
  /** The number a word stands for. */
  function Num(x: bv32): (n: nat)
    decreases x
  {
    if x == 0 then 0 else 2 * Num(x >> 1) + Bit(x)
  }

  function Bit(x: bv32): (b: nat) { if x & 1 == 1 then 1 else 0 }

  function Pow2(k: nat): (p: nat)
    ensures p > 0
  {
    if k == 0 then 1 else 2 * Pow2(k - 1)
  }

  lemma Powers()
    ensures Pow2(10) == 1024 && Pow2(12) == 4096 && Pow2(20) == 0x10_0000 && Pow2(22) == 0x40_0000
    ensures Pow2(31) == 0x8000_0000 && Pow2(32) == 0x1_0000_0000
  {
    assert Pow2(15) == 0x8000;
    assert Pow2(25) == 0x200_0000;
  }

  lemma Half(x: bv32)
    ensures Num(Shr1(x)) == Num(x) / 2 && Num(x) % 2 == Bit(x)
  {
  }

  function Shr1(x: bv32): bv32 { x >> 1 }

  function Shr(x: bv32, k: nat): bv32
    decreases k
  {
    if k == 0 then x else Shr(Shr1(x), k - 1)
  }

  /** A shift to the right divides. */
  lemma {:induction false} ShrIsDiv(x: bv32, k: nat)
    ensures Num(Shr(x, k)) == Num(x) / Pow2(k)
    decreases k
  {
    if k > 0 {
      Half(x);
      hide Num, Shr1;
      ShrIsDiv(Shr1(x), k - 1);
      DivStep(Num(x), Pow2(k - 1));
    }
  }

  lemma DivStep(n: nat, p: nat)
    requires p > 0
    ensures n / (2 * p) == n / 2 / p
  {
    ModStep(n, p);
    Cancel(2 * p, n / (2 * p), n / 2 / p, n);
  }

  lemma ShrBy12(x: bv32)
    ensures Shr(x, 12) == x >> 12
  {
  }

  lemma {:induction false} ShrSum(x: bv32, j: nat, k: nat)
    ensures Shr(x, j + k) == Shr(Shr(x, j), k)
    decreases j
  {
    if j > 0 {
      ShrSum(Shr1(x), j - 1, k);
    }
  }

  lemma ShrBy10(x: bv32)
    ensures Shr(x, 10) == x >> 10
  {
  }

  lemma ShrBy9(x: bv32)
    ensures Shr(x, 9) == x >> 9
  {
  }

  lemma Shifts(x: bv32)
    ensures (x >> 12) >> 10 == x >> 22 && (x >> 22) >> 9 == x >> 31 && (x >> 22) >> 10 == 0
  {
  }

  lemma ShrBy22(x: bv32)
    ensures Shr(x, 22) == x >> 22
  {
    hide Shr;
    ShrSum(x, 12, 10);
    ShrBy12(x);
    ShrBy10(x >> 12);
    Shifts(x);
  }

  /** The sign bit. */
  lemma ShrBy31(x: bv32)
    ensures Shr(x, 31) == x >> 31
  {
    hide Shr;
    ShrSum(x, 22, 9);
    ShrBy22(x);
    ShrBy9(x >> 22);
    Shifts(x);
  }

  lemma NumIsZero(x: bv32)
    ensures Num(x) == 0 <==> x == 0
    decreases x
  {
    if x != 0 && x & 1 != 1 {
      assert x >> 1 != 0;
      NumIsZero(x >> 1);
    }
  }

  /** Every word stands for a number below 2^32. */
  lemma NumBound(x: bv32)
    ensures Num(x) < 0x1_0000_0000
  {
    hide Num, Shr;
    ShrSum(x, 22, 10);
    ShrBy22(x);
    ShrBy10(x >> 22);
    Shifts(x);
    ShrIsDiv(x, 32);
    Powers();
    NumIsZero(Shr(x, 32));
  }

  /** A word with its low `k` bits set. */
  function Mask(k: nat): (m: bv32)
  {
    if k == 0 then 0 else (Mask(k - 1) << 1) | 1
  }

  function And(x: bv32, m: bv32): bv32 { x & m }

  lemma AndStep(x: bv32, m: bv32)
    ensures Shr1(And(x, (m << 1) | 1)) == And(Shr1(x), m)
    ensures Bit(And(x, (m << 1) | 1)) == Bit(x)
  {
  }

  lemma MaskStep(x: bv32, k: nat)
    requires k > 0
    ensures Shr1(And(x, Mask(k))) == And(Shr1(x), Mask(k - 1))
    ensures Bit(And(x, Mask(k))) == Bit(x)
  {
    hide Num, Shr1, And, Bit;
    AndStep(x, Mask(k - 1));
  }

  /** A mask takes the remainder. */
  lemma {:induction false} MaskIsMod(x: bv32, k: nat)
    ensures Num(And(x, Mask(k))) == Num(x) % Pow2(k)
    decreases k
  {
    if k == 0 {
      assert And(x, Mask(0)) == 0;
    } else {
      hide Num, Shr1, And, Bit, Mask;
      MaskStep(x, k);
      MaskIsMod(Shr1(x), k - 1);
      Half(x);
      Half(And(x, Mask(k)));
      ModStep(Num(x), Pow2(k - 1));
    }
  }

  lemma ModStep(n: nat, p: nat)
    requires p > 0
    ensures n % (2 * p) == 2 * (n / 2 % p) + n % 2
  {
    var q, r := n / 2 / p, n / 2 % p;
    assert n == 2 * (p * q) + (2 * r + n % 2);
    var e := n / (2 * p) - q;
    assert (2 * p) * e == (2 * r + n % 2) - n % (2 * p) by {
      assert n == (2 * p) * (n / (2 * p)) + n % (2 * p);
      assert (2 * p) * (n / (2 * p)) == (2 * p) * e + 2 * (p * q);
    }
    Small(2 * p, e);
  }

  lemma Cancel(d: nat, a: int, b: int, n: nat)
    requires d > 0 && n == d * a + n % d && d * b <= n < d * b + d
    ensures a == b
  {
    assert d * (a - b) == d * a - d * b;
    Small(d, a - b);
  }

  lemma Small(d: int, e: int)
    requires -d < d * e < d
    ensures e == 0
  {
    if e > 0 {
      Multiple(d, e);
    } else if e < 0 {
      Multiple(d, -e);
    }
  }

  lemma Multiple(d: int, e: int)
    requires d >= 0 && e >= 1
    ensures d * e >= d
  {
  }

  function Add(x: bv32, y: bv32): bv32 { x + y }

  predicate Odd(x: bv32) { x & 1 == 1 }

  lemma OddIncrement(x: bv32)
    requires x != 0xFFFF_FFFF && Odd(x)
    ensures Shr1(Add(x, 1)) == Add(Shr1(x), 1) && Shr1(x) != 0xFFFF_FFFF && Shr1(x) < x
    ensures Bit(Add(x, 1)) == 0 && Bit(x) == 1
  {
  }

  lemma EvenIncrement(x: bv32)
    requires !Odd(x)
    ensures Shr1(Add(x, 1)) == Shr1(x)
    ensures Bit(Add(x, 1)) == 1 && Bit(x) == 0
  {
  }

  lemma {:induction false} Increment(x: bv32)
    requires x != 0xFFFF_FFFF
    ensures Num(Add(x, 1)) == Num(x) + 1
    decreases x
  {
    hide Num, Shr1, Bit, Add, Odd;
    Half(x);
    Half(Add(x, 1));
    if Odd(x) {
      OddIncrement(x);
      Increment(Shr1(x));
    } else {
      EvenIncrement(x);
    }
  }
}
