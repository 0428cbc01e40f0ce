/** Linear addresses and page-table words of the 32-bit x86 MMU (TP2-sched/inc/mmu.h,
    TP2-sched/inc/memlayout.h). Words are naturals below 2^32; a right shift of an unsigned
    word is a floor division and a low mask is a remainder; the bit-level macros appear
    beside their arithmetic forms at the end. */
module Mmu {
  const PGSIZE: nat := 4096
  const NPTENTRIES: nat := 1024
  const PTSIZE: nat := 0x40_0000
  const UTOP: nat := 0xeec0_0000
  const UXSTACKTOP: nat := UTOP
  const USTACKTOP: nat := UTOP - 2 * PGSIZE
  const UVPT: nat := 0xef40_0000
  const UVPT_PDX: nat := 957
  const UTEMP: nat := PTSIZE
  const PFTEMP: nat := UTEMP + PTSIZE - PGSIZE
  const WORD: nat := 0x1_0000_0000

  // Page directory entries below UTOP, the only ones whose pages are reference counted.
  const NUSERPDE: nat := 955

  const PTE_P: nat := 0x001
  const PTE_W: nat := 0x002
  const PTE_U: nat := 0x004
  const PTE_PWT: nat := 0x008
  const PTE_PCD: nat := 0x010
  const PTE_COW: nat := 0x800

  function PDX(la: nat): (d: nat)
    ensures d < 1024
  {
    la / 0x40_0000 % 1024
  }

  function PTX(la: nat): (t: nat)
    ensures t < NPTENTRIES
  {
    la / 4096 % 1024
  }

  function PGOFF(la: nat): (o: nat)
    ensures o < PGSIZE
  {
    la % 4096
  }

  function PGADDR(d: nat, t: nat, o: nat): nat
  {
    d * 0x40_0000 + t * 4096 + o
  }

  /** Is the single-bit flag `bit` set in `w`? */
  predicate Has(w: nat, bit: nat)
    requires bit > 0
  {
    w / bit % 2 == 1
  }

  /** `w | PTE_P`. */
  function OrPresent(w: nat): (r: nat)
    ensures Has(r, PTE_P)
    ensures w < PGSIZE ==> r < PGSIZE
    ensures r / 2 == w / 2
  {
    if w % 2 == 1 then w else w + 1
  }

  /** `w | PTE_U`. */
  function OrUser(w: nat): (r: nat)
    ensures r / 4 % 2 == 1 && r % 2 == w % 2 && r / 2 % 2 == w / 2 % 2 && r / 8 == w / 8
    ensures w < PGSIZE ==> r < PGSIZE
    ensures w / 4 % 2 == 1 ==> r == w
  {
    if w / 4 % 2 == 1 then w
    else
      SetBitTwo(w);
      w + 4
  }

  lemma SetBitTwo(w: nat)
    requires w / 4 % 2 != 1
    ensures (w + 4) / 4 % 2 == 1 && (w + 4) % 2 == w % 2 && (w + 4) / 2 % 2 == w / 2 % 2
    ensures (w + 4) / 8 == w / 8
    ensures w < PGSIZE ==> w + 4 < PGSIZE
  {
    var high, low := w / 4 / 2, w % 4;
    assert w == 8 * high + low;
    Digits(high, 0, low);
    Digits(high, 1, low);
  }

  lemma Digits(high: nat, bit: nat, low: nat)
    requires bit < 2 && low < 4
    ensures var w := 8 * high + 4 * bit + low;
      w / 4 % 2 == bit && w % 2 == low % 2 && w / 2 % 2 == low / 2
  {
    ByFour(2 * high + bit, low);
    ByTwo(high, bit);
    ByTwo(4 * high + 2 * bit + low / 2, low % 2);
    ByTwo(2 * high + bit, low / 2);
  }

  lemma ByTwo(q: nat, r: nat)
    requires r < 2
    ensures (2 * q + r) / 2 == q && (2 * q + r) % 2 == r
  {
  }

  lemma ByFour(q: nat, r: nat)
    requires r < 4
    ensures (4 * q + r) / 4 == q
  {
  }

  lemma Quarter(x: nat)
    ensures x / 4 == x / 2 / 2
  {
  }

  /** `w | PTE_U | PTE_P`. */
  function OrUserPresent(w: nat): (r: nat)
    ensures Has(r, PTE_P) && Has(r, PTE_U)
    ensures w < PGSIZE ==> r < PGSIZE
    ensures Has(r, PTE_W) <==> Has(w, PTE_W)
    ensures r / 8 == w / 8
    ensures Has(w, PTE_P) && Has(w, PTE_U) ==> r == w
  {
    Quarter(OrUser(w));
    Quarter(OrPresent(OrUser(w)));
    OrPresent(OrUser(w))
  }

  /** No bits outside PTE_SYSCALL (AVAIL, P, W and U). */
  predicate OnlySyscallBits(perm: nat)
  {
    perm < PGSIZE && perm / 8 % 64 == 0
  }

  /** `page2pa(page) | flags` for flags in the low twelve bits. */
  function Word(page: nat, flags: nat): (w: nat)
  {
    page * PGSIZE + flags
  }

  function PteAddr(w: nat): nat { w / 4096 }
  function PteFlags(w: nat): nat { w % 4096 }

  lemma WordParts(page: nat, flags: nat)
    requires flags < PGSIZE
    ensures PteAddr(Word(page, flags)) == page
    ensures PteFlags(Word(page, flags)) == flags
    ensures Has(flags, PTE_P) ==> Word(page, flags) != 0
    ensures Word(page, flags) % 2 == flags % 2
  {
    assert (page * 4096 + flags) / 4096 == page;
  }

  /** The PDE pgdir_walk writes: present, user, and naming its page table. */
  lemma PdeParts(table: nat)
    ensures var w := Word(table, PTE_P + PTE_W + PTE_U);
      w != 0 && PteAddr(w) == table && Has(w, PTE_P) && Has(w, PTE_U)
  {
    var w := Word(table, PTE_P + PTE_W + PTE_U);
    assert w == 4096 * table + 7;
    assert w == 2 * (2048 * table + 3) + 1;
    assert w == 4 * (2 * (512 * table) + 1) + 3;
    assert w / 4 == 2 * (512 * table) + 1;
  }

  /** The three fields of an address and PGADDR are mutually inverse. */
  lemma PgaddrInverse(d: nat, t: nat, o: nat)
    requires d < 1024 && t < 1024 && o < PGSIZE
    ensures PGADDR(d, t, o) < WORD
    ensures PDX(PGADDR(d, t, o)) == d
    ensures PTX(PGADDR(d, t, o)) == t
    ensures PGOFF(PGADDR(d, t, o)) == o
  {
    var la := PGADDR(d, t, o);
    assert la / 4096 == d * 1024 + t;
    assert la / 0x40_0000 == d;
  }

  lemma PgaddrOfFields(la: nat)
    requires la < WORD
    ensures PGADDR(PDX(la), PTX(la), PGOFF(la)) == la
  {
    assert la / 0x40_0000 < 1024;
    assert la / 0x40_0000 == la / 4096 / 1024;
  }

  /** An address lies below UTOP exactly when its directory index is one of the user ones. */
  lemma UserPdx(la: nat)
    requires la < WORD
    ensures la < UTOP <==> PDX(la) < NUSERPDE
  {
  }
}
