/** Copy-on-write fork (TP2-sched/lib/fork.c) against eager copying. The lazy machine is the
    page tables and physical pages the system calls act on, how far each environment is in its
    page-fault handler, and which duplications are between their two system calls; the eager
    machine gives every environment private pages. Steps of any environments may interleave in
    any order, also between those of a handler or a duplication. */
module Cow {
  import opened Common
  import opened Mmu
  import opened Vm

  type Page = seq<nat>

  /** An environment inside pgfault() for the page at `key`: how many words of the page its
      memmove has copied, and whether the copy is mapped at the faulting address yet. */
  datatype Handler = Handler(key: PteKey, copied: nat, mapped: bool)

  /** `handlers` has the directories of the environments that are inside their handler. `pending`
      has the entries that a duppage has made for a child but not yet for its parent, with the
      directory of the parent, or None if the parent is gone. */
  datatype Sys = Sys(
    maps: map<PteKey, Pte>,
    mem: seq<Page>,
    handlers: map<nat, Handler>,
    pending: map<PteKey, Option<nat>>)

  type Eager = map<PteKey, Page>

  function Put(page: Page, off: nat, val: nat): Page
    requires off < |page|
  {
    page[off := val]
  }

  function PftempKey(dir: nat): PteKey { PteKey(dir, PDX(PFTEMP), PTX(PFTEMP)) }
  function XstackKey(dir: nat): PteKey { PteKey(dir, PDX(UXSTACKTOP - PGSIZE), PTX(UXSTACKTOP - PGSIZE)) }

  /** Addresses whose contents programs may rely on across page faults: everything below UTOP
      but the fault handler's scratch page and the exception stack it runs on. */
  predicate Visible(k: PteKey)
  {
    k != PftempKey(k.dir) && k != XstackKey(k.dir)
  }

  /** What each environment sees at each of its addresses. An entry whose duplication is not done
      belongs to a child that does not run yet; nobody sees it. */
  ghost function View(s: Sys): Eager
    requires InMemory(s)
  {
    map k | k in s.maps && Visible(k) && k !in s.pending :: s.mem[s.maps[k].page]
  }

  ghost predicate InMemory(s: Sys)
  {
    && (forall k :: k in s.maps ==> s.maps[k].page < |s.mem|)
    && (forall p :: 0 <= p < |s.mem| ==> |s.mem[p]| == NPTENTRIES)
  }

  /** A page reachable through a writable PTE has exactly one mapping. */
  ghost predicate Exclusive(maps: map<PteKey, Pte>)
  {
    forall k, l :: k in maps && l in maps && k != l && maps[k].page == maps[l].page ==> !Has(maps[k].perm, PTE_W)
  }

  /** Pages are shared only between equal addresses of different environments. */
  ghost predicate SharedAcross(maps: map<PteKey, Pte>)
  {
    forall k, l :: k in maps && l in maps && maps[k].page == maps[l].page ==> k.pdx == l.pdx && k.ptx == l.ptx
  }

  /** The mappings without the scratch mappings of the handlers under way and without those whose
      duplication is not done. */
  ghost function Settled(s: Sys): map<PteKey, Pte>
  {
    map k | k in s.maps && !(k.dir in s.handlers && k == PftempKey(k.dir)) && k !in s.pending :: s.maps[k]
  }

  ghost predicate InHandler(s: Sys, dir: nat, key: PteKey)
  {
    key.dir == dir && key in s.maps && PftempKey(dir) in s.maps
    && key != PftempKey(dir) && key != XstackKey(dir)
    && Has(s.maps[PftempKey(dir)].perm, PTE_W)
  }

  /** Nothing but the handler's own addresses names the new page; what has been copied so far
      is what the page at the faulting address still holds. */
  ghost predicate HandlerOk(s: Sys, dir: nat, h: Handler)
    requires InMemory(s)
  {
    && InHandler(s, dir, h.key) && h.copied <= NPTENTRIES
    && var got := s.maps[PftempKey(dir)].page;
    && (forall l :: l in s.maps && l != PftempKey(dir) && s.maps[l].page == got ==> h.mapped && l == h.key)
    && (h.mapped ==> s.maps[h.key] == Pte(got, PTE_P + PTE_U + PTE_W))
    && (forall i :: 0 <= i < h.copied ==> s.mem[got][i] == s.mem[s.maps[h.key].page][i])
  }

  ghost predicate HandlersOk(s: Sys)
    requires InMemory(s)
  {
    forall dir :: dir in s.handlers ==> HandlerOk(s, dir, s.handlers[dir])
  }

  /** The parent's address for the child's entry `c`. */
  function ParentOf(c: PteKey, dir: nat): PteKey { PteKey(dir, c.pdx, c.ptx) }

  /** Not an address that a handler is working on. */
  predicate Clear(s: Sys, l: PteKey)
  {
    l.dir in s.handlers ==> l != s.handlers[l.dir].key && l != PftempKey(l.dir)
  }

  /** Between the two calls the child's entry is read-only, and has the page the parent still has,
      with the permissions the parent's entry is about to get. */
  ghost predicate PendingAt(s: Sys, c: PteKey)
    requires c in s.pending
  {
    && c in s.maps && !Has(s.maps[c].perm, PTE_W) && Clear(s, c)
    && (s.pending[c].Some? ==>
          var k := ParentOf(c, s.pending[c].value);
          && k.dir != c.dir && k in s.maps && k !in s.pending && Clear(s, k)
          && Writable(s.maps[k].perm) && s.maps[c] == Pte(s.maps[k].page, DupPerm(s.maps[k].perm)))
  }

  ghost predicate PendingOk(s: Sys)
  {
    forall c :: c in s.pending ==> PendingAt(s, c)
  }

  ghost predicate CowInv(s: Sys)
  {
    InMemory(s) && Exclusive(Settled(s)) && SharedAcross(Settled(s)) && HandlersOk(s) && PendingOk(s)
  }

  /** An address that a duplication under way is about: the child's or the parent's. */
  ghost predicate InWindow(s: Sys, l: PteKey)
  {
    l in s.pending || exists c :: c in s.pending && s.pending[c].Some? && l == ParentOf(c, s.pending[c].value)
  }

  /** A step of one environment on address `l` does not get into another's handler or duplication. */
  ghost predicate Untouched(s: Sys, l: PteKey)
  {
    Clear(s, l) && !InWindow(s, l)
  }

  ghost predicate Unmapped(s: Sys, p: nat)
  {
    forall k :: k in s.maps ==> s.maps[k].page != p
  }

  /** Addresses that keep their page keep its contents, except possibly the pages in `but`. */
  ghost predicate SameData(s: Sys, s': Sys, but: set<nat>)
  {
    && |s'.mem| == |s.mem|
    && (forall p :: 0 <= p < |s'.mem| ==> |s'.mem[p]| == NPTENTRIES)
    && (forall k :: k in s.maps && k in s'.maps && s.maps[k].page == s'.maps[k].page
                    && s.maps[k].page !in but && s.maps[k].page < |s.mem| ==>
          s'.mem[s.maps[k].page] == s.mem[s.maps[k].page])
  }

  datatype Step =
    | Store(k: PteKey, off: nat, val: nat)   // a user store that the MMU lets through
    | FaultAlloc(k: PteKey)                  // pgfault() begins, for a write to a mapped page
    | FaultCopy(dir: nat)                    // one word of its memmove
    | FaultMap(dir: nat)                     // the copy is mapped at the faulting address
    | FaultUnmap(dir: nat)                   // PFTEMP is unmapped and the handler returns
    | DupFirst(k: PteKey, child: nat)        // duppage() of a writable page: the call for `child`
    | DupLast(k: PteKey, child: nat)         // and the call for the parent's own entry
    | DupOnly(k: PteKey, child: nat)         // the one call for a read-only page
    | Alloc(k: PteKey, perm: nat)            // sys_page_alloc on one's own or a child's page
    | Drop(k: PteKey)                       // sys_page_unmap
    | Exit(dir: nat)                         // env_free

  function ChildKey(k: PteKey, child: nat): PteKey { PteKey(child, k.pdx, k.ptx) }

  /** The permissions duppage computes: the cache-control bits survive, and a page that was
      writable or already copy-on-write becomes copy-on-write. */
  function DupPerm(pte: nat): (perm: nat)
    ensures perm < PGSIZE && Has(perm, PTE_P) && Has(perm, PTE_U) && !Has(perm, PTE_W)
    ensures Has(perm, PTE_COW) <==> Has(pte, PTE_W) || Has(pte, PTE_COW)
    ensures Has(perm, PTE_PCD) <==> Has(pte, PTE_PCD) || Has(pte, PTE_PWT)
  {
    DupBits();
    PTE_U + PTE_P
      + (if Has(pte, PTE_PCD) || Has(pte, PTE_PWT) then PTE_PCD + PTE_PWT else 0)
      + (if Has(pte, PTE_W) || Has(pte, PTE_COW) then PTE_COW else 0)
  }

  /** The bits of the four permissions duppage can give. */
  lemma DupBits()
    ensures forall perm :: perm in {5, 5 + 0x18, 5 + 0x800, 5 + 0x18 + 0x800} ==>
      perm < PGSIZE && Has(perm, PTE_P) && Has(perm, PTE_U) && !Has(perm, PTE_W)
    ensures !Has(5, PTE_COW) && !Has(5 + 0x18, PTE_COW) && Has(5 + 0x800, PTE_COW) && Has(5 + 0x18 + 0x800, PTE_COW)
    ensures !Has(5, PTE_PWT) && !Has(5 + 0x800, PTE_PWT)
    ensures !Has(5, PTE_PCD) && Has(5 + 0x18, PTE_PCD) && !Has(5 + 0x800, PTE_PCD) && Has(5 + 0x18 + 0x800, PTE_PCD)
  {
  }

  predicate Writable(pte: nat) { Has(pte, PTE_W) || Has(pte, PTE_COW) }

  /** The guard before the panic in pgfault is `(err & FEC_WR) & !(pte & PTE_COW)`, a bitwise
      and of 0-or-2 with 0-or-1; `cow` says whether the PTE has the copy-on-write bit. */
  function PgfaultGuard(err: bv32, cow: bool): bv32
  {
    (err & 2) & (if cow then 0 else 1)
  }

  /** It is zero for every error code and entry, so a write fault on a page that is not
      copy-on-write does not panic: it gets a private writable copy like any other. */
  lemma PgfaultNeverPanics(err: bv32, cow: bool)
    ensures PgfaultGuard(err, cow) == 0
  {
    assert (err & 2) & 1 == 0;
  }

  /** One step of the lazy machine, as the page tables and pages see it. An environment inside
      its handler runs nothing else, so until the handler returns it stores to no page but its
      exception stack; and nobody else remaps the two addresses the handler is working on, or
      the two of a duplication between its calls. The parent's stores may fall in between. */
  ghost predicate LazyStep(s: Sys, s': Sys, step: Step)
  {
    match step
    case Store(k, off, val) =>
      && k in s.maps && Has(s.maps[k].perm, PTE_W) && off < NPTENTRIES
      && (k.dir in s.handlers ==> k == XstackKey(k.dir))
      && s'.maps == s.maps && s'.handlers == s.handlers && s'.pending == s.pending
      && SameData(s, s', {s.maps[k].page})
      && s.maps[k].page < |s.mem| && |s.mem[s.maps[k].page]| == NPTENTRIES
      && s'.mem[s.maps[k].page] == Put(s.mem[s.maps[k].page], off, val)
    case FaultAlloc(k) =>
      exists got: nat :: FaultAllocStep(s, s', k, got)
    case FaultCopy(dir) => FaultCopyStep(s, s', dir)
    case FaultMap(dir) => FaultMapStep(s, s', dir)
    case FaultUnmap(dir) =>
      && dir in s.handlers && s.handlers[dir].mapped
      && s'.maps == s.maps - {PftempKey(dir)} && s'.handlers == s.handlers - {dir} && s'.pending == s.pending
      && SameData(s, s', {})
    case DupFirst(k, child) => DupFirstStep(s, s', k, child)
    case DupLast(k, child) => DupLastStep(s, s', k, child)
    case DupOnly(k, child) => DupOnlyStep(s, s', k, child)
    case Alloc(k, perm) =>
      exists got: nat :: AllocStep(s, s', k, perm, got)
    case Drop(k) =>
      && Untouched(s, k)
      && s'.maps == s.maps - {k} && s'.handlers == s.handlers && s'.pending == s.pending
      && SameData(s, s', {})
    case Exit(dir) =>
      && s'.maps == (map k | k in s.maps && k.dir != dir :: s.maps[k]) && s'.handlers == s.handlers - {dir}
      && s'.pending == PendingWithout(s.pending, dir)
      && SameData(s, s', {})
  }

  /** The duplications into `dir` are gone, those from it are left undone. */
  function PendingWithout(pending: map<PteKey, Option<nat>>, dir: nat): map<PteKey, Option<nat>>
  {
    map c | c in pending && c.dir != dir :: if pending[c] == Some(dir) then None else pending[c]
  }

  /** sys_page_map from the parent's page to the child's. */
  ghost predicate DupFirstStep(s: Sys, s': Sys, k: PteKey, child: nat)
  {
    && k in s.maps && child != k.dir && k != XstackKey(k.dir) && Writable(s.maps[k].perm)
    && k.dir !in s.handlers && Untouched(s, ChildKey(k, child)) && Untouched(s, k)
    && s'.maps == s.maps[ChildKey(k, child) := Pte(s.maps[k].page, DupPerm(s.maps[k].perm))]
    && s'.handlers == s.handlers && s'.pending == s.pending[ChildKey(k, child) := Some(k.dir)]
    && SameData(s, s', {})
  }

  /** sys_page_map of the parent's page onto itself. */
  ghost predicate DupLastStep(s: Sys, s': Sys, k: PteKey, child: nat)
  {
    && ChildKey(k, child) in s.pending && s.pending[ChildKey(k, child)] == Some(k.dir) && k in s.maps
    && s'.maps == s.maps[k := Pte(s.maps[k].page, DupPerm(s.maps[k].perm))]
    && s'.handlers == s.handlers && s'.pending == s.pending - {ChildKey(k, child)}
    && SameData(s, s', {})
  }

  ghost predicate DupOnlyStep(s: Sys, s': Sys, k: PteKey, child: nat)
  {
    && k in s.maps && child != k.dir && k != XstackKey(k.dir) && !Writable(s.maps[k].perm)
    && k.dir !in s.handlers && k !in s.pending && Untouched(s, ChildKey(k, child))
    && s'.maps == s.maps[ChildKey(k, child) := Pte(s.maps[k].page, DupPerm(s.maps[k].perm))]
    && s'.handlers == s.handlers && s'.pending == s.pending
    && SameData(s, s', {})
  }

  /** pgfault begins: a fresh page is mapped at PFTEMP with P, U and W. */
  ghost predicate FaultAllocStep(s: Sys, s': Sys, k: PteKey, got: nat)
  {
    && k in s.maps && k != PftempKey(k.dir) && k != XstackKey(k.dir) && k.dir !in s.handlers
    && !InWindow(s, k) && !InWindow(s, PftempKey(k.dir))
    && Unmapped(s, got) && got < |s.mem|
    && s'.maps == s.maps[PftempKey(k.dir) := Pte(got, PTE_P + PTE_U + PTE_W)]
    && s'.handlers == s.handlers[k.dir := Handler(k, 0, false)] && s'.pending == s.pending
    && SameData(s, s', {got})
  }

  /** The next word goes from the faulting page to the page at PFTEMP. */
  ghost predicate FaultCopyStep(s: Sys, s': Sys, dir: nat)
  {
    && dir in s.handlers && InHandler(s, dir, s.handlers[dir].key)
    && var h := s.handlers[dir];
    && var got, from := s.maps[PftempKey(dir)].page, s.maps[h.key].page;
    && h.copied < NPTENTRIES && !h.mapped
    && s'.maps == s.maps && s'.handlers == s.handlers[dir := h.(copied := h.copied + 1)] && s'.pending == s.pending
    && SameData(s, s', {got})
    && got < |s.mem| && from < |s.mem| && |s.mem[got]| == |s.mem[from]| == NPTENTRIES
    && s'.mem[got] == Put(s.mem[got], h.copied, s.mem[from][h.copied])
  }

  /** After the last word the new page is mapped at the faulting address too. */
  ghost predicate FaultMapStep(s: Sys, s': Sys, dir: nat)
  {
    && dir in s.handlers && PftempKey(dir) in s.maps
    && var h := s.handlers[dir];
    && h.copied == NPTENTRIES && !h.mapped
    && s'.maps == s.maps[h.key := Pte(s.maps[PftempKey(dir)].page, PTE_P + PTE_U + PTE_W)]
    && s'.handlers == s.handlers[dir := h.(mapped := true)] && s'.pending == s.pending
    && SameData(s, s', {})
  }

  function DupMaps(maps: map<PteKey, Pte>, k: PteKey, child: nat): map<PteKey, Pte>
    requires k in maps
  {
    var e := Pte(maps[k].page, DupPerm(maps[k].perm));
    if Writable(maps[k].perm) then maps[ChildKey(k, child) := e][k := e] else maps[ChildKey(k, child) := e]
  }

  ghost predicate AllocStep(s: Sys, s': Sys, k: PteKey, perm: nat, got: nat)
  {
    && Unmapped(s, got) && got < |s.mem| && Untouched(s, k)
    && s'.maps == s.maps[k := Pte(got, perm)] && s'.handlers == s.handlers && s'.pending == s.pending
    && SameData(s, s', {got})
    && s'.mem[got] == seq(NPTENTRIES, i => 0)
  }

  /** The eager machine: stores are private, faults are invisible, duplication copies, at the
      moment the parent's page becomes read-only. */
  ghost function EagerStep(e: Eager, step: Step): Eager
  {
    match step
    case Store(k, off, val) =>
      if k in e && off < |e[k]| then e[k := Put(e[k], off, val)] else e
    case FaultAlloc(_) => e
    case FaultCopy(_) => e
    case FaultMap(_) => e
    case FaultUnmap(_) => e
    case DupFirst(k, child) => e - {ChildKey(k, child)}
    case DupLast(k, child) => if k in e then e[ChildKey(k, child) := e[k]] else e
    case DupOnly(k, child) => if k in e then e[ChildKey(k, child) := e[k]] else e
    case Alloc(k, perm) => if Visible(k) then e[k := seq(NPTENTRIES, i => 0)] else e
    case Drop(k) => e - {k}
    case Exit(dir) => map k | k in e && k.dir != dir :: e[k]
  }

  // ---- sharing under single updates ----

  lemma SharingFresh(maps: map<PteKey, Pte>, k: PteKey, e: Pte)
    requires Exclusive(maps) && SharedAcross(maps)
    requires forall l :: l in maps ==> maps[l].page != e.page
    ensures Exclusive(maps[k := e]) && SharedAcross(maps[k := e])
  {
    hide Has;
  }

  lemma SharingSubset(maps: map<PteKey, Pte>, fewer: map<PteKey, Pte>)
    requires Exclusive(maps) && SharedAcross(maps)
    requires forall l :: l in fewer ==> l in maps && fewer[l] == maps[l]
    ensures Exclusive(fewer) && SharedAcross(fewer)
  {
    hide Has;
  }

  lemma SharingDup(maps: map<PteKey, Pte>, k: PteKey, child: nat)
    requires Exclusive(maps) && SharedAcross(maps) && k in maps && child != k.dir
    ensures Exclusive(DupMaps(maps, k, child)) && SharedAcross(DupMaps(maps, k, child))
  {
    var c := ChildKey(k, child);
    var dup := DupMaps(maps, k, child);
    hide Has, DupPerm;
    forall a, b | a in dup && b in dup && dup[a].page == dup[b].page
      ensures a.pdx == b.pdx && a.ptx == b.ptx
      ensures a != b ==> !Has(dup[a].perm, PTE_W)
    {
      var a' := if a == c then k else a;
      var b' := if b == c then k else b;
      assert maps[a'].page == maps[b'].page;
    }
  }

  // ---- handlers under other environments' steps ----

  /** A handler does not notice a step that leaves its two addresses and their pages alone and
      maps its new page nowhere else. */
  lemma HandlerKept(s: Sys, s': Sys, dir: nat, h: Handler)
    requires InMemory(s) && InMemory(s') && HandlerOk(s, dir, h)
    requires PftempKey(dir) in s'.maps && s'.maps[PftempKey(dir)] == s.maps[PftempKey(dir)]
    requires h.key in s'.maps && s'.maps[h.key] == s.maps[h.key]
    requires s.maps[PftempKey(dir)].page < |s'.mem| && s.maps[h.key].page < |s'.mem|
    requires s'.mem[s.maps[PftempKey(dir)].page] == s.mem[s.maps[PftempKey(dir)].page]
    requires s'.mem[s.maps[h.key].page] == s.mem[s.maps[h.key].page]
    requires forall l :: l in s'.maps && l != PftempKey(dir) && s'.maps[l].page == s.maps[PftempKey(dir)].page ==>
      l in s.maps && s.maps[l].page == s'.maps[l].page
    ensures HandlerOk(s', dir, h)
  {
    hide Has;
  }

  lemma HandlerAt(s: Sys, dir: nat)
    requires CowInv(s) && dir in s.handlers
    ensures HandlerOk(s, dir, s.handlers[dir])
    ensures s.maps[PftempKey(dir)].page < |s.mem| && s.maps[s.handlers[dir].key].page < |s.mem|
  {
    hide Exclusive, SharedAcross, Has;
  }

  /** Nobody but the handler names its new page. */
  lemma NewPageIsOwn(s: Sys, dir: nat, l: PteKey)
    requires CowInv(s) && dir in s.handlers && l in s.maps
    requires s.maps[l].page == s.maps[PftempKey(dir)].page
    ensures l == PftempKey(dir) || (s.handlers[dir].mapped && l == s.handlers[dir].key)
    ensures l.dir == dir
  {
    hide Exclusive, SharedAcross, Has;
    HandlerAt(s, dir);
  }

  lemma HandlersKept(s: Sys, s': Sys)
    requires CowInv(s) && InMemory(s') && s'.handlers.Keys <= s.handlers.Keys
    requires forall dir :: dir in s'.handlers ==> s'.handlers[dir] == s.handlers[dir]
    requires forall dir :: dir in s'.handlers ==>
      && PftempKey(dir) in s.maps && PftempKey(dir) in s'.maps && s'.maps[PftempKey(dir)] == s.maps[PftempKey(dir)]
      && s.handlers[dir].key in s.maps && s.handlers[dir].key in s'.maps
      && s'.maps[s.handlers[dir].key] == s.maps[s.handlers[dir].key]
    requires SameData(s, s', {})
    requires forall dir, l :: (dir in s'.handlers && l in s'.maps && l != PftempKey(dir)
                               && PftempKey(dir) in s.maps && s'.maps[l].page == s.maps[PftempKey(dir)].page) ==>
      l in s.maps && s.maps[l].page == s'.maps[l].page
    ensures HandlersOk(s')
  {
    hide Exclusive, SharedAcross, Has, HandlerOk, Settled;
    forall dir | dir in s'.handlers ensures HandlerOk(s', dir, s'.handlers[dir]) {
      HandlerAt(s, dir);
      HandlerKept(s, s', dir, s.handlers[dir]);
    }
  }

  // ---- duplications under way under other environments' steps ----

  /** A duplication does not notice a step that leaves its two entries alone and keeps handlers
      away from them. */
  lemma PendingKept(s: Sys, s': Sys)
    requires PendingOk(s) && s'.pending == s.pending
    requires forall c :: c in s.pending ==> c in s'.maps && c in s.maps && s'.maps[c] == s.maps[c] && Clear(s', c)
    requires forall c :: c in s.pending && s.pending[c].Some? ==>
      var k := ParentOf(c, s.pending[c].value);
      k in s'.maps && k in s.maps && s'.maps[k] == s.maps[k] && Clear(s', k)
    ensures PendingOk(s')
  {
    hide Has, DupPerm, Writable;
    forall c | c in s'.pending ensures PendingAt(s', c) {
      assert PendingAt(s, c);
    }
  }

  /** Steps that change entries of untouched addresses only and no handler. */
  lemma PendingUntouched(s: Sys, s': Sys, l: PteKey)
    requires PendingOk(s) && s'.pending == s.pending && s'.handlers == s.handlers && !InWindow(s, l)
    requires forall m :: m in s.maps && m != l ==> m in s'.maps && s'.maps[m] == s.maps[m]
    ensures PendingOk(s')
  {
    hide Has, DupPerm, Writable;
    forall c | c in s.pending ensures c != l && PendingAt(s, c)
      && (s.pending[c].Some? ==> ParentOf(c, s.pending[c].value) != l) {
    }
    PendingKept(s, s');
  }

  lemma HandlerNotPending(s: Sys, dir: nat)
    requires CowInv(s) && dir in s.handlers
    ensures s.handlers[dir].key !in s.pending && PftempKey(dir) !in s.pending
  {
    hide Exclusive, SharedAcross, Has, DupPerm, Writable;
    HandlerAt(s, dir);
    forall c | c in s.pending ensures c != s.handlers[dir].key && c != PftempKey(dir) {
      assert PendingAt(s, c);
    }
  }

  lemma WritableNotPending(s: Sys, k: PteKey)
    requires CowInv(s) && k in s.maps && Has(s.maps[k].perm, PTE_W)
    ensures k !in s.pending
  {
    hide Exclusive, SharedAcross, Has, DupPerm, Writable, HandlersOk;
    forall c | c in s.pending ensures c != k {
      assert PendingAt(s, c);
    }
  }

  // ---- one step refines one step ----

  /** A page that can be stored to is no page of a handler under way. */
  lemma StoreMisses(s: Sys, k: PteKey, dir: nat)
    requires CowInv(s) && dir in s.handlers && k in s.maps && Has(s.maps[k].perm, PTE_W)
    requires k.dir in s.handlers ==> k == XstackKey(k.dir)
    ensures s.maps[k].page != s.maps[PftempKey(dir)].page
    ensures s.maps[k].page != s.maps[s.handlers[dir].key].page
  {
    hide SharedAcross, Has, PendingOk;
    WritableNotPending(s, k);
    HandlerNotPending(s, dir);
    HandlerAt(s, dir);
    var h := s.handlers[dir];
    assert k != h.key && k != PftempKey(dir);
    if s.maps[k].page == s.maps[PftempKey(dir)].page {
      NewPageIsOwn(s, dir, k);
    }
    assert k in Settled(s) && h.key in Settled(s);
  }

  lemma StoreKeepsInv(s: Sys, s': Sys, k: PteKey, off: nat, val: nat)
    requires CowInv(s) && LazyStep(s, s', Store(k, off, val))
    ensures CowInv(s')
  {
    hide Exclusive, SharedAcross, Has, HandlerOk;
    assert Settled(s') == Settled(s);
    PendingKeptAll(s, s');
    hide PendingOk;
    forall dir | dir in s'.handlers ensures HandlerOk(s', dir, s'.handlers[dir]) {
      HandlerAt(s, dir);
      StoreMisses(s, k, dir);
      InHandlerAt(s, dir);
      HandlerKept(s, s', dir, s.handlers[dir]);
    }
  }

  /** Steps that change no entry and put no handler on other addresses. */
  lemma PendingKeptAll(s: Sys, s': Sys)
    requires PendingOk(s) && s'.pending == s.pending && s'.maps == s.maps
    requires s'.handlers.Keys <= s.handlers.Keys
    requires forall dir :: dir in s'.handlers ==> s'.handlers[dir].key == s.handlers[dir].key
    ensures PendingOk(s')
  {
    hide Has, DupPerm, Writable;
    forall c | c in s.pending ensures PendingAt(s, c) {
    }
    PendingKept(s, s');
  }

  lemma InHandlerAt(s: Sys, dir: nat)
    requires CowInv(s) && dir in s.handlers
    ensures InHandler(s, dir, s.handlers[dir].key)
  {
    hide Exclusive, SharedAcross;
    HandlerAt(s, dir);
  }

  lemma StoreRefines(s: Sys, s': Sys, k: PteKey, off: nat, val: nat)
    requires CowInv(s) && LazyStep(s, s', Store(k, off, val))
    ensures CowInv(s') && View(s') == EagerStep(View(s), Store(k, off, val))
  {
    hide SharedAcross, HandlersOk, PendingOk;
    WritableNotPending(s, k);
    StoreKeepsInv(s, s', k, off, val);
    forall l | l in s.maps && Visible(l) && l !in s.pending && l != k ensures s.maps[l].page != s.maps[k].page {
      NotScratch(s, k);
      assert l in Settled(s) && k in Settled(s);
    }
    hide Exclusive, Has, CowInv;
  }

  lemma NotScratch(s: Sys, k: PteKey)
    requires k.dir in s.handlers ==> k == XstackKey(k.dir)
    ensures k.dir in s.handlers ==> k != PftempKey(k.dir)
  {
  }

  lemma FaultAllocKeepsInv(s: Sys, s': Sys, k: PteKey, got: nat)
    requires CowInv(s) && FaultAllocStep(s, s', k, got)
    ensures CowInv(s')
  {
    hide Exclusive, SharedAcross, Has, HandlerOk, PendingOk, Settled, InWindow, InMemory;
    FaultAllocSettled(s, s', k, got);
    SharingSubset(Settled(s), Settled(s'));
    FaultAllocPending(s, s', k, got);
    forall dir | dir in s'.handlers ensures HandlerOk(s', dir, s'.handlers[dir]) {
      if dir == k.dir {
        NewHandlerOk(s, s', k, got);
      } else {
        FaultAllocHandler(s, s', k, got, dir);
      }
    }
  }

  lemma FaultAllocSettled(s: Sys, s': Sys, k: PteKey, got: nat)
    requires InMemory(s) && FaultAllocStep(s, s', k, got)
    ensures InMemory(s') && forall l :: l in Settled(s') ==> l in Settled(s) && Settled(s')[l] == Settled(s)[l]
  {
    hide Has, InWindow;
  }

  lemma FaultAllocHandler(s: Sys, s': Sys, k: PteKey, got: nat, dir: nat)
    requires CowInv(s) && InMemory(s') && FaultAllocStep(s, s', k, got) && dir in s.handlers && dir != k.dir
    ensures HandlerOk(s', dir, s'.handlers[dir])
  {
    hide Exclusive, SharedAcross, Has, HandlerOk, HandlersOk, PendingOk, Settled, InWindow;
    HandlerAt(s, dir);
    InHandlerAt(s, dir);
    HandlerKept(s, s', dir, s.handlers[dir]);
  }

  lemma FaultAllocPending(s: Sys, s': Sys, k: PteKey, got: nat)
    requires PendingOk(s) && FaultAllocStep(s, s', k, got)
    ensures PendingOk(s')
  {
    hide Has, DupPerm, Writable, SameData;
    forall c | c in s.pending ensures PendingAt(s, c) && Clear(s', c) && c != PftempKey(k.dir)
      && (s.pending[c].Some? ==>
            Clear(s', ParentOf(c, s.pending[c].value)) && ParentOf(c, s.pending[c].value) != PftempKey(k.dir)) {
    }
    PendingKept(s, s');
  }

  lemma NewHandlerOk(s: Sys, s': Sys, k: PteKey, got: nat)
    requires InMemory(s) && InMemory(s') && FaultAllocStep(s, s', k, got)
    ensures HandlerOk(s', k.dir, s'.handlers[k.dir])
  {
  }

  lemma FaultAllocRefines(s: Sys, s': Sys, k: PteKey, got: nat)
    requires CowInv(s) && FaultAllocStep(s, s', k, got)
    ensures CowInv(s') && View(s') == View(s)
  {
    hide Exclusive, SharedAcross, HandlersOk, View, FaultAllocStep, Settled, InMemory, PendingOk;
    FaultAllocKeepsInv(s, s', k, got);
    FaultAllocView(s, s', k, got);
  }

  lemma FaultAllocView(s: Sys, s': Sys, k: PteKey, got: nat)
    requires InMemory(s) && InMemory(s') && FaultAllocStep(s, s', k, got)
    ensures View(s') == View(s)
  {
    ViewIs(s', View(s));
  }

  lemma FaultCopyKeepsInv(s: Sys, s': Sys, dir: nat)
    requires CowInv(s) && FaultCopyStep(s, s', dir)
    ensures CowInv(s')
  {
    hide Exclusive, SharedAcross, Has, HandlerOk;
    assert Settled(s') == Settled(s);
    PendingKeptAll(s, s');
    hide PendingOk;
    var got := s.maps[PftempKey(dir)].page;
    forall d | d in s'.handlers ensures HandlerOk(s', d, s'.handlers[d]) {
      HandlerAt(s, d);
      if d == dir {
        CopiedOneMore(s, s', dir);
      } else {
        InHandlerAt(s, d);
        OtherPages(s, dir, d);
        HandlerKept(s, s', d, s.handlers[d]);
      }
    }
  }

  /** The page one handler fills is neither of another's two pages. */
  lemma OtherPages(s: Sys, dir: nat, d: nat)
    requires CowInv(s) && dir in s.handlers && d in s.handlers && d != dir
    ensures InHandler(s, dir, s.handlers[dir].key) && InHandler(s, d, s.handlers[d].key)
    ensures s.maps[PftempKey(dir)].page != s.maps[PftempKey(d)].page
    ensures s.maps[PftempKey(dir)].page != s.maps[s.handlers[d].key].page
  {
    hide Exclusive, SharedAcross, Has, HandlerOk;
    InHandlerAt(s, dir);
    InHandlerAt(s, d);
    if s.maps[PftempKey(d)].page == s.maps[PftempKey(dir)].page {
      NewPageIsOwn(s, dir, PftempKey(d));
    }
    if s.maps[s.handlers[d].key].page == s.maps[PftempKey(dir)].page {
      NewPageIsOwn(s, dir, s.handlers[d].key);
    }
  }

  lemma CopiedOneMore(s: Sys, s': Sys, dir: nat)
    requires InMemory(s) && InMemory(s') && dir in s.handlers && HandlerOk(s, dir, s.handlers[dir])
    requires FaultCopyStep(s, s', dir)
    ensures HandlerOk(s', dir, s'.handlers[dir])
  {
    hide Has;
    var h := s.handlers[dir];
    var got, from := s.maps[PftempKey(dir)].page, s.maps[h.key].page;
    assert from != got;
    assert s'.mem[from] == s.mem[from];
  }

  lemma FaultCopyRefines(s: Sys, s': Sys, dir: nat)
    requires CowInv(s) && FaultCopyStep(s, s', dir)
    ensures CowInv(s') && View(s') == View(s)
  {
    hide Exclusive, SharedAcross, Has, HandlersOk, PendingOk;
    FaultCopyKeepsInv(s, s', dir);
    forall l | l in s.maps && Visible(l) ensures s.maps[l].page != s.maps[PftempKey(dir)].page {
      if s.maps[l].page == s.maps[PftempKey(dir)].page {
        NewPageIsOwn(s, dir, l);
      }
    }
    assert View(s').Keys == View(s).Keys;
  }

  lemma FaultMapKeepsInv(s: Sys, s': Sys, dir: nat)
    requires CowInv(s) && FaultMapStep(s, s', dir)
    ensures CowInv(s')
  {
    hide Exclusive, SharedAcross, Has, HandlerOk, PendingOk, Settled, HandlersOk;
    InHandlerAt(s, dir);
    FaultMapPending(s, s', dir);
    FaultMapSettled(s, s', dir);
    SharingFresh(Settled(s), s.handlers[dir].key, Pte(s.maps[PftempKey(dir)].page, PTE_P + PTE_U + PTE_W));
    FaultMapHandlers(s, s', dir);
  }

  lemma FaultMapInMemory(s: Sys, s': Sys, dir: nat)
    requires InMemory(s) && FaultMapStep(s, s', dir)
    ensures InMemory(s')
  {
    hide Has;
  }

  lemma FaultMapSettled(s: Sys, s': Sys, dir: nat)
    requires CowInv(s) && FaultMapStep(s, s', dir)
    ensures InMemory(s')
    ensures var e := Pte(s.maps[PftempKey(dir)].page, PTE_P + PTE_U + PTE_W);
      && Settled(s') == Settled(s)[s.handlers[dir].key := e]
      && forall l :: l in Settled(s) ==> Settled(s)[l].page != e.page
  {
    hide Exclusive, SharedAcross, Has, PendingOk, HandlersOk, SameData;
    FaultMapInMemory(s, s', dir);
    InHandlerAt(s, dir);
    HandlerNotPending(s, dir);
    var h, e := s.handlers[dir], Pte(s.maps[PftempKey(dir)].page, PTE_P + PTE_U + PTE_W);
    hide InMemory;
    forall l | l in Settled(s) ensures Settled(s)[l].page != e.page {
      if s.maps[l].page == e.page {
        NewPageIsOwn(s, dir, l);
      }
    }
  }

  lemma FaultMapHandlers(s: Sys, s': Sys, dir: nat)
    requires CowInv(s) && InMemory(s') && FaultMapStep(s, s', dir)
    ensures HandlersOk(s')
  {
    hide CowInv, FaultMapStep, HandlerOk, InMemory;
    forall d | d in s'.handlers ensures HandlerOk(s', d, s'.handlers[d]) {
      FaultMapHandler(s, s', dir, d);
    }
  }

  lemma FaultMapHandler(s: Sys, s': Sys, dir: nat, d: nat)
    requires CowInv(s) && InMemory(s') && FaultMapStep(s, s', dir) && d in s'.handlers
    ensures HandlerOk(s', d, s'.handlers[d])
  {
    hide Exclusive, SharedAcross, Has, HandlerOk, PendingOk, Settled, HandlersOk;
    HandlerAt(s, d);
    if d == dir {
      MappedOk(s, s', dir);
    } else {
      InHandlerAt(s, dir);
      InHandlerAt(s, d);
      OtherPages(s, d, dir);
      HandlerKept(s, s', d, s.handlers[d]);
    }
  }

  lemma FaultMapPending(s: Sys, s': Sys, dir: nat)
    requires PendingOk(s) && FaultMapStep(s, s', dir) && s.handlers[dir].key.dir == dir
    ensures PendingOk(s')
  {
    hide Has, DupPerm, Writable, SameData;
    forall c | c in s.pending ensures PendingAt(s, c) && c != s.handlers[dir].key
      && (s.pending[c].Some? ==> ParentOf(c, s.pending[c].value) != s.handlers[dir].key) {
      assert PendingAt(s, c);
    }
    PendingKept(s, s');
  }

  lemma MappedOk(s: Sys, s': Sys, dir: nat)
    requires InMemory(s) && InMemory(s') && dir in s.handlers && HandlerOk(s, dir, s.handlers[dir])
    requires FaultMapStep(s, s', dir)
    ensures HandlerOk(s', dir, s'.handlers[dir])
  {
    hide Has;
  }

  lemma FaultMapView(s: Sys, s': Sys, dir: nat)
    requires InMemory(s) && InMemory(s') && FaultMapStep(s, s', dir) && s.handlers[dir].key in s.maps
    requires s.mem[s.maps[PftempKey(dir)].page] == s.mem[s.maps[s.handlers[dir].key].page]
    requires s.handlers[dir].key != PftempKey(dir)
    ensures View(s') == View(s)
  {
    hide Visible;
    var got := s.maps[PftempKey(dir)].page;
    assert s'.maps[PftempKey(dir)].page == got && s'.mem[got] == s.mem[got];
    ViewIs(s', View(s));
  }

  /** By then the copy is complete, whatever happened since it began. */
  lemma FaultMapRefines(s: Sys, s': Sys, dir: nat)
    requires CowInv(s) && FaultMapStep(s, s', dir)
    ensures CowInv(s') && View(s') == View(s)
  {
    HandlerAt(s, dir);
    hide Exclusive, SharedAcross, HandlersOk, Settled, InMemory, View, SameData, Has, PendingOk;
    FaultMapKeepsInv(s, s', dir);
    CopyComplete(s, dir);
    FaultMapView(s, s', dir);
  }

  lemma CopyComplete(s: Sys, dir: nat)
    requires InMemory(s) && dir in s.handlers && HandlerOk(s, dir, s.handlers[dir])
    requires s.handlers[dir].copied == NPTENTRIES
    ensures s.mem[s.maps[PftempKey(dir)].page] == s.mem[s.maps[s.handlers[dir].key].page]
  {
    hide Has;
  }

  lemma FaultUnmapKeepsInv(s: Sys, s': Sys, dir: nat)
    requires CowInv(s) && LazyStep(s, s', FaultUnmap(dir))
    ensures CowInv(s')
  {
    hide Exclusive, SharedAcross, Has, HandlerOk, HandlersOk, PendingOk, Settled;
    HandlerNotPending(s, dir);
    InHandlerAt(s, dir);
    FaultUnmapPending(s, s', dir);
    FaultUnmapSettled(s, s', dir);
    forall d | d in s'.handlers
      ensures InHandler(s, d, s.handlers[d].key)
      ensures PftempKey(d) != PftempKey(dir) && s.handlers[d].key != PftempKey(dir) {
      InHandlerAt(s, d);
    }
    HandlersKept(s, s');
  }

  lemma FaultUnmapSettled(s: Sys, s': Sys, dir: nat)
    requires InMemory(s) && LazyStep(s, s', FaultUnmap(dir)) && PftempKey(dir) !in s.pending
    ensures InMemory(s') && Settled(s') == Settled(s)
  {
    hide Has;
  }

  lemma FaultUnmapPending(s: Sys, s': Sys, dir: nat)
    requires PendingOk(s) && LazyStep(s, s', FaultUnmap(dir))
    ensures PendingOk(s')
  {
    hide Has, DupPerm, Writable, SameData;
    forall c | c in s.pending ensures PendingAt(s, c) && c != PftempKey(dir)
      && (s.pending[c].Some? ==> ParentOf(c, s.pending[c].value) != PftempKey(dir)) {
      assert PendingAt(s, c);
    }
    PendingKept(s, s');
  }

  lemma FaultUnmapRefines(s: Sys, s': Sys, dir: nat)
    requires CowInv(s) && LazyStep(s, s', FaultUnmap(dir))
    ensures CowInv(s') && View(s') == View(s)
  {
    hide Exclusive, SharedAcross, Has, HandlersOk, Settled, PendingOk;
    FaultUnmapKeepsInv(s, s', dir);
    assert View(s').Keys == View(s).Keys;
  }

  /** The first call hides the child's entry; the sharing of the rest is as it was. */
  lemma DupFirstKeepsInv(s: Sys, s': Sys, k: PteKey, child: nat)
    requires CowInv(s) && DupFirstStep(s, s', k, child)
    ensures CowInv(s')
  {
    hide Exclusive, SharedAcross, HandlerOk, Has, DupPerm, Writable, PendingOk, Settled, InWindow, InMemory;
    DupFirstSettled(s, s', k, child);
    SharingSubset(Settled(s), Settled(s'));
    DupFirstPending(s, s', k, child);
    forall dir | dir in s'.handlers ensures HandlerOk(s', dir, s'.handlers[dir]) {
      NewEntryHandler(s, s', k, child, dir);
    }
  }

  lemma DupFirstSettled(s: Sys, s': Sys, k: PteKey, child: nat)
    requires InMemory(s) && DupFirstStep(s, s', k, child)
    ensures InMemory(s') && forall l :: l in Settled(s') ==> l in Settled(s) && Settled(s')[l] == Settled(s)[l]
  {
    hide Has, DupPerm, Writable, InWindow;
  }

  lemma DupFirstPending(s: Sys, s': Sys, k: PteKey, child: nat)
    requires PendingOk(s) && DupFirstStep(s, s', k, child)
    ensures PendingOk(s')
  {
    hide Has, SameData;
    var c := ChildKey(k, child);
    forall d | d in s'.pending ensures PendingAt(s', d) {
      if d == c {
        assert ParentOf(c, k.dir) == k;
        hide DupPerm;
      } else {
        assert PendingAt(s, d);
        if s.pending[d].Some? {
          assert ParentOf(d, s.pending[d].value) != c;
        }
        hide DupPerm, Writable;
      }
    }
  }

  /** An entry for a page of an environment outside its handler gets into nobody's handler. */
  lemma NewEntryHandler(s: Sys, s': Sys, k: PteKey, child: nat, dir: nat)
    requires CowInv(s) && InMemory(s') && k in s.maps && k.dir !in s.handlers && Clear(s, ChildKey(k, child))
    requires s'.maps == s.maps[ChildKey(k, child) := Pte(s.maps[k].page, DupPerm(s.maps[k].perm))]
    requires s'.handlers == s.handlers && SameData(s, s', {}) && dir in s.handlers
    ensures HandlerOk(s', dir, s'.handlers[dir])
  {
    hide Exclusive, SharedAcross, Has, DupPerm, HandlersOk, Settled, HandlerOk, PendingOk;
    HandlerAt(s, dir);
    InHandlerAt(s, dir);
    if s.maps[k].page == s.maps[PftempKey(dir)].page {
      NewPageIsOwn(s, dir, k);
    }
    HandlerKept(s, s', dir, s.handlers[dir]);
  }

  lemma DupFirstRefines(s: Sys, s': Sys, k: PteKey, child: nat)
    requires CowInv(s) && DupFirstStep(s, s', k, child)
    ensures CowInv(s') && View(s') == EagerStep(View(s), DupFirst(k, child))
  {
    hide Exclusive, SharedAcross, HandlersOk, Settled, PendingOk, DupFirstStep, View, EagerStep, InMemory;
    DupFirstKeepsInv(s, s', k, child);
    DupFirstView(s, s', k, child);
  }

  lemma DupFirstView(s: Sys, s': Sys, k: PteKey, child: nat)
    requires InMemory(s) && InMemory(s') && DupFirstStep(s, s', k, child)
    ensures View(s') == EagerStep(View(s), DupFirst(k, child))
  {
    hide Has, DupPerm, Writable, Visible, Untouched;
    ViewIs(s', EagerStep(View(s), DupFirst(k, child)));
  }

  /** The second call makes the parent's entry what a page shared by the two needs. */
  lemma DupLastSettled(s: Sys, s': Sys, k: PteKey, child: nat)
    requires PendingOk(s) && DupLastStep(s, s', k, child)
    ensures child != k.dir && k in Settled(s) && Settled(s') == DupMaps(Settled(s), k, child)
  {
    hide Has, SameData;
    var c := ChildKey(k, child);
    assert PendingAt(s, c) && ParentOf(c, k.dir) == k;
    hide DupPerm;
  }

  lemma DupLastKeepsInv(s: Sys, s': Sys, k: PteKey, child: nat)
    requires CowInv(s) && DupLastStep(s, s', k, child)
    ensures CowInv(s')
  {
    hide Exclusive, SharedAcross, HandlerOk, Has, DupPerm, Writable, DupMaps, PendingOk, Settled;
    DupLastSettled(s, s', k, child);
    SharingDup(Settled(s), k, child);
    DupLastPending(s, s', k, child);
    PendingClear(s, k, child);
    forall dir | dir in s'.handlers ensures HandlerOk(s', dir, s'.handlers[dir]) {
      DupLastHandler(s, s', k, child, dir);
    }
  }

  lemma PendingClear(s: Sys, k: PteKey, child: nat)
    requires PendingOk(s) && ChildKey(k, child) in s.pending && s.pending[ChildKey(k, child)] == Some(k.dir)
    ensures ParentOf(ChildKey(k, child), k.dir) == k && PendingAt(s, ChildKey(k, child))
    ensures Clear(s, k) && k !in s.pending && k in s.maps && child != k.dir && ChildKey(k, child) in s.maps
    ensures s.maps[ChildKey(k, child)].page == s.maps[k].page
  {
    hide Has, DupPerm, Writable;
  }

  lemma DupLastHandler(s: Sys, s': Sys, k: PteKey, child: nat, dir: nat)
    requires CowInv(s) && InMemory(s') && DupLastStep(s, s', k, child) && Clear(s, k) && dir in s.handlers
    ensures HandlerOk(s', dir, s'.handlers[dir])
  {
    hide Exclusive, SharedAcross, HandlerOk, HandlersOk, Has, DupPerm, PendingOk, Settled;
    HandlerAt(s, dir);
    InHandlerAt(s, dir);
    HandlerKept(s, s', dir, s.handlers[dir]);
  }

  lemma DupLastPending(s: Sys, s': Sys, k: PteKey, child: nat)
    requires PendingOk(s) && DupLastStep(s, s', k, child)
    ensures PendingOk(s')
  {
    hide Has, SameData;
    var c := ChildKey(k, child);
    assert PendingAt(s, c) && ParentOf(c, k.dir) == k;
    forall d | d in s'.pending ensures PendingAt(s', d) {
      assert PendingAt(s, d);
      DupPermTwice(s.maps[k].perm);
      hide DupPerm, Writable;
    }
  }

  /** Permissions that have been through duppage once come out the same again. */
  lemma DupPermTwice(perm: nat)
    ensures DupPerm(DupPerm(perm)) == DupPerm(perm)
    ensures Writable(perm) ==> Writable(DupPerm(perm))
  {
    DupBits();
  }

  lemma DupLastRefines(s: Sys, s': Sys, k: PteKey, child: nat)
    requires CowInv(s) && DupLastStep(s, s', k, child)
    ensures CowInv(s') && View(s') == EagerStep(View(s), DupLast(k, child))
  {
    hide Exclusive, SharedAcross, HandlersOk, Settled, DupLastStep, View, EagerStep, InMemory;
    DupLastKeepsInv(s, s', k, child);
    DupLastView(s, s', k, child);
  }

  lemma DupLastView(s: Sys, s': Sys, k: PteKey, child: nat)
    requires InMemory(s) && InMemory(s') && PendingOk(s) && DupLastStep(s, s', k, child)
    ensures View(s') == EagerStep(View(s), DupLast(k, child))
  {
    assert Visible(ChildKey(k, child)) <==> Visible(k);
    hide Has, DupPerm, Writable, Visible, PendingOk, PendingAt, Clear;
    PendingClear(s, k, child);
    var e := EagerStep(View(s), DupLast(k, child));
    assert forall l :: l in e <==> l in View(s) || (l == ChildKey(k, child) && k in View(s));
    ViewIs(s', EagerStep(View(s), DupLast(k, child)));
  }

  lemma DupOnlyKeepsInv(s: Sys, s': Sys, k: PteKey, child: nat)
    requires CowInv(s) && DupOnlyStep(s, s', k, child)
    ensures CowInv(s')
  {
    hide Exclusive, SharedAcross, HandlerOk, Has, DupPerm, Writable, DupMaps, PendingOk, Settled, InWindow, InMemory;
    DupOnlySettled(s, s', k, child);
    SharingDup(Settled(s), k, child);
    PendingUntouched(s, s', ChildKey(k, child));
    forall dir | dir in s'.handlers ensures HandlerOk(s', dir, s'.handlers[dir]) {
      NewEntryHandler(s, s', k, child, dir);
    }
  }

  lemma SettledNew(s: Sys, s': Sys, c: PteKey, e: Pte)
    requires s'.maps == s.maps[c := e] && s'.handlers == s.handlers && s'.pending == s.pending
    requires Clear(s, c) && c !in s.pending
    ensures Settled(s') == Settled(s)[c := e]
  {
  }

  lemma DupOnlySettled(s: Sys, s': Sys, k: PteKey, child: nat)
    requires InMemory(s) && DupOnlyStep(s, s', k, child)
    ensures InMemory(s') && k in Settled(s) && Settled(s') == DupMaps(Settled(s), k, child)
  {
    hide Has, DupPerm, Writable, Settled, SameData, InMemory;
    DupOnlyInMemory(s, s', k, child);
    InSettled(s, k);
    SettledNew(s, s', ChildKey(k, child), Pte(s.maps[k].page, DupPerm(s.maps[k].perm)));
  }

  lemma InSettled(s: Sys, k: PteKey)
    requires k in s.maps && k.dir !in s.handlers && k !in s.pending
    ensures k in Settled(s) && Settled(s)[k] == s.maps[k]
  {
  }

  lemma DupOnlyInMemory(s: Sys, s': Sys, k: PteKey, child: nat)
    requires InMemory(s) && DupOnlyStep(s, s', k, child)
    ensures InMemory(s')
  {
    hide Has, DupPerm, Writable, Untouched;
  }

  lemma DupOnlyRefines(s: Sys, s': Sys, k: PteKey, child: nat)
    requires CowInv(s) && DupOnlyStep(s, s', k, child)
    ensures CowInv(s') && View(s') == EagerStep(View(s), DupOnly(k, child))
  {
    hide Exclusive, SharedAcross, HandlersOk, Settled, PendingOk, DupOnlyStep, View, EagerStep, InMemory;
    DupOnlyKeepsInv(s, s', k, child);
    DupOnlyView(s, s', k, child);
  }

  lemma DupOnlyView(s: Sys, s': Sys, k: PteKey, child: nat)
    requires InMemory(s) && InMemory(s') && DupOnlyStep(s, s', k, child)
    ensures View(s') == EagerStep(View(s), DupOnly(k, child))
  {
    assert Visible(ChildKey(k, child)) <==> Visible(k);
    assert ChildKey(k, child) !in s.pending;
    hide Has, DupPerm, Writable, Visible, Untouched;
    ViewIs(s', EagerStep(View(s), DupOnly(k, child)));
  }

  lemma DupPages(maps: map<PteKey, Pte>, k: PteKey, child: nat)
    requires k in maps && child != k.dir
    ensures DupMaps(maps, k, child).Keys == maps.Keys + {ChildKey(k, child)}
    ensures DupMaps(maps, k, child)[ChildKey(k, child)].page == maps[k].page
    ensures forall l :: l in maps && l != ChildKey(k, child) ==> DupMaps(maps, k, child)[l].page == maps[l].page
    ensures forall l :: l in maps && l != ChildKey(k, child) && l != k ==> DupMaps(maps, k, child)[l] == maps[l]
  {
    hide DupPerm;
  }

  /** A view is what its addresses' pages hold. */
  lemma ViewIs(s: Sys, e: Eager)
    requires InMemory(s)
    requires forall l :: l in e <==> l in s.maps && Visible(l) && l !in s.pending
    requires forall l :: l in e && l in s.maps && s.maps[l].page < |s.mem| ==> e[l] == s.mem[s.maps[l].page]
    ensures View(s) == e
  {
    hide Visible;
    assert View(s).Keys == e.Keys;
  }

  lemma AllocKeepsInv(s: Sys, s': Sys, k: PteKey, perm: nat, got: nat)
    requires CowInv(s) && AllocStep(s, s', k, perm, got)
    ensures CowInv(s')
  {
    hide Exclusive, SharedAcross, Has, HandlerOk, Settled, AllocStep, InMemory;
    AllocSettled(s, s', k, perm, got);
    AllocPending(s, s', k, perm, got);
    hide PendingOk;
    SharingFresh(Settled(s), k, Pte(got, perm));
    forall dir | dir in s'.handlers ensures HandlerOk(s', dir, s'.handlers[dir]) {
      AllocHandler(s, s', k, perm, got, dir);
    }
  }

  lemma AllocPending(s: Sys, s': Sys, k: PteKey, perm: nat, got: nat)
    requires PendingOk(s) && AllocStep(s, s', k, perm, got)
    ensures PendingOk(s')
  {
    hide Has, PendingOk, InWindow, SameData;
    PendingUntouched(s, s', k);
  }

  lemma AllocSettled(s: Sys, s': Sys, k: PteKey, perm: nat, got: nat)
    requires InMemory(s) && AllocStep(s, s', k, perm, got)
    ensures InMemory(s') && Settled(s') == Settled(s)[k := Pte(got, perm)]
    ensures forall l :: l in Settled(s) ==> Settled(s)[l].page != got
  {
    hide Has, SameData;
    AllocInMemory(s, s', k, perm, got);
    hide InMemory;
  }

  lemma AllocInMemory(s: Sys, s': Sys, k: PteKey, perm: nat, got: nat)
    requires InMemory(s) && AllocStep(s, s', k, perm, got)
    ensures InMemory(s')
  {
    hide Has;
  }

  lemma AllocHandler(s: Sys, s': Sys, k: PteKey, perm: nat, got: nat, dir: nat)
    requires CowInv(s) && InMemory(s') && AllocStep(s, s', k, perm, got) && dir in s'.handlers
    ensures dir in s.handlers && HandlerOk(s', dir, s'.handlers[dir])
  {
    hide Exclusive, SharedAcross, Has, HandlerOk, HandlersOk, Settled;
    HandlerAt(s, dir);
    InHandlerAt(s, dir);
    HandlerKept(s, s', dir, s.handlers[dir]);
  }

  lemma AllocView(s: Sys, s': Sys, k: PteKey, perm: nat, got: nat)
    requires InMemory(s) && InMemory(s') && AllocStep(s, s', k, perm, got)
    ensures View(s') == EagerStep(View(s), Alloc(k, perm))
  {
    assert k !in s.pending;
    hide Visible, Untouched;
    var e := EagerStep(View(s), Alloc(k, perm));
    forall l | l in s.maps && l != k ensures s'.mem[s.maps[l].page] == s.mem[s.maps[l].page] {
      assert s'.maps[l] == s.maps[l];
    }
    ViewIs(s', e);
  }

  lemma AllocRefines(s: Sys, s': Sys, k: PteKey, perm: nat, got: nat)
    requires CowInv(s) && AllocStep(s, s', k, perm, got)
    ensures CowInv(s') && View(s') == EagerStep(View(s), Alloc(k, perm))
  {
    hide Exclusive, SharedAcross, HandlersOk, Settled, InMemory, View, EagerStep, AllocStep, PendingOk;
    AllocKeepsInv(s, s', k, perm, got);
    AllocView(s, s', k, perm, got);
  }

  lemma DropKeepsInv(s: Sys, s': Sys, k: PteKey)
    requires CowInv(s) && LazyStep(s, s', Drop(k))
    ensures CowInv(s')
  {
    hide Exclusive, SharedAcross, Has, HandlerOk, InHandler;
    SharingSubset(Settled(s), Settled(s'));
    DropPending(s, s', k);
    hide HandlersOk, Settled, PendingOk, InWindow;
    forall dir | dir in s'.handlers
      ensures PftempKey(dir) in s.maps && s.handlers[dir].key in s.maps
      ensures PftempKey(dir) != k && s.handlers[dir].key != k {
      HandlerDir(s, dir);
    }
    HandlersKept(s, s');
  }

  lemma DropPending(s: Sys, s': Sys, k: PteKey)
    requires PendingOk(s) && LazyStep(s, s', Drop(k))
    ensures PendingOk(s')
  {
    hide Has, PendingOk, InWindow, SameData;
    PendingUntouched(s, s', k);
  }

  lemma HandlerDir(s: Sys, dir: nat)
    requires CowInv(s) && dir in s.handlers
    ensures PftempKey(dir) in s.maps && s.handlers[dir].key in s.maps && s.handlers[dir].key.dir == dir
  {
    hide Exclusive, SharedAcross, Has;
    HandlerAt(s, dir);
  }

  lemma DropRefines(s: Sys, s': Sys, k: PteKey)
    requires CowInv(s) && LazyStep(s, s', Drop(k))
    ensures CowInv(s') && View(s') == EagerStep(View(s), Drop(k))
  {
    hide Exclusive, SharedAcross, Has, HandlersOk, Settled, LazyStep, EagerStep, View, InMemory, PendingOk;
    DropKeepsInv(s, s', k);
    DropView(s, s', k);
  }

  lemma DropView(s: Sys, s': Sys, k: PteKey)
    requires InMemory(s) && InMemory(s') && LazyStep(s, s', Drop(k))
    ensures View(s') == EagerStep(View(s), Drop(k))
  {
    ViewIs(s', EagerStep(View(s), Drop(k)));
  }

  lemma ExitKeepsInv(s: Sys, s': Sys, dir: nat)
    requires CowInv(s) && LazyStep(s, s', Exit(dir))
    ensures CowInv(s')
  {
    hide Exclusive, SharedAcross, Has, HandlerOk;
    SharingSubset(Settled(s), Settled(s'));
    ExitPending(s, s', dir);
    hide PendingOk;
    forall d | d in s.handlers ensures InHandler(s, d, s.handlers[d].key) {
      InHandlerAt(s, d);
    }
    hide HandlersOk, Settled;
    HandlersKept(s, s');
  }

  lemma {:induction false} ExitRefines(s: Sys, s': Sys, dir: nat)
    requires CowInv(s) && LazyStep(s, s', Exit(dir))
    ensures CowInv(s') && View(s') == EagerStep(View(s), Exit(dir))
  {
    hide Exclusive, SharedAcross, Has, HandlersOk, Settled, LazyStep, EagerStep, View, InMemory, PendingOk;
    ExitKeepsInv(s, s', dir);
    ExitView(s, s', dir);
  }

  lemma ExitPending(s: Sys, s': Sys, dir: nat)
    requires PendingOk(s) && LazyStep(s, s', Exit(dir))
    ensures PendingOk(s')
  {
    hide Has, DupPerm, Writable, SameData;
    forall c | c in s'.pending ensures PendingAt(s', c) {
      assert PendingAt(s, c);
    }
  }

  lemma ExitView(s: Sys, s': Sys, dir: nat)
    requires InMemory(s) && InMemory(s') && LazyStep(s, s', Exit(dir))
    ensures View(s') == EagerStep(View(s), Exit(dir))
  {
    ViewIs(s', EagerStep(View(s), Exit(dir)));
  }

  lemma StepRefines(s: Sys, s': Sys, step: Step)
    requires CowInv(s) && LazyStep(s, s', step)
    ensures CowInv(s') && View(s') == EagerStep(View(s), step)
  {
    hide CowInv, View, FaultAllocStep, FaultCopyStep, FaultMapStep, AllocStep, SameData;
    hide DupFirstStep, DupLastStep, DupOnlyStep;
    match step
    case Store(k, off, val) => StoreRefines(s, s', k, off, val);
    case FaultAlloc(k) =>
      var got: nat :| FaultAllocStep(s, s', k, got);
      FaultAllocRefines(s, s', k, got);
    case FaultCopy(dir) => FaultCopyRefines(s, s', dir);
    case FaultMap(dir) => FaultMapRefines(s, s', dir);
    case FaultUnmap(dir) => FaultUnmapRefines(s, s', dir);
    case DupFirst(k, child) => DupFirstRefines(s, s', k, child);
    case DupLast(k, child) => DupLastRefines(s, s', k, child);
    case DupOnly(k, child) => DupOnlyRefines(s, s', k, child);
    case Alloc(k, perm) =>
      var got: nat :| AllocStep(s, s', k, perm, got);
      AllocRefines(s, s', k, perm, got);
    case Drop(k) => DropRefines(s, s', k);
    case Exit(dir) => ExitRefines(s, s', dir);
  }

  // ---- whole runs ----

  ghost function EagerRun(e: Eager, steps: seq<Step>): Eager
    decreases |steps|
  {
    if steps == [] then e else EagerRun(EagerStep(e, steps[0]), steps[1..])
  }

  /** `trace` is a run of the lazy machine taking `steps`. */
  ghost predicate LazyRun(trace: seq<Sys>, steps: seq<Step>)
  {
    |trace| == |steps| + 1 && forall i :: 0 <= i < |steps| ==> LazyStep(trace[i], trace[i + 1], steps[i])
  }

  /** Copy-on-write is indistinguishable from eager copying: whatever stores, forks, allocations
      and exits interleave with the single steps of any number of fault handlers and duppages,
      every environment sees exactly the contents it would see if each duplicated page had been
      copied when it was duplicated. */
  lemma {:induction false} CowRefinesEager(trace: seq<Sys>, steps: seq<Step>)
    requires LazyRun(trace, steps) && CowInv(trace[0])
    ensures CowInv(trace[|steps|])
    ensures View(trace[|steps|]) == EagerRun(View(trace[0]), steps)
    decreases |steps|
  {
    if steps != [] {
      StepRefines(trace[0], trace[1], steps[0]);
      assert LazyRun(trace[1..], steps[1..]);
      CowRefinesEager(trace[1..], steps[1..]);
    }
  }

  // ---- one whole fault ----

  /** The steps of one run of the handler. */
  function FaultSteps(k: PteKey): seq<Step>
  {
    [FaultAlloc(k)] + Copies(k.dir, NPTENTRIES) + [FaultMap(k.dir), FaultUnmap(k.dir)]
  }

  function Copies(dir: nat, n: nat): (steps: seq<Step>)
    ensures |steps| == n && forall i :: 0 <= i < n ==> steps[i] == FaultCopy(dir)
  {
    seq(n, i => FaultCopy(dir))
  }

  predicate IsFault(step: Step)
  {
    step.FaultAlloc? || step.FaultCopy? || step.FaultMap? || step.FaultUnmap?
  }

  lemma {:induction false} FaultsAreInvisible(e: Eager, steps: seq<Step>)
    requires forall i :: 0 <= i < |steps| ==> IsFault(steps[i])
    ensures EagerRun(e, steps) == e
    decreases |steps|
  {
    if steps != [] {
      FaultsAreInvisible(EagerStep(e, steps[0]), steps[1..]);
    }
  }

  lemma {:induction false} EagerRunSplit(e: Eager, first: seq<Step>, next: seq<Step>)
    ensures EagerRun(e, first + next) == EagerRun(EagerRun(e, first), next)
    decreases |first|
  {
    if first == [] {
      assert first + next == next;
    } else {
      assert (first + next)[1..] == first[1..] + next;
      EagerRunSplit(EagerStep(e, first[0]), first[1..], next);
    }
  }

  /** A store the MMU refused, the whole handler, and the store again: one eager store. */
  lemma FaultThenStore(trace: seq<Sys>, k: PteKey, off: nat, val: nat)
    requires LazyRun(trace, FaultSteps(k) + [Store(k, off, val)]) && CowInv(trace[0])
    ensures CowInv(trace[|trace| - 1])
    ensures View(trace[|trace| - 1]) == EagerStep(View(trace[0]), Store(k, off, val))
  {
    hide LazyStep, View, EagerStep, HandlersOk, Exclusive, SharedAcross;
    var steps, store := FaultSteps(k), [Store(k, off, val)];
    CowRefinesEager(trace, steps + store);
    EagerRunSplit(View(trace[0]), steps, store);
    FaultsAreInvisible(View(trace[0]), steps);
    OneStep(View(trace[0]), store[0]);
  }

  lemma OneStep(e: Eager, step: Step)
    ensures EagerRun(e, [step]) == EagerStep(e, step)
  {
  }

  /** When a handler returns, whatever others did meanwhile, the store that faulted will be let
      through. */
  lemma FaultEnables(s: Sys, s': Sys, dir: nat)
    requires CowInv(s) && LazyStep(s, s', FaultUnmap(dir))
    ensures var k := s.handlers[dir].key; k in s'.maps && Has(s'.maps[k].perm, PTE_W)
  {
    hide Exclusive, SharedAcross, HandlersOk, Settled, SameData, Has;
    HandlerAt(s, dir);
    WritableBits();
  }

  lemma WritableBits()
    ensures Has(PTE_P + PTE_U + PTE_W, PTE_W)
  {
  }

  /** The schedule that would break an unguarded handler: two environments fault on one page,
      and each is cut off by the other between its copy and its remapping. Both end up with
      private copies, since whoever remaps first leaves the old page to the other. */
  lemma TwoFaults(s: Sys, t: Sys, u: Sys, dir: nat, other: nat)
    requires CowInv(s) && dir in s.handlers && other in s.handlers && dir != other
    requires FaultMapStep(s, t, dir) && FaultMapStep(t, u, other)
    ensures CowInv(u) && View(u) == View(s)
    ensures u.maps[s.handlers[dir].key].page != u.maps[s.handlers[other].key].page
  {
    hide Exclusive, SharedAcross, Has, HandlersOk;
    OtherPages(s, dir, other);
    FaultMapRefines(s, t, dir);
    FaultMapRefines(t, u, other);
  }

  /** A fresh zeroed page is put at the address that the handler of `dir` is about to remap. */
  ghost predicate Remapped(s: Sys, t: Sys, dir: nat, perm: nat, got: nat)
    requires dir in s.handlers
  {
    && Unmapped(s, got) && got < |s.mem| && SameData(s, t, {got}) && t.mem[got] == seq(NPTENTRIES, i => 0)
    && t.maps == s.maps[s.handlers[dir].key := Pte(got, perm)]
    && t.handlers == s.handlers && t.pending == s.pending
  }

  lemma RemapInMemory(s: Sys, t: Sys, u: Sys, dir: nat, perm: nat, got: nat)
    requires InMemory(s) && dir in s.handlers && Remapped(s, t, dir, perm, got) && FaultMapStep(t, u, dir)
    ensures InMemory(t) && InMemory(u)
  {
    hide Has;
  }

  lemma RemapPages(s: Sys, t: Sys, u: Sys, dir: nat, perm: nat, got: nat, l: PteKey)
    requires InMemory(s) && InMemory(t) && InMemory(u) && dir in s.handlers && InHandler(s, dir, s.handlers[dir].key)
    requires Remapped(s, t, dir, perm, got) && FaultMapStep(t, u, dir)
    requires s.mem[s.maps[PftempKey(dir)].page] == s.mem[s.maps[s.handlers[dir].key].page]
    requires l in s.maps
    ensures l in t.maps && l in u.maps
    ensures if l == s.handlers[dir].key
      then u.mem[u.maps[l].page] == s.mem[s.maps[l].page] && t.mem[t.maps[l].page] == seq(NPTENTRIES, i => 0)
      else u.mem[u.maps[l].page] == t.mem[t.maps[l].page]
  {
    hide Has;
    var temp, gp := PftempKey(dir), s.maps[PftempKey(dir)].page;
    assert t.maps[temp] == s.maps[temp] && t.mem[gp] == s.mem[gp];
    assert u.maps[temp] == t.maps[temp] && u.mem[gp] == t.mem[gp];
    if l != s.handlers[dir].key {
      assert u.maps[l] == t.maps[l];
    }
  }

  /** Why nobody else may remap the address in between: if a fresh page is put there when the copy is
      complete, the handler brings back what it had copied. So its mapping is invisible exactly when
      that was all zeros too. */
  lemma RemapInHandler(s: Sys, t: Sys, u: Sys, dir: nat, perm: nat, got: nat)
    requires CowInv(s) && dir in s.handlers && s.handlers[dir].copied == NPTENTRIES
    requires Remapped(s, t, dir, perm, got) && FaultMapStep(t, u, dir)
    ensures InMemory(t) && InMemory(u)
    ensures View(u) == View(t) <==> View(s)[s.handlers[dir].key] == seq(NPTENTRIES, i => 0)
  {
    hide Exclusive, SharedAcross, Has, PendingOk, Settled, HandlersOk, HandlerOk, SameData, InMemory;
    var key := s.handlers[dir].key;
    HandlerAt(s, dir);
    InHandlerAt(s, dir);
    HandlerNotPending(s, dir);
    CopyComplete(s, dir);
    RemapInMemory(s, t, u, dir, perm, got);
    InRange(t);
    InRange(u);
    forall l | l in s.maps ensures l in t.maps && l in u.maps
      && (l != key ==> u.mem[u.maps[l].page] == t.mem[t.maps[l].page]) {
      RemapPages(s, t, u, dir, perm, got, l);
    }
    RemapPages(s, t, u, dir, perm, got, key);
    ViewsDiffer(s, t, u, key);
  }

  lemma ViewsDiffer(s: Sys, t: Sys, u: Sys, key: PteKey)
    requires InMemory(s) && InMemory(t) && InMemory(u)
    requires key in s.maps && Visible(key) && key !in s.pending && s.pending == t.pending == u.pending
    requires forall l :: l in t.maps <==> l in s.maps
    requires forall l :: l in u.maps <==> l in s.maps
    requires forall l :: l in s.maps && l != key ==> u.mem[u.maps[l].page] == t.mem[t.maps[l].page]
    requires u.mem[u.maps[key].page] == s.mem[s.maps[key].page] && t.mem[t.maps[key].page] == seq(NPTENTRIES, i => 0)
    ensures View(u) == View(t) <==> View(s)[key] == seq(NPTENTRIES, i => 0)
  {
    hide Visible;
    assert key in View(u) && key in View(t) && View(u)[key] == View(s)[key];
    assert View(t)[key] == seq(NPTENTRIES, i => 0);
    if View(s)[key] == seq(NPTENTRIES, i => 0) {
      ViewIs(u, View(t));
    }
  }

  lemma InRange(s: Sys)
    requires InMemory(s)
    ensures forall l :: l in s.maps ==> s.maps[l].page < |s.mem|
  {
  }
}
