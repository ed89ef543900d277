/** The process table of kernel/proc.c as owner of memory: allocproc, freeproc, growproc and
    fork.

    Every page of RAM is at every moment on the free list once, kept by the kernel, or
    owned by exactly one process; every process maps exactly the pages of its size, its
    trapframe and the trampoline. All operations keep this, whichever allocation fails. */
module Processes {
  import opened Common
  import opened Kalloc
  import opened PageTable
  import opened Uvm
  import opened FreeWalk
  import opened UvmCopy
  import opened AddressSpace

  const RAM_PAGES: nat := 32768       // 128 MB between KERNBASE and PHYSTOP
  const TRAPFRAME_WORDS: nat := 36
  const A0: nat := 14                 // word of the trapframe that holds register a0

  /** The fields of struct proc that memory management uses. */
  datatype Proc = Proc(inUse: bool, pagetable: nat, sz: nat, trapframe: nat)

  /** The space behind p->pagetable. */
  datatype Img = Img(t: Tree, us: seq<nat>)

  /** The pages a process holds. */
  ghost function Owned(p: Proc, s: Img): (o: set<nat>)
  {
    (if p.trapframe == 0 then {} else {p.trapframe}) + (if p.pagetable == 0 then {} else Used(s.t, s.us))
  }

  /** A process maps its sz bytes, its trapframe and the trampoline, and nothing else. */
  ghost predicate SlotOk(mem: Ram, p: Proc, s: Img, trampoline: nat)
  {
    && (p.trapframe != 0 ==> p.trapframe in mem)
    && if p.pagetable == 0 then p.sz == 0 else
        && ProcSpace(mem, s.t, s.us, p.trapframe, trampoline) && s.t.root == p.pagetable
        && p.sz <= MAXVA && |s.us| == Pages(p.sz)
        && p.trapframe != 0 && p.trapframe !in Used(s.t, s.us)
  }

  ghost predicate Held(ps: seq<Proc>, ss: seq<Img>, q: nat)
    requires |ps| == |ss|
  {
    exists i :: 0 <= i < |ps| && q in Owned(ps[i], ss[i])
  }

  ghost predicate Apart2(ps: seq<Proc>, ss: seq<Img>, free: seq<nat>, kern: set<nat>)
    requires |ps| == |ss|
  {
    && kern !! Elems(free)
    && (forall i :: 0 <= i < |ps| ==> Owned(ps[i], ss[i]) !! Elems(free) && Owned(ps[i], ss[i]) !! kern)
    && (forall i, j :: 0 <= i < j < |ps| ==> Owned(ps[i], ss[i]) !! Owned(ps[j], ss[j]))
  }

  ghost predicate Inv(mem: Ram, free: seq<nat>, ps: seq<Proc>, ss: seq<Img>, kern: set<nat>, trampoline: nat)
  {
    && |ps| == |ss| && |mem| <= RAM_PAGES
    && (forall i :: 0 <= i < |ps| ==> SlotOk(mem, ps[i], ss[i], trampoline))
    && Apart2(ps, ss, free, kern)
    && (forall q :: q in mem <==> q in free || q in kern || Held(ps, ss, q))
  }

  // ------------------------------------------------------------- one slot changes

  lemma OwnedTree(p: Proc, s: Img, q: nat)
    requires p.pagetable != 0 && (IsTreePage(s.t, q) || q in s.us)
    ensures q in Owned(p, s)
  {
    UsedIs(s.t, s.us, q);
  }

  lemma SlotFrame(mem: Ram, mem': Ram, p: Proc, s: Img, trampoline: nat)
    requires SlotOk(mem, p, s, trampoline) && mem'.Keys == mem.Keys
    requires forall q :: q in mem && q in Owned(p, s) ==> mem'[q] == mem[q]
    ensures SlotOk(mem', p, s, trampoline)
  {
    hide Space, Used, Owned, Pages;
    if p.pagetable != 0 {
      forall q | q in mem && IsTreePage(s.t, q) ensures mem'[q] == mem[q] { OwnedTree(p, s, q); }
      SpaceFrame(mem, mem', s.t, s.us, TrapframeEntry(p.trapframe), TrampolineEntry(trampoline));
    }
  }

  /** The other owners of pages than process i. */
  lemma OthersApart(mem: Ram, free: seq<nat>, ps: seq<Proc>, ss: seq<Img>, kern: set<nat>, trampoline: nat, i: nat,
      j: nat)
    requires Inv(mem, free, ps, ss, kern, trampoline) && i < |ps| && j < |ps| && i != j
    ensures Owned(ps[j], ss[j]) !! Elems(free) + Owned(ps[i], ss[i])
  {
    hide SlotOk, Owned, Held;
    assert i < j || j < i;
  }

  /** What an operation on process i leaves alone: every page of every other process. */
  lemma OthersKept(mem: Ram, free: seq<nat>, ps: seq<Proc>, ss: seq<Img>, kern: set<nat>, trampoline: nat, i: nat,
      j: nat, mem': Ram, free': seq<nat>, o': set<nat>)
    requires Inv(mem, free, ps, ss, kern, trampoline) && i < |ps| && j < |ps| && i != j
    requires Moved(mem, free, Owned(ps[i], ss[i]), mem', free', o')
    ensures forall q :: q in Owned(ps[j], ss[j]) && q in mem ==> mem'[q] == mem[q]
    ensures Owned(ps[j], ss[j]) !! Elems(free') + o'
    ensures SlotOk(mem', ps[j], ss[j], trampoline)
  {
    OthersApart(mem, free, ps, ss, kern, trampoline, i, j);
    MovedBeside(mem, free, Owned(ps[i], ss[i]), mem', free', o', Owned(ps[j], ss[j]));
    assert SlotOk(mem, ps[j], ss[j], trampoline) && mem'.Keys == mem.Keys;
    hide SlotOk, Owned, Inv, Moved;
    SlotFrame(mem, mem', ps[j], ss[j], trampoline);
  }

  /** One process may trade pages with the free list; the invariant is kept. */
  lemma InvStep(mem: Ram, free: seq<nat>, ps: seq<Proc>, ss: seq<Img>, kern: set<nat>, trampoline: nat, i: nat,
      mem': Ram, free': seq<nat>, p': Proc, s': Img)
    requires Inv(mem, free, ps, ss, kern, trampoline) && i < |ps|
    requires Moved(mem, free, Owned(ps[i], ss[i]), mem', free', Owned(p', s')) && SlotOk(mem', p', s', trampoline)
    ensures Inv(mem', free', ps[i := p'], ss[i := s'], kern, trampoline)
  {
    var ps', ss' := ps[i := p'], ss[i := s'];
    forall j | 0 <= j < |ps| && j != i
      ensures SlotOk(mem', ps[j], ss[j], trampoline) && Owned(ps[j], ss[j]) !! Elems(free') + Owned(p', s')
    {
      OthersKept(mem, free, ps, ss, kern, trampoline, i, j, mem', free', Owned(p', s'));
    }
    KernApart(mem, free, ps, ss, kern, trampoline, i, mem', free', Owned(p', s'));
    StepCovers(mem, free, ps, ss, kern, trampoline, i, mem', free', p', s');
    assert mem'.Keys == mem.Keys;
    assert |mem'| == |mem'.Keys| == |mem.Keys| == |mem|;
    StepApart(mem, free, ps, ss, kern, trampoline, i, mem', free', p', s');
    hide SlotOk, Owned, Moved, Held, Apart2;
    forall j | 0 <= j < |ps'| ensures SlotOk(mem', ps'[j], ss'[j], trampoline) {
      if j != i { assert ps'[j] == ps[j] && ss'[j] == ss[j]; }
    }
  }

  lemma KernApart(mem: Ram, free: seq<nat>, ps: seq<Proc>, ss: seq<Img>, kern: set<nat>, trampoline: nat, i: nat,
      mem': Ram, free': seq<nat>, o': set<nat>)
    requires Inv(mem, free, ps, ss, kern, trampoline) && i < |ps|
      && Moved(mem, free, Owned(ps[i], ss[i]), mem', free', o')
    ensures kern !! Elems(free') + o'
  {
    hide SlotOk, Owned, Held;
    MovedBeside(mem, free, Owned(ps[i], ss[i]), mem', free', o', kern);
  }

  lemma StepApart(mem: Ram, free: seq<nat>, ps: seq<Proc>, ss: seq<Img>, kern: set<nat>, trampoline: nat, i: nat,
      mem': Ram, free': seq<nat>, p': Proc, s': Img)
    requires Inv(mem, free, ps, ss, kern, trampoline) && i < |ps|
    requires Elems(free') !! Owned(p', s') && kern !! Elems(free') + Owned(p', s')
    requires forall j :: 0 <= j < |ps| && j != i ==> Owned(ps[j], ss[j]) !! Elems(free') + Owned(p', s')
    ensures Apart2(ps[i := p'], ss[i := s'], free', kern)
  {
    hide SlotOk, Owned, Held;
    var ps', ss' := ps[i := p'], ss[i := s'];
    forall j | 0 <= j < |ps'| ensures Owned(ps'[j], ss'[j]) !! Elems(free') && Owned(ps'[j], ss'[j]) !! kern {
      if j != i { assert ps'[j] == ps[j] && ss'[j] == ss[j]; }
    }
    forall j, k | 0 <= j < k < |ps'| ensures Owned(ps'[j], ss'[j]) !! Owned(ps'[k], ss'[k]) {
      if j != i { assert ps'[j] == ps[j] && ss'[j] == ss[j]; }
      if k != i { assert ps'[k] == ps[k] && ss'[k] == ss[k]; }
    }
  }

  lemma StepCovers(mem: Ram, free: seq<nat>, ps: seq<Proc>, ss: seq<Img>, kern: set<nat>, trampoline: nat, i: nat,
      mem': Ram, free': seq<nat>, p': Proc, s': Img)
    requires Inv(mem, free, ps, ss, kern, trampoline) && i < |ps|
    requires Moved(mem, free, Owned(ps[i], ss[i]), mem', free', Owned(p', s'))
    ensures forall q :: q in mem' <==> q in free' || q in kern || Held(ps[i := p'], ss[i := s'], q)
  {
    hide SlotOk, Owned, Apart2;
    var ps', ss' := ps[i := p'], ss[i := s'];
    assert mem'.Keys == mem.Keys;
    forall q ensures q in mem' <==> q in free' || q in kern || Held(ps', ss', q) {
      assert q in Elems(free') + Owned(p', s') <==> q in Elems(free) + Owned(ps[i], ss[i]);
      HeldOther(ps, ss, i, p', s', q);
      assert q in mem <==> q in free || q in kern || Held(ps, ss, q);
    }
  }

  lemma HeldOther(ps: seq<Proc>, ss: seq<Img>, i: nat, p': Proc, s': Img, q: nat)
    requires |ps| == |ss| && i < |ps|
    ensures q in Owned(ps[i], ss[i]) ==> Held(ps, ss, q)
    ensures q in Owned(p', s') ==> Held(ps[i := p'], ss[i := s'], q)
    ensures Held(ps, ss, q) ==> q in Owned(ps[i], ss[i]) || Held(ps[i := p'], ss[i := s'], q)
    ensures Held(ps[i := p'], ss[i := s'], q) ==> q in Owned(p', s') || Held(ps, ss, q)
  {
    hide Owned;
    var ps', ss' := ps[i := p'], ss[i := s'];
    if q in Owned(p', s') { assert q in Owned(ps'[i], ss'[i]); }
    if j :| 0 <= j < |ps| && q in Owned(ps[j], ss[j]) {
      if j != i { assert q in Owned(ps'[j], ss'[j]); }
    }
    if j :| 0 <= j < |ps'| && q in Owned(ps'[j], ss'[j]) {
      if j != i { assert q in Owned(ps[j], ss[j]); }
    }
  }

  // -------------------------------------------------------------------- counting

  lemma {:induction false} ElemsSize(s: seq<nat>)
    requires NoDup(s)
    ensures |Elems(s)| == |s|
  {
    if s != [] {
      ElemsSize(s[1..]);
      assert Elems(s) == {s[0]} + Elems(s[1..]);
      assert s[0] !in s[1..];
    }
  }

  /** Memory runs out before virtual memory does. */
  lemma MemoryBounds(mem: Ram, us: seq<nat>, free: seq<nat>)
    requires NoDup(us) && NoDup(free) && Elems(us) !! Elems(free) && |mem| <= RAM_PAGES
    requires (forall q :: q in us ==> q in mem) && (forall q :: q in free ==> q in mem)
    ensures |us| + |free| <= RAM_PAGES
  {
    ElemsSize(us);
    ElemsSize(free);
    assert Elems(us) + Elems(free) <= mem.Keys;
    SubsetSize(Elems(us) + Elems(free), mem.Keys);
    assert |Elems(us) + Elems(free)| == |Elems(us)| + |Elems(free)|;
  }

  lemma UsInMem(mem: Ram, t: Tree, us: seq<nat>, q: nat)
    requires UserPages(mem, t, us) && q in us
    ensures q in mem
  {
    var v :| 0 <= v < |us| && us[v] == q;
    MapsAt(mem, t, us, v);
  }

  lemma RoomInSpace(mem: Ram, t: Tree, us: seq<nat>, free: seq<nat>)
    requires UserPages(mem, t, us) && Used(t, us) !! Elems(free) && NoDup(free) && |mem| <= RAM_PAGES
    requires forall q :: q in free ==> q in mem
    ensures |us| + |free| <= RAM_PAGES && RoomToGrow(mem, t, free, |us|)
  {
    forall q | q in us ensures q in mem { UsInMem(mem, t, us, q); }
    assert Elems(us) !! Elems(free);
    MemoryBounds(mem, us, free);
    hide Table, Entry, Used, NoDup, Elems;
  }

  /** A space that grew keeps its top entries. */
  lemma GrownProcSpace(mem: Ram, t: Tree, us: seq<nat>, free: seq<nat>, mem': Ram, t': Tree, free': seq<nat>,
      ls: seq<Leaf>, tf: nat, tr: nat)
    requires Space(mem, t, us, tf, tr) && Used(t, us) !! Elems(free) && Grown(t, mem, free, t', mem', free', |us|, ls)
    requires |us| + |ls| <= RAM_PAGES
    ensures Space(mem', t', us + Pas(ls), tf, tr) && t'.root == t.root
    ensures Moved(mem, free, Used(t, us), mem', free', Used(t', us + Pas(ls)))
    ensures forall q :: q in us ==> q in mem && mem'[q] == mem[q]
  {
    hide Used, Moved, UserPages;
    GrownSpace(t, mem, free, us, t', mem', free', ls);
    hide Table, Entry, LeafThere, Pte;
    TableResident(mem', t');
    assert forall v: nat :: v >= |us| + |ls| ==> Entry(mem', t', v) == Entry(mem, t, v);
  }

  lemma ShrunkProcSpace(mem: Ram, t: Tree, us: seq<nat>, free: seq<nat>, mem': Ram, free': seq<nat>, lo: nat, tf: nat,
      tr: nat)
    requires Space(mem, t, us, tf, tr) && Used(t, us) !! Elems(free) && lo <= |us|
      && Unmapped(t, mem, free, mem', free', lo, |us| - lo, true)
    ensures Space(mem', t, us[..lo], tf, tr)
    ensures Moved(mem, free, Used(t, us), mem', free', Used(t, us[..lo]))
    ensures forall q :: q in us[..lo] ==> q in mem && mem'[q] == mem[q]
  {
    ShrunkSpace(t, mem, free, us, mem', free', lo);
    assert |us| <= TRAPFRAME_VPN;
    TableResident(mem', t);
    hide Table, Entry, Used, Moved, UserPages, Taken;
    assert forall v: nat :: v >= |us| ==> Entry(mem', t, v) == Entry(mem, t, v);
  }

  /** Trading a space's pages is trading the process's. */
  lemma SpaceOwned(mem: Ram, free: seq<nat>, mem': Ram, free': seq<nat>, p: Proc, s: Img, p': Proc, s': Img)
    requires Moved(mem, free, Used(s.t, s.us), mem', free', Used(s'.t, s'.us)) && Owned(p, s) !! Elems(free)
    requires p.pagetable != 0 && p'.pagetable != 0 && p'.trapframe == p.trapframe != 0
      && p.trapframe !in Used(s.t, s.us)
    ensures Moved(mem, free, Owned(p, s), mem', free', Owned(p', s')) && p.trapframe !in Used(s'.t, s'.us)
    ensures p.trapframe in mem ==> mem'[p.trapframe] == mem[p.trapframe]
  {
    hide Used;
    var w := {p.trapframe};
    assert Owned(p, s) == Used(s.t, s.us) + w && Owned(p', s') == Used(s'.t, s'.us) + w;
    assert p.trapframe in Owned(p, s);
    MovedBeside(mem, free, Used(s.t, s.us), mem', free', Used(s'.t, s'.us), w);
    assert p.trapframe in w;
  }

  lemma SlotFacts(mem: Ram, free: seq<nat>, ps: seq<Proc>, ss: seq<Img>, kern: set<nat>, trampoline: nat, i: nat)
    requires Inv(mem, free, ps, ss, kern, trampoline) && i < |ps| && ps[i].pagetable != 0
    ensures |ss| == |ps|
    ensures var p, s := ps[i], ss[i];
      && ProcSpace(mem, s.t, s.us, p.trapframe, trampoline) && s.t.root == p.pagetable && p.sz <= MAXVA
      && |s.us| == Pages(p.sz)
      && Used(s.t, s.us) !! Elems(free) && Owned(p, s) !! Elems(free) && p.trapframe in mem && p.trapframe != 0
      && p.trapframe !in Used(s.t, s.us) && p.trapframe !in free
  {
    hide Space, Used, Held, Pages;
    var p, s := ps[i], ss[i];
    assert SlotOk(mem, p, s, trampoline);
    assert p.trapframe in Owned(p, s) && p.trapframe !in Elems(free);
  }

  /** The size growproc() asks for: 32-bit unsigned arithmetic. */
  function NewSize(sz: nat, n: int): (r: nat) { (sz + n) % U32 }

  /** The size sbrk(n) leaves when it succeeds: more than the process has cannot be given
      back, and asking for that changes nothing. */
  function Resized(sz: nat, n: int): (r: nat) { if sz + n < 0 then sz else sz + n }

  lemma Sizes(sz: nat, n: int)
    requires Pages(sz) <= RAM_PAGES && sz <= MAXVA && -0x8000_0000 <= n < 0x8000_0000
    ensures sz % U32 == sz && NewSize(sz, n) < U32
    ensures n >= 0 ==> NewSize(sz, n) == sz + n == Resized(sz, n)
    ensures n < 0 ==> (if NewSize(sz, n) < sz then NewSize(sz, n) else sz) == Resized(sz, n) <= sz
  {
    PagesIs(sz);
    assert sz <= 32768 * 4096;
    if sz + n < 0 {
      assert (sz + n + 0x1_0000_0000) % 0x1_0000_0000 == (sz + n) % 0x1_0000_0000;
    }
  }

  lemma FreeInMem(mem: Ram, head: nat, free: seq<nat>)
    requires Threaded(mem, head, free)
    ensures forall q :: q in free ==> q in mem
  {}

  /** New pages hold zeros. */
  ghost predicate ZerosFrom(mem: Ram, us: seq<nat>, k: nat)
  {
    forall v :: k <= v < |us| ==> us[v] in mem && mem[us[v]] == Filled(0)
  }

  lemma GrownZeros(mem: Ram, t: Tree, us: seq<nat>, free: seq<nat>, mem': Ram, t': Tree, free': seq<nat>, ls: seq<Leaf>)
    requires Grown(t, mem, free, t', mem', free', |us|, ls) && FreshZeros(ls)
    ensures ZerosFrom(mem', us + Pas(ls), |us|)
  {
    hide Table, Entry, Balanced, Pte, IsV, IsLeaf, Aligned;
    forall v | |us| <= v < |us| + |ls| ensures (us + Pas(ls))[v] in mem' && mem'[(us + Pas(ls))[v]] == Filled(0) {
      assert LeafThere(mem', ls[v - |us|]);
    }
  }

  lemma PagesExact(sz: nat, k: nat)
    requires sz <= PageAddr(k) && (k > 0 ==> PageAddr(k - 1) < sz) && k <= 0x3ff_ffff
    ensures Pages(sz) == k && sz <= MAXVA
  {
    assert sz <= 4096 * k;
    RoundUpIs(sz);
    assert (sz + 4095) / 4096 == k;
  }

  /** After uvmalloc() the pages are those of the new size. */
  lemma GrownPages(oldsz: nat, newsz: nat, n: nat)
    requires oldsz <= MAXVA && oldsz <= newsz && newsz <= PageAddr(Pages(oldsz) + n) && Pages(oldsz) + n <= RAM_PAGES
    requires n > 0 ==> PageAddr(Pages(oldsz) + n - 1) < newsz
    ensures Pages(newsz) == Pages(oldsz) + n && newsz <= MAXVA
  {
    PagesIs(oldsz);
    var k := Pages(oldsz);
    if n == 0 {
      if k > 0 {
        PageOrder(k - 1, k);
        assert PageAddr(k - 1) < oldsz;
      }
      PagesExact(newsz, k);
    } else {
      PagesExact(newsz, k + n);
    }
  }

  /** Entries of the pages that were there are the same; new pages are user memory,
      readable, writable and executable. */
  ghost predicate NewEntries(mem: Ram, t: Tree, k: nat, mem': Ram, t': Tree, us': seq<nat>)
  {
    && Resident(mem, t) && Resident(mem', t')
    && (forall v: nat :: v < k ==> Entry(mem', t', v) == Entry(mem, t, v))
    && (forall v: nat :: k <= v < |us'| ==> Entry(mem', t', v) == Pte(us'[v], WithV(USER_PERM)))
  }

  /** Pages that stay keep their flags, and new ones can be read, written and executed. */
  ghost predicate KeptEntries(mem: Ram, t: Tree, k: nat, mem': Ram, t': Tree, n: nat)
  {
    && Resident(mem, t) && Resident(mem', t')
    && (forall v: nat :: v < n && v < k ==> Entry(mem', t', v) == Entry(mem, t, v))
    && (forall v: nat :: k <= v < n ==> Usable(Entry(mem', t', v)))
  }

  lemma NewUsable(mem: Ram, t: Tree, k: nat, mem': Ram, t': Tree, us': seq<nat>)
    requires NewEntries(mem, t, k, mem', t', us')
    ensures KeptEntries(mem, t, k, mem', t', |us'|)
  {
    hide Entry, Pte, WithV, Usable, Resident;
    forall v: nat | k <= v < |us'| ensures Usable(Entry(mem', t', v)) { FreshUsable(us'[v]); }
  }

  lemma StillUsable(mem: Ram, t: Tree, us: seq<nat>, tf: nat, tr: nat)
    requires Space(mem, t, us, tf, tr)
    ensures KeptEntries(mem, t, |us|, mem, t, |us|)
  {}

  lemma UnmappedEntries(t: Tree, mem: Ram, free: seq<nat>, mem': Ram, free': seq<nat>, lo: nat, n: nat)
    requires Unmapped(t, mem, free, mem', free', lo, n, true)
    ensures KeptEntries(mem, t, lo + n, mem', t, lo)
  {
    hide Table, Entry, Taken;
    TableResident(mem', t);
  }

  lemma NoFresh()
    ensures FreshZeros([])
  {}

  lemma GrownEntries(mem: Ram, t: Tree, us: seq<nat>, free: seq<nat>, mem': Ram, t': Tree, free': seq<nat>,
      ls: seq<Leaf>)
    requires Grown(t, mem, free, t', mem', free', |us|, ls) && FreshZeros(ls)
    ensures NewEntries(mem, t, |us|, mem', t', us + Pas(ls))
  {
    TableResident(mem', t');
    hide Table, Entry, Balanced, Pte, LeafThere, WithV;
    forall v: nat | |us| <= v < |us| + |ls| ensures Entry(mem', t', v) == Pte((us + Pas(ls))[v], WithV(USER_PERM)) {
      assert Entry(mem', t', v) == Pte(ls[v - |us|].pa, ls[v - |us|].perm);
    }
  }

  /** uvmalloc() on a whole space. */
  method GrowSpace(m: Memory, root: nat, oldsz: nat, newsz: nat, ghost t: Tree, ghost us: seq<nat>, ghost tf: nat,
      ghost tr: nat)
      returns (ok: bool, r: nat, ghost t': Tree, ghost us': seq<nat>)
    requires m.Valid() && |m.mem| <= RAM_PAGES && Space(m.mem, t, us, tf, tr) && Used(t, us) !! Elems(m.free)
      && t.root == root
    requires oldsz <= MAXVA && |us| == Pages(oldsz) && newsz < U64
    modifies m`mem, m`freelist, m`free
    ensures m.Valid() && Space(m.mem, t', us', tf, tr) && t'.root == root && us <= us'
    ensures Moved(old(m.mem), old(m.free), Used(t, us), m.mem, m.free, Used(t', us'))
    ensures forall q :: q in us ==> q in old(m.mem) && q in m.mem && m.mem[q] == old(m.mem)[q]
    ensures ok ==>
      r == (if newsz < oldsz then oldsz else newsz) && r <= MAXVA && |us'| == Pages(r) && ZerosFrom(m.mem, us', |us|)
    ensures NewEntries(old(m.mem), t, |us|, m.mem, t', us')
    ensures !ok ==> r == 0 && us' == us
    ensures ok <==> newsz < oldsz || Cost(t, |us|, MorePages(oldsz, newsz)) <= |old(m.free)|
    ensures ok ==> Paved(t, |us|, |us'| - |us|, t') && |m.free| == |old(m.free)| - Cost(t, |us|, |us'| - |us|)
  {
    hide Threaded, NoDup, Space, Used, Moved, Pages, Grown, FreshZeros, Apart, Table, RoomToGrow, PageAddr, Balanced,
      ZerosFrom, Pas, NewEntries, Paved, Cost, MorePages;
    SpaceApart(m.mem, t, us, m.free, tf, tr);
    FreeInMem(m.mem, m.freelist, m.free);
    RoomFor(m.mem, t, us, m.free, tf, tr);
    ghost var ls;
    ok, r, t', ls := UvmAlloc(m, root, oldsz, newsz, t);
    GrownSize(old(m.mem), t, old(m.free), m.mem, t', m.free, |us|, ls);
    GrownProcSpace(old(m.mem), t, us, old(m.free), m.mem, t', m.free, ls, tf, tr);
    us' := us + Pas(ls);
    PasSize(ls);
    if !ok { NoFresh(); }
    GrownEntries(old(m.mem), t, us, old(m.free), m.mem, t', m.free, ls);
    if ok {
      GrownZeros(old(m.mem), t, us, old(m.free), m.mem, t', m.free, ls);
      if newsz < oldsz {
        NoNewPages(oldsz, newsz, |ls|);
      } else {
        GrownPages(oldsz, newsz, |ls|);
      }
    } else {
      assert us + [] == us;
    }
  }

  lemma PasSize(ls: seq<Leaf>)
    ensures |Pas(ls)| == |ls| && (ls == [] ==> Pas(ls) == [])
  {}

  lemma RoomFor(mem: Ram, t: Tree, us: seq<nat>, free: seq<nat>, tf: nat, tr: nat)
    requires Space(mem, t, us, tf, tr) && Used(t, us) !! Elems(free) && NoDup(free) && |mem| <= RAM_PAGES
    requires forall q :: q in free ==> q in mem
    ensures |us| + |free| <= RAM_PAGES && RoomToGrow(mem, t, free, |us|)
  {
    hide UserPages, Used, NoDup, RoomToGrow;
    RoomInSpace(mem, t, us, free);
  }

  lemma GrownSize(mem: Ram, t: Tree, free: seq<nat>, mem': Ram, t': Tree, free': seq<nat>, n: nat, ls: seq<Leaf>)
    requires Grown(t, mem, free, t', mem', free', n, ls)
    ensures |ls| <= |free|
  {}

  lemma NoNewPages(oldsz: nat, newsz: nat, n: nat)
    requires newsz < oldsz <= MAXVA && (n > 0 ==> PageAddr(Pages(oldsz) + n - 1) < newsz)
    ensures n == 0
  {
    PagesIs(oldsz);
  }

  lemma ShrinkReady(m: Memory, mem: Ram, t: Tree, us: seq<nat>, free: seq<nat>, tf: nat, tr: nat, oldsz: nat,
      newsz: nat)
    requires Space(mem, t, us, tf, tr) && Used(t, us) !! Elems(free) && oldsz <= MAXVA && |us| == Pages(oldsz)
    requires forall p: nat :: p in mem ==> m.IsPage(p)
    ensures Private(mem, t, free, Pages(newsz), PageGap(newsz, oldsz))
      && AllUnmappable(m, mem, t, Pages(newsz), PageGap(newsz, oldsz), true)
  {
    hide Used, Pages, Entry, Table, Private, AllUnmappable;
    if newsz < oldsz {
      PagesMonotone(newsz, oldsz);
      Removable(m, mem, t, us, free, Pages(newsz), PageGap(newsz, oldsz));
    } else {
      NoneReady(m, mem, t, free, Pages(newsz));
    }
  }

  lemma NoneReady(m: Memory, mem: Ram, t: Tree, free: seq<nat>, v: nat)
    requires Table(mem, t)
    ensures Resident(mem, t) && Private(mem, t, free, v, 0) && AllUnmappable(m, mem, t, v, 0, true)
  {}

  lemma UnmappedZero(t: Tree, mem: Ram, free: seq<nat>, mem': Ram, free': seq<nat>, v: nat, w: nat)
    requires Unmapped(t, mem, free, mem', free', v, 0, true)
    ensures Unmapped(t, mem, free, mem', free', w, 0, true)
  {
    hide Table, Entry;
  }

  /** uvmdealloc() on a whole space: never panics. */
  method ShrinkSpace(m: Memory, root: nat, oldsz: nat, newsz: nat, ghost t: Tree, ghost us: seq<nat>, ghost tf: nat,
      ghost tr: nat)
      returns (r: nat, ghost us': seq<nat>)
    requires m.Valid() && Space(m.mem, t, us, tf, tr) && Used(t, us) !! Elems(m.free) && t.root == root
    requires oldsz <= MAXVA && |us| == Pages(oldsz)
    modifies m`mem, m`freelist, m`free
    ensures r == (if newsz < oldsz then newsz else oldsz) && |us'| == Pages(r) && us' <= us
    ensures m.Valid() && Space(m.mem, t, us', tf, tr)
    ensures Moved(old(m.mem), old(m.free), Used(t, us), m.mem, m.free, Used(t, us'))
    ensures forall q :: q in us' ==> q in old(m.mem) && q in m.mem && m.mem[q] == old(m.mem)[q]
    ensures KeptEntries(old(m.mem), t, |us|, m.mem, t, |us'|)
  {
    hide Threaded, NoDup, Space, Used, Moved, Pages, Unmapped, KeptEntries, Apart, Table, Private, AllUnmappable;
    SpaceApart(m.mem, t, us, m.free, tf, tr);
    ShrinkReady(m, m.mem, t, us, m.free, tf, tr, oldsz, newsz);
    var ok;
    ok, r := UvmDealloc(m, root, oldsz, newsz, t);
    ghost var lo := |us|;
    if newsz < oldsz {
      PagesMonotone(newsz, oldsz);
      lo := Pages(newsz);
    } else {
      UnmappedZero(t, old(m.mem), old(m.free), m.mem, m.free, Pages(newsz), |us|);
    }
    us' := us[..lo];
    ShrunkProcSpace(old(m.mem), t, us, old(m.free), m.mem, m.free, lo, tf, tr);
    UnmappedKeys(t, old(m.mem), old(m.free), m.mem, m.free, lo, |us| - lo);
    UnmappedEntries(t, old(m.mem), old(m.free), m.mem, m.free, lo, |us| - lo);
  }

  lemma UnmappedKeys(t: Tree, mem: Ram, free: seq<nat>, mem': Ram, free': seq<nat>, v: nat, n: nat)
    requires Unmapped(t, mem, free, mem', free', v, n, true)
    ensures mem'.Keys == mem.Keys
  {}

  /** Process i moved to a new space: the invariant, and what the move means. */
  lemma Resettled(mem: Ram, free: seq<nat>, ps: seq<Proc>, ss: seq<Img>, kern: set<nat>, trampoline: nat, i: nat,
      mem': Ram, free': seq<nat>, p': Proc, s': Img)
    requires Inv(mem, free, ps, ss, kern, trampoline) && i < |ps| && ps[i].pagetable != 0
    requires Moved(mem, free, Used(ss[i].t, ss[i].us), mem', free', Used(s'.t, s'.us))
    requires p'.trapframe == ps[i].trapframe && p'.pagetable == s'.t.root != 0 && p'.sz <= MAXVA
      && |s'.us| == Pages(p'.sz)
    requires ProcSpace(mem', s'.t, s'.us, p'.trapframe, trampoline)
    ensures Inv(mem', free', ps[i := p'], ss[i := s'], kern, trampoline)
    ensures Moved(mem, free, Owned(ps[i], ss[i]), mem', free', Owned(p', s'))
    ensures ps[i].trapframe in mem && ps[i].trapframe in mem' && mem'[ps[i].trapframe] == mem[ps[i].trapframe]
  {
    hide Space, Used, Owned, Pages, Inv;
    SlotFacts(mem, free, ps, ss, kern, trampoline, i);
    SpaceOwned(mem, free, mem', free', ps[i], ss[i], p', s');
    InvStep(mem, free, ps, ss, kern, trampoline, i, mem', free', p', s');
  }

  /** A process's pages fit in RAM. */
  lemma SlotSize(mem: Ram, head: nat, free: seq<nat>, ps: seq<Proc>, ss: seq<Img>, kern: set<nat>, trampoline: nat,
      i: nat)
    requires Inv(mem, free, ps, ss, kern, trampoline) && i < |ps| && ps[i].pagetable != 0 && NoDup(free)
      && Threaded(mem, head, free)
    ensures |mem| <= RAM_PAGES && |ss[i].us| <= RAM_PAGES
  {
    SlotFacts(mem, free, ps, ss, kern, trampoline, i);
    FreeInMem(mem, head, free);
    hide Space, Used, Owned, SlotOk, Held, Apart2, NoDup, Threaded, Pages, RoomToGrow;
    RoomFor(mem, ss[i].t, ss[i].us, free, TrapframeEntry(ps[i].trapframe), TrampolineEntry(trampoline));
  }

  lemma NoZeros(mem: Ram, us: seq<nat>, k: nat)
    requires k >= |us|
    ensures ZerosFrom(mem, us, k)
  {}

  lemma StillThere(mem: Ram, t: Tree, us: seq<nat>, free: seq<nat>, tf: nat, tr: nat)
    requires Space(mem, t, us, tf, tr) && Used(t, us) !! Elems(free)
    ensures Moved(mem, free, Used(t, us), mem, free, Used(t, us)) && forall q :: q in us ==> q in mem
  {
    hide Used;
    forall q | q in us ensures q in mem { UsInMem(mem, t, us, q); }
  }

  /** The work of growproc(): one page list is a prefix of the other, pages in both keep
      their contents, and new ones hold zeros. */
  method Resize(m: Memory, root: nat, sz0: nat, n: int, ghost t: Tree, ghost us: seq<nat>, ghost tf: nat,
      ghost tr: nat)
      returns (ok: bool, sz: nat, ghost t': Tree, ghost us': seq<nat>)
    requires m.Valid() && |m.mem| <= RAM_PAGES && |us| <= RAM_PAGES && Space(m.mem, t, us, tf, tr)
      && Used(t, us) !! Elems(m.free) && t.root == root
    requires sz0 <= MAXVA && |us| == Pages(sz0) && -0x8000_0000 <= n < 0x8000_0000
    modifies m`mem, m`freelist, m`free
    ensures m.Valid() && Space(m.mem, t', us', tf, tr) && t'.root == root && (us' <= us || us <= us')
    ensures Moved(old(m.mem), old(m.free), Used(t, us), m.mem, m.free, Used(t', us'))
    ensures forall q :: q in us && q in us' ==> q in old(m.mem) && q in m.mem && m.mem[q] == old(m.mem)[q]
    ensures ok ==> sz == Resized(sz0, n) && sz <= MAXVA && |us'| == Pages(sz) && ZerosFrom(m.mem, us', |us|)
    ensures !ok ==> us' == us
    ensures !ok <==> n > 0 && |old(m.free)| < Cost(t, |us|, MorePages(sz0, sz0 + n))
    ensures KeptEntries(old(m.mem), t, |us|, m.mem, t', |us'|)
  {
    hide Space, Used, Moved, Threaded, NoDup, Pages, NewSize, Resized, ZerosFrom, Cost, MorePages, Paved, KeptEntries,
      NewEntries;
    Sizes(sz0, n);
    StillUsable(m.mem, t, us, tf, tr);
    StillThere(m.mem, t, us, m.free, tf, tr);
    NoZeros(m.mem, us, |us|);
    sz := sz0 % U32;
    ok, t', us' := true, t, us;
    if n > 0 {
      ok, sz, t', us' := GrowSpace(m, root, sz, NewSize(sz, n), t, us, tf, tr);
      NewUsable(old(m.mem), t, |us|, m.mem, t', us');
    } else if n < 0 {
      sz, us' := ShrinkSpace(m, root, sz, NewSize(sz, n), t, us, tf, tr);
      NoZeros(m.mem, us', |us|);
    }
  }

  // ------------------------------------------------- a process's memory as a whole

  lemma KfreeMoved(mem: Ram, free: seq<nat>, pa: nat, mem': Ram)
    requires pa in mem && mem'.Keys == mem.Keys && forall q :: q in mem && q != pa ==> mem'[q] == mem[q]
    ensures Moved(mem, free, {pa}, mem', [pa] + free, {})
  {
    forall q ensures q in Elems([pa] + free) <==> q == pa || q in free {}
  }

  lemma KallocMoved(mem: Ram, free: seq<nat>, pa: nat, mem': Ram)
    requires pa in mem && pa !in free && mem'.Keys == mem.Keys && forall q :: q in mem && q != pa ==> mem'[q] == mem[q]
    ensures Moved(mem, [pa] + free, {}, mem', free, {pa})
  {
    forall q ensures q in Elems([pa] + free) <==> q == pa || q in free {}
  }

  /** The memory work of freeproc(). */
  method Release(m: Memory, p: Proc, ghost s: Img, ghost trampoline: nat)
    requires m.Valid() && SlotOk(m.mem, p, s, trampoline) && Owned(p, s) !! Elems(m.free)
    modifies m`mem, m`freelist, m`free
    ensures m.Valid() && Moved(old(m.mem), old(m.free), Owned(p, s), m.mem, m.free, {})
  {
    hide Space, Used, Moved, Threaded, NoDup, Pages;
    ghost var u := if p.pagetable == 0 then {} else Used(s.t, s.us);
    NotMovedAny(m.mem, m.free, Owned(p, s));
    if p.trapframe != 0 {
      assert p.trapframe in Owned(p, s) && p.trapframe !in Elems(m.free);
      var ok := m.Kfree(p.trapframe);
      KfreeMoved(old(m.mem), old(m.free), p.trapframe, m.mem);
      assert u !! Elems(old(m.free)) + {p.trapframe};
      MovedBeside(old(m.mem), old(m.free), {p.trapframe}, m.mem, m.free, {}, u);
      assert Owned(p, s) == {p.trapframe} + u && {} + u == u;
    }
    assert p.trapframe == 0 ==> Owned(p, s) == u;
    assert Moved(old(m.mem), old(m.free), Owned(p, s), m.mem, m.free, u);
    if p.pagetable != 0 {
      ReleaseTable(m, p, s, trampoline, old(m.mem), old(m.free));
    }
  }

  lemma NotMovedAny(mem: Ram, free: seq<nat>, u: set<nat>)
    requires u !! Elems(free)
    ensures Moved(mem, free, u, mem, free, u)
  {}

  method ReleaseTable(m: Memory, p: Proc, ghost s: Img, ghost trampoline: nat, ghost mem0: Ram, ghost free0: seq<nat>)
    requires m.Valid() && p.pagetable != 0 && SlotOk(mem0, p, s, trampoline) && Owned(p, s) !! Elems(free0)
      && mem0.Keys == m.mem.Keys
    requires Moved(mem0, free0, Owned(p, s), m.mem, m.free, Used(s.t, s.us))
    requires forall q :: q in Used(s.t, s.us) && q in mem0 ==> m.mem[q] == mem0[q]
    modifies m`mem, m`freelist, m`free
    ensures m.Valid() && Moved(mem0, free0, Owned(p, s), m.mem, m.free, {})
  {
    hide Space, Used, Moved, Threaded, NoDup, Pages, Owned, TrapframeEntry, TrampolineEntry;
    forall q | q in mem0 && IsTreePage(s.t, q) ensures m.mem[q] == mem0[q] { UsedIs(s.t, s.us, q); }
    SpaceFrame(mem0, m.mem, s.t, s.us, TrapframeEntry(p.trapframe), TrampolineEntry(trampoline));
    MovedApart(mem0, free0, Owned(p, s), m.mem, m.free, Used(s.t, s.us));
    ghost var mem1, free1 := m.mem, m.free;
    ProcFreePagetable(m, p.pagetable, p.sz, s.t, s.us, p.trapframe, trampoline);
    MovedTrans(mem0, free0, Owned(p, s), mem1, free1, Used(s.t, s.us), m.mem, m.free, {});
  }

  /** The memory work of allocproc(): a trapframe page and an empty table, or nothing. */
  method Acquire(m: Memory, trampoline: nat) returns (p: Proc, ghost s: Img)
    requires m.Valid() && Aligned(trampoline)
    modifies m`mem, m`freelist, m`free
    ensures m.Valid() && SlotOk(m.mem, p, s, trampoline) && !p.inUse && p.sz == 0
    ensures Moved(old(m.mem), old(m.free), {}, m.mem, m.free, Owned(p, s))
    ensures if p.pagetable == 0 then p.trapframe == 0 else s.us == []
    ensures p.pagetable != 0 <==> |old(m.free)| >= 4
    ensures p.pagetable != 0 ==> |m.free| == |old(m.free)| - 4 && TopTables(s.t)
  {
    hide Space, Used, Moved, Threaded, NoDup, Pages, Aligned, TopTables;
    s := Img(Tree(0, map[], map[]), []);
    p := Proc(false, 0, 0, 0);
    NoPages();
    NotMoved(m.mem, m.free);
    NoneOwned(s);
    var pa := m.Kalloc();
    if pa == 0 {
      return;
    }
    assert [pa] + m.free == old(m.free) && pa in m.mem;
    FirstNotRest(pa, m.free);
    KallocMoved(old(m.mem), m.free, pa, m.mem);
    p, s := AcquireTable(m, pa, trampoline, old(m.mem), old(m.free));
  }

  lemma Acquired(mem0: Ram, free0: seq<nat>, mem1: Ram, free1: seq<nat>, pa: nat, mem2: Ram, free2: seq<nat>,
      u: set<nat>)
    requires Moved(mem0, free0, {}, mem1, free1, {pa}) && Moved(mem1, free1, {}, mem2, free2, u) && pa in mem1
    ensures Moved(mem0, free0, {}, mem2, free2, {pa} + u) && pa !in u && pa !in free2 && pa in mem2
  {
    MovedBeside(mem1, free1, {}, mem2, free2, u, {pa});
    assert {} + {pa} == {pa} && u + {pa} == {pa} + u;
    MovedTrans(mem0, free0, {}, mem1, free1, {pa}, mem2, free2, {pa} + u);
    assert pa in {pa} + u && pa !in Elems(free2);
  }

  method AcquireTable(m: Memory, pa: nat, trampoline: nat, ghost mem0: Ram, ghost free0: seq<nat>)
      returns (p: Proc, ghost s: Img)
    requires m.Valid() && Aligned(trampoline) && Aligned(pa) && pa in m.mem && pa != 0
      && Moved(mem0, free0, {}, m.mem, m.free, {pa})
    modifies m`mem, m`freelist, m`free
    ensures m.Valid() && SlotOk(m.mem, p, s, trampoline) && !p.inUse && p.sz == 0
    ensures Moved(mem0, free0, {}, m.mem, m.free, Owned(p, s))
    ensures if p.pagetable == 0 then p.trapframe == 0 else s.us == []
    ensures p.pagetable != 0 <==> |old(m.free)| >= 3
    ensures p.pagetable != 0 ==> |m.free| == |old(m.free)| - 3 && TopTables(s.t)
  {
    hide Space, Used, Moved, Threaded, NoDup, Pages, Aligned, TrapframeEntry, TrampolineEntry, TopTables;
    NoPages();
    ghost var mem1, free1 := m.mem, m.free;
    var root;
    ghost var t;
    root, t := ProcPagetable(m, pa, trampoline);
    s := Img(t, []);
    if root == 0 {
      Acquired(mem0, free0, mem1, free1, pa, m.mem, m.free, {});
      assert {pa} + {} == {pa};
      p := Proc(false, 0, 0, 0);
      ghost var mem2, free2 := m.mem, m.free;
      var ok := m.Kfree(pa);
      KfreeMoved(mem2, free2, pa, m.mem);
      MovedTrans(mem0, free0, {}, mem2, free2, {pa}, m.mem, m.free, {});
      assert Owned(p, s) == {};
    } else {
      Acquired(mem0, free0, mem1, free1, pa, m.mem, m.free, Used(t, []));
      p := Proc(false, root, 0, pa);
      assert Owned(p, s) == {pa} + Used(t, []);
    }
  }

  // ------------------------------------------------------------------------ fork

  /** Same size, flags and contents, page by page. */
  ghost predicate SameImage(mem: Ram, t: Tree, us: seq<nat>, mem': Ram, t': Tree, us': seq<nat>)
  {
    && Resident(mem, t) && Resident(mem', t') && |us'| == |us|
    && forall v :: 0 <= v < |us| ==> SamePage(mem, t, v, us[v], mem', t', us'[v])
  }

  ghost predicate SamePage(mem: Ram, t: Tree, v: nat, p: nat, mem': Ram, t': Tree, p': nat)
    requires Resident(mem, t) && Resident(mem', t')
  {
    p in mem && p' in mem' && mem'[p'] == mem[p] && PteFlags(Entry(mem', t', v)) == PteFlags(Entry(mem, t, v))
  }

  lemma CopyReady(mem: Ram, t: Tree, us: seq<nat>, tf: nat, tr: nat, s: Tree, tf': nat, tr': nat, free: seq<nat>)
    requires Space(mem, t, us, tf, tr) && Space(mem, s, [], tf', tr') && Used(t, us) !! Elems(free) + Used(s, [])
    ensures Separate(mem, t, |us|, s, free)
  {
    hide Table, Entry, Used, Fresh, IsTreePage, Pa, NoDup, Resident;
    forall p | p in Used(t, us) ensures Fresh(s, p) && p !in free {
      UsedIs(s, [], p);
      assert p !in Elems(free) + Used(s, []);
    }
    forall p | IsTreePage(t, p) ensures Fresh(s, p) && p !in free { UsedIs(t, us, p); }
    forall w: nat | w < |us| && Entry(mem, t, w) != 0 ensures Pa(mem, t, w) in mem && Fresh(s, Pa(mem, t, w))
      && Pa(mem, t, w) !in free {
      MapsAt(mem, t, us, w);
      UsedIs(t, us, us[w]);
    }
  }

  lemma CopiedPage(mem: Ram, t: Tree, us: seq<nat>, free: seq<nat>, s: Tree, mem': Ram, s': Tree, free': seq<nat>,
      ls: seq<Leaf>, v: nat)
    requires UserPages(mem, t, us) && Grown(s, mem, free, s', mem', free', 0, ls) && Resident(mem, t)
      && Copies(mem, t, ls) && v < |ls| == |us|
    ensures Resident(mem', s') && SamePage(mem, t, v, us[v], mem', s', ls[v].pa)
  {
    hide Table, Entry, Balanced, Pte, IsV, IsLeaf, Aligned, UserPages, PtePa, PteFlags;
    TableResident(mem', s');
    MapsAt(mem, t, us, v);
    assert LeafThere(mem', ls[v]);
    PteRound(ls[v].pa, ls[v].perm);
    assert Entry(mem', s', v) == Pte(ls[v].pa, ls[v].perm);
  }

  lemma CopiedImage(mem: Ram, t: Tree, us: seq<nat>, free: seq<nat>, s: Tree, mem': Ram, s': Tree, free': seq<nat>,
      ls: seq<Leaf>)
    requires UserPages(mem, t, us) && Grown(s, mem, free, s', mem', free', 0, ls) && Resident(mem, t)
      && Copies(mem, t, ls) && |ls| == |us|
    ensures SameImage(mem, t, us, mem', s', Pas(ls))
  {
    TableResident(mem', s');
    assert Resident(mem', s');
    hide Grown, UserPages, Resident, Copies, SamePage;
    forall v | 0 <= v < |us| ensures SamePage(mem, t, v, us[v], mem', s', Pas(ls)[v]) {
      CopiedPage(mem, t, us, free, s, mem', s', free', ls, v);
    }
  }

  /** uvmcopy() from one whole space into an empty one: never panics. */
  method CopySpace(m: Memory, oldRoot: nat, newRoot: nat, sz: nat, ghost t: Tree, ghost us: seq<nat>, ghost tf: nat,
      ghost tr: nat, ghost s: Tree, ghost tf': nat, ghost tr': nat)
      returns (ok: bool, ghost s': Tree, ghost us': seq<nat>)
    requires m.Valid() && |m.mem| <= RAM_PAGES && Space(m.mem, t, us, tf, tr) && Space(m.mem, s, [], tf', tr')
      && t.root == oldRoot && s.root == newRoot
    requires Used(t, us) !! Elems(m.free) + Used(s, []) && Used(s, []) !! Elems(m.free) && sz <= MAXVA
      && |us| == Pages(sz)
    modifies m`mem, m`freelist, m`free
    ensures m.Valid() && Space(m.mem, s', us', tf', tr') && s'.root == newRoot
    ensures Moved(old(m.mem), old(m.free), Used(s, []), m.mem, m.free, Used(s', us'))
    ensures if ok then SameImage(old(m.mem), t, us, m.mem, s', us') else us' == []
    ensures ok <==> Cost(s, 0, |us|) <= |old(m.free)|
  {
    hide Threaded, NoDup, Space, Used, Moved, Pages, Grown, Apart, Table, RoomToGrow, Separate, SameImage, Copies,
      SameMap, Resident, Pas, Entry, Cost, Paved;
    SpaceApart(m.mem, s, [], m.free, tf', tr');
    CopyReady(m.mem, t, us, tf, tr, s, tf', tr', m.free);
    FreeInMem(m.mem, m.freelist, m.free);
    RoomFor(m.mem, s, [], m.free, tf', tr');
    SpaceParts(m.mem, t, us, tf, tr);
    var r;
    ghost var ls;
    r, s', ls := Copy(m, oldRoot, newRoot, sz, t, s);
    ghost var got := if r.CopyFailed? then [] else ls;
    GrownSize(old(m.mem), s, old(m.free), m.mem, s', m.free, 0, got);
    PasSize(got);
    GrownProcSpace(old(m.mem), s, [], old(m.free), m.mem, s', m.free, got, tf', tr');
    us' := [] + Pas(got);
    assert us' == Pas(got);
    if r.Copied? {
      CopiedImage(old(m.mem), t, us, old(m.free), s, m.mem, s', m.free, ls);
    }
    ok := r.Copied?;
  }

  /** The pages, tables included, of a fresh process of n pages: they hang below one entry of
      the root, which the trampoline does not use. */
  function PageCost(n: nat): (k: nat) { n + (n + 511) / 512 + if n > 0 then 1 else 0 }

  lemma {:induction false} FreshCost(t: Tree, n: nat)
    requires TopTables(t) && n <= 2 * RAM_PAGES
    ensures Cost(t, 0, n) == PageCost(n)
    decreases n
  {
    if n > 0 {
      FreshCost(t, n - 1);
      FreshLacking(t, n - 1);
      hide LackingAt, TopTables;
      assert (n + 511) / 512 == (n - 1 + 511) / 512 + if (n - 1) % 512 == 0 then 1 else 0;
    }
  }

  lemma FreshLacking(t: Tree, i: nat)
    requires TopTables(t) && i < 2 * RAM_PAGES
    ensures LackingAt(t, 0, i) == (if i == 0 then 1 else 0) + (if i % 512 == 0 then 1 else 0)
  {
    assert i / 512 < 512 && D2(i) == 0;
    if i > 0 {
      assert D2(i - 1) == 0;
      assert D1(i) == i / 512 && D1(i - 1) == (i - 1) / 512;
    }
  }

  lemma SpaceParts(mem: Ram, t: Tree, us: seq<nat>, tf: nat, tr: nat)
    requires Space(mem, t, us, tf, tr)
    ensures Table(mem, t) && UserPages(mem, t, us) && Resident(mem, t)
      && forall v: nat :: v < |us| ==> Entry(mem, t, v) != 0
  {
    hide Table, Entry;
    forall v: nat | v < |us| ensures Entry(mem, t, v) != 0 { MapsAt(mem, t, us, v); }
  }

  /** An image depends on the pages of its two spaces only. */
  lemma SameImageFrame(mem: Ram, t: Tree, us: seq<nat>, mem': Ram, t': Tree, us': seq<nat>, mem0: Ram, mem1: Ram)
    requires SameImage(mem, t, us, mem', t', us') && Table(mem, t) && Table(mem', t') && mem0.Keys == mem.Keys
      && mem1.Keys == mem'.Keys
    requires forall q :: q in mem && q in Used(t, us) ==> mem0[q] == mem[q]
    requires forall q :: q in mem' && q in Used(t', us') ==> mem1[q] == mem'[q]
    ensures SameImage(mem0, t, us, mem1, t', us')
  {
    forall q | IsTreePage(t, q) || q in us ensures q in Used(t, us) { UsedIs(t, us, q); }
    forall q | IsTreePage(t', q) || q in us' ensures q in Used(t', us') { UsedIs(t', us', q); }
    hide Used, Entry, IsTreePage, PteFlags, Table;
    OutsideTree(mem, mem0, t);
    OutsideTree(mem', mem1, t');
    TableResident(mem0, t);
    TableResident(mem1, t');
    forall v | 0 <= v < |us| ensures SamePage(mem0, t, v, us[v], mem1, t', us'[v]) {
      assert SamePage(mem, t, v, us[v], mem', t', us'[v]);
      assert us[v] in us && us'[v] in us';
      assert Entry(mem0, t, v) == Entry(mem, t, v) && Entry(mem1, t', v) == Entry(mem', t', v);
    }
  }

  /** Two processes have nothing in common. */
  lemma TwoSlots(mem: Ram, free: seq<nat>, ps: seq<Proc>, ss: seq<Img>, kern: set<nat>, trampoline: nat, i: nat, j: nat)
    requires Inv(mem, free, ps, ss, kern, trampoline) && i < |ps| && j < |ps| && i != j && ps[i].pagetable != 0
      && ps[j].pagetable != 0
    ensures |ss| == |ps| && Used(ss[i].t, ss[i].us) !! Elems(free) + Used(ss[j].t, ss[j].us)
    ensures ps[i].trapframe != ps[j].trapframe && ps[j].trapframe !in Used(ss[i].t, ss[i].us)
  {
    OthersApart(mem, free, ps, ss, kern, trampoline, j, i);
    SlotFacts(mem, free, ps, ss, kern, trampoline, i);
    SlotFacts(mem, free, ps, ss, kern, trampoline, j);
    hide Used, Inv, Space;
    assert ps[i].trapframe in Owned(ps[i], ss[i]) && ps[j].trapframe in Owned(ps[j], ss[j]);
    assert Used(ss[i].t, ss[i].us) <= Owned(ps[i], ss[i]) && Used(ss[j].t, ss[j].us) <= Owned(ps[j], ss[j]);
  }

  lemma FrameSlot(mem: Ram, p: Proc, s: Img, trampoline: nat, data: Page)
    requires SlotOk(mem, p, s, trampoline) && p.pagetable != 0
    ensures p.trapframe in mem && SlotOk(mem[p.trapframe := data], p, s, trampoline) && p.trapframe in Owned(p, s)
  {
    hide Space, Used, Pages;
    var mem' := mem[p.trapframe := data];
    forall q | q in mem && IsTreePage(s.t, q) ensures mem'[q] == mem[q] { UsedIs(s.t, s.us, q); }
    hide IsTreePage;
    SpaceFrame(mem, mem', s.t, s.us, TrapframeEntry(p.trapframe), TrampolineEntry(trampoline));
  }

  lemma StoreMoved(mem: Ram, free: seq<nat>, u: set<nat>, q: nat, data: Page)
    requires u !! Elems(free) && q in u && q in mem
    ensures Moved(mem, free, u, mem[q := data], free, u)
  {}

  /** A store into process i's trapframe page. */
  lemma FrameStored(mem: Ram, free: seq<nat>, ps: seq<Proc>, ss: seq<Img>, kern: set<nat>, trampoline: nat, i: nat,
      data: Page)
    requires Inv(mem, free, ps, ss, kern, trampoline) && i < |ps| && ps[i].pagetable != 0
    ensures |ss| == |ps| && ps[i].trapframe in mem && Inv(mem[ps[i].trapframe := data], free, ps, ss, kern, trampoline)
    ensures Moved(mem, free, Owned(ps[i], ss[i]), mem[ps[i].trapframe := data], free, Owned(ps[i], ss[i]))
  {
    hide Space, Used, Inv, SlotOk, Owned, Moved;
    InvSlot(mem, free, ps, ss, kern, trampoline, i);
    FrameSlot(mem, ps[i], ss[i], trampoline, data);
    StoreMoved(mem, free, Owned(ps[i], ss[i]), ps[i].trapframe, data);
    InvStep(mem, free, ps, ss, kern, trampoline, i, mem[ps[i].trapframe := data], free, ps[i], ss[i]);
    assert ps[i := ps[i]] == ps && ss[i := ss[i]] == ss;
  }

  /** Changing the state of a process moves no memory. */
  lemma MarkUsed(mem: Ram, free: seq<nat>, ps: seq<Proc>, ss: seq<Img>, kern: set<nat>, trampoline: nat, i: nat,
      inUse: bool)
    requires Inv(mem, free, ps, ss, kern, trampoline) && i < |ps|
    ensures |ss| == |ps| && Inv(mem, free, ps[i := ps[i].(inUse := inUse)], ss, kern, trampoline)
    ensures Owned(ps[i].(inUse := inUse), ss[i]) == Owned(ps[i], ss[i])
  {
    InvSlot(mem, free, ps, ss, kern, trampoline, i);
    hide Inv, Space, Used;
    var p' := ps[i].(inUse := inUse);
    NotMovedAny(mem, free, Owned(ps[i], ss[i]));
    InvStep(mem, free, ps, ss, kern, trampoline, i, mem, free, p', ss[i]);
    assert ss[i := ss[i]] == ss;
  }

  /** The child's image is the parent's before the call. */
  lemma ForkImage(mem0: Ram, free0: seq<nat>, ps0: seq<Proc>, ss0: seq<Img>, kern: set<nat>, trampoline: nat, i: nat,
      mem1: Ram, free1: seq<nat>, o1: set<nat>, mem2: Ram, free2: seq<nat>, ps: seq<Proc>, ss: seq<Img>, j: nat,
      mem3: Ram)
    requires Inv(mem0, free0, ps0, ss0, kern, trampoline) && i < |ps0| && ps0[i].pagetable != 0
      && Moved(mem0, free0, {}, mem1, free1, o1)
    requires Inv(mem2, free2, ps, ss, kern, trampoline) && j < |ps| && ps[j].pagetable != 0
    requires |ss0| == |ps0| && |ss| == |ps| && SameImage(mem1, ss0[i].t, ss0[i].us, mem2, ss[j].t, ss[j].us)
    requires mem3.Keys == mem2.Keys && forall q :: q in mem2 && q != ps[j].trapframe ==> mem3[q] == mem2[q]
    ensures SameImage(mem0, ss0[i].t, ss0[i].us, mem3, ss[j].t, ss[j].us)
  {
    hide Used, Inv, Space, SameImage, Table, Moved, Owned;
    SlotFacts(mem0, free0, ps0, ss0, kern, trampoline, i);
    SlotFacts(mem2, free2, ps, ss, kern, trampoline, j);
    var u := Used(ss0[i].t, ss0[i].us);
    MovedBeside(mem0, free0, {}, mem1, free1, o1, u);
    MovedApart(mem0, free0, {}, mem1, free1, o1);
    forall q | q in mem0 && IsTreePage(ss0[i].t, q) ensures mem1[q] == mem0[q] { UsedIs(ss0[i].t, ss0[i].us, q); }
    SpaceFrame(mem0, mem1, ss0[i].t, ss0[i].us, TrapframeEntry(ps0[i].trapframe), TrampolineEntry(trampoline));
    SpaceTable(mem1, ss0[i].t, ss0[i].us, TrapframeEntry(ps0[i].trapframe), TrampolineEntry(trampoline));
    SpaceTable(mem2, ss[j].t, ss[j].us, TrapframeEntry(ps[j].trapframe), TrampolineEntry(trampoline));
    SameImageFrame(mem1, ss0[i].t, ss0[i].us, mem2, ss[j].t, ss[j].us, mem0, mem3);
  }

  lemma SpaceTable(mem: Ram, t: Tree, us: seq<nat>, tf: nat, tr: nat)
    requires Space(mem, t, us, tf, tr)
    ensures Table(mem, t)
  {}

  lemma FrameWords(parent: Page, child: Page)
    ensures var f := parent[..TRAPFRAME_WORDS][A0 := 0] + child[TRAPFRAME_WORDS..];
      |f| == ENTRIES && f[..TRAPFRAME_WORDS] == parent[..TRAPFRAME_WORDS][A0 := 0]
  {}

  /** The child's registers are the parent's but for a0, which is 0. */
  ghost predicate ForkFrame(mem: Ram, parent: nat, child: nat)
  {
    parent in mem && child in mem && mem[child][..TRAPFRAME_WORDS] == mem[parent][..TRAPFRAME_WORDS][A0 := 0]
  }

  class Kernel {
    const m: Memory
    const trampoline: nat
    var proc: seq<Proc>
    ghost var img: seq<Img>
    ghost var kern: set<nat>

    ghost predicate Valid()
      reads this, m
    {
      m.Valid() && Aligned(trampoline) && Inv(m.mem, m.free, proc, img, kern, trampoline)
    }

    /** Between system calls an unused slot holds nothing. */
    ghost predicate AtRest()
      reads this
    {
      forall i :: 0 <= i < |proc| && !proc[i].inUse ==> proc[i] == Proc(false, 0, 0, 0)
    }

    ghost predicate Live(i: nat)
      reads this
    {
      i < |proc| && |img| == |proc| && proc[i].pagetable != 0
    }

    /** procinit(), with what the kernel took at boot off the free list. */
    constructor (m: Memory, trampoline: nat, nproc: nat)
      requires m.Valid() && Aligned(trampoline) && |m.mem| <= RAM_PAGES
      ensures Valid() && AtRest() && this.m == m && |proc| == nproc && (forall i :: 0 <= i < nproc ==> !proc[i].inUse)
    {
      this.m, this.trampoline := m, trampoline;
      proc := seq(nproc, i => Proc(false, 0, 0, 0));
      img := seq(nproc, i => Img(Tree(0, map[], map[]), []));
      kern := m.mem.Keys - Elems(m.free);
      new;
      FreeInMem(m.mem, m.freelist, m.free);
    }

    /** growproc(n) of process i. */
    method GrowProc(i: nat, n: int) returns (r: int)
      requires Valid() && Live(i) && -0x8000_0000 <= n < 0x8000_0000
      modifies m, `proc, `img
      ensures Valid() && Live(i)
      ensures proc == old(proc)[i := old(proc[i]).(sz := proc[i].sz)] && img == old(img)[i := img[i]]
      ensures Moved(old(m.mem), old(m.free), old(Owned(proc[i], img[i])), m.mem, m.free, Owned(proc[i], img[i]))
      ensures r == 0 || r == -1
      ensures r == -1 <==>
        n > 0 && |old(m.free)| < Cost(old(img[i].t), |old(img[i].us)|, MorePages(old(proc[i].sz), old(proc[i].sz) + n))
      ensures proc[i].sz == if r == 0 then Resized(old(proc[i].sz), n) else old(proc[i].sz)
      ensures img[i].us <= old(img[i].us) || old(img[i].us) <= img[i].us
      ensures forall q ::
        q in img[i].us && q in old(img[i].us) ==> q in old(m.mem) && q in m.mem && m.mem[q] == old(m.mem)[q]
      ensures ZerosFrom(m.mem, img[i].us, |old(img[i].us)|)
      ensures KeptEntries(old(m.mem), old(img[i].t), |old(img[i].us)|, m.mem, img[i].t, |img[i].us|)
    {
      hide Space, Used, Moved, Inv, Owned, SlotOk, Threaded, NoDup, Pages, Resized, ZerosFrom, Cost, MorePages,
        KeptEntries;
      SlotFacts(m.mem, m.free, proc, img, kern, trampoline, i);
      SlotSize(m.mem, m.freelist, m.free, proc, img, kern, trampoline, i);
      ghost var s := img[i];
      var ok, sz;
      ghost var t', us';
      ok, sz, t', us' := Resize(m, proc[i].pagetable, proc[i].sz, n, s.t, s.us, TrapframeEntry(proc[i].trapframe),
        TrampolineEntry(trampoline));
      if !ok {
        NoZeros(m.mem, us', |s.us|);
      }
      var p' := if ok then proc[i].(sz := sz) else proc[i];
      Resettled(old(m.mem), old(m.free), proc, img, kern, trampoline, i, m.mem, m.free, p', Img(t', us'));
      proc, img := proc[i := p'], img[i := Img(t', us')];
      r := if ok then 0 else -1;
    }

    method FindUnused() returns (i: nat)
      ensures i <= |proc| && (forall k :: 0 <= k < i ==> proc[k].inUse) && (i < |proc| ==> !proc[i].inUse)
    {
      i := 0;
      while i < |proc| && proc[i].inUse
        invariant i <= |proc| && forall k :: 0 <= k < i ==> proc[k].inUse
      {
        i := i + 1;
      }
    }

    /** allocproc(): an unused slot with an empty space, or -1 and nothing changed. It takes
        a slot and four pages. */
    method AllocProc() returns (j: int)
      requires Valid() && AtRest()
      modifies m, `proc, `img
      ensures Valid() && |proc| == |old(proc)| == |img| == |old(img)| && -1 <= j < |proc|
      ensures j == -1 ==> proc == old(proc) && img == old(img) && Moved(old(m.mem), old(m.free), {}, m.mem, m.free, {})
      ensures j >= 0 ==>
        !old(proc)[j].inUse && proc == old(proc)[j := proc[j]] && img == old(img)[j := img[j]] && Live(j)
      ensures j >= 0 ==> proc[j].sz == 0 && img[j].us == [] && !proc[j].inUse
      ensures j >= 0 ==> Moved(old(m.mem), old(m.free), {}, m.mem, m.free, Owned(proc[j], img[j]))
      ensures j == -1 <==> (forall k :: 0 <= k < |old(proc)| ==> old(proc)[k].inUse) || |old(m.free)| < 4
      ensures j >= 0 ==> |m.free| == |old(m.free)| - 4 && TopTables(img[j].t)
    {
      hide Space, Used, Moved, Inv, Owned, SlotOk, Threaded, NoDup, Pages, TopTables;
      NotMoved(m.mem, m.free);
      InvSizes(m.mem, m.free, proc, img, kern, trampoline);
      var i := FindUnused();
      if i == |proc| {
        return -1;
      }
      var p;
      ghost var s;
      p, s := Acquire(m, trampoline);
      NoneOwned(img[i]);
      if p.pagetable == 0 {
        NoneOwned(s);
        assert p == proc[i];
        InvStepNone(old(m.mem), old(m.free), proc, img, kern, trampoline, i, m.mem, m.free);
        return -1;
      }
      InvStep(old(m.mem), old(m.free), proc, img, kern, trampoline, i, m.mem, m.free, p, s);
      proc, img := proc[i := p], img[i := s];
      j := i;
    }

    /** freeproc(): the slot is empty and its pages are free. */
    method FreeProc(i: nat)
      requires Valid() && i < |proc|
      modifies m, `proc
      ensures Valid() && proc == old(proc)[i := Proc(false, 0, 0, 0)]
      ensures |img| == |old(proc)| && Moved(old(m.mem), old(m.free), old(Owned(proc[i], img[i])), m.mem, m.free, {})
    {
      hide Space, Used, Moved, Inv, Owned, Threaded, NoDup, Pages;
      InvSizes(m.mem, m.free, proc, img, kern, trampoline);
      InvSlot(m.mem, m.free, proc, img, kern, trampoline, i);
      Release(m, proc[i], img[i], trampoline);
      NoneOwned(img[i]);
      InvStep(old(m.mem), old(m.free), proc, img, kern, trampoline, i, m.mem, m.free, Proc(false, 0, 0, 0), img[i]);
      assert img[i := img[i]] == img;
      proc := proc[i := Proc(false, 0, 0, 0)];
    }

    /** uvmcopy() from process i into the empty process j. */
    method CopyTo(i: nat, j: nat) returns (ok: bool)
      requires Valid() && Live(i) && Live(j) && i != j && proc[j].sz == 0 && img[j].us == []
      modifies m, `proc, `img
      ensures Valid() && |proc| == |old(proc)| == |img| == |old(img)|
      ensures proc == old(proc)[j := old(proc)[j].(sz := if ok then old(proc)[i].sz else 0)]
        && img == old(img)[j := img[j]]
      ensures Moved(old(m.mem), old(m.free), old(Owned(proc[j], img[j])), m.mem, m.free, Owned(proc[j], img[j]))
      ensures ok ==> SameImage(old(m.mem), img[i].t, img[i].us, m.mem, img[j].t, img[j].us)
      ensures ok <==> Cost(old(img)[j].t, 0, |old(img)[i].us|) <= |old(m.free)|
      ensures |old(img)[i].us| == Pages(old(proc)[i].sz) <= RAM_PAGES
    {
      hide Space, Used, Moved, Inv, Owned, SlotOk, Threaded, NoDup, Pages, SameImage, TrapframeEntry, TrampolineEntry,
        Cost;
      SlotFacts(m.mem, m.free, proc, img, kern, trampoline, i);
      SlotFacts(m.mem, m.free, proc, img, kern, trampoline, j);
      SlotSize(m.mem, m.freelist, m.free, proc, img, kern, trampoline, i);
      TwoSlots(m.mem, m.free, proc, img, kern, trampoline, i, j);
      NoPages();
      ghost var s', us';
      ok, s', us' := CopySpace(m, proc[i].pagetable, proc[j].pagetable, proc[i].sz, img[i].t, img[i].us,
        TrapframeEntry(proc[i].trapframe), TrampolineEntry(trampoline), img[j].t, TrapframeEntry(proc[j].trapframe),
          TrampolineEntry(trampoline));
      ImageSize(old(m.mem), img[i].t, img[i].us, m.mem, s', us');
      var p' := proc[j].(sz := if ok then proc[i].sz else 0);
      Resettled(old(m.mem), old(m.free), proc, img, kern, trampoline, j, m.mem, m.free, p', Img(s', us'));
      proc, img := proc[j := p'], img[j := Img(s', us')];
    }

    /** The child's registers. */
    method CopyFrame(i: nat, j: nat)
      requires Valid() && Live(i) && Live(j) && i != j
      modifies m`mem
      ensures Valid() && ForkFrame(m.mem, proc[i].trapframe, proc[j].trapframe)
      ensures Moved(old(m.mem), m.free, Owned(proc[j], img[j]), m.mem, m.free, Owned(proc[j], img[j]))
      ensures m.mem.Keys == old(m.mem).Keys && forall q ::
        q in m.mem && q != proc[j].trapframe ==> m.mem[q] == old(m.mem)[q]
    {
      hide Space, Used, Moved, Inv, Owned, SlotOk, Threaded, NoDup, Pages;
      SlotFacts(m.mem, m.free, proc, img, kern, trampoline, i);
      SlotFacts(m.mem, m.free, proc, img, kern, trampoline, j);
      TwoSlots(m.mem, m.free, proc, img, kern, trampoline, i, j);
      var parent, child := m.mem[proc[i].trapframe], m.mem[proc[j].trapframe];
      FrameWords(parent, child);
      var frame := parent[..TRAPFRAME_WORDS][A0 := 0] + child[TRAPFRAME_WORDS..];
      FrameStored(m.mem, m.free, proc, img, kern, trampoline, j, frame);
      FillPage(m, proc[j].trapframe, frame);
    }

    /** fork() of process i: a child with the same memory and registers, or -1 and every
        page where it was. It takes a slot, four pages, and those of the copy. */
    method Fork(i: nat) returns (j: int)
      requires Valid() && AtRest() && Live(i) && proc[i].inUse
      modifies m, `proc, `img
      ensures Valid() && AtRest() && |proc| == |old(proc)| == |img| == |old(img)| && -1 <= j < |proc|
      ensures forall k :: 0 <= k < |proc| && k != j && proc[k].pagetable != 0 ==> img[k] == old(img)[k]
      ensures j == -1 ==> proc == old(proc) && Moved(old(m.mem), old(m.free), {}, m.mem, m.free, {})
      ensures j >= 0 ==> !old(proc)[j].inUse && j != i && proc == old(proc)[j := proc[j]] && proc[j].inUse
      ensures j >= 0 ==> Moved(old(m.mem), old(m.free), {}, m.mem, m.free, Owned(proc[j], img[j]))
      ensures j >= 0 ==>
        proc[j].sz == proc[i].sz && SameImage(old(m.mem), img[i].t, img[i].us, m.mem, img[j].t, img[j].us)
      ensures j >= 0 ==> ForkFrame(m.mem, proc[i].trapframe, proc[j].trapframe)
      ensures j == -1 <==>
        (forall k :: 0 <= k < |old(proc)| ==> old(proc)[k].inUse)
        || |old(m.free)| < 4 + PageCost(Pages(old(proc)[i].sz))
    {
      hide Space, Used, Moved, Inv, Owned, SlotOk, Threaded, NoDup, Pages, SameImage, ForkFrame, Cost, TopTables;
      InvSizes(m.mem, m.free, proc, img, kern, trampoline);
      j := AllocProc();
      if j == -1 {
        return;
      }
      ghost var mem1, free1, o1 := m.mem, m.free, Owned(proc[j], img[j]);
      ghost var child := img[j].t;
      var ok := CopyTo(i, j);
      FreshCost(child, Pages(old(proc)[i].sz));
      ghost var mem2, free2, o2 := m.mem, m.free, Owned(proc[j], img[j]);
      MovedTrans(old(m.mem), old(m.free), {}, mem1, free1, o1, mem2, free2, o2);
      if !ok {
        FreeProc(j);
        MovedTrans(old(m.mem), old(m.free), {}, mem2, free2, o2, m.mem, m.free, {});
        assert proc == old(proc);
        return -1;
      }
      CopyFrame(i, j);
      MovedTrans(old(m.mem), old(m.free), {}, mem2, free2, o2, m.mem, m.free, o2);
      ForkImage(old(m.mem), old(m.free), old(proc), old(img), kern, trampoline, i, mem1, free1, o1, mem2, free2,
        proc, img, j, m.mem);
      MarkUsed(m.mem, m.free, proc, img, kern, trampoline, j, true);
      proc := proc[j := proc[j].(inUse := true)];
    }
  }

  lemma ImageSize(mem: Ram, t: Tree, us: seq<nat>, mem': Ram, t': Tree, us': seq<nat>)
    ensures SameImage(mem, t, us, mem', t', us') ==> |us'| == |us|
  {}

  lemma InvSizes(mem: Ram, free: seq<nat>, ps: seq<Proc>, ss: seq<Img>, kern: set<nat>, trampoline: nat)
    requires Inv(mem, free, ps, ss, kern, trampoline)
    ensures |ss| == |ps|
  {}

  lemma InvSlot(mem: Ram, free: seq<nat>, ps: seq<Proc>, ss: seq<Img>, kern: set<nat>, trampoline: nat, i: nat)
    requires Inv(mem, free, ps, ss, kern, trampoline) && i < |ps|
    ensures |ss| == |ps| && SlotOk(mem, ps[i], ss[i], trampoline) && Owned(ps[i], ss[i]) !! Elems(free)
  {}

  lemma NoneOwned(s: Img)
    ensures Owned(Proc(false, 0, 0, 0), s) == {}
  {}

  lemma InvStepNone(mem: Ram, free: seq<nat>, ps: seq<Proc>, ss: seq<Img>, kern: set<nat>, trampoline: nat, i: nat,
      mem': Ram, free': seq<nat>)
    requires Inv(mem, free, ps, ss, kern, trampoline) && i < |ps| && ps[i] == Proc(false, 0, 0, 0)
      && Moved(mem, free, {}, mem', free', {})
    ensures Inv(mem', free', ps, ss, kern, trampoline)
  {
    InvSizes(mem, free, ps, ss, kern, trampoline);
    NoneOwned(ss[i]);
    InvStep(mem, free, ps, ss, kern, trampoline, i, mem', free', ps[i], ss[i]);
    assert ps[i := ps[i]] == ps && ss[i := ss[i]] == ss;
  }
}
