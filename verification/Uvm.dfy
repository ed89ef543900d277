/** User address spaces of kernel/vm.c: uvmunmap, uvmalloc and uvmdealloc, with every
    out-of-memory path.

    Pages are conserved: each operation moves pages between the free list, the table
    and the mapped memory, gives back what it took when it fails, and fails exactly when
    the pages it needs are not there. */
module Uvm {
  import opened Kalloc
  import opened PageTable

  /** The user permissions given to fresh memory: W, X, R and U. */
  const USER_PERM: nat := PTE_W + PTE_X + PTE_R + PTE_U

  /** One page, mapped by mappages(a, PGSIZE, ...). */
  method MapPage(m: Memory, root: nat, v: nat, pa: nat, perm: nat, ghost t: Tree) returns (r: MapResult, ghost t': Tree)
    requires m.Valid() && Table(m.mem, t) && Apart(t, m.free) && t.root == root
    requires PageAddr(v) + PGSIZE < U64 && Aligned(pa) && perm < FLAGS && IsLeaf(perm)
    modifies m`mem, m`freelist, m`free
    ensures m.Valid()
    ensures r.Mapped? ==> PageAddr(v) < MAXVA && Entry(old(m.mem), t, v) == 0
    ensures r.Mapped? ==> PageTable.Stored(t, old(m.mem), old(m.free), t', m.mem, m.free, v, Pte(pa, WithV(perm)))
    ensures !r.Mapped? ==> Walk2(t, old(m.mem), old(m.free), t', m.mem, m.free)
    ensures r.NoMemory? ==> m.free == [] && |old(m.free)| < LackingAt(t, v, 0)
    ensures r.Mapped? ==> Paved(t, v, 1, t') && |m.free| == |old(m.free)| - LackingAt(t, v, 0)
    ensures r.MapPanic? ==> PageAddr(v) >= MAXVA || Entry(old(m.mem), t, v) != 0
  {
    hide Table, Apart, Threaded, NoDup, Run, Aligned, RoundDown, LastPage, Stored, Walk2, Vpn, PageAddr, IsLeaf,
      WithV, Pte, Paved, LackingAt;
    OnePage(v);
    ghost var n;
    r, t', n := MapPages(m, root, PageAddr(v), PGSIZE, pa, perm, t);
    RunOne(t, old(m.mem), old(m.free), t', m.mem, m.free, v, n, pa, perm);
  }

  lemma OnePage(v: nat)
    requires PageAddr(v) + PGSIZE < U64
    ensures Vpn(PageAddr(v)) == v && Vpn(LastPage(PageAddr(v), PGSIZE)) == v && PageAddr(0) == 0
  {
    assert (v * 4096 + 4095) / 4096 == v;
  }

  lemma RunOne(t: Tree, mem: Ram, free: seq<nat>, t': Tree, mem': Ram, free': seq<nat>, v: nat, n: nat, pa: nat,
      perm: nat)
    requires Run(t, mem, free, t', mem', free', v, n, pa, perm)
    ensures Resident(mem, t)
    ensures n == 1 ==> Entry(mem, t, v) == 0 && PageTable.Stored(t, mem, free, t', mem', free', v, Pte(pa, WithV(perm)))
    ensures n == 0 ==> Walk2(t, mem, free, t', mem', free')
  {}

  // ----------------------------------------------------------------- uvmunmap

  /** The physical page an entry maps. */
  ghost function Pa(mem: Ram, t: Tree, v: nat): (p: nat)
    requires Resident(mem, t)
  {
    PtePa(Entry(mem, t, v))
  }

  /** uvmunmap() can take page v out without a panic. */
  ghost predicate Unmappable(m: Memory, mem: Ram, t: Tree, v: nat, doFree: bool)
    requires Resident(mem, t)
  {
    PageAddr(v) < MAXVA && Entry(mem, t, v) != 0 && (doFree ==> m.IsPage(Pa(mem, t, v)))
  }

  /** The map lost page v; its physical page went to the front of the free list. */
  ghost predicate Dropped(t: Tree, mem: Ram, free: seq<nat>, mem': Ram, free': seq<nat>, v: nat, doFree: bool)
  {
    && Resident(mem, t) && Table(mem', t) && Apart(t, free') && mem'.Keys == mem.Keys
    && free' == (if doFree then [Pa(mem, t, v)] + free else free)
    && (forall w: nat :: Entry(mem', t, w) == if w == v then 0 else Entry(mem, t, w))
    && forall p :: p in mem && Fresh(t, p) && p !in free' ==> mem'[p] == mem[p]
  }

  lemma LeafFlags(pte: nat)
    requires IsLeaf(pte)
    ensures PteFlags(pte) != PTE_V
  {
    Half(pte / 1024 * 512, pte % 1024);
    Mod8(pte / 1024 * 64, pte % 1024 / 2);
  }

  /** One turn of the loop in uvmunmap(); !ok is any of its panics. */
  method UnmapOne(m: Memory, root: nat, v: nat, doFree: bool, ghost t: Tree) returns (ok: bool)
    requires m.Valid() && Table(m.mem, t) && Apart(t, m.free) && t.root == root
    requires doFree && Entry(m.mem, t, v) != 0 ==> Fresh(t, Pa(m.mem, t, v)) && Pa(m.mem, t, v) !in m.free
    modifies m`mem, m`freelist, m`free
    ensures ok <==> Unmappable(m, old(m.mem), t, v, doFree)
    ensures ok ==> m.Valid() && Dropped(t, old(m.mem), old(m.free), m.mem, m.free, v, doFree)
  {
    VpnAddr(v);
    hide Table, Apart, Threaded, NoDup, D0, D1, D2, Vpn, PageAddr, IsLeaf, IsV, PtePa, PteFlags;
    var w;
    ghost var t';
    w, t' := Walk(m, root, PageAddr(v), false, t);
    if !w.Found? {
      NoEntry(m.mem, t, v);
      return false;
    }
    WalkedEntry(t, m.mem, m.free, t, m.mem, m.free, v);
    var pte := m.mem[w.page][w.index];
    if !IsV(pte) {
      return false;
    }
    LeafFlags(pte);
    if PteFlags(pte) == PTE_V {
      return false;
    }
    if doFree {
      var freed := m.Kfree(PtePa(pte));
      if !freed {
        return false;
      }
      AfterKfree(t, old(m.mem), old(m.free), m.mem, PtePa(pte));
    }
    ClearEntry(m, w.page, w.index, t, old(m.mem), old(m.free), v, doFree);
    ok := true;
  }

  lemma VpnAddr(v: nat)
    ensures Vpn(PageAddr(v)) == v
  {}

  lemma NoEntry(mem: Ram, t: Tree, v: nat)
    requires Table(mem, t)
    ensures Resident(mem, t) && ((D2(v), D1(v)) !in t.low ==> Entry(mem, t, v) == 0)
  {}

  lemma AfterKfree(t: Tree, mem: Ram, free: seq<nat>, mem1: Ram, p: nat)
    requires Table(mem, t) && Apart(t, free) && Fresh(t, p) && p in mem && SameBut(mem, mem1, p)
    ensures Walk2(t, mem1, [p] + free, t, mem1, [p] + free) && SameMap(mem, t, mem1, t)
  {
    FreshIsOutside(t, p);
    OutsideTree(mem, mem1, t);
    Unmoved(mem1, t, [p] + free);
  }

  /** One entry is cleared. */
  method ClearEntry(m: Memory, page: nat, index: nat, ghost t: Tree, ghost mem0: Ram, ghost free0: seq<nat>,
      ghost v: nat, ghost doFree: bool)
    requires m.Valid() && Walk2(t, m.mem, m.free, t, m.mem, m.free) && Resident(mem0, t) && SameMap(mem0, t, m.mem, t)
    requires (D2(v), D1(v)) in t.low && page == t.low[(D2(v), D1(v))] && index == D0(v)
    requires m.free == (if doFree then [Pa(mem0, t, v)] + free0 else free0)
    requires m.mem.Keys == mem0.Keys && forall p :: p in mem0 && Fresh(t, p) && p !in m.free ==> m.mem[p] == mem0[p]
    modifies m`mem
    ensures m.Valid() && Dropped(t, mem0, free0, m.mem, m.free, v, doFree)
  {
    hide Table, Apart, Threaded, NoDup, D0, D1, D2, PtePa, Grew;
    ghost var mem1 := m.mem;
    ZeroLeafOk();
    StoreEntry(m, page, index, 0, t, m.mem, m.free, t, v);
    assert forall w: nat :: Entry(m.mem, t, w) == if w == v then 0 else Entry(mem1, t, w);
    assert forall w: nat :: Entry(mem1, t, w) == Entry(mem0, t, w);
  }

  /** The physical pages of n mappings, last first: the order uvmunmap() frees them in. */
  ghost function Taken(mem: Ram, t: Tree, v: nat, n: nat): (ps: seq<nat>)
    requires Resident(mem, t)
  {
    if n == 0 then [] else [Pa(mem, t, v + n - 1)] + Taken(mem, t, v, n - 1)
  }

  lemma {:induction false} TakenIs(mem: Ram, t: Tree, v: nat, n: nat, p: nat)
    requires Resident(mem, t)
    ensures p in Taken(mem, t, v, n) <==> exists i: nat :: v <= i < v + n && Pa(mem, t, i) == p
    decreases n
  {
    if n > 0 {
      TakenIs(mem, t, v, n - 1, p);
    }
  }

  /** The mapped pages among n from v on are pages nothing else uses. */
  ghost predicate Private(mem: Ram, t: Tree, free: seq<nat>, v: nat, n: nat)
  {
    && Resident(mem, t)
    && (forall i: nat :: v <= i < v + n && Entry(mem, t, i) != 0 ==> Fresh(t, Pa(mem, t, i)) && Pa(mem, t, i) !in free)
    && (forall i: nat, j: nat ::
      v <= i < j < v + n && Entry(mem, t, i) != 0 && Entry(mem, t, j) != 0 ==> Pa(mem, t, i) != Pa(mem, t, j))
  }

  /** n mappings from v on are gone; with doFree their pages are on the free list. */
  ghost predicate Unmapped(t: Tree, mem: Ram, free: seq<nat>, mem': Ram, free': seq<nat>, v: nat, n: nat, doFree: bool)
  {
    && Resident(mem, t) && Table(mem', t) && Apart(t, free') && mem'.Keys == mem.Keys
    && free' == (if doFree then Taken(mem, t, v, n) + free else free)
    && (forall w: nat :: Entry(mem', t, w) == if v <= w < v + n then 0 else Entry(mem, t, w))
    && forall p :: p in mem && Fresh(t, p) && p !in free' ==> mem'[p] == mem[p]
  }

  lemma UnmappedNext(t: Tree, mem: Ram, free: seq<nat>, mem1: Ram, free1: seq<nat>, mem2: Ram, free2: seq<nat>,
      v: nat, n: nat, doFree: bool)
    requires Unmapped(t, mem, free, mem1, free1, v, n, doFree) && Dropped(t, mem1, free1, mem2, free2, v + n, doFree)
    ensures Unmapped(t, mem, free, mem2, free2, v, n + 1, doFree)
  {
    hide Table, Apart, Fresh, PtePa;
    assert Entry(mem1, t, v + n) == Entry(mem, t, v + n);
    assert Pa(mem1, t, v + n) == Pa(mem, t, v + n);
    if doFree {
      assert free2 == [Pa(mem, t, v + n)] + (Taken(mem, t, v, n) + free);
      assert free2 == ([Pa(mem, t, v + n)] + Taken(mem, t, v, n)) + free;
    }
    hide Entry;
    assert forall w: nat :: Entry(mem2, t, w) == if w == v + n then 0 else Entry(mem1, t, w);
    forall p | p in mem && Fresh(t, p) && p !in free2 ensures mem2[p] == mem[p] {
      assert p !in free1;
    }
  }

  lemma UnmapReady(t: Tree, mem: Ram, free: seq<nat>, mem1: Ram, free1: seq<nat>, v: nat, n: nat, i: nat, doFree: bool)
    requires Unmapped(t, mem, free, mem1, free1, v, i, doFree) && i < n && (doFree ==> Private(mem, t, free, v, n))
    requires forall k: nat :: v <= k < v + i ==> Entry(mem, t, k) != 0
    ensures Resident(mem1, t) && Entry(mem1, t, v + i) == Entry(mem, t, v + i)
    ensures doFree && Entry(mem, t, v + i) != 0 ==> Fresh(t, Pa(mem1, t, v + i)) && Pa(mem1, t, v + i) !in free1
  {
    hide Table, Apart, Fresh, PtePa;
    assert Entry(mem1, t, v + i) == Entry(mem, t, v + i);
    if doFree && Entry(mem, t, v + i) != 0 {
      TakenIs(mem, t, v, i, Pa(mem, t, v + i));
    }
  }

  ghost predicate AllUnmappable(m: Memory, mem: Ram, t: Tree, v: nat, n: nat, doFree: bool)
    requires Resident(mem, t)
  {
    forall i: nat :: v <= i < v + n ==> Unmappable(m, mem, t, i, doFree)
  }

  lemma AllUnmappableNext(m: Memory, mem: Ram, t: Tree, v: nat, n: nat, doFree: bool)
    requires Resident(mem, t) && AllUnmappable(m, mem, t, v, n, doFree) && Unmappable(m, mem, t, v + n, doFree)
    ensures AllUnmappable(m, mem, t, v, n + 1, doFree)
  {}

  lemma AllUnmappableMapped(m: Memory, mem: Ram, t: Tree, v: nat, n: nat, doFree: bool)
    requires Resident(mem, t) && AllUnmappable(m, mem, t, v, n, doFree)
    ensures forall k: nat :: v <= k < v + n ==> Entry(mem, t, k) != 0
  {
    forall k: nat | v <= k < v + n ensures Entry(mem, t, k) != 0 { assert Unmappable(m, mem, t, k, doFree); }
  }

  lemma NotAll(m: Memory, mem: Ram, t: Tree, v: nat, n: nat, i: nat, doFree: bool)
    requires Resident(mem, t) && i < n && !Unmappable(m, mem, t, v + i, doFree)
    ensures !AllUnmappable(m, mem, t, v, n, doFree)
  {}

  lemma PageOrder(i: nat, n: nat)
    ensures PageAddr(i) < PageAddr(n) <==> i < n
    ensures PageAddr(i + 1) == PageAddr(i) + PGSIZE && PageAddr(0) == 0
  {}

  /** uvmunmap(); !ok is any of its panics. */
  method UvmUnmap(m: Memory, root: nat, va: nat, npages: nat, doFree: bool, ghost t: Tree) returns (ok: bool)
    requires m.Valid() && Table(m.mem, t) && Apart(t, m.free) && t.root == root && va + PageAddr(npages) < U64
    requires doFree ==> Private(m.mem, t, m.free, Vpn(va), npages)
    modifies m`mem, m`freelist, m`free
    ensures ok <==> Aligned(va) && AllUnmappable(m, old(m.mem), t, Vpn(va), npages, doFree)
    ensures ok ==> m.Valid() && Unmapped(t, old(m.mem), old(m.free), m.mem, m.free, Vpn(va), npages, doFree)
  {
    hide Table, Apart, Private, Unmapped, Unmappable, Entry, Aligned, Vpn, PageAddr, AllUnmappable, Threaded, NoDup,
      Resident;
    NoneUnmappable(m, m.mem, t, Vpn(va), doFree);
    if !Aligned(va) {
      return false;
    }
    UnmappedNone(t, m.mem, m.free, Vpn(va), doFree);
    var a, end := va, va + npages * PGSIZE;
    ghost var i := 0;
    PageOrder(0, npages);
    AddrOf(npages);
    while a < end
      invariant 0 <= i <= npages && a == va + PageAddr(i) && m.Valid() && Resident(old(m.mem), t)
      invariant Unmapped(t, old(m.mem), old(m.free), m.mem, m.free, Vpn(va), i, doFree)
      invariant AllUnmappable(m, old(m.mem), t, Vpn(va), i, doFree)
      decreases npages - i
    {
      PageOrder(i, npages);
      PageSteps(va, i);
      ok := UnmapNext(m, root, Vpn(a), doFree, t, old(m.mem), old(m.free), Vpn(va), i, npages);
      if !ok {
        return;
      }
      a, i := a + PGSIZE, i + 1;
    }
    PageOrder(i, npages);
    ok := true;
  }

  /** That loop from its i-th to its next turn. */
  method UnmapNext(m: Memory, root: nat, w: nat, doFree: bool, ghost t: Tree, ghost mem0: Ram, ghost free0: seq<nat>,
      ghost v: nat, ghost i: nat, ghost n: nat)
      returns (ok: bool)
    requires m.Valid() && Resident(mem0, t) && Unmapped(t, mem0, free0, m.mem, m.free, v, i, doFree)
    requires AllUnmappable(m, mem0, t, v, i, doFree) && i < n && w == v + i && t.root == root
    requires doFree ==> Private(mem0, t, free0, v, n)
    modifies m`mem, m`freelist, m`free
    ensures ok ==> m.Valid() && Unmapped(t, mem0, free0, m.mem, m.free, v, i + 1, doFree)
    ensures ok ==> AllUnmappable(m, mem0, t, v, i + 1, doFree)
    ensures !ok ==> !AllUnmappable(m, mem0, t, v, n, doFree)
  {
    hide Table, Apart, Threaded, NoDup, Private, Unmapped, Dropped, Unmappable, Entry, AllUnmappable;
    AllUnmappableMapped(m, mem0, t, v, i, doFree);
    UnmapReady(t, mem0, free0, m.mem, m.free, v, n, i, doFree);
    UnmappedTable(t, mem0, free0, m.mem, m.free, v, i, doFree);
    ghost var mem1, free1 := m.mem, m.free;
    ok := UnmapOne(m, root, w, doFree, t);
    SameUnmappable(m, mem0, mem1, t, w, doFree);
    if !ok {
      NotAll(m, mem0, t, v, n, i, doFree);
    } else {
      UnmappedNext(t, mem0, free0, mem1, free1, m.mem, m.free, v, i, doFree);
      AllUnmappableNext(m, mem0, t, v, i, doFree);
    }
  }

  lemma AddrOf(n: nat)
    ensures n * PGSIZE == PageAddr(n)
  {}

  lemma NoneUnmappable(m: Memory, mem: Ram, t: Tree, v: nat, doFree: bool)
    requires Table(mem, t)
    ensures Resident(mem, t) && AllUnmappable(m, mem, t, v, 0, doFree)
  {}

  lemma UnmappedNone(t: Tree, mem: Ram, free: seq<nat>, v: nat, doFree: bool)
    requires Table(mem, t) && Apart(t, free)
    ensures Unmapped(t, mem, free, mem, free, v, 0, doFree)
  {
    assert [] + free == free;
  }

  lemma UnmappedTable(t: Tree, mem: Ram, free: seq<nat>, mem': Ram, free': seq<nat>, v: nat, n: nat, doFree: bool)
    requires Unmapped(t, mem, free, mem', free', v, n, doFree)
    ensures Table(mem', t) && Apart(t, free')
  {}

  lemma SameUnmappable(m: Memory, mem: Ram, mem1: Ram, t: Tree, v: nat, doFree: bool)
    requires Resident(mem, t) && Resident(mem1, t) && Entry(mem1, t, v) == Entry(mem, t, v)
    ensures Unmappable(m, mem1, t, v, doFree) <==> Unmappable(m, mem, t, v, doFree)
    ensures Unmappable(m, mem, t, v, doFree) ==> Entry(mem, t, v) != 0
  {}

  // ------------------------------------------------------ growing an address space

  /** A mapped page: where it is, its flags, and what it holds. */
  datatype Leaf = Leaf(pa: nat, perm: nat, data: Page)

  ghost predicate InLeaves(ls: seq<Leaf>, q: nat) { exists i :: 0 <= i < |ls| && ls[i].pa == q }

  /** The free pages and table pages of before are the free pages, table pages and
      mapped pages of now, each in one role. */
  ghost predicate Balanced(t0: Tree, free0: seq<nat>, t: Tree, free: seq<nat>, ls: seq<Leaf>)
  {
    && Apart(t, free)
    && (forall q :: q in free0 || IsTreePage(t0, q) <==> q in free || IsTreePage(t, q) || InLeaves(ls, q))
    && (forall q :: IsTreePage(t0, q) ==> IsTreePage(t, q))
    && (forall i :: 0 <= i < |ls| ==> Fresh(t, ls[i].pa) && ls[i].pa !in free)
    && (forall i, j :: 0 <= i < j < |ls| ==> ls[i].pa != ls[j].pa)
    && |free| + |ls| <= |free0|
  }

  ghost predicate LeafThere(mem: Ram, l: Leaf)
  {
    l.pa in mem && Aligned(l.pa) && mem[l.pa] == l.data && l.perm < FLAGS && IsV(l.perm) && IsLeaf(l.perm)
  }

  /** From page v on the leaves ls were added, and nothing else changed but table pages
      and pages that were free. */
  ghost predicate Grown(t0: Tree, mem0: Ram, free0: seq<nat>, t: Tree, mem: Ram, free: seq<nat>, v: nat, ls: seq<Leaf>)
  {
    && Resident(mem0, t0) && Table(mem, t) && t.root == t0.root && mem.Keys == mem0.Keys
    && Balanced(t0, free0, t, free, ls)
    && (forall w: nat :: v <= w < v + |ls| ==> Entry(mem0, t0, w) == 0)
    && (forall w: nat :: Entry(mem, t, w) ==
          if v <= w < v + |ls| then Pte(ls[w - v].pa, ls[w - v].perm) else Entry(mem0, t0, w))
    && (forall i :: 0 <= i < |ls| ==> LeafThere(mem, ls[i]))
    && (forall p :: p in mem0 && Fresh(t, p) && p !in free0 ==> mem[p] == mem0[p])
  }

  lemma BalancedTrans(t0: Tree, free0: seq<nat>, t1: Tree, free1: seq<nat>, ls1: seq<Leaf>, t2: Tree, free2: seq<nat>,
      ls2: seq<Leaf>)
    requires Balanced(t0, free0, t1, free1, ls1) && Balanced(t1, free1, t2, free2, ls2)
    ensures Balanced(t0, free0, t2, free2, ls1 + ls2)
  {
    var ls := ls1 + ls2;
    forall q ensures InLeaves(ls, q) <==> InLeaves(ls1, q) || InLeaves(ls2, q) {
      InLeavesConcat(ls1, ls2, q);
    }
    forall i | 0 <= i < |ls1| ensures Fresh(t2, ls1[i].pa) && ls1[i].pa !in free2 && !InLeaves(ls2, ls1[i].pa) {
      var q := ls1[i].pa;
      FreshIsOutside(t1, q);
      FreshIsOutside(t2, q);
      assert !(q in free1 || IsTreePage(t1, q));
    }
    forall i, j | 0 <= i < j < |ls| ensures ls[i].pa != ls[j].pa {
      if i < |ls1| && j >= |ls1| {
        assert ls2[j - |ls1|] == ls[j];
        assert !InLeaves(ls2, ls1[i].pa);
      }
    }
  }

  lemma InLeavesConcat(a: seq<Leaf>, b: seq<Leaf>, q: nat)
    ensures InLeaves(a + b, q) <==> InLeaves(a, q) || InLeaves(b, q)
  {
    if i :| 0 <= i < |a + b| && (a + b)[i].pa == q {
      assert i < |a| ==> a[i].pa == q;
      assert i >= |a| ==> b[i - |a|].pa == q;
    }
    if i :| 0 <= i < |a| && a[i].pa == q { assert (a + b)[i].pa == q; }
    if i :| 0 <= i < |b| && b[i].pa == q { assert (a + b)[|a| + i].pa == q; }
  }

  lemma GrownTrans(t0: Tree, mem0: Ram, free0: seq<nat>, t1: Tree, mem1: Ram, free1: seq<nat>, t2: Tree, mem2: Ram,
      free2: seq<nat>, v: nat, ls1: seq<Leaf>, ls2: seq<Leaf>)
    requires Grown(t0, mem0, free0, t1, mem1, free1, v, ls1) && Grown(t1, mem1, free1, t2, mem2, free2, v + |ls1|, ls2)
    ensures Grown(t0, mem0, free0, t2, mem2, free2, v, ls1 + ls2)
  {
    BalancedTrans(t0, free0, t1, free1, ls1, t2, free2, ls2);
    GrownOutside(t0, mem0, free0, t1, mem1, free1, t2, mem2, free2, v, ls1, ls2);
    TableResident(mem1, t1);
    TableResident(mem2, t2);
    hide Table, Balanced, Entry, Pte, Resident, LeafThere;
    var ls := ls1 + ls2;
    forall w: nat ensures Entry(mem2, t2, w) ==
      if v <= w < v + |ls| then Pte(ls[w - v].pa, ls[w - v].perm) else Entry(mem0, t0, w)
    {
      assert Entry(mem2, t2, w) ==
        if v + |ls1| <= w < v + |ls| then Pte(ls2[w - v - |ls1|].pa, ls2[w - v - |ls1|].perm) else Entry(mem1, t1, w);
      assert Entry(mem1, t1, w) == if v <= w < v + |ls1| then Pte(ls1[w - v].pa, ls1[w - v].perm)
        else Entry(mem0, t0, w);
    }
    forall w: nat | v <= w < v + |ls| ensures Entry(mem0, t0, w) == 0 {
      assert w >= v + |ls1| ==> Entry(mem1, t1, w) == Entry(mem0, t0, w) == 0;
    }
  }

  lemma GrownOutside(t0: Tree, mem0: Ram, free0: seq<nat>, t1: Tree, mem1: Ram, free1: seq<nat>, t2: Tree, mem2: Ram,
      free2: seq<nat>, v: nat, ls1: seq<Leaf>, ls2: seq<Leaf>)
    requires Grown(t0, mem0, free0, t1, mem1, free1, v, ls1) && Grown(t1, mem1, free1, t2, mem2, free2, v + |ls1|, ls2)
    ensures forall p :: p in mem0 && Fresh(t2, p) && p !in free0 ==> mem2[p] == mem0[p]
    ensures forall i :: 0 <= i < |ls1 + ls2| ==> LeafThere(mem2, (ls1 + ls2)[i])
  {
    hide Table, Entry, Pte;
    forall p | p in mem0 && Fresh(t2, p) && p !in free0 ensures mem2[p] == mem0[p] {
      FreshIsOutside(t2, p);
      FreshIsOutside(t1, p);
      assert !IsTreePage(t0, p);
      assert p !in free1;
    }
    forall i | 0 <= i < |ls1| ensures LeafThere(mem2, ls1[i]) {
      var q := ls1[i].pa;
      assert LeafThere(mem1, ls1[i]);
      FreshIsOutside(t1, q);
      FreshIsOutside(t2, q);
      assert !(q in free1 || IsTreePage(t1, q));
    }
    forall i | 0 <= i < |ls1 + ls2| ensures LeafThere(mem2, (ls1 + ls2)[i]) {
      if i >= |ls1| { assert LeafThere(mem2, ls2[i - |ls1|]); }
    }
  }

  lemma GrownNone(mem: Ram, t: Tree, free: seq<nat>, v: nat)
    requires Table(mem, t) && Apart(t, free)
    ensures Grown(t, mem, free, t, mem, free, v, [])
  {
    hide Table, Entry;
    TableResident(mem, t);
  }

  /** Taking pages off the free list for the table keeps the balance. */
  lemma GrewBalanced(t: Tree, p: nat, free1: seq<nat>, t': Tree, free': seq<nat>, l: Leaf)
    requires NoDup([p] + free1) && Apart(t, [p] + free1) && Grew(t, free1, t', free') && Apart(t', free') && l.pa == p
    ensures Balanced(t, [p] + free1, t', free', [l])
    ensures Apart(t', [p] + free') && Balanced(t, [p] + free1, t', [p] + free', [])
  {
    var k, all := |free1| - |free'|, [p] + free1;
    assert all[0] == p && forall i :: 0 <= i < |free1| ==> all[i + 1] == free1[i];
    assert p !in free1 && p in all;
    forall q ensures q in free1 <==> q in free1[..k] || q in free' {
      assert free1 == free1[..k] + free';
    }
    FreshIsOutside(t, p);
    FreshIsOutside(t', p);
    forall q ensures q in all <==> q == p || q in free1 {}
    forall q ensures InLeaves([l], q) <==> q == p {
      if q == p { assert [l][0].pa == q; }
    }
    forall q | q in [p] + free' ensures Fresh(t', q) {}
  }

  lemma AddedGrown(t: Tree, mem0: Ram, p: nat, free1: seq<nat>, mem2: Ram, t': Tree, mem3: Ram, free3: seq<nat>,
      w: nat, l: Leaf)
    requires Table(mem0, t) && Apart(t, [p] + free1) && NoDup([p] + free1) && p in mem0 && SameBut(mem0, mem2, p)
    requires LeafThere(mem2, l) && l.pa == p && Entry(mem0, t, w) == 0
    requires PageTable.Stored(t, mem2, free1, t', mem3, free3, w, Pte(p, l.perm))
    ensures Grown(t, mem0, [p] + free1, t', mem3, free3, w, [l])
  {
    hide Table, Entry, Pte, Balanced;
    GrewBalanced(t, p, free1, t', free3, l);
    FreshHere(t, p, free1, t', free3, l);
    AddedMap(t, mem0, p, mem2);
    hide Grew, NoDup, IsTreePage, Apart;
  }

  lemma AddedMap(t: Tree, mem0: Ram, p: nat, mem2: Ram)
    requires Table(mem0, t) && Fresh(t, p) && p in mem0 && SameBut(mem0, mem2, p)
    ensures Resident(mem0, t) && Resident(mem2, t) && forall x: nat :: Entry(mem2, t, x) == Entry(mem0, t, x)
  {
    FreshIsOutside(t, p);
    OutsideTree(mem0, mem2, t);
    hide Entry;
  }

  lemma FreshHere(t: Tree, p: nat, free1: seq<nat>, t': Tree, free': seq<nat>, l: Leaf)
    requires Apart(t, [p] + free1) && l.pa == p && Balanced(t, [p] + free1, t', free', [l])
    ensures Fresh(t, p) && Fresh(t', p) && p in [p] + free1
  {
    assert p in [p] + free1;
    assert [l][0].pa == p;
  }

  lemma AddFailedGrown(t: Tree, mem0: Ram, p: nat, free1: seq<nat>, mem2: Ram, t': Tree, mem3: Ram, free3: seq<nat>,
      mem4: Ram, w: nat)
    requires Table(mem0, t) && Apart(t, [p] + free1) && NoDup([p] + free1) && p in mem0 && SameBut(mem0, mem2, p)
    requires Walk2(t, mem2, free1, t', mem3, free3) && SameBut(mem3, mem4, p)
    ensures Fresh(t', p) && p !in free3
    ensures Grown(t, mem0, [p] + free1, t', mem4, [p] + free3, w, [])
  {
    GrewBalanced(t, p, free1, t', free3, Leaf(p, 0, Filled(0)));
    assert p in [p] + free1;
    FreshIsOutside(t, p);
    OutsideTree(mem0, mem2, t);
    var l := [Leaf(p, 0, Filled(0))];
    assert Fresh(t', l[0].pa) && l[0].pa !in free3;
    FreshIsOutside(t', p);
    OutsideTree(mem3, mem4, t');
    hide Table, Entry, Balanced, Grew, Pte;
    assert forall x: nat :: Entry(mem2, t, x) == Entry(mem0, t, x);
    assert forall x: nat :: Entry(mem4, t', x) == Entry(mem3, t', x);
  }

  /** memset() or memmove() into a page just allocated. */
  method FillPage(m: Memory, p: nat, data: Page)
    requires m.Valid() && p in m.mem && p !in m.free
    modifies m`mem
    ensures m.Valid() && m.mem == old(m.mem)[p := data]
  {
    hide NoDup;
    StillThreaded(m.mem, m.mem[p := data], m.freelist, m.free);
    hide Threaded;
    m.mem := m.mem[p := data];
  }

  lemma FreshPage(t: Tree, mem0: Ram, p: nat, free1: seq<nat>, mem2: Ram)
    requires Table(mem0, t) && Apart(t, [p] + free1) && NoDup([p] + free1) && p in mem0 && SameBut(mem0, mem2, p)
    ensures Table(mem2, t) && Apart(t, free1) && p !in free1 && Fresh(t, p) && Aligned(p)
    ensures forall w: nat :: Entry(mem2, t, w) == Entry(mem0, t, w)
  {
    var all := [p] + free1;
    assert all[0] == p && forall i :: 0 <= i < |free1| ==> all[i + 1] == free1[i];
    assert p in all && forall q :: q in free1 ==> q in all;
    FreshIsOutside(t, p);
    OutsideTree(mem0, mem2, t);
  }

  lemma FreshLeaf(mem: Ram, p: nat, perm: nat)
    requires p in mem && Aligned(p) && perm < FLAGS && IsLeaf(perm)
    ensures LeafThere(mem, Leaf(p, WithV(perm), mem[p]))
  {
    LeafPte(p, perm);
  }

  /** mappages() of a filled page; on failure kfree() it. */
  method MapFresh(m: Memory, root: nat, w: nat, p: nat, perm: nat, ghost t: Tree, ghost mem0: Ram,
      ghost free1: seq<nat>, ghost l: Leaf)
      returns (ok: bool, ghost t': Tree)
    requires m.Valid() && m.free == free1 && t.root == root && p in mem0 && SameBut(mem0, m.mem, p)
    requires Table(mem0, t) && Apart(t, [p] + free1) && NoDup([p] + free1)
    requires PageAddr(w) < MAXVA && Entry(mem0, t, w) == 0 && perm < FLAGS && IsLeaf(perm)
    requires l == Leaf(p, WithV(perm), m.mem[p])
    modifies m`mem, m`freelist, m`free
    ensures m.Valid()
    ensures ok ==> Grown(t, mem0, [p] + free1, t', m.mem, m.free, w, [l])
    ensures !ok ==> Grown(t, mem0, [p] + free1, t', m.mem, m.free, w, [])
    ensures ok ==> Paved(t, w, 1, t') && |m.free| == |free1| - LackingAt(t, w, 0)
    ensures !ok ==> |free1| < LackingAt(t, w, 0)
  {
    hide Table, Apart, Threaded, NoDup, Entry, Fresh, Grown, Pte, WithV, PageAddr, IsLeaf, IsV, Aligned, LeafThere,
      PageTable.Stored, Walk2, Paved, LackingAt;
    FreshPage(t, mem0, p, free1, m.mem);
    FreshLeaf(m.mem, p, perm);
    ghost var mem2 := m.mem;
    var r;
    r, t' := MapPage(m, root, w, p, perm, t);
    if r.Mapped? {
      AddedGrown(t, mem0, p, free1, mem2, t', m.mem, m.free, w, l);
      ok := true;
    } else {
      ok := false;
      AddFailedGrown(t, mem0, p, free1, mem2, t', m.mem, m.free, m.mem, w);
      ghost var mem3, free3 := m.mem, m.free;
      var freed := m.Kfree(p);
      AddFailedGrown(t, mem0, p, free1, mem2, t', mem3, free3, m.mem, w);
    }
  }

  /** kalloc a page, fill it, and map it at w; on failure give it back. The body of the
      loops in uvmalloc() and uvmcopy(). */
  method AddPage(m: Memory, root: nat, w: nat, perm: nat, data: Page, ghost t: Tree)
      returns (ok: bool, ghost t': Tree, ghost l: Leaf)
    requires m.Valid() && Table(m.mem, t) && Apart(t, m.free) && t.root == root
    requires PageAddr(w) < MAXVA && Entry(m.mem, t, w) == 0 && perm < FLAGS && IsLeaf(perm)
    modifies m`mem, m`freelist, m`free
    ensures m.Valid()
    ensures ok ==>
      l.perm == WithV(perm) && l.data == data && Grown(t, old(m.mem), old(m.free), t', m.mem, m.free, w, [l])
    ensures !ok ==> Grown(t, old(m.mem), old(m.free), t', m.mem, m.free, w, [])
    ensures ok <==> 1 + LackingAt(t, w, 0) <= |old(m.free)|
    ensures ok ==> Paved(t, w, 1, t') && |m.free| == |old(m.free)| - 1 - LackingAt(t, w, 0)
  {
    hide Table, Apart, Threaded, NoDup, Entry, Grown, WithV, PageAddr, IsLeaf, Paved, LackingAt;
    GrownNone(m.mem, t, m.free, w);
    t' := t;
    var p := m.Kalloc();
    l := Leaf(p, WithV(perm), data);
    if p == 0 {
      return false, t, l;
    }
    assert [p] + m.free == old(m.free) && p in m.mem;
    FirstNotRest(p, m.free);
    ghost var free1, mem0 := m.free, old(m.mem);
    FillPage(m, p, data);
    ok, t' := MapFresh(m, root, w, p, perm, t, mem0, free1, l);
  }

  lemma FirstNotRest(p: nat, rest: seq<nat>)
    requires NoDup([p] + rest)
    ensures p !in rest
  {
    var all := [p] + rest;
    assert all[0] == p && forall i :: 0 <= i < |rest| ==> all[i + 1] == rest[i];
  }

  // ------------------------------------------------------- uvmdealloc, uvmalloc

  /** Pages a process of the given size has. */
  function Pages(sz: nat): (n: nat) { Vpn(RoundUp(sz)) }

  /** Pages that shrinking from oldsz to newsz gives up. */
  function PageGap(newsz: nat, oldsz: nat): (n: nat)
  {
    if newsz < oldsz && Pages(newsz) < Pages(oldsz) then Pages(oldsz) - Pages(newsz) else 0
  }

  lemma PagesIs(sz: nat)
    requires sz <= MAXVA
    ensures RoundUp(sz) == PageAddr(Pages(sz)) && sz <= PageAddr(Pages(sz)) < sz + PGSIZE && Aligned(RoundUp(sz))
    ensures Vpn(RoundUp(sz)) == Pages(sz)
    ensures Pages(sz) <= 0x400_0000
  {
    RoundUpIs(sz);
  }

  lemma PagesMonotone(a: nat, b: nat)
    requires a <= b <= MAXVA
    ensures Pages(a) <= Pages(b) && (RoundUp(a) < RoundUp(b) <==> Pages(a) < Pages(b))
    ensures (RoundUp(b) - RoundUp(a)) / PGSIZE == Pages(b) - Pages(a)
  {
    PagesIs(a);
    PagesIs(b);
    var x, y := Pages(a), Pages(b);
    assert RoundUp(a) == x * 4096 && RoundUp(b) == y * 4096;
  }

  /** uvmdealloc(); !ok is a panic of uvmunmap(). */
  method UvmDealloc(m: Memory, root: nat, oldsz: nat, newsz: nat, ghost t: Tree) returns (ok: bool, r: nat)
    requires m.Valid() && Table(m.mem, t) && Apart(t, m.free) && t.root == root && oldsz <= MAXVA
    requires Private(m.mem, t, m.free, Pages(newsz), PageGap(newsz, oldsz))
    modifies m`mem, m`freelist, m`free
    ensures r == if newsz < oldsz then newsz else oldsz
    ensures ok <==> AllUnmappable(m, old(m.mem), t, Pages(newsz), PageGap(newsz, oldsz), true)
    ensures ok ==>
      m.Valid() && Unmapped(t, old(m.mem), old(m.free), m.mem, m.free, Pages(newsz), PageGap(newsz, oldsz), true)
  {
    hide Table, Apart, Threaded, NoDup, Private, Unmapped, AllUnmappable, RoundUp, Vpn, PageAddr, Aligned, Entry,
      Pages, Resident;
    UnmappedNone(t, m.mem, m.free, Pages(newsz), true);
    NoneUnmappable(m, m.mem, t, Pages(newsz), true);
    if newsz >= oldsz {
      return true, oldsz;
    }
    PagesMonotone(newsz, oldsz);
    PagesIs(newsz);
    PagesIs(oldsz);
    if RoundUp(newsz) < RoundUp(oldsz) {
      var npages := (RoundUp(oldsz) - RoundUp(newsz)) / PGSIZE;
      AddrSum(Pages(newsz), npages);
      ok := UvmUnmap(m, root, RoundUp(newsz), npages, true, t);
      return ok, newsz;
    }
    return true, newsz;
  }

  lemma AddrSum(a: nat, n: nat)
    ensures PageAddr(a) + PageAddr(n) == PageAddr(a + n) && Vpn(PageAddr(a)) == a
  {}

  lemma GrownPa(t0: Tree, mem0: Ram, free0: seq<nat>, t: Tree, mem: Ram, free: seq<nat>, v: nat, ls: seq<Leaf>, i: nat)
    requires Grown(t0, mem0, free0, t, mem, free, v, ls) && i < |ls|
    ensures Resident(mem, t) && Entry(mem, t, v + i) != 0 && Pa(mem, t, v + i) == ls[i].pa && ls[i].pa in mem
  {
    hide Table, Balanced, Entry, Pte, PtePa, IsV, IsLeaf, Aligned, Resident;
    TableResident(mem, t);
    assert Entry(mem, t, v + i) == Pte(ls[i].pa, ls[i].perm);
    assert LeafThere(mem, ls[i]);
    PteRound(ls[i].pa, ls[i].perm);
    ValidNonzero(ls[i].perm);
  }

  lemma ValidNonzero(perm: nat)
    requires IsV(perm)
    ensures perm != 0
  {}

  /** Pages just added can be taken out again. */
  lemma GrownRemovable(m: Memory, t0: Tree, mem0: Ram, free0: seq<nat>, t: Tree, mem: Ram, free: seq<nat>, v: nat,
      ls: seq<Leaf>)
    requires Grown(t0, mem0, free0, t, mem, free, v, ls) && PageAddr(v + |ls|) <= MAXVA
    requires forall p: nat :: p in mem ==> m.IsPage(p)
    ensures Private(mem, t, free, v, |ls|) && AllUnmappable(m, mem, t, v, |ls|, true)
  {
    hide Table, Entry, Pa, PageAddr, Fresh, Resident, LeafThere, Pte;
    TableResident(mem, t);
    forall i: nat | v <= i < v + |ls| ensures Entry(mem, t, i) != 0 && Pa(mem, t, i) == ls[i - v].pa
      && m.IsPage(ls[i - v].pa) && PageAddr(i) < MAXVA {
      GrownPa(t0, mem0, free0, t, mem, free, v, ls, i - v);
      PageOrder(i, v + |ls|);
    }
  }

  lemma {:induction false} TakenLength(mem: Ram, t: Tree, v: nat, n: nat)
    requires Resident(mem, t)
    ensures |Taken(mem, t, v, n)| == n
    decreases n
  {
    if n > 0 {
      TakenLength(mem, t, v, n - 1);
    }
  }

  lemma GrownResident(t0: Tree, mem0: Ram, free0: seq<nat>, t: Tree, mem: Ram, free: seq<nat>, v: nat, ls: seq<Leaf>)
    requires Grown(t0, mem0, free0, t, mem, free, v, ls)
    ensures Resident(mem, t)
  {
    hide Table, Balanced, Entry, Pte, LeafThere, Resident, Fresh;
    TableResident(mem, t);
  }

  lemma TakenLeaves(t0: Tree, mem0: Ram, free0: seq<nat>, t: Tree, mem: Ram, free: seq<nat>, v: nat, ls: seq<Leaf>,
      q: nat)
    requires Grown(t0, mem0, free0, t, mem, free, v, ls)
    ensures Resident(mem, t) && (q in Taken(mem, t, v, |ls|) <==> InLeaves(ls, q))
  {
    hide Grown, Entry, Pa, Resident, Taken;
    GrownResident(t0, mem0, free0, t, mem, free, v, ls);
    TakenIs(mem, t, v, |ls|, q);
    if i: nat :| v <= i < v + |ls| && Pa(mem, t, i) == q {
      GrownPa(t0, mem0, free0, t, mem, free, v, ls, i - v);
      assert ls[i - v].pa == q;
    }
    if i :| 0 <= i < |ls| && ls[i].pa == q {
      GrownPa(t0, mem0, free0, t, mem, free, v, ls, i);
      assert Pa(mem, t, v + i) == q;
    }
  }

  /** Added and taken out again: only the table may have grown. */
  lemma GrownUndone(t0: Tree, mem0: Ram, free0: seq<nat>, t: Tree, mem: Ram, free: seq<nat>, mem': Ram,
      free': seq<nat>, v: nat, ls: seq<Leaf>)
    requires Grown(t0, mem0, free0, t, mem, free, v, ls) && Unmapped(t, mem, free, mem', free', v, |ls|, true)
    ensures Grown(t0, mem0, free0, t, mem', free', v, [])
  {
    TableResident(mem, t);
    TableResident(mem', t);
    BalancedUndone(t0, mem0, free0, t, mem, free, free', v, ls);
    assert Resident(mem, t) && Resident(mem', t);
    hide Table, Balanced, Resident, Pte, Entry, LeafThere, Taken;
    forall w: nat ensures Entry(mem', t, w) == Entry(mem0, t0, w) {
      assert Entry(mem', t, w) == if v <= w < v + |ls| then 0 else Entry(mem, t, w);
      assert v <= w < v + |ls| ==> Entry(mem0, t0, w) == 0;
    }
    forall p | p in mem0 && Fresh(t, p) && p !in free0 ensures mem'[p] == mem0[p] {
      NotFreed(t0, free0, t, free', p);
    }
  }

  lemma BalancedUndone(t0: Tree, mem0: Ram, free0: seq<nat>, t: Tree, mem: Ram, free: seq<nat>, free': seq<nat>,
      v: nat, ls: seq<Leaf>)
    requires Grown(t0, mem0, free0, t, mem, free, v, ls) && Apart(t, free')
    requires Resident(mem, t) && free' == Taken(mem, t, v, |ls|) + free
    ensures Balanced(t0, free0, t, free', [])
  {
    TakenLength(mem, t, v, |ls|);
    forall q ensures q in free' <==> q in free || InLeaves(ls, q) {
      TakenLeaves(t0, mem0, free0, t, mem, free, v, ls, q);
    }
    hide Table, Entry, Resident, Taken, InLeaves, LeafThere, Pte;
    forall q ensures !InLeaves([], q) { NoLeaves(q); }
  }

  lemma NoLeaves(q: nat)
    ensures !InLeaves([], q)
  {}

  lemma NotFreed(t0: Tree, free0: seq<nat>, t: Tree, free: seq<nat>, p: nat)
    requires Balanced(t0, free0, t, free, []) && Fresh(t, p) && p !in free0
    ensures p !in free
  {
    FreshIsOutside(t, p);
    assert !IsTreePage(t0, p);
  }

  /** TRAPFRAME's page number: user memory stays below it. */
  const TRAPFRAME_VPN: nat := 0x3ff_fffe

  /** From page v up to the trapframe nothing is mapped, and free memory runs out
      before virtual memory does. */
  ghost predicate RoomToGrow(mem: Ram, t: Tree, free: seq<nat>, v: nat)
  {
    Resident(mem, t) && v + |free| < TRAPFRAME_VPN && forall w: nat :: v <= w < TRAPFRAME_VPN ==> Entry(mem, t, w) == 0
  }

  ghost predicate FreshZeros(ls: seq<Leaf>)
  {
    forall i :: 0 <= i < |ls| ==> ls[i].perm == WithV(USER_PERM) && ls[i].data == Filled(0)
  }

  /** The pages, tables included, that n more pages from page v on take. */
  ghost function Cost(t: Tree, v: nat, n: nat): (k: nat)
    ensures k >= n
  {
    n + TablesFor(t, v, n)
  }

  lemma CostMore(t: Tree, v: nat, n: nat, n': nat)
    requires n <= n'
    ensures Cost(t, v, n) <= Cost(t, v, n')
  {
    TablesMore(t, v, n, n');
  }

  /** What growth costs, step by step or at once. */
  lemma CostNext(t: Tree, v: nat, n: nat, t1: Tree, k: nat)
    requires Paved(t, v, n, t1)
    ensures Cost(t, v, n + k) == Cost(t, v, n) + Cost(t1, v + n, k)
  {
    TablesNext(t, v, n, t1, k);
  }

  /** The pages that growing from oldsz to newsz adds. */
  function MorePages(oldsz: nat, newsz: nat): (n: nat)
  {
    if (newsz + 4095) / 4096 > Pages(oldsz) then (newsz + 4095) / 4096 - Pages(oldsz) else 0
  }

  lemma FreshUsable(pa: nat)
    ensures Usable(Pte(pa, WithV(USER_PERM)))
  {
    FlagBits(pa, WithV(USER_PERM));
  }

  /** New pages can be read, written and executed. */
  lemma GrownUsable(t0: Tree, mem0: Ram, free0: seq<nat>, t: Tree, mem: Ram, free: seq<nat>, v: nat, ls: seq<Leaf>)
    requires Grown(t0, mem0, free0, t, mem, free, v, ls) && FreshZeros(ls)
    ensures Resident(mem, t) && forall w: nat :: v <= w < v + |ls| ==> Usable(Entry(mem, t, w))
  {
    hide Table, Balanced, Entry, Pte, WithV, LeafThere, Usable, Resident;
    GrownResident(t0, mem0, free0, t, mem, free, v, ls);
    forall w: nat | v <= w < v + |ls| ensures Usable(Entry(mem, t, w)) {
      assert Entry(mem, t, w) == Pte(ls[w - v].pa, ls[w - v].perm);
      FreshUsable(ls[w - v].pa);
    }
  }

  /** How many of them there are after some turns of the loop. */
  lemma MoreIs(oldsz: nat, newsz: nat, k: nat)
    ensures PageAddr(Pages(oldsz) + k) < newsz ==> k < MorePages(oldsz, newsz)
    ensures PageAddr(Pages(oldsz) + k) >= newsz && (k > 0 ==> PageAddr(Pages(oldsz) + k - 1) < newsz) ==>
      k == MorePages(oldsz, newsz)
  {
    hide Pages;
  }

  /** uvmalloc(): grow from oldsz to newsz with zeroed pages; on failure everything taken
      for mappings is back on the free list, and it fails exactly when there are fewer
      pages than it takes. (!ok is the result 0 of the code, which a successful call from
      size 0 to size 0 also returns.) */
  method UvmAlloc(m: Memory, root: nat, oldsz: nat, newsz: nat, ghost t: Tree)
      returns (ok: bool, r: nat, ghost t': Tree, ghost ls: seq<Leaf>)
    requires m.Valid() && Table(m.mem, t) && Apart(t, m.free) && t.root == root && oldsz <= MAXVA && newsz < U64
    requires RoomToGrow(m.mem, t, m.free, Pages(oldsz))
    modifies m`mem, m`freelist, m`free
    ensures m.Valid() && Grown(t, old(m.mem), old(m.free), t', m.mem, m.free, Pages(oldsz), ls)
    ensures ok ==> r == (if newsz < oldsz then oldsz else newsz) && FreshZeros(ls)
    ensures ok ==> newsz <= PageAddr(Pages(oldsz) + |ls|) && (ls != [] ==> PageAddr(Pages(oldsz) + |ls| - 1) < newsz)
    ensures !ok ==> r == 0 && ls == []
    ensures ok <==> newsz < oldsz || Cost(t, Pages(oldsz), MorePages(oldsz, newsz)) <= |old(m.free)|
    ensures ok ==> |ls| == if newsz < oldsz then 0 else MorePages(oldsz, newsz)
    ensures ok ==> Paved(t, Pages(oldsz), |ls|, t') && |m.free| == |old(m.free)| - Cost(t, Pages(oldsz), |ls|)
    ensures ok ==>
      Resident(m.mem, t')
      && forall v: nat :: Pages(oldsz) <= v < Pages(oldsz) + |ls| ==> Usable(Entry(m.mem, t', v))
  {
    hide Table, Apart, Threaded, NoDup, Grown, RoomToGrow, RoundUp, PageAddr, Aligned, Entry, Pages, Resident, WithV,
      Filled, Vpn, Paved, LackingAt, MorePages;
    PavedNone(t, Pages(oldsz));
    GrownNone(m.mem, t, m.free, Pages(oldsz));
    PagesIs(oldsz);
    t', ls := t, [];
    if newsz < oldsz {
      GrownUsable(t, old(m.mem), old(m.free), t', m.mem, m.free, Pages(oldsz), ls);
      return true, oldsz, t', ls;
    }
    ghost var v := Pages(oldsz);
    var base := RoundUp(oldsz);
    var a := base;
    while a < newsz
      invariant m.Valid() && Grown(t, old(m.mem), old(m.free), t', m.mem, m.free, v, ls) && FreshZeros(ls)
      invariant a == PageAddr(v + |ls|)
      invariant Paved(t, v, |ls|, t') && |m.free| == |old(m.free)| - Cost(t, v, |ls|)
      invariant ls != [] ==> PageAddr(v + |ls| - 1) < newsz
      decreases newsz - a
    {
      PageOrder(v + |ls|, 0);
      MoreIs(oldsz, newsz, |ls|);
      CostMore(t, v, |ls| + 1, MorePages(oldsz, newsz));
      ok, t', ls := GrowNext(m, root, base, a, t, old(m.mem), old(m.free), t', v, ls);
      if !ok {
        return false, 0, t', [];
      }
      a := a + PGSIZE;
    }
    MoreIs(oldsz, newsz, |ls|);
    GrownUsable(t, old(m.mem), old(m.free), t', m.mem, m.free, v, ls);
    return true, newsz, t', ls;
  }

  /** One turn of that loop, with its unwinding. */
  method GrowNext(m: Memory, root: nat, base: nat, a: nat, ghost t0: Tree, ghost mem0: Ram, ghost free0: seq<nat>,
      ghost t1: Tree, ghost v: nat, ghost ls1: seq<Leaf>)
      returns (ok: bool, ghost t': Tree, ghost ls: seq<Leaf>)
    requires m.Valid() && Grown(t0, mem0, free0, t1, m.mem, m.free, v, ls1) && FreshZeros(ls1)
      && a == PageAddr(v + |ls1|)
    requires RoomToGrow(mem0, t0, free0, v) && t0.root == root && base == PageAddr(v)
    requires Paved(t0, v, |ls1|, t1) && |m.free| == |free0| - Cost(t0, v, |ls1|)
    modifies m`mem, m`freelist, m`free
    ensures m.Valid()
    ensures ok ==> Grown(t0, mem0, free0, t', m.mem, m.free, v, ls) && FreshZeros(ls) && |ls| == |ls1| + 1
    ensures !ok ==> Grown(t0, mem0, free0, t', m.mem, m.free, v, [])
    ensures ok <==> Cost(t0, v, |ls1| + 1) <= |free0|
    ensures ok ==> Paved(t0, v, |ls|, t') && |m.free| == |free0| - Cost(t0, v, |ls|)
  {
    hide Table, Apart, Threaded, NoDup, Grown, RoomToGrow, PageAddr, Aligned, Entry, Resident, WithV, Filled, Vpn,
      Paved, LackingAt;
    LackingNext(t0, v, |ls1|, t1, 0);
    CanGrow(t0, mem0, free0, t1, m.mem, m.free, v, ls1);
    ghost var mem1, free1 := m.mem, m.free;
    ghost var l;
    VpnAddr(v + |ls1|);
    ok, t', l := AddPage(m, root, Vpn(a), USER_PERM, Filled(0), t1);
    GrownTrans(t0, mem0, free0, t1, mem1, free1, t', m.mem, m.free, v, ls1, if ok then [l] else []);
    if ok { PavedNext(t0, v, |ls1|, t1, 1, t'); }
    ls := if ok then ls1 + [l] else ls1;
    if !ok {
      assert ls1 + [] == ls1;
      Unwind(m, root, base, a, t0, mem0, free0, t', v, ls1);
    }
  }

  /** uvmdealloc(pagetable, a, oldsz) after a failure: never panics. */
  method Unwind(m: Memory, root: nat, base: nat, a: nat, ghost t0: Tree, ghost mem0: Ram, ghost free0: seq<nat>,
      ghost t: Tree, ghost v: nat, ghost ls: seq<Leaf>)
    requires m.Valid() && Grown(t0, mem0, free0, t, m.mem, m.free, v, ls) && a == PageAddr(v + |ls|)
    requires RoomToGrow(mem0, t0, free0, v) && t0.root == root && base == PageAddr(v)
    modifies m`mem, m`freelist, m`free
    ensures m.Valid() && Grown(t0, mem0, free0, t, m.mem, m.free, v, [])
  {
    hide Table, Apart, Threaded, NoDup, Grown, RoomToGrow, PageAddr, Aligned, Entry, Resident, Private,
      AllUnmappable, Unmapped;
    CanGrow(t0, mem0, free0, t, m.mem, m.free, v, ls);
    GapIs(v, |ls|);
    GrownRemovable(m, t0, mem0, free0, t, m.mem, m.free, v, ls);
    ghost var mem1, free1 := m.mem, m.free;
    var ok, r := UvmDealloc(m, root, a, base, t);
    GrownUndone(t0, mem0, free0, t, mem1, free1, m.mem, m.free, v, ls);
  }

  lemma GapIs(v: nat, n: nat)
    requires PageAddr(v + n) <= MAXVA
    ensures Pages(PageAddr(v)) == v && PageGap(PageAddr(v), PageAddr(v + n)) == n
  {
    PagesIs(PageAddr(v));
    PagesIs(PageAddr(v + n));
    PageOrder(v, v + n);
    assert (v * 4096 + 4095) / 4096 == v && ((v + n) * 4096 + 4095) / 4096 == v + n;
  }

  /** However far an address space has grown, the next page is below the trapframe and
      not mapped: physical memory is exhausted first. */
  lemma CanGrow(t0: Tree, mem0: Ram, free0: seq<nat>, t: Tree, mem: Ram, free: seq<nat>, v: nat, ls: seq<Leaf>)
    requires Grown(t0, mem0, free0, t, mem, free, v, ls) && RoomToGrow(mem0, t0, free0, v)
    ensures Table(mem, t) && Apart(t, free) && t.root == t0.root && Resident(mem, t)
    ensures v + |ls| < TRAPFRAME_VPN && PageAddr(v + |ls|) < MAXVA && Entry(mem, t, v + |ls|) == 0
    ensures USER_PERM < FLAGS && IsLeaf(USER_PERM)
  {
    TableResident(mem, t);
    hide Table, Entry, Resident;
    assert Entry(mem, t, v + |ls|) == Entry(mem0, t0, v + |ls|);
  }
}
