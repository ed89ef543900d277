/** Whole address spaces over kernel/vm.c: proc_pagetable and proc_freepagetable of
    kernel/proc.c, and the page accounting of growing, shrinking and copying one.

    A space is a table and the list `us` of the physical pages behind virtual pages 0, 1,
    2, ...; `Used` is the set of pages it occupies. Every operation, failing or not, only
    moves pages between that set and the free list: `Moved`. */
module AddressSpace {
  import opened Kalloc
  import opened PageTable
  import opened Uvm
  import opened FreeWalk

  const TRAMPOLINE_VPN: nat := 0x3ff_ffff
  const TRAPFRAME_PERM: nat := 6      // PTE_R | PTE_W
  const TRAMPOLINE_PERM: nat := 10    // PTE_R | PTE_X

  ghost function TreePages(t: Tree): (s: set<nat>) { {t.root} + t.mid.Values + t.low.Values }

  lemma TreePagesAre(t: Tree, q: nat)
    ensures q in TreePages(t) <==> IsTreePage(t, q)
  {}

  /** The physical pages of a space. */
  ghost function Used(t: Tree, us: seq<nat>): (s: set<nat>) { TreePages(t) + Elems(us) }

  lemma UsedIs(t: Tree, us: seq<nat>, q: nat)
    ensures q in Used(t, us) <==> IsTreePage(t, q) || q in us
    ensures q in Used(t, us) <==> !Fresh(t, q) || q in us
  {
    TreePagesAre(t, q);
    FreshIsOutside(t, q);
  }

  /** Virtual page v maps physical page p of RAM, which is not part of the table. */
  ghost predicate Maps(mem: Ram, t: Tree, v: nat, p: nat)
  {
    Resident(mem, t) && Entry(mem, t, v) != 0 && Pa(mem, t, v) == p && p in mem && Fresh(t, p)
  }

  ghost predicate NothingFrom(mem: Ram, t: Tree, v: nat)
  {
    Resident(mem, t) && forall w: nat :: v <= w < TRAPFRAME_VPN ==> Entry(mem, t, w) == 0
  }

  /** The user part maps us[0], us[1], ..., all different, and nothing else. */
  ghost predicate UserPages(mem: Ram, t: Tree, us: seq<nat>)
  {
    && Table(mem, t) && |us| <= TRAPFRAME_VPN && NoDup(us)
    && (forall v :: 0 <= v < |us| ==> Maps(mem, t, v, us[v]))
    && NothingFrom(mem, t, |us|)
  }

  /** Pages moved between a set and the free list, none lost, none gained, none in both,
      and no other page was written. */
  ghost predicate Moved(mem: Ram, free: seq<nat>, u: set<nat>, mem': Ram, free': seq<nat>, u': set<nat>)
  {
    && mem'.Keys == mem.Keys && Elems(free') + u' == Elems(free) + u && Elems(free') !! u'
    && forall q :: q in mem && q !in free && q !in u ==> mem'[q] == mem[q]
  }

  lemma MovedTrans(mem0: Ram, free0: seq<nat>, u0: set<nat>, mem1: Ram, free1: seq<nat>, u1: set<nat>, mem2: Ram,
      free2: seq<nat>, u2: set<nat>)
    requires Moved(mem0, free0, u0, mem1, free1, u1) && Moved(mem1, free1, u1, mem2, free2, u2)
    ensures Moved(mem0, free0, u0, mem2, free2, u2)
  {
    forall q | q in mem0 && q !in free0 && q !in u0 ensures mem2[q] == mem0[q] {
      assert q !in Elems(free0) + u0;
    }
  }

  /** Pages in other hands do not take part. */
  lemma MovedBeside(mem: Ram, free: seq<nat>, u: set<nat>, mem': Ram, free': seq<nat>, u': set<nat>, w: set<nat>)
    requires Moved(mem, free, u, mem', free', u') && w !! Elems(free) + u
    ensures Moved(mem, free, u + w, mem', free', u' + w) && w !! Elems(free') + u'
    ensures forall q :: q in w && q in mem ==> mem'[q] == mem[q]
  {
    assert w !! Elems(free') + u';
    assert Elems(free') + (u' + w) == (Elems(free') + u') + w == Elems(free) + (u + w);
    forall q | q in w && q in mem ensures mem'[q] == mem[q] {
      assert q !in Elems(free) + u;
    }
  }

  // -------------------------------------------------------------------- growing

  ghost function Pas(ls: seq<Leaf>): (s: seq<nat>) { seq(|ls|, i requires 0 <= i < |ls| => ls[i].pa) }

  lemma InPas(ls: seq<Leaf>, q: nat)
    ensures q in Pas(ls) <==> InLeaves(ls, q)
  {
    if InLeaves(ls, q) {
      var i :| 0 <= i < |ls| && ls[i].pa == q;
      assert Pas(ls)[i] == q;
    }
  }

  lemma GrownMaps(t: Tree, mem: Ram, free: seq<nat>, us: seq<nat>, t': Tree, mem': Ram, free': seq<nat>,
      ls: seq<Leaf>, v: nat)
    requires UserPages(mem, t, us) && Used(t, us) !! Elems(free) && Grown(t, mem, free, t', mem', free', |us|, ls)
      && v < |us| + |ls|
    ensures Maps(mem', t', v, (us + Pas(ls))[v])
  {
    hide Table, UserPages, Used;
    TableResident(mem', t');
    if v < |us| {
      assert Maps(mem, t, v, us[v]) by { MapsAt(mem, t, us, v); }
      var q := us[v];
      UsedIs(t, us, q);
      hide Entry, LeafThere, Pte;
      FreshIsOutside(t, q);
      FreshIsOutside(t', q);
      assert q in Used(t, us) && q !in Elems(free);
      assert Entry(mem', t', v) == Entry(mem, t, v);
    } else {
      hide Entry, LeafThere, Pte;
      GrownPa(t, mem, free, t', mem', free', |us|, ls, v - |us|);
    }
  }

  lemma MapsAt(mem: Ram, t: Tree, us: seq<nat>, v: nat)
    requires UserPages(mem, t, us) && v < |us|
    ensures Maps(mem, t, v, us[v])
  {}

  /** A new leaf's page came off the free list. */
  lemma GrownFromFree(t: Tree, mem: Ram, free: seq<nat>, t': Tree, mem': Ram, free': seq<nat>, n: nat, ls: seq<Leaf>,
      i: nat)
    requires Grown(t, mem, free, t', mem', free', n, ls) && i < |ls|
    ensures ls[i].pa in free && ls[i].pa !in free' && Fresh(t', ls[i].pa)
  {
    hide Table, Entry, LeafThere, Pte;
    assert InLeaves(ls, ls[i].pa);
    FreshIsOutside(t', ls[i].pa);
  }

  lemma GrownNoDup(t: Tree, mem: Ram, free: seq<nat>, us: seq<nat>, t': Tree, mem': Ram, free': seq<nat>, ls: seq<Leaf>)
    requires NoDup(us) && Elems(us) !! Elems(free) && Grown(t, mem, free, t', mem', free', |us|, ls)
    ensures NoDup(us + Pas(ls))
  {
    forall i | 0 <= i < |ls| ensures ls[i].pa in free && ls[i].pa !in us {
      GrownFromFree(t, mem, free, t', mem', free', |us|, ls, i);
      assert ls[i].pa in Elems(free);
    }
    assert forall i, j :: 0 <= i < j < |ls| ==> ls[i].pa != ls[j].pa;
    hide Grown;
    var all := us + Pas(ls);
    forall i, j | 0 <= i < j < |all| ensures all[i] != all[j] {
      if j >= |us| {
        assert all[j] == ls[j - |us|].pa;
        if i < |us| {
          assert all[i] in us;
        } else {
          assert all[i] == ls[i - |us|].pa;
        }
      }
    }
  }

  lemma GrownMoved(t: Tree, mem: Ram, free: seq<nat>, us: seq<nat>, t': Tree, mem': Ram, free': seq<nat>, ls: seq<Leaf>)
    requires UserPages(mem, t, us) && Used(t, us) !! Elems(free) && Grown(t, mem, free, t', mem', free', |us|, ls)
    ensures Moved(mem, free, Used(t, us), mem', free', Used(t', us + Pas(ls)))
  {
    hide Grown, IsTreePage, InLeaves, UserPages, Used, Fresh, Pas;
    var all := us + Pas(ls);
    GrownBalance(t, mem, free, t', mem', free', |us|, ls);
    forall q ensures q in Used(t, us) <==> IsTreePage(t, q) || q in us { UsedIs(t, us, q); }
    forall q ensures q in Used(t', all) <==> IsTreePage(t', q) || InLeaves(ls, q) || q in us {
      UsedIs(t', all, q);
      InPas(ls, q);
    }
    forall q ensures q in Elems(free') + Used(t', all) <==> q in Elems(free) + Used(t, us) {}
    forall q | q in free' ensures q !in Used(t', all) {
      if q in us {
        UsFree(mem, t, us, q);
      }
    }
    forall q | q in mem && q !in free && q !in Used(t, us) ensures mem'[q] == mem[q] {
      FreshIsOutside(t', q);
    }
  }

  /** Where the pages are after growing. */
  lemma GrownBalance(t: Tree, mem: Ram, free: seq<nat>, t': Tree, mem': Ram, free': seq<nat>, n: nat, ls: seq<Leaf>)
    requires Grown(t, mem, free, t', mem', free', n, ls)
    ensures mem'.Keys == mem.Keys
    ensures forall q :: q in free || IsTreePage(t, q) <==> q in free' || IsTreePage(t', q) || InLeaves(ls, q)
    ensures forall q | q in free' :: !IsTreePage(t', q) && !InLeaves(ls, q)
    ensures forall q | q in mem && Fresh(t', q) && q !in free :: mem'[q] == mem[q]
  {
    hide Table, Entry, LeafThere, Pte, Resident, IsTreePage;
    forall q | q in free' ensures !IsTreePage(t', q) && !InLeaves(ls, q) { FreshIsOutside(t', q); }
  }

  lemma UsFree(mem: Ram, t: Tree, us: seq<nat>, q: nat)
    requires UserPages(mem, t, us) && q in us
    ensures !IsTreePage(t, q)
  {
    var v :| 0 <= v < |us| && us[v] == q;
    FreshIsOutside(t, us[v]);
  }

  /** A grown space is a space, with the pages it had unchanged. */
  lemma GrownSpace(t: Tree, mem: Ram, free: seq<nat>, us: seq<nat>, t': Tree, mem': Ram, free': seq<nat>, ls: seq<Leaf>)
    requires UserPages(mem, t, us) && Used(t, us) !! Elems(free) && Grown(t, mem, free, t', mem', free', |us|, ls)
    requires |us| + |ls| <= TRAPFRAME_VPN
    ensures UserPages(mem', t', us + Pas(ls))
    ensures Moved(mem, free, Used(t, us), mem', free', Used(t', us + Pas(ls)))
    ensures forall q :: q in us ==> q in mem && mem'[q] == mem[q]
  {
    hide Table, Maps, Grown, Moved, NoDup, NothingFrom, Used, Pas, Elems;
    GrownTable(t, mem, free, t', mem', free', |us|, ls);
    GrownMoved(t, mem, free, us, t', mem', free', ls);
    forall q | q in us ensures q in mem && mem'[q] == mem[q] {
      GrownKeeps(t, mem, free, us, t', mem', free', ls, q);
    }
    GrownNothing(t, mem, free, t', mem', free', |us|, ls);
    assert Elems(us) !! Elems(free) by { UsAside(t, us, free); }
    GrownNoDup(t, mem, free, us, t', mem', free', ls);
    assert |Pas(ls)| == |ls| by { PasLength(ls); }
    forall v | 0 <= v < |us| + |ls| ensures Maps(mem', t', v, (us + Pas(ls))[v]) {
      GrownMaps(t, mem, free, us, t', mem', free', ls, v);
    }
  }

  lemma UsAside(t: Tree, us: seq<nat>, free: seq<nat>)
    requires Used(t, us) !! Elems(free)
    ensures Elems(us) !! Elems(free)
  {}

  lemma PasLength(ls: seq<Leaf>)
    ensures |Pas(ls)| == |ls|
  {}

  lemma GrownTable(t: Tree, mem: Ram, free: seq<nat>, t': Tree, mem': Ram, free': seq<nat>, n: nat, ls: seq<Leaf>)
    requires Grown(t, mem, free, t', mem', free', n, ls)
    ensures Table(mem', t') && mem'.Keys == mem.Keys
  {}

  lemma GrownNothing(t: Tree, mem: Ram, free: seq<nat>, t': Tree, mem': Ram, free': seq<nat>, n: nat, ls: seq<Leaf>)
    requires NothingFrom(mem, t, n) && Grown(t, mem, free, t', mem', free', n, ls)
    ensures NothingFrom(mem', t', n + |ls|)
  {
    TableResident(mem', t');
    hide Table, Entry, LeafThere, Pte;
  }

  lemma GrownKeeps(t: Tree, mem: Ram, free: seq<nat>, us: seq<nat>, t': Tree, mem': Ram, free': seq<nat>,
      ls: seq<Leaf>, q: nat)
    requires UserPages(mem, t, us) && Used(t, us) !! Elems(free) && Grown(t, mem, free, t', mem', free', |us|, ls)
      && q in us
    ensures q in mem && mem'[q] == mem[q]
  {
    var v :| 0 <= v < |us| && us[v] == q;
    GrownMaps(t, mem, free, us, t', mem', free', ls, v);
    MapsAt(mem, t, us, v);
    assert q in Used(t, us) && q !in Elems(free);
    hide Table, Entry, LeafThere, Pte, UserPages, Used;
    assert Fresh(t', q) && q !in free;
  }

  // ------------------------------------------------------------------ shrinking

  /** Any run of user pages can be taken out. */
  lemma Removable(m: Memory, mem: Ram, t: Tree, us: seq<nat>, free: seq<nat>, lo: nat, n: nat)
    requires UserPages(mem, t, us) && Used(t, us) !! Elems(free) && lo + n <= |us|
    requires forall p: nat :: p in mem ==> m.IsPage(p)
    ensures Private(mem, t, free, lo, n) && AllUnmappable(m, mem, t, lo, n, true)
  {
    hide Table, Entry, Pa, Used;
    TableResident(mem, t);
    forall i: nat | lo <= i < lo + n
      ensures Unmappable(m, mem, t, i, true) && Fresh(t, Pa(mem, t, i)) && Pa(mem, t, i) !in free
        && Pa(mem, t, i) == us[i]
    {
      MapsAt(mem, t, us, i);
      UsedIs(t, us, us[i]);
      assert us[i] in Used(t, us) && us[i] !in Elems(free);
      PageOrder(i, 0x400_0000);
    }
  }

  lemma TakenUs(mem: Ram, t: Tree, us: seq<nat>, lo: nat, n: nat, q: nat)
    requires UserPages(mem, t, us) && lo + n <= |us|
    ensures Resident(mem, t) && (q in Taken(mem, t, lo, n) <==> q in us[lo..lo + n])
  {
    hide Table, Entry, Pa;
    TableResident(mem, t);
    TakenIs(mem, t, lo, n, q);
    if i: nat :| lo <= i < lo + n && Pa(mem, t, i) == q {
      MapsAt(mem, t, us, i);
      assert us[lo..lo + n][i - lo] == q;
    }
    if q in us[lo..lo + n] {
      var i :| 0 <= i < n && us[lo..lo + n][i] == q;
      MapsAt(mem, t, us, lo + i);
      assert Pa(mem, t, lo + i) == q;
    }
  }

  /** Taking out the last pages gives them to the free list. */
  lemma ShrunkSpace(t: Tree, mem: Ram, free: seq<nat>, us: seq<nat>, mem': Ram, free': seq<nat>, lo: nat)
    requires UserPages(mem, t, us) && Used(t, us) !! Elems(free) && lo <= |us|
    requires Unmapped(t, mem, free, mem', free', lo, |us| - lo, true)
    ensures UserPages(mem', t, us[..lo])
    ensures Moved(mem, free, Used(t, us), mem', free', Used(t, us[..lo]))
    ensures forall q :: q in us[..lo] ==> q in mem && mem'[q] == mem[q]
  {
    ShrunkFree(t, mem, free, us, mem', free', lo);
    ShrunkMaps(t, mem, free, us, mem', free', lo);
    ShrunkParts(us, lo);
    ShrunkMoved(t, mem, free, us, mem', free', lo);
    forall q | q in us[..lo] ensures q in mem && mem'[q] == mem[q] {
      ShrunkKeeps(t, mem, free, us, mem', free', lo, q);
    }
    assert Table(mem', t);
    hide Table, Unmapped, Used, Moved, Maps, NothingFrom, NoDup;
    assert |us| <= TRAPFRAME_VPN;
  }

  lemma ShrunkFree(t: Tree, mem: Ram, free: seq<nat>, us: seq<nat>, mem': Ram, free': seq<nat>, lo: nat)
    requires UserPages(mem, t, us) && lo <= |us| && Unmapped(t, mem, free, mem', free', lo, |us| - lo, true)
    ensures forall q :: q in free' <==> q in free || q in us[lo..]
  {
    hide Table, Entry, Pa, Taken, UserPages;
    forall q ensures q in free' <==> q in free || q in us[lo..] {
      TakenUs(mem, t, us, lo, |us| - lo, q);
      assert us[lo..lo + (|us| - lo)] == us[lo..];
    }
  }

  lemma ShrunkMoved(t: Tree, mem: Ram, free: seq<nat>, us: seq<nat>, mem': Ram, free': seq<nat>, lo: nat)
    requires UserPages(mem, t, us) && Used(t, us) !! Elems(free) && lo <= |us|
    requires Unmapped(t, mem, free, mem', free', lo, |us| - lo, true)
    requires forall q :: q in free' <==> q in free || q in us[lo..]
    requires (forall q :: q in us <==> q in us[..lo] || q in us[lo..]) && Elems(us[..lo]) !! Elems(us[lo..])
    ensures Moved(mem, free, Used(t, us), mem', free', Used(t, us[..lo]))
  {
    hide Table, Entry, Pa, Taken, UserPages, Used, Fresh;
    forall q ensures q in Used(t, us) <==> q in Used(t, us[..lo]) || q in us[lo..] {
      UsedIs(t, us, q);
      UsedIs(t, us[..lo], q);
    }
    forall q | q in free' ensures q !in Used(t, us[..lo]) {
      UsedIs(t, us[..lo], q);
      UsedIs(t, us, q);
      assert q in free ==> q in Elems(free);
      assert q in us[lo..] ==> q in Elems(us[lo..]) && q !in Elems(us[..lo]);
      if q in us { UsFree(mem, t, us, q); }
    }
    forall q | q in mem && q !in free && q !in Used(t, us) ensures mem'[q] == mem[q] {
      UsedIs(t, us, q);
    }
  }

  lemma ShrunkParts(us: seq<nat>, lo: nat)
    requires NoDup(us) && lo <= |us|
    ensures NoDup(us[..lo]) && (forall q :: q in us <==> q in us[..lo] || q in us[lo..])
      && Elems(us[..lo]) !! Elems(us[lo..])
  {
    assert us == us[..lo] + us[lo..];
  }

  lemma ShrunkMaps(t: Tree, mem: Ram, free: seq<nat>, us: seq<nat>, mem': Ram, free': seq<nat>, lo: nat)
    requires UserPages(mem, t, us) && lo <= |us| && Unmapped(t, mem, free, mem', free', lo, |us| - lo, true)
    ensures forall v :: 0 <= v < lo ==> Maps(mem', t, v, us[..lo][v])
    ensures NothingFrom(mem', t, lo)
  {
    TableResident(mem', t);
    hide Table, Entry, Taken;
    forall v | 0 <= v < lo ensures Maps(mem', t, v, us[..lo][v]) {
      MapsAt(mem, t, us, v);
      assert Entry(mem', t, v) == Entry(mem, t, v);
    }
    assert NothingFrom(mem, t, |us|);
  }

  lemma ShrunkKeeps(t: Tree, mem: Ram, free: seq<nat>, us: seq<nat>, mem': Ram, free': seq<nat>, lo: nat, q: nat)
    requires UserPages(mem, t, us) && Used(t, us) !! Elems(free) && lo <= |us|
      && Unmapped(t, mem, free, mem', free', lo, |us| - lo, true)
    requires q in us[..lo] && (q in free' <==> q in free || q in us[lo..])
    ensures q in mem && mem'[q] == mem[q]
  {
    ShrunkParts(us, lo);
    assert q in Elems(us[..lo]) && q !in Elems(us[lo..]);
    UsFree(mem, t, us, q);
    FreshIsOutside(t, q);
    UsedIs(t, us, q);
    assert q in Used(t, us) && q !in Elems(free);
    var v :| 0 <= v < |us| && us[v] == q;
    MapsAt(mem, t, us, v);
  }

  // ------------------------------------------ proc_pagetable, proc_freepagetable

  /** A space with its two entries at the top: the trapframe's and the trampoline's. */
  ghost predicate Space(mem: Ram, t: Tree, us: seq<nat>, trapframe: nat, trampoline: nat)
  {
    && UserPages(mem, t, us) && Resident(mem, t)
    && Entry(mem, t, TRAPFRAME_VPN) == trapframe && Entry(mem, t, TRAMPOLINE_VPN) == trampoline
    && forall v: nat :: v > TRAMPOLINE_VPN ==> Entry(mem, t, v) == 0
  }

  /** Pages the tree took while walking. */
  lemma GrewMoved(mem: Ram, t: Tree, free: seq<nat>, mem': Ram, t': Tree, free': seq<nat>)
    requires Grew(t, free, t', free') && OnlyTree(mem, mem', t') && Apart(t', free')
    ensures Moved(mem, free, Used(t, []), mem', free', Used(t', []))
  {
    var k := |free| - |free'|;
    assert free == free[..k] + free';
    forall q ensures q in Used(t, []) <==> IsTreePage(t, q) { UsedIs(t, [], q); }
    forall q ensures q in Used(t', []) <==> IsTreePage(t', q) { UsedIs(t', [], q); }
    forall q ensures Fresh(t', q) <==> !IsTreePage(t', q) { FreshIsOutside(t', q); }
    hide Used, IsTreePage, Fresh;
    forall q ensures q in Elems(free') + Used(t', []) <==> q in Elems(free) + Used(t, []) {
      assert q in free <==> q in free[..k] || q in free';
    }
  }

  lemma WalkedSpace(mem: Ram, t: Tree, free: seq<nat>, mem': Ram, t': Tree, free': seq<nat>, tf: nat, tr: nat)
    requires Space(mem, t, [], tf, tr) && Walk2(t, mem, free, t', mem', free')
    ensures Space(mem', t', [], tf, tr) && Moved(mem, free, Used(t, []), mem', free', Used(t', []))
  {
    GrewMoved(mem, t, free, mem', t', free');
    TableResident(mem', t');
    hide Table, Entry, Grew, Moved, Used, Apart, OnlyTree;
    assert forall v: nat :: Entry(mem', t', v) == Entry(mem, t, v);
  }

  lemma StoredSpace(mem: Ram, t: Tree, free: seq<nat>, mem': Ram, t': Tree, free': seq<nat>, tf: nat, tr: nat, v: nat,
      pte: nat)
    requires Space(mem, t, [], tf, tr) && PageTable.Stored(t, mem, free, t', mem', free', v, pte)
    requires v == TRAPFRAME_VPN || v == TRAMPOLINE_VPN
    ensures Space(mem', t', [], if v == TRAPFRAME_VPN then pte else tf, if v == TRAMPOLINE_VPN then pte else tr)
    ensures Moved(mem, free, Used(t, []), mem', free', Used(t', []))
  {
    hide Table, Entry, Grew, Moved, Used, Apart, OnlyTree, NoDup;
    GrewMoved(mem, t, free, mem', t', free');
    TableResident(mem', t');
    assert forall w: nat :: Entry(mem', t', w) == if w == v then pte else Entry(mem, t, w);
  }

  lemma SpaceApart(mem: Ram, t: Tree, us: seq<nat>, free: seq<nat>, tf: nat, tr: nat)
    requires Space(mem, t, us, tf, tr) && Used(t, us) !! Elems(free)
    ensures Table(mem, t) && Apart(t, free) && Resident(mem, t)
  {
    forall p | p in free ensures Fresh(t, p) {
      assert p in Elems(free);
      UsedIs(t, us, p);
    }
  }

  lemma TopAddr(v: nat)
    requires v == TRAPFRAME_VPN || v == TRAMPOLINE_VPN
    ensures PageAddr(v) < MAXVA && PageAddr(v) + PGSIZE < U64 && PageAddr(v) + PageAddr(1) < U64
      && Vpn(PageAddr(v)) == v && Aligned(PageAddr(v))
    ensures IsLeaf(TRAPFRAME_PERM) && IsLeaf(TRAMPOLINE_PERM)
  {}

  /** mappages() of one page at the top; it can only fail for lack of memory. */
  method MapTop(m: Memory, root: nat, v: nat, pa: nat, perm: nat, ghost t: Tree, ghost tf: nat, ghost tr: nat)
      returns (ok: bool, ghost t': Tree)
    requires m.Valid() && Space(m.mem, t, [], tf, tr) && Used(t, []) !! Elems(m.free) && t.root == root
    requires Aligned(pa) && ((v == TRAPFRAME_VPN && perm == TRAPFRAME_PERM && tf == 0)
      || (v == TRAMPOLINE_VPN && perm == TRAMPOLINE_PERM && tr == 0))
    modifies m`mem, m`freelist, m`free
    ensures m.Valid() && Moved(old(m.mem), old(m.free), Used(t, []), m.mem, m.free, Used(t', [])) && t'.root == root
    ensures ok ==>
      Space(m.mem, t', [], if v == TRAPFRAME_VPN then Pte(pa, WithV(perm))
      else tf, if v == TRAMPOLINE_VPN then Pte(pa, WithV(perm)) else tr)
    ensures !ok ==> Space(m.mem, t', [], tf, tr) && m.free == []
    ensures ok <==> LackingAt(t, v, 0) <= |old(m.free)|
    ensures ok ==> Paved(t, v, 1, t') && |m.free| == |old(m.free)| - LackingAt(t, v, 0)
  {
    TopAddr(v);
    SpaceApart(m.mem, t, [], m.free, tf, tr);
    assert Entry(m.mem, t, v) == 0;
    hide Table, Apart, Threaded, NoDup, Entry, Space, Used, Pte, WithV, PageAddr, IsLeaf, Aligned, Moved, Paved,
      LackingAt;
    var r;
    r, t' := MapPage(m, root, v, pa, perm, t);
    if r.Mapped? {
      StoredSpace(old(m.mem), t, old(m.free), m.mem, t', m.free, tf, tr, v, Pte(pa, WithV(perm)));
      StoredRoot(old(m.mem), t, old(m.free), m.mem, t', m.free, v, Pte(pa, WithV(perm)));
      ok := true;
    } else {
      WalkedSpace(old(m.mem), t, old(m.free), m.mem, t', m.free, tf, tr);
      ok := false;
    }
  }

  lemma StoredRoot(mem: Ram, t: Tree, free: seq<nat>, mem': Ram, t': Tree, free': seq<nat>, v: nat, pte: nat)
    requires PageTable.Stored(t, mem, free, t', mem', free', v, pte)
    ensures t'.root == t.root
  {}

  lemma UnmappedTop(mem: Ram, t: Tree, us: seq<nat>, free: seq<nat>, mem': Ram, tf: nat, tr: nat, v: nat)
    requires Space(mem, t, us, tf, tr) && Used(t, us) !! Elems(free) && Unmapped(t, mem, free, mem', free, v, 1, false)
    requires v == TRAPFRAME_VPN || v == TRAMPOLINE_VPN
    ensures Space(mem', t, us, if v == TRAPFRAME_VPN then 0 else tf, if v == TRAMPOLINE_VPN then 0 else tr)
    ensures Moved(mem, free, Used(t, us), mem', free, Used(t, us))
  {
    TableResident(mem', t);
    hide Table, Entry, Used;
    assert forall w: nat :: Entry(mem', t, w) == if w == v then 0 else Entry(mem, t, w);
    forall w | 0 <= w < |us| ensures Maps(mem', t, w, us[w]) { MapsAt(mem, t, us, w); }
    forall q | q in mem && q !in free && q !in Used(t, us) ensures mem'[q] == mem[q] { UsedIs(t, us, q); }
  }

  /** uvmunmap(pagetable, ..., 1, 0) of one of the two; it never panics. */
  method DropTop(m: Memory, root: nat, v: nat, ghost t: Tree, ghost us: seq<nat>, ghost tf: nat, ghost tr: nat)
    requires m.Valid() && Space(m.mem, t, us, tf, tr) && Used(t, us) !! Elems(m.free) && t.root == root
    requires (v == TRAPFRAME_VPN && tf != 0) || (v == TRAMPOLINE_VPN && tr != 0)
    modifies m`mem, m`freelist, m`free
    ensures m.Valid() && m.free == old(m.free)
    ensures Space(m.mem, t, us, if v == TRAPFRAME_VPN then 0 else tf, if v == TRAMPOLINE_VPN then 0 else tr)
    ensures Moved(old(m.mem), old(m.free), Used(t, us), m.mem, m.free, Used(t, us))
  {
    TopAddr(v);
    SpaceApart(m.mem, t, us, m.free, tf, tr);
    TopUnmappable(m, m.mem, t, us, tf, tr, v);
    hide Table, Apart, Threaded, NoDup, Entry, Space, Used, PageAddr, Vpn, Aligned, Moved, AllUnmappable, Resident;
    var ok := UvmUnmap(m, root, PageAddr(v), 1, false, t);
    hide Unmapped;
    UnmappedTop(old(m.mem), t, us, old(m.free), m.mem, tf, tr, v);
  }

  lemma TopUnmappable(m: Memory, mem: Ram, t: Tree, us: seq<nat>, tf: nat, tr: nat, v: nat)
    requires Space(mem, t, us, tf, tr)
    requires (v == TRAPFRAME_VPN && tf != 0) || (v == TRAMPOLINE_VPN && tr != 0)
    ensures Resident(mem, t) && AllUnmappable(m, mem, t, v, 1, false)
  {
    TopAddr(v);
    hide Entry, Table, PageAddr;
  }

  /** uvmfree(pagetable, sz) of a space without its top entries: never panics, and the
      whole space returns to the free list. */
  method Scrap(m: Memory, root: nat, sz: nat, ghost t: Tree, ghost us: seq<nat>)
    requires m.Valid() && Space(m.mem, t, us, 0, 0) && Used(t, us) !! Elems(m.free) && t.root == root
    requires sz <= MAXVA && |us| == Pages(sz)
    modifies m`mem, m`freelist, m`free
    ensures m.Valid() && Moved(old(m.mem), old(m.free), Used(t, us), m.mem, m.free, {})
  {
    SpaceApart(m.mem, t, us, m.free, 0, 0);
    Removable(m, m.mem, t, us, m.free, 0, |us|);
    NothingAbove(m.mem, t, us);
    hide Table, Apart, Threaded, NoDup, Entry, Space, Used, Moved, AllUnmappable, Private, Pages, Resident;
    var ok := UvmFree(m, root, sz, t);
    ScrapMoved(old(m.mem), t, us, old(m.free), m.mem, m.free);
  }

  lemma NothingAbove(mem: Ram, t: Tree, us: seq<nat>)
    requires Space(mem, t, us, 0, 0)
    ensures Resident(mem, t) && forall v: nat :: v >= |us| ==> Entry(mem, t, v) == 0
  {
    hide Entry, Table;
    forall v: nat | v >= |us| ensures Entry(mem, t, v) == 0 {
      if v < TRAPFRAME_VPN {
      } else if v > TRAMPOLINE_VPN {
      } else {
        assert v == TRAPFRAME_VPN || v == TRAMPOLINE_VPN;
      }
    }
  }

  lemma ScrapMoved(mem: Ram, t: Tree, us: seq<nat>, free: seq<nat>, mem': Ram, free': seq<nat>)
    requires Space(mem, t, us, 0, 0) && mem'.Keys == mem.Keys
    requires forall q ::
      q in free' <==> q in free || IsTreePage(t, q) || exists v: nat :: v < |us| && Pa(mem, t, v) == q
    requires forall q :: q in mem && q !in free' ==> mem'[q] == mem[q]
    ensures Moved(mem, free, Used(t, us), mem', free', {})
  {
    hide Table, Entry, Pa, Used, IsTreePage;
    forall q ensures q in free' <==> q in free || q in Used(t, us) {
      UsedIs(t, us, q);
      if v: nat :| v < |us| && Pa(mem, t, v) == q {
        MapsAt(mem, t, us, v);
      }
      if q in us {
        var v :| 0 <= v < |us| && us[v] == q;
        MapsAt(mem, t, us, v);
        assert Pa(mem, t, v) == q;
      }
    }
  }

  /** uvmcreate(). */
  method NewRoot(m: Memory) returns (root: nat, ghost t: Tree)
    requires m.Valid()
    modifies m`mem, m`freelist, m`free
    ensures m.Valid()
    ensures root == 0 ==> m.mem == old(m.mem) && m.free == old(m.free) == []
    ensures root != 0 ==>
      t.root == root && Space(m.mem, t, [], 0, 0) && Moved(old(m.mem), old(m.free), {}, m.mem, m.free, Used(t, []))
    ensures root != 0 ==> t.mid == map[] && t.low == map[] && |m.free| == |old(m.free)| - 1
  {
    hide Threaded, NoDup;
    ghost var mem0 := m.mem;
    root := m.Kalloc();
    t := Tree(root, map[], map[]);
    if root != 0 {
      assert [root] + m.free == old(m.free);
      FirstNotRest(root, m.free);
      FillPage(m, root, Filled(0));
      EmptyTable(mem0, m.mem, root, m.free);
    }
  }

  lemma EmptyTable(mem: Ram, mem': Ram, p: nat, free: seq<nat>)
    requires p in mem && p !in free && (forall q :: q in mem ==> Aligned(q)) && mem'.Keys == mem.Keys
    requires mem'[p] == Filled(0) && forall q :: q in mem && q != p ==> mem'[q] == mem[q]
    ensures var t := Tree(p, map[], map[]);
      Space(mem', t, [], 0, 0) && Moved(mem, [p] + free, {}, mem', free, Used(t, []))
  {
    var t := Tree(p, map[], map[]);
    hide Aligned;
    forall q ensures q in Used(t, []) <==> q == p {}
    forall q ensures q in Elems([p] + free) <==> q == p || q in free {}
    forall q | q in mem && q !in [p] + free ensures mem'[q] == mem[q] {
      assert q !in Elems([p] + free);
    }
  }

  ghost function TrapframeEntry(pa: nat): (e: nat) ensures e != 0 { Pte(pa, WithV(TRAPFRAME_PERM)) }

  ghost function TrampolineEntry(pa: nat): (e: nat) ensures e != 0 { Pte(pa, WithV(TRAMPOLINE_PERM)) }

  /** The empty space of a process, with its own trapframe page and the shared trampoline. */
  ghost predicate ProcSpace(mem: Ram, t: Tree, us: seq<nat>, trapframe: nat, trampoline: nat)
  {
    Space(mem, t, us, TrapframeEntry(trapframe), TrampolineEntry(trampoline))
  }

  /** The tables on the way to the trampoline and the trapframe, and no others. */
  ghost predicate TopTables(t: Tree) { t.mid.Keys == {255} && t.low.Keys == {(255, 511)} }

  /** They take two pages, and the trapframe takes none beside the trampoline. */
  lemma TopCost(t: Tree, t': Tree)
    requires t.mid == map[] && t.low == map[]
    ensures LackingAt(t, TRAMPOLINE_VPN, 0) == 2
    ensures Paved(t, TRAMPOLINE_VPN, 1, t') ==> TopTables(t')
  {
    hide MidsOf, LowsOf;
    TopDigits();
  }

  lemma TopDigits()
    ensures D2(TRAMPOLINE_VPN) == 255 == D2(TRAPFRAME_VPN) && D1(TRAMPOLINE_VPN) == 511 == D1(TRAPFRAME_VPN)
    ensures forall v | v == TRAMPOLINE_VPN || v == TRAPFRAME_VPN ::
      MidsOf(v, 1) == {255} && LowsOf(v, 1) == {(255, 511)}
  {}

  lemma FrameCost(t: Tree, t': Tree)
    requires TopTables(t)
    ensures LackingAt(t, TRAPFRAME_VPN, 0) == 0
    ensures Paved(t, TRAPFRAME_VPN, 1, t') ==> TopTables(t')
  {
    TopDigits();
    hide MidsOf, LowsOf;
  }

  /** proc_pagetable(): a new table of three pages or, with 0, every page taken is back. */
  method ProcPagetable(m: Memory, trapframe: nat, trampoline: nat) returns (root: nat, ghost t: Tree)
    requires m.Valid() && Aligned(trapframe) && Aligned(trampoline)
    modifies m`mem, m`freelist, m`free
    ensures m.Valid()
    ensures root == 0 ==> Moved(old(m.mem), old(m.free), {}, m.mem, m.free, {})
    ensures root != 0 ==> t.root == root && ProcSpace(m.mem, t, [], trapframe, trampoline)
                          && Moved(old(m.mem), old(m.free), {}, m.mem, m.free, Used(t, []))
    ensures root != 0 <==> |old(m.free)| >= 3
    ensures root != 0 ==> |m.free| == |old(m.free)| - 3 && TopTables(t)
    ensures root != 0 ==> TopFlags(m.mem, t)
  {
    hide Threaded, NoDup, Space, Used, Moved, Aligned, TrapframeEntry, TrampolineEntry, TopTables, TopFlags;
    root, t := NewRoot(m);
    NotMoved(m.mem, m.free);
    if root == 0 {
      return;
    }
    MovedApart(old(m.mem), old(m.free), {}, m.mem, m.free, Used(t, []));
    var ok := true;
    ok, t := AddTops(m, root, trapframe, trampoline, t, old(m.mem), old(m.free));
    if ok {
      ProcFlags(m.mem, t, [], trapframe, trampoline);
    } else {
      root := 0;
    }
  }

  /** The trampoline can be read and executed, the trapframe read and written, neither by user
      code. */
  ghost predicate TopFlags(mem: Ram, t: Tree)
  {
    && Resident(mem, t)
    && (var pte := Entry(mem, t, TRAMPOLINE_VPN); IsV(pte) && IsR(pte) && IsX(pte) && !IsW(pte) && !IsU(pte))
    && (var pte := Entry(mem, t, TRAPFRAME_VPN); IsV(pte) && IsR(pte) && IsW(pte) && !IsX(pte) && !IsU(pte))
  }

  /** So it is in every process's space. */
  lemma ProcFlags(mem: Ram, t: Tree, us: seq<nat>, trapframe: nat, trampoline: nat)
    requires ProcSpace(mem, t, us, trapframe, trampoline)
    ensures TopFlags(mem, t)
  {
    hide UserPages, Entry, Pte;
    FlagBits(trapframe, WithV(TRAPFRAME_PERM));
    FlagBits(trampoline, WithV(TRAMPOLINE_PERM));
  }

  lemma NotMoved(mem: Ram, free: seq<nat>)
    ensures Moved(mem, free, {}, mem, free, {})
  {}

  lemma MovedApart(mem: Ram, free: seq<nat>, u: set<nat>, mem': Ram, free': seq<nat>, u': set<nat>)
    requires Moved(mem, free, u, mem', free', u')
    ensures u' !! Elems(free') && mem'.Keys == mem.Keys
  {}

  /** The two calls of mappages(), unwinding on failure. */
  method AddTops(m: Memory, root: nat, trapframe: nat, trampoline: nat, ghost t: Tree, ghost mem0: Ram,
      ghost free0: seq<nat>)
      returns (ok: bool, ghost t': Tree)
    requires m.Valid() && Aligned(trapframe) && Aligned(trampoline) && t.root == root && t.mid == map[]
      && t.low == map[]
    requires Space(m.mem, t, [], 0, 0) && Moved(mem0, free0, {}, m.mem, m.free, Used(t, []))
    modifies m`mem, m`freelist, m`free
    ensures m.Valid()
    ensures ok ==>
      t'.root == root && ProcSpace(m.mem, t', [], trapframe, trampoline)
      && Moved(mem0, free0, {}, m.mem, m.free, Used(t', []))
    ensures !ok ==> Moved(mem0, free0, {}, m.mem, m.free, {})
    ensures ok <==> |old(m.free)| >= 2
    ensures ok ==> |m.free| == |old(m.free)| - 2 && TopTables(t')
  {
    hide Threaded, NoDup, Space, Used, Moved, Aligned, Pages, Paved, LackingAt, TopTables;
    MovedApart(mem0, free0, {}, m.mem, m.free, Used(t, []));
    NoPages();
    ghost var mem1, free1 := m.mem, m.free;
    ok, t' := MapTop(m, root, TRAMPOLINE_VPN, trampoline, TRAMPOLINE_PERM, t, 0, 0);
    MovedTrans(mem0, free0, {}, mem1, free1, Used(t, []), m.mem, m.free, Used(t', []));
    MovedApart(mem0, free0, {}, m.mem, m.free, Used(t', []));
    TopCost(t, t');
    if !ok {
      mem1, free1 := m.mem, m.free;
      Scrap(m, root, 0, t', []);
      MovedTrans(mem0, free0, {}, mem1, free1, Used(t', []), m.mem, m.free, {});
      return;
    }
    ok, t' := AddTrapframe(m, root, trapframe, trampoline, t', mem0, free0);
  }

  method AddTrapframe(m: Memory, root: nat, trapframe: nat, trampoline: nat, ghost t: Tree, ghost mem0: Ram,
      ghost free0: seq<nat>)
      returns (ok: bool, ghost t': Tree)
    requires m.Valid() && Aligned(trapframe) && Aligned(trampoline) && t.root == root && TopTables(t)
    requires Space(m.mem, t, [], 0, TrampolineEntry(trampoline)) && Moved(mem0, free0, {}, m.mem, m.free, Used(t, []))
    modifies m`mem, m`freelist, m`free
    ensures m.Valid()
    ensures ok ==>
      t'.root == root && ProcSpace(m.mem, t', [], trapframe, trampoline)
      && Moved(mem0, free0, {}, m.mem, m.free, Used(t', []))
    ensures !ok ==> Moved(mem0, free0, {}, m.mem, m.free, {})
    ensures ok && |m.free| == |old(m.free)| && TopTables(t')
  {
    hide Threaded, NoDup, Space, Used, Moved, Aligned, Pages, Paved, LackingAt, TopTables;
    MovedApart(mem0, free0, {}, m.mem, m.free, Used(t, []));
    NoPages();
    ghost var mem1, free1 := m.mem, m.free;
    ok, t' := MapTop(m, root, TRAPFRAME_VPN, trapframe, TRAPFRAME_PERM, t, 0, TrampolineEntry(trampoline));
    MovedTrans(mem0, free0, {}, mem1, free1, Used(t, []), m.mem, m.free, Used(t', []));
    MovedApart(mem0, free0, {}, m.mem, m.free, Used(t', []));
    if !ok {
      mem1, free1 := m.mem, m.free;
      DropTop(m, root, TRAMPOLINE_VPN, t', [], 0, TrampolineEntry(trampoline));
      MovedTrans(mem0, free0, {}, mem1, free1, Used(t', []), m.mem, m.free, Used(t', []));
      mem1, free1 := m.mem, m.free;
      Scrap(m, root, 0, t', []);
      MovedTrans(mem0, free0, {}, mem1, free1, Used(t', []), m.mem, m.free, {});
    }
    FrameCost(t, t');
  }

  /** proc_freepagetable(): never panics; the whole space returns to the free list, and
      neither the trapframe's page nor the trampoline's is freed. */
  method ProcFreePagetable(m: Memory, root: nat, sz: nat, ghost t: Tree, ghost us: seq<nat>, ghost trapframe: nat,
      ghost trampoline: nat)
    requires m.Valid() && ProcSpace(m.mem, t, us, trapframe, trampoline) && Used(t, us) !! Elems(m.free)
      && t.root == root
    requires sz <= MAXVA && |us| == Pages(sz)
    modifies m`mem, m`freelist, m`free
    ensures m.Valid() && Moved(old(m.mem), old(m.free), Used(t, us), m.mem, m.free, {})
  {
    hide Threaded, NoDup, Space, Used, Moved, Pages, TrapframeEntry, TrampolineEntry;
    DropTop(m, root, TRAMPOLINE_VPN, t, us, TrapframeEntry(trapframe), TrampolineEntry(trampoline));
    ghost var mem1, free1 := m.mem, m.free;
    DropTop(m, root, TRAPFRAME_VPN, t, us, TrapframeEntry(trapframe), 0);
    MovedTrans(old(m.mem), old(m.free), Used(t, us), mem1, free1, Used(t, us), m.mem, m.free, Used(t, us));
    ghost var mem2, free2 := m.mem, m.free;
    Scrap(m, root, sz, t, us);
    MovedTrans(old(m.mem), old(m.free), Used(t, us), mem2, free2, Used(t, us), m.mem, m.free, {});
  }

  // ------------------------------------------------------ changes inside a space

  lemma ClearedSpace(mem: Ram, t: Tree, us: seq<nat>, free: seq<nat>, mem': Ram, tf: nat, tr: nat, v: nat)
    requires Space(mem, t, us, tf, tr) && v < |us| && PageTable.Stored(t, mem, free, t, mem', free, v,
      ClearU(Entry(mem, t, v)))
    requires Used(t, us) !! Elems(free)
    ensures Space(mem', t, us, tf, tr) && Moved(mem, free, Used(t, us), mem', free, Used(t, us))
    ensures forall q :: q in us ==> q in mem && mem'[q] == mem[q]
  {
    hide Table, Entry, Used, ClearU, PtePa, Grew, Apart;
    TableResident(mem', t);
    MapsAt(mem, t, us, v);
    ClearedEntry(mem, t, v);
    assert forall w: nat :: Entry(mem', t, w) == if w == v then ClearU(Entry(mem, t, v)) else Entry(mem, t, w);
    forall w | 0 <= w < |us| ensures Maps(mem', t, w, us[w]) { MapsAt(mem, t, us, w); }
    forall q | q in mem && q !in free && q !in Used(t, us) ensures mem'[q] == mem[q] { UsedIs(t, us, q); }
    forall q | q in us ensures q in mem && mem'[q] == mem[q] {
      var w :| 0 <= w < |us| && us[w] == q;
      MapsAt(mem, t, us, w);
    }
  }

  lemma ClearedEntry(mem: Ram, t: Tree, v: nat)
    requires Table(mem, t) && Entry(mem, t, v) != 0
    ensures var pte := ClearU(Entry(mem, t, v)); pte != 0 && LeafOk(pte) && PtePa(pte) == PtePa(Entry(mem, t, v))
  {
    assert LeafOk(Entry(mem, t, v));
    ClearUFacts(Entry(mem, t, v));
  }

  /** uvmclear(): user code loses one page; !ok is its panic, which a mapped page excludes. */
  method UvmClear(m: Memory, root: nat, va: nat, ghost t: Tree, ghost us: seq<nat>, ghost tf: nat, ghost tr: nat)
      returns (ok: bool)
    requires m.Valid() && Space(m.mem, t, us, tf, tr) && Used(t, us) !! Elems(m.free) && t.root == root
    requires Vpn(va) < |us| && va < MAXVA
    modifies m`mem, m`freelist, m`free
    ensures ok && m.Valid() && m.free == old(m.free) && Space(m.mem, t, us, tf, tr)
    ensures Resident(old(m.mem), t) && Resident(m.mem, t)
    ensures forall w: nat ::
      Entry(m.mem, t, w) == if w == Vpn(va) then ClearU(Entry(old(m.mem), t, w)) else Entry(old(m.mem), t, w)
    ensures Moved(old(m.mem), old(m.free), Used(t, us), m.mem, m.free, Used(t, us))
    ensures forall q :: q in us ==> q in old(m.mem) && m.mem[q] == old(m.mem)[q]
  {
    ghost var v := Vpn(va);
    SpaceApart(m.mem, t, us, m.free, tf, tr);
    MapsAt(m.mem, t, us, v);
    hide Table, Apart, Threaded, NoDup, Space, Used, Moved, D0, D1, D2, ClearU, Vpn, UserPages, PageTable.Stored;
    var w;
    ghost var t';
    w, t' := Walk(m, root, va, false, t);
    NoEntry(m.mem, t, v);
    if !w.Found? {
      return false;
    }
    WalkedEntry(t, m.mem, m.free, t, m.mem, m.free, v);
    var pte := m.mem[w.page][w.index];
    ClearedEntry(m.mem, t, v);
    StoreEntry(m, w.page, w.index, ClearU(pte), t, m.mem, m.free, t, v);
    ClearedSpace(old(m.mem), t, us, old(m.free), m.mem, tf, tr, v);
    StoredEntries(old(m.mem), t, old(m.free), m.mem, v, ClearU(pte));
    ok := true;
  }

  lemma StoredEntries(mem: Ram, t: Tree, free: seq<nat>, mem': Ram, v: nat, pte: nat)
    requires PageTable.Stored(t, mem, free, t, mem', free, v, pte)
    ensures Resident(mem, t) && Resident(mem', t)
    ensures forall w: nat :: Entry(mem', t, w) == if w == v then pte else Entry(mem, t, w)
  {}

  /** A space lives in its table's pages alone. */
  lemma SpaceFrame(mem: Ram, mem': Ram, t: Tree, us: seq<nat>, tf: nat, tr: nat)
    requires Space(mem, t, us, tf, tr) && mem'.Keys == mem.Keys
    requires forall q :: q in mem && IsTreePage(t, q) ==> mem'[q] == mem[q]
    ensures Space(mem', t, us, tf, tr) && Resident(mem, t) && SameMap(mem, t, mem', t)
  {
    hide Table, Entry, IsTreePage;
    OutsideTree(mem, mem', t);
    TableResident(mem', t);
    hide Resident;
    assert forall w: nat :: Entry(mem', t, w) == Entry(mem, t, w);
    forall w | 0 <= w < |us| ensures Maps(mem', t, w, us[w]) { MapsAt(mem, t, us, w); }
  }

  /** Storing data in a user page: what readi() does in loadseg() and copyout() does. */
  lemma FilledSpace(mem: Ram, t: Tree, us: seq<nat>, free: seq<nat>, tf: nat, tr: nat, v: nat, data: Page)
    requires Space(mem, t, us, tf, tr) && v < |us| && Used(t, us) !! Elems(free)
    ensures us[v] in mem && us[v] !in free
    ensures Space(mem[us[v] := data], t, us, tf, tr) && Moved(mem, free, Used(t, us), mem[us[v] := data], free,
      Used(t, us))
    ensures Resident(mem, t) && SameMap(mem, t, mem[us[v] := data], t)
  {
    hide Table, Entry, Used, IsTreePage, Space;
    FilledAt(mem, t, us, tf, tr, v);
    UsedIs(t, us, us[v]);
    assert us[v] in Used(t, us) && us[v] !in Elems(free);
    SpaceFrame(mem, mem[us[v] := data], t, us, tf, tr);
  }

  lemma FilledAt(mem: Ram, t: Tree, us: seq<nat>, tf: nat, tr: nat, v: nat)
    requires Space(mem, t, us, tf, tr) && v < |us|
    ensures us[v] in mem && !IsTreePage(t, us[v])
  {
    MapsAt(mem, t, us, v);
    FreshIsOutside(t, us[v]);
  }
}
