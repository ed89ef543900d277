/** uvmcopy() of kernel/vm.c: fork's copy of an address space, page by page, with the
    unwinding of a copy that runs out of memory. */
module UvmCopy {
  import opened Kalloc
  import opened PageTable
  import opened Uvm

  /** Nothing of tree t, nor the pages it maps below page n, is free or in tree s. */
  ghost predicate Separate(mem: Ram, t: Tree, n: nat, s: Tree, free: seq<nat>)
  {
    && Resident(mem, t)
    && (forall p :: IsTreePage(t, p) ==> Fresh(s, p) && p !in free)
    && (forall w: nat :: w < n && Entry(mem, t, w) != 0 ==>
          Pa(mem, t, w) in mem && Fresh(s, Pa(mem, t, w)) && Pa(mem, t, w) !in free)
  }

  /** Leaf i is a copy of the source's page i: same flags, same contents. */
  ghost predicate Copies(mem: Ram, t: Tree, ls: seq<Leaf>)
    requires Resident(mem, t)
  {
    forall i :: 0 <= i < |ls| ==>
      Entry(mem, t, i) != 0 && Pa(mem, t, i) in mem
      && ls[i].perm == PteFlags(Entry(mem, t, i)) && ls[i].data == mem[Pa(mem, t, i)]
  }

  /** While the copy grows, the source and its pages stay as they are. */
  lemma SourceKept(t: Tree, n: nat, s0: Tree, mem0: Ram, free0: seq<nat>, s: Tree, mem: Ram, free: seq<nat>, v: nat,
      ls: seq<Leaf>)
    requires Table(mem0, t) && Separate(mem0, t, n, s0, free0) && Grown(s0, mem0, free0, s, mem, free, v, ls)
    ensures Table(mem, t) && SameMap(mem0, t, mem, t)
    ensures forall w: nat ::
      w < n && Entry(mem0, t, w) != 0 ==> Pa(mem0, t, w) in mem0 && mem[Pa(mem0, t, w)] == mem0[Pa(mem0, t, w)]
  {
    forall p | p in mem0 && Fresh(s0, p) && p !in free0 ensures mem[p] == mem0[p] {
      GrownOnly(s0, mem0, free0, s, mem, free, v, ls, p);
    }
    hide Grown, Entry;
    OutsideTree(mem0, mem, t);
  }

  lemma GrownOnly(s0: Tree, mem0: Ram, free0: seq<nat>, s: Tree, mem: Ram, free: seq<nat>, v: nat, ls: seq<Leaf>,
      p: nat)
    requires Grown(s0, mem0, free0, s, mem, free, v, ls) && p in mem0 && Fresh(s0, p) && p !in free0
    ensures Fresh(s, p) && mem[p] == mem0[p]
  {
    hide Entry, Table, LeafThere, Pte;
    FreshIsOutside(s0, p);
    FreshIsOutside(s, p);
  }

  datatype CopyResult = Copied | CopyFailed | CopyPanic

  /** What one turn of the loop reads from the source. */
  method ReadSource(m: Memory, oldRoot: nat, i: nat, ghost t: Tree) returns (found: bool, flags: nat, data: Page)
    requires m.Valid() && Table(m.mem, t) && Apart(t, m.free) && t.root == oldRoot && PageAddr(i) < MAXVA
    requires Entry(m.mem, t, i) != 0 ==> Pa(m.mem, t, i) in m.mem
    modifies m`mem, m`freelist, m`free
    ensures m.mem == old(m.mem) && m.free == old(m.free) && m.Valid()
    ensures found <==> Entry(m.mem, t, i) != 0
    ensures found ==> flags == PteFlags(Entry(m.mem, t, i)) && data == m.mem[Pa(m.mem, t, i)]
    ensures found ==> flags < FLAGS && IsLeaf(flags) && WithV(flags) == flags
  {
    hide Table, Apart, Threaded, NoDup, D0, D1, D2, Vpn, PageAddr, IsLeaf, IsV, PtePa, PteFlags, WithV;
    VpnAddr(i);
    var w;
    ghost var t';
    w, t' := Walk(m, oldRoot, PageAddr(i), false, t);
    data := Filled(0);
    flags := 0;
    NoEntry(m.mem, t, i);
    if !w.Found? {
      return false, flags, data;
    }
    WalkedEntry(t, m.mem, m.free, t, m.mem, m.free, i);
    var pte := m.mem[w.page][w.index];
    if !IsV(pte) {
      return false, flags, data;
    }
    FlagsOfLeaf(pte);
    return true, PteFlags(pte), m.mem[PtePa(pte)];
  }

  lemma FlagsOfLeaf(pte: nat)
    requires IsV(pte) && IsLeaf(pte)
    ensures PteFlags(pte) < FLAGS && IsLeaf(PteFlags(pte)) && WithV(PteFlags(pte)) == PteFlags(pte)
  {
    var q, r := pte / 1024, pte % 1024;
    Mod2(q * 512, r);
    Half(q * 512, r);
    Mod8(q * 64, r / 2);
  }

  /** The copy after some turns. */
  ghost predicate Copying(t: Tree, n: nat, s0: Tree, mem0: Ram, free0: seq<nat>, s: Tree, mem: Ram, free: seq<nat>,
      ls: seq<Leaf>)
  {
    && Table(mem0, t) && Separate(mem0, t, n, s0, free0) && RoomToGrow(mem0, s0, free0, 0)
    && Grown(s0, mem0, free0, s, mem, free, 0, ls) && Copies(mem0, t, ls)
  }

  lemma CopyingSource(t: Tree, n: nat, s0: Tree, mem0: Ram, free0: seq<nat>, s: Tree, mem: Ram, free: seq<nat>,
      ls: seq<Leaf>)
    requires Copying(t, n, s0, mem0, free0, s, mem, free, ls) && |ls| < n
    ensures Table(mem, t) && Apart(t, free) && Resident(mem0, t) && Resident(mem, t)
    ensures Entry(mem, t, |ls|) == Entry(mem0, t, |ls|)
    ensures Entry(mem0, t, |ls|) != 0 ==> Pa(mem0, t, |ls|) in mem0
    ensures Entry(mem, t, |ls|) != 0 ==> Pa(mem, t, |ls|) in mem && mem[Pa(mem, t, |ls|)] == mem0[Pa(mem0, t, |ls|)]
    ensures Table(mem, s) && Apart(s, free) && s.root == s0.root && PageAddr(|ls|) < MAXVA && Entry(mem, s, |ls|) == 0
  {
    SourceKept(t, n, s0, mem0, free0, s, mem, free, 0, ls);
    CanGrow(s0, mem0, free0, s, mem, free, 0, ls);
    GrownKeys(s0, mem0, free0, s, mem, free, 0, ls);
    hide Grown, Table, Entry, RoomToGrow;
    assert Entry(mem, t, |ls|) == Entry(mem0, t, |ls|);
    forall p | p in free ensures Fresh(t, p) {
      FreshIsOutside(t, p);
      FreshIsOutside(s0, p);
    }
  }

  lemma GrownKeys(s0: Tree, mem0: Ram, free0: seq<nat>, s: Tree, mem: Ram, free: seq<nat>, v: nat, ls: seq<Leaf>)
    requires Grown(s0, mem0, free0, s, mem, free, v, ls)
    ensures mem.Keys == mem0.Keys && forall q :: q in free ==> q in free0 || IsTreePage(s0, q)
  {}

  /** One turn of the loop in uvmcopy(). */
  method CopyNext(m: Memory, oldRoot: nat, newRoot: nat, i: nat, ghost t: Tree, ghost n: nat, ghost s0: Tree,
      ghost mem0: Ram, ghost free0: seq<nat>, ghost s: Tree, ghost ls: seq<Leaf>)
      returns (r: CopyResult, ghost s': Tree, ghost ls': seq<Leaf>)
    requires m.Valid() && Copying(t, n, s0, mem0, free0, s, m.mem, m.free, ls)
    requires i == |ls| < n && t.root == oldRoot && s0.root == newRoot
    requires Paved(s0, 0, i, s) && |m.free| == |free0| - Cost(s0, 0, i)
    modifies m`mem, m`freelist, m`free
    ensures m.Valid()
    ensures r.Copied? ==> Paved(s0, 0, i + 1, s') && |m.free| == |free0| - Cost(s0, 0, i + 1)
    ensures r.CopyFailed? ==> |free0| < Cost(s0, 0, i + 1)
    ensures r.Copied? ==> Copying(t, n, s0, mem0, free0, s', m.mem, m.free, ls') && |ls'| == i + 1
    ensures !r.Copied? ==> Copying(t, n, s0, mem0, free0, s', m.mem, m.free, ls) && ls' == ls
    ensures r.CopyPanic? ==> Resident(mem0, t) && Entry(mem0, t, i) == 0
  {
    hide Table, Apart, Threaded, NoDup, Grown, RoomToGrow, PageAddr, Entry, WithV, PteFlags, IsLeaf, Copying,
      Resident, Pa, Paved, LackingAt;
    LackingNext(s0, 0, i, s, 0);
    CopyingSource(t, n, s0, mem0, free0, s, m.mem, m.free, ls);
    CopyingPa(mem0, m.mem, t, i);
    s', ls' := s, ls;
    var found, flags, data := ReadSource(m, oldRoot, i, t);
    if !found {
      return CopyPanic, s', ls';
    }
    ghost var mem1, free1 := m.mem, m.free;
    var ok;
    ghost var l;
    ok, s', l := AddPage(m, newRoot, i, flags, data, s);
    CopyingNext(t, n, s0, mem0, free0, s, mem1, free1, ls, s', m.mem, m.free, ok, l);
    if ok {
      PavedNext(s0, 0, i, s, 1, s');
      r, ls' := Copied, ls + [l];
    } else {
      r := CopyFailed;
    }
  }

  lemma CopyingPa(mem0: Ram, mem: Ram, t: Tree, i: nat)
    requires Resident(mem0, t) && Resident(mem, t) && Entry(mem, t, i) == Entry(mem0, t, i)
    ensures Pa(mem, t, i) == Pa(mem0, t, i)
  {}

  lemma CopyingNext(t: Tree, n: nat, s0: Tree, mem0: Ram, free0: seq<nat>, s: Tree, mem1: Ram, free1: seq<nat>,
      ls: seq<Leaf>, s': Tree, mem2: Ram, free2: seq<nat>, ok: bool, l: Leaf)
    requires Copying(t, n, s0, mem0, free0, s, mem1, free1, ls) && |ls| < n && Resident(mem0, t)
    requires Grown(s, mem1, free1, s', mem2, free2, |ls|, if ok then [l] else [])
    requires Entry(mem0, t, |ls|) != 0 && Pa(mem0, t, |ls|) in mem0
    requires ok ==> l.perm == PteFlags(Entry(mem0, t, |ls|)) && l.data == mem0[Pa(mem0, t, |ls|)]
    ensures Copying(t, n, s0, mem0, free0, s', mem2, free2, if ok then ls + [l] else ls)
  {
    hide Table, Grown, RoomToGrow, Entry, PteFlags, Pa, Resident, Separate;
    GrownTrans(s0, mem0, free0, s, mem1, free1, s', mem2, free2, 0, ls, if ok then [l] else []);
    assert ls + [] == ls;
  }

  /** uvmcopy(). On success the new address space holds copies of the source's pages
      with the same flags; on failure, which means that there were too few pages, every
      page taken for a copy is free again. The source is not touched, and the panics happen
      only for a source with a hole. */
  method Copy(m: Memory, oldRoot: nat, newRoot: nat, sz: nat, ghost t: Tree, ghost s: Tree)
      returns (r: CopyResult, ghost s': Tree, ghost ls: seq<Leaf>)
    requires m.Valid() && Table(m.mem, t) && Table(m.mem, s) && Apart(s, m.free) && t.root == oldRoot
      && s.root == newRoot && sz <= MAXVA
    requires Separate(m.mem, t, Pages(sz), s, m.free) && RoomToGrow(m.mem, s, m.free, 0)
    modifies m`mem, m`freelist, m`free
    ensures m.Valid() && Grown(s, old(m.mem), old(m.free), s', m.mem, m.free, 0, if r.CopyFailed? then [] else ls)
    ensures Table(m.mem, t) && SameMap(old(m.mem), t, m.mem, t)
    ensures r.Copied? ==> |ls| == Pages(sz) && Copies(old(m.mem), t, ls)
    ensures r.CopyPanic? ==> exists w: nat :: w < Pages(sz) && Entry(old(m.mem), t, w) == 0
    ensures r.Copied? ==> Paved(s, 0, Pages(sz), s') && |m.free| == |old(m.free)| - Cost(s, 0, Pages(sz))
    ensures r.CopyFailed? ==> |old(m.free)| < Cost(s, 0, Pages(sz))
  {
    hide Table, Apart, Threaded, NoDup, Grown, RoomToGrow, PageAddr, Entry, Pages, Resident, Separate, Copying,
      SameMap, Paved, LackingAt;
    PavedNone(s, 0);
    CopyingNone(t, Pages(sz), s, m.mem, m.free);
    PagesIs(sz);
    s', ls := s, [];
    var i := 0;
    PageOrder(0, Pages(sz));
    while i < sz
      invariant |ls| <= Pages(sz) && i == PageAddr(|ls|) && m.Valid()
      invariant Copying(t, Pages(sz), s, old(m.mem), old(m.free), s', m.mem, m.free, ls)
      invariant Paved(s, 0, |ls|, s') && |m.free| == |old(m.free)| - Cost(s, 0, |ls|)
      decreases Pages(sz) - |ls|
    {
      PageOrder(|ls|, Pages(sz));
      VpnAddr(|ls|);
      ghost var ls1 := ls;
      CostMore(s, 0, |ls| + 1, Pages(sz));
      r, s', ls := CopyNext(m, oldRoot, newRoot, Vpn(i), t, Pages(sz), s, old(m.mem), old(m.free), s', ls);
      if !r.Copied? {
        if r.CopyFailed? {
          Uncopy(m, newRoot, i, t, Pages(sz), s, old(m.mem), old(m.free), s', ls);
          CopyingDone(t, Pages(sz), s, old(m.mem), old(m.free), s', m.mem, m.free, []);
        } else {
          CopyingDone(t, Pages(sz), s, old(m.mem), old(m.free), s', m.mem, m.free, ls);
        }
        return;
      }
      i := i + PGSIZE;
    }
    CoversAll(sz, |ls|);
    CopyingDone(t, Pages(sz), s, old(m.mem), old(m.free), s', m.mem, m.free, ls);
    r := Copied;
  }

  lemma CoversAll(sz: nat, k: nat)
    requires sz <= MAXVA && k <= Pages(sz) && PageAddr(k) >= sz
    ensures k == Pages(sz)
  {
    PagesIs(sz);
    PageOrder(k, 0);
    PageOrder(Pages(sz), k + 1);
  }

  lemma CopyingNone(t: Tree, n: nat, s: Tree, mem: Ram, free: seq<nat>)
    requires Table(mem, t) && Table(mem, s) && Apart(s, free) && Separate(mem, t, n, s, free)
      && RoomToGrow(mem, s, free, 0)
    ensures Copying(t, n, s, mem, free, s, mem, free, [])
  {
    GrownNone(mem, s, free, 0);
  }

  lemma CopyingDone(t: Tree, n: nat, s0: Tree, mem0: Ram, free0: seq<nat>, s: Tree, mem: Ram, free: seq<nat>,
      ls: seq<Leaf>)
    requires Copying(t, n, s0, mem0, free0, s, mem, free, ls)
    ensures Grown(s0, mem0, free0, s, mem, free, 0, ls) && Resident(mem0, t) && Copies(mem0, t, ls)
    ensures Table(mem, t) && SameMap(mem0, t, mem, t)
  {
    SourceKept(t, n, s0, mem0, free0, s, mem, free, 0, ls);
  }

  /** uvmunmap(new, 0, i / PGSIZE, 1) after a failure: never panics. */
  method Uncopy(m: Memory, newRoot: nat, i: nat, ghost t: Tree, ghost n: nat, ghost s0: Tree, ghost mem0: Ram,
      ghost free0: seq<nat>, ghost s: Tree, ghost ls: seq<Leaf>)
    requires m.Valid() && Copying(t, n, s0, mem0, free0, s, m.mem, m.free, ls) && i == PageAddr(|ls|)
      && s0.root == newRoot
    modifies m`mem, m`freelist, m`free
    ensures m.Valid() && Copying(t, n, s0, mem0, free0, s, m.mem, m.free, [])
  {
    hide Table, Apart, Threaded, NoDup, Grown, RoomToGrow, PageAddr, Entry, Resident, Separate, Unmapped, Private,
      AllUnmappable, Aligned, Vpn;
    CanGrow(s0, mem0, free0, s, m.mem, m.free, 0, ls);
    GrownRemovable(m, s0, mem0, free0, s, m.mem, m.free, 0, ls);
    ghost var mem1, free1 := m.mem, m.free;
    VpnAddr(|ls|);
    ZeroPage();
    var ok := UvmUnmap(m, newRoot, 0, Vpn(i), true, s);
    GrownUndone(s0, mem0, free0, s, mem1, free1, m.mem, m.free, 0, ls);
  }

  lemma ZeroPage()
    ensures Aligned(0) && Vpn(0) == 0
  {}
}
