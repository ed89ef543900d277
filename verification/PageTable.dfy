/** The three-level page tables of kernel/vm.c: walk and mappages on the page-table pages
    themselves, proved to implement a map from virtual page numbers to entries, with the
    exact number of pages they take.

    The ghost value `Tree` names the pages a table is made of; `Table` says that those
    pages, read as Sv39 tables, are an unshared tree; `Entry` is the map. */
module PageTable {
  import opened Kalloc

  const PTE_V: nat := 1
  const PTE_R: nat := 2
  const PTE_W: nat := 4
  const PTE_X: nat := 8
  const PTE_U: nat := 16
  const FLAGS: nat := 1024

  // --------------------------------------------------------- address arithmetic

  function Span(level: nat): (n: nat)
    requires level <= 2
    ensures n > 0
  {
    if level == 0 then 0x1000 else if level == 1 then 0x20_0000 else 0x4000_0000
  }

  /** The 9-bit index of a virtual address at one level. */
  function PX(level: nat, va: nat): (i: nat)
    requires level <= 2
    ensures i < ENTRIES
  {
    va / Span(level) % 512
  }

  /** The three indices are the digits of the page number. */
  lemma PxSplit(va: nat)
    requires va < MAXVA
    ensures va / 4096 % 512 == PX(0, va)
    ensures va / 4096 / 512 == PX(2, va) * 512 + PX(1, va)
  {
    assert va / 0x20_0000 == va / 4096 / 512;
    assert va / 0x4000_0000 == va / 0x20_0000 / 512;
    assert va / 0x4000_0000 < ENTRIES;
  }

  /** PA2PTE(pa) | perm, for a page address. */
  function Pte(pa: nat, perm: nat): (pte: nat) { pa / 4096 * 1024 + perm }

  function PtePa(pte: nat): (pa: nat) { pte / 1024 * 4096 }

  function PteFlags(pte: nat): (f: nat) { pte % 1024 }

  predicate IsV(pte: nat) { pte % 2 == 1 }

  predicate IsR(pte: nat) { pte / 2 % 2 == 1 }

  predicate IsW(pte: nat) { pte / 4 % 2 == 1 }

  predicate IsX(pte: nat) { pte / 8 % 2 == 1 }

  predicate IsU(pte: nat) { pte / 16 % 2 == 1 }

  /** Memory a program can read, write and execute. */
  predicate Usable(pte: nat) { IsV(pte) && IsR(pte) && IsW(pte) && IsX(pte) && IsU(pte) }

  function WithV(perm: nat): (f: nat) { if perm % 2 == 1 then perm else perm + 1 }

  /** One of the R, W and X bits is set. */
  predicate IsLeaf(pte: nat) { pte / 2 % 8 != 0 }

  /** pte & ~PTE_U. */
  function ClearU(pte: nat): (r: nat) { if pte / 16 % 2 == 1 then pte - 16 else pte }

  lemma Div1024(q: nat, r: nat)
    requires r < 1024
    ensures (q * 1024 + r) / 1024 == q && (q * 1024 + r) % 1024 == r
  {}

  lemma Mod2(q: nat, r: nat)
    ensures (q * 2 + r) % 2 == r % 2
  {}

  lemma Half(q: nat, r: nat)
    ensures (q * 2 + r) / 2 == q + r / 2
  {}

  lemma Mod8(q: nat, r: nat)
    ensures (q * 8 + r) % 8 == r % 8
  {}

  /** An entry gives back the page address and flags it was made of. */
  lemma PteRound(pa: nat, perm: nat)
    requires Aligned(pa) && perm < FLAGS
    ensures PtePa(Pte(pa, perm)) == pa && PteFlags(Pte(pa, perm)) == perm
    ensures IsV(Pte(pa, perm)) <==> IsV(perm)
    ensures IsLeaf(Pte(pa, perm)) <==> IsLeaf(perm)
    ensures Pte(pa, perm) == 0 ==> perm == 0
  {
    var q := pa / 4096;
    Div1024(q, perm);
    Mod2(q * 512, perm);
    Half(q * 512, perm);
    Mod8(q * 64, perm / 2);
  }

  lemma LowBits(h: nat, r: nat)
    requires r < 32
    ensures (h * 32 + r) / 1024 == h / 32 && (h * 32 + r) / 16 % 2 == r / 16
    ensures (h * 32 + r) % 2 == r % 2 && (h * 32 + r) / 2 % 8 == r / 2 % 8
  {
    HighPart(h, r);
    MiddleBit(h, r);
    LowThree(h, r);
    LowOne(h, r);
  }

  lemma LowOne(h: nat, r: nat)
    ensures (h * 32 + r) % 2 == r % 2
  {
    assert h * 32 + r == 2 * (16 * h) + r;
  }

  /** The five low flags of an entry are those it was made with. */
  lemma FlagBits(pa: nat, perm: nat)
    requires perm < 32
    ensures var pte := Pte(pa, perm);
      && (IsV(pte) <==> IsV(perm)) && (IsR(pte) <==> IsR(perm)) && (IsW(pte) <==> IsW(perm))
      && (IsX(pte) <==> IsX(perm)) && (IsU(pte) <==> IsU(perm))
  {
    var h := pa / 4096 * 32;
    assert Pte(pa, perm) == h * 32 + perm;
    LowOne(h, perm);
    BitR(2 * h, perm);
    BitW(2 * h, perm);
    BitX(2 * h, perm);
    MiddleBit(h, perm);
  }

  lemma Quarter(q: nat, r: nat)
    ensures (q * 4 + r) / 4 == q + r / 4
  {}

  lemma Eighth(q: nat, r: nat)
    ensures (q * 8 + r) / 8 == q + r / 8
  {}

  /** Multiples of 16 do not touch the R, W and X bits. */
  lemma BitR(h: nat, r: nat)
    ensures (h * 16 + r) / 2 % 2 == r / 2 % 2
  {
    Half(8 * h, r);
    Mod2(4 * h, r / 2);
  }

  lemma BitW(h: nat, r: nat)
    ensures (h * 16 + r) / 4 % 2 == r / 4 % 2
  {
    Quarter(4 * h, r);
    Mod2(2 * h, r / 4);
  }

  lemma BitX(h: nat, r: nat)
    ensures (h * 16 + r) / 8 % 2 == r / 8 % 2
  {
    Eighth(2 * h, r);
    Mod2(h, r / 8);
  }

  lemma HighPart(h: nat, r: nat)
    requires r < 32
    ensures (h * 32 + r) / 1024 == h / 32
  {
    assert (h * 32 + r) / 32 == h;
    assert (h * 32 + r) / 1024 == (h * 32 + r) / 32 / 32;
  }

  lemma MiddleBit(h: nat, r: nat)
    requires r < 32
    ensures (h * 32 + r) / 16 % 2 == r / 16
  {
    assert (h * 32 + r) / 16 == h * 2 + r / 16;
  }

  lemma LowThree(h: nat, r: nat)
    requires r < 32
    ensures (h * 32 + r) / 2 % 8 == r / 2 % 8
  {
    assert (h * 32 + r) / 2 == (h * 2) * 8 + r / 2;
    assert ((h * 2) * 8 + r / 2) % 8 == r / 2 % 8;
  }

  /** Clearing the user bit keeps everything else. */
  lemma ClearUFacts(pte: nat)
    ensures PtePa(ClearU(pte)) == PtePa(pte) && (IsV(ClearU(pte)) <==> IsV(pte))
      && (IsLeaf(ClearU(pte)) <==> IsLeaf(pte))
    ensures ClearU(pte) / 16 % 2 == 0
  {
    var h, r := pte / 32, pte % 32;
    LowBits(h, r);
    assert ClearU(pte) == h * 32 + r % 16 by { ClearUIs(h, r); }
    hide ClearU;
    LowBits(h, r % 16);
    assert r % 16 % 2 == r % 2 && r % 16 / 2 % 8 == r / 2 % 8 by { LowFour(r); }
  }

  /** Clearing U leaves the other flags. */
  lemma ClearUBits(pte: nat)
    ensures var q := ClearU(pte);
      && !IsU(q) && (IsV(q) <==> IsV(pte)) && (IsR(q) <==> IsR(pte)) && (IsW(q) <==> IsW(pte)) && (IsX(q) <==> IsX(pte))
  {
    var h, r := pte / 32, pte % 32;
    ClearUFacts(pte);
    assert ClearU(pte) == h * 32 + r % 16 by { ClearUIs(h, r); }
    hide ClearU;
    var k, low := 2 * h + r / 16, r % 16;
    assert pte == k * 16 + low && ClearU(pte) == (2 * h) * 16 + low;
    BitR(k, low);
    BitR(2 * h, low);
    BitW(k, low);
    BitW(2 * h, low);
    BitX(k, low);
    BitX(2 * h, low);
  }

  lemma ClearUIs(h: nat, r: nat)
    requires r < 32
    ensures ClearU(h * 32 + r) == h * 32 + r % 16
  {
    MiddleBit(h, r);
  }

  lemma LowFour(r: nat)
    requires r < 32
    ensures r % 16 % 2 == r % 2 && r % 16 / 2 % 8 == r / 2 % 8
  {}

  // ------------------------------------------------------------------ the tree

  /** The pages of a table: its root, level-1 pages by root index, and level-0 pages
      by root and level-1 index. */
  datatype Tree = Tree(root: nat, mid: map<nat, nat>, low: map<(nat, nat), nat>)

  ghost predicate IsTreePage(t: Tree, p: nat)
  {
    p == t.root || (exists i :: i in t.mid && t.mid[i] == p) || (exists k :: k in t.low && t.low[k] == p)
  }

  /** An entry that points to a lower table. */
  function Down(pa: nat): (pte: nat) { Pte(pa, PTE_V) }

  ghost predicate Keys(t: Tree)
  {
    && (forall i :: i in t.mid ==> i < ENTRIES)
    && (forall k :: k in t.low ==> k.0 in t.mid && k.1 < ENTRIES)
  }

  ghost predicate Unshared(t: Tree)
  {
    && (forall i :: i in t.mid ==> t.mid[i] != t.root)
    && (forall k :: k in t.low ==> t.low[k] != t.root)
    && (forall i, j :: i in t.mid && j in t.mid && i != j ==> t.mid[i] != t.mid[j])
    && (forall i, k :: i in t.mid && k in t.low ==> t.mid[i] != t.low[k])
    && (forall j, k :: j in t.low && k in t.low && j != k ==> t.low[j] != t.low[k])
  }

  ghost predicate Resident(mem: Ram, t: Tree)
  {
    && t.root in mem
    && (forall i :: i in t.mid ==> t.mid[i] in mem)
    && (forall k :: k in t.low ==> t.low[k] in mem)
  }

  ghost predicate RootRow(mem: Ram, t: Tree)
    requires Resident(mem, t)
  {
    forall i :: 0 <= i < ENTRIES ==> mem[t.root][i] == if i in t.mid then Down(t.mid[i]) else 0
  }

  ghost predicate MidRows(mem: Ram, t: Tree)
    requires Resident(mem, t)
  {
    forall i, j: nat :: i in t.mid && j < ENTRIES ==>
      mem[t.mid[i]][j] == if (i, j) in t.low then Down(t.low[(i, j)]) else 0
  }

  /** A last-level entry is empty or a valid leaf. */
  predicate LeafOk(pte: nat) { pte == 0 || (IsV(pte) && IsLeaf(pte)) }

  ghost predicate LowRows(mem: Ram, t: Tree)
    requires Resident(mem, t)
  {
    forall k, j :: k in t.low && 0 <= j < ENTRIES ==> LeafOk(mem[t.low[k]][j])
  }

  ghost predicate Table(mem: Ram, t: Tree)
  {
    && Keys(t) && Unshared(t) && Resident(mem, t)
    && (forall p :: p in mem ==> Aligned(p))
    && RootRow(mem, t) && MidRows(mem, t) && LowRows(mem, t)
  }

  function D0(vpn: nat): (i: nat) ensures i < ENTRIES { vpn % 512 }

  function D1(vpn: nat): (i: nat) ensures i < ENTRIES { vpn / 512 % 512 }

  function D2(vpn: nat): (i: nat) { vpn / 512 / 512 }

  lemma DigitsInjective(a: nat, b: nat)
    requires D0(a) == D0(b) && D1(a) == D1(b) && D2(a) == D2(b)
    ensures a == b
  {}

  /** The map a table stands for: the entry of a virtual page, 0 if there is none. */
  ghost function Entry(mem: Ram, t: Tree, vpn: nat): (pte: nat)
    requires Resident(mem, t)
  {
    if (D2(vpn), D1(vpn)) in t.low then mem[t.low[(D2(vpn), D1(vpn))]][D0(vpn)] else 0
  }

  ghost predicate SameMap(mem: Ram, t: Tree, mem': Ram, t': Tree)
    requires Resident(mem, t) && Resident(mem', t')
  {
    forall v: nat :: Entry(mem', t', v) == Entry(mem, t, v)
  }

  // -------------------------------------------------------------- tree updates

  /** A zeroed page p hung into page q at index i. */
  ghost function Hung(mem: Ram, q: nat, i: nat, p: nat): (r: Ram)
    requires q in mem && i < ENTRIES
  {
    mem[p := Filled(0)][q := mem[q][i := Down(p)]]
  }

  /** p is none of the tree's pages, said page by page. */
  ghost predicate Fresh(t: Tree, p: nat)
  {
    && p != t.root
    && (forall i :: i in t.mid ==> t.mid[i] != p)
    && (forall k :: k in t.low ==> t.low[k] != p)
  }

  lemma MidShape(t: Tree, i: nat, p: nat)
    requires Keys(t) && Unshared(t) && i < ENTRIES && i !in t.mid && Fresh(t, p)
    ensures var t' := t.(mid := t.mid[i := p]);
      Keys(t') && Unshared(t') && forall q :: IsTreePage(t', q) <==> IsTreePage(t, q) || q == p
  {
    var t' := t.(mid := t.mid[i := p]);
    forall q | IsTreePage(t, q) || q == p ensures IsTreePage(t', q) {
      if j :| j in t.mid && t.mid[j] == q {
        assert t'.mid[j] == q;
      } else if q == p {
        assert t'.mid[i] == p;
      }
    }
  }

  lemma LowShape(t: Tree, i: nat, j: nat, p: nat)
    requires Keys(t) && Unshared(t) && i in t.mid && j < ENTRIES && (i, j) !in t.low && Fresh(t, p)
    ensures var t' := t.(low := t.low[(i, j) := p]);
      Keys(t') && Unshared(t') && forall q :: IsTreePage(t', q) <==> IsTreePage(t, q) || q == p
  {
    hide IsTreePage;
    forall q ensures IsTreePage(t.(low := t.low[(i, j) := p]), q) <==> IsTreePage(t, q) || q == p {
      LowPages(t, i, j, p, q);
    }
  }

  lemma LowPages(t: Tree, i: nat, j: nat, p: nat, q: nat)
    requires (i, j) !in t.low
    ensures IsTreePage(t.(low := t.low[(i, j) := p]), q) <==> IsTreePage(t, q) || q == p
  {
    var t' := t.(low := t.low[(i, j) := p]);
    if k :| k in t.low && t.low[k] == q { assert t'.low[k] == q; }
    assert t'.low[(i, j)] == p;
  }

  lemma HungAt(mem: Ram, q: nat, i: nat, p: nat)
    requires q in mem && i < ENTRIES && p in mem && p != q
    ensures var mem' := Hung(mem, q, i, p);
      && mem'.Keys == mem.Keys
      && (forall x :: x in mem && x != p && x != q ==> mem'[x] == mem[x])
      && (forall j :: 0 <= j < ENTRIES ==> mem'[p][j] == 0)
      && (forall j :: 0 <= j < ENTRIES ==> mem'[q][j] == if j == i then Down(p) else mem[q][j])
  {}

  /** Hanging a fresh page for a level-1 table. */
  lemma HangMid(mem: Ram, t: Tree, i: nat, p: nat)
    requires Table(mem, t) && i < ENTRIES && i !in t.mid && p in mem && Fresh(t, p)
    ensures var mem', t' := Hung(mem, t.root, i, p), t.(mid := t.mid[i := p]);
      Table(mem', t') && SameMap(mem, t, mem', t')
  {
    MidShape(t, i, p);
    HungAt(mem, t.root, i, p);
    hide Hung, Down, Aligned, IsTreePage, LeafOk;
    HangMidAt(mem, t, i, p);
    hide Unshared, Fresh, Keys;
  }

  lemma HangMidAt(mem: Ram, t: Tree, i: nat, p: nat)
    requires Unshared(t) && Resident(mem, t) && i < ENTRIES && p in mem && Fresh(t, p)
    ensures var mem' := Hung(mem, t.root, i, p);
      && mem'.Keys == mem.Keys
      && (forall x :: x in t.mid ==> mem'[t.mid[x]] == mem[t.mid[x]])
      && (forall k :: k in t.low ==> mem'[t.low[k]] == mem[t.low[k]])
  {
    HungAt(mem, t.root, i, p);
    hide Hung, Down;
  }

  /** A fresh page p hung under the i-th level-1 table: the tree's other pages stay. */
  lemma HangLowAt(mem: Ram, t: Tree, i: nat, j: nat, p: nat)
    requires Unshared(t) && Resident(mem, t) && i in t.mid && j < ENTRIES && p in mem && Fresh(t, p)
    ensures var mem' := Hung(mem, t.mid[i], j, p);
      && mem'.Keys == mem.Keys && mem'[t.root] == mem[t.root]
      && (forall x :: x in t.mid && x != i ==> mem'[t.mid[x]] == mem[t.mid[x]])
      && (forall k :: k in t.low ==> mem'[t.low[k]] == mem[t.low[k]])
      && (forall y :: 0 <= y < ENTRIES ==> mem'[p][y] == 0)
      && (forall y :: 0 <= y < ENTRIES ==> mem'[t.mid[i]][y] == if y == j then Down(p) else mem[t.mid[i]][y])
  {
    HungAt(mem, t.mid[i], j, p);
    hide Hung, Down;
  }

  lemma HangLowMid(mem: Ram, t: Tree, i: nat, j: nat, p: nat)
    requires Keys(t) && Unshared(t) && Resident(mem, t) && MidRows(mem, t) && i in t.mid && j < ENTRIES
      && (i, j) !in t.low && p in mem && Fresh(t, p)
    ensures var mem', t' := Hung(mem, t.mid[i], j, p), t.(low := t.low[(i, j) := p]);
      Resident(mem', t') && MidRows(mem', t')
  {
    HangLowAt(mem, t, i, j, p);
    hide Hung, Down, Unshared, Fresh;
  }

  lemma HangLowLow(mem: Ram, t: Tree, i: nat, j: nat, p: nat)
    requires Unshared(t) && Resident(mem, t) && LowRows(mem, t) && i in t.mid && j < ENTRIES && (i, j) !in t.low
      && p in mem && Fresh(t, p)
    ensures var mem', t' := Hung(mem, t.mid[i], j, p), t.(low := t.low[(i, j) := p]);
      Resident(mem', t') && LowRows(mem', t')
  {
    HangLowAt(mem, t, i, j, p);
    ZeroLeafOk();
    hide Hung, Down, Unshared, Fresh, LeafOk;
  }

  /** Hanging a fresh page for a level-0 table. */
  lemma HangLow(mem: Ram, t: Tree, i: nat, j: nat, p: nat)
    requires Table(mem, t) && i in t.mid && j < ENTRIES && (i, j) !in t.low && p in mem && Fresh(t, p)
    ensures var mem', t' := Hung(mem, t.mid[i], j, p), t.(low := t.low[(i, j) := p]);
      Table(mem', t') && SameMap(mem, t, mem', t')
  {
    LowShape(t, i, j, p);
    HangLowMid(mem, t, i, j, p);
    HangLowLow(mem, t, i, j, p);
    HangLowAt(mem, t, i, j, p);
    hide Hung, Down, Aligned, IsTreePage, LeafOk, MidRows, LowRows, Keys, Unshared, Fresh, D0, D1, D2;
  }

  lemma ZeroLeafOk()
    ensures LeafOk(0)
  {}

  /** Storing a leaf changes the map at its page number only. */
  lemma StoreLeaf(mem: Ram, t: Tree, v: nat, pte: nat)
    requires Table(mem, t) && (D2(v), D1(v)) in t.low && LeafOk(pte)
    ensures var q := t.low[(D2(v), D1(v))];
      var mem' := mem[q := mem[q][D0(v) := pte]];
      && Table(mem', t)
      && forall w: nat :: Entry(mem', t, w) == if w == v then pte else Entry(mem, t, w)
  {
    var q := t.low[(D2(v), D1(v))];
    var mem' := mem[q := mem[q][D0(v) := pte]];
    assert RootRow(mem', t) && MidRows(mem', t) && LowRows(mem', t);
    forall w: nat ensures Entry(mem', t, w) == if w == v then pte else Entry(mem, t, w) {
      if w != v && D2(w) == D2(v) && D1(w) == D1(v) && D0(w) == D0(v) {
        DigitsInjective(w, v);
      }
    }
  }

  /** Pages outside the tree do not matter to it. */
  lemma OutsideTree(mem: Ram, mem': Ram, t: Tree)
    requires Table(mem, t) && mem'.Keys == mem.Keys
    requires forall p :: p in mem && IsTreePage(t, p) ==> mem'[p] == mem[p]
    ensures Table(mem', t) && SameMap(mem, t, mem', t)
  {
    assert mem'[t.root] == mem[t.root];
    forall i | i in t.mid ensures mem'[t.mid[i]] == mem[t.mid[i]] { assert IsTreePage(t, t.mid[i]); }
    forall k | k in t.low ensures mem'[t.low[k]] == mem[t.low[k]] { assert IsTreePage(t, t.low[k]); }
  }

  // ------------------------------------------------------ how many tables it takes

  /** The tables to add before page v has an entry, once those below it back to v - i have. */
  ghost function LackingAt(t: Tree, v: nat, i: nat): (n: nat)
  {
    var w := v + i;
    (if D2(w) in t.mid || (i > 0 && D2(w - 1) == D2(w)) then 0 else 1)
    + if (D2(w), D1(w)) in t.low || (i > 0 && D2(w - 1) == D2(w) && D1(w - 1) == D1(w)) then 0 else 1
  }

  /** The tables to add before pages v to v + n - 1 have entries. */
  ghost function TablesFor(t: Tree, v: nat, n: nat): (k: nat)
  {
    if n == 0 then 0 else TablesFor(t, v, n - 1) + LackingAt(t, v, n - 1)
  }

  ghost function MidsOf(v: nat, n: nat): (s: set<nat>) { set w | v <= w < v + n :: D2(w) }

  ghost function LowsOf(v: nat, n: nat): (s: set<(nat, nat)>) { set w | v <= w < v + n :: (D2(w), D1(w)) }

  /** t' has the tables of t, and those of pages v to v + n - 1. */
  ghost predicate Paved(t: Tree, v: nat, n: nat, t': Tree)
  {
    t'.mid.Keys == t.mid.Keys + MidsOf(v, n) && t'.low.Keys == t.low.Keys + LowsOf(v, n)
  }

  lemma PavedNone(t: Tree, v: nat)
    ensures Paved(t, v, 0, t)
  {
    assert MidsOf(v, 0) == {} && LowsOf(v, 0) == {};
  }

  /** Pages are paved one after the other. */
  lemma PavedNext(t: Tree, v: nat, n: nat, t1: Tree, k: nat, t2: Tree)
    requires Paved(t, v, n, t1) && Paved(t1, v + n, k, t2)
    ensures Paved(t, v, n + k, t2)
  {
    hide D1, D2;
    assert MidsOf(v, n + k) == MidsOf(v, n) + MidsOf(v + n, k);
    assert LowsOf(v, n + k) == LowsOf(v, n) + LowsOf(v + n, k);
  }

  /** ... and their tables add up. */
  lemma {:induction false} TablesNext(t: Tree, v: nat, n: nat, t1: Tree, k: nat)
    requires Paved(t, v, n, t1)
    ensures TablesFor(t, v, n + k) == TablesFor(t, v, n) + TablesFor(t1, v + n, k)
    decreases k
  {
    hide Paved, LackingAt;
    if k > 0 {
      TablesNext(t, v, n, t1, k - 1);
      LackingNext(t, v, n, t1, k - 1);
    }
  }

  /** What is lacking after n pages is lacking for all that is there. */
  lemma LackingNext(t: Tree, v: nat, n: nat, t1: Tree, i: nat)
    requires Paved(t, v, n, t1)
    ensures LackingAt(t1, v + n, i) == LackingAt(t, v, n + i)
  {
    var w := v + n + i;
    forall x | v <= x < v + n ensures D2(x) == D2(w) ==> D2(w - 1) == D2(w) {
      DigitsGrow(x, w - 1);
      DigitsGrow(w - 1, w);
    }
    forall x | v <= x < v + n ensures D2(x) == D2(w) && D1(x) == D1(w) ==> D2(w - 1) == D2(w) && D1(w - 1) == D1(w) {
      DigitsGrow(x, w - 1);
      DigitsGrow(w - 1, w);
    }
    if n > 0 && i == 0 { assert D2(w - 1) in MidsOf(v, n) && (D2(w - 1), D1(w - 1)) in LowsOf(v, n); }
    hide D1, D2;
  }

  lemma DigitsGrow(a: nat, b: nat)
    requires a <= b
    ensures D2(a) <= D2(b) && (D2(a) == D2(b) ==> D1(a) <= D1(b))
  {
    var x, y := a / 512, b / 512;
    assert x <= y;
    assert x == 512 * (x / 512) + x % 512 && y == 512 * (y / 512) + y % 512;
  }

  lemma TablesNone(t: Tree, v: nat)
    ensures TablesFor(t, v, 0) == 0
  {}

  lemma TablesOne(t: Tree, v: nat, n: nat)
    ensures TablesFor(t, v, n + 1) == TablesFor(t, v, n) + LackingAt(t, v, n)
  {}

  lemma {:induction false} TablesMore(t: Tree, v: nat, n: nat, n': nat)
    requires n <= n'
    ensures TablesFor(t, v, n) <= TablesFor(t, v, n')
    decreases n'
  {
    if n < n' { TablesMore(t, v, n, n' - 1); }
  }

  lemma PavedOne(t: Tree, v: nat, t': Tree)
    requires t'.mid.Keys == t.mid.Keys + {D2(v)} && t'.low.Keys == t.low.Keys + {(D2(v), D1(v))}
    ensures Paved(t, v, 1, t')
  {
    hide D1, D2;
    assert MidsOf(v, 1) == {D2(v)} && LowsOf(v, 1) == {(D2(v), D1(v))};
  }

  // --------------------------------------------------------------------- walk

  /** No page of the tree is on the free list. */
  ghost predicate Apart(t: Tree, free: seq<nat>) { forall p :: p in free ==> Fresh(t, p) }

  /** The tree took the pages missing at the front of the free list, and no others. */
  ghost predicate Grew(t0: Tree, free0: seq<nat>, t: Tree, free: seq<nat>)
  {
    && |free| <= |free0| && free == free0[|free0| - |free|..] && t.root == t0.root
    && forall q :: IsTreePage(t, q) <==> IsTreePage(t0, q) || q in free0[..|free0| - |free|]
  }

  lemma GrewTrans(t0: Tree, free0: seq<nat>, t1: Tree, free1: seq<nat>, t2: Tree, free2: seq<nat>)
    requires Grew(t0, free0, t1, free1) && Grew(t1, free1, t2, free2)
    ensures Grew(t0, free0, t2, free2)
  {
    var n1, n2 := |free0| - |free1|, |free1| - |free2|;
    assert free0[..n1 + n2] == free0[..n1] + free1[..n2];
  }

  /** Only the tree's pages differ. */
  ghost predicate OnlyTree(mem: Ram, mem': Ram, t: Tree)
  {
    mem'.Keys == mem.Keys && forall p :: p in mem && Fresh(t, p) ==> mem'[p] == mem[p]
  }

  lemma FreshIsOutside(t: Tree, p: nat)
    ensures Fresh(t, p) <==> !IsTreePage(t, p)
  {}

  /** The free list survives changes elsewhere. */
  lemma StillThreaded(mem: Ram, mem': Ram, head: nat, free: seq<nat>)
    requires Threaded(mem, head, free) && mem'.Keys == mem.Keys
    requires forall p :: p in free ==> mem'[p] == mem[p]
    ensures Threaded(mem', head, free)
  {}

  /** The table reached on the way down to va. */
  ghost predicate OnPath(t: Tree, va: nat, level: nat, table: nat)
    requires level <= 2
  {
    if level == 2 then table == t.root
    else if level == 1 then PX(2, va) in t.mid && table == t.mid[PX(2, va)]
    else (PX(2, va), PX(1, va)) in t.low && table == t.low[(PX(2, va), PX(1, va))]
  }

  /** The entry of a table on the path: a link to the next table, or empty. */
  lemma PathEntry(mem: Ram, t: Tree, va: nat, level: nat, table: nat)
    requires Table(mem, t) && 1 <= level <= 2 && OnPath(t, va, level, table)
    ensures table in mem && !Fresh(t, table)
    ensures var pte := mem[table][PX(level, va)];
      if IsV(pte) then OnPath(t, va, level - 1, PtePa(pte))
      else pte == 0 && (if level == 2 then PX(2, va) !in t.mid else (PX(2, va), PX(1, va)) !in t.low)
  {
    hide PX;
    var i := PX(level, va);
    var child := if level == 2 then (if i in t.mid then t.mid[i] else 0)
                 else if (PX(2, va), i) in t.low then t.low[(PX(2, va), i)] else 0;
    if level == 2 {
      assert mem[table][i] == if i in t.mid then Down(t.mid[i]) else 0;
    } else {
      assert mem[table][i] == if (PX(2, va), i) in t.low then Down(t.low[(PX(2, va), i)]) else 0;
    }
    if mem[table][i] != 0 {
      PteRound(child, PTE_V);
    }
  }

  datatype Walked = Found(page: nat, index: nat) | Missing | WalkPanic

  ghost predicate SameBut(mem: Ram, mem': Ram, p: nat)
  {
    mem'.Keys == mem.Keys && forall q :: q in mem && q != p ==> mem'[q] == mem[q]
  }

  ghost function AttachedTree(t: Tree, va: nat, level: nat, p: nat): (t': Tree)
    requires 1 <= level <= 2
  {
    if level == 2 then t.(mid := t.mid[PX(2, va) := p]) else t.(low := t.low[(PX(2, va), PX(1, va)) := p])
  }

  ghost predicate Lacks(t: Tree, va: nat, level: nat)
    requires 1 <= level <= 2
  {
    if level == 2 then PX(2, va) !in t.mid else (PX(2, va), PX(1, va)) !in t.low
  }

  lemma AttachedTable(mem1: Ram, t: Tree, va: nat, level: nat, table: nat, p: nat)
    requires Table(mem1, t) && p in mem1 && Fresh(t, p)
    requires 1 <= level <= 2 && OnPath(t, va, level, table) && Lacks(t, va, level)
    ensures table in mem1 && table != p && !Fresh(t, table)
    ensures var mem2, t' := Hung(mem1, table, PX(level, va), p), AttachedTree(t, va, level, p);
      && Table(mem2, t') && SameMap(mem1, t, mem2, t') && OnPath(t', va, level - 1, p)
      && t'.root == t.root && (forall q :: IsTreePage(t', q) <==> IsTreePage(t, q) || q == p)
      && mem2.Keys == mem1.Keys && forall q :: q in mem1 && q != p && q != table ==> mem2[q] == mem1[q]
  {
    PathEntry(mem1, t, va, level, table);
    HungAt(mem1, table, PX(level, va), p);
    if level == 2 {
      HangMid(mem1, t, PX(2, va), p);
      MidShape(t, PX(2, va), p);
    } else {
      HangLow(mem1, t, PX(2, va), PX(1, va), p);
      LowShape(t, PX(2, va), PX(1, va), p);
    }
  }

  lemma AttachedFree(t: Tree, t': Tree, p: nat, free: seq<nat>)
    requires NoDup([p] + free) && Apart(t, [p] + free) && t'.root == t.root
    requires forall q :: IsTreePage(t', q) <==> IsTreePage(t, q) || q == p
    ensures Apart(t', free) && Grew(t, [p] + free, t', free)
  {
    var all := [p] + free;
    assert all[1..] == free && all[..1] == [p];
    forall q | q in free ensures Fresh(t', q) {
      assert q in all;
      var k :| 0 <= k < |free| && free[k] == q;
      assert all[k + 1] == q && all[0] == p;
      FreshIsOutside(t, q);
      FreshIsOutside(t', q);
    }
  }

  lemma Attached(mem0: Ram, mem1: Ram, t: Tree, va: nat, level: nat, table: nat, p: nat, free: seq<nat>)
    requires NoDup([p] + free) && p in mem0 && SameBut(mem0, mem1, p)
    requires Table(mem0, t) && Apart(t, [p] + free)
    requires 1 <= level <= 2 && OnPath(t, va, level, table) && Lacks(t, va, level)
    ensures table in mem1 && table != p
    ensures var mem2, t' := Hung(mem1, table, PX(level, va), p), AttachedTree(t, va, level, p);
      && Table(mem2, t') && Apart(t', free) && Grew(t, [p] + free, t', free)
      && OnlyTree(mem0, mem2, t') && SameMap(mem0, t, mem2, t') && OnPath(t', va, level - 1, p)
      && mem2.Keys == mem1.Keys && forall q :: q in free && q in mem1 ==> mem2[q] == mem1[q]
  {
    var mem2, t' := Hung(mem1, table, PX(level, va), p), AttachedTree(t, va, level, p);
    assert p in [p] + free;
    FreshIsOutside(t, p);
    OutsideTree(mem0, mem1, t);
    AttachedTable(mem1, t, va, level, table, p);
    AttachedFree(t, t', p, free);
    hide Hung, AttachedTree, PX, Table, OnPath, Lacks;
    forall q | q in mem0 && Fresh(t', q) ensures mem2[q] == mem0[q] {
      FreshIsOutside(t', q);
      FreshIsOutside(t, table);
    }
    forall q | q in free && q in mem1 ensures mem2[q] == mem1[q] {
      FreshIsOutside(t', q);
      FreshIsOutside(t, table);
    }
  }

  /** A page just allocated is zeroed and hung below an entry as a table. */
  method Attach(m: Memory, table: nat, level: nat, va: nat, p: nat, ghost t: Tree, ghost mem0: Ram,
      ghost free0: seq<nat>)
      returns (ghost t': Tree)
    requires m.Valid() && NoDup(free0) && free0 == [p] + m.free && p in mem0 && SameBut(mem0, m.mem, p)
    requires Table(mem0, t) && Apart(t, free0)
    requires 1 <= level <= 2 && OnPath(t, va, level, table) && Lacks(t, va, level)
    modifies m`mem
    ensures m.Valid() && Table(m.mem, t') && Apart(t', m.free)
    ensures Grew(t, free0, t', m.free) && OnlyTree(mem0, m.mem, t') && SameMap(mem0, t, m.mem, t')
    ensures OnPath(t', va, level - 1, p) && t' == AttachedTree(t, va, level, p)
  {
    hide Table, SameMap, OnlyTree, Grew, Apart, Down, Filled, PX, OnPath, NoDup, Lacks;
    ghost var mem1 := m.mem;
    Attached(mem0, mem1, t, va, level, table, p, m.free);
    t' := AttachedTree(t, va, level, p);
    m.mem := m.mem[p := Filled(0)];
    m.mem := m.mem[table := m.mem[table][PX(level, va) := Down(p)]];
    assert m.mem == Hung(mem1, table, PX(level, va), p);
    StillThreaded(mem1, m.mem, m.freelist, m.free);
  }

  lemma Unmoved(mem: Ram, t: Tree, free: seq<nat>)
    requires Table(mem, t)
    ensures Resident(mem, t) && SameMap(mem, t, mem, t) && Grew(t, free, t, free)
  {}

  /** One turn of the loop in walk(). */
  method WalkStep(m: Memory, table: nat, level: nat, va: nat, alloc: bool, ghost t: Tree)
      returns (ok: bool, table': nat, ghost t': Tree)
    requires m.Valid() && Table(m.mem, t) && Apart(t, m.free)
    requires 1 <= level <= 2 && OnPath(t, va, level, table)
    modifies m`mem, m`freelist, m`free
    ensures m.Valid() && Table(m.mem, t') && Apart(t', m.free)
    ensures Grew(t, old(m.free), t', m.free) && OnlyTree(old(m.mem), m.mem, t')
    ensures Resident(old(m.mem), t) && SameMap(old(m.mem), t, m.mem, t')
    ensures ok ==> OnPath(t', va, level - 1, table')
    ensures !ok || !alloc ==> t' == t && m.mem == old(m.mem) && m.free == old(m.free)
    ensures !ok && alloc ==> m.free == []
    ensures ok <==> !Lacks(t, va, level) || (alloc && old(m.free) != [])
    ensures ok && !Lacks(t, va, level) ==> t' == t && m.free == old(m.free)
    ensures ok && Lacks(t, va, level) ==> t' == AttachedTree(t, va, level, table') && |m.free| == |old(m.free)| - 1
  {
    PathEntry(m.mem, t, va, level, table);
    hide Table, SameMap, Grew, Apart, PX, NoDup, Threaded;
    var i := PX(level, va);
    var pte := m.mem[table][i];
    t' := t;
    Unmoved(m.mem, t, m.free);
    if IsV(pte) {
      ok, table' := true, PtePa(pte);
    } else if !alloc {
      ok, table' := false, 0;
    } else {
      table' := m.Kalloc();
      ok := table' != 0;
      if ok {
        t' := Attach(m, table, level, va, table', t, old(m.mem), old(m.free));
      }
    }
  }

  /** The address of a page number, and back. */
  function PageAddr(v: nat): (a: nat) { v * 4096 }

  function Vpn(va: nat): (v: nat) { va / 4096 }

  lemma PxDigits(va: nat)
    requires va < MAXVA
    ensures D0(Vpn(va)) == PX(0, va) && D1(Vpn(va)) == PX(1, va) && D2(Vpn(va)) == PX(2, va)
  {
    PxSplit(va);
    var a, b := PX(2, va), PX(1, va);
    assert (a * 512 + b) / 512 == a && (a * 512 + b) % 512 == b;
  }

  /** What walk() does to memory and tree: the map stays, only the tree grows. */
  ghost predicate Walk2(t: Tree, mem: Ram, free: seq<nat>, t': Tree, mem': Ram, free': seq<nat>)
  {
    && Resident(mem, t) && Table(mem', t') && Apart(t', free')
    && Grew(t, free, t', free') && OnlyTree(mem, mem', t') && SameMap(mem, t, mem', t')
  }

  lemma Walk2Trans(t: Tree, mem: Ram, free: seq<nat>, t1: Tree, mem1: Ram, free1: seq<nat>, t2: Tree, mem2: Ram,
      free2: seq<nat>)
    requires Walk2(t, mem, free, t1, mem1, free1) && Walk2(t1, mem1, free1, t2, mem2, free2)
    ensures Walk2(t, mem, free, t2, mem2, free2)
  {
    GrewTrans(t, free, t1, free1, t2, free2);
    hide Table, Apart;
    assert forall v: nat :: Entry(mem2, t2, v) == Entry(mem1, t1, v);
    forall p | p in mem && Fresh(t2, p) ensures mem2[p] == mem[p] {
      FreshIsOutside(t2, p);
      FreshIsOutside(t1, p);
    }
  }

  lemma WalkNone(mem: Ram, t: Tree, free: seq<nat>)
    requires Table(mem, t) && Apart(t, free)
    ensures Walk2(t, mem, free, t, mem, free)
  {
    Unmoved(mem, t, free);
  }

  /** walk(): find, or with alloc make, the entry of va. */
  method Walk(m: Memory, root: nat, va: nat, alloc: bool, ghost t: Tree) returns (r: Walked, ghost t': Tree)
    requires m.Valid() && Table(m.mem, t) && Apart(t, m.free) && t.root == root
    modifies m`mem, m`freelist, m`free
    ensures m.Valid() && Walk2(t, old(m.mem), old(m.free), t', m.mem, m.free)
    ensures r.WalkPanic? <==> va >= MAXVA
    ensures !alloc || r.WalkPanic? ==> t' == t && m.mem == old(m.mem) && m.free == old(m.free)
    ensures r.Found? ==> (D2(Vpn(va)), D1(Vpn(va))) in t'.low && r.index == D0(Vpn(va))
                         && r.page == t'.low[(D2(Vpn(va)), D1(Vpn(va)))]
    ensures r.Missing? && alloc ==> m.free == [] && |old(m.free)| < LackingAt(t, Vpn(va), 0)
    ensures r.Found? && alloc ==>
      Paved(t, Vpn(va), 1, t') && |m.free| == |old(m.free)| - LackingAt(t, Vpn(va), 0)
    ensures !alloc && va < MAXVA ==> (r.Found? <==> (D2(Vpn(va)), D1(Vpn(va))) in t.low)
  {
    hide Table, SameMap, Grew, Apart, PX, NoDup, Threaded, D0, D1, D2, Vpn, OnlyTree, Paved, Descended, LackingAt,
      Lacks, AttachedTree, Resident;
    WalkNone(m.mem, t, m.free);
    t' := t;
    if va >= MAXVA {
      return WalkPanic, t;
    }
    PxDigits(va);
    DescendedNone(t, va, |m.free|);
    var table, level := root, 2;
    while level > 0
      invariant 0 <= level <= 2 && m.Valid() && Walk2(t, old(m.mem), old(m.free), t', m.mem, m.free)
      invariant OnPath(t', va, level, table)
      invariant Descended(t, va, level, t', |old(m.free)|, |m.free|)
      invariant !alloc ==> t' == t && m.mem == old(m.mem) && m.free == old(m.free)
    {
      ghost var t1, mem1, free1 := t', m.mem, m.free;
      var ok;
      ok, table, t' := WalkStep(m, table, level, va, alloc, t');
      Walk2Trans(t, old(m.mem), old(m.free), t1, mem1, free1, t', m.mem, m.free);
      if !ok {
        if !alloc {
          KeysOnPath(m.mem, t, va, level);
        }
        DescentLacks(t, va, level, t', |old(m.free)|, |m.free|);
        return Missing, t';
      }
      DescendedNext(t, va, level, t1, |old(m.free)|, |free1|, t', |m.free|, table);
      level := level - 1;
    }
    DescendedAll(t, va, t', |old(m.free)|, |m.free|);
    r := Found(table, PX(0, va));
  }

  /** The tables on the way down to a level are there, and n0 - n pages were taken for them. */
  ghost predicate Descended(t: Tree, va: nat, level: nat, t': Tree, n0: nat, n: nat)
  {
    var a, b := PX(2, va), PX(1, va);
    if level == 2 then t' == t && n == n0
    else
      && t'.mid.Keys == t.mid.Keys + {a}
      && t'.low.Keys == (if level == 1 then t.low.Keys else t.low.Keys + {(a, b)})
      && n0 == n + (if a in t.mid then 0 else 1) + (if level == 1 || (a, b) in t.low then 0 else 1)
  }

  lemma DescendedNone(t: Tree, va: nat, n: nat)
    ensures Descended(t, va, 2, t, n, n)
  {}

  lemma DescendedNext(t: Tree, va: nat, level: nat, t1: Tree, n0: nat, n1: nat, t2: Tree, n2: nat, p: nat)
    requires 1 <= level <= 2 && Descended(t, va, level, t1, n0, n1)
    requires if Lacks(t1, va, level) then t2 == AttachedTree(t1, va, level, p) && n2 == n1 - 1 else t2 == t1 && n2 == n1
    ensures Descended(t, va, level - 1, t2, n0, n2)
  {
    hide PX;
    if Lacks(t1, va, level) {
      assert level == 2 ==> t2.mid.Keys == t1.mid.Keys + {PX(2, va)};
      assert level == 1 ==> t2.low.Keys == t1.low.Keys + {(PX(2, va), PX(1, va))};
    }
  }

  lemma DescentLacks(t: Tree, va: nat, level: nat, t': Tree, n0: nat, n: nat)
    requires va < MAXVA && 1 <= level <= 2 && Descended(t, va, level, t', n0, n) && Lacks(t', va, level)
    ensures n == 0 ==> n0 < LackingAt(t, Vpn(va), 0)
  {
    PxDigits(va);
    hide PX, D1, D2, Vpn;
  }

  lemma DescendedAll(t: Tree, va: nat, t': Tree, n0: nat, n: nat)
    requires va < MAXVA && Descended(t, va, 0, t', n0, n)
    ensures Paved(t, Vpn(va), 1, t') && n == n0 - LackingAt(t, Vpn(va), 0)
  {
    PxDigits(va);
    hide PX, D1, D2, Vpn;
    PavedOne(t, Vpn(va), t');
  }

  lemma KeysOnPath(mem: Ram, t: Tree, va: nat, level: nat)
    requires Table(mem, t) && 1 <= level <= 2 && Lacks(t, va, level)
    ensures (PX(2, va), PX(1, va)) !in t.low
  {}

  // ----------------------------------------------------------------- mappages

  datatype MapResult = Mapped | NoMemory | MapPanic

  /** The tree may have grown, and the map changed at page v only, to pte. */
  ghost predicate Stored(t: Tree, mem: Ram, free: seq<nat>, t': Tree, mem': Ram, free': seq<nat>, v: nat, pte: nat)
  {
    && Resident(mem, t) && Table(mem', t') && Apart(t', free')
    && Grew(t, free, t', free') && OnlyTree(mem, mem', t')
    && forall w: nat :: Entry(mem', t', w) == if w == v then pte else Entry(mem, t, w)
  }

  lemma StoredAfterWalk(t: Tree, mem: Ram, free: seq<nat>, t': Tree, mem1: Ram, free': seq<nat>, v: nat, pte: nat,
      head: nat)
    requires Walk2(t, mem, free, t', mem1, free') && (D2(v), D1(v)) in t'.low && LeafOk(pte)
    requires Threaded(mem1, head, free')
    ensures var q := t'.low[(D2(v), D1(v))];
      && q in mem1
      && var mem2 := mem1[q := mem1[q][D0(v) := pte]];
      && Stored(t, mem, free, t', mem2, free', v, pte) && mem2.Keys == mem1.Keys && Threaded(mem2, head, free')
  {
    var q := t'.low[(D2(v), D1(v))];
    StoreLeaf(mem1, t', v, pte);
    var mem2 := mem1[q := mem1[q][D0(v) := pte]];
    hide Table, D0, D1, D2, Grew;
    StillThreaded(mem1, mem2, head, free');
  }

  /** v is stored in the entry walk() found. */
  method StoreEntry(m: Memory, page: nat, index: nat, pte: nat, ghost t: Tree, ghost mem0: Ram, ghost free0: seq<nat>,
      ghost t': Tree, ghost v: nat)
    requires m.Valid() && Walk2(t, mem0, free0, t', m.mem, m.free) && LeafOk(pte)
    requires (D2(v), D1(v)) in t'.low && page == t'.low[(D2(v), D1(v))] && index == D0(v)
    modifies m`mem
    ensures m.Valid() && Stored(t, mem0, free0, t', m.mem, m.free, v, pte)
  {
    hide Walk2, Stored, Threaded, NoDup, D0, D1, D2, LeafOk;
    StoredAfterWalk(t, mem0, free0, t', m.mem, m.free, v, pte, m.freelist);
    m.mem := m.mem[page := m.mem[page][index := pte]];
  }

  /** One turn of the loop in mappages(). */
  method MapOne(m: Memory, root: nat, a: nat, pa: nat, perm: nat, ghost t: Tree) returns (r: MapResult, ghost t': Tree)
    requires m.Valid() && Table(m.mem, t) && Apart(t, m.free) && t.root == root
    requires Aligned(pa) && perm < FLAGS && IsLeaf(perm)
    modifies m`mem, m`freelist, m`free
    ensures m.Valid()
    ensures r.Mapped? ==> a < MAXVA && Entry(old(m.mem), t, Vpn(a)) == 0
    ensures r.Mapped? ==> Stored(t, old(m.mem), old(m.free), t', m.mem, m.free, Vpn(a), Pte(pa, WithV(perm)))
    ensures !r.Mapped? ==> Walk2(t, old(m.mem), old(m.free), t', m.mem, m.free)
    ensures r.NoMemory? ==> m.free == [] && |old(m.free)| < LackingAt(t, Vpn(a), 0)
    ensures r.Mapped? ==> Paved(t, Vpn(a), 1, t') && |m.free| == |old(m.free)| - LackingAt(t, Vpn(a), 0)
    ensures r.MapPanic? ==> a >= MAXVA || Entry(old(m.mem), t, Vpn(a)) != 0
  {
    hide Table, Apart, Threaded, NoDup, Vpn, D0, D1, D2, Pte, WithV, LeafOk, Paved, LackingAt, Walk2, Stored, Entry,
      Resident, IsV, IsLeaf;
    TableResident(m.mem, t);
    LeafPte(pa, perm);
    var w;
    w, t' := Walk(m, root, a, true, t);
    match w
    case WalkPanic => r := MapPanic;
    case Missing => r := NoMemory;
    case Found(page, index) =>
      WalkedEntry(t, old(m.mem), old(m.free), t', m.mem, m.free, Vpn(a));
      if IsV(m.mem[page][index]) {
        r := MapPanic;
      } else {
        StoreEntry(m, page, index, Pte(pa, WithV(perm)), t, old(m.mem), old(m.free), t', Vpn(a));
        r := Mapped;
      }
  }

  lemma LeafPte(pa: nat, perm: nat)
    requires Aligned(pa) && perm < FLAGS && IsLeaf(perm)
    ensures WithV(perm) < FLAGS && IsV(WithV(perm)) && IsLeaf(WithV(perm))
    ensures LeafOk(Pte(pa, WithV(perm))) && Pte(pa, WithV(perm)) != 0
  {
    assert perm % 2 == 0 ==> perm + 1 < FLAGS;
    assert WithV(perm) / 2 == perm / 2;
    PteRound(pa, WithV(perm));
  }

  /** The word walk() points to is the entry of the map; it is valid unless zero. */
  lemma WalkedEntry(t: Tree, mem: Ram, free: seq<nat>, t': Tree, mem': Ram, free': seq<nat>, v: nat)
    requires Walk2(t, mem, free, t', mem', free') && (D2(v), D1(v)) in t'.low
    ensures var q := t'.low[(D2(v), D1(v))];
      && q in mem' && mem'[q][D0(v)] == Entry(mem, t, v)
      && (IsV(Entry(mem, t, v)) <==> Entry(mem, t, v) != 0) && (Entry(mem, t, v) != 0 ==> IsLeaf(Entry(mem, t, v)))
  {
    assert Entry(mem', t', v) == Entry(mem, t, v);
    assert LeafOk(mem'[t'.low[(D2(v), D1(v))]][D0(v)]);
  }

  /** n pages from page number v on are mapped to consecutive pages from pa on. */
  ghost predicate Run(t: Tree, mem: Ram, free: seq<nat>, t': Tree, mem': Ram, free': seq<nat>, v: nat, n: nat,
      pa: nat, perm: nat)
  {
    && Resident(mem, t) && Table(mem', t') && Apart(t', free')
    && Grew(t, free, t', free') && OnlyTree(mem, mem', t')
    && (forall w: nat :: v <= w < v + n ==> Entry(mem, t, w) == 0)
    && forall w: nat :: Entry(mem', t', w) ==
         if v <= w < v + n then Pte(pa + PageAddr(w - v), WithV(perm)) else Entry(mem, t, w)
  }

  lemma TableResident(mem: Ram, t: Tree)
    ensures Table(mem, t) ==> Resident(mem, t)
  {}

  lemma RunNext(t: Tree, mem: Ram, free: seq<nat>, t1: Tree, mem1: Ram, free1: seq<nat>, t2: Tree, mem2: Ram,
      free2: seq<nat>, v: nat, n: nat, pa: nat, perm: nat)
    requires Run(t, mem, free, t1, mem1, free1, v, n, pa, perm)
    requires Stored(t1, mem1, free1, t2, mem2, free2, v + n, Pte(pa + PageAddr(n), WithV(perm)))
      && Entry(mem1, t1, v + n) == 0
    ensures Run(t, mem, free, t2, mem2, free2, v, n + 1, pa, perm)
  {
    TableResident(mem1, t1);
    TableResident(mem2, t2);
    hide Table, Apart, Grew, OnlyTree, Pte, WithV, PageAddr, Entry, Resident;
    GrewTrans(t, free, t1, free1, t2, free2);
    OnlyTreeTrans(t, mem, free, t1, mem1, free1, t2, mem2, free2);
    assert forall w: nat ::
      Entry(mem2, t2, w) == if w == v + n then Pte(pa + PageAddr(n), WithV(perm)) else Entry(mem1, t1, w);
  }

  lemma OnlyTreeTrans(t: Tree, mem: Ram, free: seq<nat>, t1: Tree, mem1: Ram, free1: seq<nat>, t2: Tree, mem2: Ram,
      free2: seq<nat>)
    requires OnlyTree(mem, mem1, t1) && OnlyTree(mem1, mem2, t2) && Grew(t, free, t1, free1)
      && Grew(t1, free1, t2, free2)
    ensures OnlyTree(mem, mem2, t2)
  {
    forall p | p in mem && Fresh(t2, p) ensures mem2[p] == mem[p] {
      FreshIsOutside(t2, p);
      FreshIsOutside(t1, p);
    }
  }

  lemma RunWalk(t: Tree, mem: Ram, free: seq<nat>, t1: Tree, mem1: Ram, free1: seq<nat>, t2: Tree, mem2: Ram,
      free2: seq<nat>, v: nat, n: nat, pa: nat, perm: nat)
    requires Run(t, mem, free, t1, mem1, free1, v, n, pa, perm) && Walk2(t1, mem1, free1, t2, mem2, free2)
    ensures Run(t, mem, free, t2, mem2, free2, v, n, pa, perm)
  {
    TableResident(mem1, t1);
    TableResident(mem2, t2);
    hide Table, Apart, Grew, OnlyTree, Pte, WithV, PageAddr, Entry, Resident;
    GrewTrans(t, free, t1, free1, t2, free2);
    OnlyTreeTrans(t, mem, free, t1, mem1, free1, t2, mem2, free2);
    assert forall w: nat :: Entry(mem2, t2, w) == Entry(mem1, t1, w);
  }

  lemma PageSteps(a: nat, n: nat)
    requires Aligned(a)
    ensures Aligned(a + PageAddr(n)) && Vpn(a + PageAddr(n)) == Vpn(a) + n && a == PageAddr(Vpn(a))
    ensures PageAddr(n + 1) == PageAddr(n) + PGSIZE && PageAddr(Vpn(a) + n) == a + PageAddr(n)
  {
    assert a + PageAddr(n) == (Vpn(a) + n) * 4096;
  }

  lemma RoundDownIs(a: nat)
    ensures Aligned(RoundDown(a)) && Vpn(RoundDown(a)) == Vpn(a) && RoundDown(a) == PageAddr(Vpn(a)) && PageAddr(0) == 0
  {}

  lemma RunNone(mem: Ram, t: Tree, free: seq<nat>, v: nat, pa: nat, perm: nat)
    requires Table(mem, t) && Apart(t, free)
    ensures Run(t, mem, free, t, mem, free, v, 0, pa, perm)
  {}

  /** The last page mappages() is asked for; the sum wraps like a uint64. */
  function LastPage(va: nat, size: nat): (a: nat) { RoundDown((va + size + U64 - 1) % U64) }

  /** mappages(): consecutive pages, up to the one holding the last byte. */
  method MapPages(m: Memory, root: nat, va: nat, size: nat, pa: nat, perm: nat, ghost t: Tree)
      returns (r: MapResult, ghost t': Tree, ghost n: nat)
    requires m.Valid() && Table(m.mem, t) && Apart(t, m.free) && t.root == root
    requires va < U64 && size < U64 && Aligned(pa) && perm < FLAGS && IsLeaf(perm)
    modifies m`mem, m`freelist, m`free
    ensures m.Valid() && Run(t, old(m.mem), old(m.free), t', m.mem, m.free, Vpn(va), n, pa, perm)
    ensures r.Mapped? ==> Vpn(va) + n == Vpn(LastPage(va, size)) + 1
    ensures !r.Mapped? && Vpn(va) <= Vpn(LastPage(va, size)) ==> Vpn(va) + n <= Vpn(LastPage(va, size))
    ensures r.NoMemory? ==> m.free == [] && |old(m.free)| < TablesFor(t, Vpn(va), n + 1)
    ensures r.Mapped? ==> Paved(t, Vpn(va), n, t') && |m.free| == |old(m.free)| - TablesFor(t, Vpn(va), n)
    ensures r.MapPanic? ==> PageAddr(Vpn(va) + n) >= MAXVA || Entry(old(m.mem), t, Vpn(va) + n) != 0
    ensures forall w: nat :: Vpn(va) <= w < Vpn(va) + n ==> PageAddr(w) < MAXVA
  {
    hide Table, Apart, Threaded, NoDup, Run, Aligned, RoundDown, Stored, Walk2, Vpn, PageAddr, Paved, LackingAt,
      TablesFor;
    PavedNone(t, Vpn(va));
    TablesNone(t, Vpn(va));
    var a0, last := RoundDown(va), LastPage(va, size);
    var a, p := a0, pa;
    RoundDownIs(va);
    RoundDownIs((va + size + U64 - 1) % U64);
    assert last == RoundDown((va + size + U64 - 1) % U64);
    RunNone(m.mem, t, m.free, Vpn(va), pa, perm);
    t', n := t, 0;
    while true
      invariant m.Valid() && Run(t, old(m.mem), old(m.free), t', m.mem, m.free, Vpn(va), n, pa, perm)
      invariant a == a0 + PageAddr(n) && p == pa + PageAddr(n)
      invariant Paved(t, Vpn(va), n, t') && |m.free| == |old(m.free)| - TablesFor(t, Vpn(va), n)
      invariant forall w: nat :: Vpn(va) <= w < Vpn(va) + n ==> PageAddr(w) < MAXVA
      invariant Vpn(va) <= Vpn(last) ==> Vpn(va) + n <= Vpn(last)
      invariant n > 0 ==> a <= MAXVA + PGSIZE
      decreases MAXVA + 2 * PGSIZE - a
    {
      PageSteps(a0, n);
      PageSteps(pa, n);
      assert n > 0 ==> PageAddr(Vpn(va) + (n - 1)) < MAXVA;
      r, t' := MapNext(m, root, a, p, perm, t, old(m.mem), old(m.free), t', Vpn(va), n, pa);
      if !r.Mapped? {
        return;
      }
      n := n + 1;
      if a == last {
        return;
      }
      PageSteps(last, 0);
      a, p := a + PGSIZE, p + PGSIZE;
    }
  }

  /** One turn of that loop. */
  method MapNext(m: Memory, root: nat, a: nat, p: nat, perm: nat, ghost t: Tree, ghost mem0: Ram,
      ghost free0: seq<nat>, ghost t1: Tree, ghost v: nat, ghost n: nat, ghost pa: nat)
      returns (r: MapResult, ghost t': Tree)
    requires m.Valid() && Run(t, mem0, free0, t1, m.mem, m.free, v, n, pa, perm) && t.root == root
    requires Vpn(a) == v + n && p == pa + PageAddr(n) && Aligned(p) && perm < FLAGS && IsLeaf(perm)
    requires Paved(t, v, n, t1) && |m.free| == |free0| - TablesFor(t, v, n)
    modifies m`mem, m`freelist, m`free
    ensures m.Valid() && Run(t, mem0, free0, t', m.mem, m.free, v, if r.Mapped? then n + 1 else n, pa, perm)
    ensures r.Mapped? ==> a < MAXVA && Paved(t, v, n + 1, t') && |m.free| == |free0| - TablesFor(t, v, n + 1)
    ensures r.NoMemory? ==> m.free == [] && |free0| < TablesFor(t, v, n + 1)
    ensures r.MapPanic? ==> a >= MAXVA || Entry(mem0, t, v + n) != 0
  {
    hide Table, Apart, Threaded, NoDup, Run, Aligned, Stored, Walk2, Vpn, PageAddr, Paved, LackingAt, TablesFor,
      Resident, Entry, IsLeaf, Pte, WithV;
    RunTable(t, mem0, free0, t1, m.mem, m.free, v, n, pa, perm);
    LackingNext(t, v, n, t1, 0);
    TablesOne(t, v, n);
    r, t' := MapOne(m, root, a, p, perm, t1);
    if r.Mapped? {
      PavedNext(t, v, n, t1, 1, t');
      RunNext(t, mem0, free0, t1, old(m.mem), old(m.free), t', m.mem, m.free, v, n, pa, perm);
    } else {
      RunWalk(t, mem0, free0, t1, old(m.mem), old(m.free), t', m.mem, m.free, v, n, pa, perm);
    }
  }

  lemma RunTable(t: Tree, mem: Ram, free: seq<nat>, t': Tree, mem': Ram, free': seq<nat>, v: nat, n: nat, pa: nat,
      perm: nat)
    requires Run(t, mem, free, t', mem', free', v, n, pa, perm)
    ensures Resident(mem, t) && Table(mem', t') && Apart(t', free') && t'.root == t.root
    ensures Entry(mem', t', v + n) == Entry(mem, t, v + n)
  {}
}
