/** freewalk() and uvmfree() of kernel/vm.c: a table whose leaves are gone is returned to
    the free list page by page. */
module FreeWalk {
  import opened Kalloc
  import opened PageTable
  import opened Uvm

  /** A node of the tree: the root (level 2), level-1 table a, or level-0 table (a, b). */
  datatype Node = Node(level: nat, a: nat, b: nat)

  ghost predicate IsNode(t: Tree, n: Node)
  {
    if n.level == 2 then n == Node(2, 0, 0)
    else if n.level == 1 then n.a in t.mid && n.b == 0
    else n.level == 0 && (n.a, n.b) in t.low
  }

  ghost function NodePage(t: Tree, n: Node): (p: nat)
    requires IsNode(t, n)
  {
    if n.level == 2 then t.root else if n.level == 1 then t.mid[n.a] else t.low[(n.a, n.b)]
  }

  function Child(n: Node, i: nat): (c: Node)
    requires n.level > 0
    ensures n.level <= 2 ==> c.level == n.level - 1
  {
    if n.level == 2 then Node(1, i, 0) else Node(n.level - 1, n.a, i)
  }

  /** Page q belongs to the subtree at n. */
  ghost predicate Below(t: Tree, n: Node, q: nat)
    decreases n.level
  {
    IsNode(t, n) && (q == NodePage(t, n) || (n.level > 0 && exists i: nat :: i < ENTRIES && Below(t, Child(n, i), q)))
  }

  /** Page q belongs to one of the first i subtrees below n. */
  ghost predicate BelowFirst(t: Tree, n: Node, i: nat, q: nat)
  {
    n.level > 0 && exists j: nat :: j < i && Below(t, Child(n, j), q)
  }

  /** Every last-level entry is empty. */
  ghost predicate NoLeaves(mem: Ram, t: Tree)
    requires Resident(mem, t)
  {
    forall k, j :: k in t.low && 0 <= j < ENTRIES ==> mem[t.low[k]][j] == 0
  }

  lemma NodeEntry(mem: Ram, t: Tree, n: Node, i: nat)
    requires Table(mem, t) && NoLeaves(mem, t) && IsNode(t, n) && n.level <= 2 && i < ENTRIES
    ensures NodePage(t, n) in mem
    ensures var pte := mem[NodePage(t, n)][i];
      if n.level > 0 && IsNode(t, Child(n, i)) then pte == Down(NodePage(t, Child(n, i))) else pte == 0
  {}

  /** Different nodes are different pages. */
  lemma PagesDiffer(mem: Ram, t: Tree, n: Node, c: Node)
    requires Table(mem, t) && IsNode(t, n) && IsNode(t, c) && n != c && n.level <= 2 && c.level <= 2
    ensures NodePage(t, n) != NodePage(t, c)
  {}

  /** n is c or lies above it. */
  predicate Above(n: Node, c: Node)
  {
    n == c || (n.level == 2 && c.level <= 1) || (n.level == 1 && c.level == 0 && n.a == c.a)
  }

  /** The node a page of a subtree is. */
  lemma BelowNode(t: Tree, n: Node, q: nat) returns (c: Node)
    requires Below(t, n, q) && n.level <= 2
    ensures IsNode(t, c) && q == NodePage(t, c) && Above(n, c) && c.level <= n.level
    decreases n.level
  {
    if q == NodePage(t, n) {
      c := n;
    } else {
      var i: nat :| i < ENTRIES && Below(t, Child(n, i), q);
      c := BelowNode(t, Child(n, i), q);
    }
  }

  /** Subtrees side by side share no page, nor does a subtree with its parent. */
  lemma SubtreesApart(mem: Ram, t: Tree, n: Node, i: nat, j: nat, q: nat)
    requires Table(mem, t) && IsNode(t, n) && 0 < n.level <= 2 && Below(t, Child(n, i), q)
    ensures q != NodePage(t, n)
    ensures Below(t, Child(n, j), q) ==> i == j
  {
    var c := BelowNode(t, Child(n, i), q);
    PagesDiffer(mem, t, n, c);
    if Below(t, Child(n, j), q) && i != j {
      var d := BelowNode(t, Child(n, j), q);
      if c != d {
        PagesDiffer(mem, t, c, d);
      }
    }
  }

  /** The subtree at n is still as in mem0, and none of it is free. */
  ghost predicate Intact(mem0: Ram, mem: Ram, free: seq<nat>, t: Tree, n: Node)
  {
    mem.Keys == mem0.Keys && forall q :: Below(t, n, q) && q in mem0 ==> mem[q] == mem0[q] && q !in free
  }

  /** freewalk() at n after i entries: the first i subtrees are free, the others intact. */
  ghost predicate Walking(mem0: Ram, t: Tree, n: Node, i: nat, mem1: Ram, free1: seq<nat>, mem: Ram, free: seq<nat>)
    requires IsNode(t, n) && NodePage(t, n) in mem0
  {
    var page := NodePage(t, n);
    && mem.Keys == mem0.Keys && mem1.Keys == mem0.Keys && page !in free
    && (forall q :: q in free <==> q in free1 || BelowFirst(t, n, i, q))
    && (forall j :: i <= j < ENTRIES ==> mem[page][j] == mem0[page][j])
    && (forall q :: q in mem0 && q != page && !BelowFirst(t, n, i, q) ==> mem[q] == mem1[q])
  }

  /** freewalk(); !ok is its panic. */
  method Free(m: Memory, page: nat, ghost mem0: Ram, ghost t: Tree, ghost n: Node) returns (ok: bool)
    requires m.Valid() && Table(mem0, t) && NoLeaves(mem0, t) && IsNode(t, n) && n.level <= 2 && page == NodePage(t, n)
    requires Intact(mem0, m.mem, m.free, t, n)
    modifies m`mem, m`freelist, m`free
    ensures ok && m.Valid() && m.mem.Keys == mem0.Keys
    ensures forall q :: q in m.free <==> q in old(m.free) || Below(t, n, q)
    ensures forall q :: q in mem0 && !Below(t, n, q) ==> m.mem[q] == old(m.mem)[q]
    decreases n.level, 1
  {
    hide Table, NoLeaves, Below, IsNode, NodePage, Intact, Walking, Threaded, NoDup;
    NodeEntry(mem0, t, n, 0);
    WalkingNone(mem0, t, n, m.mem, m.free);
    ghost var mem1, free1 := m.mem, m.free;
    var i := 0;
    while i < 512
      invariant 0 <= i <= 512 && m.Valid() && Walking(mem0, t, n, i, mem1, free1, m.mem, m.free)
    {
      ok := FreeEntry(m, page, i, mem0, t, n, mem1, free1);
      if !ok {
        return;
      }
      i := i + 1;
    }
    WalkedAll(mem0, t, n, mem1, free1, m.mem, m.free);
    ok := m.Kfree(page);
  }

  /** One entry: a lower table is freed and the entry cleared, an empty one skipped. */
  method FreeEntry(m: Memory, page: nat, i: nat, ghost mem0: Ram, ghost t: Tree, ghost n: Node, ghost mem1: Ram,
      ghost free1: seq<nat>)
      returns (ok: bool)
    requires m.Valid() && Table(mem0, t) && NoLeaves(mem0, t) && IsNode(t, n) && n.level <= 2 && page == NodePage(t, n)
    requires Intact(mem0, mem1, free1, t, n) && i < 512 && page in mem0
      && Walking(mem0, t, n, i, mem1, free1, m.mem, m.free)
    modifies m`mem, m`freelist, m`free
    ensures ok && m.Valid() && Walking(mem0, t, n, i + 1, mem1, free1, m.mem, m.free)
    decreases n.level, 0
  {
    hide Table, NoLeaves, Below, BelowFirst, IsNode, NodePage, Child, IsV, IsLeaf, PtePa, Down, Memory.Valid, Intact;
    NodeEntry(mem0, t, n, i);
    var pte := m.mem[page][i];
    DownIs(mem0, t, n, i, pte);
    ok := true;
    if IsV(pte) && !IsLeaf(pte) {
      EntryBefore(mem0, t, n, i, mem1, free1, m.mem, m.free);
      ghost var mem2, free2 := m.mem, m.free;
      ok := Free(m, PtePa(pte), mem0, t, Child(n, i));
      EntryAfter(mem0, t, n, i, mem1, free1, mem2, free2, m.mem, m.free, m.mem[page := m.mem[page][i := 0]]);
      FillPage(m, page, m.mem[page][i := 0]);
    } else if IsV(pte) {
      ok := false;
    } else {
      EntrySkipped(mem0, t, n, i, mem1, free1, m.mem, m.free);
    }
  }

  /** What an entry of a leafless table can be. */
  lemma DownIs(mem0: Ram, t: Tree, n: Node, i: nat, pte: nat)
    requires Table(mem0, t) && IsNode(t, n) && n.level <= 2 && i < 512
    requires pte == if n.level > 0 && IsNode(t, Child(n, i)) then Down(NodePage(t, Child(n, i))) else 0
    ensures IsV(pte) <==> n.level > 0 && IsNode(t, Child(n, i))
    ensures IsV(pte) ==> !IsLeaf(pte) && PtePa(pte) == NodePage(t, Child(n, i))
  {
    hide IsV, IsLeaf, PtePa, Pte, Aligned, RootRow, MidRows, LowRows, Unshared;
    LinkFlags();
    if n.level > 0 && IsNode(t, Child(n, i)) {
      assert NodePage(t, Child(n, i)) in mem0;
      PteRound(NodePage(t, Child(n, i)), PTE_V);
    }
  }

  lemma LinkFlags()
    ensures IsV(PTE_V) && !IsLeaf(PTE_V) && !IsV(0)
  {}

  lemma BelowFirstNext(t: Tree, n: Node, i: nat, q: nat)
    requires n.level > 0
    ensures BelowFirst(t, n, i + 1, q) <==> BelowFirst(t, n, i, q) || Below(t, Child(n, i), q)
  {
    if BelowFirst(t, n, i, q) {
      var j: nat :| j < i && Below(t, Child(n, j), q);
      assert j < i + 1;
    }
    if Below(t, Child(n, i), q) {
      assert i < i + 1;
    }
  }

  lemma EntrySkipped(mem0: Ram, t: Tree, n: Node, i: nat, mem1: Ram, free1: seq<nat>, mem: Ram, free: seq<nat>)
    requires IsNode(t, n) && NodePage(t, n) in mem0 && Walking(mem0, t, n, i, mem1, free1, mem, free)
    requires n.level == 0 || !IsNode(t, Child(n, i))
    ensures Walking(mem0, t, n, i + 1, mem1, free1, mem, free)
  {
    if n.level > 0 {
      forall q ensures BelowFirst(t, n, i + 1, q) <==> BelowFirst(t, n, i, q) {
        BelowFirstNext(t, n, i, q);
      }
    }
  }

  lemma EntryBefore(mem0: Ram, t: Tree, n: Node, i: nat, mem1: Ram, free1: seq<nat>, mem: Ram, free: seq<nat>)
    requires Table(mem0, t) && IsNode(t, n) && 0 < n.level <= 2 && NodePage(t, n) in mem0 && i < 512
    requires Walking(mem0, t, n, i, mem1, free1, mem, free) && Intact(mem0, mem1, free1, t, n) && IsNode(t, Child(n, i))
    ensures Intact(mem0, mem, free, t, Child(n, i))
  {
    forall q | Below(t, Child(n, i), q) && q in mem0 ensures mem[q] == mem0[q] && q !in free {
      assert Below(t, n, q);
      SubtreesApart(mem0, t, n, i, i, q);
      if BelowFirst(t, n, i, q) {
        var j: nat :| j < i && Below(t, Child(n, j), q);
        SubtreesApart(mem0, t, n, i, j, q);
      }
    }
  }

  lemma EntryAfter(mem0: Ram, t: Tree, n: Node, i: nat, mem1: Ram, free1: seq<nat>, mem2: Ram, free2: seq<nat>,
      mem3: Ram, free3: seq<nat>, mem4: Ram)
    requires Table(mem0, t) && IsNode(t, n) && 0 < n.level <= 2 && NodePage(t, n) in mem0 && i < 512
    requires Walking(mem0, t, n, i, mem1, free1, mem2, free2) && IsNode(t, Child(n, i))
    requires mem3.Keys == mem0.Keys && (forall q :: q in free3 <==> q in free2 || Below(t, Child(n, i), q))
    requires forall q :: q in mem0 && !Below(t, Child(n, i), q) ==> mem3[q] == mem2[q]
    requires mem4 == mem3[NodePage(t, n) := mem3[NodePage(t, n)][i := 0]]
    ensures Walking(mem0, t, n, i + 1, mem1, free1, mem4, free3)
    ensures NodePage(t, n) !in free3
  {
    hide BelowFirst, Below, Table, IsNode, NodePage, Child;
    var page := NodePage(t, n);
    forall q ensures BelowFirst(t, n, i + 1, q) <==> BelowFirst(t, n, i, q) || Below(t, Child(n, i), q) {
      BelowFirstNext(t, n, i, q);
    }
    if Below(t, Child(n, i), page) {
      SubtreesApart(mem0, t, n, i, i, page);
    }
    assert mem3[page] == mem2[page];
  }

  lemma WalkingNone(mem0: Ram, t: Tree, n: Node, mem: Ram, free: seq<nat>)
    requires IsNode(t, n) && NodePage(t, n) in mem0 && Intact(mem0, mem, free, t, n)
    ensures mem.Keys == mem0.Keys && Walking(mem0, t, n, 0, mem, free, mem, free)
  {
    assert Below(t, n, NodePage(t, n));
  }

  lemma WalkedAll(mem0: Ram, t: Tree, n: Node, mem1: Ram, free1: seq<nat>, mem: Ram, free: seq<nat>)
    requires IsNode(t, n) && n.level <= 2 && NodePage(t, n) in mem0 && Walking(mem0, t, n, 512, mem1, free1, mem, free)
    ensures forall q :: q in free || q == NodePage(t, n) <==> q in free1 || Below(t, n, q)
    ensures mem.Keys == mem0.Keys && mem1.Keys == mem0.Keys
    ensures forall q :: q in mem0 && !Below(t, n, q) ==> mem[q] == mem1[q]
    ensures NodePage(t, n) !in free && Below(t, n, NodePage(t, n))
  {
    forall q ensures Below(t, n, q) <==> q == NodePage(t, n) || BelowFirst(t, n, 512, q) {}
  }

  // ------------------------------------------------------------------- uvmfree

  /** The subtree at the root is the whole tree. */
  lemma RootBelow(t: Tree, q: nat)
    requires Keys(t)
    ensures Below(t, Node(2, 0, 0), q) <==> IsTreePage(t, q)
  {
    var root := Node(2, 0, 0);
    if Below(t, root, q) {
      var c := BelowNode(t, root, q);
    }
    if i :| i in t.mid && t.mid[i] == q {
      assert Below(t, Child(root, i), q);
    }
    if k :| k in t.low && t.low[k] == q {
      assert Below(t, Child(Child(root, k.0), k.1), q);
      assert Below(t, Child(root, k.0), q);
    }
  }

  lemma EmptyMapNoLeaves(mem: Ram, t: Tree)
    requires Table(mem, t) && forall v: nat :: Entry(mem, t, v) == 0
    ensures NoLeaves(mem, t)
  {
    forall k, j | k in t.low && 0 <= j < ENTRIES ensures mem[t.low[k]][j] == 0 {
      var v := (k.0 * 512 + k.1) * 512 + j;
      DigitsOf(k.0, k.1, j);
      assert Entry(mem, t, v) == 0;
    }
  }

  lemma DigitsOf(a: nat, b: nat, c: nat)
    requires b < 512 && c < 512
    ensures var v := (a * 512 + b) * 512 + c; D0(v) == c && D1(v) == b && D2(v) == a
  {
    var u := a * 512 + b;
    assert (u * 512 + c) / 512 == u && (u * 512 + c) % 512 == c;
    assert u / 512 == a && u % 512 == b;
  }

  /** uvmfree(): user pages, then table pages; !ok is any panic on the way. Nothing may
      be mapped beyond sz. */
  method UvmFree(m: Memory, root: nat, sz: nat, ghost t: Tree) returns (ok: bool)
    requires m.Valid() && Table(m.mem, t) && Apart(t, m.free) && t.root == root && sz <= MAXVA
    requires Private(m.mem, t, m.free, 0, Pages(sz)) && AllUnmappable(m, m.mem, t, 0, Pages(sz), true)
    requires forall v: nat :: v >= Pages(sz) ==> Entry(m.mem, t, v) == 0
    modifies m`mem, m`freelist, m`free
    ensures ok && m.Valid() && m.mem.Keys == old(m.mem).Keys
    ensures forall q ::
      q in m.free <==>
      q in old(m.free) || IsTreePage(t, q) || exists v: nat :: v < Pages(sz) && Pa(old(m.mem), t, v) == q
    ensures forall q :: q in old(m.mem) && q !in m.free ==> m.mem[q] == old(m.mem)[q]
  {
    hide Table, Apart, Threaded, NoDup, Private, AllUnmappable, Entry, Resident, Pages, Pa, IsTreePage, Taken,
      Aligned, Vpn, PageAddr;
    TableResident(m.mem, t);
    PagesIs(sz);
    NoPages();
    UnmappedNone(t, m.mem, m.free, 0, true);
    AddrIs(Pages(sz));
    ok := true;
    if sz > 0 {
      ok := UvmUnmap(m, root, 0, RoundUp(sz) / PGSIZE, true, t);
    }
    FreedUser(t, old(m.mem), old(m.free), m.mem, m.free, Pages(sz));
    ghost var mem1, free1 := m.mem, m.free;
    ReadyToFree(t, m.mem, m.free);
    ok := Free(m, root, m.mem, t, Node(2, 0, 0));
    Freed(t, mem1, m.mem, free1, m.free);
  }

  lemma NoPages()
    ensures Pages(0) == 0 && Aligned(0) && Vpn(0) == 0
  {}

  lemma AddrIs(n: nat)
    ensures PageAddr(n) / PGSIZE == n && (n <= 0x400_0000 ==> PageAddr(n) < U64)
  {}

  /** After the user pages are out nothing is mapped. */
  lemma FreedUser(t: Tree, mem: Ram, free: seq<nat>, mem': Ram, free': seq<nat>, n: nat)
    requires Unmapped(t, mem, free, mem', free', 0, n, true)
    requires forall v: nat :: v >= n ==> Entry(mem, t, v) == 0
    ensures Table(mem', t) && Apart(t, free') && mem'.Keys == mem.Keys && Resident(mem', t)
    ensures forall v: nat :: Entry(mem', t, v) == 0
    ensures forall q :: q in free' <==> q in free || exists v: nat :: v < n && Pa(mem, t, v) == q
    ensures forall q :: q in mem && !IsTreePage(t, q) && q !in free' ==> mem'[q] == mem[q]
  {
    TableResident(mem', t);
    forall q ensures q in free' <==> q in free || exists v: nat :: v < n && Pa(mem, t, v) == q {
      TakenIs(mem, t, 0, n, q);
    }
    forall q | q in mem && !IsTreePage(t, q) && q !in free' ensures mem'[q] == mem[q] { FreshIsOutside(t, q); }
  }

  lemma ReadyToFree(t: Tree, mem: Ram, free: seq<nat>)
    requires Table(mem, t) && Apart(t, free) && forall v: nat :: Entry(mem, t, v) == 0
    ensures NoLeaves(mem, t) && IsNode(t, Node(2, 0, 0)) && NodePage(t, Node(2, 0, 0)) == t.root
    ensures Intact(mem, mem, free, t, Node(2, 0, 0))
  {
    EmptyMapNoLeaves(mem, t);
    forall q | Below(t, Node(2, 0, 0), q) ensures q !in free {
      RootBelow(t, q);
      FreshIsOutside(t, q);
    }
  }

  lemma Freed(t: Tree, mem: Ram, mem': Ram, free: seq<nat>, free': seq<nat>)
    requires Table(mem, t) && mem'.Keys == mem.Keys
    requires forall q :: q in free' <==> q in free || Below(t, Node(2, 0, 0), q)
    requires forall q :: q in mem && !Below(t, Node(2, 0, 0), q) ==> mem'[q] == mem[q]
    ensures forall q :: q in free' <==> q in free || IsTreePage(t, q)
    ensures forall q :: q in mem && !IsTreePage(t, q) ==> mem'[q] == mem[q]
  {
    forall q ensures Below(t, Node(2, 0, 0), q) <==> IsTreePage(t, q) { RootBelow(t, q); }
  }
}
