/** Page arithmetic of kernel/riscv.h and the physical page allocator of
    kernel/kalloc.c, whose free list is threaded through the free pages themselves. */
module Kalloc {

  const PGSIZE: nat := 4096
  const ENTRIES: nat := 512                       // 64-bit words in a page
  const MAXVA: nat := 0x40_0000_0000              // 1 << 38
  const U64: nat := 0x1_0000_0000_0000_0000
  const JUNK1: nat := 0x0101_0101_0101_0101
  const JUNK5: nat := 0x0505_0505_0505_0505

  // Arithmetic is written with literals, which the solver takes as linear.
  function RoundDown(a: nat): (r: nat) { a / 4096 * 4096 }

  /** PGROUNDUP on a 64-bit value: the addition wraps. */
  function RoundUp(a: nat): (r: nat) { (a + 4095) % U64 / 4096 * 4096 }

  predicate Aligned(a: nat) { a % 4096 == 0 }

  type Page = p: seq<nat> | |p| == ENTRIES witness seq(ENTRIES, i => 0)

  function Filled(v: nat): (p: Page) { seq(ENTRIES, i => v) }

  type Ram = map<nat, Page>

  /** Elements of a list of pages. */
  ghost function Elems(s: seq<nat>): (e: set<nat>) { set x | x in s }

  ghost predicate NoDup(s: seq<nat>) { forall i, j :: 0 <= i < j < |s| ==> s[i] != s[j] }

  /** The word 0 links from `head` run exactly through the pages of `free`. */
  ghost predicate Threaded(mem: Ram, head: nat, free: seq<nat>)
  {
    && head == Link(free, 0)
    && forall i :: 0 <= i < |free| ==> free[i] in mem && free[i] != 0 && mem[free[i]][0] == Link(free, i + 1)
  }

  ghost function Link(free: seq<nat>, i: nat): (p: nat) { if i < |free| then free[i] else 0 }

  lemma RoundUpIs(a: nat)
    requires a + PGSIZE <= U64
    ensures Aligned(RoundUp(a)) && a <= RoundUp(a) < a + PGSIZE
    ensures forall q: nat :: Aligned(q) && q >= a ==> q >= RoundUp(a)
  {
    forall q: nat | Aligned(q) && q >= a ensures q >= RoundUp(a) {
      assert RoundUp(a) == (a + 4095) / 4096 * 4096 && q == q / 4096 * 4096;
    }
  }

  lemma AlignedIsSame(q: nat, p: nat)
    requires Aligned(q) && Aligned(p) && p <= q < p + PGSIZE
    ensures q == p
  {
    assert (q - p) % 4096 == 0;
  }

  lemma NextPage(pages: set<nat>, p: nat)
    requires Aligned(p) && forall q :: q in pages ==> Aligned(q)
    ensures Aligned(p + PGSIZE)
    ensures forall q :: q in pages && p <= q < p + PGSIZE ==> q == p
  {
    forall q | q in pages && p <= q < p + PGSIZE ensures q == p { AlignedIsSame(q, p); }
  }

  class Memory {
    const end: nat                // first address after the kernel
    const phystop: nat
    var mem: Ram
    var freelist: nat
    ghost var free: seq<nat>

    predicate IsPage(p: nat) { Aligned(p) && end <= p < phystop }

    ghost predicate Valid()
      reads this
    {
      && 0 < end
      && (forall p: nat :: p in mem <==> IsPage(p))
      && NoDup(free) && Threaded(mem, freelist, free)
    }

    /** kinit(): every page of RAM after the kernel is free. */
    constructor (end: nat, phystop: nat, mem: Ram)
      requires 0 < end <= phystop && Aligned(phystop) && phystop + PGSIZE < U64
      requires forall p: nat :: p in mem <==> Aligned(p) && end <= p < phystop
      ensures Valid() && this.end == end && this.phystop == phystop
      ensures (forall p :: p in free <==> p in mem) && this.mem.Keys == mem.Keys
    {
      this.end, this.phystop, this.mem, freelist, free := end, phystop, mem, 0, [];
      new;
      FreeRange(end, phystop);
    }

    /** freerange(): every whole page of the range joins the list. */
    method FreeRange(start: nat, stop: nat)
      requires Valid() && end <= start && stop <= phystop && Aligned(stop) && start + PGSIZE < U64
      requires forall p :: p in free ==> p < start
      modifies this`mem, this`freelist, this`free
      ensures Valid() && mem.Keys == old(mem).Keys
      ensures forall q :: q in free <==> q in old(free) || (q in mem && start <= q < stop)
    {
      RoundUpIs(start);
      var p := RoundUp(start);
      ghost var free0 := free;
      while p + PGSIZE <= stop
        invariant Freeing(free0, start, p, stop) && mem.Keys == old(mem).Keys
        decreases stop - p
      {
        p := FreeNext(free0, start, p, stop);
      }
      if p <= stop {
        AlignedIsSame(stop, p);
      }
    }

    /** That loop when it has come to p. */
    ghost predicate Freeing(free0: seq<nat>, start: nat, p: nat, stop: nat)
      reads this
    {
      && Valid() && Aligned(p) && start <= p
      && (forall q :: q in free ==> q < p)
      && (forall q :: q in free <==> q in free0 || (q in mem && start <= q < p && q < stop))
    }

    method FreeNext(ghost free0: seq<nat>, ghost start: nat, p: nat, ghost stop: nat) returns (p': nat)
      requires Freeing(free0, start, p, stop) && end <= start && p + PGSIZE <= stop <= phystop
      modifies this`mem, this`freelist, this`free
      ensures p' == p + PGSIZE && Freeing(free0, start, p', stop) && mem.Keys == old(mem).Keys
    {
      hide Threaded, NoDup, Aligned;
      NextPage(mem.Keys, p);
      var ok := Kfree(p);
      p' := p + PGSIZE;
    }

    /** kfree(); !ok is its panic. */
    method Kfree(pa: nat) returns (ok: bool)
      requires Valid() && pa !in free
      modifies this`mem, this`freelist, this`free
      ensures ok <==> IsPage(pa)
      ensures !ok ==> mem == old(mem) && freelist == old(freelist) && free == old(free)
      ensures ok ==> Valid() && free == [pa] + old(free)
      ensures ok ==> mem == old(mem)[pa := Filled(JUNK1)[0 := old(freelist)]]
    {
      if !Aligned(pa) || pa < end || pa >= phystop {
        return false;
      }
      mem := mem[pa := Filled(JUNK1)];
      mem := mem[pa := mem[pa][0 := freelist]];
      freelist := pa;
      free := [pa] + free;
      ok := true;
    }

    /** kalloc(): the page freed last, or 0. */
    method Kalloc() returns (pa: nat)
      requires Valid()
      modifies this`mem, this`freelist, this`free
      ensures Valid()
      ensures pa == 0 <==> old(free) == []
      ensures pa == 0 ==> free == old(free) && mem == old(mem) && freelist == old(freelist)
      ensures pa != 0 ==> pa == old(free)[0] && free == old(free)[1..] && mem == old(mem)[pa := Filled(JUNK5)]
    {
      pa := freelist;
      if pa != 0 {
        freelist := mem[pa][0];
        mem := mem[pa := Filled(JUNK5)];
        free := free[1..];
      }
    }
  }
}
