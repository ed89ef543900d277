/** The user-level allocator of user/umalloc.c: malloc, free and morecore over a circular
    list of headers in address order.

    Addresses are bytes; a header is 16 bytes and a block of n units lies at [a, a + 16n).
    `ring` lists the free blocks in address order from the static header `base` on, and
    `blocks` gives the size of every block, free or handed out. */
module Umalloc {
  import opened Common

  const MIN_UNITS: nat := 4096

  datatype Header = Header(ptr: nat, size: nat)

  type Heap = map<nat, Header>

  type Blocks = map<nat, nat>

  function EndOf(a: nat, n: nat): (e: nat) { a + 16 * n }

  /** The next free block after the i-th; the last one's is the first. */
  function Next(ring: seq<nat>, i: nat): (a: nat)
    requires i < |ring|
  {
    if i + 1 < |ring| then ring[i + 1] else ring[0]
  }

  ghost predicate Sorted(ring: seq<nat>) { forall i: nat, j: nat :: i < j < |ring| ==> Less(ring, i, j) }

  predicate Less(ring: seq<nat>, i: nat, j: nat)
    requires i < |ring| && j < |ring|
  {
    ring[i] < ring[j]
  }

  lemma Differ(ring: seq<nat>, i: nat, j: nat)
    requires Sorted(ring) && i < |ring| && j < |ring|
    ensures ring[i] == ring[j] <==> i == j
  {
    if i < j { assert Less(ring, i, j); } else if j < i { assert Less(ring, j, i); }
  }

  /** The pointers run through the ring in order, with one wrap. */
  ghost predicate Linked(heap: Heap, ring: seq<nat>) { forall i: nat :: i < |ring| ==> LinkAt(heap, ring, i) }

  ghost predicate LinkAt(heap: Heap, ring: seq<nat>, i: nat)
    requires i < |ring|
  {
    ring[i] in heap && heap[ring[i]].ptr == Next(ring, i)
  }

  ghost predicate Disjoint(blocks: Blocks)
  {
    forall a, b :: a in blocks && b in blocks && a < b ==> EndOf(a, blocks[a]) <= b
  }

  /** No free block ends where the next begins. */
  ghost predicate Apart(ring: seq<nat>, blocks: Blocks)
  {
    forall i: nat :: 0 < i < |ring| - 1 ==> ApartAt(ring, blocks, i)
  }

  ghost predicate ApartAt(ring: seq<nat>, blocks: Blocks, i: nat)
    requires i + 1 < |ring|
  {
    ring[i] in blocks ==> EndOf(ring[i], blocks[ring[i]]) != ring[i + 1]
  }

  /** The ring is base and some of the blocks; headers hold the sizes. */
  ghost predicate Shape(base: nat, heap: Heap, ring: seq<nat>, blocks: Blocks)
  {
    && |ring| > 0 && ring[0] == base && Sorted(ring) && base in heap && heap[base].size == 0
    && (forall i: nat :: 0 < i < |ring| ==> ring[i] in blocks)
    && (forall a :: a in blocks ==> base + 16 <= a && blocks[a] > 0 && a in heap && heap[a].size == blocks[a])
  }

  ghost predicate Ok(base: nat, heap: Heap, ring: seq<nat>, blocks: Blocks)
  {
    Shape(base, heap, ring, blocks) && Linked(heap, ring) && Disjoint(blocks) && Apart(ring, blocks)
  }

  /** Byte x lies in some block. */
  ghost predicate Covered(blocks: Blocks, x: nat) { exists a :: a in blocks && Within(blocks, a, x) }

  ghost predicate Within(blocks: Blocks, a: nat, x: nat)
    requires a in blocks
  {
    a <= x < EndOf(a, blocks[a])
  }

  ghost predicate SameBytes(blocks: Blocks, blocks': Blocks)
  {
    forall x: nat :: Covered(blocks, x) <==> Covered(blocks', x)
  }

  /** The blocks handed out, with their sizes: those not in the ring. */
  ghost function Live(ring: seq<nat>, blocks: Blocks): (r: Blocks) { map a | a in blocks && a !in ring :: blocks[a] }

  // ------------------------------------------------------- changes to the set of blocks

  /** Two blocks where one ends at the other become one. */
  ghost function Merged(blocks: Blocks, a: nat, b: nat): (r: Blocks)
    requires a in blocks && b in blocks
  {
    (blocks - {b})[a := blocks[a] + blocks[b]]
  }

  lemma MergedAt(blocks: Blocks, a: nat, b: nat)
    requires a in blocks && b in blocks && a != b
    ensures var r := Merged(blocks, a, b);
      && (forall x :: x in r <==> x in blocks && x != b)
      && (forall x :: x in r ==> r[x] == if x == a then blocks[a] + blocks[b] else blocks[x])
  {}

  lemma MergedBytes(blocks: Blocks, a: nat, b: nat, x: nat)
    requires a in blocks && b in blocks && EndOf(a, blocks[a]) == b && a != b
    ensures Covered(blocks, x) <==> Covered(Merged(blocks, a, b), x)
  {
    var r := Merged(blocks, a, b);
    MergedAt(blocks, a, b);
    hide Merged;
    if Covered(blocks, x) {
      var c :| c in blocks && Within(blocks, c, x);
      assert Within(r, if c == b then a else c, x);
    }
    if Covered(r, x) {
      var c :| c in r && Within(r, c, x);
      assert Within(blocks, if c == a && x >= b then b else c, x);
    }
  }

  lemma MergedOk(blocks: Blocks, a: nat, b: nat)
    requires Disjoint(blocks) && a in blocks && b in blocks && EndOf(a, blocks[a]) == b && a < b
    ensures Disjoint(Merged(blocks, a, b)) && SameBytes(blocks, Merged(blocks, a, b))
  {
    hide Merged, Covered;
    MergedAt(blocks, a, b);
    var r := Merged(blocks, a, b);
    forall x: nat ensures Covered(blocks, x) <==> Covered(r, x) { MergedBytes(blocks, a, b, x); }
    forall x, y | x in r && y in r && x < y ensures EndOf(x, r[x]) <= y {
      assert EndOf(x, blocks[x]) <= y;
      if x == a { assert EndOf(b, blocks[b]) <= y; }
    }
  }

  /** The tail of a block becomes a block of its own. */
  ghost function Split(blocks: Blocks, a: nat, n: nat): (r: Blocks)
    requires a in blocks && n < blocks[a]
  {
    blocks[a := blocks[a] - n][EndOf(a, blocks[a] - n) := n]
  }

  lemma SplitAt(blocks: Blocks, a: nat, n: nat)
    requires Disjoint(blocks) && a in blocks && 0 < n < blocks[a]
    ensures var r, m := Split(blocks, a, n), EndOf(a, blocks[a] - n);
      && m !in blocks && (forall x :: x in r <==> x in blocks || x == m)
      && (forall x :: x in r ==> r[x] == if x == m then n else if x == a then blocks[a] - n else blocks[x])
  {
    var m := EndOf(a, blocks[a] - n);
    assert a < m < EndOf(a, blocks[a]);
  }

  lemma SplitBytes(blocks: Blocks, a: nat, n: nat, x: nat)
    requires Disjoint(blocks) && a in blocks && 0 < n < blocks[a]
    ensures Covered(blocks, x) <==> Covered(Split(blocks, a, n), x)
  {
    var r, m := Split(blocks, a, n), EndOf(a, blocks[a] - n);
    SplitAt(blocks, a, n);
    hide Split, Disjoint;
    if Covered(blocks, x) {
      var c :| c in blocks && Within(blocks, c, x);
      assert Within(r, if c == a && x >= m then m else c, x);
    }
    if Covered(r, x) {
      var c :| c in r && Within(r, c, x);
      assert Within(blocks, if c == m then a else c, x);
    }
  }

  lemma SplitOk(blocks: Blocks, a: nat, n: nat)
    requires Disjoint(blocks) && a in blocks && 0 < n < blocks[a]
    ensures Disjoint(Split(blocks, a, n)) && SameBytes(blocks, Split(blocks, a, n))
  {
    hide Split, Covered;
    SplitAt(blocks, a, n);
    forall x: nat ensures Covered(blocks, x) <==> Covered(Split(blocks, a, n), x) { SplitBytes(blocks, a, n, x); }
    var r, m := Split(blocks, a, n), EndOf(a, blocks[a] - n);
    forall x, y | x in r && y in r && x < y ensures EndOf(x, r[x]) <= y {
      if x == m { assert EndOf(a, blocks[a]) <= y; }
      else if y == m { assert x != a ==> EndOf(x, blocks[x]) <= a; }
      else { assert EndOf(x, blocks[x]) <= y; }
    }
  }

  // ------------------------------------------------------------ changes to the ring

  /** Everything in order but the pointer of the block before the k-th, and whether the two
      touch. */
  ghost predicate Hooked(base: nat, heap: Heap, ring: seq<nat>, blocks: Blocks, k: nat)
  {
    && Shape(base, heap, ring, blocks) && Disjoint(blocks) && 0 < k < |ring|
    && (forall i: nat :: i < |ring| && i + 1 != k ==> LinkAt(heap, ring, i))
    && (forall i: nat :: 0 < i < |ring| - 1 && i + 1 != k ==> ApartAt(ring, blocks, i))
  }

  ghost function Inserted(ring: seq<nat>, k: nat, a: nat): (r: seq<nat>)
    requires k <= |ring|
  {
    ring[..k] + [a] + ring[k..]
  }

  ghost function Removed(ring: seq<nat>, k: nat): (r: seq<nat>)
    requires k < |ring|
  {
    ring[..k] + ring[k + 1..]
  }

  lemma InsertedAt(ring: seq<nat>, k: nat, a: nat)
    requires Sorted(ring) && 0 < k <= |ring| && ring[k - 1] < a && (k < |ring| ==> a < ring[k])
    ensures var r := Inserted(ring, k, a);
      |r| == |ring| + 1 && Sorted(r) && forall i: nat ::
      i < |r| ==> r[i] == if i < k then ring[i] else if i == k then a else ring[i - 1]
  {
    var r := Inserted(ring, k, a);
    forall i: nat, j: nat | i < j < |r| ensures Less(r, i, j) {
      var x, y := if i < k then i else if i == k then k - 1
        else i - 1, if j < k then j else if j == k then k - 1 else j - 1;
      if x < y { assert Less(ring, x, y); }
      if i == k && k < |ring| && k < y { assert Less(ring, k, y); }
    }
  }

  lemma RemovedAt(ring: seq<nat>, k: nat)
    requires Sorted(ring) && k < |ring|
    ensures var r := Removed(ring, k);
      |r| == |ring| - 1 && Sorted(r) && forall i: nat :: i < |r| ==> r[i] == if i < k then ring[i] else ring[i + 1]
  {
    var r := Removed(ring, k);
    forall i: nat, j: nat | i < j < |r| ensures Less(r, i, j) {
      assert Less(ring, if i < k then i else i + 1, if j < k then j else j + 1);
    }
  }

  ghost function Replaced(ring: seq<nat>, k: nat, a: nat): (r: seq<nat>)
    requires k < |ring|
    ensures |r| == |ring|
  {
    ring[k := a]
  }

  lemma ReplacedAt(ring: seq<nat>, k: nat, a: nat)
    requires Sorted(ring) && 0 < k < |ring| && ring[k - 1] < a <= ring[k]
    ensures Sorted(Replaced(ring, k, a))
  {
    var r := Replaced(ring, k, a);
    forall i: nat, j: nat | i < j < |r| ensures Less(r, i, j) {
      assert Less(ring, i, j);
      if j == k && i < k - 1 { assert Less(ring, i, k - 1); }
    }
  }

  /** Where free links a block in: after the t-th of the ring. */
  ghost predicate Fits(base: nat, heap: Heap, ring: seq<nat>, blocks: Blocks, t: nat, bp: nat)
  {
    Ok(base, heap, ring, blocks) && t < |ring| && bp in blocks && ring[t] < bp && (t + 1 < |ring| ==> bp < ring[t + 1])
  }

  /** The freed block points at the successor of p. */
  lemma HookFree(base: nat, heap: Heap, ring: seq<nat>, blocks: Blocks, t: nat, bp: nat)
    requires Fits(base, heap, ring, blocks, t, bp) && (t + 1 < |ring| ==> EndOf(bp, blocks[bp]) != ring[t + 1])
    ensures Hooked(base, heap[bp := heap[bp].(ptr := Next(ring, t))], Inserted(ring, t + 1, bp), blocks, t + 1)
  {
    var ring', heap' := Inserted(ring, t + 1, bp), heap[bp := heap[bp].(ptr := Next(ring, t))];
    InsertedAt(ring, t + 1, bp);
    assert Shape(base, heap', ring', blocks) by { hide Inserted, Disjoint, Sorted, Linked, Apart; }
    hide Inserted, Disjoint, Shape, Sorted, LinkAt, ApartAt;
    forall i: nat | i < |ring'| && i != t ensures LinkAt(heap', ring', i) {
      HookFreeLink(base, heap, ring, blocks, t, bp, i);
    }
    forall i: nat | 0 < i < |ring'| - 1 && i != t ensures ApartAt(ring', blocks, i) {
      HookFreeApart(base, heap, ring, blocks, t, bp, i);
    }
  }

  lemma HookFreeLink(base: nat, heap: Heap, ring: seq<nat>, blocks: Blocks, t: nat, bp: nat, i: nat)
    requires Fits(base, heap, ring, blocks, t, bp) && i < |ring| + 1 && i != t
    ensures i < |Inserted(ring, t + 1, bp)| && LinkAt(heap[bp := heap[bp].(ptr := Next(ring, t))],
      Inserted(ring, t + 1, bp), i)
  {
    InsertedAt(ring, t + 1, bp);
    Differ(Inserted(ring, t + 1, bp), i, t + 1);
    hide Inserted, Disjoint, Sorted, Apart;
    if i < t { assert LinkAt(heap, ring, i); } else if i > t + 1 { assert LinkAt(heap, ring, i - 1); }
  }

  lemma HookFreeApart(base: nat, heap: Heap, ring: seq<nat>, blocks: Blocks, t: nat, bp: nat, i: nat)
    requires Fits(base, heap, ring, blocks, t, bp) && 0 < i < |ring| && i != t
    requires t + 1 < |ring| ==> EndOf(bp, blocks[bp]) != ring[t + 1]
    ensures i + 1 < |Inserted(ring, t + 1, bp)| && ApartAt(Inserted(ring, t + 1, bp), blocks, i)
  {
    InsertedAt(ring, t + 1, bp);
    hide Inserted, Disjoint, Sorted, Shape, Linked;
    if i < t { assert ApartAt(ring, blocks, i); } else if i > t + 1 { assert ApartAt(ring, blocks, i - 1); }
  }

  /** The blocks and their sizes after a merge of a with the block b above it. */
  ghost predicate IsMerged(blocks: Blocks, blocks': Blocks, a: nat, b: nat)
    requires a in blocks && b in blocks
  {
    && (forall x :: x in blocks' <==> x in blocks && x != b)
    && (forall x :: x in blocks' ==> blocks'[x] == if x == a then blocks[a] + blocks[b] else blocks[x])
  }

  lemma MergedShape(base: nat, heap: Heap, ring: seq<nat>, blocks: Blocks, heap': Heap, ring': seq<nat>,
      blocks': Blocks, a: nat, b: nat)
    requires Shape(base, heap, ring, blocks) && a in blocks && b in blocks && a != b && IsMerged(blocks, blocks', a, b)
    requires a in heap' && heap'[a].size == heap[a].size + heap[b].size
      && forall x :: x in heap && x != a ==> x in heap' && heap'[x] == heap[x]
    requires |ring'| > 0 && ring'[0] == base && Sorted(ring')
      && forall i: nat :: 0 < i < |ring'| ==> ring'[i] in blocks && ring'[i] != b
    ensures Shape(base, heap', ring', blocks')
  {
    hide Sorted;
  }

  /** The freed block swallows the successor of p, which it touches, and points past it. */
  lemma HookMerged(base: nat, heap: Heap, ring: seq<nat>, blocks: Blocks, t: nat, bp: nat)
    requires Fits(base, heap, ring, blocks, t, bp) && t + 1 < |ring| && EndOf(bp, blocks[bp]) == ring[t + 1]
    ensures var up := ring[t + 1];
      Hooked(base, heap[bp := Header(heap[up].ptr, heap[bp].size + heap[up].size)], Replaced(ring, t + 1, bp),
        Merged(blocks, bp, up), t + 1)
  {
    hide Merged, Disjoint, LinkAt, ApartAt, Sorted, Shape, Replaced;
    Neighbours(base, heap, ring, blocks, t, bp);
    var up := ring[t + 1];
    var ring', heap', blocks' := Replaced(ring, t + 1, bp),
      heap[bp := Header(heap[up].ptr, heap[bp].size + heap[up].size)], Merged(blocks, bp, up);
    MergedOk(blocks, bp, up);
    HookMergedShape(base, heap, ring, blocks, t, bp);
    forall i: nat | i < |ring'| && i != t ensures LinkAt(heap', ring', i) {
      HookMergedLink(base, heap, ring, blocks, t, bp, i);
    }
    forall i: nat | 0 < i < |ring'| - 1 && i != t ensures ApartAt(ring', blocks', i) {
      HookMergedApart(base, heap, ring, blocks, t, bp, i);
    }
  }

  lemma Neighbours(base: nat, heap: Heap, ring: seq<nat>, blocks: Blocks, t: nat, bp: nat)
    requires Fits(base, heap, ring, blocks, t, bp) && t + 1 < |ring|
    ensures ring[t + 1] in blocks && ring[t + 1] in heap && bp in heap && Disjoint(blocks)
  {}

  lemma HookMergedShape(base: nat, heap: Heap, ring: seq<nat>, blocks: Blocks, t: nat, bp: nat)
    requires Fits(base, heap, ring, blocks, t, bp) && t + 1 < |ring|
    ensures var up := ring[t + 1];
      Shape(base, heap[bp := Header(heap[up].ptr, heap[bp].size + heap[up].size)], Replaced(ring, t + 1, bp),
        Merged(blocks, bp, up))
  {
    var up := ring[t + 1];
    hide Disjoint, Linked, Apart;
    MergedAt(blocks, bp, up);
    assert IsMerged(blocks, Merged(blocks, bp, up), bp, up);
    ReplacedAt(ring, t + 1, bp);
    var ring' := Replaced(ring, t + 1, bp);
    forall i: nat | 0 < i < |ring'| ensures ring'[i] in blocks && ring'[i] != up { Differ(ring, i, t + 1); }
    hide Merged, IsMerged, Sorted;
    MergedShape(base, heap, ring, blocks, heap[bp := Header(heap[up].ptr, heap[bp].size + heap[up].size)], ring',
      Merged(blocks, bp, up), bp, up);
  }

  lemma HookMergedLink(base: nat, heap: Heap, ring: seq<nat>, blocks: Blocks, t: nat, bp: nat, i: nat)
    requires Fits(base, heap, ring, blocks, t, bp) && t + 1 < |ring| && i < |ring| && i != t
    ensures ring[t + 1] in heap && bp in heap
    ensures var up := ring[t + 1];
      LinkAt(heap[bp := Header(heap[up].ptr, heap[bp].size + heap[up].size)], Replaced(ring, t + 1, bp), i)
  {
    ReplacedAt(ring, t + 1, bp);
    Differ(Replaced(ring, t + 1, bp), i, t + 1);
    hide Disjoint, Sorted, Apart;
    assert LinkAt(heap, ring, i);
  }

  lemma HookMergedApart(base: nat, heap: Heap, ring: seq<nat>, blocks: Blocks, t: nat, bp: nat, i: nat)
    requires Fits(base, heap, ring, blocks, t, bp) && t + 1 < |ring| && EndOf(bp, blocks[bp]) == ring[t + 1]
      && 0 < i < |ring| - 1 && i != t
    ensures ApartAt(Replaced(ring, t + 1, bp), Merged(blocks, bp, ring[t + 1]), i)
  {
    ReplacedAt(ring, t + 1, bp);
    Differ(Replaced(ring, t + 1, bp), i, t + 1);
    MergedAt(blocks, bp, ring[t + 1]);
    hide Merged, Disjoint, Sorted, Linked;
    assert ApartAt(ring, blocks, i);
  }

  /** p points at the freed block. */
  lemma LinkFree(base: nat, heap: Heap, ring: seq<nat>, blocks: Blocks, k: nat)
    requires Hooked(base, heap, ring, blocks, k) && (k > 1 ==> EndOf(ring[k - 1], blocks[ring[k - 1]]) != ring[k])
    ensures ring[k - 1] in heap && Ok(base, heap[ring[k - 1] := heap[ring[k - 1]].(ptr := ring[k])], ring, blocks)
  {
    var heap' := heap[ring[k - 1] := heap[ring[k - 1]].(ptr := ring[k])];
    hide Disjoint;
    forall i: nat | i < |ring| ensures LinkAt(heap', ring, i) {
      Differ(ring, i, k - 1);
      if i + 1 != k { assert LinkAt(heap, ring, i); }
    }
    forall i: nat | 0 < i < |ring| - 1 ensures ApartAt(ring, blocks, i) {}
  }

  /** p swallows the freed block, which it touches, and points where that pointed. */
  lemma LinkMerged(base: nat, heap: Heap, ring: seq<nat>, blocks: Blocks, k: nat)
    requires Hooked(base, heap, ring, blocks, k) && k > 1 && EndOf(ring[k - 1], blocks[ring[k - 1]]) == ring[k]
    ensures ring[k - 1] in heap && ring[k] in heap
    ensures var p, bp := ring[k - 1], ring[k];
      Ok(base, heap[p := Header(heap[bp].ptr, heap[p].size + heap[bp].size)], Removed(ring, k), Merged(blocks, p, bp))
  {
    var p, bp := ring[k - 1], ring[k];
    var ring', heap', blocks' := Removed(ring, k), heap[p := Header(heap[bp].ptr, heap[p].size + heap[bp].size)],
      Merged(blocks, p, bp);
    Differ(ring, k - 1, k);
    MergedOk(blocks, p, bp);
    LinkMergedShape(base, heap, ring, blocks, k);
    assert |ring'| == |ring| - 1;
    hide Removed, Merged, Disjoint, LinkAt, ApartAt, Sorted, Shape;
    forall i: nat | i < |ring'| ensures LinkAt(heap', ring', i) { LinkMergedLink(base, heap, ring, blocks, k, i); }
    forall i: nat | 0 < i < |ring'| - 1 ensures ApartAt(ring', blocks', i) {
      LinkMergedApart(base, heap, ring, blocks, k, i);
    }
  }

  lemma LinkMergedShape(base: nat, heap: Heap, ring: seq<nat>, blocks: Blocks, k: nat)
    requires Hooked(base, heap, ring, blocks, k) && k > 1
    ensures ring[k - 1] in heap && ring[k] in heap
    ensures var p, bp := ring[k - 1], ring[k];
      Shape(base, heap[p := Header(heap[bp].ptr, heap[p].size + heap[bp].size)], Removed(ring, k),
        Merged(blocks, p, bp))
  {
    var p, bp := ring[k - 1], ring[k];
    var ring' := Removed(ring, k);
    Differ(ring, k - 1, k);
    MergedAt(blocks, p, bp);
    assert IsMerged(blocks, Merged(blocks, p, bp), p, bp);
    RemovedAt(ring, k);
    hide Removed, Merged, Disjoint, IsMerged, LinkAt, ApartAt;
    forall i: nat | 0 < i < |ring'| ensures ring'[i] in blocks && ring'[i] != bp {
      Differ(ring, if i < k then i else i + 1, k);
    }
    hide Sorted;
    MergedShape(base, heap, ring, blocks, heap[p := Header(heap[bp].ptr, heap[p].size + heap[bp].size)], ring',
      Merged(blocks, p, bp), p, bp);
  }

  lemma LinkMergedLink(base: nat, heap: Heap, ring: seq<nat>, blocks: Blocks, k: nat, i: nat)
    requires Hooked(base, heap, ring, blocks, k) && k > 1 && i < |ring| - 1
    ensures ring[k - 1] in heap && ring[k] in heap && i < |Removed(ring, k)|
    ensures var p, bp := ring[k - 1], ring[k];
      LinkAt(heap[p := Header(heap[bp].ptr, heap[p].size + heap[bp].size)], Removed(ring, k), i)
  {
    RemovedAt(ring, k);
    Differ(Removed(ring, k), i, k - 1);
    hide Removed, Disjoint, Sorted, ApartAt;
    assert LinkAt(heap, ring, if i < k - 1 then i else i + 1);
  }

  lemma LinkMergedApart(base: nat, heap: Heap, ring: seq<nat>, blocks: Blocks, k: nat, i: nat)
    requires Hooked(base, heap, ring, blocks, k) && k > 1 && EndOf(ring[k - 1], blocks[ring[k - 1]]) == ring[k]
      && 0 < i < |ring| - 2
    ensures |Removed(ring, k)| == |ring| - 1 && ApartAt(Removed(ring, k), Merged(blocks, ring[k - 1], ring[k]), i)
  {
    RemovedAt(ring, k);
    Differ(Removed(ring, k), i, k - 1);
    Differ(ring, k - 1, k);
    MergedAt(blocks, ring[k - 1], ring[k]);
    hide Merged, Removed, Disjoint, Sorted, LinkAt;
    assert ApartAt(ring, blocks, if i < k - 1 then i else i + 1);
  }

  /** Taking the k-th block out of the ring. */
  lemma Unlinked(base: nat, heap: Heap, ring: seq<nat>, blocks: Blocks, k: nat)
    requires Ok(base, heap, ring, blocks) && 0 < k < |ring|
    ensures ring[k - 1] in heap && ring[k] in heap
    ensures Ok(base, heap[ring[k - 1] := heap[ring[k - 1]].(ptr := heap[ring[k]].ptr)], Removed(ring, k), blocks)
  {
    hide Shape, Sorted, Disjoint, Removed, ApartAt, LinkAt;
    UnlinkedShape(base, heap, ring, blocks, k);
    var ring', heap' := Removed(ring, k), heap[ring[k - 1] := heap[ring[k - 1]].(ptr := heap[ring[k]].ptr)];
    forall i: nat | i < |ring'| ensures LinkAt(heap', ring', i) { UnlinkedLink(base, heap, ring, blocks, k, i); }
    forall i: nat | 0 < i < |ring'| - 1 ensures ApartAt(ring', blocks, i) {
      UnlinkedApart(base, heap, ring, blocks, k, i);
    }
  }

  lemma UnlinkedShape(base: nat, heap: Heap, ring: seq<nat>, blocks: Blocks, k: nat)
    requires Ok(base, heap, ring, blocks) && 0 < k < |ring|
    ensures ring[k - 1] in heap && ring[k] in heap && |Removed(ring, k)| == |ring| - 1
    ensures Shape(base, heap[ring[k - 1] := heap[ring[k - 1]].(ptr := heap[ring[k]].ptr)], Removed(ring, k), blocks)
  {
    hide Disjoint, Apart, Sorted;
    assert LinkAt(heap, ring, k - 1) && LinkAt(heap, ring, k);
    RemovedAt(ring, k);
    var ring', heap' := Removed(ring, k), heap[ring[k - 1] := heap[ring[k - 1]].(ptr := heap[ring[k]].ptr)];
    assert ring'[0] == base && heap'[base].size == 0;
    assert forall i: nat :: 0 < i < |ring'| ==> ring'[i] in blocks;
  }

  lemma UnlinkedLink(base: nat, heap: Heap, ring: seq<nat>, blocks: Blocks, k: nat, i: nat)
    requires Ok(base, heap, ring, blocks) && 0 < k < |ring| && i < |ring| - 1
    ensures ring[k - 1] in heap && ring[k] in heap && |Removed(ring, k)| == |ring| - 1
    ensures LinkAt(heap[ring[k - 1] := heap[ring[k - 1]].(ptr := heap[ring[k]].ptr)], Removed(ring, k), i)
  {
    hide Disjoint, Apart, Sorted;
    RemovedAt(ring, k);
    assert LinkAt(heap, ring, k - 1) && LinkAt(heap, ring, k) && LinkAt(heap, ring, if i < k then i else i + 1);
    var ring', heap' := Removed(ring, k), heap[ring[k - 1] := heap[ring[k - 1]].(ptr := heap[ring[k]].ptr)];
    Differ(ring', i, k - 1);
    assert ring'[k - 1] == ring[k - 1];
    assert ring'[i] in heap' && heap'[ring'[i]].ptr == Next(ring', i);
  }

  lemma UnlinkedApart(base: nat, heap: Heap, ring: seq<nat>, blocks: Blocks, k: nat, i: nat)
    requires Ok(base, heap, ring, blocks) && 0 < k < |ring| && 0 < i < |ring| - 2
    ensures |Removed(ring, k)| == |ring| - 1 && ApartAt(Removed(ring, k), blocks, i)
  {
    RemovedAt(ring, k);
    hide Removed, Disjoint, Linked;
    if i == k - 1 {
      assert Less(ring, k - 1, k) && Less(ring, k, k + 1);
      Below(blocks, ring[i], ring[k]);
    } else {
      assert ApartAt(ring, blocks, if i < k - 1 then i else i + 1);
    }
  }

  lemma InRing(base: nat, heap: Heap, ring: seq<nat>, blocks: Blocks, k: nat)
    requires Ok(base, heap, ring, blocks) && 0 < k < |ring|
    ensures ring[k] in blocks && ring[k] in heap && heap[ring[k]].size == blocks[ring[k]] && Disjoint(blocks)
  {}

  lemma CarvedShape(base: nat, heap: Heap, ring: seq<nat>, blocks: Blocks, k: nat, n: nat, junk: nat)
    requires Ok(base, heap, ring, blocks) && 0 < k < |ring| && 0 < n < blocks[ring[k]]
    ensures var p := ring[k];
      var m := EndOf(p, blocks[p] - n);
      p in heap && m !in ring && m !in blocks && Shape(base,
        heap[p := heap[p].(size := blocks[p] - n)][m := Header(junk, n)], ring, Split(blocks, p, n))
  {
    var p := ring[k];
    var m := EndOf(p, blocks[p] - n);
    SplitAt(blocks, p, n);
    hide Split, Disjoint, Sorted, Linked, Apart;
    forall i: nat | i < |ring| ensures ring[i] != m {}
  }

  /** Cutting n units off the end of the k-th block. */
  lemma Carved(base: nat, heap: Heap, ring: seq<nat>, blocks: Blocks, k: nat, n: nat, junk: nat)
    requires Ok(base, heap, ring, blocks) && 0 < k < |ring| && 0 < n < blocks[ring[k]]
    ensures var p := ring[k];
      var m := EndOf(p, blocks[p] - n);
      && p in heap && m !in ring && m !in blocks
      && Ok(base, heap[p := heap[p].(size := blocks[p] - n)][m := Header(junk, n)], ring, Split(blocks, p, n))
  {
    hide Split, Disjoint, Sorted, Shape, LinkAt, ApartAt;
    InRing(base, heap, ring, blocks, k);
    var p := ring[k];
    var m := EndOf(p, blocks[p] - n);
    SplitOk(blocks, p, n);
    CarvedShape(base, heap, ring, blocks, k, n, junk);
    var heap', blocks' := heap[p := heap[p].(size := blocks[p] - n)][m := Header(junk, n)], Split(blocks, p, n);
    forall i: nat | i < |ring| ensures LinkAt(heap', ring, i) {
      CarvedLink(heap, ring, k, blocks[p] - n, m, Header(junk, n), i);
    }
    forall i: nat | 0 < i < |ring| - 1 ensures ApartAt(ring, blocks', i) {
      CarvedApart(base, heap, ring, blocks, k, n, i);
    }
  }

  lemma CarvedLink(heap: Heap, ring: seq<nat>, k: nat, n: nat, m: nat, h: Header, i: nat)
    requires k < |ring| && i < |ring| && ring[k] in heap && m !in ring && LinkAt(heap, ring, i)
    ensures LinkAt(heap[ring[k] := heap[ring[k]].(size := n)][m := h], ring, i)
  {}

  lemma CarvedApart(base: nat, heap: Heap, ring: seq<nat>, blocks: Blocks, k: nat, n: nat, i: nat)
    requires Ok(base, heap, ring, blocks) && 0 < k < |ring| && 0 < n < blocks[ring[k]] && 0 < i < |ring| - 1
    ensures ApartAt(ring, Split(blocks, ring[k], n), i)
  {
    SplitAt(blocks, ring[k], n);
    hide Split, Disjoint;
    assert ApartAt(ring, blocks, i);
    Differ(ring, i, k);
    if i == k {
      assert Less(ring, k, k + 1);
      Below(blocks, ring[k], ring[k + 1]);
    }
  }

  lemma Below(blocks: Blocks, a: nat, b: nat)
    requires Disjoint(blocks) && a in blocks && b in blocks && a < b
    ensures EndOf(a, blocks[a]) <= b
  {}

  // ----------------------------------------------------------------- blocks handed out

  lemma InsertedIn(ring: seq<nat>, k: nat, a: nat)
    requires k <= |ring|
    ensures forall x :: x in Inserted(ring, k, a) <==> x in ring || x == a
  {
    assert ring == ring[..k] + ring[k..];
  }

  lemma RemovedIn(ring: seq<nat>, k: nat)
    requires Sorted(ring) && k < |ring|
    ensures forall x :: x in Removed(ring, k) <==> x in ring && x != ring[k]
  {
    RemovedAt(ring, k);
    var r := Removed(ring, k);
    hide Removed, Sorted;
    forall x | x in r ensures x in ring && x != ring[k] {
      var i :| 0 <= i < |r| && r[i] == x;
      Differ(ring, if i < k then i else i + 1, k);
    }
    forall x | x in ring && x != ring[k] ensures x in r {
      var i :| 0 <= i < |ring| && ring[i] == x;
      assert r[if i < k then i else i - 1] == x;
    }
  }

  lemma ReplacedIn(ring: seq<nat>, k: nat, a: nat)
    requires Sorted(ring) && k < |ring|
    ensures forall x :: x in Replaced(ring, k, a) <==> (x in ring && x != ring[k]) || x == a
  {
    var r := Replaced(ring, k, a);
    forall x | x in r ensures (x in ring && x != ring[k]) || x == a {
      var i :| 0 <= i < |r| && r[i] == x;
      Differ(ring, i, k);
    }
    hide Sorted;
    assert r[k] == a;
    forall x | x in ring && x != ring[k] ensures x in r {
      var i :| 0 <= i < |ring| && ring[i] == x;
      assert r[i] == x;
    }
  }

  lemma LiveHooked(ring: seq<nat>, blocks: Blocks, t: nat, bp: nat)
    requires t < |ring|
    ensures Live(Inserted(ring, t + 1, bp), blocks) == Live(ring, blocks) - {bp}
  {
    InsertedIn(ring, t + 1, bp);
    hide Inserted;
  }

  lemma LiveMerged(ring: seq<nat>, blocks: Blocks, t: nat, bp: nat)
    requires Sorted(ring) && t + 1 < |ring| && bp in blocks && ring[t + 1] in blocks && bp != ring[t + 1]
    ensures Live(Replaced(ring, t + 1, bp), Merged(blocks, bp, ring[t + 1])) == Live(ring, blocks) - {bp}
  {
    ReplacedIn(ring, t + 1, bp);
    MergedAt(blocks, bp, ring[t + 1]);
    hide Merged, Replaced, Sorted;
  }

  lemma LiveLinked(ring: seq<nat>, blocks: Blocks, k: nat)
    requires Sorted(ring) && 0 < k < |ring| && ring[k - 1] in blocks && ring[k] in blocks
    ensures Live(Removed(ring, k), Merged(blocks, ring[k - 1], ring[k])) == Live(ring, blocks)
  {
    RemovedIn(ring, k);
    Differ(ring, k - 1, k);
    MergedAt(blocks, ring[k - 1], ring[k]);
    hide Merged, Removed, Sorted;
  }

  lemma LiveTaken(ring: seq<nat>, blocks: Blocks, k: nat)
    requires Sorted(ring) && k < |ring| && ring[k] in blocks
    ensures Live(Removed(ring, k), blocks) == Live(ring, blocks)[ring[k] := blocks[ring[k]]]
  {
    RemovedIn(ring, k);
    hide Removed, Sorted;
  }

  lemma LiveCarved(ring: seq<nat>, blocks: Blocks, a: nat, n: nat)
    requires Disjoint(blocks) && a in blocks && a in ring && 0 < n < blocks[a] && EndOf(a, blocks[a] - n) !in ring
    ensures Live(ring, Split(blocks, a, n)) == Live(ring, blocks)[EndOf(a, blocks[a] - n) := n]
  {
    SplitAt(blocks, a, n);
    hide Split, Disjoint;
  }

  // ------------------------------------------------------------------- searching the ring

  /** The loop of free stops at t and nowhere else. */
  lemma Where(base: nat, heap: Heap, ring: seq<nat>, blocks: Blocks, t: nat, bp: nat, i: nat)
    requires Fits(base, heap, ring, blocks, t, bp) && i < |ring| && bp !in ring
    ensures ring[i] in heap
    ensures var p, q := ring[i], heap[ring[i]].ptr;
      i == t <==> (bp > p && bp < q) || (p >= q && (bp > p || bp < q))
  {
    assert LinkAt(heap, ring, i);
    if i + 1 < |ring| { assert Less(ring, i, i + 1); }
    if i > 0 { assert Less(ring, 0, i); }
    if i < t { assert i + 1 < t ==> Less(ring, i + 1, t); } else if t < i { assert t + 1 < i ==> Less(ring, t + 1, i); }
    hide Sorted, Disjoint, Apart, Linked;
  }

  /** What free finds behind p. */
  lemma Above(base: nat, heap: Heap, ring: seq<nat>, blocks: Blocks, t: nat, bp: nat)
    requires Fits(base, heap, ring, blocks, t, bp)
    ensures t < |ring| && bp in blocks
    ensures ring[t] in heap && bp in heap && heap[bp].size == blocks[bp] && heap[ring[t]].ptr == Next(ring, t)
    ensures EndOf(bp, heap[bp].size) == heap[ring[t]].ptr ==> t + 1 < |ring|
    ensures t + 1 < |ring| ==> ring[t + 1] in blocks && ring[t + 1] in heap
    ensures Sorted(ring) && Disjoint(blocks)
  {
    assert LinkAt(heap, ring, t);
  }

  /** Some free block has n units. */
  ghost predicate HasRoom(ring: seq<nat>, blocks: Blocks, n: nat)
  {
    exists i: nat :: 0 < i < |ring| && Big(ring, blocks, i, n)
  }

  ghost predicate Big(ring: seq<nat>, blocks: Blocks, i: nat, n: nat)
    requires i < |ring|
  {
    ring[i] in blocks && blocks[ring[i]] >= n
  }

  /** All of n units from bp on lie in one free block. */
  ghost predicate Absorbed(ring: seq<nat>, blocks: Blocks, bp: nat, n: nat)
  {
    exists i: nat :: 0 < i < |ring| && Spans(ring, blocks, i, bp, n)
  }

  ghost predicate Spans(ring: seq<nat>, blocks: Blocks, i: nat, bp: nat, n: nat)
    requires i < |ring|
  {
    ring[i] in blocks && ring[i] <= bp && EndOf(bp, n) <= EndOf(ring[i], blocks[ring[i]])
  }

  lemma AbsorbedRoom(ring: seq<nat>, blocks: Blocks, bp: nat, n: nat)
    requires Absorbed(ring, blocks, bp, n)
    ensures HasRoom(ring, blocks, n)
  {
    var i: nat :| 0 < i < |ring| && Spans(ring, blocks, i, bp, n);
    assert Big(ring, blocks, i, n);
  }

  lemma {:induction false} Slot(ring: seq<nat>, bp: nat, n: nat) returns (t: nat)
    requires 0 < n <= |ring| && ring[0] < bp
    requires forall i: nat :: i < |ring| ==> ring[i] != bp
    requires n < |ring| ==> bp < ring[n]
    ensures t < |ring| && ring[t] < bp && (t + 1 < |ring| ==> bp < ring[t + 1])
    decreases n
  {
    if ring[n - 1] < bp { t := n - 1; } else { t := Slot(ring, bp, n - 1); }
  }

  function After(n: nat, i: nat): (k: nat)
    requires i < n
  {
    if i + 1 < n then i + 1 else 0
  }

  /** Steps from i round to t. */
  function Ahead(n: nat, t: nat, i: nat): (d: nat)
    requires t < n && i < n
  {
    if i <= t then t - i else n - i + t
  }

  /** j lies behind the walk that left f and has come to i. */
  predicate Behind(f: nat, i: nat, j: nat) { if f <= i then f < j <= i else j > f || j <= i }

  // --------------------------------------------------------------------------- sbrk

  /** What sbrk answers: the old end of memory, or -1. */
  datatype Break = Refused | At(addr: nat)

  function Units(nbytes: nat): (n: nat) { (nbytes + 15) / 16 + 1 }

  function Asked(nunits: nat): (nu: nat) { if nunits < MIN_UNITS then MIN_UNITS else nunits }

  /** The byte count as the int that sbrk takes. */
  function SbrkArg(nu: nat): (n: int)
  {
    var n := 16 * nu % U32;
    if n < 0x8000_0000 then n else n - U32
  }

  /** The end of memory after sbrk(n) at addr; a shrink below zero leaves it. */
  function BreakAfter(addr: nat, n: int): (r: nat) { if addr + n >= 0 then addr + n else addr }

  /** The process gets the memory morecore counts on exactly when the count fits an int. */
  lemma SbrkArgExact(addr: nat, nu: nat)
    requires 0 < nu <= 0x1000_0001
    ensures BreakAfter(addr, SbrkArg(nu)) <= EndOf(addr, nu)
    ensures BreakAfter(addr, SbrkArg(nu)) == EndOf(addr, nu) <==> nu < 0x800_0000
  {}

  /** A block holds its header and the bytes asked for, with less than a unit to spare. */
  lemma UnitsEnough(nbytes: nat)
    ensures nbytes + 16 <= 16 * Units(nbytes) < nbytes + 32
  {}

  ghost predicate Backed(blocks: Blocks, brk: nat) { forall x: nat :: Covered(blocks, x) ==> x < brk }

  lemma EndsBelow(blocks: Blocks, brk: nat, a: nat)
    requires Backed(blocks, brk) && a in blocks && blocks[a] > 0
    ensures EndOf(a, blocks[a]) <= brk
  {
    assert Within(blocks, a, EndOf(a, blocks[a]) - 1);
    assert Covered(blocks, EndOf(a, blocks[a]) - 1);
  }

  ghost predicate Gained(blocks: Blocks, blocks': Blocks, a: nat, n: nat)
  {
    forall x: nat :: Covered(blocks', x) <==> Covered(blocks, x) || a <= x < EndOf(a, n)
  }

  /** A block from sbrk lies above all others. */
  lemma NewBlock(base: nat, heap: Heap, ring: seq<nat>, blocks: Blocks, brk: nat, a: nat, n: nat, junk: nat)
    requires Ok(base, heap, ring, blocks) && Backed(blocks, brk) && base + 16 <= brk <= a && n > 0
    ensures a !in blocks && a !in ring
    ensures Ok(base, heap[a := Header(junk, n)], ring, blocks[a := n])
    ensures Gained(blocks, blocks[a := n], a, n)
    ensures Live(ring, blocks[a := n]) == Live(ring, blocks)[a := n]
  {
    hide Shape, Disjoint, Backed, Covered, LinkAt, ApartAt;
    var heap', blocks' := heap[a := Header(junk, n)], blocks[a := n];
    NewShape(base, heap, ring, blocks, brk, a, n, junk);
    forall i: nat | i < |ring| ensures LinkAt(heap', ring, i) { NewLink(heap, ring, a, Header(junk, n), i); }
    forall i: nat | 0 < i < |ring| - 1 ensures ApartAt(ring, blocks', i) { NewApart(ring, blocks, a, n, i); }
    forall x: nat ensures Covered(blocks', x) <==> Covered(blocks, x) || a <= x < EndOf(a, n) {
      NewBytes(blocks, a, n, x);
    }
  }

  lemma NewShape(base: nat, heap: Heap, ring: seq<nat>, blocks: Blocks, brk: nat, a: nat, n: nat, junk: nat)
    requires Ok(base, heap, ring, blocks) && Backed(blocks, brk) && base + 16 <= brk <= a && n > 0
    ensures a !in blocks && a !in ring
    ensures Shape(base, heap[a := Header(junk, n)], ring, blocks[a := n]) && Disjoint(blocks[a := n])
  {
    hide Linked, Apart, Sorted, Backed;
    forall x | x in blocks ensures x < EndOf(x, blocks[x]) <= brk { EndsBelow(blocks, brk, x); }
    forall i: nat | i < |ring| ensures ring[i] != a {}
  }

  lemma NewLink(heap: Heap, ring: seq<nat>, a: nat, h: Header, i: nat)
    requires Linked(heap, ring) && i < |ring| && a !in ring
    ensures LinkAt(heap[a := h], ring, i)
  {
    assert LinkAt(heap, ring, i);
  }

  lemma NewApart(ring: seq<nat>, blocks: Blocks, a: nat, n: nat, i: nat)
    requires Apart(ring, blocks) && 0 < i < |ring| - 1 && a !in ring
    ensures ApartAt(ring, blocks[a := n], i)
  {
    assert ApartAt(ring, blocks, i);
  }

  lemma NewBytes(blocks: Blocks, a: nat, n: nat, x: nat)
    requires a !in blocks
    ensures Covered(blocks[a := n], x) <==> Covered(blocks, x) || a <= x < EndOf(a, n)
  {
    var r := blocks[a := n];
    if Covered(r, x) {
      var c :| c in r && Within(r, c, x);
      if c != a { assert Within(blocks, c, x); }
    }
    if Covered(blocks, x) {
      var c :| c in blocks && Within(blocks, c, x);
      assert Within(r, c, x);
    }
    if a <= x < EndOf(a, n) { assert Within(r, a, x); }
  }

  ghost predicate IsHooked(base: nat, heap': Heap, ring': seq<nat>, blocks': Blocks, t: nat, p: nat, bp: nat,
      ring: seq<nat>, blocks: Blocks)
    requires bp in blocks
  {
    && Hooked(base, heap', ring', blocks', t + 1) && ring'[t] == p && ring'[t + 1] == bp && blocks'[bp] >= blocks[bp]
    && Live(ring', blocks') == Live(ring, blocks) - {bp} && SameBytes(blocks, blocks')
  }

  lemma HookJoins(base: nat, heap: Heap, ring: seq<nat>, blocks: Blocks, t: nat, bp: nat)
    requires Fits(base, heap, ring, blocks, t, bp) && t + 1 < |ring| && EndOf(bp, blocks[bp]) == ring[t + 1]
    ensures ring[t + 1] in blocks && ring[t + 1] in heap && bp in heap
    ensures var up := ring[t + 1];
      IsHooked(base, heap[bp := Header(heap[up].ptr, heap[bp].size + heap[up].size)], Replaced(ring, t + 1, bp),
        Merged(blocks, bp, up), t, ring[t], bp, ring, blocks)
  {
    Above(base, heap, ring, blocks, t, bp);
    hide Ok, Hooked, Live, SameBytes, Sorted, Disjoint;
    HookMerged(base, heap, ring, blocks, t, bp);
    MergedOk(blocks, bp, ring[t + 1]);
    LiveMerged(ring, blocks, t, bp);
  }

  lemma HookPoints(base: nat, heap: Heap, ring: seq<nat>, blocks: Blocks, t: nat, bp: nat)
    requires Fits(base, heap, ring, blocks, t, bp) && (t + 1 < |ring| ==> EndOf(bp, blocks[bp]) != ring[t + 1])
    ensures bp in heap && IsHooked(base, heap[bp := heap[bp].(ptr := Next(ring, t))], Inserted(ring, t + 1, bp),
      blocks, t, ring[t], bp, ring, blocks)
  {
    Above(base, heap, ring, blocks, t, bp);
    hide Ok, Hooked, Live, Covered, Sorted, Disjoint;
    HookFree(base, heap, ring, blocks, t, bp);
    LiveHooked(ring, blocks, t, bp);
    InsertedAt(ring, t + 1, bp);
    hide Inserted;
  }

  /** What free finds at p. */
  lemma Beneath(base: nat, heap: Heap, ring: seq<nat>, blocks: Blocks, k: nat)
    requires Hooked(base, heap, ring, blocks, k)
    ensures 0 < k < |ring| && ring[k - 1] in heap && ring[k] in heap && Sorted(ring) && Disjoint(blocks)
      && ring[k] in blocks && ring[k - 1] < ring[k]
    ensures EndOf(ring[k - 1], heap[ring[k - 1]].size) == ring[k] ==> k > 1
    ensures k > 1 ==> ring[k - 1] in blocks && heap[ring[k - 1]].size == blocks[ring[k - 1]]
  {
    assert Less(ring, k - 1, k);
  }

  lemma LinkJoins(base: nat, heap: Heap, ring: seq<nat>, blocks: Blocks, k: nat, n: nat)
    requires Hooked(base, heap, ring, blocks, k) && k > 1 && EndOf(ring[k - 1], blocks[ring[k - 1]]) == ring[k]
      && blocks[ring[k]] >= n
    ensures ring[k - 1] in heap && ring[k] in heap
    ensures var p, bp := ring[k - 1], ring[k];
      var ring', blocks' := Removed(ring, k), Merged(blocks, p, bp);
      && Ok(base, heap[p := Header(heap[bp].ptr, heap[p].size + heap[bp].size)], ring', blocks')
      && p in ring' && Absorbed(ring', blocks', bp, n) && Live(ring', blocks') == Live(ring, blocks)
      && SameBytes(blocks, blocks')
  {
    var p, bp := ring[k - 1], ring[k];
    Beneath(base, heap, ring, blocks, k);
    LinkMerged(base, heap, ring, blocks, k);
    hide Ok, Hooked, Live, SameBytes, Disjoint;
    MergedOk(blocks, p, bp);
    LiveLinked(ring, blocks, k);
    RemovedAt(ring, k);
    MergedAt(blocks, p, bp);
    hide Sorted, Removed, Merged;
    assert Removed(ring, k)[k - 1] == p;
    assert Spans(Removed(ring, k), Merged(blocks, p, bp), k - 1, bp, n);
  }

  lemma LinkPoints(base: nat, heap: Heap, ring: seq<nat>, blocks: Blocks, k: nat, n: nat)
    requires Hooked(base, heap, ring, blocks, k) && (k > 1 ==> EndOf(ring[k - 1], blocks[ring[k - 1]]) != ring[k])
      && blocks[ring[k]] >= n
    ensures ring[k - 1] in heap && Ok(base, heap[ring[k - 1] := heap[ring[k - 1]].(ptr := ring[k])], ring, blocks)
    ensures ring[k - 1] in ring && Absorbed(ring, blocks, ring[k], n) && SameBytes(blocks, blocks)
  {
    LinkFree(base, heap, ring, blocks, k);
    hide Ok, Covered;
    assert Spans(ring, blocks, k, ring[k], n);
  }

  lemma BytesTrans(a: Blocks, b: Blocks, c: Blocks)
    requires SameBytes(a, b) && SameBytes(b, c)
    ensures SameBytes(a, c)
  {
    hide Covered;
  }

  lemma RoomBelow(ring: seq<nat>, blocks: Blocks, n: nat, m: nat)
    requires HasRoom(ring, blocks, n) && m <= n
    ensures HasRoom(ring, blocks, m)
  {
    var i: nat :| 0 < i < |ring| && Big(ring, blocks, i, n);
    assert Big(ring, blocks, i, m);
  }

  lemma TakeWhole(base: nat, heap: Heap, ring: seq<nat>, blocks: Blocks, k: nat)
    requires Ok(base, heap, ring, blocks) && 0 < k < |ring|
    ensures ring[k - 1] in heap && ring[k] in heap && ring[k] in blocks && ring[k] !in Live(ring, blocks)
      && SameBytes(blocks, blocks)
    ensures var ring' := Removed(ring, k);
      && Ok(base, heap[ring[k - 1] := heap[ring[k - 1]].(ptr := heap[ring[k]].ptr)], ring', blocks)
      && ring[k - 1] in ring' && Live(ring', blocks) == Live(ring, blocks)[ring[k] := blocks[ring[k]]]
  {
    Unlinked(base, heap, ring, blocks, k);
    LiveTaken(ring, blocks, k);
    RemovedAt(ring, k);
    assert Removed(ring, k)[k - 1] == ring[k - 1];
    hide Ok, Removed, Covered;
  }

  lemma TakeTail(base: nat, heap: Heap, ring: seq<nat>, blocks: Blocks, k: nat, n: nat, junk: nat)
    requires Ok(base, heap, ring, blocks) && 0 < k < |ring| && 0 < n < blocks[ring[k]]
    ensures var p := ring[k];
      var m := EndOf(p, blocks[p] - n);
      var blocks' := Split(blocks, p, n);
      && p in heap && m !in Live(ring, blocks) && SameBytes(blocks, blocks')
      && Live(ring, blocks') == Live(ring, blocks)[m := n]
      && Ok(base, heap[p := heap[p].(size := blocks[p] - n)][m := Header(junk, n)], ring, blocks')
  {
    Carved(base, heap, ring, blocks, k, n, junk);
    hide Ok, Split, SameBytes;
    SplitOk(blocks, ring[k], n);
    LiveCarved(ring, blocks, ring[k], n);
  }

  ghost function Index(ring: seq<nat>, a: nat): (i: nat)
    requires a in ring
    ensures i < |ring| && ring[i] == a
  {
    var i: nat :| i < |ring| && ring[i] == a;
    i
  }

  /** malloc's walk: it left freep, stands between prevp and p, and nothing it passed fits. */
  ghost predicate Walking(heap: Heap, ring: seq<nat>, freep: nat, f: nat, i: nat, prevp: nat, p: nat, n: nat)
  {
    && f < |ring| && i < |ring| && ring[f] == freep && ring[i] == prevp && prevp in heap && heap[prevp].ptr == p
    && (forall j: nat :: j < |ring| && Behind(f, i, j) ==> Small(heap, ring, j, n))
  }

  ghost predicate Small(heap: Heap, ring: seq<nat>, j: nat, n: nat)
    requires j < |ring|
  {
    ring[j] in heap && heap[ring[j]].size < n
  }

  /** Steps left before the walk is round. */
  ghost function Left(ring: seq<nat>, f: nat, i: nat): (d: nat)
  {
    if f < |ring| && i < |ring| then Ahead(|ring|, f, After(|ring|, i)) else 0
  }

  lemma WalkStart(base: nat, heap: Heap, ring: seq<nat>, blocks: Blocks, freep: nat, f: nat, n: nat)
    requires Ok(base, heap, ring, blocks) && f < |ring| && ring[f] == freep
    ensures freep in heap && Walking(heap, ring, freep, f, f, freep, heap[freep].ptr, n)
  {
    assert LinkAt(heap, ring, f);
  }

  /** What the walk finds at p: a block that fits, with prevp just before it (the static header
      never fits); or it is round, and there is no room; or it can go on. */
  lemma WalkFacts(base: nat, heap: Heap, ring: seq<nat>, blocks: Blocks, freep: nat, f: nat, i: nat, prevp: nat,
      p: nat, n: nat)
    requires Ok(base, heap, ring, blocks) && Walking(heap, ring, freep, f, i, prevp, p, n) && n > 0
    ensures p in heap && i < |ring|
    ensures heap[p].size >= n ==> i + 1 < |ring| && ring[i] == prevp && ring[i + 1] == p && HasRoom(ring, blocks, n)
    ensures heap[p].size < n && p == freep ==> !HasRoom(ring, blocks, n)
    ensures heap[p].size < n && p != freep ==>
      Walking(heap, ring, freep, f, After(|ring|, i), p, heap[p].ptr, n)
        && Left(ring, f, After(|ring|, i)) < Left(ring, f, i)
  {
    var k := After(|ring|, i);
    assert LinkAt(heap, ring, i) && LinkAt(heap, ring, k);
    if heap[p].size >= n {
      InRing(base, heap, ring, blocks, k);
      assert Big(ring, blocks, k, n);
    } else {
      assert Small(heap, ring, k, n);
      Differ(ring, k, f);
      hide Shape, Disjoint, Sorted, Apart, Linked;
      if p == freep { NoRoom(base, heap, ring, blocks, f, i, n); }
    }
  }

  lemma NoRoom(base: nat, heap: Heap, ring: seq<nat>, blocks: Blocks, f: nat, i: nat, n: nat)
    requires Ok(base, heap, ring, blocks) && f < |ring| && i < |ring| && After(|ring|, i) == f
      && Small(heap, ring, f, n)
    requires forall j: nat :: j < |ring| && Behind(f, i, j) ==> Small(heap, ring, j, n)
    ensures !HasRoom(ring, blocks, n)
  {
    forall j: nat | 0 < j < |ring| ensures !Big(ring, blocks, j, n) {
      InRing(base, heap, ring, blocks, j);
      assert Behind(f, i, j) || j == f;
    }
  }

  ghost predicate Grown(was: Blocks, blocks: Blocks, brk: nat, sbrk: Break, nunits: nat)
  {
    sbrk.At? && Gained(was, blocks, sbrk.addr, Asked(nunits)) && brk == BreakAfter(sbrk.addr, SbrkArg(Asked(nunits)))
  }

  lemma Settled(was: Blocks, mid: Blocks, now: Blocks, sbrk: Break, nunits: nat, grown: bool, brk: nat, brk': nat,
      base: nat)
    requires Backed(was, brk) && base + 16 <= brk && SameBytes(mid, now) && 0 < nunits <= 0x1000_0001
    requires if grown then Grown(was, mid, brk', sbrk, nunits) && sbrk.addr >= brk else mid == was && brk' == brk
    ensures if grown then Gained(was, now, sbrk.addr, Asked(nunits)) else SameBytes(was, now)
    ensures base + 16 <= brk' && Backed(now, brk') <==> !grown || nunits < 0x800_0000
  {
    hide Covered;
    if grown {
      var a, nu := sbrk.addr, Asked(nunits);
      SbrkArgExact(a, nu);
      assert nu < 0x800_0000 <==> nunits < 0x800_0000;
      hide SbrkArg, BreakAfter;
      assert Covered(now, EndOf(a, nu) - 1);
    }
  }

  lemma NotNull(base: nat, heap: Heap, ring: seq<nat>, blocks: Blocks, p: nat)
    requires Ok(base, heap, ring, blocks) && base > 0 && p in ring
    ensures p > 0
  {
    var i :| 0 <= i < |ring| && ring[i] == p;
    if i > 0 { assert Less(ring, 0, i); }
  }

  class Allocator {
    const base: nat
    var heap: Heap
    var freep: nat
    var brk: nat
    ghost var ring: seq<nat>
    ghost var blocks: Blocks

    ghost predicate Structure()
      reads this
    {
      base > 0 && freep in ring && Ok(base, heap, ring, blocks)
    }

    /** freep is 0 until the first malloc; all blocks lie below the end of memory. */
    ghost predicate Valid()
      reads this
    {
      && base > 0 && base + 16 <= brk && Backed(blocks, brk)
      && (if freep == 0 then ring == [] && blocks == map[] else Structure())
    }

    constructor (at: nat, end: nat)
      requires 0 < at && at + 16 <= end
      ensures Valid() && freep == 0 && base == at && brk == end
    {
      base, heap, freep, brk, ring, blocks := at, map[], 0, end, [], map[];
    }

    /** Where a block goes: between the neighbours that enclose its address. */
    method Search(bp: nat) returns (p: nat, ghost t: nat)
      requires Structure() && bp in Live(ring, blocks)
      ensures Fits(base, heap, ring, blocks, t, bp) && p == ring[t]
    {
      ghost var i: nat :| i < |ring| && ring[i] == freep;
      p := freep;
      forall j: nat | j < |ring| ensures ring[j] != bp {}
      t := Slot(ring, bp, |ring|);
      while !(bp > p && bp < heap[p].ptr)
        invariant i < |ring| && p == ring[i] && p in heap
        decreases Ahead(|ring|, t, i)
      {
        assert LinkAt(heap, ring, i) && LinkAt(heap, ring, After(|ring|, i));
        Where(base, heap, ring, blocks, t, bp, i);
        if p >= heap[p].ptr && (bp > p || bp < heap[p].ptr) { break; }
        p := heap[p].ptr;
        i := After(|ring|, i);
      }
      Where(base, heap, ring, blocks, t, bp, i);
    }

    /** The first half of free: join the block above or point at it. */
    method Hook(bp: nat, p: nat, ghost t: nat)
      requires Fits(base, heap, ring, blocks, t, bp) && p == ring[t]
      modifies this`heap, this`ring, this`blocks
      ensures IsHooked(base, heap, ring, blocks, t, p, bp, old(ring), old(blocks))
    {
      hide Fits, IsHooked, Merged, Inserted, Replaced, Sorted, Disjoint;
      Above(base, heap, ring, blocks, t, bp);
      var up := heap[p].ptr;
      if EndOf(bp, heap[bp].size) == up {
        HookJoins(base, heap, ring, blocks, t, bp);
        heap := heap[bp := Header(heap[up].ptr, heap[bp].size + heap[up].size)];
        ring, blocks := Replaced(ring, t + 1, bp), Merged(blocks, bp, up);
      } else {
        HookPoints(base, heap, ring, blocks, t, bp);
        heap := heap[bp := heap[bp].(ptr := up)];
        ring := Inserted(ring, t + 1, bp);
      }
    }

    /** The second half: join the block below or be pointed at. */
    method Link(bp: nat, p: nat, ghost t: nat, ghost n: nat)
      requires Hooked(base, heap, ring, blocks, t + 1) && ring[t] == p && ring[t + 1] == bp && blocks[bp] >= n
      modifies this`heap, this`ring, this`blocks
      ensures Ok(base, heap, ring, blocks) && p in ring && Absorbed(ring, blocks, bp, n)
      ensures Live(ring, blocks) == old(Live(ring, blocks)) && SameBytes(old(blocks), blocks)
    {
      hide Hooked, Ok, Absorbed, Live, SameBytes, Merged, Removed, Sorted, Disjoint;
      Beneath(base, heap, ring, blocks, t + 1);
      if EndOf(p, heap[p].size) == bp {
        LinkJoins(base, heap, ring, blocks, t + 1, n);
        heap := heap[p := Header(heap[bp].ptr, heap[p].size + heap[bp].size)];
        ring, blocks := Removed(ring, t + 1), Merged(blocks, p, bp);
      } else {
        LinkPoints(base, heap, ring, blocks, t + 1, n);
        heap := heap[p := heap[p].(ptr := bp)];
      }
    }

    /** Free takes exactly its block out of those handed out, and its bytes end up inside one
        block of the ring; no byte and no other block is touched. */
    method Free(bp: nat)
      requires Structure() && bp in Live(ring, blocks)
      modifies this`heap, this`ring, this`blocks, this`freep
      ensures Structure() && freep != 0 && Absorbed(ring, blocks, bp, old(blocks[bp]))
      ensures Live(ring, blocks) == old(Live(ring, blocks)) - {bp} && SameBytes(old(blocks), blocks)
    {
      var p, t := Search(bp);
      hide Ok, Hooked, Absorbed, Live, Covered, Fits;
      assert base > 0 && bp in blocks;
      ghost var n, was := blocks[bp], blocks;
      Hook(bp, p, t);
      ghost var mid := blocks;
      Link(bp, p, t, n);
      BytesTrans(was, mid, blocks);
      freep := p;
      NotNull(base, heap, ring, blocks, p);
    }

    /** More memory: the ring gains a free block of at least nunits and the bytes of the new
        memory; blocks handed out stay. The end of memory follows what sbrk was told. */
    method Morecore(nunits: nat, sbrk: Break) returns (r: nat)
      requires Structure() && Backed(blocks, brk) && base + 16 <= brk && 0 < nunits <= 0x1000_0001
        && (sbrk.At? ==> sbrk.addr >= brk)
      modifies this
      ensures Structure() && freep != 0 && Live(ring, blocks) == old(Live(ring, blocks))
      ensures sbrk.Refused? ==>
        r == 0 && heap == old(heap) && ring == old(ring) && blocks == old(blocks) && brk == old(brk)
      ensures sbrk.At? ==>
        r == freep && HasRoom(ring, blocks, nunits) && Gained(old(blocks), blocks, sbrk.addr, Asked(nunits))
      ensures sbrk.At? ==> brk == BreakAfter(sbrk.addr, SbrkArg(Asked(nunits)))
    {
      hide Ok, Covered, Absorbed, HasRoom;
      NotNull(base, heap, ring, blocks, freep);
      var nu := if nunits < 4096 then 4096 else nunits;
      if sbrk.Refused? { return 0; }
      var hp, junk: nat := sbrk.addr, *;
      NewBlock(base, heap, ring, blocks, brk, hp, nu, junk);
      brk := BreakAfter(hp, SbrkArg(nu));
      heap, blocks := heap[hp := Header(junk, nu)], blocks[hp := nu];
      ghost var mid := blocks;
      Free(hp);
      assert Live(ring, blocks) == old(Live(ring, blocks));
      AbsorbedRoom(ring, blocks, hp, nu);
      RoomBelow(ring, blocks, nu, nunits);
      return freep;
    }

    /** The k-th block is big enough: hand out all of it, or its tail. */
    method Take(prevp: nat, p: nat, nunits: nat, ghost k: nat) returns (a: nat)
      requires Structure() && 0 < k < |ring| && ring[k - 1] == prevp && ring[k] == p && nunits > 0
      requires p in heap && heap[p].size >= nunits
      modifies this`heap, this`ring, this`blocks, this`freep
      ensures Structure() && freep != 0 && SameBytes(old(blocks), blocks)
      ensures a !in old(Live(ring, blocks)) && Live(ring, blocks) == old(Live(ring, blocks))[a := nunits]
    {
      hide Ok, Live, Covered;
      InRing(base, heap, ring, blocks, k);
      if heap[p].size == nunits {
        TakeWhole(base, heap, ring, blocks, k);
        heap := heap[prevp := heap[prevp].(ptr := heap[p].ptr)];
        ring := Removed(ring, k);
        a := p;
      } else {
        var rest, junk: nat := heap[p].size - nunits, *;
        TakeTail(base, heap, ring, blocks, k, nunits, junk);
        heap := heap[p := heap[p].(size := rest)];
        a := EndOf(p, rest);
        heap := heap[a := Header(junk, nunits)];
        blocks := Split(blocks, p, nunits);
      }
      freep := prevp;
      NotNull(base, heap, ring, blocks, prevp);
    }

    /** The free list becomes the empty base block, alone in its ring. */
    method Init()
      requires Valid() && freep == 0
      modifies this`heap, this`freep, this`ring
      ensures Structure() && freep == base && Live(ring, blocks) == map[] && ring == [base]
    {
      heap := heap[base := Header(base, 0)];
      ring := [base];
      freep := base;
    }

    /** First fit from freep on; when the walk comes round, more memory, once. */
    method FirstFit(nunits: nat, sbrk: Break) returns (ap: nat)
      requires Structure() && Backed(blocks, brk) && base + 16 <= brk && 0 < nunits <= 0x1000_0001
        && (sbrk.At? ==> sbrk.addr >= brk)
      modifies this
      ensures Structure() && freep != 0
      ensures ap == 0 <==> !old(HasRoom(ring, blocks, nunits)) && sbrk.Refused?
      ensures ap == 0 ==> Live(ring, blocks) == old(Live(ring, blocks))
      ensures ap != 0 ==>
        ap >= 16 && ap - 16 !in old(Live(ring, blocks)) && Live(ring, blocks)
        == old(Live(ring, blocks))[ap - 16 := nunits]
      ensures
        if old(HasRoom(ring, blocks, nunits)) || sbrk.Refused? then SameBytes(old(blocks), blocks) && brk == old(brk)
        else Gained(old(blocks), blocks, sbrk.addr, Asked(nunits))
      ensures base + 16 <= brk && Backed(blocks, brk) <==>
        old(HasRoom(ring, blocks, nunits)) || sbrk.Refused? || nunits < 0x800_0000
    {
      hide Ok, Covered, HasRoom, Live, Walking, Gained, Backed, SbrkArg, BreakAfter, Asked;
      ghost var room, was, live, end := HasRoom(ring, blocks, nunits), blocks, Live(ring, blocks), brk;
      assert SameBytes(was, was);
      hide SameBytes;
      ghost var f: nat, grown := Index(ring, freep), false;
      ghost var i: nat := f;
      WalkStart(base, heap, ring, blocks, freep, f, nunits);
      var prevp := freep;
      var p := heap[prevp].ptr;
      while true
        invariant Structure() && Walking(heap, ring, freep, f, i, prevp, p, nunits)
        invariant Live(ring, blocks) == live
        invariant if grown then Grown(was, blocks, brk, sbrk, nunits) && !room && HasRoom(ring, blocks, nunits)
          else blocks == was && brk == end && HasRoom(ring, blocks, nunits) == room
        decreases !grown, Left(ring, f, i)
      {
        WalkFacts(base, heap, ring, blocks, freep, f, i, prevp, p, nunits);
        if heap[p].size >= nunits {
          ghost var mid := blocks;
          var a := Take(prevp, p, nunits, i + 1);
          Settled(was, mid, blocks, sbrk, nunits, grown, end, brk, base);
          return a + 16;
        }
        if p == freep {
          p := Morecore(nunits, sbrk);
          if p == 0 { return 0; }
          grown, f := true, Index(ring, freep);
          WalkStart(base, heap, ring, blocks, freep, f, nunits);
          i := f;
        } else {
          i := After(|ring|, i);
        }
        prevp := p;
        p := heap[p].ptr;
      }
    }

    /** The block handed out is new among the live ones and the others keep their place and
        size. All blocks lie in the process's memory afterwards unless sbrk was asked for more
        than an int holds. */
    method Malloc(nbytes: nat, sbrk: Break) returns (ap: nat)
      requires Valid() && nbytes < U32 && (sbrk.At? ==> sbrk.addr >= brk)
      modifies this
      ensures Structure() && freep != 0
      ensures ap == 0 <==> !old(HasRoom(ring, blocks, Units(nbytes))) && sbrk.Refused?
      ensures ap == 0 ==> Live(ring, blocks) == old(Live(ring, blocks))
      ensures ap != 0 ==>
        ap >= 16 && ap - 16 !in old(Live(ring, blocks)) && Live(ring, blocks)
        == old(Live(ring, blocks))[ap - 16 := Units(nbytes)]
      ensures
        if old(HasRoom(ring, blocks, Units(nbytes))) || sbrk.Refused? then
          SameBytes(old(blocks), blocks) && brk == old(brk)
        else Gained(old(blocks), blocks, sbrk.addr, Asked(Units(nbytes)))
      ensures Valid() <==> old(HasRoom(ring, blocks, Units(nbytes))) || sbrk.Refused? || Units(nbytes) < 0x800_0000
    {
      var nunits := (nbytes + 15) / 16 + 1;
      if freep == 0 { Init(); }
      assert HasRoom(ring, blocks, nunits) == old(HasRoom(ring, blocks, nunits));
      assert Live(ring, blocks) == old(Live(ring, blocks));
      hide Ok, Covered, HasRoom, Live, Gained, SameBytes, Backed, Asked;
      ap := FirstFit(nunits, sbrk);
    }
  }
}
