/** The buffer cache of kernel/bio.c: an array of buffers threaded on a doubly linked
    ring in order of last use, with reference counts that wrap like the C uint.

    Two layers of facts: `Valid` is what every call keeps unconditionally (the ring,
    one buffer per block, the meaning of reference counts); `Coherent` is what the
    cache promises its users as long as they pair their calls (reads return the disk
    overlaid with the blocks logged and not yet installed). */
module BufferCache {
  import opened Blocks
  import opened DiskLog

  const NBUF: nat := 30
  const HEAD: nat := NBUF
  const ROOTDEV: nat := 1
  const UINT: nat := 0x1_0000_0000

  datatype Buf = Buf(dev: nat, blockno: nat, valid: bool, refcnt: nat, data: Block, prev: nat, next: nat)

  // ------------------------------------------------------------------ the ring

  /** Position k of the ring; one place outside either end is the list head. */
  function At(ring: seq<nat>, k: int): (b: nat) { if 0 <= k < |ring| then ring[k] else HEAD }

  ghost predicate Distinct(ring: seq<nat>)
  {
    && (forall k :: 0 <= k < |ring| ==> ring[k] < NBUF)
    && (forall j, k :: 0 <= j < k < |ring| ==> ring[j] != ring[k])
  }

  /** The prev and next fields thread exactly the given ring through the head. */
  ghost predicate Links(buf: seq<Buf>, ring: seq<nat>)
  {
    && |buf| == NBUF + 1
    && Distinct(ring)
    && (forall k :: -1 <= k < |ring| ==> buf[At(ring, k)].next == At(ring, k + 1))
    && (forall k :: 0 <= k <= |ring| ==> buf[At(ring, k)].prev == At(ring, k - 1))
  }

  ghost predicate Complete(ring: seq<nat>) { |ring| == NBUF && forall i :: 0 <= i < NBUF ==> i in ring }

  ghost function Without(ring: seq<nat>, k: nat): (r: seq<nat>)
    requires k < |ring|
  {
    ring[..k] + ring[k + 1..]
  }

  /** The ring with buffer i taken out. */
  ghost function Removed(ring: seq<nat>, i: nat): (r: seq<nat>)
  {
    if ring == [] then [] else if ring[0] == i then ring[1..] else [ring[0]] + Removed(ring[1..], i)
  }

  lemma {:induction false} RemovedIsWithout(ring: seq<nat>, k: nat)
    requires k < |ring| && forall j :: 0 <= j < k ==> ring[j] != ring[k]
    ensures Removed(ring, ring[k]) == Without(ring, k)
    decreases k
  {
    if k > 0 {
      RemovedIsWithout(ring[1..], k - 1);
      assert ring[1..][k - 1] == ring[k] && [ring[0]] + Without(ring[1..], k - 1) == Without(ring, k);
    }
  }

  lemma FrontComplete(ring: seq<nat>, k: nat)
    requires Complete(ring) && k < |ring|
    ensures Complete([ring[k]] + Without(ring, k))
  {
    forall x | 0 <= x < NBUF ensures x in [ring[k]] + Without(ring, k) {
      assert x in ring;
      var j :| 0 <= j < |ring| && ring[j] == x;
      assert j != k ==> Without(ring, k)[if j < k then j else j - 1] == x;
    }
  }

  function Linked(b: Buf, prev: nat, next: nat): (b': Buf) { b.(prev := prev, next := next) }

  /** Buffer b apart from its place in the list. */
  function Payload(b: Buf): (b': Buf) { Linked(b, 0, 0) }

  ghost predicate SamePayload(a: seq<Buf>, b: seq<Buf>)
  {
    |a| == |b| && forall i :: 0 <= i < |a| ==> Payload(a[i]) == Payload(b[i])
  }

  /** The neighbours of b are linked to each other. */
  function Unlinked(buf: seq<Buf>, i: nat): (r: seq<Buf>)
    requires i < |buf| && buf[i].next < |buf| && buf[i].prev < |buf|
  {
    var s := buf[buf[i].next := buf[buf[i].next].(prev := buf[i].prev)];
    s[s[i].prev := s[s[i].prev].(next := s[i].next)]
  }

  /** b is linked in between the list head and the first buffer. */
  function Pushed(buf: seq<Buf>, i: nat): (r: seq<Buf>)
    requires |buf| == NBUF + 1 && i < NBUF && buf[HEAD].next < |buf|
  {
    var s := buf[i := Linked(buf[i], HEAD, buf[HEAD].next)];
    var t := s[s[HEAD].next := s[s[HEAD].next].(prev := i)];
    t[HEAD := t[HEAD].(next := i)]
  }

  lemma AtInjective(ring: seq<nat>, a: int, b: int)
    requires Distinct(ring) && 0 <= a < |ring| && a != b
    ensures At(ring, a) != At(ring, b)
  {}

  lemma WithoutAt(ring: seq<nat>, k: nat, j: int)
    requires k < |ring|
    ensures At(Without(ring, k), j) == At(ring, if j < k then j else j + 1)
  {}

  lemma WithoutDistinct(ring: seq<nat>, k: nat)
    requires Distinct(ring) && k < |ring|
    ensures Distinct(Without(ring, k)) && ring[k] !in Without(ring, k)
  {
    assert forall j :: 0 <= j < |ring| - 1 ==> Without(ring, k)[j] == ring[if j < k then j else j + 1];
  }

  lemma UnlinkedFields(buf: seq<Buf>, i: nat)
    requires i < |buf| && buf[i].next < |buf| && buf[i].prev < |buf| && buf[i].next != i && buf[i].prev != i
    ensures var buf', p, n := Unlinked(buf, i), buf[i].prev, buf[i].next;
      && SamePayload(buf', buf)
      && (forall b :: 0 <= b < |buf| ==> buf'[b].next == if b == p then n else buf[b].next)
      && (forall b :: 0 <= b < |buf| ==> buf'[b].prev == if b == n then p else buf[b].prev)
  {}

  lemma UnlinkedLinks(buf: seq<Buf>, ring: seq<nat>, k: nat)
    requires Links(buf, ring) && k < |ring|
    ensures At(ring, k + 1) == buf[ring[k]].next && At(ring, k - 1) == buf[ring[k]].prev
    ensures Links(Unlinked(buf, ring[k]), Without(ring, k))
    ensures SamePayload(Unlinked(buf, ring[k]), buf)
    ensures ring[k] !in Without(ring, k)
  {
    assert buf[At(ring, k)].next == At(ring, k + 1) && buf[At(ring, k)].prev == At(ring, k - 1);
    AtInjective(ring, k, k + 1);
    AtInjective(ring, k, k - 1);
    UnlinkedFields(buf, ring[k]);
    WithoutDistinct(ring, k);
    var ring', buf' := Without(ring, k), Unlinked(buf, ring[k]);
    forall j | -1 <= j < |ring'| ensures buf'[At(ring', j)].next == At(ring', j + 1) {
      UnlinkedNext(buf, ring, k, j);
    }
    forall j | 0 <= j <= |ring'| ensures buf'[At(ring', j)].prev == At(ring', j - 1) {
      UnlinkedPrev(buf, ring, k, j);
    }
  }

  lemma UnlinkedNext(buf: seq<Buf>, ring: seq<nat>, k: nat, j: int)
    requires Links(buf, ring) && k < |ring| && -1 <= j < |ring| - 1
    requires buf[ring[k]].next == At(ring, k + 1) != ring[k] && buf[ring[k]].prev == At(ring, k - 1) != ring[k]
    ensures Unlinked(buf, ring[k])[At(Without(ring, k), j)].next == At(Without(ring, k), j + 1)
  {
    UnlinkedFields(buf, ring[k]);
    WithoutAt(ring, k, j);
    WithoutAt(ring, k, j + 1);
    var j0 := if j < k then j else j + 1;
    if j0 != k - 1 {
      if 0 <= j0 { AtInjective(ring, j0, k - 1); } else { AtInjective(ring, k - 1, j0); }
    }
    assert buf[At(ring, j0)].next == At(ring, j0 + 1);
  }

  lemma UnlinkedPrev(buf: seq<Buf>, ring: seq<nat>, k: nat, j: int)
    requires Links(buf, ring) && k < |ring| && 0 <= j <= |ring| - 1
    requires buf[ring[k]].next == At(ring, k + 1) != ring[k] && buf[ring[k]].prev == At(ring, k - 1) != ring[k]
    ensures Unlinked(buf, ring[k])[At(Without(ring, k), j)].prev == At(Without(ring, k), j - 1)
  {
    UnlinkedFields(buf, ring[k]);
    WithoutAt(ring, k, j);
    WithoutAt(ring, k, j - 1);
    var j0 := if j < k then j else j + 1;
    if j0 != k + 1 {
      if j0 < |ring| { AtInjective(ring, j0, k + 1); } else { AtInjective(ring, k + 1, j0); }
    }
    assert buf[At(ring, j0)].prev == At(ring, j0 - 1);
  }

  lemma PushedLinks(buf: seq<Buf>, ring: seq<nat>, i: nat)
    requires Links(buf, ring) && i < NBUF && i !in ring
    ensures buf[HEAD].next == At(ring, 0) <= HEAD
    ensures Links(Pushed(buf, i), [i] + ring)
    ensures SamePayload(Pushed(buf, i), buf)
  {
    assert buf[At(ring, -1)].next == At(ring, 0);
    var ring', buf' := [i] + ring, Pushed(buf, i);
    forall j | -1 <= j < |ring'| ensures buf'[At(ring', j)].next == At(ring', j + 1) {
      assert j >= 1 ==> At(ring', j) == At(ring, j - 1);
      assert At(ring', j + 1) == if j == -1 then i else At(ring, j);
    }
    forall j | 0 <= j <= |ring'| ensures buf'[At(ring', j)].prev == At(ring', j - 1) {
      assert j >= 1 ==> At(ring', j) == At(ring, j - 1) && At(ring', j - 1) == if j == 1 then i else At(ring, j - 2);
    }
  }

  /** Unlinking a buffer and pushing it at the front keeps one complete ring. */
  lemma FrontLinks(buf: seq<Buf>, ring: seq<nat>, i: nat)
    requires Links(buf, ring) && Complete(ring) && i < NBUF
    ensures buf[i].next < |buf| && buf[i].prev < |buf| && Unlinked(buf, i)[HEAD].next < |buf|
    ensures var buf' := Pushed(Unlinked(buf, i), i);
      && Links(buf', [i] + Removed(ring, i)) && Complete([i] + Removed(ring, i))
      && SamePayload(buf', buf)
  {
    assert i in ring;
    var k :| 0 <= k < |ring| && ring[k] == i;
    UnlinkedLinks(buf, ring, k);
    RemovedIsWithout(ring, k);
    FrontComplete(ring, k);
    PushedLinks(Unlinked(buf, i), Without(ring, k), i);
  }

  // ----------------------------------------------------------------- the cache

  ghost predicate Caches(buf: seq<Buf>, i: int, dev: nat, blockno: nat)
  {
    0 <= i < NBUF < |buf| && buf[i].dev == dev && buf[i].blockno == blockno
  }

  ghost predicate Cached(buf: seq<Buf>, dev: nat, blockno: nat) { exists i :: Caches(buf, i, dev, blockno) }

  ghost predicate Unused(buf: seq<Buf>, i: int) { 0 <= i < NBUF < |buf| && buf[i].refcnt == 0 }

  ghost predicate SomeUnused(buf: seq<Buf>) { exists i :: Unused(buf, i) }

  /** At most one buffer for a block of a real device. */
  ghost predicate Unique(buf: seq<Buf>)
  {
    |buf| == NBUF + 1 &&
    forall i, j :: 0 <= i < NBUF && 0 <= j < NBUF && i != j && buf[i].dev != 0
      ==> buf[i].dev != buf[j].dev || buf[i].blockno != buf[j].blockno
  }

  /** i is the least recently released of the unused buffers. */
  ghost predicate LeastRecent(buf: seq<Buf>, ring: seq<nat>, i: nat)
  {
    && Unused(buf, i)
    && exists k :: 0 <= k < |ring| && ring[k] == i && forall j :: k < j < |ring| ==> !Unused(buf, ring[j])
  }

  /** Reference counts are the references out and the pins, modulo 2^32. */
  ghost predicate Counted(buf: seq<Buf>, users: seq<int>, pins: seq<int>)
  {
    |buf| == NBUF + 1 && |users| == NBUF && |pins| == NBUF &&
    forall i :: 0 <= i < NBUF ==> buf[i].refcnt == (users[i] + pins[i]) % UINT
  }

  /** What a block holds once the pending transaction is overlaid on the disk. */
  ghost function Logical(disk: Image, pending: map<nat, Block>, b: nat): (data: Block)
    requires b < |disk|
  {
    if b in pending then pending[b] else disk[b]
  }

  function Referenced(b: Buf): (b': Buf) { b.(refcnt := (b.refcnt + 1) % UINT) }

  function Dereferenced(b: Buf): (b': Buf) { b.(refcnt := (b.refcnt - 1) % UINT) }

  function Recycled(b: Buf, dev: nat, blockno: nat): (b': Buf)
  {
    b.(dev := dev, blockno := blockno, valid := false, refcnt := 1)
  }

  /** Valid buffers hold the logical contents, except those being changed. */
  ghost predicate Holds(buf: seq<Buf>, disk: Image, pending: map<nat, Block>, dirty: set<nat>)
  {
    && |buf| == NBUF + 1
    && (forall b :: b in pending ==> b < |disk|)
    && (forall i :: 0 <= i < NBUF && buf[i].dev != 0 ==> buf[i].dev == ROOTDEV && buf[i].blockno < |disk|)
    && (forall i :: 0 <= i < NBUF && buf[i].dev != 0 && buf[i].valid && i !in dirty
          ==> buf[i].data == Logical(disk, pending, buf[i].blockno))
    && (forall i :: i in dirty ==> i < NBUF && buf[i].dev != 0 && buf[i].valid && buf[i].refcnt != 0)
  }

  ghost predicate PinnedBlock(buf: seq<Buf>, pins: seq<int>, b: nat)
  {
    exists i :: 0 <= i < |pins| && pins[i] == 1 && Caches(buf, i, ROOTDEV, b)
  }

  /** Every pending block sits pinned, once, in its buffer. */
  ghost predicate Pins(buf: seq<Buf>, users: seq<int>, pins: seq<int>, pending: map<nat, Block>)
  {
    && |buf| == NBUF + 1 && |pins| == NBUF && |users| == NBUF
    && (forall i :: 0 <= i < NBUF ==> 0 <= users[i] < UINT - 1 && 0 <= pins[i] <= 1)
    && (forall i ::
      0 <= i < NBUF && pins[i] == 1 ==> buf[i].dev == ROOTDEV && buf[i].valid && buf[i].blockno in pending)
    && (forall b: nat {:trigger PinnedBlock(buf, pins, b)} :: b in pending ==> PinnedBlock(buf, pins, b))
  }

  // What one step does to those predicates.

  lemma SameFields(a: seq<Buf>, b: seq<Buf>)
    requires SamePayload(a, b)
    ensures forall i :: 0 <= i < |a| ==>
      a[i].dev == b[i].dev && a[i].blockno == b[i].blockno && a[i].valid == b[i].valid
      && a[i].refcnt == b[i].refcnt && a[i].data == b[i].data
  {
    forall i | 0 <= i < |a|
      ensures a[i].dev == b[i].dev && a[i].blockno == b[i].blockno && a[i].valid == b[i].valid
           && a[i].refcnt == b[i].refcnt && a[i].data == b[i].data
    {
      assert Payload(a[i]) == Payload(b[i]);
    }
  }

  lemma RelinkedKeeps(buf: seq<Buf>, buf': seq<Buf>, users: seq<int>, pins: seq<int>)
    requires |buf| == NBUF + 1 && SamePayload(buf', buf) && Unique(buf) && Counted(buf, users, pins)
    ensures Unique(buf') && Counted(buf', users, pins)
  {
    SameFields(buf', buf);
  }

  lemma RelinkedHolds(buf: seq<Buf>, buf': seq<Buf>, disk: Image, pending: map<nat, Block>, dirty: set<nat>)
    requires SamePayload(buf', buf) && Holds(buf, disk, pending, dirty)
    ensures Holds(buf', disk, pending, dirty)
  {
    SameFields(buf', buf);
  }

  lemma RelinkedPins(buf: seq<Buf>, buf': seq<Buf>, users: seq<int>, pins: seq<int>, pending: map<nat, Block>)
    requires SamePayload(buf', buf) && Pins(buf, users, pins, pending)
    ensures Pins(buf', users, pins, pending)
  {
    SameFields(buf', buf);
    forall b: nat | b in pending ensures PinnedBlock(buf', pins, b) {
      assert PinnedBlock(buf, pins, b);
      var i :| 0 <= i < |pins| && pins[i] == 1 && Caches(buf, i, ROOTDEV, b);
      assert Caches(buf', i, ROOTDEV, b);
    }
  }

  lemma ReferencedKeeps(buf: seq<Buf>, ring: seq<nat>, users: seq<int>, pins: seq<int>, i: nat)
    requires Links(buf, ring) && Unique(buf) && Counted(buf, users, pins) && i < NBUF
    ensures |buf| == NBUF + 1 && |users| == NBUF
    ensures var buf' := buf[i := Referenced(buf[i])];
      Links(buf', ring) && Unique(buf') && Counted(buf', users[i := users[i] + 1], pins)
  {}

  lemma RecycledCounted(buf: seq<Buf>, users: seq<int>, pins: seq<int>, i: nat, dev: nat, blockno: nat)
    requires Counted(buf, users, pins) && Unused(buf, i)
    ensures |buf| == NBUF + 1 && |users| == NBUF
    ensures Counted(buf[i := Recycled(buf[i], dev, blockno)], users[i := users[i] + 1], pins)
  {}

  lemma LeastIsUnused(buf: seq<Buf>, ring: seq<nat>, i: nat)
    requires LeastRecent(buf, ring, i)
    ensures Unused(buf, i)
  {}

  lemma RecycledKeeps(buf: seq<Buf>, ring: seq<nat>, i: nat, dev: nat, blockno: nat)
    requires Links(buf, ring) && Unique(buf) && i < NBUF && !Cached(buf, dev, blockno)
    ensures var buf' := buf[i := Recycled(buf[i], dev, blockno)]; Unique(buf') && Links(buf', ring)
  {
    forall j | 0 <= j < NBUF ensures !(buf[j].dev == dev && buf[j].blockno == blockno) {
      assert !Caches(buf, j, dev, blockno);
    }
  }

  /** Filling or changing a buffer's data moves nothing. */
  lemma FilledKeeps(buf: seq<Buf>, ring: seq<nat>, users: seq<int>, pins: seq<int>, i: nat, data: Block)
    requires Links(buf, ring) && Unique(buf) && Counted(buf, users, pins) && i < NBUF
    ensures var buf' := buf[i := buf[i].(data := data, valid := true)];
      Links(buf', ring) && Unique(buf') && Counted(buf', users, pins)
  {}

  /** What bread finds in the buffer, or reads into it, is the logical block. */
  lemma ReadsLogical(buf: seq<Buf>, i: nat, disk: Image, pending: map<nat, Block>, dirty: set<nat>, b: nat)
    requires Holds(buf, disk, pending, dirty) && b < |disk| && Resident(buf, pending, b) && Unique(buf)
    requires Cached(buf, ROOTDEV, b) ==> Caches(buf, i, ROOTDEV, b) && i !in dirty
    requires i < NBUF
    ensures Caches(buf, i, ROOTDEV, b) && buf[i].valid ==> buf[i].data == Logical(disk, pending, b)
    ensures !(Caches(buf, i, ROOTDEV, b) && buf[i].valid) ==> disk[b] == Logical(disk, pending, b)
  {
    if b in pending {
      var j :| Caches(buf, j, ROOTDEV, b) && buf[j].valid;
      assert Cached(buf, ROOTDEV, b);
    }
  }

  /** A read fills at most one buffer, unused before or of the same block. */
  lemma ReadKeepsHolds(buf: seq<Buf>, i: nat, b: Buf, disk: Image, pending: map<nat, Block>, dirty: set<nat>)
    requires Holds(buf, disk, pending, dirty) && i < NBUF && i !in dirty
    requires b.dev == ROOTDEV && b.blockno < |disk| && b.valid && b.data == Logical(disk, pending, b.blockno)
    ensures Holds(buf[i := b], disk, pending, dirty)
  {}

  /** The blocks of the pending transaction are in the cache. */
  ghost predicate Resident(buf: seq<Buf>, pending: map<nat, Block>, b: nat)
  {
    b in pending ==> exists i :: Caches(buf, i, ROOTDEV, b) && buf[i].valid
  }

  lemma PinnedInUse(buf: seq<Buf>, users: seq<int>, pins: seq<int>, pending: map<nat, Block>, i: nat)
    requires Pins(buf, users, pins, pending) && Counted(buf, users, pins) && i < NBUF
    ensures buf[i].refcnt == users[i] + pins[i] && 0 <= users[i] < UINT - 1 && 0 <= pins[i] <= 1
  {}

  /** A buffer keeps its pin as long as it keeps its block. */
  lemma KeepsPins(buf: seq<Buf>, i: nat, b: Buf, users: seq<int>, u: int, pins: seq<int>, pending: map<nat, Block>)
    requires Pins(buf, users, pins, pending) && i < NBUF && 0 <= u < UINT - 1
    requires pins[i] == 1 ==> b.valid && b.dev == buf[i].dev && b.blockno == buf[i].blockno
    ensures Pins(buf[i := b], users[i := u], pins, pending)
  {
    var buf' := buf[i := b];
    forall x: nat | x in pending ensures PinnedBlock(buf', pins, x) {
      assert PinnedBlock(buf, pins, x);
      var j :| 0 <= j < |pins| && pins[j] == 1 && Caches(buf, j, ROOTDEV, x);
      assert Caches(buf', j, ROOTDEV, x);
    }
  }

  lemma DroppedKeeps(buf: seq<Buf>, ring: seq<nat>, users: seq<int>, pins: seq<int>, i: nat, u: int, p: int, b: Buf)
    requires Links(buf, ring) && Unique(buf) && Counted(buf, users, pins) && i < NBUF
    requires b.prev == buf[i].prev && b.next == buf[i].next && b.dev == buf[i].dev && b.blockno == buf[i].blockno
    requires b.refcnt == (u + p) % UINT
    ensures Links(buf[i := b], ring) && Unique(buf[i := b]) && Counted(buf[i := b], users[i := u], pins[i := p])
  {}

  lemma DroppedHolds(buf: seq<Buf>, i: nat, disk: Image, pending: map<nat, Block>, dirty: set<nat>)
    requires Holds(buf, disk, pending, dirty) && i < NBUF && i !in dirty
    ensures Holds(buf[i := Dereferenced(buf[i])], disk, pending, dirty)
  {}

  /** Writing a buffer to disk changes its block only. */
  lemma WriteKeepsHolds(buf: seq<Buf>, i: nat, disk: Image, pending: map<nat, Block>, dirty: set<nat>)
    requires Holds(buf, disk, pending, dirty) && Unique(buf) && i < NBUF && buf[i].dev != 0 && buf[i].valid
    requires buf[i].blockno in pending ==> pending[buf[i].blockno] == buf[i].data
    ensures Holds(buf, disk[buf[i].blockno := buf[i].data], pending, dirty - {i})
  {}

  /** A logged block joins the overlay. */
  lemma LoggedKeepsHolds(buf: seq<Buf>, i: nat, disk: Image, pending: map<nat, Block>, dirty: set<nat>)
    requires Holds(buf, disk, pending, dirty) && Unique(buf) && i < NBUF && buf[i].dev != 0 && buf[i].valid
    ensures Holds(buf, disk, pending[buf[i].blockno := buf[i].data], dirty - {i})
  {}

  lemma LoggedPins(buf: seq<Buf>, i: nat, users: seq<int>, pins: seq<int>, pending: map<nat, Block>, data: Block)
    requires Pins(buf, users, pins, pending) && i < NBUF && buf[i].dev == ROOTDEV && buf[i].valid
    ensures Pins(buf, users, pins[i := 1], pending[buf[i].blockno := data])
  {
    var pins', pending' := pins[i := 1], pending[buf[i].blockno := data];
    forall x: nat | x in pending' ensures PinnedBlock(buf, pins', x) {
      if x == buf[i].blockno {
        assert Caches(buf, i, ROOTDEV, x);
      } else {
        assert PinnedBlock(buf, pins, x);
        var j :| 0 <= j < |pins| && pins[j] == 1 && Caches(buf, j, ROOTDEV, x);
        assert pins'[j] == 1;
      }
    }
  }

  /** An installed block leaves the overlay with its pin. */
  lemma InstalledPins(buf: seq<Buf>, i: nat, users: seq<int>, pins: seq<int>, pending: map<nat, Block>)
    requires Pins(buf, users, pins, pending) && Unique(buf) && i < NBUF && pins[i] == 1 && buf[i].dev == ROOTDEV
    ensures Pins(buf, users, pins[i := 0], pending - {buf[i].blockno})
  {
    var pins', pending' := pins[i := 0], pending - {buf[i].blockno};
    forall x: nat | x in pending' ensures PinnedBlock(buf, pins', x) {
      assert PinnedBlock(buf, pins, x);
      var j :| 0 <= j < |pins| && pins[j] == 1 && Caches(buf, j, ROOTDEV, x);
      assert pins'[j] == 1;
    }
  }

  /** A pinned buffer is in use, so a read never recycles it. */
  lemma ReadKeepsPins(buf: seq<Buf>, i: nat, b: Buf, users: seq<int>, pins: seq<int>, pending: map<nat, Block>)
    requires Counted(buf, users, pins) && i < NBUF && b.valid
    requires buf[i].refcnt == 0 || Caches(buf, i, b.dev, b.blockno)
    ensures Pins(buf, users, pins, pending) && users[i] + 1 < UINT - 1
        ==> Pins(buf[i := b], users[i := users[i] + 1], pins, pending)
  {
    if Pins(buf, users, pins, pending) && users[i] + 1 < UINT - 1 {
      PinnedInUse(buf, users, pins, pending, i);
      KeepsPins(buf, i, b, users, users[i] + 1, pins, pending);
    }
  }

  class BCache {
    var buf: seq<Buf>
    var disk: Image

    // The order of use, the writes issued so far, the references handed out and the
    // pins taken, the buffers changed since their last log_write or bwrite, and the
    // blocks logged but not installed.
    ghost var ring: seq<nat>
    ghost var writes: seq<Write>
    ghost var users: seq<int>
    ghost var pins: seq<int>
    ghost var dirty: set<nat>
    ghost var pending: map<nat, Block>

    ghost predicate Valid()
      reads this
    {
      Links(buf, ring) && Complete(ring) && Unique(buf) && Counted(buf, users, pins)
    }

    lemma Sizes()
      requires Valid()
      ensures |buf| == NBUF + 1 && |users| == NBUF && |pins| == NBUF
    {}

    ghost predicate Content()
      reads this
    {
      Holds(buf, disk, pending, dirty)
    }

    lemma BlockInside(i: nat)
      requires Valid() && Content() && i < NBUF && buf[i].dev != 0
      ensures buf[i].blockno < |disk|
    {}

    ghost predicate Pinned()
      reads this
    {
      Pins(buf, users, pins, pending)
    }

    ghost predicate Coherent()
      reads this
    {
      Valid() && Content() && Pinned()
    }

    /** binit(): every buffer on the ring, none in use. */
    constructor (disk: Image)
      ensures Coherent() && this.disk == disk && writes == [] && pending == map[] && dirty == {}
      ensures users == seq(NBUF, i => 0) && pins == seq(NBUF, i => 0)
      ensures forall i :: 0 <= i < NBUF ==> Unused(buf, i) && buf[i].dev == 0
    {
      var b := seq(NBUF + 1, i => Buf(0, 0, false, 0, Zeros, HEAD, HEAD));
      ghost var r: seq<nat> := [];
      var i := 0;
      while i < NBUF
        invariant 0 <= i <= NBUF && Links(b, r) && |r| == i
        invariant forall j :: 0 <= j < NBUF ==> (j in r <==> j < i)
        invariant forall j :: 0 <= j <= NBUF ==> Payload(b[j]) == Buf(0, 0, false, 0, Zeros, 0, 0)
      {
        PushedLinks(b, r, i);
        b, r := Pushed(b, i), [i] + r;
        i := i + 1;
      }
      assert forall j :: 0 <= j < NBUF ==> Payload(b[j]).refcnt == 0 && Payload(b[j]).dev == 0;
      this.buf, ring, this.disk := b, r, disk;
      writes, dirty, pending := [], {}, map[];
      users, pins := seq(NBUF, j => 0), seq(NBUF, j => 0);
    }

    /** The forward scan of bget: is the block cached? */
    method Find(dev: nat, blockno: nat) returns (found: bool, i: nat)
      requires Valid()
      ensures found <==> Cached(buf, dev, blockno)
      ensures found ==> Caches(buf, i, dev, blockno)
    {
      i := buf[HEAD].next;
      ghost var k := 0;
      assert buf[At(ring, -1)].next == At(ring, 0);
      while i != HEAD
        invariant 0 <= k <= NBUF && i == At(ring, k)
        invariant forall j :: 0 <= j < k ==> !Caches(buf, ring[j], dev, blockno)
        decreases NBUF - k
      {
        if buf[i].dev == dev && buf[i].blockno == blockno {
          assert Caches(buf, i, dev, blockno);
          return true, i;
        }
        assert buf[At(ring, k)].next == At(ring, k + 1);
        i, k := buf[i].next, k + 1;
      }
      forall j | 0 <= j < NBUF ensures !Caches(buf, j, dev, blockno) { assert j in ring; }
      found := false;
    }

    /** The backward scan of bget: the least recently used unused buffer. */
    method FindUnused() returns (found: bool, i: nat)
      requires Valid()
      ensures found <==> SomeUnused(buf)
      ensures found ==> LeastRecent(buf, ring, i)
    {
      i := buf[HEAD].prev;
      ghost var k := NBUF - 1;
      assert buf[At(ring, NBUF)].prev == At(ring, NBUF - 1);
      while i != HEAD
        invariant -1 <= k < NBUF && i == At(ring, k)
        invariant forall j :: k < j < NBUF ==> !Unused(buf, ring[j])
        decreases k
      {
        if buf[i].refcnt == 0 {
          assert Unused(buf, i);
          return true, i;
        }
        assert buf[At(ring, k)].prev == At(ring, k - 1);
        i, k := buf[i].prev, k - 1;
      }
      forall j | 0 <= j < NBUF ensures !Unused(buf, j) { assert j in ring; }
      found := false;
    }

    /** bget(); !ok is the panic "bget: no buffers". */
    method Bget(dev: nat, blockno: nat) returns (ok: bool, i: nat)
      requires Valid()
      modifies this`buf, this`users
      ensures Valid()
      ensures ok <==> Cached(old(buf), dev, blockno) || SomeUnused(old(buf))
      ensures !ok ==> buf == old(buf) && users == old(users)
      ensures ok ==> i < NBUF && users == old(users)[i := old(users)[i] + 1]
      ensures ok && Cached(old(buf), dev, blockno) ==>
        Caches(old(buf), i, dev, blockno) && buf == old(buf)[i := Referenced(old(buf)[i])]
      ensures ok && !Cached(old(buf), dev, blockno) ==>
        LeastRecent(old(buf), ring, i) && buf == old(buf)[i := Recycled(old(buf)[i], dev, blockno)]
    {
      hide Links, Complete, Unique, Counted, Cached, SomeUnused, LeastRecent;
      ok, i := Find(dev, blockno);
      if ok {
        ReferencedKeeps(buf, ring, users, pins, i);
        buf := buf[i := Referenced(buf[i])];
        users := users[i := users[i] + 1];
        return;
      }
      ok, i := FindUnused();
      if ok {
        LeastIsUnused(buf, ring, i);
        RecycledKeeps(buf, ring, i, dev, blockno);
        RecycledCounted(buf, users, pins, i, dev, blockno);
        buf := buf[i := Recycled(buf[i], dev, blockno)];
        users := users[i := users[i] + 1];
      }
    }

    /** bread() of a block whose buffer nobody is changing. */
    method Bread(blockno: nat) returns (ok: bool, i: nat)
      requires Valid() && Content() && blockno < |disk| && Resident(buf, pending, blockno)
      requires forall j :: j in dirty ==> !Caches(buf, j, ROOTDEV, blockno)
      modifies this`buf, this`users
      ensures Valid() && Content()
      ensures ok <==> Cached(old(buf), ROOTDEV, blockno) || SomeUnused(old(buf))
      ensures !ok ==> buf == old(buf) && users == old(users)
      ensures ok ==> i !in dirty && Caches(buf, i, ROOTDEV, blockno) && users == old(users)[i := old(users)[i] + 1]
      ensures ok ==> buf[i].valid && buf[i].data == Logical(disk, pending, blockno)
      ensures ok ==> buf == old(buf)[i := buf[i]] && buf[i].refcnt == (old(buf)[i].refcnt + 1) % UINT
      ensures ok ==> if Cached(old(buf), ROOTDEV, blockno) then Caches(old(buf), i, ROOTDEV, blockno)
                     else LeastRecent(old(buf), ring, i)
      ensures old(Pinned()) && ok && old(users)[i] + 1 < UINT - 1 ==> Pinned()
    {
      ghost var buf0, users0 := buf, users;
      ok, i := Bget(ROOTDEV, blockno);
      if !ok {
        return;
      }
      ReadsLogical(buf0, i, disk, pending, dirty, blockno);
      if !buf[i].valid {
        FilledKeeps(buf, ring, users, pins, i, disk[blockno]);
        buf := buf[i := buf[i].(data := disk[blockno], valid := true)];
      }
      ReadKeepsHolds(buf0, i, buf[i], disk, pending, dirty);
      assert buf0[i := buf[i]] == buf;
      ReadKeepsPins(buf0, i, buf[i], users0, pins, pending);
    }

    /** A copy into the buffer's data, by the holder of the buffer. */
    method SetData(i: nat, data: Block)
      requires Valid() && Content() && i < NBUF && buf[i].dev != 0 && buf[i].valid && buf[i].refcnt != 0
      modifies this`buf, this`dirty
      ensures Valid() && Content()
      ensures buf == old(buf)[i := old(buf)[i].(data := data)] && dirty == old(dirty) + {i}
      ensures old(Pinned()) ==> Pinned()
    {
      if Pinned() {
        KeepsPins(buf, i, buf[i].(data := data), users, users[i], pins, pending);
        assert users[i := users[i]] == users;
      }
      FilledKeeps(buf, ring, users, pins, i, data);
      buf := buf[i := buf[i].(data := data)];
      dirty := dirty + {i};
    }

    /** bwrite(). A block of the pending transaction may only be written as logged. */
    method Bwrite(i: nat)
      requires Valid() && Content() && i < NBUF && buf[i].dev != 0 && buf[i].valid
      requires buf[i].blockno in pending ==> pending[buf[i].blockno] == buf[i].data
      modifies this`disk, this`writes, this`dirty
      ensures Valid() && Content()
      ensures buf[i].blockno < |old(disk)| && disk == old(disk)[buf[i].blockno := buf[i].data]
      ensures writes == old(writes) + [Write(buf[i].blockno, buf[i].data)] && dirty == old(dirty) - {i}
    {
      WriteKeepsHolds(buf, i, disk, pending, dirty);
      disk := disk[buf[i].blockno := buf[i].data];
      writes := writes + [Write(buf[i].blockno, buf[i].data)];
      dirty := dirty - {i};
    }

    /** brelse(): drop a reference; the last one moves the buffer to the front. */
    method Brelse(i: nat)
      requires Valid() && Content() && i < NBUF && i !in dirty
      modifies this`buf, this`ring, this`users
      ensures Valid() && Content()
      ensures users == old(users)[i := old(users)[i] - 1]
      ensures SamePayload(buf, old(buf)[i := Dereferenced(old(buf)[i])])
      ensures ring == if buf[i].refcnt == 0 then [i] + Removed(old(ring), i) else old(ring)
      ensures old(Pinned()) && old(users)[i] > 0 ==> Pinned()
    {
      Drop(i);
      if buf[i].refcnt == 0 {
        MoveToFront(i);
      }
    }

    method Drop(i: nat)
      requires Valid() && Content() && i < NBUF && i !in dirty
      modifies this`buf, this`users
      ensures Valid() && Content()
      ensures users == old(users)[i := old(users)[i] - 1]
      ensures buf == old(buf)[i := Dereferenced(old(buf)[i])]
      ensures old(Pinned()) && old(users)[i] > 0 ==> Pinned()
    {
      DroppedKeeps(buf, ring, users, pins, i, users[i] - 1, pins[i], Dereferenced(buf[i]));
      if Pinned() && users[i] > 0 {
        KeepsPins(buf, i, Dereferenced(buf[i]), users, users[i] - 1, pins, pending);
      }
      assert pins[i := pins[i]] == pins;
      DroppedHolds(buf, i, disk, pending, dirty);
      buf := buf[i := Dereferenced(buf[i])];
      users := users[i := users[i] - 1];
    }

    method MoveToFront(i: nat)
      requires Valid() && Content() && i < NBUF
      modifies this`buf, this`ring
      ensures Valid() && Content()
      ensures SamePayload(buf, old(buf)) && ring == [i] + Removed(old(ring), i)
      ensures old(Pinned()) ==> Pinned()
    {
      FrontLinks(buf, ring, i);
      RelinkedKeeps(buf, Pushed(Unlinked(buf, i), i), users, pins);
      RelinkedHolds(buf, Pushed(Unlinked(buf, i), i), disk, pending, dirty);
      if Pinned() {
        RelinkedPins(buf, Pushed(Unlinked(buf, i), i), users, pins, pending);
      }
      buf := Unlinked(buf, i);
      buf, ring := Pushed(buf, i), [i] + Removed(ring, i);
    }

    method Bpin(i: nat)
      requires Valid() && i < NBUF
      modifies this`buf, this`pins
      ensures Valid() && pins == old(pins)[i := old(pins)[i] + 1]
      ensures buf == old(buf)[i := Referenced(old(buf)[i])]
      ensures old(Content()) && buf[i].refcnt != 0 ==> Content()
    {
      DroppedKeeps(buf, ring, users, pins, i, users[i], pins[i] + 1, Referenced(buf[i]));
      buf := buf[i := Referenced(buf[i])];
      pins := pins[i := pins[i] + 1];
    }

    method Bunpin(i: nat)
      requires Valid() && i < NBUF
      modifies this`buf, this`pins
      ensures Valid() && pins == old(pins)[i := old(pins)[i] - 1]
      ensures buf == old(buf)[i := Dereferenced(old(buf)[i])]
      ensures old(Content()) && i !in dirty ==> Content()
    {
      DroppedKeeps(buf, ring, users, pins, i, users[i], pins[i] - 1, Dereferenced(buf[i]));
      buf := buf[i := Dereferenced(buf[i])];
      pins := pins[i := pins[i] - 1];
    }
  }
}
