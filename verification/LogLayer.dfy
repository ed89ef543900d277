/** kernel/log.c over the buffer cache: log_write, commit and recovery as the code
    does them, through bread, bwrite, bpin and brelse.

    Commit is proved to issue exactly the writes of DiskLog.CommitWrites with the
    data last given to log_write, recovery exactly DiskLog.RecoverWrites, so the
    crash theorems of DiskLog are theorems about this code. */
module LogLayer {
  import opened Common
  import opened Blocks
  import opened DiskLog
  import opened BufferCache
  import CacheRuns

  /** No reference is out and nothing is half changed. */
  ghost predicate Quiet(users: seq<int>, dirty: set<nat>)
  {
    |users| == NBUF && dirty == {} && forall i :: 0 <= i < NBUF ==> users[i] == 0
  }

  /** The references that are out are readers': nothing is half changed. */
  ghost predicate Calm(users: seq<int>, dirty: set<nat>)
  {
    |users| == NBUF && dirty == {} && forall i :: 0 <= i < NBUF ==> 0 <= users[i] < UINT - 3
  }

  /** Some buffer is neither held nor pinned. */
  ghost predicate Spare(users: seq<int>, pins: seq<int>)
  {
    |users| == NBUF == |pins| && exists i :: 0 <= i < NBUF && users[i] == 0 && pins[i] == 0
  }

  /** Some buffer carries no pin. */
  ghost predicate Roomy(pins: seq<int>) { |pins| == NBUF && exists i :: 0 <= i < NBUF && pins[i] == 0 }

  lemma SpareUnused(buf: seq<Buf>, users: seq<int>, pins: seq<int>)
    requires Counted(buf, users, pins) && Spare(users, pins)
    ensures SomeUnused(buf)
  {
    var i :| 0 <= i < NBUF && users[i] == 0 && pins[i] == 0;
    assert Unused(buf, i);
  }

  lemma FreshUnused(buf: seq<Buf>, users: seq<int>, pins: seq<int>)
    requires Counted(buf, users, pins) && forall i :: 0 <= i < NBUF ==> users[i] == 0 && pins[i] == 0
    ensures SomeUnused(buf)
  {
    assert users[0] == 0 && Unused(buf, 0);
  }

  /** Two reads can both find a buffer: one for a log block, one for the home. */
  ghost predicate CanPair(buf: seq<Buf>, home: nat)
  {
    exists i, j :: i != j && Unused(buf, i) && PairsWith(buf, j, home)
  }

  ghost predicate PairsWith(buf: seq<Buf>, j: int, home: nat)
  {
    Unused(buf, j) || (Caches(buf, j, ROOTDEV, home) && 0 < buf[j].refcnt)
  }

  /** A log block and its home can be read one after the other, the home staying. */
  ghost predicate Ready(buf: seq<Buf>, pending: map<nat, Block>, logb: nat, home: nat)
  {
    && CanPair(buf, home)
    && (forall k :: Caches(buf, k, ROOTDEV, logb) || Caches(buf, k, ROOTDEV, home) ==> buf[k].refcnt + 1 < UINT)
    && (home in pending ==> exists k :: Caches(buf, k, ROOTDEV, home) && buf[k].valid && buf[k].refcnt > 0)
  }

  /** The header block can be read. */
  ghost predicate HeadReady(buf: seq<Buf>, b: nat)
  {
    && (Cached(buf, ROOTDEV, b) || SomeUnused(buf))
    && (forall k :: Caches(buf, k, ROOTDEV, b) ==> buf[k].refcnt + 1 < UINT)
  }

  /** With a spare buffer every pinned home can be read beside its log block. */
  lemma CalmReady(buf: seq<Buf>, users: seq<int>, pins: seq<int>, pending: map<nat, Block>, dirty: set<nat>,
      logb: nat, home: nat)
    requires Counted(buf, users, pins) && Pins(buf, users, pins, pending) && Spare(users, pins) && home in pending
    requires Calm(users, dirty)
    ensures Ready(buf, pending, logb, home)
  {
    assert PinnedBlock(buf, pins, home);
    var j :| 0 <= j < |pins| && pins[j] == 1 && Caches(buf, j, ROOTDEV, home);
    var i :| 0 <= i < NBUF && users[i] == 0 && pins[i] == 0;
    PinnedInUse(buf, users, pins, pending, j);
    assert Unused(buf, i) && PairsWith(buf, j, home);
    forall k | 0 <= k < NBUF ensures buf[k].refcnt + 1 < UINT {
      PinnedInUse(buf, users, pins, pending, k);
    }
  }

  lemma CalmHeadReady(buf: seq<Buf>, users: seq<int>, pins: seq<int>, pending: map<nat, Block>, dirty: set<nat>, b: nat)
    requires Counted(buf, users, pins) && Pins(buf, users, pins, pending) && Spare(users, pins)
    requires Calm(users, dirty)
    ensures HeadReady(buf, b)
  {
    SpareUnused(buf, users, pins);
    forall k | 0 <= k < NBUF ensures buf[k].refcnt + 1 < UINT {
      PinnedInUse(buf, users, pins, pending, k);
    }
  }

  lemma StillResident(buf: seq<Buf>, pending: map<nat, Block>, k: nat, b: Buf, home: nat)
    requires k < NBUF && |buf| == NBUF + 1
    requires home in pending ==> exists k :: Caches(buf, k, ROOTDEV, home) && buf[k].valid && buf[k].refcnt > 0
    requires b.blockno != home && (Unused(buf, k) || Caches(buf, k, b.dev, b.blockno))
    ensures Resident(buf[k := b], pending, home)
  {
    if home in pending {
      var j :| Caches(buf, j, ROOTDEV, home) && buf[j].valid && buf[j].refcnt > 0;
      assert Caches(buf[k := b], j, ROOTDEV, home) && buf[k := b][j].valid;
    }
  }

  lemma StillPairs(buf: seq<Buf>, k: nat, b: Buf, home: nat)
    requires CanPair(buf, home) && k < NBUF && |buf| == NBUF + 1
    requires b.blockno != home && (Unused(buf, k) || Caches(buf, k, b.dev, b.blockno))
    ensures Cached(buf[k := b], ROOTDEV, home) || SomeUnused(buf[k := b])
  {
    var i, j :| i != j && Unused(buf, i) && PairsWith(buf, j, home);
    if k != i {
      assert Unused(buf[k := b], i);
    } else if Unused(buf, j) {
      assert Unused(buf[k := b], j);
    } else {
      assert Caches(buf[k := b], j, ROOTDEV, home);
    }
  }

  lemma ReleasedBoth(a: seq<Buf>, b: seq<Buf>, c: seq<Buf>, i: nat, j: nat)
    requires i < NBUF && j < NBUF && i != j && |a| == NBUF + 1
    requires SamePayload(b, a[i := Dereferenced(a[i])])
    requires |b| == NBUF + 1 && SamePayload(c, b[j := Dereferenced(b[j])])
    ensures SamePayload(c, a[i := Dereferenced(a[i])][j := Dereferenced(a[j])])
  {
    var a' := a[i := Dereferenced(a[i])];
    assert Payload(b[j]) == Payload(a'[j]);
    forall k | 0 <= k < |a|
      ensures Payload(c[k]) == Payload(a'[j := Dereferenced(a[j])][k])
    {
      assert Payload(c[k]) == Payload(b[j := Dereferenced(b[j])][k]);
      assert Payload(b[k]) == Payload(a'[k]);
    }
  }

  /** A block whose logged data is on disk may leave the overlay. */
  lemma ForgottenHolds(buf: seq<Buf>, disk: Image, pending: map<nat, Block>, dirty: set<nat>, b: nat)
    requires Holds(buf, disk, pending, dirty) && b < |disk| && (b in pending ==> pending[b] == disk[b])
    ensures Holds(buf, disk, pending - {b}, dirty)
  {}

  lemma UnpinnedPins(buf: seq<Buf>, i: nat, users: seq<int>, pins: seq<int>, pending: map<nat, Block>)
    requires Pins(buf, users, pins, pending) && Unique(buf) && i < NBUF
    requires buf[i].dev == ROOTDEV && buf[i].blockno in pending
    ensures pins[i] == 1
    ensures Pins(buf[i := Dereferenced(buf[i])], users, pins[i := 0], pending - {buf[i].blockno})
  {
    assert PinnedBlock(buf, pins, buf[i].blockno);
    InstalledPins(buf, i, users, pins, pending);
    KeepsPins(buf, i, Dereferenced(buf[i]), users, users[i], pins[i := 0], pending - {buf[i].blockno});
    assert users[i := users[i]] == users;
  }

  /** The next installed write is the next one of the sequence. */
  lemma InstallStep(l: Layout, d0: Image, homes: seq<nat>, t: nat, d: Image)
    requires l.Fits(d0) && ValidHomes(l, d0, homes) && t < |homes|
    requires d == Apply(d0, InstallWrites(l, d0, homes)[..t])
    ensures var ws := InstallWrites(l, d0, homes);
      && d[l.start + 1 + t] == d0[l.start + 1 + t] && ws[t] == Write(homes[t], d0[l.start + 1 + t])
      && ws[..t + 1] == ws[..t] + [ws[t]]
      && Apply(d0, ws[..t + 1]) == d[homes[t] := d0[l.start + 1 + t]]
  {
    var ws := InstallWrites(l, d0, homes);
    InstallKeepsLog(l, d0, homes, t);
    ApplySnoc(d0, ws[..t], ws[t]);
    assert ws[..t + 1] == ws[..t] + [ws[t]];
  }

  lemma LogStep(l: Layout, d0: Image, data: seq<Block>, t: nat)
    requires l.Fits(d0) && t < |data| < l.size
    ensures var ws := LogWrites(l, data);
      && WritesFit(d0, ws) && ws[t] == Write(l.start + 1 + t, data[t])
      && ws[..t + 1] == ws[..t] + [ws[t]]
      && Apply(d0, ws[..t + 1]) == Apply(d0, ws[..t])[l.start + 1 + t := data[t]]
  {
    var ws := LogWrites(l, data);
    ApplySnoc(d0, ws[..t], ws[t]);
    assert ws[..t + 1] == ws[..t] + [ws[t]];
  }

  lemma RemovedFromTail(block: seq<nat>, t: nat, keys: set<nat>)
    requires NoDuplicates(block) && t < |block| && forall b :: b in keys <==> b in block[t..]
    ensures forall b :: b in keys - {block[t]} <==> b in block[t + 1..]
  {
    assert block[t..] == [block[t]] + block[t + 1..];
    assert block[t] !in block[t + 1..];
  }

  /** After write_log() and write_head() the disk is that of a commit cut there. */
  lemma CommitMiddle(l: Layout, d0: Image, homes: seq<nat>, data: seq<Block>, d1: Image, d2: Image)
    requires EmptyLog(l, d0) && ValidHomes(l, d0, homes) && |data| == |homes|
    requires WritesFit(d0, LogWrites(l, data)) && d1 == Apply(d0, LogWrites(l, data))
    requires d2 == d1[l.start := WithHeader(d1[l.start], homes)]
    ensures d2 == CutCommit(l, d0, homes, data, |homes| + 1) && d1[l.start] == d0[l.start]
    ensures l.Fits(d2) && ValidHomes(l, d2, homes) && InstallWrites(l, d2, homes) == HomeWrites(homes, data)
    ensures forall k :: 0 <= k < |homes| ==> d2[l.start + 1 + k] == data[k]
  {
    hide DiskLog.WithHeader, DiskLog.Listed;
    ApplyElsewhere(d0, LogWrites(l, data), l.start);
    CommitPrefix(l, d0, homes, data);
    ApplySnoc(d0, LogWrites(l, data), Write(l.start, WithHeader(d0[l.start], homes)));
    AtHeader(l, d0, homes, data);
    forall k | 0 <= k < |homes| ensures d2[l.start + 1 + k] == data[k] {
      assert InstallWrites(l, d2, homes)[k] == HomeWrites(homes, data)[k];
    }
  }

  /** Installing and erasing from there completes the commit. */
  lemma CommitEnd(l: Layout, d0: Image, homes: seq<nat>, data: seq<Block>, d2: Image, d3: Image, d4: Image)
    requires EmptyLog(l, d0) && ValidHomes(l, d0, homes) && |data| == |homes|
    requires d2 == CutCommit(l, d0, homes, data, |homes| + 1)
    requires WritesFit(d2, HomeWrites(homes, data)) && d3 == Apply(d2, HomeWrites(homes, data))
    requires d4 == d3[l.start := WithHeader(d3[l.start], [])]
    ensures d3[l.start] == WithHeader(d0[l.start], homes)
    ensures d4 == Apply(d0, CommitWrites(l, d0, homes, data))
  {
    hide DiskLog.WithHeader, DiskLog.Listed;
    var all := CommitWrites(l, d0, homes, data);
    AtHeader(l, d0, homes, data);
    ApplyElsewhere(d2, HomeWrites(homes, data), l.start);
    AfterHeader(l, d0, homes, data, |all|);
    assert all[..|all|] == all;
    assert RecoverWrites(l, d2)[..|all| - |homes| - 1] == RecoverWrites(l, d2);
    ApplySnoc(d2, HomeWrites(homes, data), Write(l.start, WithHeader(d2[l.start], [])));
  }

  ghost function Numbers(buf: seq<Buf>, n: nat): (s: set<nat>)
    requires n <= |buf|
  {
    set i | 0 <= i < n :: buf[i].blockno
  }

  lemma {:induction false} NumbersCount(buf: seq<Buf>, n: nat)
    requires n <= NBUF && Unique(buf) && forall i :: 0 <= i < n ==> buf[i].dev == ROOTDEV
    ensures |Numbers(buf, n)| == n
  {
    if n > 0 {
      NumbersCount(buf, n - 1);
      assert Numbers(buf, n) == Numbers(buf, n - 1) + {buf[n - 1].blockno};
      assert buf[n - 1].blockno !in Numbers(buf, n - 1);
    }
  }

  ghost function Elements(s: seq<nat>): (e: set<nat>) { set x | x in s }

  lemma {:induction false} ElementsCount(s: seq<nat>)
    ensures |Elements(s)| <= |s|
  {
    if s != [] {
      ElementsCount(s[1..]);
      assert Elements(s) == Elements(s[1..]) + {s[0]};
    }
  }

  lemma {:induction false} ElementsExact(s: seq<nat>)
    requires NoDuplicates(s)
    ensures |Elements(s)| == |s|
  {
    if s != [] {
      ElementsExact(s[1..]);
      assert s[0] !in s[1..];
      assert Elements(s) == Elements(s[1..]) + {s[0]};
    }
  }

  ghost function PinnedNumbers(buf: seq<Buf>, pins: seq<int>, n: nat): (s: set<nat>)
    requires n <= |buf| && n <= |pins|
  {
    set i | 0 <= i < n && pins[i] == 1 :: buf[i].blockno
  }

  /** Buffers that are not pinned give no number. */
  lemma {:induction false} PinnedNumbersCount(buf: seq<Buf>, pins: seq<int>, n: nat, j: nat)
    requires n <= |buf| && n <= |pins| && j < |pins| && pins[j] == 0
    ensures |PinnedNumbers(buf, pins, n)| <= if j < n then n - 1 else n
  {
    if n > 0 {
      PinnedNumbersCount(buf, pins, n - 1, j);
      PinnedNumbersNext(buf, pins, n);
      hide PinnedNumbers;
    }
  }

  lemma PinnedNumbersNext(buf: seq<Buf>, pins: seq<int>, n: nat)
    requires 0 < n <= |buf| && n <= |pins|
    ensures var a, b := PinnedNumbers(buf, pins, n), PinnedNumbers(buf, pins, n - 1);
      |a| <= |b| + (if pins[n - 1] == 1 then 1 else 0)
  {
    var a, b := PinnedNumbers(buf, pins, n), PinnedNumbers(buf, pins, n - 1);
    if pins[n - 1] == 1 {
      assert a == b + {buf[n - 1].blockno};
    } else {
      assert a == b;
    }
  }

  /** A log as long as the buffer cache pins every buffer. */
  lemma FullLogPinsAll(buf: seq<Buf>, users: seq<int>, pins: seq<int>, pending: map<nat, Block>, block: seq<nat>)
    requires Pins(buf, users, pins, pending) && NoDuplicates(block) && |block| >= NBUF
      && forall b :: b in block ==> b in pending
    ensures !Roomy(pins)
  {
    forall j: nat | j < NBUF ensures pins[j] != 0 {
      if pins[j] == 0 {
        PinnedNumbersCount(buf, pins, NBUF, j);
        ElementsExact(block);
        forall b | b in Elements(block) ensures b in PinnedNumbers(buf, pins, NBUF) {
          assert PinnedBlock(buf, pins, b);
        }
        SubsetSize(Elements(block), PinnedNumbers(buf, pins, NBUF));
        assert false;
      }
    }
  }

  /** While fewer blocks are logged than there are buffers, some buffer is not pinned. */
  lemma CapacityLeavesRoom(buf: seq<Buf>, users: seq<int>, pins: seq<int>, pending: map<nat, Block>, block: seq<nat>)
    requires Pins(buf, users, pins, pending) && Unique(buf)
    requires (forall b :: b in pending ==> b in block) && |block| < NBUF
    ensures Roomy(pins)
  {
    if !Roomy(pins) {
      assert forall i :: 0 <= i < NBUF ==> pins[i] == 1 && buf[i].dev == ROOTDEV && buf[i].blockno in block;
      NumbersCount(buf, NBUF);
      ElementsCount(block);
      SubsetSize(Numbers(buf, NBUF), Elements(block));
      assert false;
    }
  }

  lemma FreshUnpinned(buf: seq<Buf>, i: nat, users: seq<int>, pins: seq<int>, pending: map<nat, Block>)
    requires Pins(buf, users, pins, pending) && i < NBUF && buf[i].blockno !in pending
    ensures pins[i] == 0
  {}

  lemma AlreadyPinned(buf: seq<Buf>, i: nat, users: seq<int>, pins: seq<int>, pending: map<nat, Block>)
    requires Pins(buf, users, pins, pending) && Unique(buf) && i < NBUF && buf[i].dev == ROOTDEV
    requires buf[i].blockno in pending
    ensures pins[i] == 1
  {
    assert PinnedBlock(buf, pins, buf[i].blockno);
  }

  lemma RepinnedPins(buf: seq<Buf>, i: nat, users: seq<int>, pins: seq<int>, pending: map<nat, Block>)
    requires Pins(buf, users, pins, pending) && i < NBUF
    ensures Pins(buf[i := Referenced(buf[i])], users, pins, pending)
  {
    KeepsPins(buf, i, Referenced(buf[i]), users, users[i], pins, pending);
    assert users[i := users[i]] == users;
  }

  /** With fewer than NBUF - 1 buffers spoken for, two are left. */
  lemma TwoOutside(s: set<nat>) returns (i: nat, j: nat)
    requires |s| < NBUF - 1 && forall x :: x in s ==> x < NBUF
    ensures i < NBUF && j < NBUF && i != j && i !in s && j !in s
  {
    i := OneOutside(s);
    j := OneOutside(s + {i});
  }

  lemma OneOutside(s: set<nat>) returns (i: nat)
    requires |s| < NBUF && forall x :: x in s ==> x < NBUF
    ensures i < NBUF && i !in s
  {
    var all := UpTo(NBUF);
    if forall x :: 0 <= x < NBUF ==> x in s {
      SubsetSize(all, s);
      assert false;
    }
    i :| 0 <= i < NBUF && i !in s;
  }

  ghost function UpTo(n: nat): (s: set<nat>)
    ensures |s| == n && forall x: nat :: x in s <==> x < n
  {
    if n == 0 then {} else UpTo(n - 1) + {n - 1}
  }

  /** n buffers gave back a pin they never had. */
  ghost predicate Spent(pins: seq<int>, n: nat, stuck: set<nat>)
  {
    && |stuck| == n && |pins| == NBUF
    && (forall i :: i in stuck ==> i < NBUF)
    && (forall i :: 0 <= i < NBUF ==> pins[i] == if i in stuck then -1 else 0)
  }

  /** Recovery's bookkeeping once the homes are installed: theirs are those buffers. */
  ghost predicate Overdrawn(buf: seq<Buf>, pins: seq<int>, homes: seq<nat>, stuck: set<nat>)
  {
    && Spent(pins, |homes|, stuck) && |buf| == NBUF + 1
    && (forall i :: i in stuck ==> buf[i].dev == ROOTDEV && buf[i].blockno in homes)
  }

  lemma SpentCounts(buf: seq<Buf>, users: seq<int>, pins: seq<int>, n: nat, stuck: set<nat>)
    requires Spent(pins, n, stuck) && Counted(buf, users, pins)
    requires forall i :: 0 <= i < NBUF ==> users[i] == 0
    ensures |buf| == NBUF + 1 && forall i :: 0 <= i < NBUF ==> buf[i].refcnt == if i in stuck then UINT - 1 else 0
  {}

  lemma OverdrawnReady(l: Layout, buf: seq<Buf>, users: seq<int>, pins: seq<int>, block: seq<nat>, t: nat,
      stuck: set<nat>)
    requires t < |block| < NBUF && Overdrawn(buf, pins, block[..t], stuck) && Counted(buf, users, pins)
    requires forall i :: 0 <= i < NBUF ==> users[i] == 0
    requires NoDuplicates(block) && |block| < l.size && forall k :: 0 <= k < |block| ==> !l.InLog(block[k])
    ensures Ready(buf, map[], l.start + 1 + t, block[t])
  {
    var i, j := TwoOutside(stuck);
    SpentCounts(buf, users, pins, t, stuck);
    assert Unused(buf, i) && PairsWith(buf, j, block[t]);
    forall k | Caches(buf, k, ROOTDEV, l.start + 1 + t) || Caches(buf, k, ROOTDEV, block[t])
      ensures buf[k].refcnt + 1 < UINT
    {
      assert block[t] !in block[..t];
      assert k !in stuck;
    }
  }

  lemma OverdrawnNext(buf: seq<Buf>, pins: seq<int>, buf': seq<Buf>, pins': seq<int>, block: seq<nat>, t: nat,
      stuck: set<nat>, j: nat)
    requires t < |block| && NoDuplicates(block) && Overdrawn(buf, pins, block[..t], stuck) && j < NBUF
    requires pins' == pins[j := pins[j] - 1] && |buf'| == NBUF + 1
    requires buf'[j].dev == ROOTDEV && buf'[j].blockno == block[t]
    requires forall k :: k in stuck ==> buf'[k].dev == buf[k].dev && buf'[k].blockno == buf[k].blockno
    ensures Overdrawn(buf', pins', block[..t + 1], stuck + {j})
  {
    assert block[t] !in block[..t] && block[..t + 1] == block[..t] + [block[t]];
    assert j !in stuck;
  }

  lemma EraseReady(buf: seq<Buf>, users: seq<int>, pins: seq<int>, block: seq<nat>, start: nat, stuck: set<nat>)
    requires |block| < NBUF && Overdrawn(buf, pins, block, stuck) && Counted(buf, users, pins)
    requires forall i :: 0 <= i < NBUF ==> users[i] == 0
    requires forall k :: 0 <= k < |block| ==> block[k] != start
    ensures HeadReady(buf, start)
  {
    var i := OneOutside(stuck);
    SpentCounts(buf, users, pins, |block|, stuck);
    assert Unused(buf, i);
  }

  lemma ReplayedThenErased(l: Layout, d0: Image, homes: seq<nat>, d1: Image)
    requires Readable(l, d0) && homes == Listed(d0[l.start]) && d1 == Apply(d0, InstallWrites(l, d0, homes))
    ensures d1[l.start] == d0[l.start]
    ensures d1[l.start := WithHeader(d1[l.start], [])] == Apply(d0, RecoverWrites(l, d0))
    ensures RecoverWrites(l, d0) == InstallWrites(l, d0, homes) + [Write(l.start, WithHeader(d1[l.start], []))]
  {
    hide DiskLog.WithHeader;
    var ws := InstallWrites(l, d0, homes);
    assert ws[..|homes|] == ws;
    InstallKeepsLog(l, d0, homes, |homes|);
    ApplySnoc(d0, ws, Write(l.start, WithHeader(d0[l.start], [])));
  }

  /** A new block joins the header. */
  lemma HomesMore(l: Layout, d: Image, block: seq<nat>, b: nat)
    requires ValidHomes(l, d, block) && NoDuplicates(block) && b !in block
    requires b < |d| && !l.InLog(b) && |block| < LOGSIZE && |block| < l.size - 1
    ensures ValidHomes(l, d, block + [b]) && NoDuplicates(block + [b])
  {}

  class Log {
    const l: Layout
    const bc: BCache
    var block: seq<nat>       // lh.block[0 .. lh.n)
    var outstanding: int
    var committing: bool

    /** What holds between operations: the cache is coherent, the header in memory
        lists the pending blocks once each, the header on disk is empty. */
    ghost predicate Inv()
      reads this, bc
    {
      && bc.Coherent() && EmptyLog(l, bc.disk)
      && ValidHomes(l, bc.disk, block) && NoDuplicates(block)
      && (forall k :: 0 <= k < |block| ==> block[k] in bc.pending)
      && (forall b :: b in bc.pending ==> b in block)
    }

    constructor (l: Layout, bc: BCache)
      ensures this.l == l && this.bc == bc && block == [] && outstanding == 0 && !committing
    {
      this.l, this.bc := l, bc;
      block, outstanding, committing := [], 0, false;
    }

    /** Commit can get a buffer exactly while the log is not full: LOGSIZE is the number of
        buffers, and each logged block holds one. */
    lemma RoomExactly()
      requires Inv()
      ensures Roomy(bc.pins) <==> |block| < LOGSIZE
    {
      if |block| < LOGSIZE {
        CapacityLeavesRoom(bc.buf, bc.users, bc.pins, bc.pending, block);
      } else {
        FullLogPinsAll(bc.buf, bc.users, bc.pins, bc.pending, block);
      }
    }

    /** bread() where the block or a free buffer is at hand. */
    method ReadOne(b: nat) returns (i: nat)
      requires bc.Valid() && bc.Content() && bc.dirty == {} && b < |bc.disk| && Resident(bc.buf, bc.pending, b)
      requires Cached(bc.buf, ROOTDEV, b) || SomeUnused(bc.buf)
      modifies bc`buf, bc`users
      ensures bc.Valid() && bc.Content()
      ensures i < NBUF && bc.users == old(bc.users)[i := old(bc.users)[i] + 1]
      ensures bc.buf == old(bc.buf)[i := bc.buf[i]]
      ensures bc.buf[i].dev == ROOTDEV && bc.buf[i].blockno == b && bc.buf[i].valid
      ensures bc.buf[i].data == Logical(bc.disk, bc.pending, b)
      ensures if Cached(old(bc.buf), ROOTDEV, b) then Caches(old(bc.buf), i, ROOTDEV, b) else Unused(old(bc.buf), i)
      ensures bc.buf[i].refcnt == (old(bc.buf)[i].refcnt + 1) % UINT
      ensures old(bc.Pinned()) && old(bc.users)[i] + 1 < UINT - 1 ==> bc.Pinned()
    {
      var ok;
      ok, i := bc.Bread(b);
    }

    /** Reads a log block and its home. */
    method ReadPair(logb: nat, home: nat) returns (i: nat, j: nat)
      requires bc.Valid() && bc.Content() && Calm(bc.users, bc.dirty)
      requires logb < |bc.disk| && home < |bc.disk| && logb != home && logb !in bc.pending
      requires Ready(bc.buf, bc.pending, logb, home)
      modifies bc`buf, bc`users
      ensures bc.Valid() && bc.Content()
      ensures i < NBUF && j < NBUF && i != j && |old(bc.users)| == NBUF
      ensures bc.users == old(bc.users)[i := old(bc.users)[i] + 1][j := old(bc.users)[j] + 1]
      ensures bc.buf == old(bc.buf)[i := bc.buf[i]][j := bc.buf[j]]
      ensures bc.buf[i].dev == ROOTDEV && bc.buf[i].blockno == logb && bc.buf[i].valid
      ensures bc.buf[j].dev == ROOTDEV && bc.buf[j].blockno == home && bc.buf[j].valid
      ensures bc.buf[i].refcnt != 0 && bc.buf[j].refcnt != 0
      ensures bc.buf[i].data == bc.disk[logb] && bc.buf[j].data == Logical(bc.disk, bc.pending, home)
      ensures Unused(old(bc.buf), i) || Caches(old(bc.buf), i, ROOTDEV, logb)
      ensures Unused(old(bc.buf), j) || Caches(old(bc.buf), j, ROOTDEV, home)
      ensures old(bc.Pinned()) ==> bc.Pinned()
    {
      hide BufferCache.Pins, BufferCache.Links, BufferCache.Unique, BufferCache.Counted;
      assert SomeUnused(bc.buf);
      i := ReadOne(logb);
      StillPairs(old(bc.buf), i, bc.buf[i], home);
      StillResident(old(bc.buf), bc.pending, i, bc.buf[i], home);
      j := ReadOne(home);
    }

    /** brelse() of two buffers. */
    method ReleasePair(i: nat, j: nat)
      requires bc.Valid() && bc.Content() && bc.dirty == {} && i < NBUF && j < NBUF && i != j
      requires bc.users[i] >= 1 && bc.users[j] >= 1
      modifies bc`buf, bc`users, bc`ring
      ensures bc.Valid() && bc.Content() && |old(bc.users)| == NBUF
      ensures bc.users == old(bc.users)[i := old(bc.users)[i] - 1][j := old(bc.users)[j] - 1]
      ensures SamePayload(bc.buf, old(bc.buf)[i := Dereferenced(old(bc.buf)[i])][j := Dereferenced(old(bc.buf)[j])])
      ensures old(bc.Pinned()) ==> bc.Pinned()
    {
      hide BufferCache.Pins, BufferCache.Links, BufferCache.Unique, BufferCache.Counted, BufferCache.Holds,
        BufferCache.Complete, SamePayload, BCache.Content;
      bc.Sizes();
      bc.Brelse(i);
      bc.Sizes();
      ghost var buf1 := bc.buf;
      bc.Brelse(j);
      ReleasedBoth(old(bc.buf), buf1, bc.buf, i, j);
    }

    /** One turn of the loop in write_log(). */
    method LogOne(t: nat)
      requires bc.Coherent() && Calm(bc.users, bc.dirty) && l.Fits(bc.disk)
      requires t < |block| < l.size && block[t] in bc.pending && Ready(bc.buf, bc.pending, l.start + 1 + t, block[t])
      requires forall b :: b in bc.pending ==> !l.InLog(b)
      modifies bc`buf, bc`users, bc`dirty, bc`disk, bc`writes, bc`ring
      ensures bc.Coherent() && bc.users == old(bc.users) && bc.dirty == {}
      ensures bc.disk == old(bc.disk)[l.start + 1 + t := bc.pending[block[t]]]
      ensures bc.writes == old(bc.writes) + [Write(l.start + 1 + t, bc.pending[block[t]])]
    {
      hide BufferCache.Pins, BufferCache.Links, BufferCache.Unique, BufferCache.Counted, CanPair;
      var to, from := ReadPair(l.start + 1 + t, block[t]);
      bc.SetData(to, bc.buf[from].data);
      bc.Bwrite(to);
      ReleasePair(from, to);
      assert bc.users == old(bc.users);
    }

    /** write_log() after t turns, started on disk d0 with w0 written. */
    ghost predicate Logging(t: nat, d0: Image, data: seq<Block>, w0: seq<Write>, users0: seq<int>)
      requires l.Fits(d0) && |data| < l.size
      reads bc
    {
      && bc.Coherent() && Calm(bc.users, bc.dirty) && Spare(bc.users, bc.pins) && bc.users == users0
      && WritesFit(d0, LogWrites(l, data)) && t <= |data|
      && bc.disk == Apply(d0, LogWrites(l, data)[..t])
      && bc.writes == w0 + LogWrites(l, data)[..t]
    }

    method LogNext(t: nat, ghost d0: Image, ghost data: seq<Block>, ghost w0: seq<Write>, ghost users0: seq<int>)
      requires l.Fits(d0) && t < |data| == |block| < l.size && Logging(t, d0, data, w0, users0)
      requires forall b :: b in bc.pending ==> !l.InLog(b)
      requires block[t] in bc.pending && bc.pending[block[t]] == data[t]
      modifies bc`buf, bc`users, bc`dirty, bc`disk, bc`writes, bc`ring
      ensures Logging(t + 1, d0, data, w0, users0)
    {
      hide BufferCache.Pins, BufferCache.Links, BufferCache.Unique, BufferCache.Counted, BufferCache.Holds, Ready,
        DiskLog.Apply, DiskLog.LogWrites;
      CalmReady(bc.buf, bc.users, bc.pins, bc.pending, bc.dirty, l.start + 1 + t, block[t]);
      LogStep(l, d0, data, t);
      LogOne(t);
    }

    /** write_log(): the pending blocks go to the log, in header order. */
    method WriteLog()
      requires Inv() && Calm(bc.users, bc.dirty) && Spare(bc.users, bc.pins)
      modifies bc`buf, bc`users, bc`dirty, bc`disk, bc`writes, bc`ring
      ensures bc.Coherent() && bc.users == old(bc.users) && bc.dirty == {}
      ensures WritesFit(old(bc.disk), LogWrites(l, DataOf(block, bc.pending)))
      ensures bc.writes == old(bc.writes) + LogWrites(l, DataOf(block, bc.pending))
      ensures bc.disk == Apply(old(bc.disk), LogWrites(l, DataOf(block, bc.pending)))
    {
      hide BufferCache.Pins, BufferCache.Links, BufferCache.Unique, BufferCache.Counted, BufferCache.Holds,
        DiskLog.Apply, DiskLog.LogWrites, NoDuplicates, Spare;
      AfterLog(l, bc.disk, DataOf(block, bc.pending));
      ghost var data, d0, w0 := DataOf(block, bc.pending), bc.disk, bc.writes;
      EmptyApply(d0);
      var t := 0;
      assert LogWrites(l, data)[..0] == [];
      while t < |block|
        invariant 0 <= t <= |block| && Logging(t, d0, data, w0, old(bc.users))
      {
        LogNext(t, d0, data, w0, old(bc.users));
        t := t + 1;
      }
      assert LogWrites(l, data)[..|block|] == LogWrites(l, data);
    }

    /** The stores of write_head() into the header block. */
    method StoreHeader(h: Block) returns (h': Block)
      requires WordsFit(block)
      ensures h' == WithHeader(h, block)
    {
      h' := SetWord(h, 0, |block|);
      var k := 0;
      while k < |block|
        invariant 0 <= k <= |block| && h' == Stored(h, block, k)
      {
        h' := SetWord(h', 1 + k, block[k]);
        k := k + 1;
      }
    }

    /** write_head(): the header in memory goes to the header block. */
    method WriteHead()
      requires bc.Valid() && bc.Content() && Calm(bc.users, bc.dirty) && l.Fits(bc.disk) && WordsFit(block)
      requires l.start !in bc.pending && HeadReady(bc.buf, l.start)
      modifies bc`buf, bc`users, bc`dirty, bc`disk, bc`writes, bc`ring
      ensures bc.Valid() && bc.Content() && bc.users == old(bc.users) && bc.dirty == {}
      ensures bc.disk == old(bc.disk)[l.start := WithHeader(old(bc.disk)[l.start], block)]
      ensures bc.writes == old(bc.writes) + [Write(l.start, WithHeader(old(bc.disk)[l.start], block))]
      ensures |bc.buf| == NBUF + 1 && forall k :: 0 <= k < NBUF && old(bc.buf)[k].refcnt != 0 ==>
        bc.buf[k].dev == old(bc.buf)[k].dev && bc.buf[k].blockno == old(bc.buf)[k].blockno
      ensures old(bc.Pinned()) ==> bc.Pinned()
    {
      hide BufferCache.Pins, BufferCache.Links, BufferCache.Unique, BufferCache.Counted, DiskLog.WithHeader;
      var i := ReadOne(l.start);
      var h := StoreHeader(bc.buf[i].data);
      bc.SetData(i, h);
      bc.Bwrite(i);
      ghost var buf1 := bc.buf;
      bc.Brelse(i);
      SameFields(bc.buf, buf1[i := Dereferenced(buf1[i])]);
      assert bc.users == old(bc.users);
    }

    /** bunpin() of a block that has just been written home. */
    method UnpinInstalled(i: nat)
      requires bc.Valid() && bc.Content() && bc.dirty == {} && i < NBUF
      requires bc.buf[i].dev == ROOTDEV && bc.buf[i].valid && bc.buf[i].blockno < |bc.disk|
      requires bc.buf[i].blockno in bc.pending ==> bc.pending[bc.buf[i].blockno] == bc.disk[bc.buf[i].blockno]
      modifies bc`buf, bc`pins, bc`pending
      ensures bc.Valid() && bc.Content()
      ensures bc.pins == old(bc.pins)[i := old(bc.pins)[i] - 1]
      ensures bc.pending == old(bc.pending) - {old(bc.buf)[i].blockno}
      ensures bc.buf == old(bc.buf)[i := Dereferenced(old(bc.buf)[i])]
      ensures old(bc.Pinned()) && old(bc.buf)[i].blockno in old(bc.pending) ==> bc.Pinned() && old(bc.pins)[i] == 1
    {
      if bc.Pinned() && bc.buf[i].blockno in bc.pending {
        UnpinnedPins(bc.buf, i, bc.users, bc.pins, bc.pending);
      }
      bc.Bunpin(i);
      ForgottenHolds(bc.buf, bc.disk, bc.pending, bc.dirty, bc.buf[i].blockno);
      bc.pending := bc.pending - {bc.buf[i].blockno};
    }

    /** The block is read from the log and its home, and written home. */
    method CopyHome(t: nat) returns (lb: nat, db: nat)
      requires bc.Valid() && bc.Content() && Calm(bc.users, bc.dirty) && l.Fits(bc.disk)
      requires t < |block| < l.size && block[t] < |bc.disk| && !l.InLog(block[t]) && l.start + 1 + t !in bc.pending
      requires block[t] in bc.pending ==> bc.pending[block[t]] == bc.disk[l.start + 1 + t]
      requires Ready(bc.buf, bc.pending, l.start + 1 + t, block[t])
      modifies bc`buf, bc`users, bc`dirty, bc`disk, bc`writes
      ensures bc.Valid() && bc.Content() && bc.dirty == {}
      ensures lb < NBUF && db < NBUF && lb != db && |old(bc.users)| == NBUF && |bc.buf| == NBUF + 1
      ensures bc.users == old(bc.users)[lb := old(bc.users)[lb] + 1][db := old(bc.users)[db] + 1]
      ensures bc.disk == old(bc.disk)[block[t] := old(bc.disk)[l.start + 1 + t]]
      ensures bc.writes == old(bc.writes) + [Write(block[t], old(bc.disk)[l.start + 1 + t])]
      ensures bc.buf[db].dev == ROOTDEV && bc.buf[db].blockno == block[t] && bc.buf[db].valid
      ensures forall k :: 0 <= k < NBUF && old(bc.buf)[k].refcnt != 0 ==>
        bc.buf[k].dev == old(bc.buf)[k].dev && bc.buf[k].blockno == old(bc.buf)[k].blockno
      ensures old(bc.Pinned()) ==> bc.Pinned()
    {
      hide BufferCache.Pins, BufferCache.Links, BufferCache.Unique, BufferCache.Counted, CanPair;
      lb, db := ReadPair(l.start + 1 + t, block[t]);
      bc.SetData(db, bc.buf[lb].data);
      bc.Bwrite(db);
    }

    /** One turn of the loop in install_trans(). */
    method InstallOne(t: nat) returns (ghost j: nat)
      requires bc.Valid() && bc.Content() && Calm(bc.users, bc.dirty) && l.Fits(bc.disk)
      requires t < |block| < l.size && block[t] < |bc.disk| && !l.InLog(block[t]) && l.start + 1 + t !in bc.pending
      requires block[t] in bc.pending ==> bc.pending[block[t]] == bc.disk[l.start + 1 + t]
      requires Ready(bc.buf, bc.pending, l.start + 1 + t, block[t])
      modifies bc`buf, bc`users, bc`dirty, bc`disk, bc`writes, bc`ring, bc`pins, bc`pending
      ensures bc.Valid() && bc.Content() && bc.users == old(bc.users) && bc.dirty == {}
      ensures bc.disk == old(bc.disk)[block[t] := old(bc.disk)[l.start + 1 + t]]
      ensures bc.writes == old(bc.writes) + [Write(block[t], old(bc.disk)[l.start + 1 + t])]
      ensures bc.pending == old(bc.pending) - {block[t]}
      ensures j < NBUF && bc.pins == old(bc.pins)[j := old(bc.pins)[j] - 1]
      ensures |bc.buf| == NBUF + 1 && bc.buf[j].dev == ROOTDEV && bc.buf[j].blockno == block[t]
      ensures forall k :: 0 <= k < NBUF && old(bc.buf)[k].refcnt != 0 ==>
        bc.buf[k].dev == old(bc.buf)[k].dev && bc.buf[k].blockno == old(bc.buf)[k].blockno
      ensures old(bc.Pinned()) && block[t] in old(bc.pending) ==> bc.Pinned() && old(bc.pins)[j] == 1
    {
      hide BufferCache.Pins, BufferCache.Links, BufferCache.Unique, BufferCache.Counted, BufferCache.Holds, CanPair,
        Ready;
      var lb, db := CopyHome(t);
      j := db;
      UnpinInstalled(db);
      ghost var buf1 := bc.buf;
      ReleasePair(lb, db);
      SameFields(bc.buf, buf1[lb := Dereferenced(buf1[lb])][db := Dereferenced(buf1[db])]);
      assert bc.users == old(bc.users);
    }

    /** install_trans() in commit: the logged blocks go home and lose their pins. */
    method InstallCommitted()
      requires bc.Coherent() && Calm(bc.users, bc.dirty) && Spare(bc.users, bc.pins) && l.Fits(bc.disk)
      requires ValidHomes(l, bc.disk, block) && NoDuplicates(block)
      requires forall b :: b in bc.pending <==> b in block
      requires forall k :: 0 <= k < |block| ==> bc.pending[block[k]] == bc.disk[l.start + 1 + k]
      modifies bc`buf, bc`users, bc`dirty, bc`disk, bc`writes, bc`ring, bc`pins, bc`pending
      ensures bc.Coherent() && bc.users == old(bc.users) && bc.dirty == {} && Spare(bc.users, bc.pins)
      ensures bc.pending == map[]
      ensures bc.writes == old(bc.writes) + InstallWrites(l, old(bc.disk), block)
      ensures bc.disk == Apply(old(bc.disk), InstallWrites(l, old(bc.disk), block))
    {
      hide BufferCache.Pins, BufferCache.Links, BufferCache.Unique, BufferCache.Counted, BufferCache.Holds, Ready,
        DiskLog.Apply, DiskLog.InstallWrites, NoDuplicates;
      EmptyApply(bc.disk);
      ghost var d0, pending0 := bc.disk, bc.pending;
      ghost var ws := InstallWrites(l, d0, block);
      ghost var r :| 0 <= r < NBUF && bc.users[r] == 0 && bc.pins[r] == 0;
      var t := 0;
      assert ws[..0] == [] && block[0..] == block;
      while t < |block|
        invariant 0 <= t <= |block|
        invariant bc.Coherent() && bc.users == old(bc.users) && bc.dirty == {} && |bc.pins| == NBUF
        invariant bc.users[r] == 0 && bc.pins[r] == 0
        invariant |bc.disk| == |d0| && bc.disk == Apply(d0, ws[..t]) && bc.writes == old(bc.writes) + ws[..t]
        invariant forall b :: b in bc.pending <==> b in block[t..]
        invariant forall b :: b in bc.pending ==> bc.pending[b] == pending0[b]
      {
        assert block[t] in bc.pending by { assert block[t..][0] == block[t]; }
        InstallStep(l, d0, block, t, bc.disk);
        RemovedFromTail(block, t, bc.pending.Keys);
        CalmReady(bc.buf, bc.users, bc.pins, bc.pending, bc.dirty, l.start + 1 + t, block[t]);
        ghost var j := InstallOne(t);
        t := t + 1;
      }
      assert ws[..|block|] == ws;
    }

    /** The first half of commit(), up to the header write that commits. */
    method WriteTransaction()
      requires Inv() && Calm(bc.users, bc.dirty) && Spare(bc.users, bc.pins)
      modifies bc`buf, bc`users, bc`dirty, bc`disk, bc`writes, bc`ring
      ensures bc.Coherent() && bc.users == old(bc.users) && bc.dirty == {}
      ensures var data := DataOf(block, bc.pending);
        && bc.writes == old(bc.writes) + CommitWrites(l, old(bc.disk), block, data)[..|block| + 1]
        && bc.disk == CutCommit(l, old(bc.disk), block, data, |block| + 1)
        && InstallWrites(l, bc.disk, block) == HomeWrites(block, data)
        && forall k :: 0 <= k < |block| ==> bc.disk[l.start + 1 + k] == data[k]
    {
      hide BufferCache.Pins, BufferCache.Links, BufferCache.Unique, BufferCache.Counted, BufferCache.Holds,
        DiskLog.Apply, DiskLog.InstallWrites, DiskLog.HomeWrites, DiskLog.LogWrites, DiskLog.WithHeader;
      ghost var d0, data := bc.disk, DataOf(block, bc.pending);
      WriteLog();
      ghost var d1 := bc.disk;
      CalmHeadReady(bc.buf, bc.users, bc.pins, bc.pending, bc.dirty, l.start);
      WriteHead();
      CommitMiddle(l, d0, block, data, d1, bc.disk);
      CommitPrefix(l, d0, block, data);
    }

    /** The second half: install, then erase the header. */
    method FinishTransaction(ghost d0: Image)
      requires bc.Coherent() && Calm(bc.users, bc.dirty) && Spare(bc.users, bc.pins)
      requires EmptyLog(l, d0) && ValidHomes(l, d0, block) && NoDuplicates(block)
      requires forall b :: b in bc.pending <==> b in block
      requires var data := DataOf(block, bc.pending);
        && bc.disk == CutCommit(l, d0, block, data, |block| + 1)
        && InstallWrites(l, bc.disk, block) == HomeWrites(block, data)
        && forall k :: 0 <= k < |block| ==> bc.disk[l.start + 1 + k] == data[k]
      modifies this`block, bc`buf, bc`users, bc`dirty, bc`disk, bc`writes, bc`ring, bc`pins, bc`pending
      ensures bc.Coherent() && bc.users == old(bc.users) && bc.dirty == {} && Spare(bc.users, bc.pins)
      ensures block == [] && bc.pending == map[]
      ensures var all := CommitWrites(l, d0, old(block), DataOf(old(block), old(bc.pending)));
        && bc.writes == old(bc.writes) + all[|old(block)| + 1..]
        && bc.disk == Apply(d0, all)
    {
      hide BufferCache.Pins, BufferCache.Links, BufferCache.Unique, BufferCache.Counted, BufferCache.Holds,
        DiskLog.Apply, DiskLog.InstallWrites, NoDuplicates, DiskLog.WithHeader;
      ghost var d2, data := bc.disk, DataOf(block, bc.pending);
      InstallCommitted();
      ghost var d3 := bc.disk;
      block := [];
      CalmHeadReady(bc.buf, bc.users, bc.pins, bc.pending, bc.dirty, l.start);
      WriteHead();
      CommitEnd(l, d0, old(block), data, d2, d3, bc.disk);
    }

    /** commit(), while readers may hold buffers. */
    method Commit()
      requires Inv() && Calm(bc.users, bc.dirty) && Spare(bc.users, bc.pins)
      modifies this`block, bc`buf, bc`users, bc`dirty, bc`disk, bc`writes, bc`ring, bc`pins, bc`pending
      ensures Inv() && bc.users == old(bc.users) && bc.dirty == {} && Spare(bc.users, bc.pins)
      ensures block == [] && bc.pending == map[]
      ensures var data := DataOf(old(block), old(bc.pending));
        var ws := if old(block) == [] then [] else CommitWrites(l, old(bc.disk), old(block), data);
        && bc.writes == old(bc.writes) + ws
        && bc.disk == Apply(old(bc.disk), ws)
    {
      hide BufferCache.Pins, BufferCache.Links, BufferCache.Unique, BufferCache.Counted, BufferCache.Holds,
        DiskLog.Apply, DiskLog.InstallWrites, DiskLog.HomeWrites, DiskLog.CommitWrites, DiskLog.WithHeader;
      if |block| > 0 {
        ghost var d0, data := bc.disk, DataOf(block, bc.pending);
        ghost var all := CommitWrites(l, d0, block, data);
        WriteTransaction();
        FinishTransaction(d0);
        assert all == all[..|old(block)| + 1] + all[|old(block)| + 1..];
        CommitCompletes(l, d0, old(block), data);
      } else {
        EmptyApply(bc.disk);
      }
    }

    /** The absorption scan of log_write(). */
    method FindLogged(b: nat) returns (k: nat)
      ensures k <= |block| && (k < |block| ==> block[k] == b)
      ensures forall j :: 0 <= j < k ==> block[j] != b
    {
      k := 0;
      while k < |block| && block[k] != b
        invariant 0 <= k <= |block| && forall j :: 0 <= j < k ==> block[j] != b
      {
        k := k + 1;
      }
    }

    /** The block joins the transaction; a new one is pinned. */
    method Record(i: nat, isNew: bool)
      requires bc.Coherent() && i < NBUF && bc.buf[i].dev == ROOTDEV && bc.buf[i].valid
      requires isNew <==> bc.buf[i].blockno !in bc.pending
      modifies bc`buf, bc`pins, bc`pending, bc`dirty
      ensures bc.Coherent() && bc.dirty == old(bc.dirty) - {i}
      ensures bc.pending == old(bc.pending)[old(bc.buf)[i].blockno := old(bc.buf)[i].data]
    {
      hide BufferCache.Pins, BufferCache.Links, BufferCache.Unique, BufferCache.Holds;
      PinnedInUse(bc.buf, bc.users, bc.pins, bc.pending, i);
      LoggedPins(bc.buf, i, bc.users, bc.pins, bc.pending, bc.buf[i].data);
      if isNew {
        FreshUnpinned(bc.buf, i, bc.users, bc.pins, bc.pending);
        bc.Bpin(i);
        RepinnedPins(old(bc.buf), i, bc.users, bc.pins, bc.pending[bc.buf[i].blockno := bc.buf[i].data]);
      } else {
        AlreadyPinned(bc.buf, i, bc.users, bc.pins, bc.pending);
        assert bc.pins[i := 1] == bc.pins;
      }
      LoggedKeepsHolds(bc.buf, i, bc.disk, bc.pending, bc.dirty);
      bc.pending := bc.pending[bc.buf[i].blockno := bc.buf[i].data];
      bc.dirty := bc.dirty - {i};
    }

    /** log_write() of a buffer its caller holds; !ok is either panic. The space test
        comes before absorption, so with the log full even a block already logged is
        refused. */
    method LogWrite(i: nat) returns (ok: bool)
      requires Inv() && i < NBUF && bc.buf[i].dev == ROOTDEV && bc.buf[i].valid && bc.users[i] >= 1
      requires !l.InLog(bc.buf[i].blockno)
      modifies this`block, bc`buf, bc`pins, bc`pending, bc`dirty
      ensures ok <==> old(|block|) < LOGSIZE && old(|block|) < l.size - 1 && outstanding >= 1
      ensures !ok ==> unchanged(this) && unchanged(bc)
      ensures ok ==> Inv()
      ensures ok ==> var b := old(bc.buf)[i].blockno;
        && block == (if b in old(block) then old(block) else old(block) + [b])
        && bc.pending == old(bc.pending)[b := old(bc.buf)[i].data]
        && bc.dirty == old(bc.dirty) - {i}
    {
      hide BufferCache.Pins, BufferCache.Links, BufferCache.Unique, BufferCache.Holds, BufferCache.Counted,
        BufferCache.Complete, DiskLog.EmptyLog, DiskLog.ValidHomes, NoDuplicates;
      bc.Sizes();
      var b := bc.buf[i].blockno;
      bc.BlockInside(i);
      if |block| >= LOGSIZE || |block| >= l.size - 1 {
        return false;
      }
      if outstanding < 1 {
        return false;
      }
      var k := FindLogged(b);
      Record(i, k == |block|);
      block := if k == |block| then block + [b] else block[k := b];
      if k < |old(block)| {
        assert block == old(block);
      } else {
        HomesMore(l, bc.disk, old(block), b);
      }
      ok := true;
    }

    // ------------------------------------------------------------------ recovery

    /** The loads of read_head() from the header block. */
    method LoadHeader(h: Block) returns (entries: seq<nat>)
      requires Word(h, 0) <= LOGSIZE
      ensures entries == Listed(h)
    {
      var n := Word(h, 0);
      entries := [];
      while |entries| < n
        invariant |entries| <= n && forall k :: 0 <= k < |entries| ==> entries[k] == Word(h, 1 + k)
      {
        entries := entries + [Word(h, 1 + |entries|)];
      }
    }

    /** read_head(): the header block into memory. */
    method ReadHead()
      requires bc.Valid() && bc.Content() && Quiet(bc.users, bc.dirty) && bc.pending == map[] && Readable(l, bc.disk)
      requires SomeUnused(bc.buf)
      modifies this`block, bc`buf, bc`users, bc`ring
      ensures bc.Valid() && bc.Content() && bc.users == old(bc.users)
      ensures block == Listed(bc.disk[l.start])
    {
      hide BufferCache.Links, BufferCache.Unique, BufferCache.Counted, BufferCache.Holds, BufferCache.Complete,
        BufferCache.Pins, DiskLog.Listed, DiskLog.ValidHomes;
      var i := ReadOne(l.start);
      block := LoadHeader(bc.buf[i].data);
      bc.Brelse(i);
      assert bc.users == old(bc.users);
    }

    /** install_trans() in recovery: the same loop over blocks nobody pinned. */
    method InstallRecovered() returns (ghost stuck: set<nat>)
      requires bc.Valid() && bc.Content() && Quiet(bc.users, bc.dirty) && bc.pending == map[]
      requires forall i :: 0 <= i < NBUF ==> bc.pins[i] == 0
      requires l.Fits(bc.disk) && ValidHomes(l, bc.disk, block) && NoDuplicates(block) && |block| < NBUF
      modifies bc`buf, bc`users, bc`dirty, bc`disk, bc`writes, bc`ring, bc`pins, bc`pending
      ensures bc.Valid() && bc.Content() && Quiet(bc.users, bc.dirty) && bc.pending == map[]
      ensures Overdrawn(bc.buf, bc.pins, block, stuck)
      ensures bc.writes == old(bc.writes) + InstallWrites(l, old(bc.disk), block)
      ensures bc.disk == Apply(old(bc.disk), InstallWrites(l, old(bc.disk), block))
    {
      ghost var d0, w0 := bc.disk, bc.writes;
      assert Replaying(0, d0, w0, {}) by {
        EmptyApply(d0);
        assert InstallWrites(l, d0, block)[..0] == [];
      }
      hide Replaying;
      stuck := {};
      var t := 0;
      while t < |block|
        invariant 0 <= t <= |block| && Replaying(t, d0, w0, stuck)
      {
        stuck := ReplayNext(t, d0, w0, stuck);
        t := t + 1;
      }
      ReplayedAll(d0, w0, stuck);
    }

    /** That loop after t turns, started on disk d0 with w0 written. */
    ghost predicate Replaying(t: nat, d0: Image, w0: seq<Write>, stuck: set<nat>)
      requires l.Fits(d0) && ValidHomes(l, d0, block) && t <= |block|
      reads this, bc
    {
      && bc.Valid() && bc.Content() && Quiet(bc.users, bc.dirty) && bc.pending == map[]
      && bc.disk == Apply(d0, InstallWrites(l, d0, block)[..t])
      && bc.writes == w0 + InstallWrites(l, d0, block)[..t]
      && Overdrawn(bc.buf, bc.pins, block[..t], stuck)
    }

    lemma ReplayedAll(d0: Image, w0: seq<Write>, stuck: set<nat>)
      requires l.Fits(d0) && ValidHomes(l, d0, block) && Replaying(|block|, d0, w0, stuck)
      ensures bc.Valid() && bc.Content() && Quiet(bc.users, bc.dirty) && bc.pending == map[]
      ensures Overdrawn(bc.buf, bc.pins, block, stuck)
      ensures bc.writes == w0 + InstallWrites(l, d0, block)
      ensures bc.disk == Apply(d0, InstallWrites(l, d0, block))
    {
      assert block[..|block|] == block;
      assert InstallWrites(l, d0, block)[..|block|] == InstallWrites(l, d0, block);
    }

    /** One turn of that loop. */
    method ReplayNext(t: nat, ghost d0: Image, ghost w0: seq<Write>, ghost stuck0: set<nat>)
        returns (ghost stuck: set<nat>)
      requires l.Fits(d0) && ValidHomes(l, d0, block) && NoDuplicates(block) && t < |block| < NBUF
      requires Replaying(t, d0, w0, stuck0)
      modifies bc`buf, bc`users, bc`dirty, bc`disk, bc`writes, bc`ring, bc`pins, bc`pending
      ensures Replaying(t + 1, d0, w0, stuck)
    {
      hide BufferCache.Pins, BufferCache.Links, BufferCache.Unique, BufferCache.Holds, BufferCache.Counted, Ready,
        BufferCache.Complete, DiskLog.Apply, DiskLog.InstallWrites, NoDuplicates;
      OverdrawnReady(l, bc.buf, bc.users, bc.pins, block, t, stuck0);
      SpentCounts(bc.buf, bc.users, bc.pins, t, stuck0);
      InstallStep(l, d0, block, t, bc.disk);
      ghost var j := InstallOne(t);
      assert bc.pending == map[];
      OverdrawnNext(old(bc.buf), old(bc.pins), bc.buf, bc.pins, block, t, stuck0, j);
      stuck := stuck0 + {j};
    }

    /** recover_from_log() on a freshly initialised cache. The disk ends as DiskLog
        promises. But install_trans() unpins blocks that were never pinned: the count
        of every replayed block's buffer wraps to 2^32 - 1. The next bget() of such a block
        makes it 0 while the buffer is held. Some run of bget() and brelse() from here
        recycles a buffer in use if and only if a block was replayed, and the invariant of
        normal operation is established if and only if none was. */
    method Recover() returns (ghost stuck: set<nat>)
      requires bc.Valid() && bc.Content() && Quiet(bc.users, bc.dirty) && bc.pending == map[]
      requires forall i :: 0 <= i < NBUF ==> bc.pins[i] == 0
      requires Readable(l, bc.disk) && NoDuplicates(Listed(bc.disk[l.start])) && |Listed(bc.disk[l.start])| < NBUF
      modifies this`block, bc`buf, bc`users, bc`dirty, bc`disk, bc`writes, bc`ring, bc`pins, bc`pending
      ensures bc.writes == old(bc.writes) + RecoverWrites(l, old(bc.disk))
      ensures bc.disk == Apply(old(bc.disk), RecoverWrites(l, old(bc.disk)))
      ensures |stuck| == Word(old(bc.disk)[l.start], 0) && forall i :: i in stuck ==> i < NBUF
      ensures |bc.buf| == NBUF + 1 && forall i ::
        0 <= i < NBUF ==> bc.buf[i].refcnt == if i in stuck then UINT - 1 else 0
      ensures Inv() <==> Word(old(bc.disk)[l.start], 0) == 0
      ensures |bc.disk| > NBUF ==>
        ((exists t :: CacheRuns.Reaches(Refs(), t, bc.pins, |bc.disk|) && CacheRuns.Steals(t, |bc.disk|)) <==>
         Word(old(bc.disk)[l.start], 0) > 0)
    {
      hide BufferCache.Pins, BufferCache.Links, BufferCache.Unique, BufferCache.Holds, BufferCache.Counted,
        DiskLog.Apply, DiskLog.InstallWrites, DiskLog.WithHeader, NoDuplicates;
      FreshUnused(bc.buf, bc.users, bc.pins);
      ReadHead();
      stuck := Replay();
      RecoveryCompletes(l, old(bc.disk));
      SpentCounts(bc.buf, bc.users, bc.pins, Word(old(bc.disk)[l.start], 0), stuck);
      RecoveredInv(Word(old(bc.disk)[l.start], 0), stuck);
      if |bc.disk| > NBUF { RecoveredSteals(Word(old(bc.disk)[l.start], 0), stuck); }
    }

    ghost function Refs(): (s: CacheRuns.Refs)
      reads bc
    {
      CacheRuns.Refs(bc.buf, bc.ring, bc.users)
    }

    lemma RecoveredSteals(n: nat, stuck: set<nat>)
      requires bc.Valid() && bc.Content() && Quiet(bc.users, bc.dirty) && Spent(bc.pins, n, stuck) && |bc.disk| > NBUF
      requires forall i :: i in stuck ==> bc.buf[i].dev != 0
      ensures (exists t :: CacheRuns.Reaches(Refs(), t, bc.pins, |bc.disk|) && CacheRuns.Steals(t, |bc.disk|)) <==>
        n > 0
    {
      hide BufferCache.Links, BufferCache.Unique, BufferCache.Counted, CacheRuns.Reaches, CacheRuns.Steals;
      CacheRuns.StealsExactly(Refs(), bc.pins, |bc.disk|);
      if n > 0 {
        var x :| x in stuck;
        assert bc.pins[x] == -1;
      }
    }

    /** The blocks go home, and the header on disk is cleared. */
    method Replay() returns (ghost stuck: set<nat>)
      requires bc.Valid() && bc.Content() && Quiet(bc.users, bc.dirty) && bc.pending == map[]
      requires forall i :: 0 <= i < NBUF ==> bc.pins[i] == 0
      requires Readable(l, bc.disk) && block == Listed(bc.disk[l.start]) && NoDuplicates(block) && |block| < NBUF
      modifies this`block, bc`buf, bc`users, bc`dirty, bc`disk, bc`writes, bc`ring, bc`pins, bc`pending
      ensures bc.Valid() && bc.Content() && Quiet(bc.users, bc.dirty) && bc.pending == map[] && block == []
      ensures bc.writes == old(bc.writes) + RecoverWrites(l, old(bc.disk))
      ensures bc.disk == Apply(old(bc.disk), RecoverWrites(l, old(bc.disk)))
      ensures Spent(bc.pins, |old(block)|, stuck) && |bc.buf| == NBUF + 1
        && forall i :: i in stuck ==> bc.buf[i].dev != 0
    {
      hide BufferCache.Pins, BufferCache.Links, BufferCache.Unique, BufferCache.Holds, BufferCache.Counted,
        DiskLog.Apply, DiskLog.InstallWrites, DiskLog.WithHeader, DiskLog.Listed, HeadReady, NoDuplicates;
      stuck := InstallRecovered();
      EraseReady(bc.buf, bc.users, bc.pins, block, l.start, stuck);
      ReplayedThenErased(l, old(bc.disk), block, bc.disk);
      SpentCounts(bc.buf, bc.users, bc.pins, |block|, stuck);
      block := [];
      WriteHead();
    }

    /** Pins overdrawn by recovery contradict the invariant; none means it holds. */
    lemma RecoveredInv(n: nat, stuck: set<nat>)
      requires bc.Valid() && bc.Content() && Quiet(bc.users, bc.dirty) && bc.pending == map[] && block == []
      requires EmptyLog(l, bc.disk) && Spent(bc.pins, n, stuck)
      ensures Inv() <==> n == 0
    {
      if x :| x in stuck {
        assert bc.pins[x] == -1;
        assert |stuck - {x}| + 1 == |stuck|;
      }
    }
  }
}
