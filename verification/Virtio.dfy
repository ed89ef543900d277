/** The virtio disk driver of kernel/virtio_disk.c against a device that may complete requests
    in any order (section 2.6 of Virtio 1.1).

    Each method is one step under vdisk_lock or one step of the device; a run is any
    interleaving of them. A request takes a chain of three descriptors and passes through the
    available ring, the device, the used ring and the interrupt handler. */
module Virtio {

  import opened Common
  import opened Blocks

  const NUM: nat := 8
  const U16: nat := 0x1_0000

  /** What a descriptor's address points at. */
  datatype Addr = Null | Header(write: bool, block: nat) | Buffer(buf: nat) | Status(head: nat)

  datatype Desc = Desc(addr: Addr, chained: bool, writable: bool, next: nat)

  datatype Phase = Queued | Taken | Used | Ready

  /** A request in flight. `data` is what is to be written, or what is to be read. */
  datatype Req = Req(buf: nat, write: bool, block: nat, data: Block, mid: nat, tail: nat, phase: Phase)

  type Reqs = map<nat, Req>

  // -------------------------------------------------------------------- descriptors

  ghost function Chain(h: nat, r: Req): (s: set<nat>) { {h, r.mid, r.tail} }

  ghost predicate ReqOk(free: seq<bool>, desc: seq<Desc>, info: seq<Option<nat>>, h: nat, r: Req)
    requires |free| == |desc| == |info| == NUM
  {
    && h < NUM && r.mid < NUM && r.tail < NUM && h != r.mid && h != r.tail && r.mid != r.tail
    && !free[h] && !free[r.mid] && !free[r.tail]
    && desc[h] == Desc(Header(r.write, r.block), true, false, r.mid)
    && desc[r.mid] == Desc(Buffer(r.buf), true, !r.write, r.tail)
    && desc[r.tail] == Desc(Status(h), false, true, 0)
    && info[h] == Some(r.buf)
  }

  /** Requests own disjoint chains, and a descriptor is free exactly when no chain has it. */
  ghost predicate Chains(free: seq<bool>, desc: seq<Desc>, info: seq<Option<nat>>, reqs: Reqs)
  {
    && |free| == |desc| == |info| == NUM
    && (forall h :: h in reqs ==> ReqOk(free, desc, info, h, reqs[h]))
    && (forall h, g :: h in reqs && g in reqs && h != g ==> Apart(h, reqs[h], g, reqs[g]))
    && (forall i: nat {:trigger Owned(reqs, i)} :: i < NUM && !free[i] ==> Owned(reqs, i))
  }

  ghost predicate Apart(h: nat, r: Req, g: nat, q: Req) { Chain(h, r) !! Chain(g, q) }

  ghost predicate Owned(reqs: Reqs, i: nat) { exists h :: h in reqs && i in Chain(h, reqs[h]) }

  lemma {:induction false} Below(s: set<nat>, n: nat)
    requires forall i :: i in s ==> i < n
    ensures |s| <= n
  {
    if n > 0 {
      Below(s - {n - 1}, n - 1);
      if n - 1 in s { assert s == s - {n - 1} + {n - 1}; } else { assert s == s - {n - 1}; }
    }
  }

  lemma NotThree(x: set<nat>, y: set<nat>, z: set<nat>)
    requires |x| == 3 && |y| == 3 && |z| == 3 && forall i :: i in x + y + z ==> i < NUM
    ensures !(x !! y) || !(y !! z) || !(x !! z)
  {
    Below(x + y + z, NUM);
    if x !! y { assert |x + y| == 6; }
    if x !! z && y !! z { assert (x + y) !! z; }
  }

  lemma ChainOf(free: seq<bool>, desc: seq<Desc>, info: seq<Option<nat>>, h: nat, r: Req)
    requires |free| == |desc| == |info| == NUM && ReqOk(free, desc, info, h, r)
    ensures |Chain(h, r)| == 3 && forall i :: i in Chain(h, r) ==> i < NUM && !free[i]
  {
    assert Chain(h, r) == {h} + {r.mid} + {r.tail};
  }

  lemma OneOfTwo(free: seq<bool>, desc: seq<Desc>, info: seq<Option<nat>>, reqs: Reqs, f: nat, g: nat, h: nat)
    requires Chains(free, desc, info, reqs) && f in reqs && g in reqs && h in reqs && f != g
    ensures h == f || h == g
  {
    ChainOf(free, desc, info, f, reqs[f]);
    ChainOf(free, desc, info, g, reqs[g]);
    ChainOf(free, desc, info, h, reqs[h]);
    NotThree(Chain(f, reqs[f]), Chain(g, reqs[g]), Chain(h, reqs[h]));
    assert Apart(f, reqs[f], g, reqs[g]) && (h != f ==> Apart(f, reqs[f], h, reqs[h]))
      && (h != g ==> Apart(g, reqs[g], h, reqs[h]));
    hide ReqOk, Chain, Owned;
  }

  /** Eight descriptors hold at most two requests. */
  lemma AtMostTwo(free: seq<bool>, desc: seq<Desc>, info: seq<Option<nat>>, reqs: Reqs)
    requires Chains(free, desc, info, reqs)
    ensures |reqs.Keys| <= 2
  {
    hide Chains;
    var s := reqs.Keys;
    if |s| >= 2 {
      var f :| f in s;
      assert |s - {f}| == |s| - 1;
      var g :| g in s - {f};
      forall h | h in s ensures h == f || h == g { OneOfTwo(free, desc, info, reqs, f, g, h); }
      assert s == {f} + {g};
    }
  }

  function WithPhase(reqs: Reqs, h: nat, p: Phase): (r: Reqs)
    requires h in reqs
  {
    reqs[h := reqs[h].(phase := p)]
  }

  lemma ChainsPhase(free: seq<bool>, desc: seq<Desc>, info: seq<Option<nat>>, reqs: Reqs, h: nat, p: Phase)
    requires Chains(free, desc, info, reqs) && h in reqs
    ensures Chains(free, desc, info, WithPhase(reqs, h, p))
  {
    var reqs' := WithPhase(reqs, h, p);
    forall g | g in reqs' ensures ReqOk(free, desc, info, g, reqs'[g]) { assert ReqOk(free, desc, info, g, reqs[g]); }
    forall g, k | g in reqs' && k in reqs' && g != k ensures Apart(g, reqs'[g], k, reqs'[k]) {
      assert Apart(g, reqs[g], k, reqs[k]);
    }
    forall i: nat | i < NUM && !free[i] ensures Owned(reqs', i) {
      assert Owned(reqs, i);
      var g :| g in reqs && i in Chain(g, reqs[g]);
      assert i in Chain(g, reqs'[g]);
    }
  }

  /** Three free descriptors become a new request's chain. */
  ghost predicate Filled(free: seq<bool>, desc: seq<Desc>, info: seq<Option<nat>>, free': seq<bool>, desc': seq<Desc>,
      info': seq<Option<nat>>, h: nat, r: Req)
  {
    && |free| == |desc| == |info| == |free'| == |desc'| == |info'| == NUM && ReqOk(free', desc', info', h, r)
    && free[h] && free[r.mid] && free[r.tail]
    && (forall i: nat :: i < NUM && i !in Chain(h, r) ==> free'[i] == free[i])
    && (forall i: nat :: i < NUM && !free[i] ==> desc'[i] == desc[i] && info'[i] == info[i])
  }

  lemma ReqBeside(free: seq<bool>, desc: seq<Desc>, info: seq<Option<nat>>, free': seq<bool>, desc': seq<Desc>,
      info': seq<Option<nat>>, h: nat, r: Req, g: nat, q: Req)
    requires Filled(free, desc, info, free', desc', info', h, r) && ReqOk(free, desc, info, g, q)
    ensures g != h && ReqOk(free', desc', info', g, q) && Apart(g, q, h, r) && Apart(h, r, g, q)
  {}

  lemma ChainsAdd(free: seq<bool>, desc: seq<Desc>, info: seq<Option<nat>>, reqs: Reqs, free': seq<bool>,
      desc': seq<Desc>, info': seq<Option<nat>>, h: nat, r: Req)
    requires Chains(free, desc, info, reqs) && Filled(free, desc, info, free', desc', info', h, r)
    ensures h !in reqs && Chains(free', desc', info', reqs[h := r])
  {
    hide Filled, ReqOk, Apart, Owned;
    FilledSizes(free, desc, info, free', desc', info', h, r);
    forall g | g in reqs ensures g != h && ReqOk(free', desc', info', g, reqs[g]) && Apart(g, reqs[g], h, r)
      && Apart(h, r, g, reqs[g]) {
      ReqBeside(free, desc, info, free', desc', info', h, r, g, reqs[g]);
    }
    forall i: nat | i < |free'| && i < NUM && !free'[i] ensures Owned(reqs[h := r], i) {
      OwnedAdd(free, desc, info, reqs, free', desc', info', h, r, i);
    }
  }

  lemma FilledSizes(free: seq<bool>, desc: seq<Desc>, info: seq<Option<nat>>, free': seq<bool>, desc': seq<Desc>,
      info': seq<Option<nat>>, h: nat, r: Req)
    requires Filled(free, desc, info, free', desc', info', h, r)
    ensures |free'| == |desc'| == |info'| == NUM && ReqOk(free', desc', info', h, r)
  {}

  lemma OwnedAdd(free: seq<bool>, desc: seq<Desc>, info: seq<Option<nat>>, reqs: Reqs, free': seq<bool>,
      desc': seq<Desc>, info': seq<Option<nat>>, h: nat, r: Req, i: nat)
    requires Chains(free, desc, info, reqs) && Filled(free, desc, info, free', desc', info', h, r) && i < NUM
      && !free'[i] && h !in reqs
    ensures Owned(reqs[h := r], i)
  {
    var reqs' := reqs[h := r];
    if i in Chain(h, r) {
      assert h in reqs' && i in Chain(h, reqs'[h]);
    } else {
      assert Owned(reqs, i);
      var g :| g in reqs && i in Chain(g, reqs[g]);
      assert g in reqs' && i in Chain(g, reqs'[g]);
    }
  }

  lemma ChainsRemove(free: seq<bool>, desc: seq<Desc>, info: seq<Option<nat>>, reqs: Reqs, free': seq<bool>,
      desc': seq<Desc>, info': seq<Option<nat>>, h: nat)
    requires Chains(free, desc, info, reqs) && h in reqs && |free'| == |desc'| == |info'| == NUM
    requires forall i: nat :: i < NUM ==> free'[i] == (free[i] || i in Chain(h, reqs[h]))
    requires forall i: nat :: i < NUM && i !in Chain(h, reqs[h]) ==> desc'[i] == desc[i] && info'[i] == info[i]
    ensures Chains(free', desc', info', reqs - {h})
  {
    var reqs' := reqs - {h};
    forall g | g in reqs' ensures ReqOk(free', desc', info', g, reqs'[g]) {
      assert ReqOk(free, desc, info, g, reqs[g]) && Apart(g, reqs[g], h, reqs[h]);
      assert g in Chain(g, reqs[g]) && reqs[g].mid in Chain(g, reqs[g]) && reqs[g].tail in Chain(g, reqs[g]);
    }
    forall g, k | g in reqs' && k in reqs' && g != k ensures Apart(g, reqs'[g], k, reqs'[k]) {
      assert Apart(g, reqs[g], k, reqs[k]);
    }
    forall i: nat | i < NUM && !free'[i] ensures Owned(reqs', i) {
      assert Owned(reqs, i);
      var g :| g in reqs && i in Chain(g, reqs[g]);
      assert g in reqs' && i in Chain(g, reqs'[g]);
    }
  }

  // --------------------------------------------------------------------- the rings

  function Place(start: nat, k: nat): (i: nat)
    ensures i < NUM
  {
    (start + k) % NUM
  }

  /** The ring holds q from position start on, modulo its size. */
  ghost predicate Ring(ring: seq<nat>, start: nat, q: seq<nat>)
  {
    |ring| == NUM && |q| <= 2 && forall k: nat :: k < |q| ==> ring[Place(start, k)] == q[k]
  }

  lemma RingPush(ring: seq<nat>, start: nat, q: seq<nat>, h: nat)
    requires Ring(ring, start, q) && |q| < 2
    ensures Ring(ring[Place(start, |q|) := h], start, q + [h])
  {}

  lemma RingPop(ring: seq<nat>, start: nat, q: seq<nat>, next: nat)
    requires Ring(ring, start, q) && |q| > 0 && next % NUM == (start + 1) % NUM
    ensures ring[start % NUM] == q[0] && Ring(ring, next, q[1..])
  {
    assert Place(start, 0) == start % NUM;
    forall k: nat | k < |q| - 1 ensures Place(next, k) == Place(start, k + 1) {}
  }

  /** Sixteen-bit counters and an eight-place ring. */
  ghost predicate AvailOk(avail: seq<nat>, idx: nat, last: nat, queue: seq<nat>)
  {
    last < U16 && idx == (last + |queue|) % U16 && Ring(avail, last, queue)
  }

  ghost predicate UsedOk(used: seq<nat>, id: nat, idx: nat, done: seq<nat>)
  {
    id < U16 && idx < NUM && id % NUM == (idx + |done|) % NUM && Ring(used, idx, done)
  }

  /** The driver's comparison modulo the ring size sees exactly whether completions wait. */
  lemma ComparisonExact(used: seq<nat>, id: nat, idx: nat, done: seq<nat>)
    requires UsedOk(used, id, idx, done)
    ensures idx % NUM != id % NUM <==> done != []
  {}

  lemma AvailPush(avail: seq<nat>, idx: nat, last: nat, queue: seq<nat>, h: nat)
    requires AvailOk(avail, idx, last, queue) && |queue| < 2
    ensures AvailOk(avail[idx % NUM := h], (idx + 1) % U16, last, queue + [h])
  {
    assert idx % NUM == Place(last, |queue|);
    RingPush(avail, last, queue, h);
  }

  lemma AvailPop(avail: seq<nat>, idx: nat, last: nat, queue: seq<nat>)
    requires AvailOk(avail, idx, last, queue) && last != idx
    ensures |avail| == NUM && queue != [] && avail[last % NUM] == queue[0]
      && AvailOk(avail, idx, (last + 1) % U16, queue[1..])
  {
    RingPop(avail, last, queue, (last + 1) % U16);
  }

  lemma UsedPush(used: seq<nat>, id: nat, idx: nat, done: seq<nat>, h: nat)
    requires UsedOk(used, id, idx, done) && |done| < 2
    ensures UsedOk(used[id % NUM := h], (id + 1) % U16, idx, done + [h])
  {
    RingPush(used, idx, done, h);
  }

  lemma UsedPop(used: seq<nat>, id: nat, idx: nat, done: seq<nat>)
    requires UsedOk(used, id, idx, done) && done != []
    ensures |used| == NUM && idx < NUM && used[idx] == done[0] && UsedOk(used, id, (idx + 1) % NUM, done[1..])
  {
    RingPop(used, idx, done, (idx + 1) % NUM);
  }

  // -------------------------------------------------------------------- phases

  ghost predicate Distinct(q: seq<nat>) { forall i: nat, j: nat :: i < j < |q| ==> q[i] != q[j] }

  /** q lists the requests of one phase, each once. */
  ghost predicate InPhase(q: seq<nat>, reqs: Reqs, p: Phase)
  {
    Distinct(q) && forall h :: h in q <==> h in reqs && reqs[h].phase == p
  }

  ghost function Elements(q: seq<nat>): (s: set<nat>) { set h | h in q }

  lemma {:induction false} DistinctSet(q: seq<nat>)
    requires Distinct(q)
    ensures |Elements(q)| == |q|
  {
    if q != [] {
      DistinctSet(q[1..]);
      assert q[0] !in q[1..];
      assert Elements(q) == Elements(q[1..]) + {q[0]};
    }
  }

  lemma FewInPhase(q: seq<nat>, reqs: Reqs, p: Phase)
    requires InPhase(q, reqs, p)
    ensures |q| <= |reqs.Keys|
  {
    DistinctSet(q);
    SubsetSize(Elements(q), reqs.Keys);
  }

  lemma PhaseJoins(q: seq<nat>, reqs: Reqs, p: Phase, h: nat, r: Req)
    requires InPhase(q, reqs, p) && h !in q && r.phase == p
    ensures InPhase(q + [h], reqs[h := r], p)
  {}

  lemma PhaseLeaves(q: seq<nat>, reqs: Reqs, p: Phase, r: Req)
    requires InPhase(q, reqs, p) && q != [] && r.phase != p
    ensures InPhase(q[1..], reqs[q[0] := r], p)
  {
    var q' := q[1..];
    forall h | h in q && h != q[0] ensures h in q' {
      var i: nat :| i < |q| && q[i] == h;
      assert q'[i - 1] == h;
    }
  }

  lemma PhaseStays(q: seq<nat>, reqs: Reqs, p: Phase, h: nat, r: Req)
    requires InPhase(q, reqs, p) && h !in q && r.phase != p
    ensures InPhase(q, reqs[h := r], p)
  {}

  lemma PhaseWithout(q: seq<nat>, reqs: Reqs, p: Phase, h: nat)
    requires InPhase(q, reqs, p) && h !in q
    ensures InPhase(q, reqs - {h}, p)
  {}

  ghost predicate TakenOk(taken: set<nat>, reqs: Reqs) { forall h :: h in taken <==> h in reqs && reqs[h].phase.Taken? }

  lemma TakenStays(taken: set<nat>, reqs: Reqs, h: nat, r: Req)
    requires TakenOk(taken, reqs) && (h in reqs ==> !reqs[h].phase.Taken?) && !r.phase.Taken?
    ensures TakenOk(taken, reqs[h := r]) && TakenOk(taken, reqs - {h})
  {}

  lemma TakenJoins(taken: set<nat>, reqs: Reqs, h: nat)
    requires TakenOk(taken, reqs)
    ensures h in reqs ==> TakenOk(taken + {h}, WithPhase(reqs, h, Taken))
  {}

  lemma TakenLeaves(taken: set<nat>, reqs: Reqs, h: nat)
    requires TakenOk(taken, reqs) && h in taken
    ensures h in reqs && reqs[h].phase.Taken? && TakenOk(taken - {h}, WithPhase(reqs, h, Used))
  {}

  // ------------------------------------------------------------------------ data

  /** The buffer and the block of a request: one holds the data from the start, both do once
      the device is done; the buffer is marked until the interrupt handler saw it. */
  ghost predicate Moves(r: Req, busy: set<nat>, bufs: map<nat, Block>, blocks: map<nat, Block>)
  {
    && r.buf in bufs && r.block in blocks && (r.buf in busy <==> !r.phase.Ready?)
    && (if r.write then bufs[r.buf] == r.data else blocks[r.block] == r.data)
    && (r.phase.Used? || r.phase.Ready? ==> bufs[r.buf] == r.data && blocks[r.block] == r.data)
  }

  ghost predicate DataOk(reqs: Reqs, busy: set<nat>, bufs: map<nat, Block>, blocks: map<nat, Block>)
  {
    && (forall h :: h in reqs ==> Moves(reqs[h], busy, bufs, blocks))
    && (forall h, g :: h in reqs && g in reqs && h != g ==> Clear(reqs[h], reqs[g]))
  }

  ghost predicate Clear(r: Req, q: Req) { r.buf != q.buf && r.block != q.block }

  lemma DataAdd(reqs: Reqs, busy: set<nat>, bufs: map<nat, Block>, blocks: map<nat, Block>, h: nat, r: Req)
    requires DataOk(reqs, busy, bufs, blocks) && h !in reqs && (forall g :: g in reqs ==> Clear(reqs[g], r))
    requires r.phase.Queued? && r.buf in bufs && r.block in blocks
      && r.data == if r.write then bufs[r.buf] else blocks[r.block]
    ensures DataOk(reqs[h := r], busy + {r.buf}, bufs, blocks)
  {
    forall g | g in reqs ensures Moves(reqs[g], busy + {r.buf}, bufs, blocks) {
      assert Moves(reqs[g], busy, bufs, blocks) && Clear(reqs[g], r);
    }
  }

  lemma DataTaken(reqs: Reqs, busy: set<nat>, bufs: map<nat, Block>, blocks: map<nat, Block>, h: nat)
    requires DataOk(reqs, busy, bufs, blocks) && h in reqs && reqs[h].phase.Queued?
    ensures DataOk(WithPhase(reqs, h, Taken), busy, bufs, blocks)
  {
    var reqs' := WithPhase(reqs, h, Taken);
    forall g | g in reqs' ensures Moves(reqs'[g], busy, bufs, blocks) { assert Moves(reqs[g], busy, bufs, blocks); }
    forall g, k | g in reqs' && k in reqs' && g != k ensures Clear(reqs'[g], reqs'[k]) {
      assert Clear(reqs[g], reqs[k]);
    }
  }

  /** The device moves the data of one request. */
  lemma DataMoved(reqs: Reqs, busy: set<nat>, bufs: map<nat, Block>, blocks: map<nat, Block>, h: nat)
    requires DataOk(reqs, busy, bufs, blocks) && h in reqs && reqs[h].phase.Taken?
    ensures reqs[h].buf in bufs && reqs[h].block in blocks
    ensures var r := reqs[h];
      DataOk(WithPhase(reqs, h, Used), busy, if r.write then bufs
        else bufs[r.buf := blocks[r.block]], if r.write then blocks[r.block := bufs[r.buf]] else blocks)
  {
    var r := reqs[h];
    assert Moves(r, busy, bufs, blocks);
    var reqs', bufs', blocks' := WithPhase(reqs, h, Used),
      if r.write then bufs else bufs[r.buf := blocks[r.block]],
      if r.write then blocks[r.block := bufs[r.buf]] else blocks;
    forall g | g in reqs' ensures Moves(reqs'[g], busy, bufs', blocks') {
      assert Moves(reqs[g], busy, bufs, blocks) && (g != h ==> Clear(reqs[g], r));
    }
    forall g, k | g in reqs' && k in reqs' && g != k ensures Clear(reqs'[g], reqs'[k]) {
      assert Clear(reqs[g], reqs[k]);
    }
  }

  /** A write changes the block and nothing else, a read the buffer and nothing else. */
  ghost predicate Carried(r: Req, bufs: map<nat, Block>, blocks: map<nat, Block>, bufs': map<nat, Block>,
      blocks': map<nat, Block>)
  {
    && r.buf in bufs && r.block in blocks
    && if r.write then blocks' == blocks[r.block := bufs[r.buf]] && bufs' == bufs
      else bufs' == bufs[r.buf := blocks[r.block]] && blocks' == blocks
  }

  lemma DataReady(reqs: Reqs, busy: set<nat>, bufs: map<nat, Block>, blocks: map<nat, Block>, h: nat)
    requires DataOk(reqs, busy, bufs, blocks) && h in reqs && reqs[h].phase.Used?
    ensures DataOk(WithPhase(reqs, h, Ready), busy - {reqs[h].buf}, bufs, blocks)
  {
    var reqs', busy' := WithPhase(reqs, h, Ready), busy - {reqs[h].buf};
    forall g | g in reqs' ensures Moves(reqs'[g], busy', bufs, blocks) {
      assert Moves(reqs[g], busy, bufs, blocks) && (g != h ==> Clear(reqs[g], reqs[h]));
    }
    forall g, k | g in reqs' && k in reqs' && g != k ensures Clear(reqs'[g], reqs'[k]) {
      assert Clear(reqs[g], reqs[k]);
    }
  }

  lemma DataWithout(reqs: Reqs, busy: set<nat>, bufs: map<nat, Block>, blocks: map<nat, Block>, h: nat)
    requires DataOk(reqs, busy, bufs, blocks)
    ensures DataOk(reqs - {h}, busy, bufs, blocks)
  {
    var reqs' := reqs - {h};
    forall g | g in reqs' ensures Moves(reqs'[g], busy, bufs, blocks) { assert Moves(reqs[g], busy, bufs, blocks); }
    forall g, k | g in reqs' && k in reqs' && g != k ensures Clear(reqs'[g], reqs'[k]) {
      assert Clear(reqs[g], reqs[k]);
    }
  }

  // ----------------------------------------------------------------------- the driver

  function Put(ring: seq<nat>, idx: nat, h: nat): (r: seq<nat>)
    requires |ring| == NUM
  {
    ring[idx % NUM := h]
  }

  lemma SizesOf(free: seq<bool>, desc: seq<Desc>, info: seq<Option<nat>>, reqs: Reqs)
    requires Chains(free, desc, info, reqs)
    ensures |free| == |desc| == |info| == NUM
  {}

  lemma ChainsSame(free: seq<bool>, desc: seq<Desc>, info: seq<Option<nat>>, reqs: Reqs, desc': seq<Desc>)
    requires Chains(free, desc, info, reqs) && SameInUse(free, desc, desc')
    ensures Chains(free, desc', info, reqs)
  {
    forall g | g in reqs ensures ReqOk(free, desc', info, g, reqs[g]) { assert ReqOk(free, desc, info, g, reqs[g]); }
    hide ReqOk, Apart, Owned;
  }

  /** The phases when the first of the queue moves on. */
  lemma Moved(free: seq<bool>, desc: seq<Desc>, info: seq<Option<nat>>, reqs: Reqs, queue: seq<nat>, done: seq<nat>,
      h: nat, p: Phase)
    requires Chains(free, desc, info, reqs) && InPhase(queue, reqs, Queued) && InPhase(done, reqs, Used)
      && queue != [] && h == queue[0] && p.Taken?
    ensures h in reqs && reqs[h].phase.Queued? && Chains(free, desc, info, WithPhase(reqs, h, p))
    ensures InPhase(queue[1..], WithPhase(reqs, h, p), Queued) && InPhase(done, WithPhase(reqs, h, p), Used)
  {
    assert h in queue;
    hide Chains;
    ChainsPhase(free, desc, info, reqs, h, p);
    PhaseLeaves(queue, reqs, Queued, reqs[h].(phase := p));
    PhaseStays(done, reqs, Used, h, reqs[h].(phase := p));
  }

  /** What the device finds along a chain is the request that was submitted. */
  lemma ChainRead(free: seq<bool>, desc: seq<Desc>, info: seq<Option<nat>>, reqs: Reqs, h: nat)
    requires Chains(free, desc, info, reqs) && h in reqs
    ensures |desc| == NUM && h < NUM && desc[h].chained && desc[h].addr == Header(reqs[h].write, reqs[h].block)
    ensures desc[h].next < NUM && desc[desc[h].next].addr == Buffer(reqs[h].buf)
      && desc[desc[h].next].writable == !reqs[h].write
  {
    assert ReqOk(free, desc, info, h, reqs[h]);
    hide Chains;
  }

  lemma Completed(free: seq<bool>, desc: seq<Desc>, info: seq<Option<nat>>, reqs: Reqs, queue: seq<nat>,
      done: seq<nat>, h: nat, used: seq<nat>, id: nat, idx: nat)
    requires Chains(free, desc, info, reqs) && InPhase(queue, reqs, Queued) && InPhase(done, reqs, Used)
      && h in reqs && reqs[h].phase.Taken?
    requires UsedOk(used, id, idx, done)
    ensures |used| == NUM && Chains(free, desc, info, WithPhase(reqs, h, Used))
      && UsedOk(Put(used, id, h), (id + 1) % U16, idx, done + [h])
    ensures InPhase(queue, WithPhase(reqs, h, Used), Queued) && InPhase(done + [h], WithPhase(reqs, h, Used), Used)
  {
    hide Chains;
    ChainsPhase(free, desc, info, reqs, h, Used);
    AtMostTwo(free, desc, info, WithPhase(reqs, h, Used));
    PhaseStays(queue, reqs, Queued, h, reqs[h].(phase := Used));
    PhaseJoins(done, reqs, Used, h, reqs[h].(phase := Used));
    FewInPhase(done + [h], WithPhase(reqs, h, Used), Used);
    UsedPush(used, id, idx, done, h);
  }

  /** The handler finds the buffer of the request it was told of. */
  lemma Readied(free: seq<bool>, desc: seq<Desc>, info: seq<Option<nat>>, reqs: Reqs, queue: seq<nat>, done: seq<nat>,
      h: nat)
    requires Chains(free, desc, info, reqs) && InPhase(queue, reqs, Queued) && InPhase(done, reqs, Used)
      && done != [] && h == done[0]
    ensures h in reqs && reqs[h].phase.Used? && |info| == NUM && h < NUM && info[h] == Some(reqs[h].buf)
      && Chains(free, desc, info, WithPhase(reqs, h, Ready))
    ensures InPhase(queue, WithPhase(reqs, h, Ready), Queued) && InPhase(done[1..], WithPhase(reqs, h, Ready), Used)
  {
    assert h in done;
    assert ReqOk(free, desc, info, h, reqs[h]);
    hide Chains;
    ChainsPhase(free, desc, info, reqs, h, Ready);
    PhaseStays(queue, reqs, Queued, h, reqs[h].(phase := Ready));
    PhaseLeaves(done, reqs, Used, reqs[h].(phase := Ready));
  }

  lemma Finished(free: seq<bool>, desc: seq<Desc>, info: seq<Option<nat>>, reqs: Reqs, busy: set<nat>, bufs: map<nat,
      Block>, blocks: map<nat, Block>, queue: seq<nat>, done: seq<nat>, h: nat)
    requires Chains(free, desc, info, reqs) && DataOk(reqs, busy, bufs, blocks) && InPhase(queue, reqs, Queued)
      && InPhase(done, reqs, Used)
    requires h in reqs && reqs[h].buf !in busy
    ensures |free| == |desc| == |info| == NUM && ReqOk(free, desc, info, h, reqs[h]) && reqs[h].phase.Ready?
    ensures DataOk(reqs - {h}, busy, bufs, blocks) && InPhase(queue, reqs - {h}, Queued)
      && InPhase(done, reqs - {h}, Used)
    ensures var r := reqs[h]; r.buf in bufs && r.block in blocks && bufs[r.buf] == r.data && blocks[r.block] == r.data
  {
    assert ReqOk(free, desc, info, h, reqs[h]) && Moves(reqs[h], busy, bufs, blocks);
    hide Chains, DataOk, ReqOk;
    DataWithout(reqs, busy, bufs, blocks, h);
    PhaseWithout(queue, reqs, Queued, h);
    PhaseWithout(done, reqs, Used, h);
  }

  /** Room in both rings: with a third request there would be nine descriptors. */
  lemma Submitted(free: seq<bool>, desc: seq<Desc>, info: seq<Option<nat>>, reqs: Reqs, free': seq<bool>,
      desc': seq<Desc>, info': seq<Option<nat>>, h: nat, r: Req, avail: seq<nat>, idx: nat, last: nat,
      queue: seq<nat>, done: seq<nat>)
    requires Chains(free, desc, info, reqs) && Filled(free, desc, info, free', desc', info', h, r) && r.phase.Queued?
    requires AvailOk(avail, idx, last, queue) && InPhase(queue, reqs, Queued) && InPhase(done, reqs, Used)
    ensures h !in reqs && Chains(free', desc', info', reqs[h := r]) && |avail| == NUM
    ensures AvailOk(Put(avail, idx, h), (idx + 1) % U16, last, queue + [h])
    ensures InPhase(queue + [h], reqs[h := r], Queued) && InPhase(done, reqs[h := r], Used)
  {
    hide Filled, Chains;
    ChainsAdd(free, desc, info, reqs, free', desc', info', h, r);
    AtMostTwo(free', desc', info', reqs[h := r]);
    PhaseJoins(queue, reqs, Queued, h, r);
    FewInPhase(queue + [h], reqs[h := r], Queued);
    AvailPush(avail, idx, last, queue, h);
    PhaseStays(done, reqs, Used, h, r);
  }

  function FirstFree(free: seq<bool>, from: nat): (i: nat)
    requires from <= |free|
    ensures from <= i <= |free| && (i < |free| ==> free[i]) && forall j: nat :: from <= j < i ==> !free[j]
    decreases |free| - from
  {
    if from == |free| || free[from] then from else FirstFree(free, from + 1)
  }

  /** Not three free. */
  ghost predicate FewFree(free: seq<bool>)
  {
    forall i: nat, j: nat, k: nat :: i < j < k < |free| ==> !free[i] || !free[j] || !free[k]
  }

  ghost predicate SameInUse(free: seq<bool>, desc: seq<Desc>, desc': seq<Desc>)
  {
    |free| == |desc| == |desc'| == NUM && forall i: nat :: i < NUM && !free[i] ==> desc'[i] == desc[i]
  }

  class Disk {
    // driver
    var free: seq<bool>
    var desc: seq<Desc>
    var info: seq<Option<nat>>
    var avail: seq<nat>
    var availIdx: nat
    var usedIdx: nat
    var busy: set<nat>  // buffers marked as the disk's
    // device
    var used: seq<nat>
    var usedId: nat
    var lastAvail: nat
    var taken: set<nat>
    var bufs: map<nat, Block>
    var blocks: map<nat, Block>
    // requests in flight, by head descriptor; the order in each ring
    ghost var reqs: Reqs
    ghost var queue: seq<nat>
    ghost var done: seq<nat>

    ghost predicate Valid()
      reads this
    {
      && Chains(free, desc, info, reqs) && DataOk(reqs, busy, bufs, blocks)
      && AvailOk(avail, availIdx, lastAvail, queue) && UsedOk(used, usedId, usedIdx, done)
      && InPhase(queue, reqs, Queued) && InPhase(done, reqs, Used)
      && TakenOk(taken, reqs)
    }

    constructor (bufs: map<nat, Block>, blocks: map<nat, Block>)
      ensures Valid() && reqs == map[]
    {
      free := seq(NUM, i => true);
      desc := seq(NUM, i => Desc(Null, false, false, 0));
      info := seq(NUM, i => None);
      avail, used := seq(NUM, i => 0), seq(NUM, i => 0);
      availIdx, usedIdx, usedId, lastAvail := 0, 0, 0, 0;
      busy, taken := {}, {};
      reqs, queue, done := map[], [], [];
      this.bufs, this.blocks := bufs, blocks;
    }

    method AllocDesc() returns (i: nat)
      requires |free| == NUM
      modifies this`free
      ensures i == FirstFree(old(free), 0)
      ensures free == if i < NUM then old(free)[i := false] else old(free)
    {
      i := 0;
      while i < NUM && !free[i]
        invariant i <= NUM && FirstFree(free, 0) == FirstFree(free, i) && free == old(free)
      {
        i := i + 1;
      }
      if i < NUM { free := free[i := false]; }
    }

    method FreeDesc(i: nat)
      requires |free| == |desc| == NUM && i < NUM && !free[i]
      modifies this`free, this`desc
      ensures free == old(free)[i := true] && desc == old(desc)[i := old(desc)[i].(addr := Null)]
    {
      desc := desc[i := desc[i].(addr := Null)];
      free := free[i := true];
    }

    /** Three descriptors or none. */
    method Alloc3Desc() returns (ok: bool, a: nat, b: nat, c: nat)
      requires |free| == |desc| == NUM
      modifies this`free, this`desc
      ensures |free| == |desc| == NUM && forall i: nat :: i < NUM && !old(free)[i] ==> desc[i] == old(desc)[i]
      ensures ok ==>
        a < NUM && b < NUM && c < NUM && a != b && a != c && b != c && old(free)[a] && old(free)[b] && old(free)[c]
      ensures ok ==> forall i: nat :: i < NUM ==> free[i] == (old(free)[i] && i != a && i != b && i != c)
      ensures !ok ==> free == old(free) && FewFree(free)
    {
      ok, b, c := false, 0, 0;
      a := AllocDesc();
      if a == NUM { return; }
      b := AllocDesc();
      if b == NUM {
        FreeDesc(a);
        return;
      }
      c := AllocDesc();
      if c == NUM {
        FreeDesc(a);
        FreeDesc(b);
        return;
      }
      ok := true;
    }

    /** The first half of virtio_disk_rw: take three descriptors, fill them in and put the head
        on the available ring; without descriptors the caller sleeps and nothing changes. */
    method Submit(b: nat, write: bool, block: nat) returns (ok: bool, h: nat)
      requires Valid() && b in bufs && block in blocks && (forall g ::
        g in reqs ==> reqs[g].buf != b && reqs[g].block != block)
      modifies this
      ensures Valid() && bufs == old(bufs) && blocks == old(blocks)
      ensures !ok ==> reqs == old(reqs) && free == old(free) && FewFree(free) && busy == old(busy)
      ensures ok ==> h !in old(reqs) && h in reqs && reqs == old(reqs)[h := reqs[h]] && busy == old(busy) + {b}
      ensures ok ==>
        var r := reqs[h];
        r.buf == b && r.write == write && r.block == block && r.phase.Queued?
        && r.data == if write then bufs[b] else blocks[block]
    {
      hide Chains, DataOk, AvailOk, UsedOk, InPhase, Filled, SameInUse, FewFree;
      SizesOf(free, desc, info, reqs);
      ghost var r := Req(b, write, block, if write then bufs[b] else blocks[block], 0, 0, Queued);
      ok, h, r := Prepare(b, write, block, r);
      if !ok {
        ChainsSame(free, old(desc), info, reqs, desc);
        return;
      }
      Enqueue(b, h, r, old(free), old(desc), old(info));
    }

    /** The buffer is marked as the disk's, and the head goes on the ring. */
    method Enqueue(b: nat, h: nat, ghost r: Req, ghost free0: seq<bool>, ghost desc0: seq<Desc>,
        ghost info0: seq<Option<nat>>)
      requires Chains(free0, desc0, info0, reqs) && DataOk(reqs, busy, bufs, blocks)
        && Filled(free0, desc0, info0, free, desc, info, h, r)
      requires AvailOk(avail, availIdx, lastAvail, queue) && UsedOk(used, usedId, usedIdx, done)
        && InPhase(queue, reqs, Queued) && InPhase(done, reqs, Used)
      requires TakenOk(taken, reqs)
      requires (forall g :: g in reqs ==> Clear(reqs[g], r)) && r.buf == b && r.phase.Queued?
      requires b in bufs && r.block in blocks && r.data == if r.write then bufs[b] else blocks[r.block]
      modifies this`busy, this`avail, this`availIdx, this`reqs, this`queue
      ensures Valid() && h !in old(reqs) && reqs == old(reqs)[h := r] && busy == old(busy) + {b}
    {
      hide Chains, DataOk, AvailOk, UsedOk, InPhase, Filled, Clear, TakenOk, Put;
      Submitted(free0, desc0, info0, reqs, free, desc, info, h, r, avail, availIdx, lastAvail, queue, done);
      TakenStays(taken, reqs, h, r);
      DataAdd(reqs, busy, bufs, blocks, h, r);
      busy := busy + {b};
      PutAvail(h);
      reqs := reqs[h := r];
    }

    /** The head goes into the next place of the available ring. */
    method PutAvail(h: nat)
      requires |avail| == NUM && AvailOk(Put(avail, availIdx, h), (availIdx + 1) % U16, lastAvail, queue + [h])
      modifies this`avail, this`availIdx, this`queue
      ensures AvailOk(avail, availIdx, lastAvail, queue) && queue == old(queue) + [h]
    {
      hide AvailOk;
      avail := Put(avail, availIdx, h);
      availIdx := (availIdx + 1) % U16;
      queue := queue + [h];
    }

    method Prepare(b: nat, write: bool, block: nat, ghost r0: Req) returns (ok: bool, h: nat, ghost r: Req)
      requires |free| == |desc| == |info| == NUM && r0.buf == b && r0.write == write && r0.block == block
      modifies this`free, this`desc, this`info
      ensures !ok ==> free == old(free) && FewFree(free) && info == old(info) && SameInUse(free, old(desc), desc)
      ensures ok ==>
        r == r0.(mid := r.mid, tail := r.tail) && Filled(old(free), old(desc), old(info), free, desc, info, h, r)
    {
      hide Filled, FewFree;
      var mid, tail;
      ok, h, mid, tail := Alloc3Desc();
      r := r0.(mid := mid, tail := tail);
      if ok { Fill(h, mid, tail, b, write, block, old(free), old(desc), r); }
    }

    method Fill(h: nat, mid: nat, tail: nat, b: nat, write: bool, block: nat, ghost free0: seq<bool>,
        ghost desc0: seq<Desc>, ghost r: Req)
      requires |free| == |desc| == |info| == |free0| == |desc0| == NUM && h < NUM && mid < NUM && tail < NUM
        && h != mid && h != tail && mid != tail
      requires free0[h] && free0[mid] && free0[tail] && forall i: nat ::
        i < NUM ==> free[i] == (free0[i] && i != h && i != mid && i != tail)
      requires forall i: nat :: i < NUM && !free0[i] ==> desc[i] == desc0[i]
      requires r.buf == b && r.write == write && r.block == block && r.mid == mid && r.tail == tail
      modifies this`desc, this`info
      ensures Filled(free0, desc0, old(info), free, desc, info, h, r)
    {
      desc := desc[h := Desc(Header(write, block), true, false, mid)];
      desc := desc[mid := Desc(Buffer(b), true, !write, tail)];
      desc := desc[tail := Desc(Status(h), false, true, 0)];
      info := info[h := Some(b)];
    }

    /** The device takes the next head off the available ring. */
    method Fetch()
      requires Valid() && lastAvail != availIdx
      modifies this`lastAvail, this`taken, this`reqs, this`queue
      ensures Valid() && old(queue) != [] && reqs == WithPhase(old(reqs), old(queue)[0], Taken)
    {
      hide Chains, DataOk, UsedOk, AvailOk, InPhase, TakenOk;
      AvailPop(avail, availIdx, lastAvail, queue);
      var h := avail[lastAvail % NUM];
      TakenJoins(taken, reqs, h);
      Moved(free, desc, info, reqs, queue, done, h, Taken);
      DataTaken(reqs, busy, bufs, blocks, h);
      taken := taken + {h};
      lastAvail := (lastAvail + 1) % U16;
      reqs, queue := WithPhase(reqs, h, Taken), queue[1..];
    }

    /** The device follows the chain and moves the block. */
    method Transfer(h: nat)
      requires Chains(free, desc, info, reqs) && DataOk(reqs, busy, bufs, blocks) && h in reqs && reqs[h].phase.Taken?
      modifies this`bufs, this`blocks
      ensures DataOk(WithPhase(reqs, h, Used), busy, bufs, blocks)
        && Carried(reqs[h], old(bufs), old(blocks), bufs, blocks)
    {
      hide Chains, DataOk;
      ChainRead(free, desc, info, reqs, h);
      DataMoved(reqs, busy, bufs, blocks, h);
      var block, buf := desc[h].addr.block, desc[desc[h].next].addr.buf;
      if desc[h].addr.write { blocks := blocks[block := bufs[buf]]; } else { bufs := bufs[buf := blocks[block]]; }
    }

    /** The device, in any order, carries out a request it took, reports success and puts the
        head on the used ring. */
    method Complete(h: nat)
      requires Valid() && h in taken
      modifies this`taken, this`used, this`usedId, this`bufs, this`blocks, this`reqs, this`done
      ensures Valid() && h in old(reqs) && old(reqs)[h].phase.Taken? && reqs == WithPhase(old(reqs), h, Used)
      ensures Carried(old(reqs)[h], old(bufs), old(blocks), bufs, blocks)
    {
      hide Chains, DataOk, AvailOk, UsedOk, InPhase, TakenOk, Carried;
      TakenLeaves(taken, reqs, h);
      Transfer(h);
      Completed(free, desc, info, reqs, queue, done, h, used, usedId, usedIdx);
      taken := taken - {h};
      used := Put(used, usedId, h);
      usedId := (usedId + 1) % U16;
      reqs, done := WithPhase(reqs, h, Used), done + [h];
    }

    /** One round of the interrupt handler's loop. */
    method IntrOne()
      requires Valid() && usedIdx % NUM != usedId % NUM
      modifies this`usedIdx, this`busy, this`reqs, this`done
      ensures Valid() && old(done) != [] && done == old(done)[1..] && old(done)[0] in old(reqs)
      ensures reqs == WithPhase(old(reqs), old(done)[0], Ready) && busy == old(busy) - {old(reqs)[old(done)[0]].buf}
    {
      hide Chains, DataOk, AvailOk, UsedOk, InPhase, TakenOk;
      ComparisonExact(used, usedId, usedIdx, done);
      UsedPop(used, usedId, usedIdx, done);
      var id := used[usedIdx];
      Readied(free, desc, info, reqs, queue, done, id);
      TakenStays(taken, reqs, id, reqs[id].(phase := Ready));
      DataReady(reqs, busy, bufs, blocks, id);
      busy := busy - {info[id].value};
      usedIdx := (usedIdx + 1) % NUM;
      reqs, done := WithPhase(reqs, id, Ready), done[1..];
    }

    /** virtio_disk_intr: every completion that waits is seen, once. */
    method Intr()
      requires Valid()
      modifies this`usedIdx, this`busy, this`reqs, this`done
      ensures Valid() && done == [] && reqs.Keys == old(reqs).Keys
    {
      hide Chains, DataOk, AvailOk, UsedOk, InPhase, TakenOk;
      while usedIdx % NUM != usedId % NUM
        invariant Valid() && reqs.Keys == old(reqs).Keys
        decreases |done|
      {
        IntrOne();
      }
      ComparisonExact(used, usedId, usedIdx, done);
    }

    method FreeChain(i: nat, ghost mid: nat, ghost tail: nat)
      requires |free| == |desc| == NUM && i < NUM && mid < NUM && tail < NUM && i != mid && i != tail && mid != tail
      requires !free[i] && !free[mid] && !free[tail]
      requires desc[i].chained && desc[i].next == mid && desc[mid].chained && desc[mid].next == tail
        && !desc[tail].chained
      modifies this`free, this`desc
      ensures |free| == |desc| == NUM
      ensures forall k: nat :: k < NUM ==> free[k] == (old(free)[k] || k == i || k == mid || k == tail)
      ensures forall k: nat :: k < NUM && k != i && k != mid && k != tail ==> desc[k] == old(desc)[k]
    {
      var at := i;
      ghost var left := 2;
      while true
        invariant |free| == |desc| == NUM && left <= 2 && at
          == (if left == 2 then i else if left == 1 then mid else tail)
        invariant forall k: nat :: k < NUM ==> desc[k].(addr := Null) == old(desc)[k].(addr := Null)
        invariant forall k: nat ::
          k < NUM ==> free[k] == (old(free)[k] || (k == i && left < 2) || (k == mid && left < 1))
        invariant forall k: nat :: k < NUM && k != i && k != mid && k != tail ==> desc[k] == old(desc)[k]
        decreases left
      {
        FreeDesc(at);
        if !desc[at].chained { break; }
        at := desc[at].next;
        left := left - 1;
      }
    }

    /** The second half of virtio_disk_rw, once b->disk is 0: the block and the buffer hold the
        data the request was for, and its descriptors are free again. */
    method Finish(h: nat, b: nat)
      requires Valid() && h in reqs && reqs[h].buf == b && b !in busy
      modifies this`free, this`desc, this`info, this`reqs
      ensures Valid() && reqs == old(reqs) - {h}
      ensures var r := old(reqs)[h]; b in bufs && r.block in blocks && bufs[b] == r.data && blocks[r.block] == r.data
    {
      hide Chains, DataOk, AvailOk, UsedOk, InPhase, TakenOk;
      ghost var r := reqs[h];
      Finished(free, desc, info, reqs, busy, bufs, blocks, queue, done, h);
      TakenStays(taken, reqs, h, r);
      info := info[h := None];
      FreeChain(h, r.mid, r.tail);
      ChainsRemove(old(free), old(desc), old(info), reqs, free, desc, info, h);
      reqs := reqs - {h};
    }
  }
}
