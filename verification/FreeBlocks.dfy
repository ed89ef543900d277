/** How many blocks are free, and how many a file lacks: the count behind the panics of
    balloc() in kernel/fs.c. */
module FreeBlocks {
  import opened Common
  import opened Blocks
  import opened FsBlocks

  /** The blocks whose bit is clear. */
  ghost function ClearBlocks(sb: Super, data: Disk): (s: set<nat>) { set b: nat | b < sb.size && !Marked(sb, data, b) }

  ghost function Clear(sb: Super, data: Disk): (n: nat) { |ClearBlocks(sb, data)| }

  /** Every data block is owned or clear. */
  lemma ClearIs(sb: Super, data: Disk, inode: seq<Inode>, owner: Owners)
    requires Owned(sb, data, inode, owner)
    ensures sb.datastart <= sb.size && Clear(sb, data) + |owner| == sb.size - sb.datastart
  {
    hide Marked, At;
    var all := Range(sb.datastart, sb.size);
    forall b | b in owner ensures b in all { assert OwnedBack(sb, data, inode, owner, b); }
    assert ClearBlocks(sb, data) == all - owner.Keys;
    assert owner.Keys <= all;
    assert |owner| == |owner.Keys|;
  }

  /** Slot k of inode i holds a block. */
  ghost predicate Has(owner: Owners, i: nat, k: nat) { exists b :: b in owner && owner[b] == (i, k) }

  lemma HasIs(sb: Super, data: Disk, inode: seq<Inode>, owner: Owners, i: nat, k: nat)
    requires Slots(sb, data, inode, owner) && i < |inode| && k < SLOTS
    ensures |inode[i].addrs| == 13 && (At(data, inode[i], k) != 0 <==> Has(owner, i, k))
  {
    hide At;
    assert SlotOwns(data, inode, owner, i, k);
    if Has(owner, i, k) {
      var b :| b in owner && owner[b] == (i, k);
      assert OwnedBack(sb, data, inode, owner, b) && b != 0;
    }
  }

  /** Blocks that have to be allocated before slot k of an inode is filled. */
  ghost function Needed(data: Disk, ip: Inode, k: nat): (n: nat)
    requires |ip.addrs| == 13 && k < SLOTS
  {
    (if At(data, ip, k) == 0 then 1 else 0) + (if k >= 13 && ip.addrs[12] == 0 then 1 else 0)
  }

  ghost predicate InFile(t: set<nat>) { forall j :: j in t ==> j < MAXFILE }

  ghost predicate Beyond(t: set<nat>) { exists j :: j in t && j >= NDIRECT }

  /** The blocks of a file to allocate before those numbered in t are all there: themselves,
      and the indirect block once. */
  ghost function Lacking(data: Disk, ip: Inode, t: set<nat>): (n: nat)
    requires |ip.addrs| == 13 && InFile(t)
  {
    |Holes(data, ip, t)| + if Beyond(t) && ip.addrs[12] == 0 then 1 else 0
  }

  ghost function Holes(data: Disk, ip: Inode, t: set<nat>): (s: set<nat>)
    requires |ip.addrs| == 13 && InFile(t)
  {
    set j | j in t && At(data, ip, SlotOf(j)) == 0
  }

  lemma LackingNone(data: Disk, ip: Inode)
    requires |ip.addrs| == 13
    ensures Lacking(data, ip, {}) == 0
  {
    assert Holes(data, ip, {}) == {};
  }

  lemma LackingOne(data: Disk, ip: Inode, t: set<nat>, k: nat)
    requires |ip.addrs| == 13 && InFile(t) && k < MAXFILE
    ensures Lacking(data, ip, t + {k}) == Lacking(data, ip, t)
      + (if k !in t && At(data, ip, SlotOf(k)) == 0 then 1 else 0)
      + if k >= NDIRECT && !Beyond(t) && ip.addrs[12] == 0 then 1 else 0
  {
    hide At;
    assert InFile(t + {k});
    var a, b := Holes(data, ip, t), Holes(data, ip, t + {k});
    assert b == if k !in t && At(data, ip, SlotOf(k)) == 0 then a + {k} else a;
    BeyondOne(t, k);
  }

  lemma {:induction false} LackingMore(data: Disk, ip: Inode, t: set<nat>, u: set<nat>)
    requires |ip.addrs| == 13 && InFile(u) && t <= u
    ensures InFile(t) && Lacking(data, ip, t) <= Lacking(data, ip, u)
    decreases u
  {
    hide At;
    assert Holes(data, ip, t) <= Holes(data, ip, u);
    SubsetSize(Holes(data, ip, t), Holes(data, ip, u));
    if Beyond(t) {
      var j :| j in t && j >= NDIRECT;
      assert j in u;
    }
  }

  /** bmap() of block k of file i: what it may add to the owners. */
  ghost predicate Steps(owner: Owners, owner': Owners, i: nat, k: nat)
  {
    && (forall b :: b in owner ==> b in owner' && owner'[b] == owner[b])
    && (forall b :: b in owner' && b !in owner ==>
          owner'[b].0 == i && (owner'[b].1 == SlotOf(k) || (owner'[b].1 == 12 && k >= NDIRECT)))
    && Has(owner', i, SlotOf(k)) && (k >= NDIRECT ==> Has(owner', i, 12))
  }

  /** Since (data0, ip0, owner0), exactly the blocks numbered in t came in where they lacked. */
  ghost predicate Spent(data0: Disk, ip0: Inode, i: nat, owner0: Owners, owner: Owners, t: set<nat>)
  {
    && |ip0.addrs| == 13 && InFile(t) && |owner| == |owner0| + Lacking(data0, ip0, t)
    && (forall j: nat :: j < MAXFILE ==> (Has(owner, i, SlotOf(j)) <==> Has(owner0, i, SlotOf(j)) || j in t))
    && (Has(owner, i, 12) <==> Has(owner0, i, 12) || Beyond(t))
  }

  lemma SpentNone(data0: Disk, ip0: Inode, i: nat, owner0: Owners)
    requires |ip0.addrs| == 13
    ensures Spent(data0, ip0, i, owner0, owner0, {})
  {
    LackingNone(data0, ip0);
  }

  /** What block k takes now is what it adds to the count. */
  lemma SpentNeeds(sb: Super, data0: Disk, inode0: seq<Inode>, owner0: Owners, data: Disk, inode: seq<Inode>,
      owner: Owners, i: nat, t: set<nat>, k: nat)
    requires Slots(sb, data0, inode0, owner0) && Slots(sb, data, inode, owner) && i < |inode0| == |inode| && k < MAXFILE
    requires |inode0[i].addrs| == 13 && Spent(data0, inode0[i], i, owner0, owner, t)
    ensures |inode[i].addrs| == 13
      && Lacking(data0, inode0[i], t + {k}) == Lacking(data0, inode0[i], t) + Needed(data, inode[i], SlotOf(k))
  {
    hide Slots, Lacking, Has;
    HasIs(sb, data0, inode0, owner0, i, SlotOf(k));
    HasIs(sb, data, inode, owner, i, SlotOf(k));
    HasIs(sb, data0, inode0, owner0, i, 12);
    HasIs(sb, data, inode, owner, i, 12);
    LackingOne(data0, inode0[i], t, k);
    assert At(data, inode[i], 12) == inode[i].addrs[12] && At(data0, inode0[i], 12) == inode0[i].addrs[12];
    assert SlotOf(k) >= 13 <==> k >= NDIRECT;
    hide At, Beyond;
  }

  lemma SpentNext(data0: Disk, ip0: Inode, i: nat, owner0: Owners, owner: Owners, owner': Owners, t: set<nat>, k: nat)
    requires Spent(data0, ip0, i, owner0, owner, t) && Steps(owner, owner', i, k) && k < MAXFILE
      && |owner'| == |owner0| + Lacking(data0, ip0, t + {k})
    ensures Spent(data0, ip0, i, owner0, owner', t + {k})
  {
    hide Lacking;
    forall j: nat | j < MAXFILE
      ensures Has(owner', i, SlotOf(j)) <==> Has(owner0, i, SlotOf(j)) || j in t + {k} {
      StepsHas(owner, owner', i, k, SlotOf(j));
      assert SlotOf(j) == SlotOf(k) <==> j == k;
    }
    StepsHas(owner, owner', i, k, 12);
    BeyondOne(t, k);
  }

  lemma BeyondOne(t: set<nat>, k: nat)
    ensures Beyond(t + {k}) <==> Beyond(t) || k >= NDIRECT
  {
    if k >= NDIRECT { assert k in t + {k}; }
    if Beyond(t) {
      var j :| j in t && j >= NDIRECT;
      assert j in t + {k};
    }
  }

  lemma StepsHas(owner: Owners, owner': Owners, i: nat, k: nat, s: nat)
    requires Steps(owner, owner', i, k)
    ensures Has(owner', i, s) <==> Has(owner, i, s) || s == SlotOf(k) || (s == 12 && k >= NDIRECT)
  {
    if Has(owner, i, s) {
      var b :| b in owner && owner[b] == (i, s);
      assert owner'[b] == (i, s);
    }
  }

  lemma SpentHoles(sb: Super, data0: Disk, inode0: seq<Inode>, owner0: Owners, data: Disk, inode: seq<Inode>,
      owner: Owners, i: nat, t: set<nat>, k: nat)
    requires Slots(sb, data0, inode0, owner0) && Slots(sb, data, inode, owner) && i < |inode0| == |inode| && k < MAXFILE
    requires |inode0[i].addrs| == 13 && Spent(data0, inode0[i], i, owner0, owner, t)
    ensures |inode[i].addrs| == 13
    ensures At(data, inode[i], SlotOf(k)) == 0 <==> At(data0, inode0[i], SlotOf(k)) == 0 && k !in t
    ensures inode[i].addrs[12] == 0 <==> inode0[i].addrs[12] == 0 && !Beyond(t)
  {
    hide Slots, Lacking, Has;
    HasIs(sb, data0, inode0, owner0, i, SlotOf(k));
    HasIs(sb, data, inode, owner, i, SlotOf(k));
    HasIs(sb, data0, inode0, owner0, i, 12);
    HasIs(sb, data, inode, owner, i, 12);
  }

  lemma {:induction false} LackingUnion(sb: Super, data0: Disk, inode0: seq<Inode>, owner0: Owners, data: Disk,
      inode: seq<Inode>, owner: Owners, i: nat, t: set<nat>, u: set<nat>)
    requires Slots(sb, data0, inode0, owner0) && Slots(sb, data, inode, owner) && i < |inode0| == |inode| && InFile(u)
    requires |inode0[i].addrs| == 13 && Spent(data0, inode0[i], i, owner0, owner, t)
    ensures |inode[i].addrs| == 13 && InFile(t + u)
      && Lacking(data0, inode0[i], t + u) == Lacking(data0, inode0[i], t) + Lacking(data, inode[i], u)
    decreases u
  {
    hide Slots, Lacking, At;
    SpentHoles(sb, data0, inode0, owner0, data, inode, owner, i, t, 0);
    if u == {} {
      assert t + u == t;
      LackingNone(data, inode[i]);
    } else {
      var k :| k in u;
      var v := u - {k};
      LackingUnion(sb, data0, inode0, owner0, data, inode, owner, i, t, v);
      SpentHoles(sb, data0, inode0, owner0, data, inode, owner, i, t, k);
      hide Spent;
      assert t + u == (t + v) + {k} && u == v + {k};
      LackingOne(data0, inode0[i], t + v, k);
      LackingOne(data, inode[i], v, k);
      BeyondBoth(t, v);
    }
  }

  lemma BeyondBoth(t: set<nat>, u: set<nat>)
    ensures Beyond(t + u) <==> Beyond(t) || Beyond(u)
  {
    if Beyond(t) {
      var j :| j in t && j >= NDIRECT;
      assert j in t + u;
    }
    if Beyond(u) {
      var j :| j in u && j >= NDIRECT;
      assert j in t + u;
    }
  }

  /** Blocks that came in one after the other came in together. */
  lemma SpentTrans(sb: Super, data0: Disk, inode0: seq<Inode>, owner0: Owners, data: Disk, inode: seq<Inode>,
      owner: Owners, i: nat, t: set<nat>, u: set<nat>, owner': Owners)
    requires Slots(sb, data0, inode0, owner0) && Slots(sb, data, inode, owner) && i < |inode0| == |inode|
    requires |inode0[i].addrs| == 13 && Spent(data0, inode0[i], i, owner0, owner, t)
    requires |inode[i].addrs| == 13 && Spent(data, inode[i], i, owner, owner', u)
    ensures Spent(data0, inode0[i], i, owner0, owner', t + u)
  {
    hide Slots, Lacking, Has, Beyond;
    LackingUnion(sb, data0, inode0, owner0, data, inode, owner, i, t, u);
    BeyondBoth(t, u);
  }

  /** What is clear now is what was, less what was spent. */
  lemma ClearLeft(sb: Super, data0: Disk, inode0: seq<Inode>, owner0: Owners, data: Disk, inode: seq<Inode>,
      owner: Owners, i: nat, t: set<nat>)
    requires Owned(sb, data0, inode0, owner0) && Owned(sb, data, inode, owner) && i < |inode0|
    requires |inode0[i].addrs| == 13 && Spent(data0, inode0[i], i, owner0, owner, t)
    ensures Clear(sb, data) == Clear(sb, data0) - Lacking(data0, inode0[i], t)
  {
    hide Owned, Clear, Lacking, Has;
    ClearIs(sb, data0, inode0, owner0);
    ClearIs(sb, data, inode, owner);
  }

  /** Every block numbered in t that a file lacks can be allocated. */
  ghost predicate Enough(sb: Super, data: Disk, ip: Inode, t: set<nat>)
    requires |ip.addrs| == 13
  {
    InFile(t) && Lacking(data, ip, t) <= Clear(sb, data)
  }

  lemma EnoughNone(sb: Super, data: Disk, ip: Inode)
    requires |ip.addrs| == 13
    ensures Enough(sb, data, ip, {})
  {
    LackingNone(data, ip);
  }

  lemma EnoughLess(sb: Super, data: Disk, ip: Inode, t: set<nat>, u: set<nat>)
    requires |ip.addrs| == 13 && t <= u && Enough(sb, data, ip, u)
    ensures Enough(sb, data, ip, t)
  {
    hide Lacking, Clear;
    LackingMore(data, ip, t, u);
  }

  lemma EnoughOne(sb: Super, data0: Disk, inode0: seq<Inode>, owner0: Owners, data: Disk, inode: seq<Inode>,
      owner: Owners, i: nat, t: set<nat>, k: nat)
    requires Owned(sb, data0, inode0, owner0) && Owned(sb, data, inode, owner) && i < |inode0| == |inode|
      && k < MAXFILE
    requires |inode0[i].addrs| == 13 && Spent(data0, inode0[i], i, owner0, owner, t)
    ensures |inode[i].addrs| == 13
    ensures Needed(data, inode[i], SlotOf(k)) <= Clear(sb, data) <==> Enough(sb, data0, inode0[i], t + {k})
  {
    assert Slots(sb, data0, inode0, owner0) && Slots(sb, data, inode, owner);
    hide Owned, Slots, Clear, Lacking, Has, Needed;
    ClearLeft(sb, data0, inode0, owner0, data, inode, owner, i, t);
    SpentNeeds(sb, data0, inode0, owner0, data, inode, owner, i, t, k);
  }

  lemma EnoughUnion(sb: Super, data0: Disk, inode0: seq<Inode>, owner0: Owners, data: Disk, inode: seq<Inode>,
      owner: Owners, i: nat, t: set<nat>, u: set<nat>)
    requires Owned(sb, data0, inode0, owner0) && Owned(sb, data, inode, owner) && i < |inode0| == |inode|
    requires |inode0[i].addrs| == 13 && Spent(data0, inode0[i], i, owner0, owner, t) && InFile(u)
    ensures |inode[i].addrs| == 13
    ensures Enough(sb, data, inode[i], u) <==> Enough(sb, data0, inode0[i], t + u)
  {
    assert Slots(sb, data0, inode0, owner0) && Slots(sb, data, inode, owner);
    hide Owned, Slots, Clear, Lacking, Has;
    ClearLeft(sb, data0, inode0, owner0, data, inode, owner, i, t);
    LackingUnion(sb, data0, inode0, owner0, data, inode, owner, i, t, u);
  }

  lemma SpentOne(sb: Super, data0: Disk, inode0: seq<Inode>, owner0: Owners, data: Disk, inode: seq<Inode>,
      owner: Owners, i: nat, t: set<nat>, k: nat, owner': Owners)
    requires Slots(sb, data0, inode0, owner0) && Slots(sb, data, inode, owner) && i < |inode0| == |inode|
      && k < MAXFILE
    requires |inode0[i].addrs| == 13 && Spent(data0, inode0[i], i, owner0, owner, t)
    requires |inode[i].addrs| == 13 && Steps(owner, owner', i, k)
      && |owner'| == |owner| + Needed(data, inode[i], SlotOf(k))
    ensures Spent(data0, inode0[i], i, owner0, owner', t + {k})
  {
    hide Slots, Lacking, Has, Needed, Steps;
    SpentNeeds(sb, data0, inode0, owner0, data, inode, owner, i, t, k);
    SpentNext(data0, inode0[i], i, owner0, owner, owner', t, k);
  }
}
