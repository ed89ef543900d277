/** balloc, bfree, bmap and itrunc of kernel/fs.c.

    `data` holds the blocks as bread() returns them, that is, through the buffer cache and
    the log, and `logged` the blocks given to log_write() since begin_op(). A panic is the
    result !ok, after which nothing is promised. */
module Fs {
  import opened Blocks
  import opened Bitmap
  import opened FsBlocks
  import opened FreeBlocks

  /** File i has more blocks, blank but for its indirect block; every slot that was filled
      and every block of file data is as it was. */
  ghost predicate Extends(data: Disk, owner: Owners, data': Disk, owner': Owners, i: nat)
  {
    && data'.Keys == data.Keys
    && (forall b :: b in owner ==> b in owner' && owner'[b] == owner[b])
    && (forall b :: b in owner && b in data && owner[b].1 != 12 ==> data'[b] == data[b])
    && (forall b :: b in owner' && b !in owner ==>
          owner'[b].0 == i && (b in data' && owner'[b].1 != 12 ==> Blank(data'[b])))
  }

  lemma ExtendsTrans(data0: Disk, owner0: Owners, data1: Disk, owner1: Owners, data2: Disk, owner2: Owners, i: nat)
    requires Extends(data0, owner0, data1, owner1, i) && Extends(data1, owner1, data2, owner2, i)
    ensures Extends(data0, owner0, data2, owner2, i)
  {
    hide Blank;
  }

  /** A filled slot stays filled with the same block. */
  lemma SlotKept(sb: Super, data: Disk, inode: seq<Inode>, owner: Owners, data': Disk, inode': seq<Inode>,
      owner': Owners, e: nat, i: nat, k: nat)
    requires Slots(sb, data, inode, owner) && Slots(sb, data', inode', owner') && Extends(data, owner, data', owner', e)
    requires i < |inode| && k < SLOTS && At(data, inode[i], k) != 0
    ensures i < |inode'| && At(data', inode'[i], k) == At(data, inode[i], k)
    ensures At(data, inode[i], k) in data && At(data, inode[i], k) in data'
    ensures k != 12 ==> data'[At(data, inode[i], k)] == data[At(data, inode[i], k)]
  {
    hide At;
    assert SlotOwns(data, inode, owner, i, k);
    assert OwnedBack(sb, data, inode, owner, At(data, inode[i], k));
    assert OwnedBack(sb, data', inode', owner', At(data, inode[i], k));
  }

  /** An empty slot stays empty, or is filled with a blank block. */
  lemma SlotNew(sb: Super, data: Disk, inode: seq<Inode>, owner: Owners, data': Disk, inode': seq<Inode>,
      owner': Owners, e: nat, i: nat, k: nat)
    requires Slots(sb, data, inode, owner) && Slots(sb, data', inode', owner') && Extends(data, owner, data', owner', e)
    requires i < |inode| && i < |inode'| && k < SLOTS && k != 12 && At(data, inode[i], k) == 0
    ensures var b := At(data', inode'[i], k); b != 0 ==> i == e && b in data' && Blank(data'[b])
  {
    hide At, Blank;
    var b := At(data', inode'[i], k);
    if b != 0 {
      assert SlotOwns(data', inode', owner', i, k);
      assert OwnedBack(sb, data', inode', owner', b);
      assert b in owner ==> OwnedBack(sb, data, inode, owner, b);
    }
  }

  lemma SameBitmapBlock(sb: Super, base: nat, bi: nat)
    requires base % 8192 == 0 && bi < 8192
    ensures BitmapBlock(sb, base + bi) == BitmapBlock(sb, base) && (base + bi) % 8192 == bi
  {
    assert base == base / 8192 * 8192;
    assert (base / 8192 * 8192 + bi) / 8192 == base / 8192;
  }

  class FileSystem {
    const sb: Super
    var data: Disk
    var inode: seq<Inode>             // the in-memory inodes
    var dinode: seq<Inode>            // the inodes on disk
    ghost var owner: Owners
    ghost var logged: set<nat>

    ghost predicate Valid()
      reads this
    {
      Owned(sb, data, inode, owner)
    }

    constructor (sb: Super, data: Disk, inode: seq<Inode>, ghost owner: Owners)
      requires Owned(sb, data, inode, owner)
      ensures Valid() && this.sb == sb && this.data == data && this.inode == inode == dinode && this.owner == owner
        && logged == {}
    {
      this.sb, this.data, this.inode, this.dinode, this.owner, logged := sb, data, inode, inode, owner, {};
    }

    /** No block is free. */
    ghost predicate Full()
      reads this
    {
      forall c: nat :: c < sb.size ==> Marked(sb, data, c)
    }

    /** The inner loop of balloc(): the first clear bit of the bitmap block for blocks
        from `base` on, 8192 if there is none. */
    method ScanBlock(base: nat) returns (bi: nat)
      requires Valid() && base % 8192 == 0 && base < sb.size
      ensures bi <= 8192 && (forall c: nat :: base <= c < base + bi && c < sb.size ==> Marked(sb, data, c))
      ensures bi < 8192 && base + bi < sb.size ==> !Marked(sb, data, base + bi)
      ensures bi < 8192 ==> base + bi < sb.size || forall c: nat :: base <= c < sb.size ==> Marked(sb, data, c)
    {
      hide Bit, Slots, Bits;
      LaidOutHere();
      BitmapRegion(sb, base);
      var bp := data[BitmapBlock(sb, base)];
      bi := 0;
      while bi < 8192 && base + bi < sb.size
        invariant bi <= 8192 && forall c: nat :: base <= c < base + bi ==> Marked(sb, data, c)
        decreases 8192 - bi
      {
        SameBitmapBlock(sb, base, bi);
        if !Bit(bp, bi) {
          return;
        }
        bi := bi + 1;
      }
    }

    lemma LaidOutHere()
      requires Valid()
      ensures LaidOut(sb) && forall b: nat :: b in data <==> b < sb.size
    {}

    /** balloc(): the lowest free block, marked and zeroed; 0 is the panic. */
    method Balloc() returns (b: nat)
      requires Valid()
      modifies `data, `logged
      ensures b == 0 ==>
        data == old(data) && logged == old(logged) && forall c: nat :: c < sb.size ==> Marked(sb, data, c)
      ensures b != 0 ==> b < sb.size && !Marked(sb, old(data), b) && BitmapBlock(sb, b) in old(data)
      ensures b != 0 ==> forall c: nat :: c < b ==> Marked(sb, old(data), c)
      ensures b != 0 ==> data == Allocated(sb, old(data), b, Zeros) && logged == old(logged) + {BitmapBlock(sb, b), b}
    {
      hide Bit, Slots, Marked, SetBit;
      LaidOutHere();
      var base := 0;
      while base < sb.size
        invariant base % 8192 == 0 && forall c: nat :: c < base && c < sb.size ==> Marked(sb, data, c)
        invariant data == old(data) && logged == old(logged)
        decreases sb.size - base
      {
        var bi := ScanBlock(base);
        if bi < 8192 && base + bi < sb.size {
          b := base + bi;
          BitmapRegion(sb, b);
          data := data[BitmapBlock(sb, b) := SetBit(data[BitmapBlock(sb, b)], b % 8192)];
          data := data[b := Zeros];
          logged := logged + {BitmapBlock(sb, b), b};
          return;
        }
        base := base + 8192;
      }
      b := 0;
    }

    /** bfree(); !ok is its panic. */
    method Bfree(b: nat) returns (ok: bool)
      requires b < sb.size && LaidOut(sb) && forall c: nat :: c in data <==> c < sb.size
      modifies `data, `logged
      ensures ok <==> Marked(sb, old(data), b)
      ensures ok ==> BitmapBlock(sb, b) in old(data) && logged == old(logged) + {BitmapBlock(sb, b)}
      ensures ok ==> data == old(data)[BitmapBlock(sb, b) := ClearBit(old(data)[BitmapBlock(sb, b)], b % 8192)]
    {
      BitmapRegion(sb, b);
      var m := BitmapBlock(sb, b);
      if !Bit(data[m], b % 8192) {
        return false;
      }
      data := data[m := ClearBit(data[m], b % 8192)];
      logged := logged + {m};
      ok := true;
    }

    /** A fresh block into direct slot k, or a fresh indirect block. */
    method Grant(i: nat, k: nat) returns (b: nat)
      requires Valid() && i < |inode| && k < 13 && |inode[i].addrs| == 13 && inode[i].addrs[k] == 0
      modifies `data, `inode, `owner, `logged
      ensures b == 0 ==> Full()
      ensures b != 0 <==> Clear(sb, old(data)) > 0
      ensures b != 0 ==>
        Valid() && Extends(old(data), old(owner), data, owner, i) && owner == old(owner)[b := (i, k)]
          && b !in old(owner)
      ensures b != 0 ==> inode == old(inode)[i := WithAddr(old(inode)[i], k, b)] && b in data && data[b] == Zeros
      ensures b != 0 ==> logged == old(logged) + {BitmapBlock(sb, b), b}
    {
      hide Owned, At, Marked, Allocated, Slots, Bits;
      b := Balloc();
      SomeClear(sb, old(data), b);
      if b != 0 {
        GrantOwned(sb, old(data), inode, owner, i, k, b);
        inode, owner := inode[i := WithAddr(inode[i], k, b)], owner[b := (i, k)];
      }
    }

    /** A fresh block into entry j of the indirect block of inode i. */
    method GrantWord(i: nat, j: nat) returns (b: nat)
      requires Valid() && i < |inode| && j < WORDS && |inode[i].addrs| == 13 && inode[i].addrs[12] != 0
      requires inode[i].addrs[12] in data && Word(data[inode[i].addrs[12]], j) == 0
      modifies `data, `inode, `owner, `logged
      ensures b == 0 ==> Full()
      ensures b != 0 <==> Clear(sb, old(data)) > 0
      ensures b != 0 ==>
        Valid() && Extends(old(data), old(owner), data, owner, i) && owner == old(owner)[b := (i, 13 + j)]
        && b !in old(owner)
      ensures b != 0 ==> inode == old(inode) && b in data && data[b] == Zeros && At(data, inode[i], 13 + j) == b
      ensures b != 0 ==> logged == old(logged) + {BitmapBlock(sb, b), b, inode[i].addrs[12]}
    {
      hide Owned, At, Marked, Allocated, Slots, Bits, Word, SetWord;
      var ind := inode[i].addrs[12];
      b := Balloc();
      SomeClear(sb, old(data), b);
      if b != 0 {
        WordOwned(sb, old(data), inode, owner, i, j, b);
        data := data[ind := SetWord(data[ind], j, b)];
        logged, owner := logged + {ind}, owner[b := (i, 13 + j)];
      }
    }

    lemma ShapeHere()
      requires Valid()
      ensures Slots(sb, data, inode, owner) && LaidOut(sb) && (forall b: nat :: b in data <==> b < sb.size)
        && forall i :: 0 <= i < |inode| ==> |inode[i].addrs| == 13
    {}

    /** The indirect half of bmap(). */
    method BmapIndirect(i: nat, j: nat) returns (addr: nat, ghost marks: set<nat>)
      requires Valid() && i < |inode| && j < WORDS && |inode[i].addrs| == 13
      modifies `data, `inode, `owner, `logged
      ensures addr == 0 ==> Full() && At(old(data), old(inode)[i], 13 + j) == 0
      ensures addr != 0 ==> Mapped(sb, old(data), old(inode), old(owner), data, inode, owner, i, 13 + j, addr)
      ensures addr != 0 ==> logged <= old(logged) + marks + {addr, inode[i].addrs[12]}
      ensures addr != 0 ==> |marks| <= Needed(old(data), old(inode)[i], 13 + j)
      ensures addr != 0 && At(old(data), old(inode)[i], 13 + j) != 0 ==> logged == old(logged)
      ensures addr != 0 <==> Needed(old(data), old(inode)[i], 13 + j) <= Clear(sb, old(data))
      ensures addr != 0 ==>
        Steps(old(owner), owner, i, 12 + j) && |owner| == |old(owner)| + Needed(old(data), old(inode)[i], 13 + j)
    {
      hide Owned, Marked, Slots, Bits, Word, Extends, Clear, Steps;
      marks := {};
      ShapeHere();
      ClearIs(sb, data, inode, owner);
      var ind := inode[i].addrs[12];
      if ind == 0 {
        ind := Grant(i, 12);
        if ind == 0 {
          return 0, {};
        }
        ClearIs(sb, data, inode, owner);
        marks := {BitmapBlock(sb, ind)};
        ShapeHere();
        WordOfZeros(j);
      } else {
        ExtendsSelf(data, owner, i);
      }
      IndirectOwner(sb, data, inode, owner, i);
      ghost var data1, owner1 := data, owner;
      addr := Word(data[ind], j);
      if addr == 0 {
        addr := GrantWord(i, j);
        if addr == 0 {
          return 0, {};
        }
        marks := marks + {BitmapBlock(sb, addr)};
        ExtendsTrans(old(data), old(owner), data1, owner1, data, owner, i);
        assert |inode[i].addrs| == 13;
        assert inode == old(inode)[i := old(inode)[i].(addrs := inode[i].addrs)];
      } else {
        SlotBlock(sb, data, inode, owner, i, 13 + j);
      }
      StepsIndirect(old(owner), owner, i, j, ind, addr);
    }

    /** bmap(): the block behind block number bn of file i, allocated if there was none;
        0 is a panic, for a block number out of range or a full disk. */
    method Bmap(i: nat, bn: nat) returns (addr: nat, ghost marks: set<nat>)
      requires Valid() && i < |inode| && |inode[i].addrs| == 13
      modifies `data, `inode, `owner, `logged
      ensures addr == 0 ==> bn >= MAXFILE || (Full() && At(old(data), old(inode)[i], SlotOf(bn)) == 0)
      ensures addr != 0 ==>
        bn < MAXFILE && Mapped(sb, old(data), old(inode), old(owner), data, inode, owner, i, SlotOf(bn), addr)
      ensures addr != 0 ==> logged <= old(logged) + marks + {addr} + (if bn < 12 then {} else {inode[i].addrs[12]})
      ensures addr != 0 ==> |marks| <= Needed(old(data), old(inode)[i], SlotOf(bn))
      ensures addr != 0 && At(old(data), old(inode)[i], SlotOf(bn)) != 0 ==> logged == old(logged)
      ensures addr != 0 <==> bn < MAXFILE && Needed(old(data), old(inode)[i], SlotOf(bn)) <= Clear(sb, old(data))
      ensures addr != 0 ==>
        Steps(old(owner), owner, i, bn) && |owner| == |old(owner)| + Needed(old(data), old(inode)[i], SlotOf(bn))
    {
      hide Owned, Marked, Slots, Bits, Word, Extends, Clear, Steps, Mapped;
      marks := {};
      ShapeHere();
      if bn < NDIRECT {
        addr := inode[i].addrs[bn];
        if addr == 0 {
          addr := Grant(i, bn);
          marks := {BitmapBlock(sb, addr)};
          if addr != 0 {
            MappedFresh(sb, old(data), old(inode), old(owner), data, inode, owner, i, bn, addr);
          }
        } else {
          SlotBlock(sb, data, inode, owner, i, bn);
          MappedThere(sb, data, inode, owner, i, bn);
        }
        if addr != 0 { StepsDirect(old(owner), owner, i, bn, addr); }
      } else if bn - NDIRECT < NINDIRECT {
        addr, marks := BmapIndirect(i, bn - NDIRECT);
      } else {
        addr := 0;
      }
    }

    /** iupdate(). */
    method Iupdate(i: nat)
      requires i < |inode| == |dinode|
      modifies `dinode, `logged
      ensures dinode == old(dinode)[i := inode[i]] && logged == old(logged) + {InodeBlock(sb, i)}
    {
      dinode := dinode[i := inode[i]];
      logged := logged + {InodeBlock(sb, i)};
    }

    /** bfree() of the block in slot k, while the file's blocks are being freed: the panic
        cannot happen. */
    method FreeSlot(b: nat, ghost data0: Disk, ghost inode0: seq<Inode>, ghost i: nat, ghost k: nat,
        ghost gone: set<nat>, ghost done: set<nat>)
        returns (ghost gone': set<nat>)
      requires Freeing(sb, data0, inode0, owner, data, i, gone, done) && k < SLOTS && k !in done && b != 0
      requires i < |inode0| && |inode0[i].addrs| == 13 && At(data0, inode0[i], k) == b
      modifies `data, `logged
      ensures Freeing(sb, data0, inode0, owner, data, i, gone', done + {k})
      ensures BitmapOnly(sb, old(logged), logged)
    {
      hide Slots, Marked, At, ClearBit;
      SlotBlock(sb, data0, inode0, owner, i, k);
      FreedSlot(sb, data0, inode0, owner, data, i, gone, done, k);
      SlotsDisk(sb, data0, inode0, owner);
      BitmapRegion(sb, b);
      var ok := Bfree(b);
      gone' := gone + {b};
    }

    /** The loop over the direct blocks in itrunc(). */
    method FreeDirect(i: nat) returns (ghost gone: set<nat>, ghost done: set<nat>)
      requires Valid() && i < |inode| && |inode[i].addrs| == 13
      modifies `data, `inode, `logged
      ensures Freeing(sb, old(data), old(inode), owner, data, i, gone, done) && (forall k :: k in done <==> 0 <= k < 12)
      ensures |inode| == |old(inode)| && inode == old(inode)[i := old(inode)[i].(addrs := inode[i].addrs)]
        && |inode[i].addrs| == 13
      ensures (forall k :: 0 <= k < 12 ==> inode[i].addrs[k] == 0) && inode[i].addrs[12] == old(inode)[i].addrs[12]
      ensures BitmapOnly(sb, old(logged), logged)
    {
      hide Owned, Slots, Bits, Marked, Freeing, BitmapOnly;
      FreeingNone(sb, data, inode, owner, i);
      NothingLogged(sb, logged);
      gone, done := {}, {};
      var k := 0;
      while k < NDIRECT
        invariant k <= 12 && Freeing(sb, old(data), old(inode), owner, data, i, gone, done)
          && (forall n :: n in done <==> 0 <= n < k)
        invariant |inode| == |old(inode)| && inode == old(inode)[i := old(inode)[i].(addrs := inode[i].addrs)]
          && |inode[i].addrs| == 13
        invariant (forall n :: 0 <= n < k ==> inode[i].addrs[n] == 0)
          && (forall n :: k <= n < 13 ==> inode[i].addrs[n] == old(inode)[i].addrs[n])
        invariant BitmapOnly(sb, old(logged), logged)
      {
        var b := inode[i].addrs[k];
        if b != 0 {
          ghost var before := logged;
          gone := FreeSlot(b, old(data), old(inode), i, k, gone, done);
          LoggedMore(sb, old(logged), before, logged);
          inode := inode[i := WithAddr(inode[i], k, 0)];
        } else {
          FreeingEmpty(sb, old(data), old(inode), owner, data, i, gone, done, k);
        }
        done := done + {k};
        k := k + 1;
      }
    }

    /** The loop over the words of the indirect block. */
    method FreeIndirect(i: nat, ghost data0: Disk, ghost inode0: seq<Inode>, ghost gone0: set<nat>,
        ghost done0: set<nat>)
        returns (ghost gone: set<nat>, ghost done: set<nat>)
      requires Freeing(sb, data0, inode0, owner, data, i, gone0, done0) && (forall k :: k in done0 <==> 0 <= k < 12)
      requires i < |inode| && |inode[i].addrs| == 13 && i < |inode0| && |inode0[i].addrs| == 13
        && inode[i].addrs[12] == inode0[i].addrs[12] != 0
      modifies `data, `logged
      ensures Freeing(sb, data0, inode0, owner, data, i, gone, done)
        && (forall k :: k in done <==> 0 <= k < SLOTS && k != 12)
      ensures BitmapOnly(sb, old(logged), logged)
    {
      IndirectKept(sb, data0, inode0, owner, data, i, gone0, done0);
      hide Freeing, Word;
      gone, done := gone0, done0;
      var bp := data[inode[i].addrs[12]];
      var j := 0;
      while j < NINDIRECT
        invariant j <= 256 && Freeing(sb, data0, inode0, owner, data, i, gone, done)
          && (forall k :: k in done <==> 0 <= k < 12 || 13 <= k < 13 + j)
        invariant BitmapOnly(sb, old(logged), logged)
      {
        var b := Word(bp, j);
        assert At(data0, inode0[i], 13 + j) == b;
        if b != 0 {
          gone := FreeSlot(b, data0, inode0, i, 13 + j, gone, done);
        } else {
          FreeingEmpty(sb, data0, inode0, owner, data, i, gone, done, 13 + j);
        }
        done := done + {13 + j};
        j := j + 1;
      }
    }

    /** itrunc(): every block of the file is free, no other block is touched, and "freeing
        free block" cannot happen. */
    method Itrunc(i: nat)
      requires Valid() && i < |inode| == |dinode| && |inode[i].addrs| == 13
      modifies this
      ensures Valid() && inode == old(inode)[i := Emptied(old(inode)[i])] && dinode == old(dinode)[i := inode[i]]
      ensures owner == WithoutFile(old(owner), i)
      ensures data.Keys == old(data).Keys && forall b :: b in data && b >= sb.datastart ==> data[b] == old(data)[b]
      ensures forall c ::
        c in logged && c !in old(logged) ==> sb.bmapstart <= c < sb.datastart || c == InodeBlock(sb, i)
    {
      hide Owned, Slots, Bits, Marked, Freeing;
      ghost var gone, done := FreeDirect(i);
      if inode[i].addrs[NDIRECT] != 0 {
        gone, done := FreeIndirect(i, old(data), old(inode), gone, done);
        gone := FreeSlot(inode[i].addrs[NDIRECT], old(data), old(inode), i, 12, gone, done);
        done := done + {12};
        inode := inode[i := WithAddr(inode[i], 12, 0)];
      } else {
        done := NoIndirect(sb, old(data), old(inode), owner, data, i, gone, done);
      }
      inode := inode[i := inode[i].(size := 0)];
      assert inode[i].addrs == NoAddrs();
      assert inode == old(inode)[i := Emptied(old(inode)[i])];
      Truncated(sb, old(data), old(inode), owner, data, i, gone, done);
      owner := WithoutFile(owner, i);
      Iupdate(i);
    }
  }

  predicate Blank(b: Block) { forall o :: 0 <= o < BSIZE ==> b[o] == 0 }

  /** Slot k of inode i holds addr: the one it held, or a fresh zeroed block; only addrs of
      inode i changed among the inodes. */
  ghost predicate Mapped(sb: Super, data: Disk, inode: seq<Inode>, owner: Owners, data': Disk, inode': seq<Inode>,
      owner': Owners, i: nat, k: nat, addr: nat)
    requires i < |inode| && k < SLOTS && |inode[i].addrs| == 13
  {
    && Owned(sb, data', inode', owner') && Extends(data, owner, data', owner', i)
    && |inode'| == |inode| && inode' == inode[i := inode[i].(addrs := inode'[i].addrs)] && |inode'[i].addrs| == 13
    && addr != 0 && addr in data' && At(data', inode'[i], k) == addr
    && if At(data, inode[i], k) != 0 then data' == data && inode' == inode && owner' == owner
       else addr !in owner && Blank(data'[addr])
  }

  lemma MappedFresh(sb: Super, data: Disk, inode: seq<Inode>, owner: Owners, data': Disk, inode': seq<Inode>,
      owner': Owners, i: nat, k: nat, b: nat)
    requires i < |inode| && k < 12 && |inode[i].addrs| == 13 && inode[i].addrs[k] == 0 && b != 0 && b !in owner
    requires Owned(sb, data', inode', owner') && Extends(data, owner, data', owner', i) && b in data'
      && data'[b] == Zeros && inode' == inode[i := WithAddr(inode[i], k, b)]
    ensures Mapped(sb, data, inode, owner, data', inode', owner', i, k, b)
  {
    hide Owned, Extends;
    assert inode' == inode[i := inode[i].(addrs := inode'[i].addrs)];
  }

  lemma MappedThere(sb: Super, data: Disk, inode: seq<Inode>, owner: Owners, i: nat, k: nat)
    requires Owned(sb, data, inode, owner) && i < |inode| && k < SLOTS && |inode[i].addrs| == 13
      && At(data, inode[i], k) != 0 && At(data, inode[i], k) in data
    ensures Mapped(sb, data, inode, owner, data, inode, owner, i, k, At(data, inode[i], k))
  {
    hide Owned, At;
    ExtendsSelf(data, owner, i);
    assert inode == inode[i := inode[i].(addrs := inode[i].addrs)];
  }

  lemma GrantOwned(sb: Super, data: Disk, inode: seq<Inode>, owner: Owners, i: nat, k: nat, b: nat)
    requires Owned(sb, data, inode, owner) && b != 0 && b < sb.size && !Marked(sb, data, b)
    requires i < |inode| && k < 13 && |inode[i].addrs| == 13 && inode[i].addrs[k] == 0
    ensures BitmapBlock(sb, b) in data && b !in owner
    ensures var data' := Allocated(sb, data, b, Zeros);
      && Owned(sb, data', inode[i := WithAddr(inode[i], k, b)], owner[b := (i, k)]) && b in data' && data'[b] == Zeros
      && Extends(data, owner, data', owner[b := (i, k)], i)
  {
    hide Marked, At, Allocated;
    AllocatedSlots(sb, data, inode, owner, b);
    AllocatedBits(sb, data, inode, owner, b, (i, k));
    PutAddr(sb, Allocated(sb, data, b, Zeros), inode, owner, i, k, b);
  }

  lemma WordOwned(sb: Super, data: Disk, inode: seq<Inode>, owner: Owners, i: nat, j: nat, b: nat)
    requires Owned(sb, data, inode, owner) && b != 0 && b < sb.size && !Marked(sb, data, b)
    requires i < |inode| && j < WORDS && |inode[i].addrs| == 13 && inode[i].addrs[12] != 0
      && inode[i].addrs[12] in data && Word(data[inode[i].addrs[12]], j) == 0
    ensures BitmapBlock(sb, b) in data && b !in owner && b < WORD_LIMIT
    ensures var ind, data1 := inode[i].addrs[12], Allocated(sb, data, b, Zeros);
      && ind in data1
      && var data' := data1[ind := SetWord(data1[ind], j, b)];
      && Owned(sb, data', inode, owner[b := (i, 13 + j)]) && b in data' && data'[b] == Zeros
      && Extends(data, owner, data', owner[b := (i, 13 + j)], i) && At(data', inode[i], 13 + j) == b
  {
    hide Marked, Allocated, Word, SetWord, At, Slots;
    var ind := inode[i].addrs[12];
    IndirectOwner(sb, data, inode, owner, i);
    AllocatedSlots(sb, data, inode, owner, b);
    AllocatedBits(sb, data, inode, owner, b, (i, 13 + j));
    var data1 := Allocated(sb, data, b, Zeros);
    SlotsLaidOut(sb, data, inode, owner);
    PutWord(sb, data1, inode, owner, i, j, b);
    BitsFrame(sb, data1, data1[ind := SetWord(data1[ind], j, b)], owner[b := (i, 13 + j)]);
  }

  lemma SomeClear(sb: Super, data: Disk, b: nat)
    requires if b == 0 then forall c: nat :: c < sb.size ==> Marked(sb, data, c)
      else b < sb.size && !Marked(sb, data, b)
    ensures b != 0 <==> Clear(sb, data) > 0
  {
    hide Marked;
    if b == 0 {
      assert ClearBlocks(sb, data) == {};
    } else {
      assert b in ClearBlocks(sb, data);
    }
  }

  lemma StepsDirect(owner: Owners, owner': Owners, i: nat, k: nat, b: nat)
    requires k < NDIRECT && b in owner' && owner'[b] == (i, k)
      && (owner' == owner || (b !in owner && owner' == owner[b := (i, k)]))
    ensures Steps(owner, owner', i, k)
  {}

  lemma StepsIndirect(owner: Owners, owner': Owners, i: nat, j: nat, ind: nat, b: nat)
    requires ind in owner' && owner'[ind] == (i, 12) && b in owner' && owner'[b] == (i, 13 + j)
      && (forall c :: c in owner ==> c in owner' && owner'[c] == owner[c])
      && (forall c :: c in owner' && c !in owner ==> c == ind || c == b)
    ensures Steps(owner, owner', i, 12 + j)
  {}

  lemma SlotsLaidOut(sb: Super, data: Disk, inode: seq<Inode>, owner: Owners)
    requires Slots(sb, data, inode, owner)
    ensures LaidOut(sb)
  {}

  /** A slot's own block is on the disk. */
  lemma SlotBlock(sb: Super, data: Disk, inode: seq<Inode>, owner: Owners, i: nat, k: nat)
    requires Slots(sb, data, inode, owner) && i < |inode| && |inode[i].addrs| == 13 && k < SLOTS
      && At(data, inode[i], k) != 0
    ensures var b := At(data, inode[i], k); b in data && b in owner && owner[b] == (i, k) && sb.datastart <= b < sb.size
  {
    hide At;
    assert SlotOwns(data, inode, owner, i, k);
    assert OwnedBack(sb, data, inode, owner, At(data, inode[i], k));
  }

  lemma ExtendsSelf(data: Disk, owner: Owners, i: nat)
    ensures Extends(data, owner, data, owner, i)
  {}

  lemma IndirectOwner(sb: Super, data: Disk, inode: seq<Inode>, owner: Owners, i: nat)
    requires Slots(sb, data, inode, owner) && i < |inode| && |inode[i].addrs| == 13 && inode[i].addrs[12] != 0
    ensures var ind := inode[i].addrs[12];
      ind in owner && owner[ind] == (i, 12) && sb.datastart <= ind < sb.size && ind in data
  {
    assert SlotOwns(data, inode, owner, i, 12);
    assert OwnedBack(sb, data, inode, owner, inode[i].addrs[12]);
  }

  lemma NothingLogged(sb: Super, a: set<nat>)
    ensures BitmapOnly(sb, a, a)
  {}

  lemma LoggedMore(sb: Super, a: set<nat>, b: set<nat>, c: set<nat>)
    requires BitmapOnly(sb, a, b) && BitmapOnly(sb, b, c)
    ensures BitmapOnly(sb, a, c)
  {}

  /** Only bitmap blocks were added. */
  ghost predicate BitmapOnly(sb: Super, before: set<nat>, after: set<nat>)
  {
    before <= after && forall c :: c in after && c !in before ==> sb.bmapstart <= c < sb.datastart
  }

  lemma SlotsDisk(sb: Super, data: Disk, inode: seq<Inode>, owner: Owners)
    requires Slots(sb, data, inode, owner)
    ensures LaidOut(sb) && forall b: nat :: b in data <==> b < sb.size
  {}

  /** The blocks of the slots in `done` of inode i are free; nothing else changed but
      bitmap blocks. */
  ghost predicate Freeing(sb: Super, data0: Disk, inode0: seq<Inode>, owner: Owners, data: Disk, i: nat,
      gone: set<nat>, done: set<nat>)
  {
    && Slots(sb, data0, inode0, owner) && data.Keys == data0.Keys && i < |inode0| && |inode0[i].addrs| == 13
    && (forall b :: b in data0 && b >= sb.datastart ==> data[b] == data0[b])
    && (forall b: nat :: b < sb.size ==> (Marked(sb, data, b) <==> b < sb.datastart || (b in owner && b !in gone)))
    && (forall b :: b in gone ==> b in owner && owner[b].0 == i && owner[b].1 in done)
    && (forall k: nat :: k in done && k < SLOTS && At(data0, inode0[i], k) != 0 ==> At(data0, inode0[i], k) in gone)
  }

  lemma FreedSlot(sb: Super, data0: Disk, inode0: seq<Inode>, owner: Owners, data: Disk, i: nat, gone: set<nat>,
      done: set<nat>, k: nat)
    requires Freeing(sb, data0, inode0, owner, data, i, gone, done) && k < SLOTS && k !in done
      && At(data0, inode0[i], k) != 0
    ensures var b := At(data0, inode0[i], k);
      && b < sb.size && Marked(sb, data, b) && BitmapBlock(sb, b) in data
      && var m := BitmapBlock(sb, b); Freeing(sb, data0, inode0, owner, data[m := ClearBit(data[m], b % 8192)], i,
        gone + {b}, done + {k})
  {
    hide Slots, Marked, At, ClearBit, Bit;
    var b := At(data0, inode0[i], k);
    SlotBlock(sb, data0, inode0, owner, i, k);
    SlotsDisk(sb, data0, inode0, owner);
    BitmapRegion(sb, b);
    var m := BitmapBlock(sb, b);
    var data' := data[m := ClearBit(data[m], b % 8192)];
    forall c: nat | c < sb.size ensures Marked(sb, data', c) <==> c < sb.datastart || (c in owner && c !in gone + {b}) {
      MarkedAfterClear(sb, data, b, c);
    }
  }

  function NoAddrs(): (s: seq<nat>) { [0, 0, 0, 0, 0, 0, 0, 0, 0, 0, 0, 0, 0] }

  function Emptied(ip: Inode): (r: Inode) { ip.(addrs := NoAddrs(), size := 0) }

  ghost function WithoutFile(owner: Owners, i: nat): (r: Owners) { map b | b in owner && owner[b].0 != i :: owner[b] }

  lemma FreeingNone(sb: Super, data: Disk, inode: seq<Inode>, owner: Owners, i: nat)
    requires Owned(sb, data, inode, owner) && i < |inode| && |inode[i].addrs| == 13
    ensures Freeing(sb, data, inode, owner, data, i, {}, {})
  {}

  lemma FreeingEmpty(sb: Super, data0: Disk, inode0: seq<Inode>, owner: Owners, data: Disk, i: nat, gone: set<nat>,
      done: set<nat>, k: nat)
    requires Freeing(sb, data0, inode0, owner, data, i, gone, done) && k < SLOTS && At(data0, inode0[i], k) == 0
    ensures Freeing(sb, data0, inode0, owner, data, i, gone, done + {k})
  {
    hide Slots, Marked, At;
  }

  lemma IndirectKept(sb: Super, data0: Disk, inode0: seq<Inode>, owner: Owners, data: Disk, i: nat, gone: set<nat>,
      done: set<nat>)
    requires Freeing(sb, data0, inode0, owner, data, i, gone, done) && inode0[i].addrs[12] != 0
    ensures inode0[i].addrs[12] in data && inode0[i].addrs[12] in data0
      && data[inode0[i].addrs[12]] == data0[inode0[i].addrs[12]]
  {
    hide Slots, Marked, At;
    IndirectOwner(sb, data0, inode0, owner, i);
  }

  /** Without an indirect block the other slots are empty. */
  lemma NoIndirect(sb: Super, data0: Disk, inode0: seq<Inode>, owner: Owners, data: Disk, i: nat, gone: set<nat>,
      done: set<nat>)
      returns (all: set<nat>)
    requires Freeing(sb, data0, inode0, owner, data, i, gone, done) && (forall k :: k in done <==> 0 <= k < 12)
      && inode0[i].addrs[12] == 0
    ensures Freeing(sb, data0, inode0, owner, data, i, gone, all) && forall k: nat :: k < SLOTS ==> k in all
  {
    hide Slots, Marked;
    all := set k: nat {:trigger At(data0, inode0[i], k)} | k < SLOTS;
  }

  /** With every slot done, the file has nothing and the rest is as before. */
  lemma Truncated(sb: Super, data0: Disk, inode0: seq<Inode>, owner: Owners, data: Disk, i: nat, gone: set<nat>,
      done: set<nat>)
    requires Freeing(sb, data0, inode0, owner, data, i, gone, done) && forall k: nat :: k < SLOTS ==> k in done
    ensures Owned(sb, data, inode0[i := Emptied(inode0[i])], WithoutFile(owner, i))
    ensures data.Keys == data0.Keys && forall b :: b in data && b >= sb.datastart ==> data[b] == data0[b]
  {
    var inode, owner' := inode0[i := Emptied(inode0[i])], WithoutFile(owner, i);
    SlotsFrame2(sb, data0, inode0, owner, data);
    assert Shape(sb, data, inode);
    forall k: nat | k < SLOTS ensures At(data, inode[i], k) == 0 {}
    hide Marked, At;
    forall b | b in owner ensures OwnedBack(sb, data0, inode0, owner, b) && (b in owner' <==> b !in gone)
      && (b in owner' <==> At(data, inode[owner[b].0], owner[b].1) == b) {
      assert OwnedBack(sb, data0, inode0, owner, b) && OwnedBack(sb, data, inode0, owner, b);
    }
    forall j: nat, l: nat | j < |inode0| && l < SLOTS ensures At(data, inode[j], l) == At(data, inode0[j], l)
      || At(data, inode[j], l) == 0 {}
    SlotsDrop(sb, data, inode0, owner, data, inode, owner');
  }

  lemma SlotsFrame2(sb: Super, data0: Disk, inode0: seq<Inode>, owner: Owners, data: Disk)
    requires Slots(sb, data0, inode0, owner) && data.Keys == data0.Keys
      && forall b :: b in data0 && b >= sb.datastart ==> data[b] == data0[b]
    ensures Slots(sb, data, inode0, owner)
  {
    forall b | b in owner && owner[b].1 == 12 ensures b in data0 && data[b] == data0[b] {
      assert OwnedBack(sb, data0, inode0, owner, b);
    }
    SlotsFrame(sb, data0, inode0, owner, data);
  }
}
