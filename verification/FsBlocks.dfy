/** Blocks and inodes of kernel/fs.c: who owns which disk block.

    A slot (i, k) is a place that can hold a block number: addrs[k] of inode i for
    k <= 12, and word k - 13 of its indirect block for k >= 13. The invariant `Owned`
    says that the bitmap marks exactly the metadata blocks and the blocks in slots, and
    that no block is in two slots. */
module FsBlocks {
  import opened Blocks
  import opened Bitmap

  const NDIRECT: nat := 12
  const NINDIRECT: nat := 256
  const MAXFILE: nat := 268
  const SLOTS: nat := 269             // 13 in the inode, 256 in the indirect block

  /** The disk layout the superblock describes. */
  datatype Super = Super(size: nat, ninodes: nat, nlog: nat, inodestart: nat, bmapstart: nat, datastart: nat)

  ghost predicate LaidOut(sb: Super)
  {
    && 2 + sb.nlog <= sb.inodestart && sb.inodestart + sb.ninodes / 16 < sb.bmapstart
    && sb.bmapstart + sb.size / 8192 < sb.datastart <= sb.size < WORD_LIMIT
  }

  /** IBLOCK and BBLOCK. */
  function InodeBlock(sb: Super, i: nat): (b: nat) { i / 16 + sb.inodestart }

  function BitmapBlock(sb: Super, b: nat): (m: nat) { b / 8192 + sb.bmapstart }

  lemma BitmapRegion(sb: Super, b: nat)
    requires LaidOut(sb) && b < sb.size
    ensures sb.bmapstart <= BitmapBlock(sb, b) < sb.datastart <= sb.size
  {}

  datatype Inode = Inode(typ: nat, nlink: nat, size: nat, addrs: seq<nat>)

  type Disk = map<nat, Block>

  type Owners = map<nat, (nat, nat)>

  /** The block number in slot k of an inode, 0 if none. */
  function At(data: Disk, ip: Inode, k: nat): (b: nat)
    requires |ip.addrs| == 13 && k < SLOTS
  {
    if k < 13 then ip.addrs[k]
    else if ip.addrs[12] == 0 || ip.addrs[12] !in data then 0
    else Word(data[ip.addrs[12]], k - 13)
  }

  /** Slot of the n-th block of a file. */
  function SlotOf(bn: nat): (k: nat)
    ensures k != 12 && (bn < MAXFILE ==> k < SLOTS)
  {
    if bn < 12 then bn else bn + 1
  }

  predicate Marked(sb: Super, data: Disk, b: nat)
  {
    BitmapBlock(sb, b) in data && Bit(data[BitmapBlock(sb, b)], b % 8192)
  }

  ghost predicate Shape(sb: Super, data: Disk, inode: seq<Inode>)
  {
    && LaidOut(sb) && |inode| == sb.ninodes && (forall b: nat :: b in data <==> b < sb.size)
    && (forall i :: 0 <= i < |inode| ==> |inode[i].addrs| == 13)
  }

  /** Slot (i, k) is empty or the owner of its block. */
  ghost predicate SlotOwns(data: Disk, inode: seq<Inode>, owner: Owners, i: nat, k: nat)
    requires i < |inode| && |inode[i].addrs| == 13 && k < SLOTS
  {
    At(data, inode[i], k) != 0 ==> At(data, inode[i], k) in owner && owner[At(data, inode[i], k)] == (i, k)
  }

  /** An owned block is a data block in its owner's slot. */
  ghost predicate OwnedBack(sb: Super, data: Disk, inode: seq<Inode>, owner: Owners, b: nat)
    requires b in owner
  {
    var (i, k) := owner[b];
    i < |inode| && |inode[i].addrs| == 13 && k < SLOTS && At(data, inode[i], k) == b && sb.datastart <= b < sb.size
  }

  ghost predicate Slots(sb: Super, data: Disk, inode: seq<Inode>, owner: Owners)
  {
    && Shape(sb, data, inode)
    && (forall i: nat, k: nat :: i < |inode| && k < SLOTS ==> SlotOwns(data, inode, owner, i, k))
    && (forall b :: b in owner ==> OwnedBack(sb, data, inode, owner, b))
  }

  ghost predicate Bits(sb: Super, data: Disk, owner: Owners)
  {
    forall b: nat :: b < sb.size ==> (Marked(sb, data, b) <==> b < sb.datastart || b in owner)
  }

  ghost predicate Owned(sb: Super, data: Disk, inode: seq<Inode>, owner: Owners)
  {
    Slots(sb, data, inode, owner) && Bits(sb, data, owner)
  }

  /** Blocks in different slots are different. */
  lemma SlotsDiffer(sb: Super, data: Disk, inode: seq<Inode>, owner: Owners, i: nat, k: nat, j: nat, l: nat)
    requires Slots(sb, data, inode, owner) && i < |inode| && j < |inode| && k < SLOTS && l < SLOTS && (i, k) != (j, l)
    requires At(data, inode[i], k) != 0
    ensures At(data, inode[i], k) != At(data, inode[j], l)
    ensures sb.datastart <= At(data, inode[i], k) < sb.size
  {
    hide At;
    assert SlotOwns(data, inode, owner, i, k) && SlotOwns(data, inode, owner, j, l);
    assert OwnedBack(sb, data, inode, owner, At(data, inode[i], k));
  }

  /** A slot depends on its inode and its indirect block. */
  lemma AtFrame(data: Disk, data': Disk, ip: Inode, k: nat)
    requires |ip.addrs| == 13 && k < SLOTS && data'.Keys == data.Keys
    requires ip.addrs[12] != 0 && ip.addrs[12] in data ==> data'[ip.addrs[12]] == data[ip.addrs[12]]
    ensures At(data', ip, k) == At(data, ip, k)
  {}

  // ----------------------------------------------------------------- bit changes

  lemma MarkedAfterSet(sb: Super, data: Disk, b: nat, c: nat)
    requires LaidOut(sb) && b < sb.size && c < sb.size && BitmapBlock(sb, b) in data
    ensures var m := BitmapBlock(sb, b);
      Marked(sb, data[m := SetBit(data[m], b % 8192)], c) <==> c == b || Marked(sb, data, c)
  {
    hide Bit, SetBit;
    BitOfSetBit(data[BitmapBlock(sb, b)], b % 8192, c % 8192);
  }

  lemma MarkedAfterClear(sb: Super, data: Disk, b: nat, c: nat)
    requires LaidOut(sb) && b < sb.size && c < sb.size && BitmapBlock(sb, b) in data
    ensures var m := BitmapBlock(sb, b);
      Marked(sb, data[m := ClearBit(data[m], b % 8192)], c) <==> c != b && Marked(sb, data, c)
  {
    hide Bit, ClearBit;
    BitOfClearBit(data[BitmapBlock(sb, b)], b % 8192, c % 8192);
  }

  /** Only the bitmap region matters to the bits. */
  lemma MarkedFrame(sb: Super, data: Disk, data': Disk, c: nat)
    requires LaidOut(sb) && c < sb.size && data'.Keys == data.Keys
    requires forall b :: b in data && b < sb.datastart ==> data'[b] == data[b]
    ensures Marked(sb, data', c) <==> Marked(sb, data, c)
  {}

  // ----------------------------------------------------------- slots changing hands

  /** Data and indirect blocks that no slot of an inode depends on may be written. */
  lemma SlotsFrame(sb: Super, data: Disk, inode: seq<Inode>, owner: Owners, data': Disk)
    requires Slots(sb, data, inode, owner) && data'.Keys == data.Keys
    requires forall b :: b in owner && owner[b].1 == 12 ==> b in data && data'[b] == data[b]
    ensures Slots(sb, data', inode, owner)
    ensures forall i: nat, k: nat :: i < |inode| && k < SLOTS ==> At(data', inode[i], k) == At(data, inode[i], k)
  {
    forall i: nat, k: nat | i < |inode| && k < SLOTS ensures At(data', inode[i], k) == At(data, inode[i], k) {
      assert SlotOwns(data, inode, owner, i, 12);
      AtFrame(data, data', inode[i], k);
    }
    hide At;
    forall i: nat, k: nat | i < |inode| && k < SLOTS ensures SlotOwns(data', inode, owner, i, k) {
      assert SlotOwns(data, inode, owner, i, k);
    }
    forall b | b in owner ensures OwnedBack(sb, data', inode, owner, b) {
      assert OwnedBack(sb, data, inode, owner, b);
    }
  }

  /** Block b comes into the empty slot (i, k). */
  lemma SlotsPut(sb: Super, data: Disk, inode: seq<Inode>, owner: Owners, data': Disk, inode': seq<Inode>, i: nat,
      k: nat, b: nat)
    requires Slots(sb, data, inode, owner) && Shape(sb, data', inode') && |inode'| == |inode| && i < |inode|
      && k < SLOTS
    requires b !in owner && b != 0 && sb.datastart <= b < sb.size && At(data, inode[i], k) == 0
      && At(data', inode'[i], k) == b
    requires forall j: nat, l: nat ::
      j < |inode| && l < SLOTS && (j, l) != (i, k) ==> At(data', inode'[j], l) == At(data, inode[j], l)
    ensures Slots(sb, data', inode', owner[b := (i, k)])
  {
    hide At;
    var owner' := owner[b := (i, k)];
    forall j: nat, l: nat | j < |inode'| && l < SLOTS ensures SlotOwns(data', inode', owner', j, l) {
      assert SlotOwns(data, inode, owner, j, l);
    }
    forall c | c in owner' ensures OwnedBack(sb, data', inode', owner', c) {
      if c != b {
        assert OwnedBack(sb, data, inode, owner, c);
        assert owner[c] != (i, k);
      }
    }
  }

  /** Some slots were emptied; their blocks have no owner any more. */
  lemma SlotsDrop(sb: Super, data: Disk, inode: seq<Inode>, owner: Owners, data': Disk, inode': seq<Inode>,
      owner': Owners)
    requires Slots(sb, data, inode, owner) && Shape(sb, data', inode') && |inode'| == |inode|
    requires forall j: nat, l: nat ::
      j < |inode| && l < SLOTS ==> At(data', inode'[j], l) == At(data, inode[j], l) || At(data', inode'[j], l) == 0
    requires forall c :: c in owner' ==> c in owner && owner'[c] == owner[c]
    requires forall c ::
      c in owner ==>
      OwnedBack(sb, data, inode, owner, c) && (c in owner' <==> At(data', inode'[owner[c].0], owner[c].1) == c)
    ensures Slots(sb, data', inode', owner')
  {
    hide At;
    forall j: nat, l: nat | j < |inode'| && l < SLOTS ensures SlotOwns(data', inode', owner', j, l) {
      assert SlotOwns(data, inode, owner, j, l);
    }
    forall c | c in owner' ensures OwnedBack(sb, data', inode', owner', c) {
      assert OwnedBack(sb, data, inode, owner, c);
    }
  }

  function WithAddr(ip: Inode, k: nat, b: nat): (r: Inode)
    requires |ip.addrs| == 13 && k < 13
  {
    ip.(addrs := ip.addrs[k := b])
  }

  /** A fresh zeroed block into addrs[k]; a new indirect block has no entries because
      it is zeroed. */
  lemma PutAddr(sb: Super, data: Disk, inode: seq<Inode>, owner: Owners, i: nat, k: nat, b: nat)
    requires Slots(sb, data, inode, owner) && i < |inode| && k < 13 && inode[i].addrs[k] == 0
    requires b !in owner && b != 0 && sb.datastart <= b < sb.size && b in data && data[b] == Zeros
    ensures Slots(sb, data, inode[i := WithAddr(inode[i], k, b)], owner[b := (i, k)])
  {
    var inode' := inode[i := WithAddr(inode[i], k, b)];
    forall l: nat | l < SLOTS && l != k ensures At(data, inode'[i], l) == At(data, inode[i], l) {
      if l >= 13 && k == 12 { WordOfZeros(l - 13); }
    }
    hide At;
    SlotsPut(sb, data, inode, owner, data, inode', i, k, b);
  }

  /** ... or into an empty word of the indirect block. */
  lemma PutWord(sb: Super, data: Disk, inode: seq<Inode>, owner: Owners, i: nat, j: nat, b: nat)
    requires Slots(sb, data, inode, owner) && i < |inode| && j < WORDS && inode[i].addrs[12] in data
      && inode[i].addrs[12] != 0
    requires b !in owner && b != 0 && sb.datastart <= b < sb.size && b < WORD_LIMIT
      && Word(data[inode[i].addrs[12]], j) == 0
    ensures var ind := inode[i].addrs[12];
      Slots(sb, data[ind := SetWord(data[ind], j, b)], inode, owner[b := (i, 13 + j)])
      && At(data[ind := SetWord(data[ind], j, b)], inode[i], 13 + j) == b
  {
    var ind := inode[i].addrs[12];
    var data' := data[ind := SetWord(data[ind], j, b)];
    hide SetWord, Word;
    WordsOfSetWord(data[ind], j, b);
    forall m: nat, l: nat | m < |inode| && l < SLOTS && (m, l) != (i, 13 + j)
      ensures At(data', inode[m], l) == At(data, inode[m], l) {
      if m != i {
        assert SlotOwns(data, inode, owner, i, 12) && SlotOwns(data, inode, owner, m, 12);
        AtFrame(data, data', inode[m], l);
      }
    }
    assert At(data', inode[i], 13 + j) == b && At(data, inode[i], 13 + j) == 0;
    hide At;
    SlotsPut(sb, data, inode, owner, data', inode, i, 13 + j, b);
  }

  // ------------------------------------------------------------- balloc and bfree

  /** The disk after balloc() took b: its bit is set and it is zeroed. */
  function Allocated(sb: Super, data: Disk, b: nat, zeros: Block): (r: Disk)
    requires BitmapBlock(sb, b) in data
  {
    var m := BitmapBlock(sb, b);
    data[m := SetBit(data[m], b % 8192)][b := zeros]
  }

  /** A free block is nobody's, and marking and zeroing it changes no one's slots. */
  lemma AllocatedSlots(sb: Super, data: Disk, inode: seq<Inode>, owner: Owners, b: nat)
    requires Owned(sb, data, inode, owner) && b < sb.size && !Marked(sb, data, b)
    ensures b !in owner && sb.datastart <= b && BitmapBlock(sb, b) in data && b in data
    ensures var data' := Allocated(sb, data, b, Zeros);
      && data'.Keys == data.Keys && data'[b] == Zeros && Slots(sb, data', inode, owner)
      && (forall c :: c in owner ==> c in data && data'[c] == data[c])
  {
    BitmapRegion(sb, b);
    var data' := Allocated(sb, data, b, Zeros);
    forall c | c in owner ensures c in data && data'[c] == data[c] {
      assert OwnedBack(sb, data, inode, owner, c);
    }
    hide At, Marked;
    SlotsFrame(sb, data, inode, owner, data');
  }

  lemma AllocatedBits(sb: Super, data: Disk, inode: seq<Inode>, owner: Owners, b: nat, slot: (nat, nat))
    requires Owned(sb, data, inode, owner) && b < sb.size && !Marked(sb, data, b)
    ensures BitmapBlock(sb, b) in data && Bits(sb, Allocated(sb, data, b, Zeros), owner[b := slot])
  {
    hide Marked, SetBit;
    BitmapRegion(sb, b);
    var m := BitmapBlock(sb, b);
    var data1 := data[m := SetBit(data[m], b % 8192)];
    var data' := Allocated(sb, data, b, Zeros);
    forall c: nat | c < sb.size ensures Marked(sb, data', c) <==> c < sb.datastart || c in owner[b := slot] {
      MarkedAfterSet(sb, data, b, c);
      MarkedFrame(sb, data1, data', c);
    }
  }

  lemma BitsFrame(sb: Super, data: Disk, data': Disk, owner: Owners)
    requires LaidOut(sb) && Bits(sb, data, owner) && data'.Keys == data.Keys
      && forall b :: b in data && b < sb.datastart ==> data'[b] == data[b]
    ensures Bits(sb, data', owner)
  {
    hide Marked;
    forall c: nat | c < sb.size ensures Marked(sb, data', c) <==> c < sb.datastart || c in owner {
      MarkedFrame(sb, data, data', c);
    }
  }
}
