/** The image mkfs/mkfs.c builds: ialloc and iappend hand out inodes and blocks in order, the
    root's size is rounded up, and the bitmap written last marks exactly what was handed
    out. This is the state the invariants of the file system start from. */
module Mkfs {
  import opened Blocks
  import opened Bitmap
  import opened FsBlocks
  import opened FreeBlocks
  import opened Fs
  import opened Files

  /** Blocks are handed out in order; what was not handed out is still zero. */
  ghost predicate Handed(sb: Super, data: Disk, owner: Owners, freeblock: nat)
  {
    && sb.datastart <= freeblock <= sb.size
    && (forall b: nat :: b in owner <==> sb.datastart <= b < freeblock)
    && (forall b: nat :: b in data && (freeblock <= b || sb.bmapstart <= b < sb.datastart) ==> Blank(data[b]))
  }

  ghost predicate Building(sb: Super, data: Disk, inode: seq<Inode>, owner: Owners, freeblock: nat)
  {
    Slots(sb, data, inode, owner) && Handed(sb, data, owner, freeblock)
  }

  /** A blank block has no words and no bits. */
  lemma BlankIsZeros(b: Block)
    requires Blank(b)
    ensures b == Zeros
  {}

  lemma TakeAddr(sb: Super, data: Disk, inode: seq<Inode>, owner: Owners, freeblock: nat, i: nat, k: nat)
    requires Building(sb, data, inode, owner, freeblock) && freeblock < sb.size && i < |inode|
      && |inode[i].addrs| == 13 && k < 13 && inode[i].addrs[k] == 0
    ensures Building(sb, data, inode[i := WithAddr(inode[i], k, freeblock)], owner[freeblock := (i, k)], freeblock + 1)
  {
    BlankIsZeros(data[freeblock]);
    hide At;
    PutAddr(sb, data, inode, owner, i, k, freeblock);
  }

  lemma TakeWord(sb: Super, data: Disk, inode: seq<Inode>, owner: Owners, freeblock: nat, i: nat, j: nat)
    requires Building(sb, data, inode, owner, freeblock) && freeblock < sb.size && i < |inode|
      && |inode[i].addrs| == 13 && j < WORDS
    requires inode[i].addrs[12] != 0 && inode[i].addrs[12] in data && Word(data[inode[i].addrs[12]], j) == 0
    ensures freeblock < WORD_LIMIT
    ensures var ind := inode[i].addrs[12];
      Building(sb, data[ind := SetWord(data[ind], j, freeblock)], inode, owner[freeblock := (i, 13 + j)], freeblock + 1)
      && At(data[ind := SetWord(data[ind], j, freeblock)], inode[i], 13 + j) == freeblock
  {
    hide At, Word, SetWord;
    IndirectOwner(sb, data, inode, owner, i);
    PutWord(sb, data, inode, owner, i, j, freeblock);
  }

  /** Bytes up to the end of the block that holds the last one. */
  function RoundUp(n: nat): (r: nat) { (n + 1023) / 1024 * 1024 }

  /** The blocks of a file of n bytes, with its indirect block. */
  function BlocksFor(n: nat): (c: nat) { (n + 1023) / 1024 + if n > 12 * 1024 then 1 else 0 }

  /** Exactly the blocks that n bytes need are there. */
  ghost predicate Exact(data: Disk, ip: Inode, n: nat)
  {
    && |ip.addrs| == 13 && n <= MAXFILE * BSIZE && (ip.addrs[12] != 0 <==> n > 12 * 1024)
    && forall o: nat :: Present(data, ip, o) <==> o < RoundUp(n)
  }

  ghost predicate ZeroFrom(data: Disk, ip: Inode, n: nat) { forall o: nat :: o >= n ==> ByteOf(data, ip, o) == 0 }

  /** Blocks only where the file needs them, with zeros after its end. */
  ghost predicate Tight(data: Disk, ip: Inode) { Exact(data, ip, ip.size) && ZeroFrom(data, ip, ip.size) }

  /** Only slot k and the indirect block may have come in. */
  ghost predicate OnlyAt(owner: Owners, owner': Owners, k: nat)
  {
    forall b :: b in owner' && b !in owner ==> owner'[b].1 == k || owner'[b].1 == 12
  }

  /** Which bytes have a block after the block of byte o came in. */
  lemma PresentNow(sb: Super, data: Disk, inode: seq<Inode>, owner: Owners, data': Disk, inode': seq<Inode>,
      owner': Owners, i: nat, o: nat, x: nat)
    requires Slots(sb, data, inode, owner) && Slots(sb, data', inode', owner')
      && Extends(data, owner, data', owner', i) && i < |inode| && i < |inode'| && x / 1024 < MAXFILE
    requires OnlyAt(owner, owner', SlotOf(x / 1024)) && |inode'[i].addrs| == 13
      && At(data', inode'[i], SlotOf(x / 1024)) != 0
    ensures Present(data', inode'[i], o) <==> Present(data, inode[i], o) || o / 1024 == x / 1024
  {
    hide At, Slots;
    SlotsAddrs(sb, data, inode, owner);
    if o / 1024 < MAXFILE {
      ExtendedByte(sb, data, inode, owner, data', inode', owner', i, i, o);
      SlotBlock(sb, data', inode', owner', i, SlotOf(x / 1024));
      if Present(data', inode'[i], o) {
        SlotBlock(sb, data', inode', owner', i, SlotOf(o / 1024));
        OwnedSlot(sb, data, inode, owner, At(data', inode'[i], SlotOf(o / 1024)));
      }
    }
  }

  lemma OwnedSlot(sb: Super, data: Disk, inode: seq<Inode>, owner: Owners, b: nat)
    requires Slots(sb, data, inode, owner)
    ensures b in owner ==>
      var (i, k) := owner[b];
      i < |inode| && |inode[i].addrs| == 13 && k < SLOTS && At(data, inode[i], k) == b && b != 0 && b in data
  {
    assert b in owner ==> OwnedBack(sb, data, inode, owner, b);
  }

  lemma SlotsShape(sb: Super, data: Disk, inode: seq<Inode>, owner: Owners)
    requires Slots(sb, data, inode, owner)
    ensures LaidOut(sb) && (forall b: nat :: b in data <==> b < sb.size) && |inode| == sb.ninodes
      && forall i :: 0 <= i < |inode| ==> |inode[i].addrs| == 13
  {}

  /** Bytes copied into a block of file i. */
  lemma CopiedBytes(sb: Super, data: Disk, inode: seq<Inode>, owner: Owners, freeblock: nat, i: nat, lo: nat,
      s: seq<Byte>)
    requires Building(sb, data, inode, owner, freeblock) && i < |inode| && Present(data, inode[i], lo)
      && lo % 1024 + |s| <= 1024
    ensures var addr := At(data, inode[i], SlotOf(lo / 1024));
      var data' := data[addr := Splice(data[addr], lo % 1024, s)];
      Building(sb, data', inode, owner, freeblock) && Bytes(data, inode[i], data', inode[i], lo, s)
        && OthersSame(data, owner, data', owner, i)
        && forall o: nat :: Present(data', inode[i], o) <==> Present(data, inode[i], o)
  {
    hide At, Splice;
    var k := SlotOf(lo / 1024);
    var addr := At(data, inode[i], k);
    var data' := data[addr := Splice(data[addr], lo % 1024, s)];
    SlotBlock(sb, data, inode, owner, i, k);
    SlotsFrame(sb, data, inode, owner, data');
    forall o: nat ensures (Present(data, inode[i], o) || lo <= o < lo + |s| ==> Present(data', inode[i], o))
      && ByteOf(data', inode[i], o) == if lo <= o < lo + |s| then s[o - lo] else ByteOf(data, inode[i], o)
    {
      SplicedByte(sb, data, inode, owner, data', i, lo, s, o);
    }
  }

  /** The image while bytes are being appended to file i, whose inode is at hand. */
  ghost predicate Appending(sb: Super, data0: Disk, inode0: seq<Inode>, owner0: Owners, data: Disk, owner: Owners,
      freeblock: nat, i: nat, din: Inode, s: seq<Byte>)
  {
    && i < |inode0| && Building(sb, data, inode0[i := din], owner, freeblock) && |din.addrs| == 13
    && din == inode0[i].(addrs := din.addrs) && OthersSame(data0, owner0, data, owner, i)
    && Bytes(data0, inode0[i], data, din, inode0[i].size, s)
  }

  lemma AppendingNone(sb: Super, data: Disk, inode: seq<Inode>, owner: Owners, freeblock: nat, i: nat)
    requires Building(sb, data, inode, owner, freeblock) && i < |inode|
    ensures Appending(sb, data, inode, owner, data, owner, freeblock, i, inode[i], [])
  {
    assert inode[i := inode[i]] == inode;
    hide Present, ByteOf, SlotOwns, OwnedBack;
  }

  /** A block came in. */
  lemma AppendingTaken(sb: Super, data0: Disk, inode0: seq<Inode>, owner0: Owners, data: Disk, owner: Owners,
      freeblock: nat, i: nat, din: Inode, s: seq<Byte>, data': Disk, owner': Owners, freeblock': nat, din': Inode)
    requires Appending(sb, data0, inode0, owner0, data, owner, freeblock, i, din, s)
      && Building(sb, data', inode0[i := din'], owner', freeblock')
    requires Extends(data, owner, data', owner', i) && din' == din.(addrs := din'.addrs) && |din'.addrs| == 13
    ensures Appending(sb, data0, inode0, owner0, data', owner', freeblock', i, din', s)
  {
    hide Slots, Handed, Present, ByteOf;
    var lo := inode0[i].size + |s|;
    forall o: nat ensures (Present(data, din, o) ==> Present(data', din', o))
      && ByteOf(data', din', o) == ByteOf(data, din, o) {
      ExtendedByte(sb, data, inode0[i := din], owner, data', inode0[i := din'], owner', i, i, o);
    }
    assert Bytes(data, din, data', din', lo, []);
    BytesTrans(data0, inode0[i], data, din, data', din', inode0[i].size, s, []);
    assert s + [] == s;
  }

  /** Bytes were copied into its block. */
  lemma AppendingCopied(sb: Super, data0: Disk, inode0: seq<Inode>, owner0: Owners, data: Disk, owner: Owners,
      freeblock: nat, i: nat, din: Inode, s: seq<Byte>, more: seq<Byte>)
    requires Appending(sb, data0, inode0, owner0, data, owner, freeblock, i, din, s)
    requires Present(data, din, inode0[i].size + |s|) && (inode0[i].size + |s|) % 1024 + |more| <= 1024
    ensures var lo := inode0[i].size + |s|;
      var addr := At(data, din, SlotOf(lo / 1024));
      Appending(sb, data0, inode0, owner0, data[addr := Splice(data[addr], lo % 1024, more)], owner, freeblock, i,
        din, s + more)
      && forall o: nat :: Present(data[addr := Splice(data[addr], lo % 1024, more)], din, o) <==> Present(data, din, o)
  {
    var lo := inode0[i].size + |s|;
    var addr := At(data, din, SlotOf(lo / 1024));
    hide Slots, Handed, Present, ByteOf, At, Splice;
    CopiedBytes(sb, data, inode0[i := din], owner, freeblock, i, lo, more);
    BytesTrans(data0, inode0[i], data, din, data[addr := Splice(data[addr], lo % 1024, more)], din, inode0[i].size,
      s, more);
  }

  /** The appended file is the old one and the new bytes; it is tight again. */
  lemma Appended(sb: Super, data0: Disk, inode0: seq<Inode>, owner0: Owners, data: Disk, owner: Owners,
      freeblock: nat, i: nat, din: Inode, s: seq<Byte>)
    requires Appending(sb, data0, inode0, owner0, data, owner, freeblock, i, din, s) && Tight(data0, inode0[i])
      && Exact(data, din, inode0[i].size + |s|)
    ensures var ip := din.(size := inode0[i].size + |s|);
      Tight(data, ip) && Sized(inode0[i]) && Content(data, ip) == Content(data0, inode0[i]) + s
  {
    hide Building, At, Content, Present, ByteOf;
    var ip, n := din.(size := inode0[i].size + |s|), inode0[i].size;
    forall o: nat ensures (Present(data, ip, o) <==> Present(data, din, o))
      && ByteOf(data, ip, o) == ByteOf(data, din, o)
    {
      PresentSize(data, din, ip, o);
    }
    var c := Content(data0, inode0[i]) + s;
    forall o: nat | o < ip.size ensures ByteOf(data, ip, o) == c[o] {
      assert ByteOf(data, din, o) == if n <= o then s[o - n] else ByteOf(data0, inode0[i], o);
    }
    assert Content(data, ip) == c;
  }

  class Image {
    const sb: Super
    var data: Disk
    var inode: seq<Inode>
    var freeblock: nat
    var freeinode: nat
    ghost var owner: Owners

    ghost predicate Valid()
      reads this
    {
      && Building(sb, data, inode, owner, freeblock)
      && (forall i :: 0 <= i < |inode| ==> Tight(data, inode[i]))
      && (forall i :: 0 <= freeinode <= i < |inode| ==> EmptyInode(inode[i]))
    }

    /** main() up to the first ialloc(): a zeroed image. */
    constructor (sb: Super, data: Disk)
      requires LaidOut(sb) && (forall b: nat :: b in data <==> b < sb.size) && forall b :: b in data ==> Blank(data[b])
      ensures Valid() && this.sb == sb && freeblock == sb.datastart && freeinode == 1 && owner == map[]
    {
      this.sb, this.data, freeblock, freeinode, owner := sb, data, sb.datastart, 1, map[];
      inode := seq(sb.ninodes, i => Inode(0, 0, 0, NoAddrs()));
      new;
      forall i | 0 <= i < |inode| ensures Tight(data, inode[i]) { EmptyTight(data, inode[i]); }
    }

    lemma BuildingHere()
      requires Valid()
      ensures |inode| == sb.ninodes && freeblock <= sb.size
    {}

    /** The block for block number fbn of the file at hand; !ok when the image is full. */
    method Locate(i: nat, din: Inode, fbn: nat) returns (ok: bool, din': Inode, x: nat)
      requires i < |inode| && |din.addrs| == 13 && fbn < MAXFILE
        && Building(sb, data, inode[i := din], owner, freeblock)
      modifies `data, `freeblock, `owner
      ensures ok <==> old(freeblock) + Needed(old(data), din, SlotOf(fbn)) <= sb.size
      ensures ok ==> freeblock == old(freeblock) + Needed(old(data), din, SlotOf(fbn))
      ensures ok ==>
        Building(sb, data, inode[i := din'], owner, freeblock) && Extends(old(data), old(owner), data, owner, i)
        && OnlyAt(old(owner), owner, SlotOf(fbn))
      ensures ok ==>
        |din'.addrs| == 13 && din' == din.(addrs := din'.addrs) && x == At(data, din', SlotOf(fbn)) && x != 0
        && x in data && (din'.addrs[12] != 0 <==> din.addrs[12] != 0 || fbn >= 12)
    {
      hide Slots, Word, SetWord;
      SlotsShape(sb, data, inode[i := din], owner);
      din' := din;
      ok, x := true, 0;
      ExtendsSelf(data, owner, i);
      if fbn < NDIRECT {
        if din.addrs[fbn] == 0 {
          if freeblock == sb.size {
            return false, din', 0;
          }
          TakeAddr(sb, data, inode[i := din], owner, freeblock, i, fbn);
          din' := WithAddr(din, fbn, freeblock);
          assert inode[i := din][i := din'] == inode[i := din'];
          owner := owner[freeblock := (i, fbn)];
          freeblock := freeblock + 1;
        }
        x := din'.addrs[fbn];
        SlotBlock(sb, data, inode[i := din'], owner, i, fbn);
      } else {
        ok, din', x := LocateIndirect(i, din, fbn - NDIRECT);
      }
    }

    /** Its indirect block. */
    method TakeIndirect(i: nat, din: Inode) returns (ok: bool, din': Inode)
      requires i < |inode| && |din.addrs| == 13 && Building(sb, data, inode[i := din], owner, freeblock)
      modifies `freeblock, `owner
      ensures ok <==> old(freeblock) + NeedInd(din) <= sb.size
      ensures freeblock == old(freeblock) + if ok then NeedInd(din) else 0
      ensures ok ==>
        Building(sb, data, inode[i := din'], owner, freeblock) && Extends(data, old(owner), data, owner, i)
        && OnlyAt(old(owner), owner, 12)
      ensures ok ==>
        |din'.addrs| == 13 && din' == din.(addrs := din'.addrs) && din'.addrs[12] != 0 && din'.addrs[12] in data
      ensures ok && din.addrs[12] != 0 ==> owner == old(owner) && din' == din
      ensures ok && din.addrs[12] == 0 ==> data[din'.addrs[12]] == Zeros
    {
      hide Slots, Word, Blank;
      SlotsShape(sb, data, inode[i := din], owner);
      ok, din' := true, din;
      ExtendsSelf(data, owner, i);
      if din.addrs[12] == 0 {
        if freeblock == sb.size {
          return false, din';
        }
        BlankIsZeros(data[freeblock]);
        TakeAddr(sb, data, inode[i := din], owner, freeblock, i, 12);
        din' := WithAddr(din, 12, freeblock);
        assert inode[i := din][i := din'] == inode[i := din'];
        owner := owner[freeblock := (i, 12)];
        freeblock := freeblock + 1;
      }
      IndirectOwner(sb, data, inode[i := din'], owner, i);
    }

    method LocateIndirect(i: nat, din: Inode, j: nat) returns (ok: bool, din': Inode, x: nat)
      requires i < |inode| && |din.addrs| == 13 && j < WORDS && Building(sb, data, inode[i := din], owner, freeblock)
      modifies `data, `freeblock, `owner
      ensures ok <==> old(freeblock) + Needed(old(data), din, 13 + j) <= sb.size
      ensures ok ==> freeblock == old(freeblock) + Needed(old(data), din, 13 + j)
      ensures ok ==>
        Building(sb, data, inode[i := din'], owner, freeblock) && Extends(old(data), old(owner), data, owner, i)
        && OnlyAt(old(owner), owner, 13 + j)
      ensures ok ==>
        |din'.addrs| == 13 && din' == din.(addrs := din'.addrs) && x == At(data, din', 13 + j) && x != 0 && x in data
        && din'.addrs[12] != 0
    {
      hide Slots, Word, SetWord, Extends;
      SlotsShape(sb, data, inode[i := din], owner);
      x := 0;
      ok, din' := TakeIndirect(i, din);
      if !ok {
        return;
      }
      var ind := din'.addrs[12];
      if din.addrs[12] == 0 { WordOfZeros(j); }
      x := Word(data[ind], j);
      if x == 0 {
        if freeblock == sb.size {
          return false, din', 0;
        }
        ghost var data1, owner1 := data, owner;
        TakeWord(sb, data, inode[i := din'], owner, freeblock, i, j);
        x := freeblock;
        WordExtends(sb, data, inode[i := din'], owner, i, j, x);
        data := data[ind := SetWord(data[ind], j, x)];
        owner := owner[freeblock := (i, 13 + j)];
        freeblock := freeblock + 1;
        ExtendsTrans(old(data), old(owner), data1, owner1, data, owner, i);
      }
      SlotBlock(sb, data, inode[i := din'], owner, i, 13 + j);
    }

    /** ialloc(); !ok past the last inode. */
    method Ialloc(typ: nat) returns (ok: bool, inum: nat)
      requires Valid()
      modifies `inode, `freeinode
      ensures Valid()
      ensures !ok ==> inode == old(inode) && freeinode == old(freeinode) >= |inode|
      ensures ok ==>
        inum == old(freeinode) && freeinode == inum + 1 && inum < |old(inode)|
        && inode == old(inode)[inum := Inode(typ, 1, 0, NoAddrs())]
    {
      hide Building, Tight;
      inum := freeinode;
      ok := inum < |inode|;
      if ok {
        freeinode := freeinode + 1;
        SameAddrs(sb, data, inode, owner, freeblock, inum, Inode(typ, 1, 0, NoAddrs()));
        EmptyTight(data, Inode(typ, 1, 0, NoAddrs()));
        inode := inode[inum := Inode(typ, 1, 0, NoAddrs())];
      }
    }

    /** One turn of the loop in iappend(). */
    method AppendChunk(i: nat, din: Inode, xp: seq<Byte>, p: nat, ghost data0: Disk, ghost owner0: Owners)
        returns (ok: bool, din': Inode, n1: nat)
      requires p < |xp| && Appending(sb, data0, inode, owner0, data, owner, freeblock, i, din, xp[..p])
        && (din.size + p) / 1024 < MAXFILE && Exact(data, din, din.size + p)
      modifies `data, `freeblock, `owner
      ensures n1 == InBlock(din.size + p, |xp| - p)
      ensures ok <==> old(freeblock) + BlocksFor(din.size + p + n1) - BlocksFor(din.size + p) <= sb.size
      ensures ok ==>
        freeblock == old(freeblock) + BlocksFor(din.size + p + n1) - BlocksFor(din.size + p)
        && Appending(sb, data0, inode, owner0, data, owner, freeblock, i, din', xp[..p + n1])
        && Exact(data, din', din.size + p + n1)
    {
      hide Building, Bytes, At, Splice, Extends, Exact, Needed, OnlyAt, Present, BlocksFor, InBlock;
      var off := din.size + p;
      ghost var data1, owner1, freeblock1 := data, owner, freeblock;
      var x;
      AppendingShape(sb, data0, inode, owner0, data, owner, freeblock, i, din, xp[..p]);
      ok, din', x := Locate(i, din, off / BSIZE);
      n1 := InBlock(off, |xp| - p);
      NeededExact(sb, data1, inode[i := din], owner1, freeblock1, i, off, n1);
      if ok {
        AppendingTaken(sb, data0, inode, owner0, data1, owner1, freeblock1, i, din, xp[..p], data, owner, freeblock,
          din');
        ExactNow(sb, data1, inode[i := din], owner1, freeblock1, data, inode[i := din'], owner, freeblock, i, off, n1);
        AppendingCopied(sb, data0, inode, owner0, data, owner, freeblock, i, din', xp[..p], xp[p..p + n1]);
        assert xp[..p] + xp[p..p + n1] == xp[..p + n1];
        ghost var data2 := data;
        data := data[x := Splice(data[x], off % 1024, xp[p..p + n1])];
        ExactCopied(data2, data, din', off + n1);
      }
    }

    /** iappend(): the file grows by exactly the bytes given; no other file changes. It fails
        exactly when the file would be too large or the image has too few blocks left. */
    method Iappend(i: nat, xp: seq<Byte>) returns (ok: bool)
      requires Valid() && i < freeinode && i < |inode|
      modifies `data, `inode, `freeblock, `owner
      ensures ok <==>
        old(inode)[i].size + |xp| <= MAXFILE * BSIZE
        && old(freeblock) + BlocksFor(old(inode)[i].size + |xp|) - BlocksFor(old(inode)[i].size) <= sb.size
      ensures ok ==>
        Valid() && |inode| == |old(inode)| && Sized(old(inode)[i]) && Sized(inode[i])
        && Content(data, inode[i]) == Content(old(data), old(inode)[i]) + xp
        && inode[i] == old(inode)[i].(size := inode[i].size, addrs := inode[i].addrs)
        && freeblock == old(freeblock) + BlocksFor(inode[i].size) - BlocksFor(old(inode)[i].size)
      ensures ok ==>
        forall j :: 0 <= j < |inode| && j != i ==> inode[j] == old(inode)[j] && SameFile(old(data), data, inode[j])
    {
      hide Building, Tight, Exact, Content, Appending, BlocksFor, SameFile, InBlock;
      TightExact(data, inode[i]);
      AppendingNone(sb, data, inode, owner, freeblock, i);
      AppendingSize(sb, data, inode, owner, data, owner, freeblock, i, inode[i], []);
      var din, p := inode[i], 0;
      assert xp[..0] == [];
      while p < |xp|
        invariant inode == old(inode) && p <= |xp| && din == inode[i].(addrs := din.addrs) && freeblock <= sb.size
        invariant din.size + p <= MAXFILE * BSIZE
        invariant Appending(sb, old(data), inode, old(owner), data, owner, freeblock, i, din, xp[..p])
        invariant Exact(data, din, din.size + p)
        invariant freeblock == old(freeblock) + BlocksFor(din.size + p) - BlocksFor(din.size)
        decreases |xp| - p
      {
        BlocksMonotone(din.size + p, din.size + |xp|);
        if (din.size + p) / BSIZE >= MAXFILE {
          return false;
        }
        var n1;
        ghost var size, p0 := din.size, p;
        ok, din, n1 := AppendChunk(i, din, xp, p, old(data), old(owner));
        BlocksMonotone(size + p0 + n1, size + |xp|);
        if !ok {
          return;
        }
        AppendingSize(sb, old(data), inode, old(owner), data, owner, freeblock, i, din, xp[..p + n1]);
        BlockFits(size + p0, n1);
        p := p + n1;
      }
      assert xp[..p] == xp;
      AppendedAll(sb, old(data), old(inode), old(owner), old(freeblock), data, owner, freeblock, i, din, xp);
      inode := inode[i := din.(size := din.size + |xp|)];
      ok := true;
    }

    /** main() rounds the root's size up to the next block boundary after its end. The root
        then has zeros after its entries, and has a block for each byte exactly when its
        entries did not fill their last block. */
    method RoundUpSize(i: nat)
      requires Valid() && i < |inode|
      modifies `inode
      ensures Building(sb, data, inode, owner, freeblock)
      ensures var size := old(inode)[i].size;
        && inode == old(inode)[i := old(inode)[i].(size := (size / BSIZE + 1) * BSIZE)]
        && (NoHoles(data, inode[i]) <==> size % BSIZE != 0)
        && (Sized(inode[i]) <==> size < MAXFILE * BSIZE)
      ensures Sized(old(inode)[i]) && (Sized(inode[i]) ==>
        Content(data, inode[i]) == Padded(Content(data, old(inode)[i]), inode[i].size))
    {
      hide Building, Tight, Content, NoHoles;
      Rounded(data, inode[i]);
      SameAddrs(sb, data, inode, owner, freeblock, i, inode[i].(size := (inode[i].size / BSIZE + 1) * BSIZE));
      inode := inode[i := inode[i].(size := (inode[i].size / BSIZE + 1) * BSIZE)];
    }

    /** balloc(freeblock): the bitmap, written in one block. The image is then a file system
        whose set bits are exactly the metadata and the blocks in slots. !ok is the failed
        assertion that one block is enough. */
    method WriteBitmap() returns (ok: bool)
      requires Building(sb, data, inode, owner, freeblock)
      modifies `data
      ensures ok <==> freeblock < BPB
      ensures ok ==>
        Owned(sb, data, inode, owner) && forall i :: 0 <= i < |inode| ==> SameFile(old(data), data, inode[i])
    {
      hide NoHoles, Content, Slots, Bit, SetBit, Bits;
      if freeblock >= BPB {
        return false;
      }
      SlotsShape(sb, data, inode, owner);
      BitmapRegion(sb, 0);
      var buf := data[sb.bmapstart];
      BlankIsZeros(buf);
      forall k: nat | k < BPB ensures !Bit(buf, k) { BitOfZeros(k); }
      var i := 0;
      while i < freeblock
        invariant i <= freeblock && forall k: nat :: k < BPB ==> (Bit(buf, k) <==> k < i)
      {
        forall k: nat | k < BPB ensures Bit(SetBit(buf, i), k) <==> k == i || Bit(buf, k) { BitOfSetBit(buf, i, k); }
        buf := SetBit(buf, i);
        i := i + 1;
      }
      BitmapWritten(sb, data, inode, owner, freeblock, buf);
      data := data[sb.bmapstart := buf];
      ok := true;
    }
  }

  /** The layout mkfs gives its image. */
  const LAYOUT := Super(1000, 200, 30, 32, 45, 46)

  /** A root directory of 64 entries fills its block. Rounding gives it a size of two blocks,
      and the second is a hole. */
  method FullRoot(data: Disk, entries: seq<Byte>) returns (img: Image)
    requires (forall b: nat :: b in data <==> b < LAYOUT.size) && (forall b :: b in data ==> Blank(data[b]))
      && |entries| == 64 * 16
    ensures Building(LAYOUT, img.data, img.inode, img.owner, img.freeblock)
    ensures |img.inode| == LAYOUT.ninodes && img.inode[1].size == 2048 && !NoHoles(img.data, img.inode[1])
    ensures Sized(img.inode[1]) && Content(img.data, img.inode[1]) == Padded(entries, 2048)
  {
    hide Building, Content, NoHoles, Tight;
    img := new Image(LAYOUT, data);
    img.BuildingHere();
    var ok, i := img.Ialloc(1);
    EmptyContent(img.data, img.inode[i]);
    assert BlocksFor(1024) == 1 && BlocksFor(0) == 0;
    ok := img.Iappend(i, entries);
    assert [] + entries == entries;
    img.RoundUpSize(i);
  }

  lemma EmptyContent(data: Disk, ip: Inode)
    requires EmptyInode(ip)
    ensures Sized(ip) && Content(data, ip) == []
  {}

  lemma BitmapWritten(sb: Super, data: Disk, inode: seq<Inode>, owner: Owners, freeblock: nat, buf: Block)
    requires Building(sb, data, inode, owner, freeblock) && freeblock < BPB
      && forall k: nat :: k < BPB ==> (Bit(buf, k) <==> k < freeblock)
    ensures var data' := data[sb.bmapstart := buf];
      Owned(sb, data', inode, owner) && forall i :: 0 <= i < |inode| ==> SameFile(data, data', inode[i])
  {
    var data' := data[sb.bmapstart := buf];
    SlotsShape(sb, data, inode, owner);
    BitmapRegion(sb, 0);
    hide NoHoles, Content, Bit, At;
    SlotsFrame2(sb, data, inode, owner, data');
    hide Slots;
    forall b: nat | b < sb.size ensures Marked(sb, data', b) <==> b < sb.datastart || b in owner {
      WrittenBit(sb, data, owner, freeblock, buf, b);
    }
    forall i | 0 <= i < |inode| ensures SameFile(data, data', inode[i]) {
      if Sized(inode[i]) { OtherContent(sb, data, inode, owner, data', inode, owner, |inode|, i); }
    }
  }

  lemma WrittenBit(sb: Super, data: Disk, owner: Owners, freeblock: nat, buf: Block, b: nat)
    requires LaidOut(sb) && (forall c: nat :: c in data <==> c < sb.size) && Handed(sb, data, owner, freeblock)
      && freeblock < BPB && b < sb.size
    requires forall k: nat :: k < BPB ==> (Bit(buf, k) <==> k < freeblock)
    ensures Marked(sb, data[sb.bmapstart := buf], b) <==> b < freeblock
  {
    hide Bit;
    BitmapRegion(sb, b);
    if b >= 8192 {
      var m := BitmapBlock(sb, b);
      BlankIsZeros(data[m]);
      BitOfZeros(b % 8192);
    }
  }

  ghost predicate EmptyInode(ip: Inode) { ip.addrs == NoAddrs() && ip.size == 0 }

  /** A file's bytes are the same. */
  ghost predicate SameFile(data0: Disk, data: Disk, ip: Inode)
  {
    Sized(ip) ==> Content(data, ip) == Content(data0, ip) && (NoHoles(data, ip) <==> NoHoles(data0, ip))
  }

  lemma AppendingSize(sb: Super, data0: Disk, inode0: seq<Inode>, owner0: Owners, data: Disk, owner: Owners,
      freeblock: nat, i: nat, din: Inode, s: seq<Byte>)
    requires Appending(sb, data0, inode0, owner0, data, owner, freeblock, i, din, s)
    ensures i < |inode0| && din == inode0[i].(addrs := din.addrs) && freeblock <= sb.size
  {}

  lemma WordExtends(sb: Super, data: Disk, inode: seq<Inode>, owner: Owners, i: nat, j: nat, b: nat)
    requires Slots(sb, data, inode, owner) && i < |inode| && |inode[i].addrs| == 13 && j < WORDS && b < WORD_LIMIT
      && b !in owner
    requires inode[i].addrs[12] != 0 && inode[i].addrs[12] in data
      && (b in data ==> Blank(data[b]))
    ensures var ind := inode[i].addrs[12];
      Extends(data, owner, data[ind := SetWord(data[ind], j, b)], owner[b := (i, 13 + j)], i)
  {
    hide SetWord, Slots;
    IndirectOwner(sb, data, inode, owner, i);
  }

  /** Everything but addrs may change in an inode without moving a block. */
  lemma SameAddrs(sb: Super, data: Disk, inode: seq<Inode>, owner: Owners, freeblock: nat, i: nat, ip: Inode)
    requires Building(sb, data, inode, owner, freeblock) && i < |inode| && ip.addrs == inode[i].addrs
    ensures Building(sb, data, inode[i := ip], owner, freeblock)
  {
    var inode' := inode[i := ip];
    forall j: nat, k: nat | j < |inode| && k < SLOTS ensures At(data, inode'[j], k) == At(data, inode[j], k) {
      AtSize(data, inode[j], inode'[j], k);
    }
    hide At;
    forall j: nat, k: nat | j < |inode'| && k < SLOTS ensures SlotOwns(data, inode', owner, j, k) {
      assert SlotOwns(data, inode, owner, j, k);
    }
    forall b | b in owner ensures OwnedBack(sb, data, inode', owner, b) {
      assert OwnedBack(sb, data, inode, owner, b);
      assert At(data, inode'[owner[b].0], owner[b].1) == At(data, inode[owner[b].0], owner[b].1);
    }
  }

  lemma AppendedAll(sb: Super, data0: Disk, inode0: seq<Inode>, owner0: Owners, freeblock0: nat, data: Disk,
      owner: Owners, freeblock: nat, i: nat, din: Inode, s: seq<Byte>)
    requires Building(sb, data0, inode0, owner0, freeblock0)
      && Appending(sb, data0, inode0, owner0, data, owner, freeblock, i, din, s)
    requires (forall j :: 0 <= j < |inode0| ==> Tight(data0, inode0[j])) && Exact(data, din, din.size + |s|)
    ensures var ip := din.(size := din.size + |s|);
      && Building(sb, data, inode0[i := ip], owner, freeblock) && Tight(data, ip) && Sized(inode0[i]) && Sized(ip)
      && Content(data, ip) == Content(data0, inode0[i]) + s
    ensures forall j :: 0 <= j < |inode0| && j != i ==> SameFile(data0, data, inode0[j]) && Tight(data, inode0[j])
  {
    hide Slots, Handed, NoHoles, Content, Bytes, Tight, Exact;
    var ip := din.(size := din.size + |s|);
    Appended(sb, data0, inode0, owner0, data, owner, freeblock, i, din, s);
    TightExact(data, ip);
    SameAddrs(sb, data, inode0[i := din], owner, freeblock, i, ip);
    assert inode0[i := din][i := ip] == inode0[i := ip];
    forall j | 0 <= j < |inode0| && j != i ensures SameFile(data0, data, inode0[j]) && Tight(data, inode0[j]) {
      TightExact(data0, inode0[j]);
      OtherContent(sb, data0, inode0, owner0, data, inode0[i := ip], owner, i, j);
      OtherTight(sb, data0, inode0, owner0, data, inode0[i := ip], owner, i, j);
    }
  }

  lemma OtherTight(sb: Super, data0: Disk, inode0: seq<Inode>, owner0: Owners, data: Disk, inode: seq<Inode>,
      owner: Owners, i: nat, j: nat)
    requires Slots(sb, data0, inode0, owner0) && Slots(sb, data, inode, owner)
      && OthersSame(data0, owner0, data, owner, i)
    requires j < |inode0| && j != i && j < |inode| && inode[j] == inode0[j] && Tight(data0, inode0[j])
    ensures Tight(data, inode[j])
  {
    hide Slots, Present, ByteOf;
    forall o: nat ensures (Present(data, inode[j], o) <==> Present(data0, inode0[j], o))
      && ByteOf(data, inode[j], o) == ByteOf(data0, inode0[j], o) {
      OtherByte(sb, data0, inode0, owner0, data, inode, owner, i, j, o);
    }
  }

  lemma EmptyTight(data: Disk, ip: Inode)
    requires EmptyInode(ip)
    ensures Tight(data, ip)
  {
    forall o: nat ensures !Present(data, ip, o) {}
  }

  lemma TightExact(data: Disk, ip: Inode)
    requires Tight(data, ip)
    ensures Exact(data, ip, ip.size) && Sized(ip)
  {}

  lemma AppendingShape(sb: Super, data0: Disk, inode0: seq<Inode>, owner0: Owners, data: Disk, owner: Owners,
      freeblock: nat, i: nat, din: Inode, s: seq<Byte>)
    requires Appending(sb, data0, inode0, owner0, data, owner, freeblock, i, din, s)
    ensures i < |inode0| && |din.addrs| == 13 && Building(sb, data, inode0[i := din], owner, freeblock)
  {}

  lemma BlocksMonotone(a: nat, b: nat)
    requires a <= b
    ensures BlocksFor(a) <= BlocksFor(b)
  {}

  lemma BlockFits(off: nat, n: nat)
    requires off / 1024 < MAXFILE && off % 1024 + n <= 1024
    ensures off + n <= MAXFILE * BSIZE
  {}

  /** The blocks to take for the next part are those the longer file has more. */
  lemma NeededExact(sb: Super, data: Disk, inode: seq<Inode>, owner: Owners, freeblock: nat, i: nat, off: nat, n: nat)
    requires Building(sb, data, inode, owner, freeblock) && i < |inode|
    requires Exact(data, inode[i], off) && off / 1024 < MAXFILE && 0 < n && off % 1024 + n <= 1024
    ensures Needed(data, inode[i], SlotOf(off / 1024)) == BlocksFor(off + n) - BlocksFor(off)
  {
    hide At, Slots;
    var ip := inode[i];
    if At(data, ip, SlotOf(off / 1024)) != 0 { SlotBlock(sb, data, inode, owner, i, SlotOf(off / 1024)); }
    assert Present(data, ip, off) <==> off < RoundUp(off);
    assert off < RoundUp(off) <==> off % 1024 != 0;
  }

  lemma ExactNow(sb: Super, data: Disk, inode: seq<Inode>, owner: Owners, freeblock: nat, data': Disk,
      inode': seq<Inode>, owner': Owners, freeblock': nat, i: nat, off: nat, n: nat)
    requires Building(sb, data, inode, owner, freeblock) && Building(sb, data', inode', owner', freeblock')
      && Extends(data, owner, data', owner', i) && i < |inode| && i < |inode'|
    requires off / 1024 < MAXFILE && 0 < n && off % 1024 + n <= 1024 && Exact(data, inode[i], off)
    requires OnlyAt(owner, owner', SlotOf(off / 1024)) && |inode'[i].addrs| == 13
      && At(data', inode'[i], SlotOf(off / 1024)) != 0
      && (inode'[i].addrs[12] != 0 <==> inode[i].addrs[12] != 0 || off / 1024 >= 12)
    ensures Exact(data', inode'[i], off + n) && Present(data', inode'[i], off)
  {
    hide Slots, Handed, At, Present, Extends, OnlyAt;
    forall o: nat ensures Present(data', inode'[i], o) <==> o < RoundUp(off + n) {
      PresentNow(sb, data, inode, owner, data', inode', owner', i, o, off);
      RoundUpNext(off, n, o);
    }
  }

  lemma RoundUpNext(off: nat, n: nat, o: nat)
    requires 0 < n && off % 1024 + n <= 1024
    ensures o < RoundUp(off + n) <==> o < RoundUp(off) || o / 1024 == off / 1024
  {
    var q, r := off / 1024, off % 1024;
    assert off == 1024 * q + r;
    assert (1024 * q + r + n + 1023) / 1024 == q + 1;
    if r == 0 { assert (1024 * q + 1023) / 1024 == q; } else { assert (1024 * q + r + 1023) / 1024 == q + 1; }
  }

  lemma ExactCopied(data: Disk, data': Disk, ip: Inode, n: nat)
    requires Exact(data, ip, n) && forall o: nat :: Present(data', ip, o) <==> Present(data, ip, o)
    ensures Exact(data', ip, n)
  {
    hide Present;
  }

  /** The contents of a file, with zeros up to a size. */
  function Padded(c: seq<Byte>, size: nat): (r: seq<Byte>)
    requires |c| <= size
  {
    c + seq(size - |c|, _ => 0)
  }

  /** A tight file whose size is rounded up. */
  lemma Rounded(data: Disk, ip: Inode)
    requires Tight(data, ip)
    ensures var ip' := ip.(size := (ip.size / BSIZE + 1) * BSIZE);
      && (NoHoles(data, ip') <==> ip.size % BSIZE != 0)
      && (Sized(ip') <==> ip.size < MAXFILE * BSIZE)
      && Sized(ip) && ip.size <= ip'.size && (Sized(ip') ==> Content(data, ip') == Padded(Content(data, ip), ip'.size))
  {
    var size := (ip.size / BSIZE + 1) * BSIZE;
    var ip' := ip.(size := size);
    hide Content, Present, ByteOf;
    forall o: nat ensures (Present(data, ip', o) <==> Present(data, ip, o))
      && ByteOf(data, ip', o) == ByteOf(data, ip, o)
    {
      PresentSize(data, ip, ip', o);
    }
    assert size == 1024 * (ip.size / 1024) + 1024 && RoundUp(ip.size) == if ip.size % 1024 == 0 then ip.size else size;
    if ip.size % 1024 == 0 && Sized(ip') { assert !Present(data, ip', ip.size); }
    if Sized(ip') { assert Content(data, ip') == Padded(Content(data, ip), size); }
  }

}
