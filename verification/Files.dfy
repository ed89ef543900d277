/** File contents: readi and writei of kernel/fs.c and the chunking of filewrite in
    kernel/file.c, proved to read and write a sequence of bytes per file.

    A copy from or to user memory can fail; `limit` is how many bytes of it can be copied. */
module Files {
  import opened Common
  import opened Blocks
  import opened FsBlocks
  import opened FreeBlocks
  import opened Fs

  /** Byte o of a file has a block. */
  ghost predicate Present(data: Disk, ip: Inode, o: nat)
  {
    |ip.addrs| == 13 && o / 1024 < MAXFILE && At(data, ip, SlotOf(o / 1024)) != 0
      && At(data, ip, SlotOf(o / 1024)) in data
  }

  ghost function ByteAt(data: Disk, ip: Inode, o: nat): (x: Byte)
    requires Present(data, ip, o)
  {
    data[At(data, ip, SlotOf(o / 1024))][o % 1024]
  }

  /** Byte o of a file; where it has no block, the zero that bmap() would give it. */
  ghost function ByteOf(data: Disk, ip: Inode, o: nat): (x: Byte)
  {
    if Present(data, ip, o) then ByteAt(data, ip, o) else 0
  }

  predicate Sized(ip: Inode) { |ip.addrs| == 13 && ip.size <= MAXFILE * BSIZE }

  /** Every byte below the size has a block. */
  ghost predicate NoHoles(data: Disk, ip: Inode) { Sized(ip) && forall o: nat :: o < ip.size ==> Present(data, ip, o) }

  /** The bytes of a file. */
  ghost function Content(data: Disk, ip: Inode): (s: seq<Byte>)
    requires Sized(ip)
    ensures |s| == ip.size && forall o: nat :: o < ip.size ==> s[o] == ByteOf(data, ip, o)
  {
    seq(ip.size, o requires 0 <= o < ip.size => ByteOf(data, ip, o))
  }

  // -------------------------------------------------------------- storing bytes

  /** Slots and data of the other files are as before. */
  ghost predicate OthersSame(data0: Disk, owner0: Owners, data: Disk, owner: Owners, i: nat)
  {
    && data.Keys == data0.Keys
    && (forall b :: b in owner0 ==> b in owner && owner[b] == owner0[b])
    && (forall b :: b in owner0 && b in data0 && owner0[b].0 != i && owner0[b].1 != 12 ==> data[b] == data0[b])
    && (forall b :: b in owner && b !in owner0 ==> owner[b].0 == i)
  }

  ghost predicate Bytes(data0: Disk, ip0: Inode, data: Disk, ip: Inode, lo: nat, s: seq<Byte>)
  {
    forall o: nat {:trigger Present(data, ip, o)} {:trigger ByteOf(data, ip, o)} ::
      && (Present(data0, ip0, o) || lo <= o < lo + |s| ==> Present(data, ip, o))
      && ByteOf(data, ip, o) == if lo <= o < lo + |s| then s[o - lo] else ByteOf(data0, ip0, o)
  }

  /** The bytes from lo on of file i became s; nothing else of any file changed. */
  ghost predicate Stored(sb: Super, data0: Disk, inode0: seq<Inode>, owner0: Owners, data: Disk, inode: seq<Inode>,
      owner: Owners, i: nat, lo: nat, s: seq<Byte>)
  {
    && Owned(sb, data, inode, owner) && i < |inode0| == |inode| && |inode0[i].addrs| == 13 == |inode[i].addrs|
    && inode == inode0[i := inode0[i].(addrs := inode[i].addrs)] && OthersSame(data0, owner0, data, owner, i)
    && Bytes(data0, inode0[i], data, inode[i], lo, s)
  }

  lemma BytesTrans(data0: Disk, ip0: Inode, data1: Disk, ip1: Inode, data2: Disk, ip2: Inode, lo: nat, s1: seq<Byte>,
      s2: seq<Byte>)
    requires Bytes(data0, ip0, data1, ip1, lo, s1) && Bytes(data1, ip1, data2, ip2, lo + |s1|, s2)
    ensures Bytes(data0, ip0, data2, ip2, lo, s1 + s2)
  {
    hide Present, ByteOf;
    forall o: nat ensures (Present(data0, ip0, o) || lo <= o < lo + |s1 + s2| ==> Present(data2, ip2, o))
      && ByteOf(data2, ip2, o) == if lo <= o < lo + |s1 + s2| then (s1 + s2)[o - lo] else ByteOf(data0, ip0, o)
    {
      assert Present(data1, ip1, o) || ByteOf(data1, ip1, o) == ByteOf(data1, ip1, o);
    }
  }

  lemma StoredTrans(sb: Super, data0: Disk, inode0: seq<Inode>, owner0: Owners, data1: Disk, inode1: seq<Inode>,
      owner1: Owners, data2: Disk, inode2: seq<Inode>, owner2: Owners, i: nat, lo: nat, s1: seq<Byte>, s2: seq<Byte>)
    requires Stored(sb, data0, inode0, owner0, data1, inode1, owner1, i, lo, s1)
      && Stored(sb, data1, inode1, owner1, data2, inode2, owner2, i, lo + |s1|, s2)
    ensures Stored(sb, data0, inode0, owner0, data2, inode2, owner2, i, lo, s1 + s2)
  {
    hide Owned, Bytes;
    BytesTrans(data0, inode0[i], data1, inode1[i], data2, inode2[i], lo, s1, s2);
  }

  lemma StoredNone(sb: Super, data: Disk, inode: seq<Inode>, owner: Owners, i: nat, lo: nat)
    requires Owned(sb, data, inode, owner) && i < |inode| && |inode[i].addrs| == 13
    ensures Stored(sb, data, inode, owner, data, inode, owner, i, lo, [])
  {
    hide Owned, Present, ByteOf;
    assert inode == inode[i := inode[i].(addrs := inode[i].addrs)];
  }

  /** A blank block more moves no byte of any file. */
  lemma ExtendedByte(sb: Super, data0: Disk, inode0: seq<Inode>, owner0: Owners, data: Disk, inode: seq<Inode>,
      owner: Owners, e: nat, i: nat, o: nat)
    requires Slots(sb, data0, inode0, owner0) && Slots(sb, data, inode, owner)
      && Extends(data0, owner0, data, owner, e) && i < |inode0| && i < |inode|
    ensures Present(data0, inode0[i], o) ==> Present(data, inode[i], o)
    ensures ByteOf(data, inode[i], o) == ByteOf(data0, inode0[i], o)
  {
    if o / 1024 < MAXFILE {
      hide Slots, At, Blank;
      SlotsAddrs(sb, data0, inode0, owner0);
      SlotsAddrs(sb, data, inode, owner);
      var k := SlotOf(o / 1024);
      if At(data0, inode0[i], k) != 0 {
        SlotKept(sb, data0, inode0, owner0, data, inode, owner, e, i, k);
      } else {
        SlotNew(sb, data0, inode0, owner0, data, inode, owner, e, i, k);
        BlankByte(data, inode[i], o);
      }
    }
  }

  lemma BlankByte(data: Disk, ip: Inode, o: nat)
    requires Present(data, ip, o) ==> Blank(data[At(data, ip, SlotOf(o / 1024))])
    ensures ByteOf(data, ip, o) == 0
  {}

  lemma SlotsAddrs(sb: Super, data: Disk, inode: seq<Inode>, owner: Owners)
    requires Slots(sb, data, inode, owner)
    ensures forall i :: 0 <= i < |inode| ==> |inode[i].addrs| == 13
  {}

  /** bmap() stores nothing. */
  lemma MappedStored(sb: Super, data0: Disk, inode0: seq<Inode>, owner0: Owners, data: Disk, inode: seq<Inode>,
      owner: Owners, i: nat, k: nat, addr: nat, lo: nat)
    requires Slots(sb, data0, inode0, owner0) && i < |inode0| && |inode0[i].addrs| == 13 && k < SLOTS
    requires Mapped(sb, data0, inode0, owner0, data, inode, owner, i, k, addr)
    ensures Stored(sb, data0, inode0, owner0, data, inode, owner, i, lo, [])
  {
    hide Slots, At, Present, ByteOf;
    forall o: nat ensures (Present(data0, inode0[i], o) ==> Present(data, inode[i], o))
      && ByteOf(data, inode[i], o) == ByteOf(data0, inode0[i], o) {
      ExtendedByte(sb, data0, inode0, owner0, data, inode, owner, i, i, o);
    }
  }

  /** A store into one block of file i. */
  lemma SpliceStored(sb: Super, data: Disk, inode: seq<Inode>, owner: Owners, i: nat, lo: nat, s: seq<Byte>)
    requires Owned(sb, data, inode, owner) && i < |inode| && Present(data, inode[i], lo) && lo % 1024 + |s| <= 1024
    ensures var addr := At(data, inode[i], SlotOf(lo / 1024));
      Stored(sb, data, inode, owner, data[addr := Splice(data[addr], lo % 1024, s)], inode, owner, i, lo, s)
  {
    hide At, Splice, Bits;
    var k := SlotOf(lo / 1024);
    var addr := At(data, inode[i], k);
    var data' := data[addr := Splice(data[addr], lo % 1024, s)];
    SlotBlock(sb, data, inode, owner, i, k);
    SlotsFrame(sb, data, inode, owner, data');
    BitsFrame(sb, data, data', owner);
    assert inode == inode[i := inode[i].(addrs := inode[i].addrs)];
    forall o: nat ensures (Present(data, inode[i], o) || lo <= o < lo + |s| ==> Present(data', inode[i], o))
      && ByteOf(data', inode[i], o) == if lo <= o < lo + |s| then s[o - lo] else ByteOf(data, inode[i], o)
    {
      SplicedByte(sb, data, inode, owner, data', i, lo, s, o);
    }
  }

  lemma SplicedByte(sb: Super, data: Disk, inode: seq<Inode>, owner: Owners, data': Disk, i: nat, lo: nat,
      s: seq<Byte>, o: nat)
    requires Slots(sb, data, inode, owner) && i < |inode| && Present(data, inode[i], lo) && lo % 1024 + |s| <= 1024
    requires var addr := At(data, inode[i], SlotOf(lo / 1024)); data' == data[addr := Splice(data[addr], lo % 1024, s)]
    requires forall k: nat :: k < SLOTS ==> At(data', inode[i], k) == At(data, inode[i], k)
    ensures Present(data, inode[i], o) || lo <= o < lo + |s| ==> Present(data', inode[i], o)
    ensures ByteOf(data', inode[i], o) == if lo <= o < lo + |s| then s[o - lo] else ByteOf(data, inode[i], o)
  {
    hide At, Splice, Slots;
    SameBlock(lo, |s|, o);
    if o / 1024 != lo / 1024 && o / 1024 < MAXFILE {
      SlotsDiffer(sb, data, inode, owner, i, SlotOf(lo / 1024), i, SlotOf(o / 1024));
    }
  }

  lemma SameBlock(lo: nat, n: nat, o: nat)
    requires lo % 1024 + n <= 1024
    ensures lo <= o < lo + n ==> o / 1024 == lo / 1024
    ensures o / 1024 == lo / 1024 ==>
      (lo <= o < lo + n <==> lo % 1024 <= o % 1024 < lo % 1024 + n) && o - lo == o % 1024 - lo % 1024
  {}

  // ------------------------------------------------------------------- writei()

  /** The indirect block, if there is one. */
  ghost function Ind(ip: Inode): (s: set<nat>)
    requires |ip.addrs| == 13
  {
    if ip.addrs[12] == 0 then {} else {ip.addrs[12]}
  }

  ghost function NeedInd(ip: Inode): (n: nat)
    requires |ip.addrs| == 13
  {
    if ip.addrs[12] == 0 then 1 else 0
  }

  /** Blocks logged since: c data blocks, at most `added` of them new, the bitmap blocks of
      what was allocated, and the indirect block. */
  ghost predicate Account(logged0: set<nat>, logged: set<nat>, marks: set<nat>, dat: set<nat>, ip0: Inode, ip: Inode,
      c: nat, added: nat)
  {
    && |ip0.addrs| == 13 == |ip.addrs| && logged <= logged0 + marks + dat + Ind(ip)
    && |dat| <= c && |marks| + NeedInd(ip) <= NeedInd(ip0) + added
  }

  lemma AccountNext(logged0: set<nat>, logged1: set<nat>, logged2: set<nat>, marks1: set<nat>, marks: set<nat>,
      dat: set<nat>, addr: nat, ip0: Inode, ip1: Inode, ip2: Inode, c: nat, added: nat, more: nat, ind: nat)
    requires Account(logged0, logged1, marks1, dat, ip0, ip1, c, added) && |ip2.addrs| == 13
    requires logged2 <= logged1 + marks + {addr} + Ind(ip2) && |marks| <= more + ind
      && (ip1.addrs[12] != 0 ==> ip2.addrs[12] == ip1.addrs[12])
    requires ind <= NeedInd(ip1) - NeedInd(ip2)
    ensures Account(logged0, logged2, marks1 + marks, dat + {addr}, ip0, ip2, c + 1, added + more)
  {
    assert |marks1 + marks| <= |marks1| + |marks| by { UnionSize(marks1, marks); }
    assert |dat + {addr}| <= |dat| + 1 by { UnionSize(dat, {addr}); }
  }

  lemma UnionSize(a: set<nat>, b: set<nat>)
    ensures |a + b| <= |a| + |b|
  {
    assert a + b == a + (b - a);
    assert |a + (b - a)| == |a| + |b - a|;
    assert b == (b - a) + (b * a);
    assert |b| == |b - a| + |b * a|;
  }

  /** What bmap() did to the account. */
  lemma MappedAccount(sb: Super, data0: Disk, inode0: seq<Inode>, owner0: Owners, data: Disk, inode: seq<Inode>,
      owner: Owners, i: nat, k: nat, addr: nat)
    requires Slots(sb, data0, inode0, owner0) && i < |inode0| && |inode0[i].addrs| == 13 && k < SLOTS && k != 12
    requires Mapped(sb, data0, inode0, owner0, data, inode, owner, i, k, addr)
    ensures inode0[i].addrs[12] != 0 ==> inode[i].addrs[12] == inode0[i].addrs[12]
    ensures k >= 13 ==> inode[i].addrs[12] != 0
    ensures NeedInd(inode[i]) <= NeedInd(inode0[i]) && (k >= 13 ==> NeedInd(inode[i]) == 0)
  {
    hide Slots;
    if inode0[i].addrs[12] != 0 {
      SlotKept(sb, data0, inode0, owner0, data, inode, owner, i, i, 12);
    }
  }

  function Min(a: nat, b: nat): (m: nat) { if a < b then a else b }

  /** bmap() of block k, counting what it takes. */
  method MapNext(fs: FileSystem, i: nat, k: nat, ghost data0: Disk, ghost inode0: seq<Inode>, ghost owner0: Owners,
      ghost t: set<nat>)
      returns (addr: nat, ghost marks: set<nat>)
    requires fs.Valid() && Owned(fs.sb, data0, inode0, owner0) && i < |inode0| == |fs.inode| && k < MAXFILE
      && |inode0[i].addrs| == 13 == |fs.inode[i].addrs| && Spent(data0, inode0[i], i, owner0, fs.owner, t)
    modifies fs`data, fs`inode, fs`owner, fs`logged
    ensures addr != 0 <==> Enough(fs.sb, data0, inode0[i], t + {k})
    ensures addr != 0 ==> Spent(data0, inode0[i], i, owner0, fs.owner, t + {k})
    ensures addr == 0 ==> fs.Full() && At(old(fs.data), old(fs.inode)[i], SlotOf(k)) == 0
    ensures addr != 0 ==>
      Mapped(fs.sb, old(fs.data), old(fs.inode), old(fs.owner), fs.data, fs.inode, fs.owner, i, SlotOf(k), addr)
    ensures addr != 0 ==>
      fs.logged <= old(fs.logged) + marks + {addr} + (if k < 12 then {} else {fs.inode[i].addrs[12]})
    ensures addr != 0 ==> |marks| <= Needed(old(fs.data), old(fs.inode)[i], SlotOf(k))
    ensures addr != 0 && At(old(fs.data), old(fs.inode)[i], SlotOf(k)) != 0 ==> fs.logged == old(fs.logged)
  {
    hide Owned, Slots, At, Mapped, Needed, Clear, Steps, Enough, Spent, FileSystem.Full;
    OwnedSlots(fs.sb, data0, inode0, owner0);
    OwnedSlots(fs.sb, fs.data, fs.inode, fs.owner);
    EnoughOne(fs.sb, data0, inode0, owner0, fs.data, fs.inode, fs.owner, i, t, k);
    addr, marks := fs.Bmap(i, k);
    if addr != 0 {
      SpentOne(fs.sb, data0, inode0, owner0, old(fs.data), old(fs.inode), old(fs.owner), i, t, k, fs.owner);
    }
  }

  /** The blocks a copy of n bytes at off goes through when it stops after `limit` of them. */
  ghost function Touched(off: nat, n: nat, limit: nat): (t: set<nat>)
    ensures off + n <= MAXFILE * BSIZE ==> InFile(t)
  {
    if n == 0 then {} else Range(off / 1024, (off + Min(n - 1, limit)) / 1024 + 1)
  }

  /** One turn of the loop in writei(): bmap, copyin and log_write. !ok is a panic of
      bmap(), for a full disk; a copy that fails leaves what it copied in the buffer. */
  method WriteChunk(fs: FileSystem, i: nat, off: nat, src: seq<Byte>, tot: nat, limit: nat, ghost data0: Disk,
      ghost inode0: seq<Inode>, ghost owner0: Owners, ghost t: set<nat>)
      returns (ok: bool, m: nat, copied: bool, ghost s: seq<Byte>, ghost marks: set<nat>, ghost addr: nat)
    requires fs.Valid() && i < |fs.inode| && |fs.inode[i].addrs| == 13 && tot < |src| && off / 1024 < MAXFILE
    requires Owned(fs.sb, data0, inode0, owner0) && i < |inode0| == |fs.inode| && |inode0[i].addrs| == 13
      && Spent(data0, inode0[i], i, owner0, fs.owner, t)
    modifies fs`data, fs`inode, fs`owner, fs`logged
    ensures !ok ==> fs.Full()
    ensures ok <==> Enough(fs.sb, data0, inode0[i], t + {off / 1024})
    ensures ok ==> Spent(data0, inode0[i], i, owner0, fs.owner, t + {off / 1024})
    ensures ok ==> m == Min(|src| - tot, 1024 - off % 1024) && (copied <==> tot + m <= limit)
    ensures ok ==> s == src[tot..if copied then tot + m else if limit > tot then limit else tot]
    ensures ok ==> Stored(fs.sb, old(fs.data), old(fs.inode), old(fs.owner), fs.data, fs.inode, fs.owner, i, off, s)
    ensures ok ==> |fs.inode[i].addrs| == 13 && fs.logged <= old(fs.logged) + marks + {addr} + Ind(fs.inode[i])
    ensures ok ==> |marks| <= Needed(old(fs.data), old(fs.inode)[i], SlotOf(off / 1024))
    ensures ok ==>
      (old(fs.inode)[i].addrs[12] != 0 ==> fs.inode[i].addrs[12] == old(fs.inode)[i].addrs[12])
      && (off / 1024 >= 12 ==> fs.inode[i].addrs[12] != 0)
  {
    hide Owned, Slots, At, Stored, Splice, Mapped, Needed, Clear, Steps, Enough, Spent;
    fs.ShapeHere();
    var a;
    a, marks := MapNext(fs, i, off / 1024, data0, inode0, owner0, t);
    addr := a;
    m := Min(|src| - tot, 1024 - off % 1024);
    copied, s := tot + m <= limit, [];
    ok := a != 0;
    if ok {
      MappedStored(fs.sb, old(fs.data), old(fs.inode), old(fs.owner), fs.data, fs.inode, fs.owner, i,
        SlotOf(off / 1024), a, off);
      MappedAccount(fs.sb, old(fs.data), old(fs.inode), old(fs.owner), fs.data, fs.inode, fs.owner, i,
        SlotOf(off / 1024), a);
      MappedParts(fs.sb, old(fs.data), old(fs.inode), old(fs.owner), fs.data, fs.inode, fs.owner, i, off, a);
      ghost var data1 := fs.data;
      var got := src[tot..if copied then tot + m else if limit > tot then limit else tot];
      SpliceStored(fs.sb, fs.data, fs.inode, fs.owner, i, off, got);
      s := got;
      fs.data := fs.data[a := Splice(fs.data[a], off % 1024, got)];
      if copied {
        fs.logged := fs.logged + {a};
      }
      StoredTrans(fs.sb, old(fs.data), old(fs.inode), old(fs.owner), data1, fs.inode, fs.owner, fs.data, fs.inode,
        fs.owner, i, off, [], s);
      assert [] + s == s;
    }
  }

  lemma MappedParts(sb: Super, data0: Disk, inode0: seq<Inode>, owner0: Owners, data: Disk, inode: seq<Inode>,
      owner: Owners, i: nat, off: nat, addr: nat)
    requires i < |inode0| && |inode0[i].addrs| == 13 && off / 1024 < MAXFILE
      && Mapped(sb, data0, inode0, owner0, data, inode, owner, i, SlotOf(off / 1024), addr)
    ensures Owned(sb, data, inode, owner) && |inode| == |inode0| && |inode[i].addrs| == 13
      && Present(data, inode[i], off) && At(data, inode[i], SlotOf(off / 1024)) == addr
  {}

  ghost function NewData(data: Disk, ip: Inode, o: nat): (n: nat)
    requires |ip.addrs| == 13 && o / 1024 < MAXFILE
  {
    if At(data, ip, SlotOf(o / 1024)) == 0 then 1 else 0
  }

  /** Chunks and the blocks they touch: all but the last end at a block boundary. */
  ghost predicate Progress(off0: nat, n: nat, tot: nat, c: nat)
  {
    && tot <= n && (tot == 0 ==> c == 0)
    && (tot > 0 ==> ((off0 + tot) % 1024 == 0 || tot == n) && c == (off0 + tot + 1023) / 1024 - off0 / 1024)
  }

  lemma ProgressNext(off0: nat, n: nat, tot: nat, c: nat)
    requires Progress(off0, n, tot, c) && tot < n
    ensures var m := Min(n - tot, 1024 - (off0 + tot) % 1024); m > 0 && Progress(off0, n, tot + m, c + 1)
  {
    var m := Min(n - tot, 1024 - (off0 + tot) % 1024);
    var q, r := (off0 + tot) / 1024, (off0 + tot) % 1024;
    assert off0 + tot == 1024 * q + r;
    if tot > 0 {
      assert r == 0 && (1024 * q + 1023) / 1024 == q;
    }
    assert (1024 * q + r + m + 1023) / 1024 == q + 1;
    if m == 1024 - r { assert off0 + tot + m == 1024 * (q + 1); }
  }

  /** The first c blocks from the one of byte off on. */
  ghost function From(off: nat, c: nat): (t: set<nat>) { Range(off / 1024, off / 1024 + c) }

  lemma NextBlock(off0: nat, n: nat, tot: nat, c: nat)
    requires Progress(off0, n, tot, c) && tot < n
    ensures (off0 + tot) / 1024 == off0 / 1024 + c
  {
    if tot > 0 { assert off0 + tot == (off0 + tot) / 1024 * 1024; }
  }

  /** The blocks touched so far, and the next. */
  lemma ProgressBlock(off0: nat, n: nat, tot: nat, c: nat, limit: nat)
    requires Progress(off0, n, tot, c) && tot < n && tot <= limit
    ensures From(off0, c) + {(off0 + tot) / 1024} == From(off0, c + 1) <= Touched(off0, n, limit)
  {
    NextBlock(off0, n, tot, c);
    hide Progress;
    assert (off0 + tot) / 1024 <= (off0 + Min(n - 1, limit)) / 1024;
  }

  lemma ProgressNone(off: nat, n: nat)
    ensures Progress(off, n, 0, 0)
  {}

  lemma FromNone(off: nat)
    ensures From(off, 0) == {}
  {}

  lemma ProgressDone(off0: nat, n: nat, tot: nat, c: nat, limit: nat)
    requires Progress(off0, n, tot, c) && tot <= n
    requires tot == n <= limit || (tot < n && tot <= limit < tot + Min(n - tot, 1024 - (off0 + tot) % 1024))
    ensures Touched(off0, n, limit) == From(off0, if tot == n then c else c + 1)
  {
    if tot < n {
      NextBlock(off0, n, tot, c);
      assert (off0 + limit) / 1024 == (off0 + tot) / 1024;
    } else if n > 0 {
      assert (off0 + n + 1023) / 1024 == (off0 + n - 1) / 1024 + 1;
    }
  }

  /** A chunk of filewrite() touches at most four blocks, and three if it starts at a
      block boundary. */
  lemma ChunkBlocks(off0: nat, n: nat, tot: nat, c: nat)
    requires Progress(off0, n, tot, c) && n <= 3072
    ensures c <= 4 && (off0 % 1024 == 0 ==> c <= 3)
  {}

  lemma NeededIs(data: Disk, ip: Inode, o: nat)
    requires |ip.addrs| == 13 && o / 1024 < MAXFILE
    ensures Needed(data, ip, SlotOf(o / 1024)) == NewData(data, ip, o) + (if o / 1024 >= 12 then NeedInd(ip) else 0)
  {}

  /** Why writei() refuses: past the end, 32-bit overflow, or past the largest file. */
  predicate Refused(size: nat, off: nat, n: nat) { off > size || off + n >= WORD_LIMIT || off + n > MAXFILE * BSIZE }

  /** The block around off is there. */
  ghost predicate Held(data: Disk, ip: Inode, off: nat)
  {
    |ip.addrs| == 13 && off / 1024 < MAXFILE && NewData(data, ip, off) == 0
  }

  /** At most `added` chunks met an empty slot; the first did not if its block is there. */
  ghost predicate Fresher(data: Disk, ip: Inode, off0: nat, c: nat, added: nat)
  {
    added <= c && (Held(data, ip, off0) && c > 0 ==> added < c)
  }

  /** The loop of writei() after `tot` bytes. */
  ghost predicate Writing(sb: Super, data0: Disk, inode0: seq<Inode>, owner0: Owners, logged0: set<nat>, data: Disk,
      inode: seq<Inode>, owner: Owners, logged: set<nat>, i: nat, off0: nat, src: seq<Byte>, tot: nat,
      marks: set<nat>, dat: set<nat>, c: nat, added: nat)
  {
    && tot <= |src| && Stored(sb, data0, inode0, owner0, data, inode, owner, i, off0, src[..tot])
    && Account(logged0, logged, marks, dat, inode0[i], inode[i], c, added)
    && Fresher(data0, inode0[i], off0, c, added)
  }

  /** One more chunk, whole or cut short. */
  lemma WritingNext(sb: Super, data0: Disk, inode0: seq<Inode>, owner0: Owners, logged0: set<nat>, data1: Disk,
      inode1: seq<Inode>, owner1: Owners, logged1: set<nat>, data: Disk, inode: seq<Inode>, owner: Owners,
      logged: set<nat>, i: nat, off0: nat, src: seq<Byte>, tot: nat, end: nat, marks1: set<nat>, dat: set<nat>,
      c: nat, added: nat, marks: set<nat>, addr: nat)
    requires Writing(sb, data0, inode0, owner0, logged0, data1, inode1, owner1, logged1, i, off0, src, tot, marks1,
      dat, c, added) && tot <= end <= |src|
    requires Stored(sb, data1, inode1, owner1, data, inode, owner, i, off0 + tot, src[tot..end])
      && (off0 + tot) / 1024 < MAXFILE
    requires logged <= logged1 + marks + {addr} + Ind(inode[i])
      && |marks| <= Needed(data1, inode1[i], SlotOf((off0 + tot) / 1024))
    requires (inode1[i].addrs[12] != 0 ==> inode[i].addrs[12] == inode1[i].addrs[12])
      && ((off0 + tot) / 1024 >= 12 ==> inode[i].addrs[12] != 0)
    requires c == 0 && Held(data0, inode0[i], off0) ==> NewData(data1, inode1[i], off0 + tot) == 0
    ensures Writing(sb, data0, inode0, owner0, logged0, data, inode, owner, logged, i, off0, src, end,
      marks1 + marks, dat + {addr}, c + 1, added + NewData(data1, inode1[i], off0 + tot))
  {
    hide Stored, Account, Needed;
    StoredParts(sb, data1, inode1, owner1, data, inode, owner, i, off0 + tot, src[tot..end]);
    StoredParts(sb, data0, inode0, owner0, data1, inode1, owner1, i, off0, src[..tot]);
    StoredTrans(sb, data0, inode0, owner0, data1, inode1, owner1, data, inode, owner, i, off0, src[..tot],
      src[tot..end]);
    assert src[..tot] + src[tot..end] == src[..end];
    NeededIs(data1, inode1[i], off0 + tot);
    var new1 := NewData(data1, inode1[i], off0 + tot);
    AccountNext(logged0, logged1, logged, marks1, marks, dat, addr, inode0[i], inode1[i], inode[i], c, added, new1,
      if (off0 + tot) / 1024 >= 12 then NeedInd(inode1[i]) else 0);
  }

  lemma StoredParts(sb: Super, data0: Disk, inode0: seq<Inode>, owner0: Owners, data: Disk, inode: seq<Inode>,
      owner: Owners, i: nat, lo: nat, s: seq<Byte>)
    requires Stored(sb, data0, inode0, owner0, data, inode, owner, i, lo, s)
    ensures Owned(sb, data, inode, owner) && i < |inode| == |inode0| && |inode[i].addrs| == 13 == |inode0[i].addrs|
      && inode[i].size == inode0[i].size
  {}

  /** How much of a write counts: all of it or, when the copy fails after `limit` bytes,
      up to the last block boundary before. */
  function Kept(off: nat, n: nat, limit: nat): (t: nat)
    ensures t <= n && t <= limit && (t == n <== limit >= n)
  {
    if limit >= n then n
    else if (off + limit) / 1024 * 1024 <= off then 0
    else (off + limit) / 1024 * 1024 - off
  }

  lemma KeptWhenCut(off: nat, n: nat, limit: nat, tot: nat, c: nat)
    requires Progress(off, n, tot, c) && tot < n && tot <= limit < tot + Min(n - tot, 1024 - (off + tot) % 1024)
    ensures tot == Kept(off, n, limit)
  {
    var q, r := (off + tot) / 1024, (off + tot) % 1024;
    assert off + tot == 1024 * q + r;
    assert (off + limit) / 1024 == q by { assert 1024 * q <= off + limit < 1024 * q + 1024; }
  }

  function SizeAfter(size: nat, off: nat, n: nat, limit: nat): (r: nat)
  {
    if off + Kept(off, n, limit) > size then off + Kept(off, n, limit) else size
  }

  /** Everything writei() changes. */
  ghost predicate Wrote(sb: Super, data0: Disk, inode0: seq<Inode>, owner0: Owners, data: Disk, inode: seq<Inode>,
      owner: Owners, i: nat, off: nat, src: seq<Byte>, limit: nat)
  {
    && Owned(sb, data, inode, owner) && i < |inode0| == |inode| && |inode0[i].addrs| == 13 == |inode[i].addrs|
    && inode == inode0[i := inode0[i].(addrs := inode[i].addrs, size := SizeAfter(inode0[i].size, off, |src|, limit))]
    && OthersSame(data0, owner0, data, owner, i)
    && Bytes(data0, inode0[i], data, inode[i], off, src[..Min(|src|, limit)])
  }

  lemma PresentSize(data: Disk, ip: Inode, ip': Inode, o: nat)
    requires ip'.addrs == ip.addrs
    ensures Present(data, ip', o) <==> Present(data, ip, o)
    ensures ByteOf(data, ip', o) == ByteOf(data, ip, o)
  {}

  lemma AtSize(data: Disk, ip: Inode, ip': Inode, k: nat)
    requires ip'.addrs == ip.addrs && |ip.addrs| == 13 && k < SLOTS
    ensures At(data, ip', k) == At(data, ip, k)
  {}

  /** A new size moves no block. */
  lemma OwnedSize(sb: Super, data: Disk, inode: seq<Inode>, owner: Owners, i: nat, size: nat)
    requires Owned(sb, data, inode, owner) && i < |inode|
    ensures Owned(sb, data, inode[i := inode[i].(size := size)], owner)
  {
    var inode' := inode[i := inode[i].(size := size)];
    forall j: nat, k: nat | j < |inode| && k < SLOTS ensures At(data, inode'[j], k) == At(data, inode[j], k) {
      AtSize(data, inode[j], inode'[j], k);
    }
    hide At, Bits;
    forall j: nat, k: nat | j < |inode'| && k < SLOTS ensures SlotOwns(data, inode', owner, j, k) {
      assert SlotOwns(data, inode, owner, j, k);
    }
    forall b | b in owner ensures OwnedBack(sb, data, inode', owner, b) {
      assert OwnedBack(sb, data, inode, owner, b);
      assert At(data, inode'[owner[b].0], owner[b].1) == At(data, inode[owner[b].0], owner[b].1);
    }
  }

  lemma Resized(sb: Super, data0: Disk, inode0: seq<Inode>, owner0: Owners, data: Disk, inode: seq<Inode>,
      owner: Owners, i: nat, off: nat, src: seq<Byte>, limit: nat, size: nat)
    requires Stored(sb, data0, inode0, owner0, data, inode, owner, i, off, src[..Min(|src|, limit)])
      && size == SizeAfter(inode0[i].size, off, |src|, limit)
    ensures i < |inode| && Wrote(sb, data0, inode0, owner0, data, inode[i := inode[i].(size := size)], owner, i, off,
      src, limit)
  {
    OwnedSize(sb, data, inode, owner, i, size);
    hide Owned, Present, ByteOf, At;
    var ip := inode[i].(size := size);
    forall o: nat ensures (Present(data, ip, o) <==> Present(data, inode[i], o))
      && ByteOf(data, ip, o) == ByteOf(data, inode[i], o) {
      PresentSize(data, inode[i], ip, o);
    }
  }

  /** The file has no hole after the write, */
  lemma StillNoHoles(sb: Super, data0: Disk, inode0: seq<Inode>, owner0: Owners, data: Disk, inode: seq<Inode>,
      owner: Owners, i: nat, off: nat, src: seq<Byte>, limit: nat)
    requires Wrote(sb, data0, inode0, owner0, data, inode, owner, i, off, src, limit) && NoHoles(data0, inode0[i])
      && !Refused(inode0[i].size, off, |src|)
    ensures NoHoles(data, inode[i])
  {
    hide Owned, ByteOf, At;
    forall o: nat | o < inode[i].size ensures Present(data, inode[i], o) {
      assert o < inode0[i].size || off <= o < off + |src[..Min(|src|, limit)]|;
      if o < inode0[i].size { assert Present(data0, inode0[i], o); }
    }
  }

  /** and its bytes are the old ones, overwritten and extended: */
  function Overwritten(c: seq<Byte>, off: nat, s: seq<Byte>): (r: seq<Byte>)
    requires off <= |c|
  {
    c[..off] + s + if off + |s| < |c| then c[off + |s|..] else []
  }

  lemma WriteContent(sb: Super, data0: Disk, inode0: seq<Inode>, owner0: Owners, data: Disk, inode: seq<Inode>,
      owner: Owners, i: nat, off: nat, src: seq<Byte>, limit: nat)
    requires Wrote(sb, data0, inode0, owner0, data, inode, owner, i, off, src, limit) && Sized(inode0[i])
      && !Refused(inode0[i].size, off, |src|)
    ensures Sized(inode[i])
    ensures Content(data, inode[i]) == Overwritten(Content(data0, inode0[i]), off,
      src[..Min(|src|, limit)])[..inode[i].size]
    ensures limit >= |src| ==> Content(data, inode[i]) == Overwritten(Content(data0, inode0[i]), off, src)
  {
    hide Owned, Present, ByteOf, At, Content;
    var c0, c, s := Content(data0, inode0[i]), Content(data, inode[i]), src[..Min(|src|, limit)];
    var w := Overwritten(c0, off, s);
    assert |w| >= inode[i].size;
    forall o: nat | o < inode[i].size ensures c[o] == w[o] {
      assert c[o] == ByteOf(data, inode[i], o);
    }
    assert c == w[..inode[i].size];
    if limit >= |src| { assert s == src && |w| == inode[i].size; }
  }

  /** No other file changes. */
  lemma OtherContent(sb: Super, data0: Disk, inode0: seq<Inode>, owner0: Owners, data: Disk, inode: seq<Inode>,
      owner: Owners, i: nat, j: nat)
    requires Slots(sb, data0, inode0, owner0) && Slots(sb, data, inode, owner)
      && OthersSame(data0, owner0, data, owner, i)
    requires j < |inode0| && j != i && j < |inode| && inode[j] == inode0[j] && Sized(inode0[j])
    ensures Content(data, inode[j]) == Content(data0, inode0[j])
    ensures NoHoles(data, inode[j]) <==> NoHoles(data0, inode0[j])
  {
    hide Content, Slots;
    forall o: nat ensures (Present(data, inode[j], o) <==> Present(data0, inode0[j], o))
      && ByteOf(data, inode[j], o) == ByteOf(data0, inode0[j], o) {
      OtherByte(sb, data0, inode0, owner0, data, inode, owner, i, j, o);
    }
    hide Present, ByteOf;
    assert Content(data, inode[j]) == Content(data0, inode0[j]);
  }

  lemma OtherByte(sb: Super, data0: Disk, inode0: seq<Inode>, owner0: Owners, data: Disk, inode: seq<Inode>,
      owner: Owners, i: nat, j: nat, o: nat)
    requires Slots(sb, data0, inode0, owner0) && Slots(sb, data, inode, owner)
      && OthersSame(data0, owner0, data, owner, i)
    requires j < |inode0| && j != i && j < |inode| && inode[j] == inode0[j]
    ensures Present(data, inode[j], o) <==> Present(data0, inode0[j], o)
    ensures ByteOf(data, inode[j], o) == ByteOf(data0, inode0[j], o)
  {
    hide At;
    if o / 1024 < MAXFILE {
      var k := SlotOf(o / 1024);
      var b0, b := At(data0, inode0[j], k), At(data, inode[j], k);
      assert SlotOwns(data0, inode0, owner0, j, k) && SlotOwns(data, inode, owner, j, k);
      if b in owner0 { assert OwnedBack(sb, data0, inode0, owner0, b); }
      if b0 != 0 {
        assert OwnedBack(sb, data0, inode0, owner0, b0) && OwnedBack(sb, data, inode, owner, b0);
      }
    }
  }

  /** The blocks one operation has logged fit its share of the log. */
  ghost predicate WithinBudget(logged0: set<nat>, logged: set<nat>) { |logged - logged0| <= MAXOPBLOCKS }

  lemma BudgetHolds(data0: Disk, logged0: set<nat>, logged: set<nat>, marks: set<nat>, dat: set<nat>, ip0: Inode,
      ip: Inode, c: nat, added: nat, off: nat, inodeBlock: nat)
    requires Account(logged0, logged, marks, dat, ip0, ip, c, added) && Fresher(data0, ip0, off, c, added) && c <= 4
      && (off % 1024 == 0 ==> c <= 3) && (off % 1024 == 0 || Held(data0, ip0, off))
    ensures WithinBudget(logged0, logged + {inodeBlock}) && WithinBudget(logged0, logged)
  {
    var all := marks + dat + Ind(ip) + {inodeBlock};
    assert logged + {inodeBlock} - logged0 <= all;
    SubsetSize(logged + {inodeBlock} - logged0, all);
    SubsetSize(logged - logged0, all);
    UnionSize(marks, dat);
    UnionSize(marks + dat, Ind(ip));
    UnionSize(marks + dat + Ind(ip), {inodeBlock});
    assert added <= 3;
  }

  lemma StillHeld(sb: Super, data0: Disk, inode0: seq<Inode>, owner0: Owners, data: Disk, inode: seq<Inode>,
      owner: Owners, i: nat, off: nat, s: seq<Byte>)
    requires Slots(sb, data0, inode0, owner0) && Stored(sb, data0, inode0, owner0, data, inode, owner, i, off, s)
      && Held(data0, inode0[i], off)
    ensures Held(data, inode[i], off)
  {
    SlotBlock(sb, data0, inode0, owner0, i, SlotOf(off / 1024));
    hide Owned, At, ByteOf, Slots;
    assert Present(data0, inode0[i], off);
    assert Present(data, inode[i], off);
  }

  /** In a file without holes the block around an offset that is not at a boundary is there. */
  lemma NoHolesHeld(data: Disk, ip: Inode, off: nat)
    requires NoHoles(data, ip) && off <= ip.size && off % 1024 != 0
    ensures Held(data, ip, off)
  {
    hide At;
    assert Present(data, ip, off - 1);
    assert (off - 1) / 1024 == off / 1024;
  }

  lemma WritingNone(sb: Super, data: Disk, inode: seq<Inode>, owner: Owners, logged: set<nat>, i: nat, off: nat,
      src: seq<Byte>)
    requires Owned(sb, data, inode, owner) && i < |inode| && |inode[i].addrs| == 13
    ensures Writing(sb, data, inode, owner, logged, data, inode, owner, logged, i, off, src, 0, {}, {}, 0, 0)
      && Progress(off, |src|, 0, 0)
  {
    StoredNone(sb, data, inode, owner, i, off);
  }

  lemma WritingParts(sb: Super, data0: Disk, inode0: seq<Inode>, owner0: Owners, logged0: set<nat>, data: Disk,
      inode: seq<Inode>, owner: Owners, logged: set<nat>, i: nat, off0: nat, src: seq<Byte>, tot: nat,
      marks: set<nat>, dat: set<nat>, c: nat, added: nat)
    requires Writing(sb, data0, inode0, owner0, logged0, data, inode, owner, logged, i, off0, src, tot, marks, dat,
      c, added)
    requires Slots(sb, data0, inode0, owner0) && Progress(off0, |src|, tot, c) && Sized(inode0[i])
      && !Refused(inode0[i].size, off0, |src|)
    ensures Owned(sb, data, inode, owner) && i < |inode| == |inode0| && |inode[i].addrs| == 13 == |inode0[i].addrs|
    ensures tot < |src| ==> (off0 + tot) / 1024 < MAXFILE
    ensures tot < |src| && c == 0 && Held(data0, inode0[i], off0) ==> NewData(data, inode[i], off0 + tot) == 0
  {
    hide Account, Fresher, NewData, Slots;
    StoredParts(sb, data0, inode0, owner0, data, inode, owner, i, off0, src[..tot]);
    hide Stored;
    if tot < |src| && c == 0 && Held(data0, inode0[i], off0) {
      StillHeld(sb, data0, inode0, owner0, data, inode, owner, i, off0, src[..tot]);
    }
  }

  /** The loop of writei(). */
  method WriteAll(fs: FileSystem, i: nat, off0: nat, src: seq<Byte>, limit: nat)
      returns (ok: bool, tot: nat, ghost marks: set<nat>, ghost dat: set<nat>, ghost c: nat, ghost added: nat)
    requires fs.Valid() && i < |fs.inode| && Sized(fs.inode[i]) && !Refused(fs.inode[i].size, off0, |src|)
    modifies fs`data, fs`inode, fs`owner, fs`logged
    ensures !ok ==> fs.Full()
    ensures ok <==> Enough(fs.sb, old(fs.data), old(fs.inode)[i], Touched(off0, |src|, limit))
    ensures ok ==>
      Spent(old(fs.data), old(fs.inode)[i], i, old(fs.owner), fs.owner, Touched(off0, |src|, limit))
    ensures ok ==> tot == Kept(off0, |src|, limit) && (|src| <= 3072 ==> c <= 4 && (off0 % 1024 == 0 ==> c <= 3))
    ensures ok ==>
      Writing(fs.sb, old(fs.data), old(fs.inode), old(fs.owner), old(fs.logged), fs.data, fs.inode, fs.owner,
      fs.logged, i, off0, src, Min(|src|, limit), marks, dat, c, added)
  {
    hide Owned, Stored, Writing, Refused, NewData, Progress, Needed, Slots, Held, Enough, Spent, Touched, From;
    fs.ShapeHere();
    SpentNone(fs.data, fs.inode[i], i, fs.owner);
    EnoughNone(fs.sb, fs.data, fs.inode[i]);
    FromNone(off0);
    WritingNone(fs.sb, fs.data, fs.inode, fs.owner, fs.logged, i, off0, src);
    tot, marks, dat, c, added := 0, {}, {}, 0, 0;
    while tot < |src|
      invariant tot <= |src| && tot <= limit && Progress(off0, |src|, tot, c)
      invariant Writing(fs.sb, old(fs.data), old(fs.inode), old(fs.owner), old(fs.logged), fs.data, fs.inode,
        fs.owner, fs.logged, i, off0, src, tot, marks, dat, c, added)
      invariant Spent(old(fs.data), old(fs.inode)[i], i, old(fs.owner), fs.owner, From(off0, c))
        && Enough(fs.sb, old(fs.data), old(fs.inode)[i], From(off0, c))
    {
      ProgressBlock(off0, |src|, tot, c, limit);
      var m, copied;
      ok, m, copied, marks, dat, c, added := WriteNext(fs, i, off0, src, tot, limit, old(fs.data), old(fs.inode),
        old(fs.owner), old(fs.logged), marks, dat, c, added, From(off0, c), (off0 + tot) / 1024);
      if !ok {
        if Enough(fs.sb, old(fs.data), old(fs.inode)[i], Touched(off0, |src|, limit)) {
          EnoughLess(fs.sb, old(fs.data), old(fs.inode)[i], From(off0, c), Touched(off0, |src|, limit));
        }
        return;
      }
      if !copied {
        ProgressDone(off0, |src|, tot, c - 1, limit);
        if |src| <= 3072 { ChunkBlocks(off0, |src|, tot + m, c); }
        return;
      }
      tot := tot + m;
    }
    ProgressDone(off0, |src|, tot, c, limit);
    if |src| <= 3072 { ChunkBlocks(off0, |src|, tot, c); }
    ok := true;
  }

  /** One turn of that loop. */
  method WriteNext(fs: FileSystem, i: nat, off0: nat, src: seq<Byte>, tot: nat, limit: nat, ghost data0: Disk,
      ghost inode0: seq<Inode>, ghost owner0: Owners, ghost logged0: set<nat>, ghost marks: set<nat>,
      ghost dat: set<nat>, ghost c: nat, ghost added: nat, ghost t: set<nat>, ghost k: nat)
      returns (ok: bool, m: nat, copied: bool, ghost marks': set<nat>, ghost dat': set<nat>, ghost c': nat,
        ghost added': nat)
    requires tot < |src| && tot <= limit && Progress(off0, |src|, tot, c) && i < |inode0|
      && Sized(inode0[i]) && !Refused(inode0[i].size, off0, |src|) && Owned(fs.sb, data0, inode0, owner0)
      && Spent(data0, inode0[i], i, owner0, fs.owner, t) && k == (off0 + tot) / 1024
    requires Writing(fs.sb, data0, inode0, owner0, logged0, fs.data, fs.inode, fs.owner, fs.logged, i, off0, src,
      tot, marks, dat, c, added)
    modifies fs`data, fs`inode, fs`owner, fs`logged
    ensures !ok ==> fs.Full()
    ensures c' == c + 1
    ensures ok <==> Enough(fs.sb, data0, inode0[i], t + {k})
    ensures ok ==> Spent(data0, inode0[i], i, owner0, fs.owner, t + {k})
    ensures ok ==> m == Min(|src| - tot, 1024 - (off0 + tot) % 1024) && (copied <==> tot + m <= limit)
    ensures ok ==> m > 0 && tot + m <= |src| && Progress(off0, |src|, tot + m, c')
    ensures ok ==>
      Writing(fs.sb, data0, inode0, owner0, logged0, fs.data, fs.inode, fs.owner, fs.logged, i, off0, src,
      if copied then tot + m else Min(|src|, limit), marks', dat', c', added')
    ensures ok ==> if copied then tot + m <= limit else tot == Kept(off0, |src|, limit)
  {
    hide Owned, Stored, Writing, Refused, NewData, Progress, Needed, Slots, Held, Enough, Spent;
    OwnedSlots(fs.sb, data0, inode0, owner0);
    WritingParts(fs.sb, data0, inode0, owner0, logged0, fs.data, fs.inode, fs.owner, fs.logged, i, off0, src, tot,
      marks, dat, c, added);
    ProgressNext(off0, |src|, tot, c);
    ghost var data1, inode1, owner1, logged1 := fs.data, fs.inode, fs.owner, fs.logged;
    ghost var s, mk, addr;
    ok, m, copied, s, mk, addr := WriteChunk(fs, i, off0 + tot, src, tot, limit, data0, inode0, owner0, t);
    marks', dat', c', added' := marks + mk, dat + {addr}, c + 1, added + NewData(data1, inode1[i], off0 + tot);
    if ok {
      if !copied { KeptWhenCut(off0, |src|, limit, tot, c); }
      WritingNext(fs.sb, data0, inode0, owner0, logged0, data1, inode1, owner1, logged1, fs.data, fs.inode, fs.owner,
        fs.logged,
        i, off0, src, tot, if copied then tot + m else limit, marks, dat, c, added, mk, addr);
    }
  }

  lemma OwnedSlots(sb: Super, data: Disk, inode: seq<Inode>, owner: Owners)
    requires Owned(sb, data, inode, owner)
    ensures Slots(sb, data, inode, owner)
  {}

  lemma NoBudget(logged: set<nat>)
    ensures WithinBudget(logged, logged)
  {
    assert logged - logged == {};
  }

  /** writei(): -1 if refused, else the number of bytes asked for, even when the copy failed
      and fewer were kept. !ok is bmap()'s panic on a full disk. */
  method Writei(fs: FileSystem, i: nat, off0: nat, src: seq<Byte>, limit: nat) returns (ok: bool, r: int)
    requires fs.Valid() && i < |fs.inode| == |fs.dinode| && Sized(fs.inode[i]) && off0 < WORD_LIMIT
      && |src| < WORD_LIMIT
    modifies fs
    ensures !ok ==> fs.Full()
    ensures ok <==>
      Refused(old(fs.inode)[i].size, off0, |src|)
        || Enough(fs.sb, old(fs.data), old(fs.inode)[i], Touched(off0, |src|, limit))
    ensures ok && !Refused(old(fs.inode)[i].size, off0, |src|) ==>
      Spent(old(fs.data), old(fs.inode)[i], i, old(fs.owner), fs.owner, Touched(off0, |src|, limit))
    ensures ok && Refused(old(fs.inode)[i].size, off0, |src|) ==>
      r == -1 && fs.data == old(fs.data) && fs.inode == old(fs.inode) && fs.owner == old(fs.owner)
        && fs.logged == old(fs.logged)
    ensures ok && !Refused(old(fs.inode)[i].size, off0, |src|) ==>
      r == |src| && Wrote(fs.sb, old(fs.data), old(fs.inode), old(fs.owner), fs.data, fs.inode, fs.owner, i, off0,
        src, limit)
    ensures ok ==>
      |fs.inode| == |old(fs.inode)| && fs.dinode == if r > 0 then old(fs.dinode)[i := fs.inode[i]] else old(fs.dinode)
    ensures ok && |src| <= 3072 && (off0 % 1024 == 0 || Held(old(fs.data), old(fs.inode)[i], off0)) ==>
      WithinBudget(old(fs.logged), fs.logged)
  {
    hide Owned, Slots, Stored, Writing, Wrote, Account, Kept, WithinBudget, Held, Enough, Spent, Touched;
    NoBudget(fs.logged);
    if Refused(fs.inode[i].size, off0, |src|) {
      return true, -1;
    }
    var tot;
    ghost var marks, dat, c, added;
    ok, tot, marks, dat, c, added := WriteAll(fs, i, off0, src, limit);
    r := |src|;
    if !ok {
      return;
    }
    WritingStored(fs.sb, old(fs.data), old(fs.inode), old(fs.owner), old(fs.logged), fs.data, fs.inode, fs.owner,
      fs.logged, i, off0, src, Min(|src|, limit), marks, dat, c, added);
    Resized(fs.sb, old(fs.data), old(fs.inode), old(fs.owner), fs.data, fs.inode, fs.owner, i, off0, src, limit,
      SizeAfter(fs.inode[i].size, off0, |src|, limit));
    assert fs.inode[i := fs.inode[i].(size := fs.inode[i].size)] == fs.inode;
    if |src| <= 3072 && (off0 % 1024 == 0 || Held(old(fs.data), old(fs.inode)[i], off0)) {
      BudgetHolds(old(fs.data), old(fs.logged), fs.logged, marks, dat, old(fs.inode)[i], fs.inode[i], c, added, off0,
        InodeBlock(fs.sb, i));
    }
    if |src| > 0 {
      if off0 + tot > fs.inode[i].size {
        fs.inode := fs.inode[i := fs.inode[i].(size := off0 + tot)];
      }
      fs.Iupdate(i);
    }
  }

  lemma WritingStored(sb: Super, data0: Disk, inode0: seq<Inode>, owner0: Owners, logged0: set<nat>, data: Disk,
      inode: seq<Inode>, owner: Owners, logged: set<nat>, i: nat, off0: nat, src: seq<Byte>, tot: nat,
      marks: set<nat>, dat: set<nat>, c: nat, added: nat)
    requires Writing(sb, data0, inode0, owner0, logged0, data, inode, owner, logged, i, off0, src, tot, marks, dat,
      c, added)
    ensures tot <= |src| && Stored(sb, data0, inode0, owner0, data, inode, owner, i, off0, src[..tot])
      && i < |inode| == |inode0|
    ensures Account(logged0, logged, marks, dat, inode0[i], inode[i], c, added)
    ensures Fresher(data0, inode0[i], off0, c, added) && inode[i].size == inode0[i].size
  {
    hide Account, Fresher;
    StoredParts(sb, data0, inode0, owner0, data, inode, owner, i, off0, src[..tot]);
  }

  // -------------------------------------------------------------------- readi()

  /** The bytes readi() is to deliver: none past the end or on 32-bit overflow. */
  function Wanted(size: nat, off: nat, n: nat): (w: nat)
    ensures w > 0 ==> off + w <= size
  {
    if off > size || off + n >= WORD_LIMIT then 0 else Min(n, size - off)
  }

  /** What readi() finds in a file: n bytes from off on, or as many as there are. */
  function ReadAt(file: seq<Byte>, off: nat, n: nat): (s: seq<Byte>)
    ensures |s| == Wanted(|file|, off, n)
  {
    var w := Wanted(|file|, off, n);
    if w == 0 then [] else file[off..off + w]
  }

  /** What was written is read back, and what lies beside it reads as before. */
  lemma ReadBack(c: seq<Byte>, off: nat, s: seq<Byte>, o: nat, n: nat)
    requires off <= |c| && off + |s| < WORD_LIMIT
    ensures ReadAt(Overwritten(c, off, s), off, |s|) == s
    ensures o + n <= off || off + |s| <= o ==> ReadAt(Overwritten(c, off, s), o, n) == ReadAt(c, o, n)
  {
    var w := Overwritten(c, off, s);
    assert w[off..off + |s|] == s;
    if o + n <= off && n > 0 {
      assert w[o..o + n] == c[o..o + n];
    } else if off + |s| <= o < |c| {
      var e := o + Min(n, |c| - o);
      assert w[o..e] == c[o..e];
    }
  }

  lemma ChunkIs(data: Disk, ip: Inode, off: nat, m: nat)
    requires Sized(ip) && 0 < m && off + m <= ip.size && off % 1024 + m <= 1024 && Present(data, ip, off)
    ensures var addr := At(data, ip, SlotOf(off / 1024));
      data[addr][off % 1024..off % 1024 + m] == Content(data, ip)[off..off + m]
  {
    var addr := At(data, ip, SlotOf(off / 1024));
    var c := Content(data, ip);
    hide Content, At;
    forall o | off <= o < off + m ensures data[addr][off % 1024..off % 1024 + m][o - off] == c[o] {
      SameBlock(off, m, o);
      assert Present(data, ip, o) && c[o] == ByteOf(data, ip, o);
    }
    assert data[addr][off % 1024..off % 1024 + m] == c[off..off + m];
  }

  /** bread(bmap(...)) within readi(). !ok is bmap()'s panic on a full disk. */
  method ReadChunk(fs: FileSystem, i: nat, o: nat, m: nat, ghost data0: Disk, ghost inode0: seq<Inode>,
      ghost owner0: Owners, ghost t: set<nat>)
      returns (ok: bool, bytes: seq<Byte>)
    requires fs.Valid() && i < |fs.inode| && Sized(fs.inode[i]) && 0 < m && o + m <= fs.inode[i].size
      && o % 1024 + m <= 1024
    requires Owned(fs.sb, data0, inode0, owner0) && i < |inode0| == |fs.inode| && |inode0[i].addrs| == 13
      && Spent(data0, inode0[i], i, owner0, fs.owner, t)
    modifies fs`data, fs`inode, fs`owner, fs`logged
    ensures ok <==> Enough(fs.sb, data0, inode0[i], t + {o / 1024})
    ensures ok ==> Spent(data0, inode0[i], i, owner0, fs.owner, t + {o / 1024})
    ensures !ok ==> fs.Full() && !Present(old(fs.data), old(fs.inode)[i], o)
    ensures ok ==> Stored(fs.sb, old(fs.data), old(fs.inode), old(fs.owner), fs.data, fs.inode, fs.owner, i, o, [])
    ensures ok && Present(old(fs.data), old(fs.inode)[i], o) ==>
      fs.data == old(fs.data) && fs.inode == old(fs.inode) && fs.owner == old(fs.owner) && fs.logged == old(fs.logged)
    ensures ok ==> bytes == Content(old(fs.data), old(fs.inode)[i])[o..o + m]
  {
    fs.ShapeHere();
    hide Owned, Slots, At, Content, Mapped, Stored, Enough, Spent, Needed;
    var addr;
    ghost var marks;
    addr, marks := MapNext(fs, i, o / 1024, data0, inode0, owner0, t);
    ok, bytes := addr != 0, [];
    if ok {
      MappedStored(fs.sb, old(fs.data), old(fs.inode), old(fs.owner), fs.data, fs.inode, fs.owner, i,
        SlotOf(o / 1024), addr, o);
      MappedParts(fs.sb, old(fs.data), old(fs.inode), old(fs.owner), fs.data, fs.inode, fs.owner, i, o, addr);
      StoredNothing(fs.sb, old(fs.data), old(fs.inode), old(fs.owner), fs.data, fs.inode, fs.owner, i, o);
      ChunkIs(fs.data, fs.inode[i], o, m);
      bytes := fs.data[addr][o % 1024..o % 1024 + m];
      if Present(old(fs.data), old(fs.inode)[i], o) {
        MappedSame(fs.sb, old(fs.data), old(fs.inode), old(fs.owner), fs.data, fs.inode, fs.owner, i,
          SlotOf(o / 1024), addr);
      }
    } else if Present(old(fs.data), old(fs.inode)[i], o) {
      assert false;
    }
  }

  lemma StoredNothing(sb: Super, data0: Disk, inode0: seq<Inode>, owner0: Owners, data: Disk, inode: seq<Inode>,
      owner: Owners, i: nat, lo: nat)
    requires Stored(sb, data0, inode0, owner0, data, inode, owner, i, lo, []) && Sized(inode0[i])
    ensures Sized(inode[i]) && inode[i].size == inode0[i].size && Owned(sb, data, inode, owner)
    ensures Content(data, inode[i]) == Content(data0, inode0[i])
    ensures NoHoles(data0, inode0[i]) ==> NoHoles(data, inode[i])
  {
    hide Owned, Present, ByteOf, Content;
    assert Content(data, inode[i]) == Content(data0, inode0[i]);
  }

  lemma SliceNext(c: seq<Byte>, a: nat, b: nat, d: nat)
    requires a <= b <= d <= |c|
    ensures c[a..b] + c[b..d] == c[a..d]
  {}

  /** Storing nothing is the same anywhere. */
  lemma StoredNextNothing(sb: Super, data0: Disk, inode0: seq<Inode>, owner0: Owners, data1: Disk, inode1: seq<Inode>,
      owner1: Owners, data: Disk, inode: seq<Inode>, owner: Owners, i: nat, lo: nat)
    requires Stored(sb, data0, inode0, owner0, data1, inode1, owner1, i, 0, [])
      && Stored(sb, data1, inode1, owner1, data, inode, owner, i, lo, [])
    ensures Stored(sb, data0, inode0, owner0, data, inode, owner, i, 0, [])
  {
    hide Owned, Present, ByteOf;
    assert Stored(sb, data1, inode1, owner1, data, inode, owner, i, 0, []);
    StoredTrans(sb, data0, inode0, owner0, data1, inode1, owner1, data, inode, owner, i, 0, [], []);
  }

  lemma NotAHole(data: Disk, ip: Inode, o: nat)
    requires NoHoles(data, ip) && o < ip.size
    ensures Present(data, ip, o)
  {}

  /** The part of n bytes from o on that lies in one block. */
  function InBlock(o: nat, n: nat): (m: nat)
    ensures m <= n && (n > 0 ==> 0 < m && o % 1024 + m <= 1024)
  {
    Min(n, 1024 - o % 1024)
  }

  /** One more piece of a read. */
  lemma PieceNext(off: nat, n: nat, tot: nat, k: nat, limit: nat)
    requires Progress(off, n, tot, k) && tot < n && tot <= limit
    ensures Progress(off, n, tot + InBlock(off + tot, n - tot), k + 1)
    ensures From(off, k) + {(off + tot) / 1024} == From(off, k + 1) <= Touched(off, n, limit)
    ensures tot + InBlock(off + tot, n - tot) > limit ==>
      Touched(off, n, limit) == From(off, k + 1) && tot == Kept(off, n, limit)
  {
    hide Progress, From, Touched, Kept;
    ProgressBlock(off, n, tot, k, limit);
    ProgressNext(off, n, tot, k);
    if tot + InBlock(off + tot, n - tot) > limit {
      ProgressDone(off, n, tot, k, limit);
      KeptWhenCut(off, n, limit, tot, k);
    }
  }

  /** The state of the file system, as far as readi() may touch it, is the same. */
  twostate predicate Untouched(fs: FileSystem)
    reads fs
  {
    fs.data == old(fs.data) && fs.inode == old(fs.inode) && fs.owner == old(fs.owner) && fs.logged == old(fs.logged)
  }

  /** One turn of the loop in readi(). */
  method ReadNext(fs: FileSystem, i: nat, o: nat, m: nat, ghost data0: Disk, ghost inode0: seq<Inode>,
      ghost owner0: Owners, ghost t: set<nat>)
      returns (ok: bool, bytes: seq<Byte>)
    requires i < |inode0| && Sized(inode0[i]) && 0 < m && o + m <= inode0[i].size && o % 1024 + m <= 1024
    requires Owned(fs.sb, data0, inode0, owner0) && Spent(data0, inode0[i], i, owner0, fs.owner, t)
    requires Stored(fs.sb, data0, inode0, owner0, fs.data, fs.inode, fs.owner, i, 0, [])
    modifies fs`data, fs`inode, fs`owner, fs`logged
    ensures ok <==> Enough(fs.sb, data0, inode0[i], t + {o / 1024})
    ensures ok ==> Spent(data0, inode0[i], i, owner0, fs.owner, t + {o / 1024})
    ensures !ok ==> fs.Full() && !NoHoles(old(fs.data), old(fs.inode)[i])
    ensures ok ==> Stored(fs.sb, data0, inode0, owner0, fs.data, fs.inode, fs.owner, i, 0, [])
    ensures ok && NoHoles(old(fs.data), old(fs.inode)[i]) ==> Untouched(fs)
    ensures ok ==> bytes == Content(data0, inode0[i])[o..o + m]
  {
    hide Owned, Content, Stored, Present, NoHoles, Enough, Spent;
    StoredParts(fs.sb, data0, inode0, owner0, fs.data, fs.inode, fs.owner, i, 0, []);
    StoredNothing(fs.sb, data0, inode0, owner0, fs.data, fs.inode, fs.owner, i, 0);
    if NoHoles(fs.data, fs.inode[i]) { NotAHole(fs.data, fs.inode[i], o); }
    ok, bytes := ReadChunk(fs, i, o, m, data0, inode0, owner0, t);
    if ok {
      StoredNextNothing(fs.sb, data0, inode0, owner0, old(fs.data), old(fs.inode), old(fs.owner), fs.data, fs.inode,
        fs.owner, i, o);
    }
  }

  /** readi(): exactly the clipped slice of the file. A hole is given a block on the way, which
      changes no file's contents; without one nothing is allocated or written. !ok is
      bmap()'s panic on a full disk. */
  method Readi(fs: FileSystem, i: nat, off: nat, n: nat, limit: nat) returns (ok: bool, out: seq<Byte>)
    requires fs.Valid() && i < |fs.inode| && Sized(fs.inode[i]) && off < WORD_LIMIT && n < WORD_LIMIT
    modifies fs`data, fs`inode, fs`owner, fs`logged
    ensures ok <==>
      Enough(fs.sb, old(fs.data), old(fs.inode)[i], Touched(off, Wanted(old(fs.inode)[i].size, off, n), limit))
    ensures ok ==>
      Spent(old(fs.data), old(fs.inode)[i], i, old(fs.owner), fs.owner,
        Touched(off, Wanted(old(fs.inode)[i].size, off, n), limit))
    ensures !ok ==> fs.Full() && !NoHoles(old(fs.data), old(fs.inode)[i])
    ensures ok ==> Stored(fs.sb, old(fs.data), old(fs.inode), old(fs.owner), fs.data, fs.inode, fs.owner, i, 0, [])
    ensures ok && NoHoles(old(fs.data), old(fs.inode)[i]) ==> Untouched(fs)
    ensures var s := ReadAt(Content(old(fs.data), old(fs.inode)[i]), off, n);
      ok ==> out == s[..Kept(off, |s|, limit)]
  {
    hide Owned, Content, Wanted, Stored, NoHoles, FileSystem.Full, Enough, Spent, Touched, From, Progress, Kept,
      InBlock;
    SpentNone(fs.data, fs.inode[i], i, fs.owner);
    EnoughNone(fs.sb, fs.data, fs.inode[i]);
    FromNone(off);
    ghost var c := Content(fs.data, fs.inode[i]);
    ghost var whole := NoHoles(fs.data, fs.inode[i]);
    StoredNone(fs.sb, fs.data, fs.inode, fs.owner, i, 0);
    ok, out := true, [];
    var want := Wanted(fs.inode[i].size, off, n);
    ghost var k := 0;
    ProgressNone(off, want);
    while |out| < want
      invariant ok && Stored(fs.sb, old(fs.data), old(fs.inode), old(fs.owner), fs.data, fs.inode, fs.owner, i, 0, [])
      invariant |out| <= want && (want > 0 ==> off + want <= |c| && out == c[off..off + |out|])
      invariant whole ==> Untouched(fs)
      invariant |out| <= limit && Progress(off, want, |out|, k)
      invariant Spent(old(fs.data), old(fs.inode)[i], i, old(fs.owner), fs.owner, From(off, k))
        && Enough(fs.sb, old(fs.data), old(fs.inode)[i], From(off, k))
      decreases want - |out|
    {
      PieceNext(off, want, |out|, k, limit);
      var o := off + |out|;
      var m := InBlock(o, want - |out|);
      var bytes;
      ok, bytes := ReadNext(fs, i, o, m, old(fs.data), old(fs.inode), old(fs.owner), From(off, k));
      if !ok {
        if Enough(fs.sb, old(fs.data), old(fs.inode)[i], Touched(off, want, limit)) {
          EnoughLess(fs.sb, old(fs.data), old(fs.inode)[i], From(off, k + 1), Touched(off, want, limit));
        }
        return;
      }
      if |out| + m > limit {
        return;
      }
      SliceNext(c, off, o, o + m);
      out := out + bytes;
      k := k + 1;
    }
    ProgressDone(off, want, |out|, k, limit);
  }

  /** bmap() of a block that is there changes nothing. */
  lemma MappedSame(sb: Super, data0: Disk, inode0: seq<Inode>, owner0: Owners, data: Disk, inode: seq<Inode>,
      owner: Owners, i: nat, k: nat, addr: nat)
    requires i < |inode0| && |inode0[i].addrs| == 13 && k < SLOTS && At(data0, inode0[i], k) != 0
    requires Mapped(sb, data0, inode0, owner0, data, inode, owner, i, k, addr)
    ensures data == data0 && inode == inode0 && owner == owner0 && addr == At(data0, inode0[i], k)
  {}

  // ---------------------------------------------------------------- filewrite()

  lemma OverwrittenTwice(c: seq<Byte>, off: nat, s1: seq<Byte>, s2: seq<Byte>)
    requires off <= |c|
    ensures off + |s1| <= |Overwritten(c, off, s1)|
    ensures Overwritten(Overwritten(c, off, s1), off + |s1|, s2) == Overwritten(c, off, s1 + s2)
  {}

  const CHUNK: nat := 3072            // what filewrite() gives to one writei()

  /** How many of the first k bytes of a write count towards the size: all, or, when the copy
      fails after `limit` bytes, those up to the last block boundary in its chunk. */
  function Counted(off: nat, n: nat, limit: nat, k: nat): (t: nat)
    requires k <= n
    ensures t <= k && t <= limit
  {
    if k <= limit then k
    else var j := limit / CHUNK * CHUNK; j + Kept(off + j, Min(CHUNK, n - j), limit - j)
  }

  function Longer(a: nat, b: nat): (m: nat) { if a < b then b else a }

  /** The contents after k bytes of a write that was accepted so far. */
  function AfterWrite(c: seq<Byte>, off: nat, src: seq<Byte>, limit: nat, k: nat): (r: seq<Byte>)
    requires k <= |src| && (k > 0 ==> off <= |c|)
  {
    if k == 0 then c
    else Overwritten(c, off, src[..Min(k, limit)])[..Longer(|c|, off + Counted(off, |src|, limit, k))]
  }

  /** filewrite() accepts k bytes of a write: it starts in the file, ends within the largest
      file, and the last chunk starts in what is there or will be. */
  predicate Accepts(size: nat, off: nat, limit: nat, k: nat)
  {
    k == 0 || (off <= size && off + k <= MAXFILE * BSIZE
               && ((k - 1) / CHUNK * CHUNK <= limit || off + (k - 1) / CHUNK * CHUNK <= size))
  }

  /** filewrite() after k bytes of a write at off. */
  ghost predicate Chunked(c: seq<Byte>, data: Disk, ip: Inode, off: nat, src: seq<Byte>, limit: nat, k: nat)
  {
    && Sized(ip) && k <= |src| && (k % CHUNK == 0 || k == |src|) && Accepts(|c|, off, limit, k)
    && Content(data, ip) == AfterWrite(c, off, src, limit, k)
  }

  lemma ChunkedNone(data: Disk, ip: Inode, off: nat, src: seq<Byte>, limit: nat)
    requires Sized(ip)
    ensures Chunked(Content(data, ip), data, ip, off, src, limit, 0)
  {}

  /** The next chunk is refused exactly when the write up to its end is not accepted. */
  lemma ChunkRefused(c: seq<Byte>, data: Disk, ip: Inode, off: nat, src: seq<Byte>, limit: nat, k: nat)
    requires Chunked(c, data, ip, off, src, limit, k) && k < |src|
    ensures var n := Min(|src| - k, CHUNK); Refused(ip.size, off + k, n) <==> !Accepts(|c|, off, limit, k + n)
  {
    var n := Min(|src| - k, CHUNK);
    hide Content;
    assert ip.size == |Content(data, ip)|;
    assert (k + n - 1) / CHUNK * CHUNK == k by { LastChunk(k, n); }
    if 0 < k <= limit {
      assert ip.size == Longer(|c|, off + k);
    } else if k > limit {
      CountedShort(off, |src|, limit, k);
    }
  }

  lemma LastChunk(k: nat, n: nat)
    requires k % CHUNK == 0 && 0 < n <= CHUNK
    ensures (k + n - 1) / CHUNK * CHUNK == k
  {
    assert k == k / CHUNK * CHUNK;
    assert (k / CHUNK * CHUNK + (n - 1)) / CHUNK == k / CHUNK;
  }

  /** Bytes that count end before the next chunk starts. */
  lemma CountedShort(off: nat, n: nat, limit: nat, k: nat)
    requires limit < k <= n && k % CHUNK == 0
    ensures Counted(off, n, limit, k) < k
  {}

  /** As long as the copy goes well, all of it is there. */
  lemma AfterWhole(c: seq<Byte>, off: nat, src: seq<Byte>, limit: nat, k: nat)
    requires k <= |src| && k <= limit && off <= |c|
    ensures AfterWrite(c, off, src, limit, k) == Overwritten(c, off, src[..k])
  {
    if k == 0 { assert Overwritten(c, off, src[..0]) == c; }
  }

  lemma AfterGood(c: seq<Byte>, off: nat, src: seq<Byte>, limit: nat, k: nat, n: nat)
    requires 0 < n && k + n <= |src| && k + n <= limit && off <= |c|
    ensures var now := AfterWrite(c, off, src, limit, k);
      off + k <= |now| && Overwritten(now, off + k, src[k..k + n]) == AfterWrite(c, off, src, limit, k + n)
  {
    AfterWhole(c, off, src, limit, k);
    AfterWhole(c, off, src, limit, k + n);
    hide AfterWrite;
    OverwrittenTwice(c, off, src[..k], src[k..k + n]);
    hide Overwritten;
    assert src[..k] + src[k..k + n] == src[..k + n];
  }

  /** The chunk in which the copy fails. */
  lemma AfterBad(c: seq<Byte>, off: nat, src: seq<Byte>, limit: nat, k: nat, n: nat)
    requires k < |src| && k % CHUNK == 0 && off <= |c| && n == Min(|src| - k, CHUNK) && k <= limit < k + n
    ensures var now := AfterWrite(c, off, src, limit, k);
      off + k <= |now| && SizeAfter(|now|, off + k, n, limit - k) <= |Overwritten(now, off + k, src[k..limit])|
      && Overwritten(now, off + k, src[k..limit])[..SizeAfter(|now|, off + k, n, limit - k)]
        == AfterWrite(c, off, src, limit, k + n)
  {
    hide Overwritten, Kept;
    AfterWhole(c, off, src, limit, k);
    OverwrittenTwice(c, off, src[..k], src[k..limit]);
    assert src[..k] + src[k..limit] == src[..limit];
    assert limit / CHUNK * CHUNK == k by { LastChunk(k, limit - k + 1); }
    OverwrittenLength(c, off, src[..k]);
    OverwrittenLength(c, off, src[..limit]);
  }

  lemma OverwrittenLength(c: seq<Byte>, off: nat, s: seq<Byte>)
    requires off <= |c|
    ensures |Overwritten(c, off, s)| == Longer(|c|, off + |s|)
  {}

  /** Those after it. */
  lemma AfterNone(c: seq<Byte>, off: nat, src: seq<Byte>, limit: nat, k: nat, n: nat)
    requires 0 < n && k + n <= |src| && off <= |c| && limit < k && off + k <= |AfterWrite(c, off, src, limit, k)|
    ensures var now := AfterWrite(c, off, src, limit, k);
      Overwritten(now, off + k, []) == now && SizeAfter(|now|, off + k, n, 0) == |now|
      && now == AfterWrite(c, off, src, limit, k + n)
  {
    hide Overwritten;
    assert Min(k + n, limit) == Min(k, limit) == limit;
    OverwrittenNothing(AfterWrite(c, off, src, limit, k), off + k);
  }

  lemma OverwrittenNothing(c: seq<Byte>, off: nat)
    requires off <= |c|
    ensures Overwritten(c, off, []) == c
  {}

  /** Contents after one more accepted chunk. */
  lemma AfterChunk(c: seq<Byte>, off: nat, src: seq<Byte>, limit: nat, k: nat, n: nat, left: nat)
    requires k < |src| && k % CHUNK == 0 && off <= |c| && n == Min(|src| - k, CHUNK)
      && left == if limit > k then limit - k else 0
    requires off + k <= |AfterWrite(c, off, src, limit, k)|
    ensures var now := AfterWrite(c, off, src, limit, k);
      var w, size := Overwritten(now, off + k, src[k..k + n][..Min(n, left)]), SizeAfter(|now|, off + k, n, left);
      size <= |w| && w[..size] == AfterWrite(c, off, src, limit, k + n)
  {
    var now := AfterWrite(c, off, src, limit, k);
    if k + n <= limit {
      assert src[k..k + n][..Min(n, left)] == src[k..k + n];
      AfterGood(c, off, src, limit, k, n);
      OverwrittenSize(now, off + k, src[k..k + n], n, left);
    } else if k <= limit {
      assert src[k..k + n][..Min(n, left)] == src[k..limit];
      AfterBad(c, off, src, limit, k, n);
    } else {
      assert src[k..k + n][..Min(n, left)] == [];
      AfterNone(c, off, src, limit, k, n);
      assert now[..|now|] == now;
    }
  }

  lemma OverwrittenSize(c: seq<Byte>, off: nat, s: seq<Byte>, n: nat, left: nat)
    requires off <= |c| && n == |s| <= left
    ensures var w := Overwritten(c, off, s); SizeAfter(|c|, off, n, left) == |w| && w[..|w|] == w
  {}

  lemma ChunkedNext(sb: Super, c: seq<Byte>, data: Disk, inode: seq<Inode>, owner: Owners, data': Disk,
      inode': seq<Inode>, owner': Owners, i: nat, off: nat, src: seq<Byte>, limit: nat, k: nat, n: nat, left: nat)
    requires i < |inode| && Chunked(c, data, inode[i], off, src, limit, k) && k < |src|
      && n == Min(|src| - k, CHUNK) && left == (if limit > k then limit - k else 0)
      && !Refused(inode[i].size, off + k, n)
    requires Wrote(sb, data, inode, owner, data', inode', owner', i, off + k, src[k..k + n], left)
    ensures i < |inode'| && Chunked(c, data', inode'[i], off, src, limit, k + n)
  {
    hide Wrote, Content, Owned, Bytes, AfterWrite, Overwritten, SizeAfter, Refused, Accepts;
    WriteContent(sb, data, inode, owner, data', inode', owner', i, off + k, src[k..k + n], left);
    ChunkRefused(c, data, inode[i], off, src, limit, k);
    WroteSize(sb, data, inode, owner, data', inode', owner', i, off + k, src[k..k + n], left);
    ChunkedIs(c, data, inode[i], off, src, limit, k);
    RoomBefore(inode[i].size, off + k, n);
    AcceptsStart(|c|, off, limit, k + n);
    ChunkEnd(k, n, |src|);
    AfterChunk(c, off, src, limit, k, n, left);
  }

  lemma ChunkedIs(c: seq<Byte>, data: Disk, ip: Inode, off: nat, src: seq<Byte>, limit: nat, k: nat)
    requires Chunked(c, data, ip, off, src, limit, k)
    ensures Sized(ip) && k <= |src| && (k > 0 ==> off <= |c|) && Content(data, ip) == AfterWrite(c, off, src, limit, k)
    ensures ip.size == |AfterWrite(c, off, src, limit, k)| && (k % CHUNK == 0 || k == |src|)
  {}

  lemma ChunkEnd(k: nat, n: nat, len: nat)
    requires k < len && k % CHUNK == 0 && n == Min(len - k, CHUNK)
    ensures (k + n) % CHUNK == 0 || k + n == len
  {}

  lemma AcceptsStart(size: nat, off: nat, limit: nat, k: nat)
    requires Accepts(size, off, limit, k) && k > 0
    ensures off <= size
  {}

  lemma RefusedNot(size: nat, off: nat, n: nat)
    requires !Refused(size, off, n)
    ensures off + n <= MAXFILE * BSIZE
  {}

  lemma RoomBefore(size: nat, off: nat, n: nat)
    requires !Refused(size, off, n)
    ensures off <= size
  {}

  lemma WroteSize(sb: Super, data0: Disk, inode0: seq<Inode>, owner0: Owners, data: Disk, inode: seq<Inode>,
      owner: Owners, i: nat, off: nat, src: seq<Byte>, limit: nat)
    requires Wrote(sb, data0, inode0, owner0, data, inode, owner, i, off, src, limit)
    ensures i < |inode| == |inode0| && inode[i].size == SizeAfter(inode0[i].size, off, |src|, limit)
  {}

  lemma WroteParts(sb: Super, data0: Disk, inode0: seq<Inode>, owner0: Owners, data: Disk, inode: seq<Inode>,
      owner: Owners, i: nat, off: nat, src: seq<Byte>, limit: nat)
    requires Wrote(sb, data0, inode0, owner0, data, inode, owner, i, off, src, limit)
    ensures i < |inode| == |inode0| && Owned(sb, data, inode, owner)
  {}

  /** begin_op(), one writei() of at most three blocks, end_op(). */
  method FileChunk(fs: FileSystem, i: nat, off: nat, src: seq<Byte>, limit: nat)
      returns (ok: bool, r: int, ghost used: nat)
    requires fs.Valid() && i < |fs.inode| == |fs.dinode| && Sized(fs.inode[i]) && off < WORD_LIMIT && |src| <= CHUNK
    modifies fs
    ensures !ok ==> fs.Full()
    ensures ok <==>
      Refused(old(fs.inode)[i].size, off, |src|)
        || Enough(fs.sb, old(fs.data), old(fs.inode)[i], Touched(off, |src|, limit))
    ensures ok && r >= 0 ==>
      Spent(old(fs.data), old(fs.inode)[i], i, old(fs.owner), fs.owner, Touched(off, |src|, limit))
    ensures ok ==> fs.Valid() && i < |fs.inode| == |fs.dinode| && |fs.inode| == |old(fs.inode)| && Sized(fs.inode[i])
    ensures ok && NoHoles(old(fs.data), old(fs.inode)[i]) ==>
      NoHoles(fs.data, fs.inode[i]) && used <= MAXOPBLOCKS
    ensures ok ==> r == if Refused(old(fs.inode)[i].size, off, |src|) then -1 else |src|
    ensures ok && r == -1 ==>
      fs.data == old(fs.data) && fs.inode == old(fs.inode) && fs.owner == old(fs.owner)
    ensures ok && r >= 0 ==>
      Wrote(fs.sb, old(fs.data), old(fs.inode), old(fs.owner), fs.data, fs.inode, fs.owner, i, off, src, limit)
  {
    hide Owned, NoHoles, Wrote, Refused, Held, Enough, Spent, Touched;
    fs.logged := {};
    if NoHoles(fs.data, fs.inode[i]) && off <= fs.inode[i].size && off % 1024 != 0 {
      NoHolesHeld(fs.data, fs.inode[i], off);
    }
    ok, r := Writei(fs, i, off, src, limit);
    used := |fs.logged|;
    if ok {
      assert fs.logged - {} == fs.logged;
      if r >= 0 {
        WroteParts(fs.sb, old(fs.data), old(fs.inode), old(fs.owner), fs.data, fs.inode, fs.owner, i, off, src, limit);
        WriteContent(fs.sb, old(fs.data), old(fs.inode), old(fs.owner), fs.data, fs.inode, fs.owner, i, off, src,
          limit);
        RoomBefore(old(fs.inode)[i].size, off, |src|);
        if NoHoles(old(fs.data), old(fs.inode)[i]) {
          StillNoHoles(fs.sb, old(fs.data), old(fs.inode), old(fs.owner), fs.data, fs.inode, fs.owner, i, off, src,
            limit);
        }
      }
    }
  }

  /** A write that is accepted is accepted all along. */
  lemma AcceptsLess(size: nat, off: nat, limit: nat, k: nat, k': nat)
    requires Accepts(size, off, limit, k') && 0 < k <= k'
    ensures Accepts(size, off, limit, k) && off + k <= MAXFILE * BSIZE
  {
    assert (k - 1) / CHUNK <= (k' - 1) / CHUNK;
    assert (k - 1) / CHUNK * CHUNK <= (k' - 1) / CHUNK * CHUNK;
  }

  lemma ChunkedAccepts(c: seq<Byte>, data: Disk, ip: Inode, off: nat, src: seq<Byte>, limit: nat, k: nat)
    requires Chunked(c, data, ip, off, src, limit, k)
    ensures Accepts(|c|, off, limit, k) && (k > 0 ==> off + k < WORD_LIMIT)
  {}

  /** The blocks that the chunks of a write before byte k go through. */
  ghost function TouchedTo(off: nat, n: nat, limit: nat, k: nat): (t: set<nat>)
    requires k <= n
    decreases k
  {
    if k == 0 then {}
    else
      var j := (k - 1) / CHUNK * CHUNK;
      TouchedTo(off, n, limit, j) + Touched(off + j, Min(n - j, CHUNK), if limit > j then limit - j else 0)
  }

  lemma TouchedNext(off: nat, n: nat, limit: nat, k: nat)
    requires k < n && k % CHUNK == 0
    ensures var m := Min(n - k, CHUNK);
      TouchedTo(off, n, limit, k + m)
        == TouchedTo(off, n, limit, k) + Touched(off + k, m, if limit > k then limit - k else 0)
  {
    hide Touched;
    LastChunk(k, Min(n - k, CHUNK));
  }

  lemma {:induction false} TouchedMore(off: nat, n: nat, limit: nat, k: nat, k': nat)
    requires k <= k' <= n && (k % CHUNK == 0 || k == n)
    ensures TouchedTo(off, n, limit, k) <= TouchedTo(off, n, limit, k')
    decreases k'
  {
    hide Touched;
    if k < k' {
      assert k / CHUNK * CHUNK == k && k / CHUNK <= (k' - 1) / CHUNK;
      TouchedMore(off, n, limit, k, (k' - 1) / CHUNK * CHUNK);
    }
  }

  /** How far a write of n bytes goes from byte k on: to the first chunk that is refused. */
  function Goes(size: nat, off: nat, n: nat, limit: nat, k: nat): (g: nat)
    requires k <= n
    ensures k <= g <= n
    decreases n - k
  {
    if k < n && Accepts(size, off, limit, k + Min(n - k, CHUNK))
    then Goes(size, off, n, limit, k + Min(n - k, CHUNK)) else k
  }

  /** One turn of the loop in filewrite(). */
  method FileNext(fs: FileSystem, i: nat, off: nat, src: seq<Byte>, limit: nat, k: nat, ghost c: seq<Byte>,
      ghost data0: Disk, ghost inode0: seq<Inode>, ghost owner0: Owners, ghost t: set<nat>, ghost u: set<nat>)
      returns (ok: bool, r: int, ghost used: nat)
    requires fs.Valid() && i < |fs.inode| == |fs.dinode| && k < |src| && off + k < WORD_LIMIT
    requires Chunked(c, fs.data, fs.inode[i], off, src, limit, k)
    requires Owned(fs.sb, data0, inode0, owner0) && |inode0| == |fs.inode| && |inode0[i].addrs| == 13
      && Spent(data0, inode0[i], i, owner0, fs.owner, t)
      && u == Touched(off + k, Min(|src| - k, CHUNK), if limit > k then limit - k else 0)
    modifies fs
    ensures !ok ==> fs.Full()
    ensures ok <==>
      !Accepts(|c|, off, limit, k + Min(|src| - k, CHUNK)) || Enough(fs.sb, data0, inode0[i], t + u)
    ensures ok ==> Spent(data0, inode0[i], i, owner0, fs.owner, if r >= 0 then t + u else t)
    ensures ok ==> fs.Valid() && i < |fs.inode| == |fs.dinode| && |fs.inode| == |old(fs.inode)|
    ensures ok && NoHoles(old(fs.data), old(fs.inode)[i]) ==> NoHoles(fs.data, fs.inode[i]) && used <= MAXOPBLOCKS
    ensures ok ==> r == -1 || r == Min(|src| - k, CHUNK)
    ensures ok && r >= 0 ==> Chunked(c, fs.data, fs.inode[i], off, src, limit, k + r)
    ensures ok && r < 0 ==>
      Chunked(c, fs.data, fs.inode[i], off, src, limit, k)
      && Refused(fs.inode[i].size, off + k, Min(|src| - k, CHUNK))
      && !Accepts(|c|, off, limit, k + Min(|src| - k, CHUNK))
  {
    hide Owned, NoHoles, Content, Wrote, Chunked, Refused, Accepts, Sized, AfterWrite, FileSystem.Full, Enough, Spent,
      Touched, Slots;
    ChunkedIs(c, fs.data, fs.inode[i], off, src, limit, k);
    ChunkRefused(c, fs.data, fs.inode[i], off, src, limit, k);
    var n := Min(|src| - k, CHUNK);
    var left := if limit > k then limit - k else 0;
    if !Refused(fs.inode[i].size, off + k, n) {
      RefusedNot(fs.inode[i].size, off + k, n);
      EnoughUnion(fs.sb, data0, inode0, owner0, fs.data, fs.inode, fs.owner, i, t, u);
    }
    OwnedSlots(fs.sb, data0, inode0, owner0);
    OwnedSlots(fs.sb, fs.data, fs.inode, fs.owner);
    ok, r, used := FileChunk(fs, i, off + k, src[k..k + n], left);
    if ok && r >= 0 {
      SpentTrans(fs.sb, data0, inode0, owner0, old(fs.data), old(fs.inode), old(fs.owner), i, t, u, fs.owner);
      ChunkedNext(fs.sb, c, old(fs.data), old(fs.inode), old(fs.owner), fs.data, fs.inode, fs.owner, i, off, src,
        limit, k, n, left);
    }
  }

  lemma SizedAddrs(ip: Inode)
    requires Sized(ip)
    ensures |ip.addrs| == 13
  {}

  lemma TouchedNone(off: nat, n: nat, limit: nat)
    ensures TouchedTo(off, n, limit, 0) == {}
  {}

  /** A write that lacks blocks at one chunk lacks them as a whole. */
  lemma TooFar(sb: Super, data: Disk, ip: Inode, off: nat, n: nat, limit: nat, k: nat, g: nat)
    requires |ip.addrs| == 13 && k < n && k % CHUNK == 0 && k + Min(n - k, CHUNK) <= g <= n
    requires !Enough(sb, data, ip, TouchedTo(off, n, limit, k + Min(n - k, CHUNK)))
    ensures !Enough(sb, data, ip, TouchedTo(off, n, limit, g))
  {
    hide Enough, TouchedTo;
    var m := k + Min(n - k, CHUNK);
    ChunkEnd(k, Min(n - k, CHUNK), n);
    TouchedMore(off, n, limit, m, g);
    if Enough(sb, data, ip, TouchedTo(off, n, limit, g)) {
      EnoughLess(sb, data, ip, TouchedTo(off, n, limit, m), TouchedTo(off, n, limit, g));
    }
  }

  /** filewrite() on an inode: chunks of at most three blocks, each its own transaction, and
      no chunk after one that is refused. `worst` is the largest number of blocks a
      transaction logged. */
  method FileWrite(fs: FileSystem, i: nat, off: nat, src: seq<Byte>, limit: nat)
      returns (ok: bool, ret: int, off': nat, ghost worst: nat)
    requires fs.Valid() && i < |fs.inode| == |fs.dinode| && Sized(fs.inode[i]) && off < WORD_LIMIT
    modifies fs
    ensures !ok ==> fs.Full()
    ensures var g := Goes(old(fs.inode)[i].size, off, |src|, limit, 0);
      && (ok <==> Enough(fs.sb, old(fs.data), old(fs.inode)[i], TouchedTo(off, |src|, limit, g)))
      && (ok ==>
            off' == off + g
            && Spent(old(fs.data), old(fs.inode)[i], i, old(fs.owner), fs.owner, TouchedTo(off, |src|, limit, g)))
    ensures ok ==> fs.Valid() && i < |fs.inode| == |old(fs.inode)| && off <= off' <= off + |src|
    ensures ok && NoHoles(old(fs.data), old(fs.inode)[i]) ==> NoHoles(fs.data, fs.inode[i]) && worst <= MAXOPBLOCKS
    ensures ok ==> ret == if Accepts(old(fs.inode)[i].size, off, limit, |src|) then |src| else -1
    ensures ok ==> Chunked(Content(old(fs.data), old(fs.inode)[i]), fs.data, fs.inode[i], off, src, limit, off' - off)
    ensures ok ==> if ret == |src| then off' == off + |src|
                   else Refused(fs.inode[i].size, off', Min(|src| - (off' - off), CHUNK))
  {
    hide Owned, NoHoles, Content, Chunked, Refused, Accepts, Sized, FileSystem.Full, Enough, Spent, Touched,
      TouchedTo;
    SizedAddrs(fs.inode[i]);
    SpentNone(fs.data, fs.inode[i], i, fs.owner);
    EnoughNone(fs.sb, fs.data, fs.inode[i]);
    TouchedNone(off, |src|, limit);
    ghost var g := Goes(fs.inode[i].size, off, |src|, limit, 0);
    ghost var c := Content(fs.data, fs.inode[i]);
    ghost var whole := NoHoles(fs.data, fs.inode[i]);
    ChunkedNone(fs.data, fs.inode[i], off, src, limit);
    var k := 0;
    off', worst := off, 0;
    while k < |src|
      invariant k <= |src| && off' == off + k < WORD_LIMIT
      invariant fs.Valid() && i < |fs.inode| == |fs.dinode| && |fs.inode| == |old(fs.inode)|
      invariant Chunked(c, fs.data, fs.inode[i], off, src, limit, k)
      invariant whole ==> NoHoles(fs.data, fs.inode[i]) && worst <= MAXOPBLOCKS
      invariant g == Goes(|c|, off, |src|, limit, k) && Enough(fs.sb, old(fs.data), old(fs.inode)[i],
        TouchedTo(off, |src|, limit, k))
      invariant Spent(old(fs.data), old(fs.inode)[i], i, old(fs.owner), fs.owner, TouchedTo(off, |src|, limit, k))
    {
      ChunkedIs(c, fs.data, fs.inode[i], off, src, limit, k);
      TouchedNext(off, |src|, limit, k);
      var r;
      ghost var used;
      ok, r, used := FileNext(fs, i, off, src, limit, k, c, old(fs.data), old(fs.inode), old(fs.owner),
        TouchedTo(off, |src|, limit, k),
        Touched(off + k, Min(|src| - k, CHUNK), if limit > k then limit - k else 0));
      if !ok {
        TooFar(fs.sb, old(fs.data), old(fs.inode)[i], off, |src|, limit, k, g);
        ret := -1;
        return;
      }
      worst := if used > worst then used else worst;
      if r < 0 {
        if Accepts(|c|, off, limit, |src|) { AcceptsLess(|c|, off, limit, k + Min(|src| - k, CHUNK), |src|); }
        return true, -1, off', worst;
      }
      off' := off' + r;
      k := k + r;
      ChunkedAccepts(c, fs.data, fs.inode[i], off, src, limit, k);
    }
    ChunkedAccepts(c, fs.data, fs.inode[i], off, src, limit, k);
    ok, ret := true, |src|;
  }
}
