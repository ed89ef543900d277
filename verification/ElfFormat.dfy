/** The file format of kernel/elf.h, written the other way round: the two records laid out
    field by field, and what exec() reads back from a file that holds them. */
module ElfFormat {
  import opened Blocks
  import opened Kalloc
  import opened PageBytes
  import opened Elf
  import Files
  import PageTable
  import Processes
  import ExecArgs
  import Exec

  /** struct elfhdr. */
  datatype Ehdr = Ehdr(magic: nat, ident: Bytes, kind: nat, machine: nat, version: nat, entry: nat, phoff: nat,
    shoff: nat, flags: nat, ehsize: nat, phentsize: nat, phnum: nat, shentsize: nat, shnum: nat, shstrndx: nat)

  /** struct proghdr. */
  datatype Phdr = Phdr(kind: nat, flags: nat, off: nat, vaddr: nat, paddr: nat, filesz: nat, memsz: nat, align: nat)

  const U16: nat := 0x1_0000
  const U32: nat := 0x1_0000_0000

  /** Little-endian numbers. */
  function Le16(n: nat): (s: Bytes)
    ensures |s| == 2
  {
    [n % 0x100, n / 0x100 % 0x100]
  }

  function Le32(n: nat): (s: Bytes)
    ensures |s| == 4
  {
    Le16(n % U16) + Le16(n / U16)
  }

  function Le64(n: nat): (s: Bytes)
    ensures |s| == 8
  {
    Le32(n % U32) + Le32(n / U32)
  }

  predicate FitsEhdr(e: Ehdr)
  {
    && e.magic < U32 && |e.ident| == 12 && e.kind < U16 && e.machine < U16 && e.version < U32 && e.entry < U64
    && e.phoff < U64 && e.shoff < U64 && e.flags < U32 && e.ehsize < U16 && e.phentsize < U16 && e.phnum < U16
    && e.shentsize < U16 && e.shnum < U16 && e.shstrndx < U16
  }

  function EncodeEhdr(e: Ehdr): (s: Bytes)
    requires FitsEhdr(e)
  {
    Le32(e.magic) + e.ident + Le16(e.kind) + Le16(e.machine) + Le32(e.version) + Le64(e.entry)
    + Le64(e.phoff) + Le64(e.shoff) + Le32(e.flags) + Le16(e.ehsize) + Le16(e.phentsize) + Le16(e.phnum)
    + Le16(e.shentsize) + Le16(e.shnum) + Le16(e.shstrndx)
  }

  predicate FitsPhdr(h: Phdr)
  {
    && h.kind < U32 && h.flags < U32 && h.off < U64 && h.vaddr < U64 && h.paddr < U64 && h.filesz < U64
    && h.memsz < U64 && h.align < U64
  }

  function EncodePhdr(h: Phdr): (s: Bytes)
    requires FitsPhdr(h)
  {
    Le32(h.kind) + Le32(h.flags) + Le64(h.off) + Le64(h.vaddr) + Le64(h.paddr) + Le64(h.filesz)
    + Le64(h.memsz) + Le64(h.align)
  }

  // ------------------------------------------------------------------ single fields

  lemma Read16(s: Bytes, at: nat, n: nat)
    requires at + 2 <= |s| && n < U16 && s[at..at + 2] == Le16(n)
    ensures Short16(s, at) == n
  {
    assert s[at] == s[at..at + 2][0] && s[at + 1] == s[at..at + 2][1];
  }

  lemma Read32(s: Bytes, at: nat, n: nat)
    requires at + 4 <= |s| && n < U32 && s[at..at + 4] == Le32(n)
    ensures Word32(s, at) == n
  {
    hide Short16, Le16;
    assert s[at..at + 2] == s[at..at + 4][..2] == Le16(n % U16);
    assert s[at + 2..at + 4] == s[at..at + 4][2..] == Le16(n / U16);
    Read16(s, at, n % U16);
    Read16(s, at + 2, n / U16);
  }

  lemma Read64(s: Bytes, at: nat, n: nat)
    requires at + 8 <= |s| && n < U64 && s[at..at + 8] == Le64(n)
    ensures Word64(s, at) == n
  {
    hide Word32, Le32;
    assert s[at..at + 4] == s[at..at + 8][..4] == Le32(n % U32);
    assert s[at + 4..at + 8] == s[at..at + 8][4..] == Le32(n / U32);
    Read32(s, at, n % U32);
    Read32(s, at + 4, n / U32);
  }

  // ------------------------------------------------------------------------ records

  lemma EhdrFields(e: Ehdr)
    requires FitsEhdr(e)
    ensures var s := EncodeEhdr(e);
      && |s| == EHDR_SIZE && Word32(s, 0) == e.magic && Word64(s, 24) == e.entry && Word64(s, 32) == e.phoff
      && Short16(s, 56) == e.phnum
  {
    hide Le16, Le32, Le64, Short16, Word32, Word64;
    var s := EncodeEhdr(e);
    assert s[0..4] == Le32(e.magic) && s[24..32] == Le64(e.entry) && s[32..40] == Le64(e.phoff)
      && s[56..58] == Le16(e.phnum);
    Read32(s, 0, e.magic);
    Read64(s, 24, e.entry);
    Read64(s, 32, e.phoff);
    Read16(s, 56, e.phnum);
  }

  lemma PhdrFields(h: Phdr)
    requires FitsPhdr(h)
    ensures var s := EncodePhdr(h);
      && |s| == PHDR_SIZE && Word32(s, 0) == h.kind && Word64(s, 8) == h.off && Word64(s, 16) == h.vaddr
      && Word64(s, 32) == h.filesz && Word64(s, 40) == h.memsz
  {
    hide Le16, Le32, Le64, Short16, Word32, Word64;
    var s := EncodePhdr(h);
    assert s[0..4] == Le32(h.kind) && s[8..16] == Le64(h.off) && s[16..24] == Le64(h.vaddr)
      && s[32..40] == Le64(h.filesz) && s[40..48] == Le64(h.memsz);
    Read32(s, 0, h.kind);
    Read64(s, 8, h.off);
    Read64(s, 16, h.vaddr);
    Read64(s, 32, h.filesz);
    Read64(s, 40, h.memsz);
  }

  // -------------------------------------------------------------------------- files

  /** What exec() makes of a program header. */
  function Read(h: Phdr): (r: Header)
  {
    if h.kind == 1 then Load(h.off % U32, h.vaddr, h.memsz, h.filesz) else Skipped
  }

  /** A file that starts with the file header e and holds the program headers phs where it
      says they are. */
  ghost predicate Laid(file: Bytes, e: Ehdr, phs: seq<Phdr>)
  {
    && |file| < U32 && FitsEhdr(e) && EHDR_SIZE <= |file| && file[..EHDR_SIZE] == EncodeEhdr(e)
    && e.phnum == |phs| && forall i: nat :: i < |phs| ==> LaidAt(file, (e.phoff + PHDR_SIZE * i) % U32, phs[i])
  }

  ghost predicate LaidAt(file: Bytes, at: nat, h: Phdr)
  {
    FitsPhdr(h) && at + PHDR_SIZE <= |file| && file[at..at + PHDR_SIZE] == EncodePhdr(h)
  }

  lemma WholeRead(file: Bytes, at: nat, n: nat)
    requires at + n <= |file| < U32 && n > 0
    ensures Files.ReadAt(file, at, n) == file[at..at + n]
  {}

  lemma HeaderReads(file: Bytes, at: nat, h: Phdr)
    requires |file| < U32 && LaidAt(file, at, h)
    ensures HeaderAt(file, at) == Read(h)
  {
    hide Word32, Word64, EncodePhdr, Files.ReadAt;
    WholeRead(file, at, PHDR_SIZE);
    PhdrFields(h);
  }

  /** A header that does not fit the file is not read. */
  lemma HeaderMissing(file: Bytes, at: nat)
    requires |file| < U32 && at < U32
    ensures HeaderAt(file, at) == Unreadable <==> at + PHDR_SIZE > |file|
  {}

  /** A file with good magic reads back as it was laid out: the entry address, and each
      header's type, offset, address and sizes. Any other magic is refused. */
  lemma FileReads(file: Bytes, e: Ehdr, phs: seq<Phdr>)
    requires Laid(file, e, phs)
    ensures HeaderOk(file) <==> e.magic == 0x464C_457F
    ensures HeaderOk(file) ==>
      && Start(file) == e.entry && |Headers(file)| == |phs|
      && forall i: nat :: i < |phs| ==> Headers(file)[i] == Read(phs[i])
  {
    hide Word32, Word64, Short16, EncodeEhdr, Files.ReadAt, HeaderAt, Read, LaidAt;
    WholeRead(file, 0, EHDR_SIZE);
    EhdrFields(e);
    forall i: nat | i < |phs| ensures HeaderAt(file, (e.phoff + PHDR_SIZE * i) % U32) == Read(phs[i]) {
      HeaderReads(file, (e.phoff + PHDR_SIZE * i) % U32, phs[i]);
    }
  }

  // --------------------------------------------------------------- programs that run

  /** A segment as a linker makes it. */
  predicate Linked(file: Bytes, h: Phdr)
  {
    h.kind == 1 ==>
      && 0 < h.memsz && h.filesz <= h.memsz && h.vaddr + h.memsz < U64 && h.vaddr % 4096 == 0
      && h.off < U32 && h.off + h.filesz <= |file|
  }

  /** Every file of such segments has only good headers. */
  lemma LinkedGood(file: Bytes, e: Ehdr, phs: seq<Phdr>)
    requires Laid(file, e, phs) && e.magic == 0x464C_457F && forall i: nat :: i < |phs| ==> Linked(file, phs[i])
    ensures HeaderOk(file) && GoodUpTo(file, Headers(file), |Headers(file)|)
  {
    hide Laid, Headers, HeaderOk, SizeUpTo, Good, Linked, Read;
    FileReads(file, e, phs);
    forall i: nat | i < |phs| ensures Good(file, SizeUpTo(Headers(file), i), Headers(file)[i]) {
      LinkedIsGood(file, SizeUpTo(Headers(file), i), phs[i]);
    }
  }

  lemma LinkedIsGood(file: Bytes, sz: nat, h: Phdr)
    requires Linked(file, h)
    ensures Good(file, sz, Read(h))
  {}

  /** The size of the image is where the last segment ends. */
  lemma {:induction false} SizeIs(hs: seq<Header>, n: nat)
    requires n <= |hs|
    ensures forall i: nat :: i < n && hs[i].Load? ==> hs[i].vaddr + hs[i].memsz <= SizeUpTo(hs, n)
    ensures SizeUpTo(hs, n) == 0
      || exists i: nat :: i < n && hs[i].Load? && SizeUpTo(hs, n) == hs[i].vaddr + hs[i].memsz
    decreases n
  {
    if n > 0 {
      SizeIs(hs, n - 1);
      if hs[n - 1].Load? && SizeUpTo(hs, n) == hs[n - 1].vaddr + hs[n - 1].memsz { assert hs[n - 1].Load?; }
    }
  }

  /** Segments whose file parts do not overlap stand in memory as they are in the file. */
  lemma {:induction false} SegmentStands(file: Bytes, hs: seq<Header>, n: nat, i: nat, k: nat)
    requires n <= |hs| && GoodUpTo(file, hs, n) && i < n && hs[i].Load? && k < hs[i].filesz
    requires forall j: nat :: i < j < n && hs[j].Load? ==>
      hs[j].vaddr + hs[j].filesz <= hs[i].vaddr || hs[i].vaddr + hs[i].filesz <= hs[j].vaddr
    ensures hs[i].off + k < |file| && ByteAt(file, hs, n, hs[i].vaddr + k) == file[hs[i].off + k]
    decreases n
  {
    hide SizeUpTo;
    if i < n - 1 { SegmentStands(file, hs, n - 1, i, k); }
    assert Good(file, SizeUpTo(hs, i), hs[i]);
  }

  /** `end` is where the last segment ends, 0 if there is none. */
  ghost predicate EndsAt(phs: seq<Phdr>, end: nat)
  {
    && (forall i: nat :: i < |phs| && phs[i].kind == 1 ==> phs[i].vaddr + phs[i].memsz <= end)
    && (end == 0 || exists i: nat :: i < |phs| && phs[i].kind == 1 && phs[i].vaddr + phs[i].memsz == end)
  }

  /** exec() runs every linked program, given pages for its memory and a stack page that holds
      the arguments. */
  lemma LinkedRuns(file: Bytes, e: Ehdr, phs: seq<Phdr>, argv: seq<Bytes>, end: nat, free: nat)
    requires Laid(file, e, phs) && e.magic == 0x464C_457F && (forall i: nat :: i < |phs| ==> Linked(file, phs[i]))
      && EndsAt(phs, end)
    requires |argv| <= 32 && ExecArgs.StringRoom(argv) + ExecArgs.Up16(8 * |argv| + 8) <= 4096
    requires 3 + Processes.PageCost((end + 4095) / 4096 + 2) <= free
    ensures Exec.Runnable(file, argv, free) && Start(file) == e.entry
  {
    hide Laid, Headers, HeaderOk, SizeUpTo, Linked, GoodUpTo, ExecArgs.StringRoom, ExecArgs.Up16, ExecArgs.FitsStack,
      Processes.PageCost;
    LinkedGood(file, e, phs);
    FileReads(file, e, phs);
    var hs := Headers(file);
    SizeIs(hs, |hs|);
    assert SizeUpTo(hs, |hs|) == end by { SameEnd(hs, phs, end); }
    ExecArgs.FitsExactly(PageTable.PageAddr(Exec.ProgramPages(file) + 1), argv);
  }

  lemma SameEnd(hs: seq<Header>, phs: seq<Phdr>, end: nat)
    requires |hs| == |phs| && (forall i: nat :: i < |phs| ==> hs[i] == Read(phs[i])) && EndsAt(phs, end)
    requires forall i: nat :: i < |hs| && hs[i].Load? ==> hs[i].vaddr + hs[i].memsz <= SizeUpTo(hs, |hs|)
    requires SizeUpTo(hs, |hs|) == 0
      || exists i: nat :: i < |hs| && hs[i].Load? && SizeUpTo(hs, |hs|) == hs[i].vaddr + hs[i].memsz
    ensures SizeUpTo(hs, |hs|) == end
  {
    hide SizeUpTo;
    forall i: nat | i < |phs| ensures hs[i] == Read(phs[i]) {}
  }
}
