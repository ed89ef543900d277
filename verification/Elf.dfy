/** A program file as exec() of kernel/exec.c reads it: its headers, the memory they ask
    for, and what each byte of that memory is. */
module Elf {
  import opened Blocks
  import opened Kalloc
  import opened PageBytes
  import Files

  const MAGIC: nat := 0x464C_457F
  const PROG_LOAD: nat := 1
  const EHDR_SIZE: nat := 64
  const PHDR_SIZE: nat := 56

  function Short16(s: Bytes, at: nat): (n: nat)
    requires at + 2 <= |s|
  {
    var low: int, high: int := s[at], s[at + 1];
    low + 0x100 * high
  }

  function Word32(s: Bytes, at: nat): (n: nat)
    requires at + 4 <= |s|
  {
    Short16(s, at) + 0x1_0000 * Short16(s, at + 2)
  }

  function Word64(s: Bytes, at: nat): (n: nat)
    requires at + 8 <= |s|
    ensures n < U64
  {
    Word32(s, at) + 0x1_0000_0000 * Word32(s, at + 4)
  }

  /** The file header is all there, with the right magic number. */
  predicate HeaderOk(file: Bytes)
  {
    var s := Files.ReadAt(file, 0, EHDR_SIZE);
    |s| == EHDR_SIZE && Word32(s, 0) == MAGIC
  }

  function Start(file: Bytes): (n: nat)
    requires HeaderOk(file)
  {
    Word64(Files.ReadAt(file, 0, EHDR_SIZE), 24)
  }

  /** A program header: unreadable, of another type, or a segment to load. The code keeps
      the low 32 bits of `off`. */
  datatype Header = Unreadable | Skipped | Load(off: nat, vaddr: nat, memsz: nat, filesz: nat)

  function HeaderAt(file: Bytes, at: nat): (h: Header)
    ensures h.Load? ==> h.off < WORD_LIMIT && h.vaddr < U64 && h.memsz < U64 && h.filesz < U64
  {
    var s := Files.ReadAt(file, at, PHDR_SIZE);
    if |s| != PHDR_SIZE then Unreadable
    else if Word32(s, 0) != PROG_LOAD then Skipped
    else Load(Word64(s, 8) % WORD_LIMIT, Word64(s, 16), Word64(s, 40), Word64(s, 32))
  }

  /** The program headers, at the offsets a 32-bit counter goes through. */
  function Headers(file: Bytes): (hs: seq<Header>)
    requires HeaderOk(file)
    ensures forall i :: 0 <= i < |hs| && hs[i].Load? ==>
      hs[i].off < WORD_LIMIT && hs[i].vaddr < U64 && hs[i].memsz < U64 && hs[i].filesz < U64
  {
    var s := Files.ReadAt(file, 0, EHDR_SIZE);
    var phoff, phnum := Word64(s, 32), Short16(s, 56);
    seq(phnum, i requires 0 <= i < phnum => HeaderAt(file, (phoff + PHDR_SIZE * i) % WORD_LIMIT))
  }

  // ------------------------------------------------------------------- the memory

  function PagesFor(n: nat): (k: nat) { (n + 4095) / 4096 }

  /** The size a header asks for: images only grow. */
  function SizeAfter(sz: nat, h: Header): (r: nat)
  {
    if h.Load? && h.vaddr + h.memsz > sz then h.vaddr + h.memsz else sz
  }

  /** The size after the first n headers. */
  function SizeUpTo(hs: seq<Header>, n: nat): (r: nat)
    requires n <= |hs|
  {
    if n == 0 then 0 else SizeAfter(SizeUpTo(hs, n - 1), hs[n - 1])
  }

  lemma {:induction false} SizesGrow(hs: seq<Header>, i: nat, n: nat)
    requires i <= n <= |hs|
    ensures PagesFor(SizeUpTo(hs, i)) <= PagesFor(SizeUpTo(hs, n))
    decreases n
  {
    if i < n { SizesGrow(hs, i, n - 1); }
  }

  /** The segment's bytes are all in the file. */
  predicate Whole(file: Bytes, off: nat, filesz: nat) { filesz == 0 || off + filesz <= |file| }

  /** A header exec() accepts, given the size so far. A first segment of no size is refused:
      uvmalloc() then returns 0. */
  predicate Good(file: Bytes, sz: nat, h: Header)
  {
    h.Skipped?
    || (h.Load? && h.filesz <= h.memsz && h.vaddr + h.memsz < U64 && h.vaddr % 4096 == 0 && SizeAfter(sz, h) > 0
        && Whole(file, h.off, h.filesz))
  }

  predicate GoodUpTo(file: Bytes, hs: seq<Header>, n: nat)
    requires n <= |hs|
  {
    forall i :: 0 <= i < n ==> Good(file, SizeUpTo(hs, i), hs[i])
  }

  /** n bytes of the file from off on. */
  function Part(file: Bytes, off: nat, n: nat): (s: Bytes)
    requires Whole(file, off, n)
    ensures |s| == n
  {
    if n == 0 then [] else file[off..off + n]
  }

  function Zeroed(n: nat): (s: Bytes) { seq(n, i => 0) }

  /** The image after a header: zeroed pages up to the new size, then the segment's bytes. */
  function ImageAfter(file: Bytes, img: Bytes, sz: nat, h: Header): (r: Bytes)
    requires Good(file, sz, h) && |img| == 4096 * PagesFor(sz)
    ensures |r| == 4096 * PagesFor(SizeAfter(sz, h))
  {
    var grown := img + Zeroed(4096 * (PagesFor(SizeAfter(sz, h)) - PagesFor(sz)));
    if h.Load? then Splice(grown, h.vaddr, Part(file, h.off, h.filesz)) else grown
  }

  /** The image after the first n headers. */
  function Image(file: Bytes, hs: seq<Header>, n: nat): (r: Bytes)
    requires n <= |hs| && GoodUpTo(file, hs, n)
    ensures |r| == 4096 * PagesFor(SizeUpTo(hs, n))
  {
    if n == 0 then [] else ImageAfter(file, Image(file, hs, n - 1), SizeUpTo(hs, n - 1), hs[n - 1])
  }

  /** The byte at address a, whatever the image: that of the last segment with bytes there,
      or zero. */
  function ByteAt(file: Bytes, hs: seq<Header>, n: nat, a: nat): (b: Byte)
    requires n <= |hs| && GoodUpTo(file, hs, n)
  {
    if n == 0 then 0 else
      var h := hs[n - 1];
      if h.Load? && h.vaddr <= a < h.vaddr + h.filesz then file[h.off + (a - h.vaddr)] else ByteAt(file, hs, n - 1, a)
  }

  lemma {:induction false} ImageBytes(file: Bytes, hs: seq<Header>, n: nat, a: nat)
    requires n <= |hs| && GoodUpTo(file, hs, n) && a < 4096 * PagesFor(SizeUpTo(hs, n))
    ensures Image(file, hs, n)[a] == ByteAt(file, hs, n, a)
    decreases n
  {
    hide GoodUpTo, Good, SizeUpTo, PagesFor, ImageAfter;
    if n > 0 {
      GoodNext(file, hs, n);
      ImageAfterByte(file, Image(file, hs, n - 1), SizeUpTo(hs, n - 1), hs[n - 1], a);
      if a < 4096 * PagesFor(SizeUpTo(hs, n - 1)) {
        ImageBytes(file, hs, n - 1, a);
      } else {
        BeyondSize(file, hs, n - 1, a);
      }
    }
  }

  lemma GoodNext(file: Bytes, hs: seq<Header>, n: nat)
    requires 0 < n <= |hs| && GoodUpTo(file, hs, n)
    ensures GoodUpTo(file, hs, n - 1) && Good(file, SizeUpTo(hs, n - 1), hs[n - 1])
    ensures SizeUpTo(hs, n) == SizeAfter(SizeUpTo(hs, n - 1), hs[n - 1])
  {}

  lemma ImageAfterByte(file: Bytes, img: Bytes, sz: nat, h: Header, a: nat)
    requires Good(file, sz, h) && |img| == 4096 * PagesFor(sz) && a < 4096 * PagesFor(SizeAfter(sz, h))
    ensures ImageAfter(file, img, sz, h)[a] ==
      if h.Load? && h.vaddr <= a < h.vaddr + h.filesz then file[h.off + (a - h.vaddr)]
      else if a < |img| then img[a] else 0
  {
    hide Zeroed;
    assert PagesFor(SizeAfter(sz, h)) >= PagesFor(sz);
    ZeroedAt(img, 4096 * (PagesFor(SizeAfter(sz, h)) - PagesFor(sz)), a);
  }

  lemma ZeroedAt(img: Bytes, n: nat, a: nat)
    requires a < |img| + n
    ensures |Zeroed(n)| == n && (img + Zeroed(n))[a] == if a < |img| then img[a] else 0
  {}

  /** No segment has bytes above the size. */
  lemma {:induction false} BeyondSize(file: Bytes, hs: seq<Header>, n: nat, a: nat)
    requires n <= |hs| && GoodUpTo(file, hs, n) && a >= 4096 * PagesFor(SizeUpTo(hs, n))
    ensures ByteAt(file, hs, n, a) == 0
    decreases n
  {
    hide GoodUpTo, Good, SizeUpTo;
    if n > 0 {
      GoodNext(file, hs, n);
      GoodInside(file, SizeUpTo(hs, n - 1), hs[n - 1]);
      BeyondSize(file, hs, n - 1, a);
    }
  }

  lemma GoodInside(file: Bytes, sz: nat, h: Header)
    requires Good(file, sz, h)
    ensures sz <= SizeAfter(sz, h) <= 4096 * PagesFor(SizeAfter(sz, h))
    ensures h.Load? ==> h.vaddr + h.filesz <= SizeAfter(sz, h)
  {}
}
