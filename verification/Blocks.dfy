/** Disk blocks: 1024 bytes, also read as 256 little-endian 32-bit words (the log
    header, inodes and indirect blocks of kernel/fs.h and kernel/log.c). */
module Blocks {

  const BSIZE: nat := 1024
  const WORDS: nat := 256
  const WORD_LIMIT: nat := 0x1_0000_0000

  type Byte = x: int | 0 <= x < 256

  type Block = b: seq<Byte> | |b| == BSIZE witness seq(BSIZE, i => 0)

  const Zeros: Block := seq(BSIZE, i => 0)

  /** The word at index i of a block, as a load through (uint*)data reads it. */
  function Word(b: Block, i: nat): (v: nat)
    requires i < WORDS
    ensures v < WORD_LIMIT
  {
    var b0: int, b1: int, b2: int, b3: int := b[4 * i], b[4 * i + 1], b[4 * i + 2], b[4 * i + 3];
    b0 + 0x100 * b1 + 0x1_0000 * b2 + 0x100_0000 * b3
  }

  /** The block after v is stored in its i-th word. */
  function SetWord(b: Block, i: nat, v: nat): (b': Block)
    requires i < WORDS && v < WORD_LIMIT
  {
    b[4 * i := v % 0x100][4 * i + 1 := v / 0x100 % 0x100]
     [4 * i + 2 := v / 0x1_0000 % 0x100][4 * i + 3 := v / 0x100_0000]
  }

  lemma SplitWord(v: nat)
    requires v < WORD_LIMIT
    ensures v % 0x100 + 0x100 * (v / 0x100 % 0x100) + 0x1_0000 * (v / 0x1_0000 % 0x100)
          + 0x100_0000 * (v / 0x100_0000) == v
  {
    assert v / 0x1_0000 == v / 0x100 / 0x100;
    assert v / 0x100_0000 == v / 0x1_0000 / 0x100;
  }

  /** A stored word reads back, and no other word changes. */
  lemma WordOfSetWord(b: Block, i: nat, v: nat, j: nat)
    requires i < WORDS && v < WORD_LIMIT && j < WORDS
    ensures Word(SetWord(b, i, v), j) == if j == i then v else Word(b, j)
  {
    SplitWord(v);
  }

  lemma WordsOfSetWord(b: Block, i: nat, v: nat)
    requires i < WORDS && v < WORD_LIMIT
    ensures forall j :: 0 <= j < WORDS ==> Word(SetWord(b, i, v), j) == if j == i then v else Word(b, j)
  {
    forall j | 0 <= j < WORDS ensures Word(SetWord(b, i, v), j) == if j == i then v else Word(b, j) {
      WordOfSetWord(b, i, v, j);
    }
  }

  lemma WordOfZeros(i: nat)
    requires i < WORDS
    ensures Word(Zeros, i) == 0
  {}

  /** Some bytes of a buffer replaced, as memmove leaves it. */
  function Splice(buf: seq<Byte>, at: nat, s: seq<Byte>): (r: seq<Byte>)
    requires at + |s| <= |buf|
    ensures |r| == |buf|
    ensures forall k: nat :: k < |buf| ==> r[k] == if at <= k < at + |s| then s[k - at] else buf[k]
  {
    buf[..at] + s + buf[at + |s|..]
  }

  lemma SplicedIn(buf: seq<Byte>, at: nat, s: seq<Byte>)
    requires at + |s| <= |buf|
    ensures Splice(buf, at, s)[at..at + |s|] == s
  {}

  lemma SplicedOut(buf: seq<Byte>, at: nat, s: seq<Byte>, lo: nat, hi: nat)
    requires at + |s| <= |buf| && lo <= hi <= |buf| && (at + |s| <= lo || hi <= at)
    ensures Splice(buf, at, s)[lo..hi] == buf[lo..hi]
  {
    var r := Splice(buf, at, s);
    forall k: nat | lo <= k < hi ensures r[k] == buf[k] {}
  }
}
