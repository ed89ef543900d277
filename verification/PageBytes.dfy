/** A page of memory as 4096 bytes and as 512 little-endian 64-bit words. */
module PageBytes {
  import opened Blocks
  import opened Kalloc

  type Bytes = seq<Byte>

  /** A word's bytes, low byte first. */
  function Bytes8(n: nat): (s: Bytes)
    ensures |s| == 8
  {
    var a, b, c := n / 0x100, n / 0x1_0000, n / 0x100_0000;
    var d, e, f, g := n / 0x1_0000_0000, n / 0x100_0000_0000, n / 0x1_0000_0000_0000, n / 0x100_0000_0000_0000;
    [n % 256, a % 256, b % 256, c % 256, d % 256, e % 256, f % 256, g % 256]
  }

  function Join(low: int, rest: int): (n: int) { low + 0x100 * rest }

  function Word8(s: Bytes): (n: nat)
    requires |s| == 8
  {
    Join(s[0], Join(s[1], Join(s[2], Join(s[3], Join(s[4], Join(s[5], Join(s[6], s[7])))))))
  }

  lemma Quotients(n: nat)
    ensures n / 0x1_0000 == n / 0x100 / 0x100 && n / 0x100_0000 == n / 0x1_0000 / 0x100
    ensures n / 0x1_0000_0000 == n / 0x100_0000 / 0x100 && n / 0x100_0000_0000 == n / 0x1_0000_0000 / 0x100
    ensures n / 0x1_0000_0000_0000 == n / 0x100_0000_0000 / 0x100
    ensures n / 0x100_0000_0000_0000 == n / 0x1_0000_0000_0000 / 0x100
  {}

  lemma Digit(low: int, rest: nat)
    requires 0 <= low < 256
    ensures Join(low, rest) >= 0 && Join(low, rest) % 256 == low && Join(low, rest) / 256 == rest
  {}

  lemma BytesOfWord(s: Bytes)
    requires |s| == 8
    ensures Bytes8(Word8(s)) == s
  {
    hide Join;
    var g: nat := s[7];
    Digit(s[6], g);
    var f: nat := Join(s[6], g);
    Digit(s[5], f);
    var e: nat := Join(s[5], f);
    Digit(s[4], e);
    var d: nat := Join(s[4], e);
    Digit(s[3], d);
    var c: nat := Join(s[3], d);
    Digit(s[2], c);
    var b: nat := Join(s[2], c);
    Digit(s[1], b);
    var a: nat := Join(s[1], b);
    Digit(s[0], a);
    Quotients(Join(s[0], a));
  }

  lemma WordOfBytes(n: nat)
    requires n < U64
    ensures Word8(Bytes8(n)) == n
  {
    Quotients(n);
    var s := Bytes8(n);
    assert n / 0x100_0000_0000_0000 < 256;
  }

  function WordsOf(b: Bytes): (p: Page)
    requires |b| == 4096
  {
    seq(512, i requires 0 <= i < 512 => Word8(b[8 * i..8 * i + 8]))
  }

  function BytesOf(p: Page): (b: Bytes)
    ensures |b| == 4096
  {
    seq(4096, k requires 0 <= k < 4096 => Bytes8(p[k / 8])[k % 8])
  }

  lemma PageRound(b: Bytes)
    requires |b| == 4096
    ensures BytesOf(WordsOf(b)) == b
  {
    hide Bytes8, Word8;
    forall k: nat | k < 4096 ensures BytesOf(WordsOf(b))[k] == b[k] {
      var i := k / 8;
      BytesOfWord(b[8 * i..8 * i + 8]);
      assert b[8 * i..8 * i + 8][k % 8] == b[8 * i + k % 8];
    }
  }
}
