/** The free-block bitmap of kernel/fs.c: bit b % 8 of byte b / 8 of a block. */
module Bitmap {
  import opened Blocks

  const BPB: nat := 8192

  /** (x & (1 << k)) != 0, bit by bit from the lowest. */
  predicate Has(x: nat, k: nat) { if k == 0 then x % 2 == 1 else Has(x / 2, k - 1) }

  /** x | (1 << k). */
  function With(x: nat, k: nat): (y: nat) { if k == 0 then x / 2 * 2 + 1 else With(x / 2, k - 1) * 2 + x % 2 }

  /** x & ~(1 << k). */
  function Without(x: nat, k: nat): (y: nat) { if k == 0 then x / 2 * 2 else Without(x / 2, k - 1) * 2 + x % 2 }

  lemma {:induction false} BitOfWith(x: nat, k: nat, j: nat)
    ensures Has(With(x, k), j) <==> j == k || Has(x, j)
  {
    if k == 0 {
      assert j > 0 ==> With(x, 0) / 2 == x / 2;
    } else if j > 0 {
      assert With(x, k) / 2 == With(x / 2, k - 1);
      BitOfWith(x / 2, k - 1, j - 1);
    }
  }

  lemma {:induction false} BitOfWithout(x: nat, k: nat, j: nat)
    ensures Has(Without(x, k), j) <==> j != k && Has(x, j)
  {
    if k == 0 {
      assert j > 0 ==> Without(x, 0) / 2 == x / 2;
    } else if j > 0 {
      assert Without(x, k) / 2 == Without(x / 2, k - 1);
      BitOfWithout(x / 2, k - 1, j - 1);
    }
  }

  /** Both stay within a byte. */
  lemma {:induction false} InByte(x: nat, k: nat, n: nat)
    requires k < n <= 8 && x < Limit(n)
    ensures With(x, k) < Limit(n) && Without(x, k) < Limit(n)
  {
    if k > 0 {
      InByte(x / 2, k - 1, n - 1);
    }
  }

  function Limit(n: nat): (m: nat) { if n == 0 then 1 else 2 * Limit(n - 1) }

  lemma ByteLimit()
    ensures Limit(8) == 256
  {
    assert Limit(4) == 16;
  }

  function SetIn(x: Byte, k: nat): (y: Byte)
    requires k < 8
    ensures y == With(x, k)
  {
    ByteLimit();
    InByte(x, k, 8);
    With(x, k)
  }

  function ClearIn(x: Byte, k: nat): (y: Byte)
    requires k < 8
    ensures y == Without(x, k)
  {
    ByteLimit();
    InByte(x, k, 8);
    Without(x, k)
  }

  // ------------------------------------------------------------------- blocks

  predicate Bit(b: Block, k: nat)
    requires k < BPB
  {
    Has(b[k / 8], k % 8)
  }

  function SetBit(b: Block, k: nat): (r: Block)
    requires k < BPB
  {
    b[k / 8 := SetIn(b[k / 8], k % 8)]
  }

  function ClearBit(b: Block, k: nat): (r: Block)
    requires k < BPB
  {
    b[k / 8 := ClearIn(b[k / 8], k % 8)]
  }

  /** Setting one bit sets that bit only. */
  lemma BitOfSetBit(b: Block, k: nat, j: nat)
    requires k < BPB && j < BPB
    ensures Bit(SetBit(b, k), j) <==> j == k || Bit(b, j)
  {
    hide Has, With, SetIn;
    if j / 8 == k / 8 {
      BitOfWith(b[k / 8], k % 8, j % 8);
    }
  }

  lemma BitOfClearBit(b: Block, k: nat, j: nat)
    requires k < BPB && j < BPB
    ensures Bit(ClearBit(b, k), j) <==> j != k && Bit(b, j)
  {
    hide Has, Without, ClearIn;
    if j / 8 == k / 8 {
      BitOfWithout(b[k / 8], k % 8, j % 8);
    }
  }

  lemma BitOfZeros(k: nat)
    requires k < BPB
    ensures !Bit(Zeros, k)
  {
    NoBits(k % 8);
  }

  lemma {:induction false} NoBits(k: nat)
    ensures !Has(0, k)
  {
    if k > 0 { NoBits(k - 1); }
  }
}
