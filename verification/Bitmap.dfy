/** The free map of fs.c: one bit per disk block, eight to a byte. */
module Bitmap {
  import opened Blocks

  const BPB: nat := 8192              // bits per bitmap block

  function Pow2(n: nat): nat {
    if n == 0 then 1 else 2 * Pow2(n - 1)
  }

  predicate BitOf(x: nat, k: nat)
    decreases k
  {
    if k == 0 then x % 2 == 1 else BitOf(x / 2, k - 1)
  }

  /** x with bit k set or cleared: x | 1 << k, or x & ~(1 << k). */
  function PutBit(x: nat, k: nat, v: bool): nat
    decreases k
  {
    if k == 0 then x / 2 * 2 + (if v then 1 else 0) else PutBit(x / 2, k - 1, v) * 2 + x % 2
  }

  lemma {:induction false} PutBitFits(x: nat, k: nat, v: bool, n: nat)
    requires k < n && x < Pow2(n)
    ensures PutBit(x, k, v) < Pow2(n)
    decreases k
  {
    assert Pow2(n) == 2 * Pow2(n - 1) && x / 2 < Pow2(n - 1);
    if k > 0 {
      PutBitFits(x / 2, k - 1, v, n - 1);
      assert PutBit(x / 2, k - 1, v) * 2 + x % 2 <= (Pow2(n - 1) - 1) * 2 + 1;
    }
  }

  lemma {:induction false} PutBitBits(x: nat, k: nat, v: bool, j: nat)
    ensures BitOf(PutBit(x, k, v), j) == if j == k then v else BitOf(x, j)
    decreases k
  {
    var y := PutBit(x, k, v);
    if k > 0 {
      assert y % 2 == x % 2 && y / 2 == PutBit(x / 2, k - 1, v);
      if j > 0 {
        PutBitBits(x / 2, k - 1, v, j - 1);
      }
    } else {
      assert y / 2 == x / 2;
    }
  }

  function PutByteBit(x: byte, k: nat, v: bool): byte
    requires k < 8
  {
    assert Pow2(8) == 256;
    PutBitFits(x, k, v, 8);
    PutBit(x, k, v)
  }

  predicate BlockBit(b: Block, i: nat)
    requires i < BPB
  {
    BitOf(b[i / 8], i % 8)
  }

  /** data[bi/8] |= m, or data[bi/8] &= ~m. */
  function SetBlockBit(b: Block, i: nat, v: bool): Block
    requires i < BPB
  {
    b[i / 8 := PutByteBit(b[i / 8], i % 8, v)]
  }

  /** One bit changes and no other. */
  lemma SetBlockBitBits(b: Block, i: nat, v: bool, j: nat)
    requires i < BPB && j < BPB
    ensures BlockBit(SetBlockBit(b, i, v), j) == if j == i then v else BlockBit(b, j)
  {
    hide BitOf, PutBit;
    PutBitBits(b[i / 8], i % 8, v, j % 8);
  }
}
