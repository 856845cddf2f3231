/** Disk blocks of BSIZE bytes, and the little-endian 32-bit words that the file
    system stores in them (log headers and indirect blocks are arrays of words). */
module Blocks {

  const BSIZE := 1024
  const WORDS := 256          // BSIZE / sizeof(uint)
  const UINT_LIMIT := 0x1_0000_0000

  type byte = x: int | 0 <= x < 256
  type uint = x: int | 0 <= x < UINT_LIMIT
  type Block = b: seq<byte> | |b| == BSIZE witness seq(BSIZE, _ => 0)

  function ZeroBlock(): Block {
    seq(BSIZE, _ => 0)
  }

  /** The word at index i of a block. */
  function Word(b: Block, i: nat): uint
    requires i < WORDS
  {
    Join(b[4*i], b[4*i+1], b[4*i+2], b[4*i+3])
  }

  function Join(b0: int, b1: int, b2: int, b3: int): int {
    b0 + 256 * b1 + 65536 * b2 + 16777216 * b3
  }

  /** The block with word i replaced. */
  function SetWord(b: Block, i: nat, w: uint): Block
    requires i < WORDS
  {
    b[4*i := w % 256][4*i+1 := w / 256 % 256][4*i+2 := w / 65536 % 256][4*i+3 := w / 16777216]
  }

  lemma WordOfSetWord(b: Block, i: nat, w: uint, j: nat)
    requires i < WORDS && j < WORDS
    ensures Word(SetWord(b, i, w), j) == if i == j then w else Word(b, j)
  {
    if i == j {
      BytesOfWord(w);
    } else {
      assert forall k | 4*j <= k < 4*j+4 :: SetWord(b, i, w)[k] == b[k];
    }
  }

  lemma BytesOfWord(w: uint)
    ensures Join(w % 256, w / 256 % 256, w / 65536 % 256, w / 16777216) == w
  {
    assert w / 65536 == (w / 256) / 256;
    assert w / 16777216 == (w / 65536) / 256;
  }

  lemma WordOfZero(i: nat)
    requires i < WORDS
    ensures Word(ZeroBlock(), i) == 0
  {
  }
}
