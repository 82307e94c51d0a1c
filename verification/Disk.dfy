/** Disk blocks as the kernel sees them: 512 bytes, which the log header and
    the indirect blocks read as 128 little-endian 32-bit words. */
module Disk {
  const BSIZE := 512
  const WORDS := 128

  type Byte = x: int | 0 <= x < 256
  type Word = x: int | 0 <= x < 0x1_0000_0000
  type Block = b: seq<Byte> | |b| == BSIZE witness seq(BSIZE, _ => 0)

  /** What the whole disk holds at one instant, indexed by block number. */
  type Image = seq<Block>

  function ZeroBlock(): Block {
    seq(BSIZE, _ => 0)
  }

  function GetWord(b: Block, i: nat): Word
    requires i < WORDS
  {
    (b[4 * i] as int) + 0x100 * (b[4 * i + 1] as int)
    + 0x1_0000 * (b[4 * i + 2] as int) + 0x100_0000 * (b[4 * i + 3] as int)
  }

  function SetWord(b: Block, i: nat, w: Word): Block
    requires i < WORDS
  {
    b[4 * i := w % 0x100]
     [4 * i + 1 := w / 0x100 % 0x100]
     [4 * i + 2 := w / 0x1_0000 % 0x100]
     [4 * i + 3 := w / 0x100_0000]
  }

  lemma BytesOfWord(w: Word)
    ensures w == w % 0x100 + 0x100 * (w / 0x100 % 0x100)
                 + 0x1_0000 * (w / 0x1_0000 % 0x100) + 0x100_0000 * (w / 0x100_0000)
  {
    var a := w / 0x100;
    var b := a / 0x100;
    assert b == w / 0x1_0000;
    assert b / 0x100 == w / 0x100_0000;
  }

  /** A stored word reads back, and storing it disturbs no other word. */
  lemma WordRoundTrip(b: Block, i: nat, w: Word)
    requires i < WORDS
    ensures GetWord(SetWord(b, i, w), i) == w
    ensures forall j: nat | j < WORDS && j != i :: GetWord(SetWord(b, i, w), j) == GetWord(b, j)
  {
    BytesOfWord(w);
    forall j: nat | j < WORDS && j != i
      ensures GetWord(SetWord(b, i, w), j) == GetWord(b, j)
    {
      assert 4 * j + 3 < 4 * i || 4 * i + 3 < 4 * j;
    }
  }
}
