/**
  Disk blocks as the kernel sees them: BSIZE bytes, with the little-endian 32-bit words
  that the log header and the indirect blocks lay over those bytes.
 */
module Blocks {
  import opened Common

  const BSIZE := 512
  const WORDS := 128

  type Byte = x: int | 0 <= x < 256
  type Uint = x: int | 0 <= x < TWO_32
  type Bytes = b: seq<Byte> | |b| == BSIZE witness seq(BSIZE, i => 0)

  datatype Block = Block(bytes: Bytes)

  /** Four bytes as a 32-bit word, the first byte least significant. */
  function Join(b0: Byte, b1: Byte, b2: Byte, b3: Byte): (w: Uint) {
    (b0 as int) + 0x100 * (b1 as int) + 0x1_0000 * (b2 as int) + 0x100_0000 * (b3 as int)
  }

  /** The four bytes of a 32-bit word. */
  function Split(w: Uint): (bs: seq<Byte>)
    ensures |bs| == 4
    ensures Join(bs[0], bs[1], bs[2], bs[3]) == w
  {
    var q1 := w / 0x100;
    var q2 := q1 / 0x100;
    var q3 := q2 / 0x100;
    [w % 0x100, q1 % 0x100, q2 % 0x100, q3]
  }

  /** The i-th 32-bit word of a block, little-endian. */
  function Word(b: Block, i: nat): (w: Uint)
    requires i < WORDS
  {
    Join(b.bytes[4 * i], b.bytes[4 * i + 1], b.bytes[4 * i + 2], b.bytes[4 * i + 3])
  }

  /** Stores a 32-bit word: the other words keep their value. */
  function SetWord(b: Block, i: nat, w: Uint): (r: Block)
    requires i < WORDS
    ensures Word(r, i) == w
    ensures forall j: nat :: j < WORDS && j != i ==> Word(r, j) == Word(b, j)
  {
    var bs := Split(w);
    Block(b.bytes[4 * i := bs[0]][4 * i + 1 := bs[1]][4 * i + 2 := bs[2]][4 * i + 3 := bs[3]])
  }

  function ZeroBlock(): (b: Block)
    ensures forall j: nat :: j < WORDS ==> Word(b, j) == 0
    ensures forall i :: 0 <= i < BSIZE ==> b.bytes[i] == 0
  {
    Block(Copies<Byte>(0, BSIZE))
  }
}
