/** The free bitmap's bits in its bytes (fs.c: balloc and bfree), least significant bit first. */
module Bitmap {

  /** 1 << k in a byte. */
  function Mask(k: nat): bv8
    requires k < 8
  {
    match k
    case 0 => 0x01
    case 1 => 0x02
    case 2 => 0x04
    case 3 => 0x08
    case 4 => 0x10
    case 5 => 0x20
    case 6 => 0x40
    case _ => 0x80
  }

  predicate TestBit(x: bv8, k: nat)
    requires k < 8
  {
    x & Mask(k) != 0
  }

  lemma {:induction false} SetOneBit(x: bv8, k: nat, j: nat)
    requires k < 8 && j < 8
    ensures TestBit(x | Mask(k), j) == (j == k || TestBit(x, j))
  {
  }

  lemma {:induction false} ClearOneBit(x: bv8, k: nat, j: nat)
    requires k < 8 && j < 8
    ensures TestBit(x & !Mask(k), j) == (j != k && TestBit(x, j))
  {
  }

  /** The bit of block b. */
  predicate Bit(bytes: seq<bv8>, b: nat)
    requires b < 8 * |bytes|
  {
    TestBit(bytes[b / 8], b % 8)
  }

  function SetBit(bytes: seq<bv8>, b: nat): (r: seq<bv8>)
    requires b < 8 * |bytes|
    ensures |r| == |bytes|
  {
    bytes[b / 8 := bytes[b / 8] | Mask(b % 8)]
  }

  function ClearBit(bytes: seq<bv8>, b: nat): (r: seq<bv8>)
    requires b < 8 * |bytes|
    ensures |r| == |bytes|
  {
    bytes[b / 8 := bytes[b / 8] & !Mask(b % 8)]
  }

  /** Setting a block's bit changes no other block's. */
  lemma {:induction false} SetBitIs(bytes: seq<bv8>, b: nat, c: nat)
    requires b < 8 * |bytes| && c < 8 * |bytes|
    ensures Bit(SetBit(bytes, b), c) == (c == b || Bit(bytes, c))
  {
    hide TestBit;
    if c / 8 == b / 8 {
      SetOneBit(bytes[b / 8], b % 8, c % 8);
    }
  }

  lemma {:induction false} ClearBitIs(bytes: seq<bv8>, b: nat, c: nat)
    requires b < 8 * |bytes| && c < 8 * |bytes|
    ensures Bit(ClearBit(bytes, b), c) == (c != b && Bit(bytes, c))
  {
    hide TestBit;
    if c / 8 == b / 8 {
      ClearOneBit(bytes[b / 8], b % 8, c % 8);
    }
  }
}
