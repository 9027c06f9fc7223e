/** Blocks as bytes (fs.h, fs.c): bits of the free bitmap, 32-bit words of an indirect block, and
    runs of bytes of a data block. */
module FsLayout {
  import opened Common

  const BSIZE := 512
  const NDIRECT := 12
  const NINDIRECT := 128
  const MAXFILE := NDIRECT + NINDIRECT
  const IPB := 8
  const BPB := BSIZE * 8

  type byte = x: int | 0 <= x < 256
  type Block = b: seq<byte> | |b| == BSIZE witness seq(BSIZE, _ => 0)
  type Disk = seq<Block>

  function ZeroBlock(): (b: Block)
    ensures forall i :: 0 <= i < BSIZE ==> b[i] == 0
  {
    seq(BSIZE, _ => 0)
  }

  // ---- Bits ----------------------------------------------------------------------------------

  /** 1 << k */
  function Shift(k: nat): (m: nat)
    ensures m >= 1
  {
    if k == 0 then 1 else 2 * Shift(k - 1)
  }

  /** (x & (1 << k)) != 0 */
  predicate BitOf(x: nat, k: nat) {
    if k == 0 then x % 2 == 1 else BitOf(x / 2, k - 1)
  }

  /** x | (1 << k) */
  function SetBitOf(x: nat, k: nat): (y: nat) {
    if k == 0 then (if x % 2 == 1 then x else x + 1) else 2 * SetBitOf(x / 2, k - 1) + x % 2
  }

  /** x & ~(1 << k) */
  function ClearBitOf(x: nat, k: nat): (y: nat)
    ensures y <= x
  {
    if k == 0 then (if x % 2 == 1 then x - 1 else x) else 2 * ClearBitOf(x / 2, k - 1) + x % 2
  }

  lemma {:induction false} BitsOfBit(x: nat, k: nat, j: nat)
    ensures BitOf(SetBitOf(x, k), j) <==> j == k || BitOf(x, j)
    ensures BitOf(ClearBitOf(x, k), j) <==> j != k && BitOf(x, j)
  {
    if k == 0 {
      assert SetBitOf(x, k) / 2 == x / 2 == ClearBitOf(x, k) / 2;
    } else if j > 0 {
      assert SetBitOf(x, k) / 2 == SetBitOf(x / 2, k - 1) && ClearBitOf(x, k) / 2 == ClearBitOf(x / 2, k - 1);
      BitsOfBit(x / 2, k - 1, j - 1);
    }
  }

  lemma AllBits(x: nat, k: nat)
    ensures forall j: nat :: BitOf(SetBitOf(x, k), j) <==> j == k || BitOf(x, j)
    ensures forall j: nat :: BitOf(ClearBitOf(x, k), j) <==> j != k && BitOf(x, j)
  {
    forall j: nat ensures BitOf(SetBitOf(x, k), j) <==> j == k || BitOf(x, j) { BitsOfBit(x, k, j); }
    forall j: nat ensures BitOf(ClearBitOf(x, k), j) <==> j != k && BitOf(x, j) { BitsOfBit(x, k, j); }
  }

  lemma {:induction false} SetBitFits(x: nat, k: nat, n: nat)
    requires x < Shift(n) && k < n
    ensures SetBitOf(x, k) < Shift(n)
  {
    assert Shift(n) == 2 * Shift(n - 1);
    if k > 0 {
      SetBitFits(x / 2, k - 1, n - 1);
    }
  }

  function SetBit(x: byte, k: nat): (y: byte)
    requires k < 8
    ensures forall j: nat :: BitOf(y, j) <==> j == k || BitOf(x, j)
  {
    assert Shift(8) == 256 by {
      assert Shift(2) == 4 && Shift(4) == 16 && Shift(6) == 64;
    }
    SetBitFits(x, k, 8);
    AllBits(x, k);
    SetBitOf(x, k)
  }

  function ClearBit(x: byte, k: nat): (y: byte)
    ensures forall j: nat :: BitOf(y, j) <==> j != k && BitOf(x, j)
  {
    AllBits(x, k);
    ClearBitOf(x, k)
  }

  // ---- Words ---------------------------------------------------------------------------------

  /** The j-th 32-bit word of a block, little-endian. */
  function Word(b: Block, j: nat): (w: nat)
    requires j < NINDIRECT
    ensures w < TWO32
  {
    b[4 * j] as int + 0x100 * b[4 * j + 1] as int + 0x1_0000 * b[4 * j + 2] as int + 0x100_0000 * b[4 * j + 3] as int
  }

  function WithWord(b: Block, j: nat, w: nat): (r: Block)
    requires j < NINDIRECT && w < TWO32
    ensures Word(r, j) == w
    ensures forall i :: 0 <= i < NINDIRECT && i != j ==> Word(r, i) == Word(b, i)
  {
    FourBytes(w);
    b[4 * j := w % 0x100][4 * j + 1 := (w / 0x100) % 0x100][4 * j + 2 := (w / 0x1_0000) % 0x100]
     [4 * j + 3 := w / 0x100_0000]
  }

  lemma FourBytes(w: nat)
    requires w < TWO32
    ensures w / 0x100_0000 < 0x100
    ensures w == w % 0x100 + 0x100 * (w / 0x100 % 0x100) + 0x1_0000 * (w / 0x1_0000 % 0x100) + 0x100_0000 * (w / 0x100_0000)
  {
  }

  lemma ZeroWords(j: nat)
    requires j < NINDIRECT
    ensures Word(ZeroBlock(), j) == 0
  {
  }

  // ---- Bytes ---------------------------------------------------------------------------------

  /** memmove of src into a block at byte position at. */
  function WithBytes(b: Block, at: nat, src: seq<byte>): (r: Block)
    requires at + |src| <= BSIZE
    ensures forall i :: 0 <= i < BSIZE ==> r[i] == if at <= i < at + |src| then src[i - at] else b[i]
  {
    b[..at] + src + b[at + |src|..]
  }
}
