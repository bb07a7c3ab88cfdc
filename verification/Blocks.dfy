/** Disk blocks: BSIZE bytes, also read as little-endian 32-bit words and as
    bits of the free map.  Every on-disk structure of the file system (log
    header, indirect block, dinode, free bitmap) is one of these views. */
module Blocks {
  import opened Common

  const BSIZE := 1024
  const WORDS := 256   // BSIZE / sizeof(uint)
  const BPB := 8192    // bitmap bits per block

  type Word = x: int | 0 <= x < 0x1_0000_0000
  type Block = b: seq<Byte> | |b| == BSIZE witness seq(BSIZE, _ => 0)
  type Disk = seq<Block>

  function ZeroBlock(): Block { seq(BSIZE, _ => 0) }

  /** Word i of a block, as a 32-bit array element reads it. */
  function GetWord(b: Block, i: nat): (w: Word)
    requires i < WORDS
  {
    var b0: int, b1: int, b2: int, b3: int := b[4 * i], b[4 * i + 1], b[4 * i + 2], b[4 * i + 3];
    b0 + 0x100 * b1 + 0x1_0000 * b2 + 0x100_0000 * b3
  }

  /** The block after word i is stored. */
  function SetWord(b: Block, i: nat, w: Word): (r: Block)
    requires i < WORDS
    ensures forall k :: 0 <= k < BSIZE && !(4 * i <= k < 4 * i + 4) ==> r[k] == b[k]
  {
    b[4 * i := w % 0x100][4 * i + 1 := w / 0x100 % 0x100]
    [4 * i + 2 := w / 0x1_0000 % 0x100][4 * i + 3 := w / 0x100_0000]
  }

  /** A stored word reads back, and the other words of the block keep their value. */
  lemma {:induction false} GetSetWord(b: Block, i: nat, w: Word, j: nat)
    requires i < WORDS && j < WORDS
    ensures GetWord(SetWord(b, i, w), j) == if i == j then w else GetWord(b, j)
  {
    if i == j {
      WordBytes(w);
    } else {
      var r := SetWord(b, i, w);
      assert r[4 * j] == b[4 * j] && r[4 * j + 1] == b[4 * j + 1];
      assert r[4 * j + 2] == b[4 * j + 2] && r[4 * j + 3] == b[4 * j + 3];
    }
  }

  lemma {:induction false} WordBytes(w: Word)
    ensures w == w % 0x100 + 0x100 * (w / 0x100 % 0x100) + 0x1_0000 * (w / 0x1_0000 % 0x100) +
            0x100_0000 * (w / 0x100_0000)
  {
    assert w / 0x1_0000 == w / 0x100 / 0x100;
    assert w / 0x100_0000 == w / 0x1_0000 / 0x100;
  }

  lemma {:induction false} ZeroWord(i: nat)
    requires i < WORDS
    ensures GetWord(ZeroBlock(), i) == 0
  {
  }

  /** Whether `n & (1 << j)` is non-zero. */
  predicate NatBit(n: nat, j: nat)
  {
    if j == 0 then n % 2 == 1 else NatBit(n / 2, j - 1)
  }

  /** `n | (1 << j)` */
  function OrMask(n: nat, j: nat): (r: nat)
  {
    if j == 0 then 1 + 2 * (n / 2) else n % 2 + 2 * OrMask(n / 2, j - 1)
  }

  /** `n & ~(1 << j)` */
  function AndNotMask(n: nat, j: nat): (r: nat)
    ensures r <= n
  {
    if j == 0 then 2 * (n / 2) else n % 2 + 2 * AndNotMask(n / 2, j - 1)
  }

  function Pow2(w: nat): (p: nat)
  {
    if w == 0 then 1 else 2 * Pow2(w - 1)
  }

  lemma {:induction false} TwiceBelow(r: nat, q: nat, p: nat)
    requires r < 2 && q < p
    ensures r + 2 * q < 2 * p
  {
  }

  lemma {:induction false} OrMaskBound(n: nat, j: nat, w: nat)
    requires n < Pow2(w) && j < w
    ensures OrMask(n, j) < Pow2(w)
  {
    var p := Pow2(w - 1);
    if j > 0 {
      OrMaskBound(n / 2, j - 1, w - 1);
      TwiceBelow(n % 2, OrMask(n / 2, j - 1), p);
    } else {
      TwiceBelow(1, n / 2, p);
    }
  }

  lemma {:induction false} NatBitUpdate(n: nat, j: nat, k: nat)
    ensures NatBit(OrMask(n, j), k) <==> k == j || NatBit(n, k)
    ensures NatBit(AndNotMask(n, j), k) <==> k != j && NatBit(n, k)
  {
    if j > 0 {
      Halves(n % 2, OrMask(n / 2, j - 1));
      Halves(n % 2, AndNotMask(n / 2, j - 1));
      if k > 0 {
        NatBitUpdate(n / 2, j - 1, k - 1);
      }
    } else {
      Halves(1, n / 2);
      Halves(0, n / 2);
    }
  }

  lemma {:induction false} Halves(r: nat, q: nat)
    requires r < 2
    ensures (r + 2 * q) / 2 == q && (r + 2 * q) % 2 == r
  {
  }

  /** Bit k of a block: bit k % 8 of byte k / 8. */
  predicate Bit(b: Block, k: nat)
    requires k < BPB
  {
    NatBit(b[k / 8], k % 8)
  }

  function SetBit(b: Block, k: nat): (r: Block)
    requires k < BPB
  {
    assert Pow2(8) == 2 * 2 * 2 * 2 * Pow2(4) == 256;
    OrMaskBound(b[k / 8], k % 8, 8);
    b[k / 8 := OrMask(b[k / 8], k % 8)]
  }

  function ClearBit(b: Block, k: nat): (r: Block)
    requires k < BPB
  {
    b[k / 8 := AndNotMask(b[k / 8], k % 8)]
  }

  /** Setting or clearing one bit of the map changes that bit alone. */
  lemma {:induction false} BitUpdate(b: Block, k: nat, j: nat)
    requires k < BPB && j < BPB
    ensures Bit(SetBit(b, k), j) <==> j == k || Bit(b, j)
    ensures Bit(ClearBit(b, k), j) <==> j != k && Bit(b, j)
  {
    NatBitUpdate(b[k / 8], k % 8, j % 8);
    assert j / 8 == k / 8 && j % 8 == k % 8 ==> j == k;
  }
}
