/** Disk blocks as byte sequences, with the two ways the kernel looks inside one:
    as an array of little-endian 32-bit words, and as an array of bits. */
module Blocks {

  const BSIZE := 512
  const WORDS := 128

  type Byte = b: int | 0 <= b < 0x100
  type Word = w: int | 0 <= w < 0x1_0000_0000
  type Block = b: seq<Byte> | |b| == BSIZE witness seq(512, _ => 0)
  type Disk = seq<Block>

  /** The `i`th element of the block read as `uint[128]`. */
  function GetWord(b: Block, i: nat): (w: Word)
    requires i < WORDS
  {
    var b0, b1, b2, b3 := b[4 * i] as int, b[4 * i + 1] as int, b[4 * i + 2] as int, b[4 * i + 3] as int;
    b0 + 0x100 * b1 + 0x1_0000 * b2 + 0x100_0000 * b3
  }

  /** Stores `w` as the `i`th element of the block read as `uint[128]`. */
  function PutWord(b: Block, i: nat, w: Word): (r: Block)
    requires i < WORDS
  {
    b[4 * i := w % 0x100][4 * i + 1 := w / 0x100 % 0x100]
    [4 * i + 2 := w / 0x1_0000 % 0x100][4 * i + 3 := w / 0x100_0000]
  }

  lemma {:induction false} WordBytes(w: Word)
    ensures w == w % 0x100 + 0x100 * (w / 0x100 % 0x100) + 0x1_0000 * (w / 0x1_0000 % 0x100) + 0x100_0000 * (w / 0x100_0000)
  {
    var q1 := w / 0x100;
    var q2 := q1 / 0x100;
    assert w == 0x100 * q1 + w % 0x100 && q1 == 0x100 * q2 + q1 % 0x100;
    assert w / 0x1_0000 == q2;
    assert w / 0x100_0000 == q2 / 0x100;
  }

  /** Storing a word is read back, and disturbs no other word. */
  lemma {:induction false} GetPutWord(b: Block, i: nat, w: Word)
    requires i < WORDS
    ensures GetWord(PutWord(b, i, w), i) == w
    ensures forall j: nat :: j < WORDS && j != i ==> GetWord(PutWord(b, i, w), j) == GetWord(b, j)
  {
    WordBytes(w);
    forall j: nat | j < WORDS && j != i {
      GetPutOther(b, i, j, w);
    }
  }

  lemma {:induction false} GetPutOther(b: Block, i: nat, j: nat, w: Word)
    requires i < WORDS && j < WORDS && i != j
    ensures GetWord(PutWord(b, i, w), j) == GetWord(b, j)
  {
    var r := PutWord(b, i, w);
    assert r[4 * j] == b[4 * j] && r[4 * j + 1] == b[4 * j + 1];
    assert r[4 * j + 2] == b[4 * j + 2] && r[4 * j + 3] == b[4 * j + 3];
  }

  // ---------------------------------------------------------------- bits

  /** x & (1 << k) is non-zero. */
  predicate HasBit(x: nat, k: nat) {
    if k == 0 then x % 2 == 1 else HasBit(x / 2, k - 1)
  }

  /** x | (1 << k) */
  function WithBit(x: nat, k: nat): (r: nat)
    decreases k
  {
    if k == 0 then (if x % 2 == 1 then x else x + 1) else 2 * WithBit(x / 2, k - 1) + x % 2
  }

  /** x & ~(1 << k) */
  function WithoutBit(x: nat, k: nat): (r: nat)
    decreases k
  {
    if k == 0 then (if x % 2 == 1 then x - 1 else x) else 2 * WithoutBit(x / 2, k - 1) + x % 2
  }

  function Pow2(n: nat): (r: nat) {
    if n == 0 then 1 else 2 * Pow2(n - 1)
  }

  lemma {:induction false} WithBitAt(x: nat, k: nat, j: nat)
    ensures HasBit(WithBit(x, k), j) == (j == k || HasBit(x, j))
    decreases k
  {
    if k > 0 && j > 0 {
      WithBitAt(x / 2, k - 1, j - 1);
      assert WithBit(x, k) / 2 == WithBit(x / 2, k - 1);
    }
  }

  lemma {:induction false} WithoutBitAt(x: nat, k: nat, j: nat)
    ensures HasBit(WithoutBit(x, k), j) == (j != k && HasBit(x, j))
    decreases k
  {
    if k > 0 && j > 0 {
      WithoutBitAt(x / 2, k - 1, j - 1);
      assert WithoutBit(x, k) / 2 == WithoutBit(x / 2, k - 1);
    }
  }

  lemma {:induction false} WithBitBound(x: nat, k: nat, n: nat)
    requires k < n && x < Pow2(n)
    ensures WithBit(x, k) < Pow2(n) && WithoutBit(x, k) < Pow2(n)
    decreases k
  {
    var p := Pow2(n - 1);
    assert Pow2(n) == 2 * p;
    hide Pow2;
    if k == 0 {
      assert x % 2 == 0 ==> x + 1 < 2 * p;
    } else {
      WithBitBound(x / 2, k - 1, n - 1);
      assert WithBit(x / 2, k - 1) <= p - 1 && WithoutBit(x / 2, k - 1) <= p - 1;
    }
  }

  /** A byte stays a byte when one of its eight bits is changed. */
  lemma {:induction false} ByteBits(x: Byte, k: nat, j: nat)
    requires k < 8
    ensures WithBit(x, k) < 0x100 && WithoutBit(x, k) < 0x100
    ensures HasBit(WithBit(x, k), j) == (j == k || HasBit(x, j))
    ensures HasBit(WithoutBit(x, k), j) == (j != k && HasBit(x, j))
  {
    assert Pow2(8) == 0x100 by {
      assert Pow2(2) == 4 && Pow2(4) == 16 && Pow2(6) == 64;
    }
    WithBitBound(x, k, 8);
    WithBitAt(x, k, j);
    WithoutBitAt(x, k, j);
  }

  const BPB := BSIZE * 8

  /** Bit `bi` of a bitmap block. */
  predicate GetBit(b: Block, bi: nat)
    requires bi < BPB
  {
    HasBit(b[bi / 8], bi % 8)
  }

  function SetBit(b: Block, bi: nat): (r: Block)
    requires bi < BPB
  {
    ByteBits(b[bi / 8], bi % 8, 0);
    b[bi / 8 := WithBit(b[bi / 8], bi % 8)]
  }

  function ClearBit(b: Block, bi: nat): (r: Block)
    requires bi < BPB
  {
    ByteBits(b[bi / 8], bi % 8, 0);
    b[bi / 8 := WithoutBit(b[bi / 8], bi % 8)]
  }

  /** Setting or clearing one bit of a block leaves the others alone. */
  lemma {:induction false} BitChange(b: Block, bi: nat, bj: nat)
    requires bi < BPB && bj < BPB
    ensures GetBit(SetBit(b, bi), bj) == (bi == bj || GetBit(b, bj))
    ensures GetBit(ClearBit(b, bi), bj) == (bi != bj && GetBit(b, bj))
  {
    ByteBits(b[bi / 8], bi % 8, bj % 8);
  }

  // ---------------------------------------------------------------- bytes

  /** memmove(b + o, s, |s|) */
  function Splice(b: Block, o: nat, s: seq<Byte>): (r: Block)
    requires o + |s| <= BSIZE
  {
    b[..o] + s + b[o + |s|..]
  }

  function Zeroed(): (r: Block)
    ensures forall i :: 0 <= i < BSIZE ==> r[i] == 0
  {
    seq(512, _ => 0)
  }

  lemma {:induction false} ZeroWord(k: nat)
    requires k < WORDS
    ensures GetWord(Zeroed(), k) == 0
  {
  }
}
