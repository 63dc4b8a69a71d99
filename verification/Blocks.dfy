/**
 Disk blocks of xv6 (labo2/kernel/fs.h) and the two ways the file system reads their bytes
 other than as file data: as bits of the free map and as 32-bit block numbers, low byte
 first.
 */
module Blocks {
  const BSIZE: nat := 1024
  const BPB: nat := 8 * BSIZE
  const NINDIRECT: nat := BSIZE / 4

  type Byte = x: int | 0 <= x < 256
  type Block = b: seq<Byte> | |b| == BSIZE witness seq(BSIZE, i => 0)

  function Zeroes(): (b: Block)
    ensures forall i :: 0 <= i < BSIZE ==> b[i] == 0
  {
    seq(BSIZE, i => 0)
  }

  // ---------- Bits ----------

  // 1 << i
  function Mask(i: nat): (m: nat)
    ensures m > 0
  {
    if i == 0 then 1 else 2 * Mask(i - 1)
  }

  // (x & (1 << i)) != 0
  predicate HasBit(x: nat, i: nat) {
    if i == 0 then x % 2 == 1 else HasBit(x / 2, i - 1)
  }

  // x |= 1 << i, on a byte of `n` bits that lacks bit `i`.
  lemma {:induction false} SetOneBit(x: nat, i: nat, n: nat)
    requires i < n && x < Mask(n) && !HasBit(x, i)
    ensures x + Mask(i) < Mask(n)
    ensures forall j: nat :: HasBit(x + Mask(i), j) <==> j == i || HasBit(x, j)
  {
    hide HasBit;
    SetFits(x, i, n);
    forall j: nat
      ensures HasBit(x + Mask(i), j) <==> j == i || HasBit(x, j)
    {
      SetBitAt(x, i, j);
    }
  }

  lemma {:induction false} SetFits(x: nat, i: nat, n: nat)
    requires i < n && x < Mask(n) && !HasBit(x, i)
    ensures x + Mask(i) < Mask(n)
  {
    var q, half := x / 2, Mask(n - 1);
    assert x == 2 * q + x % 2 && Mask(n) == 2 * half && q < half;
    if i == 0 {
      assert x % 2 == 0 && Mask(i) == 1;
    } else {
      SetFits(q, i - 1, n - 1);
      assert Mask(i) == 2 * Mask(i - 1);
    }
  }

  lemma {:induction false} SetBitAt(x: nat, i: nat, j: nat)
    requires !HasBit(x, i)
    ensures HasBit(x + Mask(i), j) <==> j == i || HasBit(x, j)
  {
    if i == 0 {
      assert (x + 1) / 2 == x / 2;
    } else {
      assert (x + Mask(i)) / 2 == x / 2 + Mask(i - 1) && (x + Mask(i)) % 2 == x % 2;
      if j > 0 {
        SetBitAt(x / 2, i - 1, j - 1);
      }
    }
  }

  // x &= ~(1 << i), on a byte that has bit `i`.
  lemma {:induction false} ClearOneBit(x: nat, i: nat)
    requires HasBit(x, i)
    ensures 0 <= x - Mask(i)
    ensures forall j: nat :: HasBit(x - Mask(i), j) <==> j != i && HasBit(x, j)
  {
    hide HasBit;
    BitCounts(x, i);
    forall j: nat
      ensures HasBit(x - Mask(i), j) <==> j != i && HasBit(x, j)
    {
      ClearBitAt(x, i, j);
    }
  }

  lemma {:induction false} BitCounts(x: nat, i: nat)
    requires HasBit(x, i)
    ensures Mask(i) <= x
  {
    if i > 0 {
      BitCounts(x / 2, i - 1);
    }
  }

  lemma {:induction false} ClearBitAt(x: nat, i: nat, j: nat)
    requires HasBit(x, i) && Mask(i) <= x
    ensures HasBit(x - Mask(i), j) <==> j != i && HasBit(x, j)
  {
    if i == 0 {
      assert (x - 1) / 2 == x / 2;
    } else {
      BitCounts(x / 2, i - 1);
      assert (x - Mask(i)) / 2 == x / 2 - Mask(i - 1) && (x - Mask(i)) % 2 == x % 2;
      if j > 0 {
        ClearBitAt(x / 2, i - 1, j - 1);
      }
    }
  }

  lemma ByteMask()
    ensures Mask(8) == 256
  {
    assert Mask(4) == 16;
  }

  // Bit `i` of a block of the free map: data[i / 8] & (1 << (i % 8)).
  predicate BlockBit(b: Block, i: nat)
    requires i < BPB
  {
    HasBit(b[i / 8], i % 8)
  }

  function WithBit(b: Block, i: nat): (c: Block)
    requires i < BPB && !BlockBit(b, i)
    ensures forall j :: 0 <= j < BPB ==> (BlockBit(c, j) <==> j == i || BlockBit(b, j))
  {
    ByteMask();
    SetOneBit(b[i / 8], i % 8, 8);
    b[i / 8 := b[i / 8] + Mask(i % 8)]
  }

  function WithoutBit(b: Block, i: nat): (c: Block)
    requires i < BPB && BlockBit(b, i)
    ensures forall j :: 0 <= j < BPB ==> (BlockBit(c, j) <==> j != i && BlockBit(b, j))
  {
    ClearOneBit(b[i / 8], i % 8);
    b[i / 8 := b[i / 8] - Mask(i % 8)]
  }

  // ---------- Words ----------

  const WORD: nat := 0x1_0000_0000

  function FourBytes(b0: int, b1: int, b2: int, b3: int): int {
    b0 + 256 * (b1 + 256 * (b2 + 256 * b3))
  }

  // ((uint*)data)[j]
  function Word(b: Block, j: nat): (w: nat)
    requires j < NINDIRECT
  {
    FourBytes(b[4 * j], b[4 * j + 1], b[4 * j + 2], b[4 * j + 3])
  }

  lemma Digits(w: nat)
    requires w < WORD
    ensures w / 256 / 256 / 256 < 256
    ensures FourBytes(w % 256, w / 256 % 256, w / 256 / 256 % 256, w / 256 / 256 / 256) == w
  {
  }

  function PutWord(b: Block, j: nat, w: nat): (c: Block)
    requires j < NINDIRECT && w < WORD
  {
    Digits(w);
    b[4 * j := w % 256][4 * j + 1 := w / 256 % 256][4 * j + 2 := w / 256 / 256 % 256][4 * j + 3 := w / 256 / 256 / 256]
  }

  function WithWord(b: Block, j: nat, w: nat): (c: Block)
    requires j < NINDIRECT && w < WORD
    ensures forall i :: 0 <= i < NINDIRECT ==> Word(c, i) == if i == j then w else Word(b, i)
  {
    PutWordAt(b, j, w);
    PutWord(b, j, w)
  }

  lemma PutWordAt(b: Block, j: nat, w: nat)
    requires j < NINDIRECT && w < WORD
    ensures forall i :: 0 <= i < NINDIRECT ==> Word(PutWord(b, j, w), i) == if i == j then w else Word(b, i)
  {
    var c := PutWord(b, j, w);
    assert c[4 * j] == w % 256 && c[4 * j + 1] == w / 256 % 256 && c[4 * j + 2] == w / 256 / 256 % 256
      && c[4 * j + 3] == w / 256 / 256 / 256;
    assert forall k :: 0 <= k < BSIZE && !(4 * j <= k < 4 * j + 4) ==> c[k] == b[k];
    hide PutWord, FourBytes;
    forall i | 0 <= i < NINDIRECT
      ensures Word(c, i) == if i == j then w else Word(b, i)
    {
      Digits(w);
    }
  }

  lemma ZeroWords()
    ensures forall j :: 0 <= j < NINDIRECT ==> Word(Zeroes(), j) == 0
  {
  }
}
