/** Blocks of BSIZE bytes, and the two ways fs.c looks inside them: bits of the free map and
    little-endian words of an indirect block. */
module FsBlocks {

  const BSIZE: int := 1024
  const BPB: int := 8192
  const NINDIRECT: int := 256

  type Block = b: seq<bv8> | |b| == BSIZE witness seq(BSIZE, _ => 0)

  const ZeroBlock: Block := seq(BSIZE, _ => 0)

  // ----- Bits -----

  /** 1 << k. */
  function Mask(k: int): bv8
    requires 0 <= k < 8
  {
    match k case 0 => 1 case 1 => 2 case 2 => 4 case 3 => 8 case 4 => 16 case 5 => 32 case 6 => 64 case _ => 128
  }

  predicate BitOf(x: bv8, k: int)
    requires 0 <= k < 8
  {
    x & Mask(k) != 0
  }

  lemma OrBit(x: bv8, k: int, j: int)
    requires 0 <= k < 8 && 0 <= j < 8
    ensures BitOf(x | Mask(k), j) <==> j == k || BitOf(x, j)
  {
  }

  lemma AndNotBit(x: bv8, k: int, j: int)
    requires 0 <= k < 8 && 0 <= j < 8
    ensures BitOf(x & !Mask(k), j) <==> j != k && BitOf(x, j)
  {
  }

  predicate Bit(b: Block, i: int)
    requires 0 <= i < BPB
  {
    BitOf(b[i / 8], i % 8)
  }

  function SetBit(b: Block, i: int): Block
    requires 0 <= i < BPB
  {
    b[i / 8 := b[i / 8] | Mask(i % 8)]
  }

  function ClearBit(b: Block, i: int): Block
    requires 0 <= i < BPB
  {
    b[i / 8 := b[i / 8] & !Mask(i % 8)]
  }

  lemma SetBitMeaning(b: Block, i: int, j: int)
    requires 0 <= i < BPB && 0 <= j < BPB
    ensures Bit(SetBit(b, i), j) <==> j == i || Bit(b, j)
  {
    OrBit(b[i / 8], i % 8, j % 8);
    hide BitOf;
  }

  lemma ClearBitMeaning(b: Block, i: int, j: int)
    requires 0 <= i < BPB && 0 <= j < BPB
    ensures Bit(ClearBit(b, i), j) <==> j != i && Bit(b, j)
  {
    AndNotBit(b[i / 8], i % 8, j % 8);
    hide BitOf;
  }

  // ----- Words -----

  predicate IsWord(w: int) { 0 <= w < 0x1_0000_0000 }

  function BitValue(x: bv8, k: int): (n: int)
    requires 0 <= k < 8
    ensures 0 <= n <= 1
  {
    if BitOf(x, k) then 1 else 0
  }

  /** The value of a byte. */
  function Val(x: bv8): (v: int)
    ensures 0 <= v < 0x100
  {
    BitValue(x, 0) + 2 * BitValue(x, 1) + 4 * BitValue(x, 2) + 8 * BitValue(x, 3) +
    16 * BitValue(x, 4) + 32 * BitValue(x, 5) + 64 * BitValue(x, 6) + 128 * BitValue(x, 7)
  }

  lemma ValIs(x: bv8)
    ensures Val(x) == x as int
  {
  }

  function Flag(n: int, m: bv8): bv8 { if n == 1 then m else 0 }

  /** The byte with the given bits, least significant first. */
  function Pack(n0: int, n1: int, n2: int, n3: int, n4: int, n5: int, n6: int, n7: int): bv8 {
    Flag(n0, 1) | Flag(n1, 2) | Flag(n2, 4) | Flag(n3, 8) | Flag(n4, 16) | Flag(n5, 32) | Flag(n6, 64) | Flag(n7, 128)
  }

  /** The byte of a value. */
  function Byte(v: int): bv8
    requires 0 <= v < 0x100
  {
    var h1 := v / 2; var h2 := h1 / 2; var h3 := h2 / 2; var h4 := h3 / 2; var h5 := h4 / 2; var h6 := h5 / 2;
    Pack(v % 2, h1 % 2, h2 % 2, h3 % 2, h4 % 2, h5 % 2, h6 % 2, h6 / 2)
  }

  predicate IsBit(n: int) { 0 <= n <= 1 }

  lemma PackBits(n0: int, n1: int, n2: int, n3: int, n4: int, n5: int, n6: int, n7: int)
    requires IsBit(n0) && IsBit(n1) && IsBit(n2) && IsBit(n3) && IsBit(n4) && IsBit(n5) && IsBit(n6) && IsBit(n7)
    ensures var x := Pack(n0, n1, n2, n3, n4, n5, n6, n7);
            BitValue(x, 0) == n0 && BitValue(x, 1) == n1 && BitValue(x, 2) == n2 && BitValue(x, 3) == n3 &&
            BitValue(x, 4) == n4 && BitValue(x, 5) == n5 && BitValue(x, 6) == n6 && BitValue(x, 7) == n7
  {
  }

  lemma Half(v: int)
    requires 0 <= v
    ensures v == 2 * (v / 2) + v % 2 && IsBit(v % 2) && 0 <= v / 2
  {
  }

  lemma ByteBack(v: int)
    requires 0 <= v < 0x100
    ensures Val(Byte(v)) == v
  {
    hide Pack, BitValue;
    var h1 := v / 2; var h2 := h1 / 2; var h3 := h2 / 2; var h4 := h3 / 2; var h5 := h4 / 2; var h6 := h5 / 2;
    Half(v); Half(h1); Half(h2); Half(h3); Half(h4); Half(h5); Half(h6);
    PackBits(v % 2, h1 % 2, h2 % 2, h3 % 2, h4 % 2, h5 % 2, h6 % 2, h6 / 2);
  }

  function Word(b: Block, j: int): (w: int)
    requires 0 <= j < NINDIRECT
    ensures IsWord(w)
  {
    Val(b[4 * j]) + 0x100 * Val(b[4 * j + 1]) + 0x1_0000 * Val(b[4 * j + 2]) + 0x100_0000 * Val(b[4 * j + 3])
  }

  function SetWord(b: Block, j: int, w: int): Block
    requires 0 <= j < NINDIRECT && IsWord(w)
  {
    var q1 := w / 0x100; var q2 := q1 / 0x100; var q3 := q2 / 0x100;
    b[4 * j := Byte(w % 0x100)][4 * j + 1 := Byte(q1 % 0x100)][4 * j + 2 := Byte(q2 % 0x100)][4 * j + 3 := Byte(q3)]
  }

  lemma SetWordMeaning(b: Block, j: int, w: int, i: int)
    requires 0 <= j < NINDIRECT && 0 <= i < NINDIRECT && IsWord(w)
    ensures Word(SetWord(b, j, w), i) == if i == j then w else Word(b, i)
  {
    hide Val, Byte;
    if i == j {
      var q1 := w / 0x100; var q2 := q1 / 0x100; var q3 := q2 / 0x100;
      ByteBack(w % 0x100);
      ByteBack(q1 % 0x100);
      ByteBack(q2 % 0x100);
      ByteBack(q3);
    }
  }

  lemma ValZero()
    ensures Val(0) == 0
  {
    PackBits(0, 0, 0, 0, 0, 0, 0, 0);
    assert Pack(0, 0, 0, 0, 0, 0, 0, 0) == 0;
    hide Pack, BitValue;
  }

  lemma ZeroWords(j: int)
    requires 0 <= j < NINDIRECT
    ensures Word(ZeroBlock, j) == 0
  {
    ValZero();
    hide Val;
  }
}
