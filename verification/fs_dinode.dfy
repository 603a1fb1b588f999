/** Disk inodes as bytes: iupdate copies an inode into its place of an inode block, ilock copies it back. */
module FsDinode {
  import opened FsBlocks
  import opened FsImage

  /** struct dinode: four shorts, then words. */
  datatype Dinode = Dinode(kind: int, major: int, minor: int, nlink: int, size: int, addrs: seq<int>)

  predicate IsShort(v: int) { -0x8000 <= v < 0x8000 }

  predicate Fits(d: Dinode) {
    && IsShort(d.kind) && IsShort(d.major) && IsShort(d.minor) && IsShort(d.nlink) && IsWord(d.size)
    && |d.addrs| == NDIRECT + 1 && forall k :: 0 <= k < |d.addrs| ==> IsWord(d.addrs[k])
  }

  // ----- Shorts in two's complement, two to a word -----

  function Low16(v: int): (u: int)
    requires IsShort(v)
    ensures 0 <= u < 0x1_0000
  {
    if v < 0 then v + 0x1_0000 else v
  }

  function Signed(u: int): (v: int)
    requires 0 <= u < 0x1_0000
    ensures IsShort(v) && Low16(v) == u
  {
    if u < 0x8000 then u else u - 0x1_0000
  }

  function Pair(lo: int, hi: int): (w: int)
    requires IsShort(lo) && IsShort(hi)
    ensures IsWord(w) && Signed(w % 0x1_0000) == lo && Signed(w / 0x1_0000) == hi
  {
    Low16(lo) + 0x1_0000 * Low16(hi)
  }

  // ----- A dinode in its block -----

  /** Word j of place s; a block has IPB places of 16 words. */
  function At(s: int, j: int): (i: int)
    requires 0 <= s < IPB && 0 <= j < 16
    ensures 0 <= i < NINDIRECT
  {
    16 * s + j
  }

  function Addrs(b: Block, s: int): (a: seq<int>)
    requires 0 <= s < IPB
    ensures |a| == NDIRECT + 1 && forall k :: 0 <= k < |a| ==> a[k] == Word(b, At(s, 3 + k)) && IsWord(a[k])
  {
    seq(NDIRECT + 1, k requires 0 <= k < NDIRECT + 1 => Word(b, At(s, 3 + k)))
  }

  /** What ilock reads. */
  function Load(b: Block, s: int): (d: Dinode)
    requires 0 <= s < IPB
    ensures Fits(d)
  {
    var w0, w1 := Word(b, At(s, 0)), Word(b, At(s, 1));
    Dinode(Signed(w0 % 0x1_0000), Signed(w0 / 0x1_0000), Signed(w1 % 0x1_0000), Signed(w1 / 0x1_0000),
           Word(b, At(s, 2)), Addrs(b, s))
  }

  // ----- The same, byte by byte -----

  /** Two bytes from byte o on, the lower one first, as a short. */
  function ShortAt(b: Block, o: int): int
    requires 0 <= o && o + 2 <= BSIZE
  {
    Signed(Val(b[o]) + 0x100 * Val(b[o + 1]))
  }

  function LongAt(b: Block, o: int): int
    requires 0 <= o && o + 4 <= BSIZE
  {
    Val(b[o]) + 0x100 * Val(b[o + 1]) + 0x1_0000 * Val(b[o + 2]) + 0x100_0000 * Val(b[o + 3])
  }

  lemma TwoShorts(b: Block, o: int)
    requires 0 <= o && o + 4 <= BSIZE
    ensures ShortAt(b, o) == Signed(LongAt(b, o) % 0x1_0000) && ShortAt(b, o + 2) == Signed(LongAt(b, o) / 0x1_0000)
  {
    hide Val, Signed;
    var lo, hi := Val(b[o]) + 0x100 * Val(b[o + 1]), Val(b[o + 2]) + 0x100 * Val(b[o + 3]);
    Halves(lo, hi, LongAt(b, o));
  }

  lemma Halves(lo: int, hi: int, n: int)
    requires 0 <= lo < 0x1_0000 && n == lo + 0x1_0000 * hi
    ensures n % 0x1_0000 == lo && n / 0x1_0000 == hi
  {
  }

  /** A place has 64 bytes: type, major, minor and nlink two bytes each, then size and the addresses, four each. */
  lemma Layout(b: Block, s: int)
    requires 0 <= s < IPB
    ensures var d, o := Load(b, s), 64 * s;
            && o + 64 <= BSIZE && d.kind == ShortAt(b, o) && d.major == ShortAt(b, o + 2) && d.minor == ShortAt(b, o + 4)
            && d.nlink == ShortAt(b, o + 6) && d.size == LongAt(b, o + 8)
            && forall k :: 0 <= k < NDIRECT + 1 ==> d.addrs[k] == LongAt(b, o + 12 + 4 * k)
  {
    hide Val, Signed, ShortAt, LongAt, Word, At, Addrs;
    TwoShorts(b, 64 * s);
    TwoShorts(b, 64 * s + 4);
    WordAt(b, s, 0, 64 * s);
    WordAt(b, s, 1, 64 * s + 4);
    WordAt(b, s, 2, 64 * s + 8);
    forall k | 0 <= k < NDIRECT + 1 ensures Load(b, s).addrs[k] == LongAt(b, 64 * s + 12 + 4 * k) {
      WordAt(b, s, 3 + k, 64 * s + 12 + 4 * k);
    }
  }

  lemma WordAt(b: Block, s: int, j: int, o: int)
    requires 0 <= s < IPB && 0 <= j < 16 && o == 64 * s + 4 * j
    ensures o + 4 <= BSIZE && Word(b, At(s, j)) == LongAt(b, o)
  {
    hide Val;
    assert 4 * At(s, j) == o;
  }

  /** The words of the place hold d. */
  ghost predicate Holds(b: Block, s: int, d: Dinode)
    requires 0 <= s < IPB && Fits(d)
  {
    && Word(b, At(s, 0)) == Pair(d.kind, d.major) && Word(b, At(s, 1)) == Pair(d.minor, d.nlink) && Word(b, At(s, 2)) == d.size
    && forall k :: 0 <= k < NDIRECT + 1 ==> Word(b, At(s, 3 + k)) == d.addrs[k]
  }

  lemma LoadHolds(b: Block, s: int, d: Dinode)
    requires 0 <= s < IPB && Fits(d) && Holds(b, s, d)
    ensures Load(b, s) == d
  {
    hide Word;
  }

  /** Nothing but place s has changed. */
  ghost predicate OnlyPlace(b0: Block, b: Block, s: int) {
    forall j :: 0 <= j < NINDIRECT && !(16 * s <= j < 16 * s + 16) ==> Word(b, j) == Word(b0, j)
  }

  lemma OthersLoad(b0: Block, b: Block, s: int, x: int)
    requires 0 <= s < IPB && 0 <= x < IPB && x != s && OnlyPlace(b0, b, s)
    ensures Load(b, x) == Load(b0, x)
  {
    hide Word;
    assert forall j :: 0 <= j < 16 ==> Word(b, At(x, j)) == Word(b0, At(x, j));
  }

  lemma Stored(b: Block, s: int, j: int, w: int)
    requires 0 <= s < IPB && 0 <= j < 16 && IsWord(w)
    ensures forall i :: 0 <= i < NINDIRECT ==> Word(SetWord(b, At(s, j), w), i) == if i == At(s, j) then w else Word(b, i)
  {
    hide Word, SetWord;
    forall i | 0 <= i < NINDIRECT ensures Word(SetWord(b, At(s, j), w), i) == if i == At(s, j) then w else Word(b, i) {
      SetWordMeaning(b, At(s, j), w, i);
    }
  }

  /** The assignments of iupdate to *dip, and the memmove of the addresses. */
  method Store(b0: Block, s: int, d: Dinode) returns (b: Block)
    requires 0 <= s < IPB && Fits(d)
    ensures Load(b, s) == d
    ensures forall x :: 0 <= x < IPB && x != s ==> Load(b, x) == Load(b0, x)
  {
    hide Word, SetWord;
    b := SetWord(b0, At(s, 0), Pair(d.kind, d.major));
    Stored(b0, s, 0, Pair(d.kind, d.major));
    Stored(b, s, 1, Pair(d.minor, d.nlink));
    b := SetWord(b, At(s, 1), Pair(d.minor, d.nlink));
    Stored(b, s, 2, d.size);
    b := SetWord(b, At(s, 2), d.size);
    var k := 0;
    while k < NDIRECT + 1
      invariant 0 <= k <= NDIRECT + 1 && OnlyPlace(b0, b, s)
      invariant Word(b, At(s, 0)) == Pair(d.kind, d.major) && Word(b, At(s, 1)) == Pair(d.minor, d.nlink) && Word(b, At(s, 2)) == d.size
      invariant forall i :: 0 <= i < k ==> Word(b, At(s, 3 + i)) == d.addrs[i]
    {
      Stored(b, s, 3 + k, d.addrs[k]);
      b := SetWord(b, At(s, 3 + k), d.addrs[k]);
      k := k + 1;
    }
    LoadHolds(b, s, d);
    forall x | 0 <= x < IPB && x != s ensures Load(b, x) == Load(b0, x) {
      OthersLoad(b0, b, s, x);
    }
  }

  // ----- The inode blocks of the disk -----

  /** The disk inode that ilock reads for inode i. */
  function OnDisk(sb: Super, store: seq<Block>, i: int): Dinode
    requires sb.Valid() && |store| == sb.size && 0 <= i < sb.ninodes
  {
    InodeBlock(sb, i);
    Load(store[IBlock(sb, i)], i % 16)
  }

  lemma InodeBlock(sb: Super, i: int)
    requires sb.Valid() && 0 <= i < sb.ninodes
    ensures 0 < sb.inodestart <= IBlock(sb, i) < sb.bmapstart && IBlock(sb, i) < sb.datastart <= sb.size
  {
  }

  /** iupdate: inode i is on the disk, every other inode is as it was, and so is every block but the one of i. */
  method Iupdate(sb: Super, store: seq<Block>, i: int, d: Dinode) returns (after: seq<Block>)
    requires sb.Valid() && |store| == sb.size && 0 <= i < sb.ninodes && Fits(d)
    ensures |after| == |store| && OnDisk(sb, after, i) == d
    ensures forall x :: 0 <= x < sb.ninodes && x != i ==> OnDisk(sb, after, x) == OnDisk(sb, store, x)
    ensures forall b :: 0 <= b < |store| && b != IBlock(sb, i) ==> after[b] == store[b]
  {
    hide Load, OnDisk, IBlock, Super.Valid;
    InodeBlock(sb, i);
    var b := Store(store[IBlock(sb, i)], i % 16, d);
    after := store[IBlock(sb, i) := b];
    OwnInode(sb, store, i, b);
    forall x | 0 <= x < sb.ninodes && x != i ensures OnDisk(sb, after, x) == OnDisk(sb, store, x) {
      OtherInode(sb, store, i, b, x);
    }
  }

  lemma OwnInode(sb: Super, store: seq<Block>, i: int, b: Block)
    requires sb.Valid() && |store| == sb.size && 0 <= i < sb.ninodes && 0 <= IBlock(sb, i) < |store|
    ensures OnDisk(sb, store[IBlock(sb, i) := b], i) == Load(b, i % 16)
  {
    hide Load;
  }

  /** Inode x lies in another block, or at another place of that block. */
  lemma OtherInode(sb: Super, store: seq<Block>, i: int, b: Block, x: int)
    requires sb.Valid() && |store| == sb.size && 0 <= i < sb.ninodes && 0 <= IBlock(sb, i) < |store|
    requires forall y :: 0 <= y < IPB && y != i % 16 ==> Load(b, y) == Load(store[IBlock(sb, i)], y)
    requires 0 <= x < sb.ninodes && x != i
    ensures OnDisk(sb, store[IBlock(sb, i) := b], x) == OnDisk(sb, store, x)
  {
    hide Load;
    InodeBlock(sb, x);
    assert IBlock(sb, x) == IBlock(sb, i) ==> x % 16 != i % 16;
  }

  /** Writing an inode block leaves the free map, the owners and the contents of every file alone. */
  lemma InodeBlocksApart(sb: Super, im: Image, owner: map<int, (int, int)>, i: int, b: Block)
    requires Consistent(sb, im, owner) && 0 <= i < sb.ninodes
    ensures 0 <= IBlock(sb, i) < |im.store|
    ensures var im' := im.(store := im.store[IBlock(sb, i) := b]); Consistent(sb, im', owner) && SameBytes(im, im')
  {
    InodeBlock(sb, i);
    TreeIgnores(sb, im, owner, IBlock(sb, i), b);
    BytesIgnore(sb, im, owner, IBlock(sb, i), b);
    hide Slot, Bit, SameBytes, Tree;
    var after := im.store[IBlock(sb, i) := b];
    forall x | 0 <= x < sb.size ensures Marked(sb, after, x) <==> Marked(sb, im.store, x) {
      assert BBlock(sb, x) != IBlock(sb, i);
    }
  }
}
