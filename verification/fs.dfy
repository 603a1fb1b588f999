/** Block allocation, block maps, and reading and writing files: kernel/fs.c, and filewrite of
    kernel/file.c.  `store[b]` is what bread(b) returns, that is, the latest contents of block b. */
module Fs {
  import opened FsBlocks
  import opened FsImage
  import opened FsSpace

  const UINT: int := 0x1_0000_0000
  const MAXOPBLOCKS: int := 10

  ghost predicate SameSlots(im: Image, im': Image) {
    |im'.inodes| == |im.inodes| && forall i, k :: Slot(im', i, k) == Slot(im, i, k)
  }

  /** No slot in use is moved. */
  ghost predicate SlotsStay(im: Image, im': Image) {
    && |im'.inodes| == |im.inodes|
    && forall i, k :: Slot(im, i, k) != 0 ==> Slot(im', i, k) == Slot(im, i, k)
  }

  lemma ScanBit(g: int, bi: int, c: int)
    requires 0 <= bi < BPB && c == g * 8192 + bi
    ensures c / 8192 == g * 8192 / 8192 == g && c % 8192 == bi
  {
  }

  lemma BallocImage(sb: Super, im: Image, owner: map<int, (int, int)>, marked: set<int>, b: int)
    requires Tree(sb, im, owner) && MapShows(sb, im.store, marked) && owner.Keys <= marked
    requires sb.datastart <= b < sb.size && b !in marked
    ensures var im' := im.(store := MarkIn(sb, im.store, b)[b := ZeroBlock]);
            Tree(sb, im', owner) && MapShows(sb, im'.store, marked + {b}) && SameSlots(im, im') && SameBytes(im, im')
  {
    hide Slot, Marked, SetBit;
    var mid := im.(store := MarkIn(sb, im.store, b));
    MarkBit(sb, im.store, marked, b);
    TreeIgnores(sb, im, owner, BBlock(sb, b), mid.store[BBlock(sb, b)]);
    BytesIgnore(sb, im, owner, BBlock(sb, b), mid.store[BBlock(sb, b)]);
    MapIgnores(sb, mid.store, marked + {b}, b, ZeroBlock);
    TreeIgnores(sb, mid, owner, b, ZeroBlock);
    BytesIgnore(sb, mid, owner, b, ZeroBlock);
    forall i, k ensures Slot(mid.(store := mid.store[b := ZeroBlock]), i, k) == Slot(im, i, k) {
      SlotsIgnore(sb, im, owner, BBlock(sb, b), mid.store[BBlock(sb, b)], i, k);
      SlotsIgnore(sb, mid, owner, b, ZeroBlock, i, k);
    }
  }

  lemma BfreeImage(sb: Super, im: Image, owner: map<int, (int, int)>, marked: set<int>, b: int)
    requires Tree(sb, im, owner) && MapShows(sb, im.store, marked) && b in marked
    ensures sb.Valid() && |im.store| == sb.size && sb.datastart <= b < sb.size && 0 <= BBlock(sb, b) < sb.datastart
    ensures Marked(sb, im.store, b)
    ensures var im' := im.(store := UnmarkIn(sb, im.store, b));
            Tree(sb, im', owner) && MapShows(sb, im'.store, marked - {b}) && SameSlots(im, im') && SameBytes(im, im')
  {
    hide Slot, Marked, ClearBit;
    var im' := im.(store := UnmarkIn(sb, im.store, b));
    MarkBit(sb, im.store, marked, b);
    TreeIgnores(sb, im, owner, BBlock(sb, b), im'.store[BBlock(sb, b)]);
    BytesIgnore(sb, im, owner, BBlock(sb, b), im'.store[BBlock(sb, b)]);
    forall i, k ensures Slot(im', i, k) == Slot(im, i, k) {
      SlotsIgnore(sb, im, owner, BBlock(sb, b), im'.store[BBlock(sb, b)], i, k);
    }
  }

  /** A link made after an allocation. */
  lemma Linked(im: Image, mid: Image, im': Image, i: int, k: int, b: int)
    requires SameSlots(im, mid) && SameBytes(im, mid) && OnlySlot(mid, im', i, k, b) && SameBytes(mid, im')
    requires SlotRange(im, i, k) && Slot(im, i, k) == 0
    ensures SameBytes(im, im') && SlotsStay(im, im') && OnlySlot(im, im', i, k, b)
  {
    assert forall j, l :: SlotRange(im, j, l) <==> SlotRange(mid, j, l);
    assert forall j, l :: !SlotRange(im, j, l) ==> Slot(im, j, l) == 0;
    hide Slot, SlotRange, ByteAt;
  }

  lemma StayStay(im: Image, mid: Image, im': Image)
    requires SameBytes(im, mid) && SameBytes(mid, im') && SlotsStay(im, mid) && SlotsStay(mid, im')
    ensures SameBytes(im, im') && SlotsStay(im, im')
  {
    hide Slot, ByteAt;
  }

  lemma SameIsStay(im: Image, im': Image)
    requires SameSlots(im, im')
    ensures SlotsStay(im, im')
    ensures forall i, k :: Slot(im', i, k) == Slot(im, i, k)
  {
    hide Slot;
  }

  lemma Unmoved(im: Image)
    ensures SameSlots(im, im) && SlotsStay(im, im) && SameBytes(im, im)
  {
    hide Slot, ByteAt;
  }

  /** The bitmap block that an allocation of addr writes. */
  ghost function MapBlockOf(sb: Super, addr: int): (r: set<int>)
    ensures |r| <= if addr != 0 then 1 else 0
  {
    if addr != 0 then {BBlock(sb, addr)} else {}
  }

  function NonZero(b: int): set<int> { if b != 0 then {b} else {} }

  // ----- What one call of bmap may do -----

  ghost predicate NoneFree(sb: Super, marked: set<int>) { NoneFreeBelow(sb, marked, sb.size) }

  ghost predicate NoneFreeBelow(sb: Super, marked: set<int>, n: int) {
    forall c :: sb.datastart <= c < n ==> c in marked
  }

  lemma NoneFreeStep(sb: Super, marked: set<int>, n: int)
    requires NoneFreeBelow(sb, marked, n) && (n < sb.datastart || n in marked)
    ensures NoneFreeBelow(sb, marked, n + 1)
  {
  }

  predicate Zeroed(b: Block) { forall i :: 0 <= i < BSIZE ==> b[i] == 0 }

  lemma ZeroedIsZero(b: Block)
    ensures Zeroed(b) <==> b == ZeroBlock
  {
  }

  datatype Snap = Snap(inodes: seq<Inode>, store: seq<Block>, owner: map<int, (int, int)>,
                       marked: set<int>, logged: set<int>)

  ghost function ImageOf(s: Snap): Image { Image(s.inodes, s.store) }

  /** Consistent, apart from holes. */
  ghost predicate Sound(sb: Super, s: Snap) {
    Tree(sb, ImageOf(s), s.owner) && MapShows(sb, s.store, s.marked) && s.marked == s.owner.Keys
  }

  ghost function IndirectOf(s: Snap, ip: int): set<int> { NonZero(Slot(ImageOf(s), ip, NDIRECT)) }

  /** Slot k of inode ip now holds addr; files read the same, nothing in use moved, and the log holds
      at most the bitmap blocks `maps`, the new block and the indirect block more than before. */
  ghost predicate Provided(sb: Super, s: Snap, t: Snap, ip: int, k: int, addr: int, maps: set<int>) {
    && Sound(sb, t) && SameBytes(ImageOf(s), ImageOf(t)) && SlotsStay(ImageOf(s), ImageOf(t))
    && 0 <= ip < |s.inodes| == |t.inodes|
    && t.inodes == s.inodes[ip := t.inodes[ip]] && t.inodes[ip].size == s.inodes[ip].size
    && addr == Slot(ImageOf(t), ip, k)
    && (addr == 0 ==> NoneFree(sb, t.marked))
    && (Slot(ImageOf(s), ip, k) != 0 ==> t == s)
    && s.logged <= t.logged && t.logged <= s.logged + maps + NonZero(addr) + IndirectOf(t, ip)
    && (Slot(ImageOf(s), ip, NDIRECT) == 0 ==> IndirectOf(t, ip) <= t.logged)
  }

  /** Every block whose contents differ between s and t is in the log, but for those in `but`. */
  ghost predicate ChangesLogged(s: Snap, t: Snap, but: set<int>) {
    && |t.store| == |s.store| && s.logged <= t.logged
    && forall b :: 0 <= b < |s.store| && t.store[b] != s.store[b] ==> b in t.logged || b in but
  }

  lemma NoChanges(s: Snap)
    ensures ChangesLogged(s, s, {})
  {
  }

  lemma ChangesThen(s: Snap, m: Snap, t: Snap, but: set<int>)
    requires ChangesLogged(s, m, {}) && ChangesLogged(m, t, but)
    ensures ChangesLogged(s, t, but)
  {
  }

  /** The block that byte o of the file of ip lies in. */
  function BlockAt(im: Image, ip: int, o: int): int { Slot(im, ip, FileSlot(o / 1024)) }

  function Only(c: bool, b: int): set<int> { if c then {b} else {} }

  /** What balloc has done to s, without the link. */
  ghost predicate Allocated(sb: Super, s: Snap, t: Snap, addr: int) {
    && Tree(sb, ImageOf(t), t.owner) && MapShows(sb, t.store, t.marked)
    && SameBytes(ImageOf(s), ImageOf(t)) && SameSlots(ImageOf(s), ImageOf(t))
    && t.owner == s.owner && t.inodes == s.inodes
    && (addr == 0 ==> t == s && NoneFree(sb, t.marked))
    && (addr != 0 ==> sb.datastart <= addr < sb.size && addr !in s.marked && t.marked == s.marked + {addr})
    && (addr != 0 ==> addr < |t.store| && Zeroed(t.store[addr]) && t.logged == s.logged + {BBlock(sb, addr), addr})
  }

  // ----- Room for a write -----

  /** One allocation for slot k: a free block fills it and is logged, or nothing happens. */
  ghost predicate Took(sb: Super, s: Snap, t: Snap, ip: int, k: int, addr: int) {
    if addr == 0 then t == s
    else
      && OnlySlot(ImageOf(s), ImageOf(t), ip, k, addr) && SlotRange(ImageOf(s), ip, k) && Slot(ImageOf(s), ip, k) == 0
      && sb.datastart <= addr < sb.size && addr !in s.marked && t.marked == s.marked + {addr} && addr in t.logged
  }

  ghost predicate InMap(sb: Super, maps: set<int>) { forall b :: b in maps ==> b < sb.datastart }

  ghost function SpareOf(sb: Super, s: Snap, ip: int, c: int): int { Spare(sb, ImageOf(s), s.marked, ip, c) }

  /** The disk block of file block c. */
  ghost function FileBlock(s: Snap, ip: int, c: int): int { Slot(ImageOf(s), ip, FileSlot(c)) }

  /** Between s and t no file block but bn has come, and the balance for every block from bn on is as it was. */
  ghost predicate Even(sb: Super, s: Snap, t: Snap, ip: int, bn: int) {
    && (forall c :: bn <= c ==> SpareOf(sb, t, ip, c) == SpareOf(sb, s, ip, c))
    && forall c :: 0 <= c && c != bn ==> FileBlock(t, ip, c) == FileBlock(s, ip, c)
  }

  lemma EvenSame(sb: Super, s: Snap, ip: int, bn: int)
    ensures Even(sb, s, s, ip, bn)
  {
    hide SpareOf, FileBlock;
  }

  lemma EvenThen(sb: Super, s: Snap, m: Snap, t: Snap, ip: int, bn: int)
    requires Even(sb, s, m, ip, bn) && Even(sb, m, t, ip, bn)
    ensures Even(sb, s, t, ip, bn)
  {
    hide SpareOf, FileBlock;
  }

  lemma TookEven(sb: Super, s: Snap, t: Snap, ip: int, k: int, addr: int, bn: int)
    requires Took(sb, s, t, ip, k, addr) && 0 < sb.datastart && 0 <= bn && (k == FileSlot(bn) || (k == NDIRECT && bn >= NDIRECT))
    ensures Even(sb, s, t, ip, bn)
  {
    hide Slot, OnlySlot, SlotRange, Spare, FileSlot;
    if addr == 0 {
      EvenSame(sb, s, ip, bn);
    } else {
      forall c | bn <= c ensures SpareOf(sb, t, ip, c) == SpareOf(sb, s, ip, c) {
        SpareFilled(sb, ImageOf(s), ImageOf(t), s.marked, ip, k, addr, bn, c);
      }
      SlotsBut(ImageOf(s), ImageOf(t), ip, k, addr);
      NeverIndirect();
      OtherSlots(bn);
    }
  }

  lemma InMapBlock(sb: Super, addr: int)
    requires sb.Valid() && 0 <= addr < sb.size
    ensures InMap(sb, MapBlockOf(sb, addr))
  {
  }

  lemma AddrProvided(sb: Super, s: Snap, m: Snap, ip: int, k: int, addr: int)
    requires Sound(sb, s) && Allocated(sb, s, m, addr)
    requires 0 <= ip < |s.inodes| && 0 <= k <= NDIRECT && Slot(ImageOf(s), ip, k) == 0
    ensures |m.inodes[ip].addrs| == NDIRECT + 1
    ensures addr == 0 ==> Provided(sb, s, m, ip, k, 0, MapBlockOf(sb, 0))
    ensures addr != 0 ==> var t := m.(inodes := SetAddr(ImageOf(m), ip, k, addr).inodes, owner := m.owner[addr := (ip, k)]);
              Provided(sb, s, t, ip, k, addr, MapBlockOf(sb, addr)) && Took(sb, s, t, ip, k, addr)
  {
    hide Word, SetWord, ByteAt;
    assert SlotRange(ImageOf(s), ip, k);
    SameIsStay(ImageOf(s), ImageOf(m));
    if addr != 0 {
      assert m.store[addr] == ZeroBlock by {
        ZeroedIsZero(m.store[addr]);
      }
      var im' := SetAddr(ImageOf(m), ip, k, addr);
      LinkAddr(sb, ImageOf(m), m.owner, ip, k, addr);
      hide Slot, Tree, MapShows;
      Linked(ImageOf(s), ImageOf(m), im', ip, k, addr);
      hide SameBytes, SlotsStay, SameSlots, OnlySlot, SlotRange;
      var t := m.(inodes := im'.inodes, owner := m.owner[addr := (ip, k)]);
      assert ImageOf(t) == im';
    }
  }

  /** a[j] = addr; log_write(bp). */
  ghost function EntrySnap(m: Snap, ip: int, j: int, addr: int): Snap
    requires 0 <= ip < |m.inodes| && |m.inodes[ip].addrs| == NDIRECT + 1 && 0 <= j < NINDIRECT
    requires 0 < m.inodes[ip].addrs[NDIRECT] < |m.store| && IsWord(addr)
  {
    m.(store := SetEntry(ImageOf(m), ip, j, addr).store, owner := m.owner[addr := (ip, NDIRECT + 1 + j)],
       logged := m.logged + {m.inodes[ip].addrs[NDIRECT]})
  }

  lemma EntryProvided(sb: Super, s: Snap, m: Snap, ip: int, j: int, addr: int)
    requires Sound(sb, s) && Allocated(sb, s, m, addr)
    requires 0 <= ip < |s.inodes| && 0 <= j < NINDIRECT && Slot(ImageOf(s), ip, NDIRECT) != 0
    requires Slot(ImageOf(s), ip, NDIRECT + 1 + j) == 0
    ensures |m.inodes[ip].addrs| == NDIRECT + 1 && m.inodes[ip].addrs[NDIRECT] == Slot(ImageOf(s), ip, NDIRECT)
    ensures 0 < m.inodes[ip].addrs[NDIRECT] < |m.store| && IsWord(addr)
    ensures addr == 0 ==> Provided(sb, s, m, ip, NDIRECT + 1 + j, 0, MapBlockOf(sb, 0))
    ensures addr != 0 ==> 0 < addr && Provided(sb, s, EntrySnap(m, ip, j, addr), ip, NDIRECT + 1 + j, addr, MapBlockOf(sb, addr))
    ensures addr != 0 ==> Took(sb, s, EntrySnap(m, ip, j, addr), ip, NDIRECT + 1 + j, addr)
  {
    hide Word, SetWord, ByteAt;
    assert SlotRange(ImageOf(s), ip, NDIRECT) && SlotRange(ImageOf(s), ip, NDIRECT + 1 + j);
    SameIsStay(ImageOf(s), ImageOf(m));
    if addr != 0 {
      assert m.store[addr] == ZeroBlock by {
        ZeroedIsZero(m.store[addr]);
      }
      var ind := m.inodes[ip].addrs[NDIRECT];
      var im' := SetEntry(ImageOf(m), ip, j, addr);
      LinkEntry(sb, ImageOf(m), m.owner, ip, j, addr);
      hide Slot, Tree, SameSlots, MapShows;
      MapIgnores(sb, m.store, m.marked, ind, im'.store[ind]);
      Linked(ImageOf(s), ImageOf(m), im', ip, NDIRECT + 1 + j, addr);
      hide SameBytes, SlotsStay, OnlySlot, SlotRange;
      assert ImageOf(EntrySnap(m, ip, j, addr)) == im';
    }
  }

  lemma ProvidedAlready(sb: Super, s: Snap, ip: int, k: int)
    requires Sound(sb, s) && 0 <= ip < |s.inodes| && Slot(ImageOf(s), ip, k) != 0
    ensures Provided(sb, s, s, ip, k, Slot(ImageOf(s), ip, k), {})
  {
    Unmoved(ImageOf(s));
    hide Sound, SameBytes, SlotsStay, Slot;
  }

  lemma ProvidedGist(sb: Super, s: Snap, t: Snap, ip: int, k: int, addr: int, maps: set<int>)
    requires Provided(sb, s, t, ip, k, addr, maps)
    ensures Sound(sb, t) && |t.inodes| == |s.inodes| && addr == Slot(ImageOf(t), ip, k)
    ensures Slot(ImageOf(s), ip, NDIRECT) != 0 ==> Slot(ImageOf(t), ip, NDIRECT) == Slot(ImageOf(s), ip, NDIRECT)
    ensures Slot(ImageOf(s), ip, k) != 0 ==> t == s
  {
    hide Slot, SameBytes, Sound;
  }

  lemma ProvidedThen(sb: Super, s: Snap, m: Snap, t: Snap, ip: int, k: int, ind: int, addr: int, maps: set<int>, more: set<int>)
    requires Provided(sb, s, m, ip, NDIRECT, ind, maps) && ind != 0
    requires Provided(sb, m, t, ip, k, addr, more)
    requires Slot(ImageOf(s), ip, k) != 0 ==> s == m
    ensures Provided(sb, s, t, ip, k, addr, maps + more)
  {
    StayStay(ImageOf(s), ImageOf(m), ImageOf(t));
    assert Slot(ImageOf(t), ip, NDIRECT) == ind;
    hide Sound, SameBytes, SlotsStay, Slot;
  }

  lemma ProvidedNoIndirect(sb: Super, s: Snap, m: Snap, ip: int, j: int)
    requires Provided(sb, s, m, ip, NDIRECT, 0, MapBlockOf(sb, 0)) && Sound(sb, s) && Slot(ImageOf(s), ip, NDIRECT) == 0
    requires 0 <= j < NINDIRECT
    ensures Slot(ImageOf(s), ip, NDIRECT + 1 + j) == 0
    ensures Provided(sb, s, m, ip, NDIRECT + 1 + j, 0, MapBlockOf(sb, 0))
  {
    hide Word;
    assert SlotRange(ImageOf(s), ip, NDIRECT) && SlotRange(ImageOf(m), ip, NDIRECT);
    hide SameBytes, SlotsStay, MapShows;
  }

  // ----- Writing file data -----

  lemma DataBlockAlone(sb: Super, s: Snap, ip: int, bn: int, b: int, i: int, c: int)
    requires Sound(sb, s) && 0 <= bn && 0 <= c && b == Slot(ImageOf(s), ip, FileSlot(bn)) && b != 0
    requires Slot(ImageOf(s), i, FileSlot(c)) == b
    ensures i == ip && c == bn && sb.datastart <= b < sb.size
  {
    assert SlotRange(ImageOf(s), ip, FileSlot(bn)) && SlotRange(ImageOf(s), i, FileSlot(c));
    hide Slot;
  }

  /** New contents for one block of a file show in that file block and nowhere else. */
  lemma WriteData(sb: Super, s: Snap, ip: int, bn: int, b: int, v: Block)
    requires Sound(sb, s) && 0 <= bn && b == Slot(ImageOf(s), ip, FileSlot(bn)) && b != 0
    ensures 0 < b < |s.store|
    ensures var t := s.(store := s.store[b := v]);
            && Sound(sb, t) && SameSlots(ImageOf(s), ImageOf(t))
            && forall i, o :: 0 <= o ==>
                 ByteAt(ImageOf(t), i, o) == if i == ip && o / 1024 == bn then v[o % 1024] else ByteAt(ImageOf(s), i, o)
  {
    hide Word;
    DataBlockAlone(sb, s, ip, bn, b, ip, bn);
    assert b in s.owner && s.owner[b] == (ip, FileSlot(bn)) by {
      assert SlotRange(ImageOf(s), ip, FileSlot(bn));
    }
    hide Slot;
    var t := s.(store := s.store[b := v]);
    assert ImageOf(t) == ImageOf(s).(store := ImageOf(s).store[b := v]);
    TreeIgnores(sb, ImageOf(s), s.owner, b, v);
    MapIgnores(sb, s.store, s.marked, b, v);
    forall i, k ensures Slot(ImageOf(t), i, k) == Slot(ImageOf(s), i, k) {
      SlotsIgnore(sb, ImageOf(s), s.owner, b, v, i, k);
    }
    hide Tree, MapShows;
    forall i, o | 0 <= o
      ensures ByteAt(ImageOf(t), i, o) ==
              if i == ip && o / 1024 == bn then v[o % 1024] else ByteAt(ImageOf(s), i, o)
    {
      if Slot(ImageOf(s), i, FileSlot(o / 1024)) == b {
        DataBlockAlone(sb, s, ip, bn, b, i, o / 1024);
      }
    }
  }

  /** The first `w` bytes of src stand in the file of ip from `off` on; all else reads as before. */
  ghost predicate Landed(im: Image, im': Image, ip: int, off: int, src: seq<bv8>, w: int)
    requires 0 <= w <= |src|
  {
    forall i, o :: 0 <= o ==>
      ByteAt(im', i, o) == if i == ip && off <= o < off + w then src[o - off] else ByteAt(im, i, o)
  }

  /** Every file block below byte `end` is there. */
  ghost predicate MappedTo(im: Image, ip: int, end: int) {
    forall bn :: 0 <= bn && bn * 1024 < end ==> Slot(im, ip, FileSlot(bn)) != 0
  }

  /** The block with p bytes of src put in at x. */
  function Splice(blk: Block, x: int, bytes: seq<bv8>): Block
    requires 0 <= x && x + |bytes| <= BSIZE
  {
    blk[..x] + bytes + blk[x + |bytes|..]
  }

  lemma SpliceAt(blk: Block, x: int, bytes: seq<bv8>, y: int)
    requires 0 <= x && x + |bytes| <= BSIZE && 0 <= y < BSIZE
    ensures Splice(blk, x, bytes)[y] == if x <= y < x + |bytes| then bytes[y - x] else blk[y]
  {
  }

  /** What the loop of writei keeps: `tot` bytes are done, and none of the files has lost anything. */
  ghost predicate Writing(sb: Super, s0: Snap, s: Snap, ip: int, off: int, src: seq<bv8>, w: int, end: int) {
    && 0 <= w <= |src| && 0 <= ip < |s0.inodes| == |s.inodes|
    && Sound(sb, s) && s.inodes == s0.inodes[ip := s.inodes[ip]] && s.inodes[ip].size == s0.inodes[ip].size
    && SlotsStay(ImageOf(s0), ImageOf(s))
    && Landed(ImageOf(s0), ImageOf(s), ip, off, src, w)
    && MappedTo(ImageOf(s), ip, end)
  }

  lemma LandedMore(im: Image, mid: Image, im': Image, ip: int, off: int, src: seq<bv8>, w: int, bn: int, x: int, p: int,
                   b: int, v: Block)
    requires 0 <= w && 0 <= p && w + p <= |src| && 0 <= off && 0 <= bn && off + w == bn * 1024 + x && 0 <= x && x + p <= 1024
    requires Landed(im, mid, ip, off, src, w)
    requires 0 < b < |mid.store| && b == Slot(mid, ip, FileSlot(bn)) && v == Splice(mid.store[b], x, src[w..w + p])
    requires forall i, o :: 0 <= o ==>
      ByteAt(im', i, o) == if i == ip && o / 1024 == bn then v[o % 1024] else ByteAt(mid, i, o)
    ensures Landed(im, im', ip, off, src, w + p)
  {
    hide Slot, Splice;
    forall i, o | 0 <= o
      ensures ByteAt(im', i, o) == if i == ip && off <= o < off + (w + p) then src[o - off] else ByteAt(im, i, o)
    {
      if i == ip && o / 1024 == bn {
        var y := o % 1024;
        SpliceAt(mid.store[b], x, src[w..w + p], y);
        assert o == bn * 1024 + y;
        assert ByteAt(mid, i, o) == mid.store[b][y];
        hide ByteAt;
      } else {
        hide ByteAt;
        assert !(i == ip && off + w <= o < off + w + p);
      }
    }
  }

  lemma WritingStart(sb: Super, s: Snap, ip: int, off: int, src: seq<bv8>)
    requires Sound(sb, s) && 0 <= ip < |s.inodes| && NoHoles(ImageOf(s))
    ensures Writing(sb, s, s, ip, off, src, 0, s.inodes[ip].size)
  {
    Unmoved(ImageOf(s));
    hide Slot, ByteAt;
  }

  /** One call of bmap inside the loop. */
  lemma WritingMapped(sb: Super, s0: Snap, s: Snap, m: Snap, ip: int, off: int, src: seq<bv8>, w: int, end: int,
                      bn: int, addr: int, maps: set<int>)
    requires Writing(sb, s0, s, ip, off, src, w, end)
    requires Provided(sb, s, m, ip, FileSlot(bn), addr, maps)
    ensures Writing(sb, s0, m, ip, off, src, w, end) && addr == Slot(ImageOf(m), ip, FileSlot(bn))
    ensures end >= bn * 1024 && addr != 0 ==> MappedTo(ImageOf(m), ip, bn * 1024 + 1024)
  {
    hide Slot, ByteAt, Sound;
  }

  /** Then p bytes of the block are copied in. */
  lemma WritingCopied(sb: Super, s0: Snap, m: Snap, ip: int, off: int, src: seq<bv8>, w: int, end: int,
                      bn: int, x: int, p: int, addr: int)
    requires Writing(sb, s0, m, ip, off, src, w, end) && addr == Slot(ImageOf(m), ip, FileSlot(bn)) && addr != 0
    requires 0 <= p && w + p <= |src| && 0 <= off && 0 <= bn && off + w == bn * 1024 + x && 0 <= x && x + p <= 1024
    ensures 0 < addr < |m.store|
    ensures var v := Splice(m.store[addr], x, src[w..w + p]);
            Writing(sb, s0, m.(store := m.store[addr := v]), ip, off, src, w + p, end) &&
            SameSlots(ImageOf(m), ImageOf(m.(store := m.store[addr := v])))
  {
    hide Splice, Word;
    DataBlockAlone(sb, m, ip, bn, addr, ip, bn);
    assert Sized(sb, ImageOf(m));
    var v := Splice(m.store[addr], x, src[w..w + p]);
    var t := m.(store := m.store[addr := v]);
    WriteData(sb, m, ip, bn, addr, v);
    hide Slot, ByteAt, Sound;
    LandedMore(ImageOf(s0), ImageOf(m), ImageOf(t), ip, off, src, w, bn, x, p, addr, v);
    hide Landed;
  }

  lemma WritingIgnoresLog(sb: Super, s0: Snap, s: Snap, ip: int, off: int, src: seq<bv8>, w: int, end: int, logged: set<int>)
    requires Writing(sb, s0, s, ip, off, src, w, end)
    ensures Writing(sb, s0, s.(logged := logged), ip, off, src, w, end)
  {
    assert ImageOf(s.(logged := logged)) == ImageOf(s);
    hide Tree, MapShows, Landed, SlotsStay, MappedTo;
  }

  lemma WritingFurther(sb: Super, s0: Snap, s: Snap, ip: int, off: int, src: seq<bv8>, w: int, end: int, end': int)
    requires Writing(sb, s0, s, ip, off, src, w, end) && MappedTo(ImageOf(s), ip, end')
    ensures Writing(sb, s0, s, ip, off, src, w, end')
  {
    hide Sound, Landed, SlotsStay, MappedTo;
  }

  /** An indirect block that was not there is in the log. */
  ghost predicate IndirectLogged(s: Snap, t: Snap, ip: int) {
    Slot(ImageOf(s), ip, NDIRECT) == 0 ==> IndirectOf(t, ip) <= t.logged
  }

  // ----- How many blocks a write logs -----

  /** Of the blocks logged since s0, `datas` are file data, `maps` bitmap blocks, and one is the indirect block. */
  ghost predicate LogShare(s0: Snap, s: Snap, ip: int, datas: set<int>, maps: set<int>) {
    && s0.logged <= s.logged && s.logged <= s0.logged + datas + maps + IndirectOf(s, ip)
    && IndirectLogged(s0, s, ip)
  }

  lemma LogShareMapped(sb: Super, s0: Snap, s: Snap, m: Snap, ip: int, datas: set<int>, maps: set<int>,
                       k: int, addr: int, more: set<int>)
    requires LogShare(s0, s, ip, datas, maps) && Provided(sb, s, m, ip, k, addr, more)
    ensures LogShare(s0, m, ip, datas + NonZero(addr), maps + more)
  {
    assert IndirectOf(s, ip) <= IndirectOf(m, ip) by {
      hide Sound;
    }
    hide Provided, IndirectOf;
    assert s.logged <= m.logged && m.logged <= s.logged + more + NonZero(addr) + IndirectOf(m, ip) by {
      ProvidedLog(sb, s, m, ip, k, addr, more);
    }
  }

  lemma ProvidedLog(sb: Super, s: Snap, m: Snap, ip: int, k: int, addr: int, maps: set<int>)
    requires Provided(sb, s, m, ip, k, addr, maps)
    ensures s.logged <= m.logged && m.logged <= s.logged + maps + NonZero(addr) + IndirectOf(m, ip)
  {
    hide Sound, SameBytes, SlotsStay, IndirectOf, NonZero;
  }

  function Count(b: bool): int { if b then 1 else 0 }

  ghost function NewIndirect(s: Snap, t: Snap, ip: int): int {
    Count(Slot(ImageOf(s), ip, NDIRECT) == 0 && Slot(ImageOf(t), ip, NDIRECT) != 0)
  }

  /** After `it` turns of the loop: one data block a turn, one bitmap block a turn except for a first
      block that was there already, and one more when the indirect block is new. */
  ghost predicate Counted(it: int, mapped: bool, fresh_: int, datas: set<int>, maps: set<int>) {
    |datas| <= it && |maps| <= it - Count(mapped && it >= 1) + fresh_
  }

  ghost function NonZeroG(b: int): (r: set<int>)
    ensures r == NonZero(b) && |r| == Count(b != 0)
  {
    NonZero(b)
  }

  lemma UnionSize(a: set<int>, b: set<int>)
    ensures |a + b| <= |a| + |b|
  {
    assert |a + b| == |a| + |b| - |a * b|;
  }

  lemma CountedMore(it: int, mapped: bool, f: int, f': int, datas: set<int>, maps: set<int>, addr: int, more: set<int>, fresh_: bool)
    requires Counted(it, mapped, f, datas, maps) && |more| <= Count(fresh_) + (f' - f)
    requires fresh_ ==> addr != 0 && !(mapped && it == 0)
    ensures Counted(it + Count(addr != 0), mapped, f', datas + NonZero(addr), maps + more)
  {
    UnionSize(datas, NonZeroG(addr));
    UnionSize(maps, more);
  }

  lemma CountedTotal(s0: Snap, s: Snap, ip: int, datas: set<int>, maps: set<int>, it: int, mapped: bool, f: int)
    requires LogShare(s0, s, ip, datas, maps) && Counted(it, mapped, f, datas, maps) && s0.logged == {}
    requires 0 <= f <= 1 && (it <= 3 || (it == 4 && mapped))
    ensures |s.logged| <= 9
  {
    var ind := NonZeroG(Slot(ImageOf(s), ip, NDIRECT));
    UnionSize(datas, maps);
    UnionSize(datas + maps, ind);
    SubsetSize(s.logged, datas + maps + ind);
  }

  lemma {:induction false} SubsetSize<T>(a: set<T>, b: set<T>)
    requires a <= b
    ensures |a| <= |b|
    decreases |a|
  {
    if a != {} {
      var x :| x in a;
      SubsetSize(a - {x}, b - {x});
    }
  }

  // ----- The loop of writei, seen from its start s0 -----

  ghost predicate WriteLoop(sb: Super, s0: Snap, s: Snap, ip: int, off: int, src: seq<bv8>, w: int, end: int,
                            it: int, mapped: bool, datas: set<int>, maps: set<int>)
  {
    && Writing(sb, s0, s, ip, off, src, w, end)
    && LogShare(s0, s, ip, datas, maps)
    && Counted(it, mapped, NewIndirect(s0, s, ip), datas, maps)
    && 0 <= it
  }

  function Min(a: int, b: int): int { if a < b then a else b }

  function Max(a: int, b: int): int { if a < b then b else a }

  lemma WriteLoopStart(sb: Super, s: Snap, ip: int, off: int, src: seq<bv8>, mapped: bool)
    requires Sound(sb, s) && 0 <= ip < |s.inodes| && NoHoles(ImageOf(s))
    ensures WriteLoop(sb, s, s, ip, off, src, 0, s.inodes[ip].size, 0, mapped, {}, {})
  {
    WritingStart(sb, s, ip, off, src);
    hide Writing, Slot, NoHoles, Sound;
  }

  lemma WriteLoopMapped(sb: Super, s0: Snap, s: Snap, m: Snap, ip: int, off: int, src: seq<bv8>, w: int, end: int,
                        it: int, mapped: bool, datas: set<int>, maps: set<int>,
                        bn: int, addr: int, more: set<int>)
    requires WriteLoop(sb, s0, s, ip, off, src, w, end, it, mapped, datas, maps)
    requires Provided(sb, s, m, ip, FileSlot(bn), addr, more) && end >= bn * 1024
    requires |more| <= Count(addr != 0 && Slot(ImageOf(s), ip, FileSlot(bn)) == 0) + NewIndirect(s, m, ip)
    requires mapped && it == 0 ==> Slot(ImageOf(s), ip, FileSlot(bn)) != 0
    ensures WriteLoop(sb, s0, m, ip, off, src, w, end, it + Count(addr != 0), mapped, datas + NonZero(addr), maps + more)
    ensures addr == Slot(ImageOf(m), ip, FileSlot(bn))
    ensures addr != 0 ==> MappedTo(ImageOf(m), ip, bn * 1024 + 1024)
  {
    WritingMapped(sb, s0, s, m, ip, off, src, w, end, bn, addr, more);
    LogShareMapped(sb, s0, s, m, ip, datas, maps, FileSlot(bn), addr, more);
    IndirectCounts(sb, s0, s, m, ip, off, src, w, end, FileSlot(bn), addr, more);
    hide Writing, Provided, LogShare, Slot, NewIndirect, MappedTo, FileSlot, Count;
    CountedMore(it, mapped, NewIndirect(s0, s, ip), NewIndirect(s0, m, ip), datas, maps, addr, more,
                addr != 0 && Slot(ImageOf(s), ip, FileSlot(bn)) == 0);
    CountRange(addr != 0);
  }

  lemma CountRange(b: bool)
    ensures 0 <= Count(b) <= 1
  {
  }

  lemma IndirectCounts(sb: Super, s0: Snap, s: Snap, m: Snap, ip: int, off: int, src: seq<bv8>, w: int, end: int,
                       k: int, addr: int, maps: set<int>)
    requires Writing(sb, s0, s, ip, off, src, w, end) && Provided(sb, s, m, ip, k, addr, maps)
    ensures NewIndirect(s0, m, ip) == NewIndirect(s0, s, ip) + NewIndirect(s, m, ip)
  {
    assert Slot(ImageOf(s0), ip, NDIRECT) != 0 ==> Slot(ImageOf(s), ip, NDIRECT) == Slot(ImageOf(s0), ip, NDIRECT);
    assert Slot(ImageOf(s), ip, NDIRECT) != 0 ==> Slot(ImageOf(m), ip, NDIRECT) == Slot(ImageOf(s), ip, NDIRECT);
    hide Slot, Sound, Landed, MappedTo, SameBytes;
  }

  /** p bytes copied into block addr, which then may or may not be logged. */
  lemma WriteLoopCopied(sb: Super, s0: Snap, m: Snap, ip: int, off: int, src: seq<bv8>, w: int, end: int,
                        it: int, mapped: bool, datas: set<int>, maps: set<int>,
                        bn: int, x: int, p: int, addr: int, logging: bool, end': int)
    requires WriteLoop(sb, s0, m, ip, off, src, w, end, it, mapped, datas, maps)
    requires addr == Slot(ImageOf(m), ip, FileSlot(bn)) && addr != 0 && addr in datas
    requires 0 <= p && w + p <= |src| && 0 <= off && 0 <= bn && off + w == bn * 1024 + x && 0 <= x && x + p <= 1024
    requires MappedTo(ImageOf(m), ip, end')
    ensures 0 < addr < |m.store|
    ensures var v := Splice(m.store[addr], x, src[w..w + p]);
            var t := m.(store := m.store[addr := v], logged := if logging then m.logged + {addr} else m.logged);
            WriteLoop(sb, s0, t, ip, off, src, w + p, end', it, mapped, datas, maps)
  {
    WritingFurther(sb, s0, m, ip, off, src, w, end, end');
    WritingCopied(sb, s0, m, ip, off, src, w, end', bn, x, p, addr);
    var v := Splice(m.store[addr], x, src[w..w + p]);
    var mid := m.(store := m.store[addr := v]);
    var logged := if logging then m.logged + {addr} else m.logged;
    WritingIgnoresLog(sb, s0, mid, ip, off, src, w + p, end', logged);
    var t := mid.(logged := logged);
    assert ImageOf(t) == ImageOf(mid);
    SameIsStay(ImageOf(m), ImageOf(t));
    hide Writing, Slot, Splice, Counted, MappedTo, LogShare, NewIndirect;
    LogShareCopied(s0, m, t, ip, datas, maps, addr);
  }

  lemma LogShareCopied(s0: Snap, m: Snap, t: Snap, ip: int, datas: set<int>, maps: set<int>, addr: int)
    requires LogShare(s0, m, ip, datas, maps) && Slot(ImageOf(t), ip, NDIRECT) == Slot(ImageOf(m), ip, NDIRECT) && addr in datas
    requires t.logged == m.logged || t.logged == m.logged + {addr}
    ensures LogShare(s0, t, ip, datas, maps) && NewIndirect(s0, t, ip) == NewIndirect(s0, m, ip)
  {
    hide Slot;
  }

  lemma ProvidedFull(sb: Super, s: Snap, t: Snap, ip: int, k: int, addr: int, maps: set<int>)
    requires Provided(sb, s, t, ip, k, addr, maps)
    ensures Sound(sb, t) && addr == Slot(ImageOf(t), ip, k) && (addr == 0 ==> NoneFree(sb, t.marked))
    ensures |t.inodes| == |s.inodes| && (Slot(ImageOf(s), ip, k) != 0 ==> t == s)
  {
    hide Slot, SameBytes, Sound;
  }

  lemma WriteLoopGist(sb: Super, s0: Snap, s: Snap, ip: int, off: int, src: seq<bv8>, w: int, end: int,
                      it: int, mapped: bool, datas: set<int>, maps: set<int>)
    requires WriteLoop(sb, s0, s, ip, off, src, w, end, it, mapped, datas, maps)
    ensures Sound(sb, s) && 0 <= ip < |s.inodes| == |s0.inodes| && 0 <= w <= |src|
    ensures s.inodes == s0.inodes[ip := s.inodes[ip]] && s.inodes[ip].size == s0.inodes[ip].size
    ensures SlotsStay(ImageOf(s0), ImageOf(s)) && Landed(ImageOf(s0), ImageOf(s), ip, off, src, w)
    ensures MappedTo(ImageOf(s), ip, end) && s0.logged <= s.logged && IndirectLogged(s0, s, ip)
  {
    hide Landed, MappedTo, Sound, SlotsStay, Counted;
  }

  lemma MappedMax(im: Image, ip: int, end: int, bn: int, e: int)
    requires MappedTo(im, ip, end) && MappedTo(im, ip, bn * 1024 + 1024) && e <= bn * 1024 + 1024
    ensures MappedTo(im, ip, Max(end, e))
  {
    hide Slot;
  }

  /** The first block of a write that starts inside a block is there already. */
  lemma FirstMapped(im: Image, ip: int, size: int, off: int)
    requires MappedTo(im, ip, size) && 0 <= off <= size && off % 1024 != 0
    ensures Slot(im, ip, FileSlot(off / 1024)) != 0
  {
    hide Slot;
  }

  /** Turns of the loop, for n bytes from x inside the first block. */
  predicate Turns(x: int, n: int, it: int) { 0 <= it && (it == 0 || it * 1024 <= x + n + 1023) }

  /** The head of the loop of writei: `tot` bytes done in `it` turns since s0. */
  ghost predicate AtTurn(sb: Super, s0: Snap, s: Snap, ip: int, off: int, src: seq<bv8>, tot: int,
                         it: int, datas: set<int>, maps: set<int>)
  {
    && 0 <= ip < |s0.inodes| && 0 <= off && 0 <= tot <= |src|
    && WriteLoop(sb, s0, s, ip, off, src, tot, Max(s0.inodes[ip].size, off + tot), it, off % 1024 != 0, datas, maps)
    && Turns(off % 1024, |src|, it)
    && (tot < |src| ==> if it == 0 then tot == 0 else off % 1024 + tot == it * 1024)
  }

  lemma TurnArithmetic(off: int, n: int, tot: int, it: int, m: int, cur: int)
    requires 0 <= off && 0 <= tot < n && cur == off + tot && Turns(off % 1024, n, it)
    requires if it == 0 then tot == 0 else off % 1024 + tot == it * 1024
    requires m == Min(n - tot, 1024 - cur % 1024)
    ensures 1 <= m && Turns(off % 1024, n, it + 1)
    ensures tot + m < n ==> off % 1024 + (tot + m) == (it + 1) * 1024
    ensures cur / 1024 * 1024 + cur % 1024 == cur && (it >= 1 ==> cur % 1024 == 0)
  {
    var q, x := off / 1024, off % 1024;
    assert off == q * 1024 + x;
    if it >= 1 {
      BlockParts(q + it, 0, cur);
    } else {
      BlockParts(q, x, cur);
    }
    TurnLength(x, n, tot, it, m, if it >= 1 then 0 else x);
  }

  lemma BlockParts(q: int, x: int, o: int)
    requires 0 <= x < 1024 && o == q * 1024 + x
    ensures o / 1024 == q && o % 1024 == x
  {
  }

  lemma TurnLength(x: int, n: int, tot: int, it: int, m: int, y: int)
    requires 0 <= x < 1024 && 0 <= tot < n && Turns(x, n, it) && m == Min(n - tot, 1024 - y)
    requires if it == 0 then tot == 0 && y == x else x + tot == it * 1024 && y == 0
    ensures 1 <= m && Turns(x, n, it + 1) && (tot + m < n ==> x + (tot + m) == (it + 1) * 1024)
  {
  }

  /** How one turn of that loop ends: `left` is 0 after a full chunk of m bytes, 1 when no block could be
      had, 2 when the user's memory gave out after p bytes of the chunk. */
  ghost predicate TurnResult(sb: Super, s0: Snap, t: Snap, ip: int, off: int, src: seq<bv8>, avail: int, tot: int,
                             m: int, left: int, p: int, end: int, it: int, datas: set<int>, maps: set<int>)
  {
    && Sound(sb, t) && 0 <= ip < |s0.inodes| && 0 < m && tot + m <= |src| && 0 <= left <= 2
    && (left == 0 ==> tot + m <= avail && AtTurn(sb, s0, t, ip, off, src, tot + m, it, datas, maps))
    && (left != 0 ==> 0 <= p <= m && end >= Max(s0.inodes[ip].size, off + tot) && Turns(off % 1024, |src|, it))
    && (left != 0 ==> WriteLoop(sb, s0, t, ip, off, src, tot + p, end, it, off % 1024 != 0, datas, maps))
    && (left == 1 ==> p == 0 && NoneFree(sb, t.marked))
    && (left == 2 ==> avail < tot + m && (p > 0 <==> tot < avail) && (p > 0 ==> tot + p == avail))
  }

  /** bmap found no block. */
  lemma TurnEmpty(sb: Super, s0: Snap, t: Snap, ip: int, off: int, src: seq<bv8>, avail: int, tot: int,
                  m: int, end: int, it: int, datas: set<int>, maps: set<int>)
    requires WriteLoop(sb, s0, t, ip, off, src, tot, end, it, off % 1024 != 0, datas, maps) && Turns(off % 1024, |src|, it)
    requires 0 < m && tot + m <= |src| && 0 <= ip < |s0.inodes| && end >= Max(s0.inodes[ip].size, off + tot) && NoneFree(sb, t.marked)
    ensures TurnResult(sb, s0, t, ip, off, src, avail, tot, m, 1, 0, end, it, datas, maps)
  {
    WriteLoopGist(sb, s0, t, ip, off, src, tot, end, it, off % 1024 != 0, datas, maps);
    hide WriteLoop, Sound, Turns, NoneFree, AtTurn;
  }

  lemma TurnFinished(sb: Super, s0: Snap, t: Snap, ip: int, off: int, src: seq<bv8>, avail: int, tot: int,
                     m: int, ok: bool, p: int, end: int, it: int, datas: set<int>, maps: set<int>)
    requires 0 <= off && 0 <= tot && 0 < m && tot + m <= |src| && 0 <= p <= m && 0 <= avail <= |src|
    requires ok <==> tot + m <= avail
    requires (ok ==> p == m) && (!ok ==> (p > 0 <==> tot < avail) && (p > 0 ==> tot + p == avail))
    requires 0 <= ip < |s0.inodes| && end == Max(Max(s0.inodes[ip].size, off + tot), off + tot + m)
    requires WriteLoop(sb, s0, t, ip, off, src, tot + p, end, it, off % 1024 != 0, datas, maps)
    requires Turns(off % 1024, |src|, it) && it >= 1
    requires tot + m < |src| ==> off % 1024 + (tot + m) == it * 1024
    ensures TurnResult(sb, s0, t, ip, off, src, avail, tot, m, if ok then 0 else 2, p, end, it, datas, maps)
  {
    WriteLoopGist(sb, s0, t, ip, off, src, tot + p, end, it, off % 1024 != 0, datas, maps);
    hide WriteLoop, Sound, NoneFree;
  }

  /** The loop is over: `tot` bytes are reported, `w` bytes have reached the buffers. */
  ghost predicate Written(sb: Super, s0: Snap, t: Snap, ip: int, off: int, src: seq<bv8>, avail: int, tot: int, w: int,
                          end: int, it: int, datas: set<int>, maps: set<int>)
  {
    && 0 <= tot <= w <= |src| && tot <= avail && (w > tot ==> w == avail < |src|) && 0 <= ip < |s0.inodes|
    && (tot < |src| ==> avail < |src| || NoneFree(sb, t.marked))
    && end >= Max(s0.inodes[ip].size, off + tot) && Turns(off % 1024, |src|, it)
    && WriteLoop(sb, s0, t, ip, off, src, w, end, it, off % 1024 != 0, datas, maps)
  }

  lemma TurnToWritten(sb: Super, s0: Snap, t: Snap, ip: int, off: int, src: seq<bv8>, avail: int, tot: int,
                      m: int, left: int, p: int, end: int, it: int, datas: set<int>, maps: set<int>)
    requires TurnResult(sb, s0, t, ip, off, src, avail, tot, m, left, p, end, it, datas, maps) && 0 <= tot <= avail
    ensures Sound(sb, t)
    ensures left == 0 ==> 0 < m <= |src| - tot && tot + m <= avail && AtTurn(sb, s0, t, ip, off, src, tot + m, it, datas, maps)
    ensures left != 0 ==> Written(sb, s0, t, ip, off, src, avail, tot, tot + p, end, it, datas, maps) && tot < |src|
    ensures 0 <= left <= 2 && (left == 1 ==> p == 0 && NoneFree(sb, t.marked))
    ensures left == 2 ==> avail < tot + m && tot + p == avail
  {
    hide WriteLoop, Sound, NoneFree, Turns, AtTurn;
  }

  lemma AllWritten(sb: Super, s0: Snap, t: Snap, ip: int, off: int, src: seq<bv8>, avail: int, it: int, datas: set<int>, maps: set<int>)
    requires AtTurn(sb, s0, t, ip, off, src, |src|, it, datas, maps) && |src| <= avail
    ensures Written(sb, s0, t, ip, off, src, avail, |src|, |src|, Max(s0.inodes[ip].size, off + |src|), it, datas, maps)
  {
    hide WriteLoop, NoneFree, Turns;
  }

  lemma TurnZero(sb: Super, s: Snap, ip: int, off: int, src: seq<bv8>)
    requires Sound(sb, s) && 0 <= ip < |s.inodes| && NoHoles(ImageOf(s)) && 0 <= off <= s.inodes[ip].size
    ensures AtTurn(sb, s, s, ip, off, src, 0, 0, {}, {})
  {
    WriteLoopStart(sb, s, ip, off, src, off % 1024 != 0);
    hide WriteLoop, Sound, NoHoles;
  }

  /** What writei promises about the image: the first w bytes of src at off, nothing else touched, and no holes. */
  lemma WrittenMeans(sb: Super, s0: Snap, t: Snap, ip: int, off: int, src: seq<bv8>, avail: int, tot: int, w: int,
                     end: int, it: int, datas: set<int>, maps: set<int>)
    requires Written(sb, s0, t, ip, off, src, avail, tot, w, end, it, datas, maps)
    requires NoHoles(ImageOf(s0)) && 0 <= off <= s0.inodes[ip].size <= MAXFILE * 1024 && off + |src| <= MAXFILE * 1024
    requires ip < |t.inodes|
    ensures var n := Max(s0.inodes[ip].size, off + tot);
            var u := t.(inodes := SetSize(ImageOf(t), ip, n).inodes);
            && Sound(sb, u) && NoHoles(ImageOf(u)) && Landed(ImageOf(s0), ImageOf(u), ip, off, src, w)
            && (forall i :: 0 <= i < |s0.inodes| && i != ip ==> u.inodes[i] == s0.inodes[i])
            && |u.inodes| == |s0.inodes|
  {
    WriteLoopGist(sb, s0, t, ip, off, src, w, end, it, off % 1024 != 0, datas, maps);
    hide WriteLoop, Turns, NoneFree;
    var n := Max(s0.inodes[ip].size, off + tot);
    var u := t.(inodes := SetSize(ImageOf(t), ip, n).inodes);
    assert ImageOf(u) == SetSize(ImageOf(t), ip, n);
    TreeIgnoresSize(sb, ImageOf(t), t.owner, ip, n);
    hide Slot, Tree, MapShows, ByteAt;
    HolesAfter(s0, t, u, ip, n, end);
    LandedSize(ImageOf(s0), ImageOf(t), ImageOf(u), ip, off, src, w);
  }

  lemma LandedSize(im: Image, mid: Image, im': Image, ip: int, off: int, src: seq<bv8>, w: int)
    requires 0 <= w <= |src| && Landed(im, mid, ip, off, src, w) && SameBytes(mid, im')
    ensures Landed(im, im', ip, off, src, w)
  {
    hide ByteAt;
  }

  lemma HolesAfter(s0: Snap, t: Snap, u: Snap, ip: int, n: int, end: int)
    requires NoHoles(ImageOf(s0)) && SlotsStay(ImageOf(s0), ImageOf(t)) && MappedTo(ImageOf(t), ip, end) && n <= end
    requires 0 <= ip < |s0.inodes| == |t.inodes| == |u.inodes|
    requires forall i :: 0 <= i < |u.inodes| && i != ip ==> u.inodes[i].size == s0.inodes[i].size
    requires u.inodes[ip].size == n
    requires forall j, k :: Slot(ImageOf(u), j, k) == Slot(ImageOf(t), j, k)
    ensures NoHoles(ImageOf(u))
  {
    hide Slot;
    forall i, bn | 0 <= i < |u.inodes| && 0 <= bn && bn * 1024 < u.inodes[i].size
      ensures Slot(ImageOf(u), i, FileSlot(bn)) != 0
    {
      if i != ip {
        assert Slot(ImageOf(s0), i, FileSlot(bn)) != 0;
      }
    }
  }

  lemma WrittenLog(sb: Super, s0: Snap, t: Snap, ip: int, off: int, src: seq<bv8>, avail: int, tot: int, w: int,
                   end: int, it: int, datas: set<int>, maps: set<int>)
    requires Written(sb, s0, t, ip, off, src, avail, tot, w, end, it, datas, maps)
    requires s0.logged == {} && |src| <= 3 * 1024 && 0 <= off
    ensures |t.logged| <= 9
  {
    hide Writing, NewIndirect, IndirectOf, NoneFree;
    assert it <= 3 || (it == 4 && off % 1024 != 0);
    CountNewIndirect(s0, t, ip);
    hide LogShare, Counted;
    CountedTotal(s0, t, ip, datas, maps, it, off % 1024 != 0, NewIndirect(s0, t, ip));
  }

  lemma CountNewIndirect(s: Snap, t: Snap, ip: int)
    ensures 0 <= NewIndirect(s, t, ip) <= 1
  {
  }

  lemma LandedNothing(im: Image, ip: int, off: int, src: seq<bv8>)
    ensures Landed(im, im, ip, off, src, 0)
  {
    hide ByteAt;
  }

  lemma WrittenGist(sb: Super, s0: Snap, t: Snap, ip: int, off: int, src: seq<bv8>, avail: int, tot: int, w: int,
                    end: int, it: int, datas: set<int>, maps: set<int>)
    requires Written(sb, s0, t, ip, off, src, avail, tot, w, end, it, datas, maps)
    ensures Sound(sb, t) && 0 <= tot <= w <= |src| && tot <= avail && (w > tot ==> w == avail < |src|)
    ensures tot < |src| ==> avail < |src| || NoneFree(sb, t.marked)
    ensures 0 <= ip < |t.inodes| == |s0.inodes| && t.inodes == s0.inodes[ip := t.inodes[ip]]
    ensures t.inodes[ip].size == s0.inodes[ip].size && s0.logged <= t.logged && SlotsStay(ImageOf(s0), ImageOf(t))
    ensures IndirectLogged(s0, t, ip)
  {
    WriteLoopGist(sb, s0, t, ip, off, src, w, end, it, off % 1024 != 0, datas, maps);
    hide WriteLoop, NoneFree, Sound, Turns, Landed, MappedTo, SlotsStay, IndirectLogged;
  }

  /** The size of ip set to n and iupdate done. */
  ghost function Finished(sb: Super, s: Snap, ip: int, n: int): Snap
    requires 0 <= ip < |s.inodes|
  {
    s.(inodes := SetSize(ImageOf(s), ip, n).inodes, logged := s.logged + {IBlock(sb, ip)})
  }

  /** What writei comes to, once its loop is over. */
  lemma WrittenDone(sb: Super, s0: Snap, t: Snap, ip: int, off: int, src: seq<bv8>, avail: int, tot: int, w: int,
                    end: int, it: int, datas: set<int>, maps: set<int>)
    requires Written(sb, s0, t, ip, off, src, avail, tot, w, end, it, datas, maps)
    requires NoHoles(ImageOf(s0)) && 0 <= off <= s0.inodes[ip].size <= MAXFILE * 1024 && off + |src| <= MAXFILE * 1024
    requires 0 <= ip < |t.inodes| && ChangesLogged(s0, t, Only(w > tot, BlockAt(ImageOf(t), ip, off + tot)))
    ensures var u := Finished(sb, t, ip, Max(s0.inodes[ip].size, off + tot));
            && Sound(sb, u) && NoHoles(ImageOf(u)) && 0 <= w <= |src| && Landed(ImageOf(s0), ImageOf(u), ip, off, src, w)
            && (s0.logged == {} && |src| <= 3 * 1024 ==> |u.logged| <= MAXOPBLOCKS)
            && ChangesLogged(s0, u, Only(w > tot, BlockAt(ImageOf(u), ip, off + tot)))
  {
    var n := Max(s0.inodes[ip].size, off + tot);
    WrittenGist(sb, s0, t, ip, off, src, avail, tot, w, end, it, datas, maps);
    WrittenMeans(sb, s0, t, ip, off, src, avail, tot, w, end, it, datas, maps);
    var v := t.(inodes := SetSize(ImageOf(t), ip, n).inodes);
    var u := Finished(sb, t, ip, n);
    SoundIgnoresLog(sb, v, u.logged);
    SizeMovesNothing(sb, t, ip, n, off + tot);
    ChangesStay(s0, t, u, IBlock(sb, ip), Only(w > tot, BlockAt(ImageOf(t), ip, off + tot)));
    assert ImageOf(u) == ImageOf(v) == SetSize(ImageOf(t), ip, n);
    if s0.logged == {} && |src| <= 3 * 1024 {
      WrittenLog(sb, s0, t, ip, off, src, avail, tot, w, end, it, datas, maps);
      LogOneMore(t.logged, IBlock(sb, ip));
    }
    hide Written, Sound, NoHoles, Landed, ChangesLogged, BlockAt;
  }

  lemma LogOneMore(l: set<int>, b: int)
    ensures |l + {b}| <= |l| + 1
  {
  }

  lemma ChangesStay(s: Snap, t: Snap, u: Snap, b: int, but: set<int>)
    requires ChangesLogged(s, t, but) && u.store == t.store && u.logged == t.logged + {b}
    ensures ChangesLogged(s, u, but)
  {
  }

  lemma SizeMovesNothing(sb: Super, s: Snap, ip: int, n: int, o: int)
    requires Sound(sb, s) && 0 <= ip < |s.inodes| && 0 <= n <= MAXFILE * 1024
    ensures BlockAt(SetSize(ImageOf(s), ip, n), ip, o) == BlockAt(ImageOf(s), ip, o)
  {
    TreeIgnoresSize(sb, ImageOf(s), s.owner, ip, n);
    hide Slot;
  }

  lemma SoundIgnoresLog(sb: Super, s: Snap, logged: set<int>)
    requires Sound(sb, s)
    ensures Sound(sb, s.(logged := logged))
  {
    assert ImageOf(s.(logged := logged)) == ImageOf(s);
    hide Tree, MapShows;
  }

  // ----- Where the writing ends -----

  /** The last block that a write of n bytes from off comes to when the user's memory yields `avail` of them. */
  function LastBlock(off: int, n: int, avail: int): int { (off + Min(avail, n - 1)) / 1024 }

  /** How many bytes are reported if there is room: those up to the last chunk that was readable in full. */
  function Whole(off: int, n: int, avail: int): int {
    if avail == n then n else Max(0, (off + avail) / 1024 * 1024 - off)
  }

  /** From block `last` on, what is needed and what is free has stayed in balance. */
  ghost predicate SpareKept(sb: Super, s0: Snap, s: Snap, ip: int, last: int) {
    forall c :: last <= c ==> SpareOf(sb, s, ip, c) == SpareOf(sb, s0, ip, c)
  }

  ghost predicate EnoughFor(sb: Super, s: Snap, ip: int, last: int) { Enough(sb, ImageOf(s), s.marked, ip, last) }

  /** Before block `last` is reached: it is as it was in s0, and only in the log if it was there. */
  ghost predicate Before(sb: Super, s0: Snap, s: Snap, ip: int, last: int) {
    && SpareKept(sb, s0, s, ip, last) && FileBlock(s, ip, last) == FileBlock(s0, ip, last) && s0.logged <= s.logged
    && (FileBlock(s0, ip, last) != 0 && FileBlock(s0, ip, last) in s.logged ==> FileBlock(s0, ip, last) in s0.logged)
  }

  /** Block `last` of s0 was to be allocated, or had been logged before. */
  ghost predicate InLogThen(s0: Snap, ip: int, last: int) {
    FileBlock(s0, ip, last) == 0 || FileBlock(s0, ip, last) in s0.logged
  }

  /** What a call of bmap adds to the log. */
  ghost predicate MapLogs(sb: Super, s: Snap, t: Snap, ip: int, addr: int) {
    s.logged <= t.logged && forall b :: b in t.logged && b !in s.logged ==> b == addr || b < sb.datastart || b == Slot(ImageOf(t), ip, NDIRECT)
  }

  lemma ProvidedLogs(sb: Super, s: Snap, t: Snap, ip: int, k: int, addr: int, maps: set<int>)
    requires Provided(sb, s, t, ip, k, addr, maps) && InMap(sb, maps)
    ensures MapLogs(sb, s, t, ip, addr)
  {
    hide Slot, Sound, SameBytes, SlotsStay;
  }

  lemma BeforeStart(sb: Super, s: Snap, ip: int, last: int)
    ensures Before(sb, s, s, ip, last)
  {
    hide SpareOf, FileBlock;
  }

  /** Two blocks of a file, and its indirect block, are different data blocks. */
  lemma BlocksApart(sb: Super, s: Snap, ip: int, bn: int, c: int)
    requires Sound(sb, s) && 0 <= bn && 0 <= c && bn != c && FileBlock(s, ip, c) != 0
    ensures FileBlock(s, ip, c) != FileBlock(s, ip, bn) && FileBlock(s, ip, c) != Slot(ImageOf(s), ip, NDIRECT)
    ensures FileBlock(s, ip, c) >= sb.datastart
  {
    OtherSlots(c);
    assert SlotRange(ImageOf(s), ip, FileSlot(c));
    assert SlotRange(ImageOf(s), ip, NDIRECT);
    assert !SlotRange(ImageOf(s), ip, FileSlot(bn)) ==> Slot(ImageOf(s), ip, FileSlot(bn)) == 0;
    hide Slot;
  }

  /** bmap for a block before `last`. */
  lemma MappedBefore(sb: Super, s0: Snap, s: Snap, t: Snap, ip: int, bn: int, last: int, addr: int)
    requires Before(sb, s0, s, ip, last) && Even(sb, s, t, ip, bn) && 0 <= bn < last && Sound(sb, t)
    requires MapLogs(sb, s, t, ip, addr) && addr == FileBlock(t, ip, bn)
    ensures Before(sb, s0, t, ip, last)
  {
    if FileBlock(t, ip, last) != 0 {
      BlocksApart(sb, t, ip, bn, last);
    }
    hide Sound, Slot, FileBlock, SpareOf;
  }

  /** Data for a block before `last`. */
  lemma FilledBefore(sb: Super, s0: Snap, s: Snap, t: Snap, ip: int, bn: int, last: int, addr: int)
    requires Before(sb, s0, s, ip, last) && 0 <= bn < last && Sound(sb, s) && addr == FileBlock(s, ip, bn) && addr != 0
    requires SameSlots(ImageOf(s), ImageOf(t)) && t.marked == s.marked && s.logged <= t.logged <= s.logged + {addr}
    ensures Before(sb, s0, t, ip, last)
  {
    if FileBlock(s, ip, last) != 0 {
      BlocksApart(sb, s, ip, bn, last);
    }
    SpareFill(sb, s0, s, t, ip, last);
    SameIsStay(ImageOf(s), ImageOf(t));
    hide Sound, Slot, SpareOf, SameSlots;
  }

  lemma SpareFill(sb: Super, s0: Snap, s: Snap, t: Snap, ip: int, last: int)
    requires SpareKept(sb, s0, s, ip, last) && SameSlots(ImageOf(s), ImageOf(t)) && t.marked == s.marked
    ensures SpareKept(sb, s0, t, ip, last)
  {
    hide Slot, Spare;
    forall c | last <= c ensures SpareOf(sb, t, ip, c) == SpareOf(sb, s0, ip, c) {
      SpareSame(sb, ImageOf(s), ImageOf(t), s.marked, ip, c);
    }
  }

  lemma SpareMapped(sb: Super, s0: Snap, s: Snap, t: Snap, ip: int, bn: int, last: int)
    requires SpareKept(sb, s0, s, ip, last) && Even(sb, s, t, ip, bn) && bn <= last
    ensures SpareKept(sb, s0, t, ip, last)
  {
    hide SpareOf, FileBlock;
  }

  /** bmap finds no block on the way: there was not enough room from the start. */
  lemma NoRoom(sb: Super, s0: Snap, s: Snap, ip: int, bn: int, last: int)
    requires SpareKept(sb, s0, s, ip, last) && 0 <= bn <= last && FileBlock(s, ip, bn) == 0 && NoneFree(sb, s.marked)
    ensures !EnoughFor(sb, s0, ip, last)
  {
    hide Slot, Spare;
    NotEnough(sb, ImageOf(s), s.marked, ip, bn, last);
    assert SpareOf(sb, s, ip, last) == SpareOf(sb, s0, ip, last);
  }

  /** It finds one for block `last`: there was enough. */
  lemma RoomThere(sb: Super, s0: Snap, s: Snap, ip: int, last: int)
    requires SpareKept(sb, s0, s, ip, last) && 0 <= last && Sound(sb, s) && MappedTo(ImageOf(s), ip, last * 1024 + 1024)
    ensures EnoughFor(sb, s0, ip, last)
  {
    hide Slot, Spare, Tree, MapShows;
    assert forall c :: 0 <= c <= last ==> Slot(ImageOf(s), ip, FileSlot(c)) != 0;
    if last >= NDIRECT {
      BehindIndirect(sb, ImageOf(s), s.owner, ip, last);
    }
    HasAll(sb, ImageOf(s), s.marked, ip, last);
    assert SpareOf(sb, s, ip, last) == SpareOf(sb, s0, ip, last);
  }

  /** bmap for block `last`: the block is in the log then when it is new, or was there before. */
  lemma LastInLog(sb: Super, s0: Snap, s: Snap, t: Snap, ip: int, last: int, addr: int)
    requires Before(sb, s0, s, ip, last) && addr == FileBlock(t, ip, last) && addr != 0 && s.logged <= t.logged
    requires FileBlock(s, ip, last) != 0 ==> t == s
    requires FileBlock(s, ip, last) == 0 ==> addr in t.logged
    ensures addr in t.logged <==> InLogThen(s0, ip, last)
  {
    hide FileBlock, SpareKept;
  }

  /** The room for a write after a turn on block bn: `left` is 0 after a full chunk, 1 when bmap found no block,
      2 when the user's memory gave out. */
  ghost predicate TurnRoom(sb: Super, s0: Snap, t: Snap, ip: int, bn: int, last: int, left: int) {
    && SpareKept(sb, s0, t, ip, last) && (left == 0 && bn < last ==> Before(sb, s0, t, ip, last))
    && (left == 1 ==> !EnoughFor(sb, s0, ip, last)) && (left != 1 && bn == last ==> EnoughFor(sb, s0, ip, last))
    && (left == 2 ==> FileBlock(t, ip, bn) != 0)
    && (left == 2 && bn == last ==> (FileBlock(t, ip, bn) in t.logged <==> InLogThen(s0, ip, last)))
  }

  lemma TurnRoomNone(sb: Super, s0: Snap, s: Snap, t: Snap, ip: int, bn: int, last: int)
    requires Before(sb, s0, s, ip, last) && Even(sb, s, t, ip, bn) && 0 <= bn <= last && FileBlock(t, ip, bn) == 0 && NoneFree(sb, t.marked)
    ensures TurnRoom(sb, s0, t, ip, bn, last, 1)
  {
    hide FileBlock, SpareOf, NoneFree, EnoughFor, Even;
    SpareMapped(sb, s0, s, t, ip, bn, last);
    NoRoom(sb, s0, t, ip, bn, last);
  }

  lemma TurnRoomSome(sb: Super, s0: Snap, s: Snap, m: Snap, t: Snap, ip: int, bn: int, last: int, addr: int, left: int)
    requires Before(sb, s0, s, ip, last) && Even(sb, s, m, ip, bn) && 0 <= bn <= last && addr == FileBlock(m, ip, bn) && addr != 0
    requires Sound(sb, m) && MapLogs(sb, s, m, ip, addr) && MappedTo(ImageOf(m), ip, bn * 1024 + 1024)
    requires FileBlock(s, ip, bn) != 0 ==> m == s
    requires FileBlock(s, ip, bn) == 0 ==> addr in m.logged
    requires SameSlots(ImageOf(m), ImageOf(t)) && t.marked == m.marked && (left == 0 || left == 2)
    requires t.logged == if left == 0 then m.logged + {addr} else m.logged
    ensures TurnRoom(sb, s0, t, ip, bn, last, left)
  {
    SameIsStay(ImageOf(m), ImageOf(t));
    assert FileBlock(t, ip, bn) == addr;
    hide FileBlock, SpareOf, EnoughFor, Sound, MappedTo, SameSlots, Even, SpareKept, Slot, SlotsStay;
    SpareMapped(sb, s0, s, m, ip, bn, last);
    SpareFill(sb, s0, m, t, ip, last);
    if bn < last {
      MappedBefore(sb, s0, s, m, ip, bn, last, addr);
      FilledBefore(sb, s0, m, t, ip, bn, last, addr);
    } else {
      RoomThere(sb, s0, m, ip, last);
      LastInLog(sb, s0, s, m, ip, last, addr);
    }
  }

  /** What a write of n bytes from off comes to: `tot` bytes reported, w in the buffers. */
  ghost predicate Outcome(sb: Super, s0: Snap, t: Snap, ip: int, off: int, n: int, avail: int, tot: int, w: int) {
    && SpareKept(sb, s0, t, ip, LastBlock(off, n, avail))
    && if EnoughFor(sb, s0, ip, LastBlock(off, n, avail)) then tot == Whole(off, n, avail) && w == avail
       else tot == w < n && NoneFree(sb, t.marked)
  }

  /** What writei has done with a request that fits: the first w bytes of src are in the file at off, the first `tot`
      of them are reported and counted in the size, and no other byte of any file has changed. */
  ghost predicate Wrote(sb: Super, s0: Snap, t: Snap, ip: int, off: int, src: seq<bv8>, avail: int, tot: int, w: int) {
    && 0 <= tot <= w <= |src| && tot <= avail && (w > tot ==> w == avail < |src|)
    && Landed(ImageOf(s0), ImageOf(t), ip, off, src, w)
    && 0 <= ip < |s0.inodes| == |t.inodes| && t.inodes == s0.inodes[ip := t.inodes[ip]]
    && t.inodes[ip].size == Max(s0.inodes[ip].size, off + tot)
    && SlotsStay(ImageOf(s0), ImageOf(t)) && IndirectLogged(s0, t, ip)
    && (tot < |src| ==> avail < |src| || NoneFree(sb, t.marked))
    && (|src| > 0 ==> Outcome(sb, s0, t, ip, off, |src|, avail, tot, w))
    // The transaction fits, and has every block that changed but the one with bytes that are not reported.
    && (s0.logged == {} && |src| <= 3 * 1024 ==> |t.logged| <= MAXOPBLOCKS)
    && ChangesLogged(s0, t, Only(w > tot, BlockAt(ImageOf(t), ip, off + tot)))
    && (w > tot ==> BlockAt(ImageOf(t), ip, off + tot) != 0)
    && (w > tot ==> (BlockAt(ImageOf(t), ip, off + tot) in t.logged <==> InLogThen(s0, ip, LastBlock(off, |src|, avail))))
  }

  /** A block begins at byte o. */
  predicate Edge(o: int) { o % 1024 == 0 }

  /** The loop of writei before a turn: `tot` bytes are written and reported. */
  ghost predicate WriteSoFar(sb: Super, s0: Snap, s: Snap, ip: int, off: int, src: seq<bv8>, avail: int, tot: int,
                             it: int, datas: set<int>, maps: set<int>, last: int)
  {
    && AtTurn(sb, s0, s, ip, off, src, tot, it, datas, maps) && tot <= avail && ChangesLogged(s0, s, {})
    && (tot < |src| ==> Before(sb, s0, s, ip, last) && (tot == 0 || Edge(off + tot)))
    && (tot == |src| > 0 ==> SpareKept(sb, s0, s, ip, last) && EnoughFor(sb, s0, ip, last))
  }

  /** The loop of writei when it ends: w bytes are in the buffers, `tot` of them to be reported. */
  ghost predicate AllPut(sb: Super, s0: Snap, t: Snap, ip: int, off: int, src: seq<bv8>, avail: int, tot: int, w: int,
                         end: int, it: int, datas: set<int>, maps: set<int>)
  {
    && Written(sb, s0, t, ip, off, src, avail, tot, w, end, it, datas, maps)
    && ChangesLogged(s0, t, Only(w > tot, BlockAt(ImageOf(t), ip, off + tot)))
    && (|src| > 0 ==> Outcome(sb, s0, t, ip, off, |src|, avail, tot, w))
    && (w > tot ==> BlockAt(ImageOf(t), ip, off + tot) != 0)
    && (w > tot ==> (BlockAt(ImageOf(t), ip, off + tot) in t.logged <==> InLogThen(s0, ip, LastBlock(off, |src|, avail))))
  }

  lemma WriteStarts(sb: Super, s: Snap, ip: int, off: int, src: seq<bv8>, avail: int, last: int)
    requires Sound(sb, s) && 0 <= ip < |s.inodes| && NoHoles(ImageOf(s)) && 0 <= off <= s.inodes[ip].size && 0 <= avail
    ensures WriteSoFar(sb, s, s, ip, off, src, avail, 0, 0, {}, {}, last)
  {
    TurnZero(sb, s, ip, off, src);
    NoChanges(s);
    BeforeStart(sb, s, ip, last);
    hide AtTurn, Sound, NoHoles, ChangesLogged, Before, SpareKept, EnoughFor;
  }

  /** What a turn asks for. */
  lemma TurnAhead(sb: Super, s0: Snap, s: Snap, ip: int, off: int, src: seq<bv8>, avail: int, tot: int,
                  it: int, datas: set<int>, maps: set<int>, last: int)
    requires WriteSoFar(sb, s0, s, ip, off, src, avail, tot, it, datas, maps, last)
    requires 0 <= off && 0 <= tot < |src| && avail <= |src| && last == LastBlock(off, |src|, avail)
    ensures AtTurn(sb, s0, s, ip, off, src, tot, it, datas, maps) && Sound(sb, s) && 0 <= ip < |s.inodes| == |s0.inodes|
    ensures tot <= avail && ChangesLogged(s0, s, {}) && Before(sb, s0, s, ip, last) && 0 <= (off + tot) / 1024 <= last
    ensures tot == 0 || Edge(off + tot)
  {
    TurnPlace(off, |src|, avail, tot, off + tot, Min(|src| - tot, 1024 - (off + tot) % 1024), last);
    WriteLoopGist(sb, s0, s, ip, off, src, tot, Max(s0.inodes[ip].size, off + tot), it, off % 1024 != 0, datas, maps);
    hide WriteLoop, Turns, Sound, ChangesLogged, Before, SpareKept, EnoughFor, LastBlock;
  }

  /** Where a turn of m bytes in block bn stands in a write that ends in block `last`. */
  ghost predicate TurnSpot(off: int, n: int, avail: int, tot: int, m: int, bn: int, last: int) {
    && 0 <= tot < n && tot <= avail <= n && last == LastBlock(off, n, avail)
    && (tot + m <= avail ==> (bn < last && tot + m < n && Edge(off + (tot + m))) || (bn == last && tot + m == n))
    && (tot + m > avail ==> bn == last && tot == Whole(off, n, avail))
  }

  lemma TurnAtSpot(off: int, n: int, avail: int, tot: int, m: int, bn: int, last: int)
    requires 0 <= off && 0 <= tot < n && tot <= avail <= n && last == LastBlock(off, n, avail)
    requires m == Min(n - tot, 1024 - (off + tot) % 1024) && bn == (off + tot) / 1024 && (tot == 0 || Edge(off + tot))
    ensures TurnSpot(off, n, avail, tot, m, bn, last)
  {
    TurnPlace(off, n, avail, tot, off + tot, m, last);
    hide Whole, LastBlock;
    assert off + tot + m == off + (tot + m);
  }

  lemma WriteGoesOn(sb: Super, s0: Snap, t: Snap, ip: int, off: int, src: seq<bv8>, avail: int, tot: int,
                    m: int, p: int, end: int, it: int, datas: set<int>, maps: set<int>, bn: int, last: int)
    requires TurnSpot(off, |src|, avail, tot, m, bn, last) && TurnRoom(sb, s0, t, ip, bn, last, 0)
    requires TurnResult(sb, s0, t, ip, off, src, avail, tot, m, 0, p, end, it, datas, maps) && ChangesLogged(s0, t, {})
    ensures 0 < m <= |src| - tot && WriteSoFar(sb, s0, t, ip, off, src, avail, tot + m, it, datas, maps, last)
  {
    TurnToWritten(sb, s0, t, ip, off, src, avail, tot, m, 0, p, end, it, datas, maps);
    hide AtTurn, Sound, TurnResult, ChangesLogged, Before, SpareKept, EnoughFor, FileBlock, LastBlock, InLogThen, Whole, Edge;
  }

  lemma WriteStops(sb: Super, s0: Snap, t: Snap, ip: int, off: int, src: seq<bv8>, avail: int, tot: int,
                   m: int, left: int, p: int, end: int, it: int, datas: set<int>, maps: set<int>, bn: int, last: int)
    requires TurnSpot(off, |src|, avail, tot, m, bn, last) && TurnRoom(sb, s0, t, ip, bn, last, left)
    requires left != 0 && TurnResult(sb, s0, t, ip, off, src, avail, tot, m, left, p, end, it, datas, maps)
    requires BlockAt(ImageOf(t), ip, off + tot) == FileBlock(t, ip, bn)
    requires ChangesLogged(s0, t, Only(p > 0, BlockAt(ImageOf(t), ip, off + tot)))
    ensures AllPut(sb, s0, t, ip, off, src, avail, tot, tot + p, end, it, datas, maps)
  {
    TurnToWritten(sb, s0, t, ip, off, src, avail, tot, m, left, p, end, it, datas, maps);
    hide Written, Sound, TurnResult, ChangesLogged, Before, SpareKept, EnoughFor, FileBlock, BlockAt, LastBlock, InLogThen, NoneFree, Whole, Only, Edge;
  }

  lemma WriteThrough(sb: Super, s0: Snap, t: Snap, ip: int, off: int, src: seq<bv8>, avail: int,
                     it: int, datas: set<int>, maps: set<int>, last: int)
    requires WriteSoFar(sb, s0, t, ip, off, src, avail, |src|, it, datas, maps, last)
    requires avail <= |src| && last == LastBlock(off, |src|, avail) && 0 <= ip < |s0.inodes|
    ensures AllPut(sb, s0, t, ip, off, src, avail, |src|, |src|, Max(s0.inodes[ip].size, off + |src|), it, datas, maps)
  {
    AllWritten(sb, s0, t, ip, off, src, avail, it, datas, maps);
    WholeAll(off, |src|);
    hide AtTurn, Written, ChangesLogged, Before, SpareKept, EnoughFor, LastBlock, InLogThen, NoneFree, Whole, BlockAt;
  }

  lemma WholeAll(off: int, n: int)
    ensures Whole(off, n, n) == n
  {
  }

  /** When a write leaves bytes in a buffer that it does not report: the request fits the file, some but not all of
      it can be read, what can be read ends inside a block, and there is room up to that block. */
  ghost predicate Leftover(sb: Super, s: Snap, ip: int, off: int, n: int, avail: int) {
    && 0 <= ip < |s.inodes| && off <= s.inodes[ip].size && off + n <= MAXFILE * 1024
    && 0 < avail < n && (off + avail) % 1024 != 0 && EnoughFor(sb, s, ip, (off + avail) / 1024)
  }

  lemma LeftoverFits(sb: Super, s: Snap, ip: int, off: int, n: int, avail: int)
    requires 0 <= ip < |s.inodes| && (off > s.inodes[ip].size || off + n > MAXFILE * 1024)
    ensures !Leftover(sb, s, ip, off, n, avail)
  {
  }

  /** Whole chunks are less than all that can be read when that ends inside a block. */
  lemma WholeLess(off: int, n: int, avail: int)
    requires 0 <= off && 0 <= avail <= n
    ensures Whole(off, n, avail) < avail <==> 0 < avail < n && (off + avail) % 1024 != 0
    ensures Whole(off, n, avail) <= avail
    ensures avail < n ==> LastBlock(off, n, avail) == (off + avail) / 1024
  {
    var q, x := (off + avail) / 1024, (off + avail) % 1024;
    assert off + avail == q * 1024 + x;
  }

  lemma LeftoverIff(sb: Super, s0: Snap, t: Snap, ip: int, off: int, n: int, avail: int, tot: int, w: int)
    requires (if n > 0 then Outcome(sb, s0, t, ip, off, n, avail, tot, w) else w == tot) && 0 <= off && 0 <= avail <= n
    requires 0 <= ip < |s0.inodes| && off <= s0.inodes[ip].size && off + n <= MAXFILE * 1024
    ensures w > tot <==> Leftover(sb, s0, ip, off, n, avail)
    ensures w > tot ==> LastBlock(off, n, avail) == (off + avail) / 1024
  {
    WholeLess(off, n, avail);
    hide EnoughFor, SpareKept, NoneFree, Whole, LastBlock;
  }

  /** Setting the size and logging the inode's block changes none of this. */
  lemma OutcomeFinished(sb: Super, s0: Snap, t: Snap, ip: int, off: int, n: int, avail: int, tot: int, w: int, size: int)
    requires Outcome(sb, s0, t, ip, off, n, avail, tot, w) && Sound(sb, t) && 0 <= ip < |t.inodes| && 0 <= size <= MAXFILE * 1024
    ensures Outcome(sb, s0, Finished(sb, t, ip, size), ip, off, n, avail, tot, w)
  {
    TreeIgnoresSize(sb, ImageOf(t), t.owner, ip, size);
    var u := Finished(sb, t, ip, size);
    assert ImageOf(u) == SetSize(ImageOf(t), ip, size);
    hide Sound, Slot, EnoughFor, SpareKept, NoneFree, Whole, LastBlock;
    SpareFill(sb, s0, t, u, ip, LastBlock(off, n, avail));
  }

  lemma StayFinished(sb: Super, s0: Snap, t: Snap, ip: int, size: int)
    requires SlotsStay(ImageOf(s0), ImageOf(t)) && Sound(sb, t) && 0 <= ip < |t.inodes| && 0 <= size <= MAXFILE * 1024
    ensures SlotsStay(ImageOf(s0), ImageOf(Finished(sb, t, ip, size)))
    ensures IndirectLogged(s0, t, ip) ==> IndirectLogged(s0, Finished(sb, t, ip, size), ip)
  {
    TreeIgnoresSize(sb, ImageOf(t), t.owner, ip, size);
    assert ImageOf(Finished(sb, t, ip, size)) == SetSize(ImageOf(t), ip, size);
    hide Sound, Slot;
  }

  /** Nor does it log a block of the file. */
  lemma LogFinished(sb: Super, t: Snap, ip: int, size: int, o: int)
    requires Sound(sb, t) && 0 <= ip < |t.inodes| && 0 <= size <= MAXFILE * 1024 && 0 <= o && BlockAt(ImageOf(t), ip, o) != 0
    ensures var u := Finished(sb, t, ip, size);
            BlockAt(ImageOf(u), ip, o) == BlockAt(ImageOf(t), ip, o) && (BlockAt(ImageOf(u), ip, o) in u.logged <==> BlockAt(ImageOf(t), ip, o) in t.logged)
  {
    SizeMovesNothing(sb, t, ip, size, o);
    DataBlockAlone(sb, t, ip, o / 1024, BlockAt(ImageOf(t), ip, o), ip, o / 1024);
    assert ImageOf(Finished(sb, t, ip, size)) == SetSize(ImageOf(t), ip, size);
    assert IBlock(sb, ip) < sb.datastart by {
      assert sb.Valid() && |t.inodes| == sb.ninodes;
      hide Slot, MapShows;
    }
    hide Sound, Slot, IBlock;
  }

  /** The block that byte off lies in comes before `last`, or is it; and if it is, the write ends in it. */
  lemma TurnPlace(off0: int, n: int, avail: int, tot: int, off: int, m: int, last: int)
    requires 0 <= off0 && 0 <= tot < n && tot <= avail <= n && off == off0 + tot && last == LastBlock(off0, n, avail)
    requires m == Min(n - tot, 1024 - off % 1024)
    ensures 0 <= off / 1024 <= last
    ensures tot + m <= avail && off / 1024 == last ==> tot + m == n
    ensures tot + m > avail ==> off / 1024 == last
    ensures tot + m == n && tot + m <= avail ==> off / 1024 == last
    ensures tot + m < n ==> (off + m) % 1024 == 0
    ensures tot + m > avail && (tot == 0 || off % 1024 == 0) ==> tot == Whole(off0, n, avail)
  {
    var q, x := off / 1024, off % 1024;
    var o := off0 + Min(avail, n - 1);
    var l, y := o / 1024, o % 1024;
    assert off == q * 1024 + x && o == l * 1024 + y && l == last;
    BlockParts(q, x, off);
    if tot + m < n {
      BlockParts(q + 1, 0, off + m);
    }
    PlaceOfTurn(off0, n, avail, tot, m, q, x, l, y);
    if tot + m > avail && (tot == 0 || off % 1024 == 0) {
      BlockParts(q, y, off0 + avail);
    }
  }

  lemma PlaceOfTurn(off0: int, n: int, avail: int, tot: int, m: int, q: int, x: int, l: int, y: int)
    requires 0 <= off0 && 0 <= tot < n && tot <= avail <= n && m == Min(n - tot, 1024 - x) && 0 <= x < 1024 && 0 <= y < 1024
    requires off0 + tot == q * 1024 + x && off0 + Min(avail, n - 1) == l * 1024 + y
    ensures q <= l && (tot + m <= avail && q == l ==> tot + m == n)
    ensures tot + m > avail ==> q == l && avail < n
    ensures tot + m == n && tot + m <= avail ==> q == l
  {
  }

  // ----- An empty disk -----

  const NoBlocks: Inode := Inode(0, [0, 0, 0, 0, 0, 0, 0, 0, 0, 0, 0, 0, 0])

  ghost predicate Blank(sb: Super, s: Snap) {
    && sb.Valid() && |s.inodes| == sb.ninodes && |s.store| == sb.size && s.owner == map[] && s.marked == {}
    && (forall i :: 0 <= i < |s.inodes| ==> s.inodes[i] == NoBlocks)
    && forall b :: 0 <= b < sb.size ==> (Marked(sb, s.store, b) <==> b < sb.datastart)
  }

  lemma BlankSlots(sb: Super, s: Snap)
    requires Blank(sb, s)
    ensures forall i, k :: Slot(ImageOf(s), i, k) == 0
  {
    forall i, k ensures Slot(ImageOf(s), i, k) == 0 {
      if SlotRange(ImageOf(s), i, k) {
        assert s.inodes[i] == NoBlocks;
      }
    }
    hide Marked;
  }

  lemma BlankSound(sb: Super, s: Snap)
    requires Blank(sb, s)
    ensures Sound(sb, s) && NoHoles(ImageOf(s))
  {
    BlankSlots(sb, s);
    hide Slot, Marked;
  }

  lemma NoBits(i: int)
    requires 0 <= i < BPB
    ensures !Bit(ZeroBlock, i)
  {
  }

  class FileSystem {
    const sb: Super
    var inodes: seq<Inode>
    var dinodes: seq<Inode>
    var store: seq<Block>
    ghost var owner: map<int, (int, int)>
    ghost var marked: set<int>
    ghost var logged: set<int>

    ghost function Im(): Image
      reads this
    {
      Image(inodes, store)
    }

    ghost function Now(): Snap
      reads this
    {
      Snap(inodes, store, owner, marked, logged)
    }

    /** The map and the tree agree. */
    ghost predicate Working()
      reads this
    {
      Sound(sb, Now())
    }

    /** Between operations: no holes either. */
    ghost predicate Valid()
      reads this
    {
      Working() && NoHoles(Im()) && |dinodes| == sb.ninodes
    }

    /** mkfs: zeroed blocks, inodes without blocks, and a free map that has the blocks below datastart in use. */
    constructor (sb0: Super)
      requires sb0.Valid()
      ensures sb == sb0 && Valid() && Blank(sb, Now()) && logged == {}
    {
      sb := sb0;
      inodes := seq(sb0.ninodes, i => NoBlocks);
      dinodes := seq(sb0.ninodes, i => NoBlocks);
      store := seq(sb0.size, i => ZeroBlock);
      owner, marked, logged := map[], {}, {};
      new;
      hide Bit, SetBit, ZeroBlock;
      var b := 0;
      forall c | 0 <= c < sb.size ensures !Marked(sb, store, c) {
        NoBits(c % 8192);
      }
      while b < sb.datastart
        invariant 0 <= b <= sb.datastart && |store| == sb.size
        invariant forall c :: 0 <= c < sb.size ==> (Marked(sb, store, c) <==> c < b)
        invariant owner == map[] && marked == {} && logged == {} && |dinodes| == sb.ninodes
        invariant |inodes| == sb.ninodes && forall i :: 0 <= i < |inodes| ==> inodes[i] == NoBlocks
      {
        forall c | 0 <= c < sb.size ensures Marked(sb, MarkIn(sb, store, b), c) <==> c < b + 1 {
          MarkOne(sb, store, b, c);
        }
        store := MarkIn(sb, store, b);
        b := b + 1;
      }
      BlankSound(sb, Now());
    }

    lemma MapBit(b: int)
      requires Working() && 0 <= b < sb.size
      ensures sb.Valid() && |store| == sb.size && 0 <= BBlock(sb, b) < sb.datastart
      ensures Marked(sb, store, b) <==> b < sb.datastart || b in marked
    {
      hide Bit, Slot;
    }

    lemma Shape()
      requires Working()
      ensures 0 < sb.datastart <= sb.size == |store| && |inodes| == sb.ninodes
      ensures forall i :: 0 <= i < |inodes| ==> InodeOk(inodes[i])
    {
    }

    /** What the test in balloc's inner loop finds. */
    lemma TestBit(b: int, g: int, bi: int, c: int)
      requires Working() && 0 <= b == g * 8192 && 0 <= bi < BPB && c == b + bi < sb.size
      ensures 0 <= BBlock(sb, b) < |store|
      ensures Bit(store[BBlock(sb, b)], bi) <==> c < sb.datastart || c in marked
    {
      ScanBit(g, bi, c);
      MapBit(c);
      hide Bit, Sound;
    }

    /** log_write, as far as a transaction's size goes. */
    ghost method LogWrite(b: int)
      modifies this`logged
      ensures logged == old(logged) + {b}
    {
      logged := logged + {b};
    }

    /** balloc: the lowest free block, zeroed, or 0 when every block is in use. */
    method Balloc() returns (r: int)
      requires Working()
      modifies this`store, this`marked, this`logged
      ensures Allocated(sb, old(Now()), Now(), r)
      ensures r != 0 ==> NoneFreeBelow(sb, old(marked), r)
      ensures ChangesLogged(old(Now()), Now(), {})
    {
      r := FindFree();
      Unmoved(Im());
      if r == 0 {
        return;
      }
      hide Slot, Marked, Tree, MapShows, SameBytes, SameSlots, ZeroBlock, SetBit;
      MapBit(r);
      BallocImage(sb, Im(), owner, marked, r);
      MarkUsed(r);
      marked := marked + {r};
      Bzero(r);
    }

    /** bp->data[bi/8] |= m; log_write(bp). */
    method MarkUsed(b: int)
      requires sb.Valid() && |store| == sb.size && 0 <= b < sb.size && 0 <= BBlock(sb, b) < |store|
      modifies this`store, this`logged
      ensures store == MarkIn(sb, old(store), b) && logged == old(logged) + {BBlock(sb, b)}
    {
      hide Mask;
      var bi := b % 8192;
      var bp := store[BBlock(sb, b)];
      store := store[BBlock(sb, b) := bp[bi / 8 := bp[bi / 8] | Mask(bi % 8)]];
      LogWrite(BBlock(sb, b));
    }

    /** bzero. */
    method Bzero(b: int)
      requires 0 <= b < |store|
      modifies this`store, this`logged
      ensures store == old(store)[b := ZeroBlock] && Zeroed(store[b]) && logged == old(logged) + {b}
    {
      ZeroedIsZero(ZeroBlock);
      store := store[b := ZeroBlock];
      LogWrite(b);
    }

    /** The two loops of balloc over the free map. */
    method FindFree() returns (r: int)
      requires Working()
      ensures r == 0 ==> NoneFree(sb, marked)
      ensures r != 0 ==> sb.datastart <= r < sb.size && r !in marked && NoneFreeBelow(sb, marked, r)
    {
      Shape();
      assert NoneFreeBelow(sb, marked, 0);
      hide Working, NoneFreeBelow;
      r := 0;
      var b := 0;
      ghost var g := 0;
      while b < sb.size
        invariant 0 <= b == g * 8192
        invariant NoneFreeBelow(sb, marked, if b < sb.size then b else sb.size)
      {
        ghost var stop := if b + BPB < sb.size then b + BPB else sb.size;
        r := ScanMapBlock(b, g, stop);
        if r != 0 {
          return;
        }
        b := b + BPB;
        g := g + 1;
      }
    }

    /** The inner loop: the first clear bit of one bitmap block, up to block number `stop`. */
    method ScanMapBlock(b: int, ghost g: int, ghost stop: int) returns (r: int)
      requires Working() && 0 <= b == g * 8192 && b < sb.size && NoneFreeBelow(sb, marked, b)
      requires stop == if b + BPB < sb.size then b + BPB else sb.size
      ensures r == 0 ==> NoneFreeBelow(sb, marked, stop)
      ensures r != 0 ==> sb.datastart <= r < sb.size && r !in marked && NoneFreeBelow(sb, marked, r)
    {
      Shape();
      hide Working, NoneFreeBelow;
      r := b;
      var bi := 0;
      while bi < BPB && b + bi < sb.size
        invariant 0 <= bi <= BPB && r == b + bi <= stop && NoneFreeBelow(sb, marked, r)
      {
        var isSet := ReadBit(b, g, bi, r);
        if !isSet {
          return;
        }
        bi := bi + 1;
        r := r + 1;
      }
      assert r == stop;
      r := 0;
    }

    /** (bp->data[bi/8] & m) != 0. */
    method ReadBit(b: int, ghost g: int, bi: int, ghost c: int) returns (isSet: bool)
      requires Working() && 0 <= b == g * 8192 && 0 <= bi < BPB && c == b + bi < sb.size && NoneFreeBelow(sb, marked, c)
      ensures !isSet ==> sb.datastart <= c && c !in marked
      ensures isSet ==> NoneFreeBelow(sb, marked, c + 1)
    {
      TestBit(b, g, bi, c);
      hide Working, NoneFreeBelow;
      isSet := TestAndMask(store[BBlock(sb, b)], bi);
      hide Bit, BBlock;
      if isSet {
        NoneFreeStep(sb, marked, c);
      }
    }

    method TestAndMask(bp: Block, bi: int) returns (isSet: bool)
      requires 0 <= bi < BPB
      ensures isSet == Bit(bp, bi)
    {
      var m := Mask(bi % 8);
      isSet := bp[bi / 8] & m != 0;
    }

    lemma AddrSlot(ip: int, k: int)
      requires Working() && 0 <= ip < |inodes| && 0 <= k <= NDIRECT
      ensures |inodes[ip].addrs| == NDIRECT + 1 && inodes[ip].addrs[k] == Slot(Im(), ip, k)
      ensures 0 <= inodes[ip].addrs[k] < |store|
    {
      assert SlotRange(Im(), ip, k);
      hide Word;
    }

    lemma EntryValue(ip: int, j: int)
      requires Working() && 0 <= ip < |inodes| && 0 <= j < NINDIRECT && Slot(Im(), ip, NDIRECT) != 0
      ensures var ind := Slot(Im(), ip, NDIRECT);
              0 < ind < |store| && Slot(Im(), ip, NDIRECT + 1 + j) == Word(store[ind], j)
    {
      AddrSlot(ip, NDIRECT);
      hide Word;
    }

    /** ip->addrs[k] = balloc(), when the address is 0. */
    method AllocAddr(ip: int, k: int) returns (addr: int, ghost maps: set<int>)
      requires Working() && 0 <= ip < |inodes| && 0 <= k <= NDIRECT
      requires Slot(Im(), ip, k) == 0
      modifies this`inodes, this`store, this`owner, this`marked, this`logged
      ensures Provided(sb, old(Now()), Now(), ip, k, addr, maps)
      ensures |maps| <= if addr != 0 then 1 else 0
      ensures ChangesLogged(old(Now()), Now(), {})
      ensures Took(sb, old(Now()), Now(), ip, k, addr) && InMap(sb, maps)
    {
      ghost var was := Now();
      Shape();
      hide MapBlockOf, Provided, Slot, Sound, Allocated, BBlock, Took, InMap;
      addr := Balloc();
      maps := MapBlockOf(sb, addr);
      AddrProvided(sb, was, Now(), ip, k, addr);
      SameInodes(was, addr);
      BallocMap(was, addr, ip, k);
      if addr != 0 {
        inodes := inodes[ip := inodes[ip].(addrs := inodes[ip].addrs[k := addr])];
        owner := owner[addr := (ip, k)];
      }
    }

    lemma BallocMap(was: Snap, addr: int, ip: int, k: int)
      requires Allocated(sb, was, Now(), addr) && Sound(sb, was)
      ensures InMap(sb, MapBlockOf(sb, addr)) && (addr == 0 ==> Took(sb, was, Now(), ip, k, 0))
    {
      assert sb.Valid();
      hide Slot, MapShows, BBlock, MapBlockOf, InMap;
      InMapBlock(sb, addr);
    }

    lemma SameInodes(was: Snap, addr: int)
      requires Allocated(sb, was, Now(), addr)
      ensures inodes == was.inodes
    {
    }

    /** The entry of a present indirect block, allocated when it is 0. */
    method AllocEntry(ip: int, j: int) returns (addr: int, ghost maps: set<int>)
      requires Working() && 0 <= ip < |inodes| && 0 <= j < NINDIRECT
      requires Slot(Im(), ip, NDIRECT) != 0 && Slot(Im(), ip, NDIRECT + 1 + j) == 0
      modifies this`store, this`owner, this`marked, this`logged
      ensures Provided(sb, old(Now()), Now(), ip, NDIRECT + 1 + j, addr, maps)
      ensures |maps| <= if addr != 0 then 1 else 0
      ensures ChangesLogged(old(Now()), Now(), {})
      ensures Took(sb, old(Now()), Now(), ip, NDIRECT + 1 + j, addr) && InMap(sb, maps)
    {
      ghost var was := Now();
      hide MapBlockOf, Provided, Slot, Sound, Allocated, BBlock, SetWord, IsWord, Took, InMap;
      addr := Balloc();
      EntryProvided(sb, was, Now(), ip, j, addr);
      BallocMap(was, addr, ip, NDIRECT + 1 + j);
      maps := MapBlockOf(sb, addr);
      if addr != 0 {
        ghost var mid := Now();
        SetIndirectEntry(ip, j, addr);
        ChangesThen(was, mid, Now(), {});
      }
    }

    method SetIndirectEntry(ip: int, j: int, addr: int)
      requires 0 <= ip < |inodes| && |inodes[ip].addrs| == NDIRECT + 1 && 0 <= j < NINDIRECT
      requires 0 < inodes[ip].addrs[NDIRECT] < |store| && IsWord(addr)
      modifies this`store, this`owner, this`logged
      ensures Now() == EntrySnap(old(Now()), ip, j, addr)
      ensures ChangesLogged(old(Now()), Now(), {})
    {
      hide SetWord;
      var ind := inodes[ip].addrs[NDIRECT];
      store := store[ind := SetWord(store[ind], j, addr)];
      LogWrite(ind);
      owner := owner[addr := (ip, NDIRECT + 1 + j)];
    }

    /** bmap: the block of file block bn, allocated with its indirect block when missing. */
    method Bmap(ip: int, bn: int) returns (addr: int, ghost maps: set<int>)
      requires Working() && 0 <= ip < |inodes| && 0 <= bn < MAXFILE
      modifies this`inodes, this`store, this`owner, this`marked, this`logged
      ensures Provided(sb, old(Now()), Now(), ip, FileSlot(bn), addr, maps)
      ensures |maps| <= Count(addr != 0 && Slot(old(Im()), ip, FileSlot(bn)) == 0) + NewIndirect(old(Now()), Now(), ip)
      ensures ChangesLogged(old(Now()), Now(), {})
      ensures Even(sb, old(Now()), Now(), ip, bn) && InMap(sb, maps)
      ensures addr != 0 && Slot(old(Im()), ip, FileSlot(bn)) == 0 ==> addr in logged
    {
      hide Provided, Slot, Sound, ChangesLogged, Even, InMap;
      if bn < NDIRECT {
        addr, maps := BmapDirect(ip, bn);
      } else {
        var j := bn - NDIRECT;
        assert FileSlot(bn) == NDIRECT + 1 + j;
        addr, maps := BmapIndirect(ip, j);
      }
    }

    /** The part of bmap for the blocks that the inode names itself. */
    method BmapDirect(ip: int, bn: int) returns (addr: int, ghost maps: set<int>)
      requires Working() && 0 <= ip < |inodes| && 0 <= bn < NDIRECT
      modifies this`inodes, this`store, this`owner, this`marked, this`logged
      ensures Provided(sb, old(Now()), Now(), ip, bn, addr, maps)
      ensures |maps| <= Count(addr != 0 && Slot(old(Im()), ip, bn) == 0)
      ensures ChangesLogged(old(Now()), Now(), {})
      ensures Even(sb, old(Now()), Now(), ip, bn) && InMap(sb, maps)
      ensures addr != 0 && Slot(old(Im()), ip, bn) == 0 ==> addr in logged
    {
      ghost var was := Now();
      NoChanges(was);
      Shape();
      AddrSlot(ip, bn);
      EvenSame(sb, was, ip, bn);
      hide Provided, Slot, Sound, ChangesLogged, OnlySlot, Even, SlotRange;
      maps := {};
      addr := inodes[ip].addrs[bn];
      if addr == 0 {
        addr, maps := AllocAddr(ip, bn);
        TookEven(sb, was, Now(), ip, bn, addr, bn);
      } else {
        ProvidedAlready(sb, Now(), ip, bn);
      }
    }

    /** The part of bmap that goes through the indirect block. */
    method BmapIndirect(ip: int, j: int) returns (addr: int, ghost maps: set<int>)
      requires Working() && 0 <= ip < |inodes| && 0 <= j < NINDIRECT
      modifies this`inodes, this`store, this`owner, this`marked, this`logged
      ensures Provided(sb, old(Now()), Now(), ip, NDIRECT + 1 + j, addr, maps)
      ensures |maps| <= Count(addr != 0 && Slot(old(Im()), ip, NDIRECT + 1 + j) == 0) + NewIndirect(old(Now()), Now(), ip)
      ensures ChangesLogged(old(Now()), Now(), {})
      ensures Even(sb, old(Now()), Now(), ip, NDIRECT + j) && InMap(sb, maps)
      ensures addr != 0 && Slot(old(Im()), ip, NDIRECT + 1 + j) == 0 ==> addr in logged
    {
      AddrSlot(ip, NDIRECT);
      ghost var was := Now();
      NoChanges(was);
      EvenSame(sb, was, ip, NDIRECT + j);
      hide Provided, Slot, Sound, Word, ChangesLogged, Even, Took;
      maps := {};
      var ind := inodes[ip].addrs[NDIRECT];
      if ind == 0 {
        ind, maps := AllocAddr(ip, NDIRECT);
        TookIndirect(was, ip, j, ind);
        if ind == 0 {
          ProvidedNoIndirect(sb, was, Now(), ip, j);
          return 0, {};
        }
      } else {
        ProvidedAlready(sb, Now(), ip, NDIRECT);
      }
      ghost var mid := Now();
      ProvidedGist(sb, was, mid, ip, NDIRECT, ind, maps);
      ghost var more;
      addr, more := EntryOrNew(ip, j);
      ChangesThen(was, mid, Now(), {});
      EvenThen(sb, was, mid, Now(), ip, NDIRECT + j);
      EntryNeedsIndirect(was, ip, j);
      ProvidedThen(sb, was, mid, Now(), ip, NDIRECT + 1 + j, ind, addr, maps, more);
      ProvidedGist(sb, mid, Now(), ip, NDIRECT + 1 + j, addr, more);
      maps := maps + more;
    }

    /** The entry of a present indirect block, which is allocated when it is 0. */
    method EntryOrNew(ip: int, j: int) returns (addr: int, ghost maps: set<int>)
      requires Working() && 0 <= ip < |inodes| && 0 <= j < NINDIRECT && Slot(Im(), ip, NDIRECT) != 0
      modifies this`inodes, this`store, this`owner, this`marked, this`logged
      ensures Provided(sb, old(Now()), Now(), ip, NDIRECT + 1 + j, addr, maps)
      ensures |maps| <= Count(addr != 0 && Slot(old(Im()), ip, NDIRECT + 1 + j) == 0)
      ensures ChangesLogged(old(Now()), Now(), {})
      ensures Even(sb, old(Now()), Now(), ip, NDIRECT + j) && InMap(sb, maps)
      ensures addr != 0 && Slot(old(Im()), ip, NDIRECT + 1 + j) == 0 ==> addr in logged
    {
      ghost var was := Now();
      NoChanges(was);
      AddrSlot(ip, NDIRECT);
      EntryValue(ip, j);
      EvenSame(sb, was, ip, NDIRECT + j);
      hide Provided, Slot, Sound, Word, ChangesLogged, Even, Took;
      addr := Word(store[inodes[ip].addrs[NDIRECT]], j);
      maps := {};
      if addr == 0 {
        addr, maps := AllocEntry(ip, j);
        TookEntry(was, ip, j, addr);
      } else {
        ProvidedAlready(sb, Now(), ip, NDIRECT + 1 + j);
      }
    }

    lemma TookIndirect(was: Snap, ip: int, j: int, ind: int)
      requires Took(sb, was, Now(), ip, NDIRECT, ind) && Working() && 0 <= j < NINDIRECT
      ensures Even(sb, was, Now(), ip, NDIRECT + j)
      ensures Slot(Im(), ip, NDIRECT + 1 + j) == Slot(ImageOf(was), ip, NDIRECT + 1 + j)
    {
      Shape();
      hide Sound, Slot, OnlySlot, Even, SlotRange;
      TookEven(sb, was, Now(), ip, NDIRECT, ind, NDIRECT + j);
      if ind != 0 {
        SlotsBut(ImageOf(was), Im(), ip, NDIRECT, ind);
      }
    }

    lemma TookEntry(was: Snap, ip: int, j: int, addr: int)
      requires Took(sb, was, Now(), ip, NDIRECT + 1 + j, addr) && Working() && 0 <= j < NINDIRECT
      ensures Even(sb, was, Now(), ip, NDIRECT + j) && (addr != 0 ==> addr in logged)
    {
      Shape();
      assert FileSlot(NDIRECT + j) == NDIRECT + 1 + j;
      hide Sound, Slot, OnlySlot, Even, SlotRange, FileSlot;
      TookEven(sb, was, Now(), ip, NDIRECT + 1 + j, addr, NDIRECT + j);
    }

    lemma EntryNeedsIndirect(was: Snap, ip: int, j: int)
      requires Sound(sb, was) && 0 <= ip < |was.inodes| && 0 <= j < NINDIRECT
      ensures Slot(ImageOf(was), ip, NDIRECT) == 0 ==> Slot(ImageOf(was), ip, NDIRECT + 1 + j) == 0
    {
      hide Word;
      assert SlotRange(ImageOf(was), ip, NDIRECT);
    }

    /** either_copyin: m bytes of src from `tot` on into the block at x, of which the user's memory
        yields those before `avail`. */
    method CopyIn(blk: Block, x: int, src: seq<bv8>, tot: int, m: int, avail: int) returns (r: Block, ok: bool, ghost p: int)
      requires 0 <= x && 0 <= m && x + m <= BSIZE && 0 <= tot && tot + m <= |src| && 0 <= avail <= |src|
      ensures ok <==> tot + m <= avail
      ensures 0 <= p <= m && (ok ==> p == m) && (!ok ==> (p > 0 <==> tot < avail) && (p > 0 ==> tot + p == avail))
      ensures r == Splice(blk, x, src[tot..tot + p])
    {
      ok := tot + m <= avail;
      var n := if ok then m else if avail < tot then 0 else avail - tot;
      p := n;
      r := Splice(blk, x, src[tot..tot + n]);
    }

    /** bmap, as the loop of writei calls it. */
    method MapForWrite(ghost s0: Snap, ip: int, ghost off0: int, ghost src: seq<bv8>, ghost tot: int, ghost end: int,
                       ghost it: int, ghost mapped: bool, ghost datas: set<int>, ghost maps: set<int>, bn: int)
      returns (addr: int, ghost datas': set<int>, ghost maps': set<int>)
      requires WriteLoop(sb, s0, Now(), ip, off0, src, tot, end, it, mapped, datas, maps)
      requires Working() && 0 <= ip < |inodes| && 0 <= bn < MAXFILE && bn * 1024 <= end
      requires mapped && it == 0 ==> Slot(Im(), ip, FileSlot(bn)) != 0
      modifies this`inodes, this`store, this`owner, this`marked, this`logged
      ensures WriteLoop(sb, s0, Now(), ip, off0, src, tot, end, it + Count(addr != 0), mapped, datas', maps')
      ensures Working() && addr == Slot(Im(), ip, FileSlot(bn)) && (addr != 0 ==> addr in datas')
      ensures addr == 0 ==> NoneFree(sb, marked)
      ensures addr != 0 ==> MappedTo(Im(), ip, bn * 1024 + 1024)
      ensures ChangesLogged(old(Now()), Now(), {})
      ensures Even(sb, old(Now()), Now(), ip, bn) && MapLogs(sb, old(Now()), Now(), ip, addr)
      ensures FileBlock(old(Now()), ip, bn) != 0 ==> Now() == old(Now())
      ensures addr != 0 && FileBlock(old(Now()), ip, bn) == 0 ==> addr in logged
    {
      ghost var s := Now();
      hide Even, MapLogs, InMap;
      hide WriteLoop, Provided, Sound, Slot, NewIndirect, MappedTo, NoneFree, Count, ChangesLogged;
      ghost var more;
      addr, more := Bmap(ip, bn);
      WriteLoopMapped(sb, s0, s, Now(), ip, off0, src, tot, end, it, mapped, datas, maps, bn, addr, more);
      ProvidedFull(sb, s, Now(), ip, FileSlot(bn), addr, more);
      ProvidedLogs(sb, s, Now(), ip, FileSlot(bn), addr, more);
      datas' := datas + NonZero(addr);
      assert addr != 0 ==> addr in NonZeroG(addr);
      maps' := maps + more;
    }

    /** memmove into the buffer, and log_write when all of it arrived. */
    method PutBytes(ghost s0: Snap, ip: int, ghost off0: int, src: seq<bv8>, avail: int, tot: int, ghost end: int,
                    ghost it: int, ghost mapped: bool, ghost datas: set<int>, ghost maps: set<int>,
                    ghost bn: int, x: int, m: int, addr: int, ghost end': int)
      returns (ok: bool, ghost p: int)
      requires WriteLoop(sb, s0, Now(), ip, off0, src, tot, end, it, mapped, datas, maps)
      requires addr == Slot(Im(), ip, FileSlot(bn)) && addr != 0 && addr in datas
      requires 0 <= tot && 0 <= m && tot + m <= |src| && 0 <= avail <= |src|
      requires 0 <= off0 && 0 <= bn && off0 + tot == bn * 1024 + x && 0 <= x && x + m <= 1024
      requires MappedTo(Im(), ip, end')
      modifies this`store, this`logged
      ensures ok <==> tot + m <= avail
      ensures 0 <= p <= m && (ok ==> p == m) && (!ok ==> (p > 0 <==> tot < avail) && (p > 0 ==> tot + p == avail))
      ensures WriteLoop(sb, s0, Now(), ip, off0, src, tot + p, end', it, mapped, datas, maps)
      ensures ChangesLogged(old(Now()), Now(), Only(!ok && p > 0, addr)) && addr == Slot(Im(), ip, FileSlot(bn))
      ensures SameSlots(old(Im()), Im()) && logged == if ok then old(logged) + {addr} else old(logged)
    {
      hide SameSlots;
      hide WriteLoop, Sound, Slot, MappedTo, Splice, FileSlot;
      AddrInStore(s0, ip, off0, src, tot, end, it, mapped, datas, maps, bn, addr);
      var blk;
      blk, ok, p := CopyIn(store[addr], x, src, tot, m, avail);
      PutKeeps(s0, ip, off0, src, tot, end, it, mapped, datas, maps, bn, addr, x, p);
      WriteLoopCopied(sb, s0, Now(), ip, off0, src, tot, end, it, mapped, datas, maps, bn, x, p, addr, ok, end');
      store := store[addr := blk];
      if ok {
        LogWrite(addr);
      }
    }

    /** The slot stays, and so does the block when nothing is copied. */
    lemma PutKeeps(s0: Snap, ip: int, off0: int, src: seq<bv8>, tot: int, end: int,
                   it: int, mapped: bool, datas: set<int>, maps: set<int>, bn: int, addr: int, x: int, p: int)
      requires WriteLoop(sb, s0, Now(), ip, off0, src, tot, end, it, mapped, datas, maps)
      requires addr == Slot(Im(), ip, FileSlot(bn)) && addr != 0 && 0 <= bn && 0 < addr < |store|
      requires 0 <= tot && 0 <= p && tot + p <= |src| && 0 <= x && x + p <= 1024
      ensures var im := Image(inodes, store[addr := Splice(store[addr], x, src[tot..tot + p])]);
              Slot(im, ip, FileSlot(bn)) == addr && SameSlots(Im(), im)
      ensures p == 0 ==> Splice(store[addr], x, src[tot..tot + p]) == store[addr]
    {
      WriteLoopGist(sb, s0, Now(), ip, off0, src, tot, end, it, mapped, datas, maps);
      var blk := Splice(store[addr], x, src[tot..tot + p]);
      WriteData(sb, Now(), ip, bn, addr, blk);
      hide WriteLoop, Sound, Slot, FileSlot;
    }

    lemma AddrInStore(s0: Snap, ip: int, off0: int, src: seq<bv8>, tot: int, end: int,
                      it: int, mapped: bool, datas: set<int>, maps: set<int>, bn: int, addr: int)
      requires WriteLoop(sb, s0, Now(), ip, off0, src, tot, end, it, mapped, datas, maps)
      requires addr == Slot(Im(), ip, FileSlot(bn)) && addr != 0 && 0 <= bn
      ensures 0 < addr < |store|
    {
      hide Slot, LogShare, Counted;
      DataBlockAlone(sb, Now(), ip, bn, addr, ip, bn);
    }

    /** One turn of the loop of writei at file position `off`. */
    method WriteTurn(ghost s0: Snap, ip: int, ghost off0: int, src: seq<bv8>, avail: int, tot: int, off: int,
                     ghost it: int, ghost datas: set<int>, ghost maps: set<int>, ghost last: int)
      returns (m: int, left: int, ghost p: int, ghost end: int, ghost it': int, ghost datas': set<int>, ghost maps': set<int>)
      requires AtTurn(sb, s0, Now(), ip, off0, src, tot, it, datas, maps) && Working()
      requires tot < |src| && 0 <= avail <= |src| && off == off0 + tot && off0 + |src| <= MAXFILE * 1024
      requires 0 <= off0 && 0 <= ip < |s0.inodes| && off0 <= s0.inodes[ip].size && ChangesLogged(s0, Now(), {})
      requires Before(sb, s0, Now(), ip, last) && 0 <= off / 1024 <= last
      modifies this`inodes, this`store, this`owner, this`marked, this`logged
      ensures m == Min(|src| - tot, 1024 - off % 1024) && TurnRoom(sb, s0, Now(), ip, off / 1024, last, left)
      ensures TurnResult(sb, s0, Now(), ip, off0, src, avail, tot, m, left, p, end, it', datas', maps')
      ensures ChangesLogged(s0, Now(), Only(left != 0 && p > 0, BlockAt(Im(), ip, off)))
    {
      hide WriteLoop, Sound, Slot, MappedTo, FileSlot, NoneFree, Turns, AtTurn, ChangesLogged, Before, TurnRoom, TurnResult, Even, MapLogs, SameSlots;
      ghost var size, mapped := s0.inodes[ip].size, off0 % 1024 != 0;
      end := Max(size, off);
      var bn := off / 1024;
      var x := off % 1024;
      m := Min(|src| - tot, 1024 - x);
      TurnStart(s0, ip, off0, src, tot, off, m, end, it, datas, maps);
      ghost var s := Now();
      var addr;
      addr, datas', maps' := MapForWrite(s0, ip, off0, src, tot, end, it, mapped, datas, maps, bn);
      it' := it + Count(addr != 0);
      ChangesThen(s0, s, Now(), {});
      p := 0;
      ghost var mid := Now();
      if addr == 0 {
        TurnRoomNone(sb, s0, s, mid, ip, bn, last);
        TurnEmpty(sb, s0, mid, ip, off0, src, avail, tot, m, end, it, datas', maps');
        left := 1;
        return;
      }
      left, p, end := FillBlock(s0, ip, off0, src, avail, tot, off, m, end, it', datas', maps', bn, x, addr);
      TurnRoomSome(sb, s0, s, mid, Now(), ip, bn, last, addr, left);
      ChangesThen(s0, mid, Now(), Only(left != 0 && p > 0, addr));
    }

    /** The rest of the turn, with the block at hand. */
    method FillBlock(ghost s0: Snap, ip: int, ghost off0: int, src: seq<bv8>, avail: int, tot: int, ghost off: int, m: int,
                     ghost end: int, ghost it: int, ghost datas: set<int>, ghost maps: set<int>, ghost bn: int, x: int, addr: int)
      returns (left: int, ghost p: int, ghost end': int)
      requires WriteLoop(sb, s0, Now(), ip, off0, src, tot, end, it, off0 % 1024 != 0, datas, maps)
      requires 0 <= ip < |s0.inodes| && end == Max(s0.inodes[ip].size, off) && off == off0 + tot && 0 <= off0
      requires addr == Slot(Im(), ip, FileSlot(bn)) && addr != 0 && addr in datas && MappedTo(Im(), ip, bn * 1024 + 1024)
      requires 0 <= tot && 0 < m && tot + m <= |src| && 0 <= avail <= |src| && 0 <= bn && off == bn * 1024 + x && 0 <= x && x + m <= 1024
      requires Turns(off0 % 1024, |src|, it) && it >= 1 && (tot + m < |src| ==> off0 % 1024 + (tot + m) == it * 1024)
      modifies this`store, this`logged
      ensures TurnResult(sb, s0, Now(), ip, off0, src, avail, tot, m, left, p, end', it, datas, maps)
      ensures ChangesLogged(old(Now()), Now(), Only(left != 0 && p > 0, addr)) && addr == Slot(Im(), ip, FileSlot(bn))
      ensures (left == 0 || left == 2) && SameSlots(old(Im()), Im())
      ensures logged == if left == 0 then old(logged) + {addr} else old(logged)
    {
      hide SameSlots;
      hide WriteLoop, Sound, Slot, MappedTo, FileSlot, Turns, TurnResult, ChangesLogged;
      TurnMapped(s0, ip, off0, src, tot, end, it, off0 % 1024 != 0, datas, maps, bn, off + m);
      end' := Max(end, off + m);
      var ok;
      ok, p := PutBytes(s0, ip, off0, src, avail, tot, end, it, off0 % 1024 != 0, datas, maps, bn, x, m, addr, end');
      TurnFinished(sb, s0, Now(), ip, off0, src, avail, tot, m, ok, p, end', it, datas, maps);
      left := if ok then 0 else 2;
    }

    lemma TurnStart(s0: Snap, ip: int, off0: int, src: seq<bv8>, tot: int, off: int, m: int, end: int, it: int, datas: set<int>, maps: set<int>)
      requires AtTurn(sb, s0, Now(), ip, off0, src, tot, it, datas, maps) && tot < |src| && off == off0 + tot
      requires end == Max(s0.inodes[ip].size, off) && off0 <= s0.inodes[ip].size && m == Min(|src| - tot, 1024 - off % 1024)
      ensures WriteLoop(sb, s0, Now(), ip, off0, src, tot, end, it, off0 % 1024 != 0, datas, maps) && 0 <= tot && 1 <= m
      ensures 0 <= ip < |inodes| == |s0.inodes| && Turns(off0 % 1024, |src|, it) && Turns(off0 % 1024, |src|, it + 1)
      ensures tot + m < |src| ==> off0 % 1024 + (tot + m) == (it + 1) * 1024
      ensures 0 <= it && (off0 % 1024 != 0 && it == 0 ==> Slot(Im(), ip, FileSlot(off / 1024)) != 0)
    {
      TurnArithmetic(off0, |src|, tot, it, m, off);
      WriteLoopGist(sb, s0, Now(), ip, off0, src, tot, end, it, off0 % 1024 != 0, datas, maps);
      hide WriteLoop, Slot, Sound, MappedTo;
      if off0 % 1024 != 0 && it == 0 {
        FirstMapped(Im(), ip, end, off);
      }
    }

    lemma TurnMapped(s0: Snap, ip: int, off0: int, src: seq<bv8>, tot: int, end: int, it: int, mapped: bool,
                     datas: set<int>, maps: set<int>, bn: int, e: int)
      requires WriteLoop(sb, s0, Now(), ip, off0, src, tot, end, it, mapped, datas, maps)
      requires MappedTo(Im(), ip, bn * 1024 + 1024) && e <= bn * 1024 + 1024
      ensures MappedTo(Im(), ip, Max(end, e))
    {
      WriteLoopGist(sb, s0, Now(), ip, off0, src, tot, end, it, mapped, datas, maps);
      hide WriteLoop, Slot, Sound, MappedTo;
      MappedMax(Im(), ip, end, bn, e);
    }

    /** The loop of writei. */
    method WriteAll(ip: int, src: seq<bv8>, avail: int, off0: int)
      returns (tot: int, ghost w: int, ghost end: int, ghost it: int, ghost datas: set<int>, ghost maps: set<int>)
      requires Working() && NoHoles(Im()) && 0 <= ip < |inodes| && 0 <= avail <= |src|
      requires 0 <= off0 <= inodes[ip].size && off0 + |src| <= MAXFILE * 1024
      modifies this`inodes, this`store, this`owner, this`marked, this`logged
      ensures AllPut(sb, old(Now()), Now(), ip, off0, src, avail, tot, w, end, it, datas, maps)
    {
      hide WriteSoFar, AllPut, Sound, NoHoles, TurnResult, TurnRoom, ChangesLogged, LastBlock, AtTurn, Before, TurnSpot, Edge;
      ghost var s0, last := Now(), LastBlock(off0, |src|, avail);
      WriteStarts(sb, s0, ip, off0, src, avail, last);
      tot, it, datas, maps := 0, 0, {}, {};
      var off := off0;
      while tot < |src|
        invariant WriteSoFar(sb, s0, Now(), ip, off0, src, avail, tot, it, datas, maps, last)
        invariant 0 <= tot <= |src| && off == off0 + tot
      {
        var m, left; ghost var p;
        TurnAhead(sb, s0, Now(), ip, off0, src, avail, tot, it, datas, maps, last);
        m, left, p, end, it, datas, maps := WriteTurn(s0, ip, off0, src, avail, tot, off, it, datas, maps, last);
        TurnAtSpot(off0, |src|, avail, tot, m, off / 1024, last);
        if left != 0 {
          w := tot + p;
          WriteStops(sb, s0, Now(), ip, off0, src, avail, tot, m, left, p, end, it, datas, maps, off / 1024, last);
          return;
        }
        WriteGoesOn(sb, s0, Now(), ip, off0, src, avail, tot, m, p, end, it, datas, maps, off / 1024, last);
        tot := tot + m;
        off := off + m;
      }
      WriteThrough(sb, s0, Now(), ip, off0, src, avail, it, datas, maps, last);
      w := |src|;
      end := Max(s0.inodes[ip].size, off0 + |src|);
    }

    /** iupdate. */
    method Iupdate(ip: int)
      requires 0 <= ip < |inodes| == |dinodes|
      modifies this`dinodes, this`logged
      ensures dinodes == old(dinodes)[ip := inodes[ip]] && logged == old(logged) + {IBlock(sb, ip)}
    {
      dinodes := dinodes[ip := inodes[ip]];
      LogWrite(IBlock(sb, ip));
    }

    /** writei, once the request is known to fit the file. */
    method WriteFits(ip: int, src: seq<bv8>, avail: int, off0: int) returns (tot: int, ghost w: int)
      requires Valid() && 0 <= ip < |inodes| && 0 <= avail <= |src|
      requires 0 <= off0 <= inodes[ip].size && off0 + |src| <= MAXFILE * 1024
      modifies this`inodes, this`dinodes, this`store, this`owner, this`marked, this`logged
      ensures Valid() && Wrote(sb, old(Now()), Now(), ip, off0, src, avail, tot, w)
      ensures dinodes == old(dinodes)[ip := inodes[ip]]
    {
      hide Sound, NoHoles, AllPut, Wrote, Finished, Max;
      SizeFits(ip);
      ghost var s0 := Now();
      ghost var end, it, datas, maps;
      tot, w, end, it, datas, maps := WriteAll(ip, src, avail, off0);
      ghost var t := Now();
      WroteFinished(s0, t, ip, off0, src, avail, tot, w, end, it, datas, maps);
      GrowTo(ip, off0 + tot);
      assert Now() == Finished(sb, t, ip, Max(s0.inodes[ip].size, off0 + tot));
    }

    lemma SizeFits(ip: int)
      requires Working() && 0 <= ip < |inodes|
      ensures 0 <= inodes[ip].size <= MAXFILE * 1024 && |inodes| == sb.ninodes
    {
      Shape();
    }

    lemma WroteFinished(s0: Snap, t: Snap, ip: int, off: int, src: seq<bv8>, avail: int, tot: int, w: int,
                        end: int, it: int, datas: set<int>, maps: set<int>)
      requires AllPut(sb, s0, t, ip, off, src, avail, tot, w, end, it, datas, maps) && 0 <= ip < |s0.inodes|
      requires NoHoles(ImageOf(s0)) && 0 <= off <= s0.inodes[ip].size <= MAXFILE * 1024 && off + |src| <= MAXFILE * 1024
      ensures 0 <= ip < |t.inodes| == |s0.inodes| && s0.inodes[ip].size == t.inodes[ip].size
      ensures var u := Finished(sb, t, ip, Max(s0.inodes[ip].size, off + tot));
              Sound(sb, u) && NoHoles(ImageOf(u)) && Wrote(sb, s0, u, ip, off, src, avail, tot, w)
    {
      hide Sound, NoHoles, Written, Landed, NoneFree, BlockAt, ChangesLogged, IBlock, Outcome, InLogThen, LastBlock, Only, SlotsStay, IndirectLogged;
      WrittenGist(sb, s0, t, ip, off, src, avail, tot, w, end, it, datas, maps);
      WrittenDone(sb, s0, t, ip, off, src, avail, tot, w, end, it, datas, maps);
      WrittenRoom(s0, t, ip, off, |src|, avail, tot, w);
    }

    lemma WrittenRoom(s0: Snap, t: Snap, ip: int, off0: int, n: int, avail: int, tot: int, w: int)
      requires 0 <= ip < |s0.inodes| && Sound(sb, t) && 0 <= ip < |t.inodes| && 0 <= s0.inodes[ip].size <= MAXFILE * 1024
      requires 0 <= off0 && 0 <= tot && off0 + tot <= MAXFILE * 1024 && SlotsStay(ImageOf(s0), ImageOf(t)) && IndirectLogged(s0, t, ip)
      requires (n > 0 ==> Outcome(sb, s0, t, ip, off0, n, avail, tot, w)) && (w > tot ==> BlockAt(ImageOf(t), ip, off0 + tot) != 0)
      ensures var u := Finished(sb, t, ip, Max(s0.inodes[ip].size, off0 + tot));
              && (n > 0 ==> Outcome(sb, s0, u, ip, off0, n, avail, tot, w)) && SlotsStay(ImageOf(s0), ImageOf(u)) && IndirectLogged(s0, u, ip)
              && (w > tot ==> BlockAt(ImageOf(u), ip, off0 + tot) != 0 && (BlockAt(ImageOf(u), ip, off0 + tot) in u.logged <==> BlockAt(ImageOf(t), ip, off0 + tot) in t.logged))
    {
      var size := Max(s0.inodes[ip].size, off0 + tot);
      StayFinished(sb, s0, t, ip, size);
      hide Sound, Outcome, BlockAt, Finished, SlotsStay, IndirectLogged;
      if n > 0 {
        OutcomeFinished(sb, s0, t, ip, off0, n, avail, tot, w, size);
      }
      if w > tot {
        LogFinished(sb, t, ip, size, off0 + tot);
      }
    }

    /** The last lines of writei: the size, if it grows, and iupdate. */
    method GrowTo(ip: int, off: int)
      requires 0 <= ip < |inodes| == |dinodes|
      modifies this`inodes, this`dinodes, this`logged
      ensures Now() == Finished(sb, old(Now()), ip, Max(old(inodes)[ip].size, off))
      ensures dinodes == old(dinodes)[ip := inodes[ip]]
    {
      if off > inodes[ip].size {
        inodes := inodes[ip := inodes[ip].(size := off)];
      }
      assert inodes[ip := inodes[ip]] == inodes && inodes[ip].(size := inodes[ip].size) == inodes[ip];
      Iupdate(ip);
    }

    /** writei.  -1: the request does not fit the file; else the bytes of the chunks written in full.
        `w` tells how many bytes reached the buffers: a fault in the middle of a chunk leaves its
        readable part in the buffer, unreported and not logged. */
    method Writei(ip: int, src: seq<bv8>, avail: int, off0: int) returns (r: int, ghost w: int)
      requires Valid() && 0 <= ip < |inodes| && 0 <= off0 < UINT && |src| < UINT && 0 <= avail <= |src|
      modifies this`inodes, this`dinodes, this`store, this`owner, this`marked, this`logged
      ensures Valid()
      ensures r == -1 <==> off0 > old(inodes)[ip].size || off0 + |src| > MAXFILE * 1024
      ensures r == -1 ==> w == 0 && Now() == old(Now()) && dinodes == old(dinodes)
      ensures r != -1 ==> 0 <= r <= w <= |src| && r <= avail && (w > r ==> w == avail < |src|)
      ensures 0 <= r < |src| ==> avail < |src| || NoneFree(sb, marked)
      ensures 0 <= w <= |src| && Landed(old(Im()), Im(), ip, off0, src, w)
      ensures |inodes| == old(|inodes|) && inodes == old(inodes)[ip := inodes[ip]]
      ensures r != -1 ==> inodes[ip].size == Max(old(inodes)[ip].size, off0 + r) && dinodes == old(dinodes)[ip := inodes[ip]]
      ensures old(logged) == {} && |src| <= 3 * 1024 ==> |logged| <= MAXOPBLOCKS
      ensures ChangesLogged(old(Now()), Now(), Only(w > Max(r, 0), BlockAt(Im(), ip, off0 + Max(r, 0))))
      ensures r != -1 && |src| > 0 ==> Outcome(sb, old(Now()), Now(), ip, off0, |src|, avail, r, w)
      ensures w > Max(r, 0) <==> Leftover(sb, old(Now()), ip, off0, |src|, avail)
      ensures w > Max(r, 0) ==> BlockAt(Im(), ip, off0 + r) != 0
      ensures w > Max(r, 0) ==> (BlockAt(Im(), ip, off0 + r) in logged <==> InLogThen(old(Now()), ip, (off0 + avail) / 1024))
      ensures SlotsStay(old(Im()), Im()) && (r != -1 ==> IndirectLogged(old(Now()), Now(), ip))
    {
      NoChanges(Now());
      Unmoved(Im());
      hide Working, NoHoles, Landed, NoneFree, ChangesLogged, BlockAt, Outcome, EnoughFor, InLogThen, LastBlock, Leftover, SlotsStay, IndirectLogged;
      ghost var s0 := Now();
      w := 0;
      var n := |src|;
      LandedNothing(Im(), ip, off0, src);
      if off0 > inodes[ip].size || (off0 + n) % 0x1_0000_0000 < off0 {
        LeftoverFits(sb, s0, ip, off0, n, avail);
        return -1, 0;
      }
      if off0 + n > MAXFILE * 1024 {
        LeftoverFits(sb, s0, ip, off0, n, avail);
        return -1, 0;
      }
      r, w := WriteFits(ip, src, avail, off0);
      LeftoverIff(sb, s0, Now(), ip, off0, n, avail, r, w);
    }
  }
}
