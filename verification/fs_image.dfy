/** The part of the file system that balloc, bfree, bmap and itrunc work on: the in-memory inodes
    and the latest contents of every disk block, with who owns which block. */
module FsImage {
  import opened FsBlocks

  const NDIRECT: int := 12
  const MAXFILE: int := 268
  const NSLOTS: int := 269
  const IPB: int := 16

  datatype Super = Super(size: int, inodestart: int, bmapstart: int, datastart: int, ninodes: int) {
    /** Boot block, super block, log, inodes and free map all lie below datastart. */
    predicate Valid() {
      && 0 < inodestart && 0 < ninodes && inodestart + (ninodes - 1) / 16 < bmapstart
      && 0 < datastart <= size <= 0x1_0000_0000 && bmapstart + (size - 1) / 8192 < datastart
    }
  }

  function BBlock(sb: Super, b: int): int { b / 8192 + sb.bmapstart }

  function IBlock(sb: Super, i: int): int { i / 16 + sb.inodestart }

  /** size and addrs of struct inode; addrs[NDIRECT] is the indirect block. */
  datatype Inode = Inode(size: int, addrs: seq<int>)

  datatype Image = Image(inodes: seq<Inode>, store: seq<Block>)

  predicate InodeOk(ino: Inode) { |ino.addrs| == NDIRECT + 1 && 0 <= ino.size <= MAXFILE * 1024 }

  ghost predicate Sized(sb: Super, im: Image) {
    && sb.Valid() && |im.store| == sb.size && |im.inodes| == sb.ninodes
    && forall i :: 0 <= i < |im.inodes| ==> InodeOk(im.inodes[i])
  }

  predicate SlotRange(im: Image, i: int, k: int) { 0 <= i < |im.inodes| && 0 <= k < NSLOTS }

  /** Everything an inode points to: the addresses it holds, then those in its indirect block. */
  function Slot(im: Image, i: int, k: int): int {
    if !SlotRange(im, i, k) || |im.inodes[i].addrs| != NDIRECT + 1 then 0
    else if k <= NDIRECT then im.inodes[i].addrs[k]
    else
      var ind := im.inodes[i].addrs[NDIRECT];
      if 0 < ind < |im.store| then Word(im.store[ind], k - NDIRECT - 1) else 0
  }

  /** The slot of file block bn. */
  function FileSlot(bn: int): int { if bn < NDIRECT then bn else bn + 1 }

  /** Each block is owned by at most one slot of one inode, and slots point to data blocks only. */
  ghost predicate Tree(sb: Super, im: Image, owner: map<int, (int, int)>) {
    && Sized(sb, im)
    && (forall i, k :: SlotRange(im, i, k) && Slot(im, i, k) != 0 ==>
          Slot(im, i, k) in owner && owner[Slot(im, i, k)] == (i, k))
    && (forall b :: b in owner ==> sb.datastart <= b < sb.size)
    && (forall b :: b in owner ==> SlotRange(im, owner[b].0, owner[b].1) && Slot(im, owner[b].0, owner[b].1) == b)
  }

  predicate Marked(sb: Super, store: seq<Block>, b: int)
    requires sb.Valid() && |store| == sb.size && 0 <= b < sb.size
  {
    Bit(store[BBlock(sb, b)], b % 8192)
  }

  /** The free map marks the blocks below datastart and those in `marked`. */
  ghost predicate MapShows(sb: Super, store: seq<Block>, marked: set<int>)
    requires sb.Valid() && |store| == sb.size
  {
    && (forall b :: b in marked ==> sb.datastart <= b < sb.size)
    && (forall b :: 0 <= b < sb.size ==> (Marked(sb, store, b) <==> b < sb.datastart || b in marked))
  }

  /** Between operations: a block is marked exactly when some inode reaches it. */
  ghost predicate Consistent(sb: Super, im: Image, owner: map<int, (int, int)>) {
    Tree(sb, im, owner) && MapShows(sb, im.store, owner.Keys)
  }

  /** The same, told without the owner map. */
  lemma OwnedIffMarked(sb: Super, im: Image, owner: map<int, (int, int)>, b: int)
    requires Consistent(sb, im, owner) && sb.datastart <= b < sb.size
    ensures Marked(sb, im.store, b) <==> exists i, k :: SlotRange(im, i, k) && Slot(im, i, k) == b
    ensures forall i, k, i', k' ::
              (SlotRange(im, i, k) && SlotRange(im, i', k') && Slot(im, i, k) == b && Slot(im, i', k') == b) ==>
              i == i' && k == k'
  {
    hide Slot, Marked;
    if b in owner {
      assert Slot(im, owner[b].0, owner[b].1) == b;
    }
  }

  // ----- Flat files -----

  /** Byte o of the file of inode i; holes read as 0. */
  function ByteAt(im: Image, i: int, o: int): bv8
    requires 0 <= o
  {
    StoredByte(im.store, Slot(im, i, FileSlot(o / 1024)), o % 1024)
  }

  function StoredByte(store: seq<Block>, b: int, x: int): bv8
    requires 0 <= x < BSIZE
  {
    if 0 < b < |store| then store[b][x] else 0
  }

  ghost predicate SameBytes(im: Image, im': Image) {
    forall i, o :: 0 <= o ==> ByteAt(im', i, o) == ByteAt(im, i, o)
  }

  /** Every block below the size is there. */
  ghost predicate NoHoles(im: Image) {
    forall i, bn :: 0 <= i < |im.inodes| && 0 <= bn && bn * 1024 < im.inodes[i].size ==>
      Slot(im, i, FileSlot(bn)) != 0
  }

  // ----- One change at a time -----

  /** Writing a block that is nobody's indirect block moves no slot. */
  lemma SlotsIgnore(sb: Super, im: Image, owner: map<int, (int, int)>, b: int, v: Block, i: int, k: int)
    requires Tree(sb, im, owner) && 0 <= b < sb.size && (b in owner ==> owner[b].1 != NDIRECT)
    ensures Slot(im.(store := im.store[b := v]), i, k) == Slot(im, i, k)
  {
    if SlotRange(im, i, k) && k > NDIRECT {
      assert Slot(im, i, NDIRECT) == im.inodes[i].addrs[NDIRECT];
      assert SlotRange(im, i, NDIRECT);
      hide Word;
    }
  }

  lemma TreeIgnores(sb: Super, im: Image, owner: map<int, (int, int)>, b: int, v: Block)
    requires Tree(sb, im, owner) && 0 <= b < sb.size && (b in owner ==> owner[b].1 != NDIRECT)
    ensures Tree(sb, im.(store := im.store[b := v]), owner)
  {
    var im' := im.(store := im.store[b := v]);
    forall i, k ensures Slot(im', i, k) == Slot(im, i, k) {
      SlotsIgnore(sb, im, owner, b, v, i, k);
    }
    hide Slot;
  }

  /** A file reads the same when a block that no file block lies in is written. */
  lemma BytesIgnore(sb: Super, im: Image, owner: map<int, (int, int)>, b: int, v: Block)
    requires Tree(sb, im, owner) && 0 <= b < sb.size && b !in owner
    ensures SameBytes(im, im.(store := im.store[b := v]))
  {
    var im' := im.(store := im.store[b := v]);
    forall i, o | 0 <= o ensures ByteAt(im', i, o) == ByteAt(im, i, o) {
      var k := FileSlot(o / 1024);
      SlotsIgnore(sb, im, owner, b, v, i, k);
      assert Slot(im, i, k) != 0 ==> SlotRange(im, i, k);
      hide Slot;
    }
  }

  lemma MapIgnores(sb: Super, store: seq<Block>, marked: set<int>, b: int, v: Block)
    requires sb.Valid() && |store| == sb.size && MapShows(sb, store, marked) && sb.datastart <= b < sb.size
    ensures MapShows(sb, store[b := v], marked)
  {
    var store' := store[b := v];
    hide Bit;
    forall c | 0 <= c < sb.size ensures Marked(sb, store', c) == Marked(sb, store, c) {
      assert BBlock(sb, c) < sb.datastart;
    }
  }

  function MarkIn(sb: Super, store: seq<Block>, b: int): seq<Block>
    requires sb.Valid() && |store| == sb.size && 0 <= b < sb.size
  {
    store[BBlock(sb, b) := SetBit(store[BBlock(sb, b)], b % 8192)]
  }

  function UnmarkIn(sb: Super, store: seq<Block>, b: int): seq<Block>
    requires sb.Valid() && |store| == sb.size && 0 <= b < sb.size
  {
    store[BBlock(sb, b) := ClearBit(store[BBlock(sb, b)], b % 8192)]
  }

  lemma SameBit(b: int, c: int)
    requires b / 8192 == c / 8192 && b % 8192 == c % 8192
    ensures b == c
  {
  }

  lemma MarkOne(sb: Super, store: seq<Block>, b: int, c: int)
    requires sb.Valid() && |store| == sb.size && 0 <= b < sb.size && 0 <= c < sb.size
    ensures Marked(sb, MarkIn(sb, store, b), c) <==> c == b || Marked(sb, store, c)
    ensures Marked(sb, UnmarkIn(sb, store, b), c) <==> c != b && Marked(sb, store, c)
  {
    hide SetBit, ClearBit, Bit;
    if BBlock(sb, c) == BBlock(sb, b) {
      SetBitMeaning(store[BBlock(sb, b)], b % 8192, c % 8192);
      ClearBitMeaning(store[BBlock(sb, b)], b % 8192, c % 8192);
      if b % 8192 == c % 8192 {
        SameBit(b, c);
      }
    }
  }

  lemma MarkBit(sb: Super, store: seq<Block>, marked: set<int>, b: int)
    requires sb.Valid() && |store| == sb.size && MapShows(sb, store, marked) && sb.datastart <= b < sb.size
    ensures MapShows(sb, MarkIn(sb, store, b), marked + {b})
    ensures MapShows(sb, UnmarkIn(sb, store, b), marked - {b})
  {
    var up, down := MarkIn(sb, store, b), UnmarkIn(sb, store, b);
    hide Marked, MarkIn, UnmarkIn;
    forall c | 0 <= c < sb.size
      ensures Marked(sb, up, c) <==> c == b || Marked(sb, store, c)
      ensures Marked(sb, down, c) <==> c != b && Marked(sb, store, c)
    {
      MarkOne(sb, store, b, c);
    }
  }

  function SetAddr(im: Image, i: int, k: int, b: int): Image
    requires 0 <= i < |im.inodes| && 0 <= k < |im.inodes[i].addrs|
  {
    im.(inodes := im.inodes[i := im.inodes[i].(addrs := im.inodes[i].addrs[k := b])])
  }

  function SetSize(im: Image, i: int, n: int): Image
    requires 0 <= i < |im.inodes|
  {
    im.(inodes := im.inodes[i := im.inodes[i].(size := n)])
  }

  /** Only slot (i, k) changes, to b. */
  ghost predicate OnlySlot(im: Image, im': Image, i: int, k: int, b: int) {
    && |im'.inodes| == |im.inodes|
    && forall j, l :: SlotRange(im, j, l) ==> Slot(im', j, l) == if j == i && l == k then b else Slot(im, j, l)
  }

  lemma SlotGained(sb: Super, im: Image, im': Image, owner: map<int, (int, int)>, i: int, k: int, b: int, j: int, l: int)
    requires Tree(sb, im, owner) && OnlySlot(im, im', i, k, b) && b !in owner && SlotRange(im, j, l) && Slot(im', j, l) != 0
    ensures var owner' := owner[b := (i, k)]; Slot(im', j, l) in owner' && owner'[Slot(im', j, l)] == (j, l)
  {
    assert Slot(im', j, l) == if j == i && l == k then b else Slot(im, j, l);
    hide Slot, Sized, OnlySlot;
  }

  lemma OwnerGained(sb: Super, im: Image, im': Image, owner: map<int, (int, int)>, i: int, k: int, b: int, c: int)
    requires Tree(sb, im, owner) && OnlySlot(im, im', i, k, b) && SlotRange(im, i, k) && Slot(im, i, k) == 0
    requires b !in owner && c in owner[b := (i, k)]
    ensures var (j, l) := owner[b := (i, k)][c]; SlotRange(im', j, l) && Slot(im', j, l) == c
  {
    assert c != b ==> c > 0;
    hide Slot, Sized;
  }

  lemma TreeGains(sb: Super, im: Image, im': Image, owner: map<int, (int, int)>, i: int, k: int, b: int)
    requires Tree(sb, im, owner) && Sized(sb, im') && OnlySlot(im, im', i, k, b)
    requires SlotRange(im, i, k) && Slot(im, i, k) == 0 && sb.datastart <= b < sb.size && b !in owner
    ensures Tree(sb, im', owner[b := (i, k)])
  {
    assert forall j, l :: SlotRange(im', j, l) <==> SlotRange(im, j, l);
    hide Slot, Sized, SlotRange, OnlySlot;
    var owner' := owner[b := (i, k)];
    forall j, l | SlotRange(im', j, l) && Slot(im', j, l) != 0
      ensures Slot(im', j, l) in owner' && owner'[Slot(im', j, l)] == (j, l)
    {
      SlotGained(sb, im, im', owner, i, k, b, j, l);
    }
    forall c | c in owner' ensures SlotRange(im', owner'[c].0, owner'[c].1) && Slot(im', owner'[c].0, owner'[c].1) == c {
      OwnerGained(sb, im, im', owner, i, k, b, c);
    }
  }

  lemma TreeSized(sb: Super, im: Image, owner: map<int, (int, int)>)
    requires Tree(sb, im, owner)
    ensures Sized(sb, im)
  {
    hide Sized, Slot, SlotRange;
  }

  lemma AddrSlot(sb: Super, im: Image, owner: map<int, (int, int)>, i: int, k: int, b: int, j: int, l: int)
    requires Tree(sb, im, owner) && 0 <= i < |im.inodes| && 0 <= k <= NDIRECT && SlotRange(im, j, l)
    requires im.inodes[i].addrs[k] == 0 && sb.datastart <= b < sb.size && im.store[b] == ZeroBlock
    ensures Slot(SetAddr(im, i, k, b), j, l) == if j == i && l == k then b else Slot(im, j, l)
  {
    hide Word, ZeroBlock, Tree;
    assert Sized(sb, im) && |im.store| == sb.size by {
      TreeSized(sb, im, owner);
    }
    if j == i && k == NDIRECT && l > NDIRECT {
      ZeroWords(l - NDIRECT - 1);
    }
  }

  lemma AddrByte(sb: Super, im: Image, owner: map<int, (int, int)>, i: int, k: int, b: int, j: int, o: int)
    requires Tree(sb, im, owner) && 0 <= i < |im.inodes| && 0 <= k <= NDIRECT && 0 <= o
    requires im.inodes[i].addrs[k] == 0 && sb.datastart <= b < sb.size && im.store[b] == ZeroBlock
    ensures ByteAt(SetAddr(im, i, k, b), j, o) == ByteAt(im, j, o)
  {
    var im', l := SetAddr(im, i, k, b), FileSlot(o / 1024);
    assert Slot(im, i, k) == 0;
    if SlotRange(im, j, l) {
      AddrSlot(sb, im, owner, i, k, b, j, l);
    } else {
      assert Slot(im', j, l) == 0 == Slot(im, j, l);
    }
    hide Slot, ByteAt, ZeroBlock;
    ByteFollows(im, im', j, o);
  }

  /** bmap's ip->addrs[k] = b with a zeroed block. */
  lemma LinkAddr(sb: Super, im: Image, owner: map<int, (int, int)>, i: int, k: int, b: int)
    requires Tree(sb, im, owner) && 0 <= i < |im.inodes| && 0 <= k <= NDIRECT
    requires im.inodes[i].addrs[k] == 0 && sb.datastart <= b < sb.size && b !in owner && im.store[b] == ZeroBlock
    ensures var im' := SetAddr(im, i, k, b);
            OnlySlot(im, im', i, k, b) && Tree(sb, im', owner[b := (i, k)]) && SameBytes(im, im')
  {
    var im' := SetAddr(im, i, k, b);
    assert SlotRange(im, i, k) && Slot(im, i, k) == 0 && Sized(sb, im');
    hide Slot, ByteAt, ZeroBlock;
    forall j, l | SlotRange(im, j, l)
      ensures Slot(im', j, l) == if j == i && l == k then b else Slot(im, j, l)
    {
      AddrSlot(sb, im, owner, i, k, b, j, l);
    }
    TreeGains(sb, im, im', owner, i, k, b);
    forall j, o | 0 <= o ensures ByteAt(im', j, o) == ByteAt(im, j, o) {
      AddrByte(sb, im, owner, i, k, b, j, o);
    }
  }

  /** The image after a[j] = b in the indirect block of inode i. */
  function SetEntry(im: Image, i: int, j: int, b: int): Image
    requires 0 <= i < |im.inodes| && |im.inodes[i].addrs| == NDIRECT + 1
    requires 0 < im.inodes[i].addrs[NDIRECT] < |im.store| && 0 <= j < NINDIRECT && IsWord(b)
  {
    var ind := im.inodes[i].addrs[NDIRECT];
    im.(store := im.store[ind := SetWord(im.store[ind], j, b)])
  }

  lemma EntrySlot(im: Image, i: int, j: int, b: int, i': int, l: int)
    requires 0 <= i < |im.inodes| && |im.inodes[i].addrs| == NDIRECT + 1
    requires 0 < im.inodes[i].addrs[NDIRECT] < |im.store| && 0 <= j < NINDIRECT && IsWord(b)
    requires SlotRange(im, i', l) && |im.inodes[i'].addrs| == NDIRECT + 1
    requires i' != i ==> im.inodes[i'].addrs[NDIRECT] != im.inodes[i].addrs[NDIRECT]
    ensures Slot(SetEntry(im, i, j, b), i', l) == if i' == i && l == NDIRECT + 1 + j then b else Slot(im, i', l)
  {
    hide SetWord, Word;
    if l > NDIRECT && i' == i {
      SetWordMeaning(im.store[im.inodes[i].addrs[NDIRECT]], j, b, l - NDIRECT - 1);
    }
  }

  lemma EntryByte(im: Image, i: int, j: int, b: int, i': int, o: int)
    requires 0 <= i < |im.inodes| && |im.inodes[i].addrs| == NDIRECT + 1
    requires 0 < im.inodes[i].addrs[NDIRECT] < |im.store| && 0 <= j < NINDIRECT && 0 < b < |im.store| && IsWord(b)
    requires OnlySlot(im, SetEntry(im, i, j, b), i, NDIRECT + 1 + j, b) && Slot(im, i, NDIRECT + 1 + j) == 0
    requires b != im.inodes[i].addrs[NDIRECT] && im.store[b] == ZeroBlock && 0 <= o
    requires Slot(im, i', FileSlot(o / 1024)) != im.inodes[i].addrs[NDIRECT]
    ensures ByteAt(SetEntry(im, i, j, b), i', o) == ByteAt(im, i', o)
  {
    hide SetWord, Word;
    var k := FileSlot(o / 1024);
    var im' := SetEntry(im, i, j, b);
    assert !SlotRange(im, i', k) ==> Slot(im, i', k) == 0 == Slot(im', i', k);
    hide Slot, ByteAt;
    ByteFollows(im, im', i', o);
  }

  /** A byte is kept when its block keeps place and contents, or when a zeroed block fills a hole. */
  lemma ByteFollows(im: Image, im': Image, i: int, o: int)
    requires 0 <= o && |im'.store| == |im.store|
    requires var s, s' := Slot(im, i, FileSlot(o / 1024)), Slot(im', i, FileSlot(o / 1024));
             || (s' == s && (0 < s < |im.store| ==> im'.store[s] == im.store[s]))
             || (s == 0 && 0 < s' < |im.store| && im'.store[s'] == ZeroBlock)
    ensures ByteAt(im', i, o) == ByteAt(im, i, o)
  {
    hide Slot;
  }

  /** bmap's a[j] = b in the indirect block, with a zeroed block. */
  lemma LinkEntry(sb: Super, im: Image, owner: map<int, (int, int)>, i: int, j: int, b: int)
    requires Tree(sb, im, owner) && 0 <= i < |im.inodes| && 0 <= j < NINDIRECT && im.inodes[i].addrs[NDIRECT] != 0
    requires Slot(im, i, NDIRECT + 1 + j) == 0 && sb.datastart <= b < sb.size && b !in owner && im.store[b] == ZeroBlock
    ensures 0 < im.inodes[i].addrs[NDIRECT] < sb.size && im.inodes[i].addrs[NDIRECT] in owner
    ensures OnlySlot(im, SetEntry(im, i, j, b), i, NDIRECT + 1 + j, b) && SameBytes(im, SetEntry(im, i, j, b))
    ensures Tree(sb, SetEntry(im, i, j, b), owner[b := (i, NDIRECT + 1 + j)])
  {
    hide SetWord, Word;
    var ind := im.inodes[i].addrs[NDIRECT];
    assert SlotRange(im, i, NDIRECT) && Slot(im, i, NDIRECT) == ind;
    assert SlotRange(im, i, NDIRECT + 1 + j);
    hide Slot, SetEntry, OnlySlot, SameBytes;
    EntrySlots(sb, im, owner, i, j, b);
    hide Tree;
    TreeGains(sb, im, SetEntry(im, i, j, b), owner, i, NDIRECT + 1 + j, b);
    EntryBytes(sb, im, owner, i, j, b);
  }

  lemma EntrySlots(sb: Super, im: Image, owner: map<int, (int, int)>, i: int, j: int, b: int)
    requires Tree(sb, im, owner) && 0 <= i < |im.inodes| && 0 <= j < NINDIRECT && 0 < im.inodes[i].addrs[NDIRECT] < sb.size
    requires 0 < b < sb.size
    ensures OnlySlot(im, SetEntry(im, i, j, b), i, NDIRECT + 1 + j, b) && Sized(sb, SetEntry(im, i, j, b))
  {
    var im' := SetEntry(im, i, j, b);
    hide Slot, SetWord;
    forall i', l | SlotRange(im, i', l)
      ensures Slot(im', i', l) == if i' == i && l == NDIRECT + 1 + j then b else Slot(im, i', l)
    {
      if i' != i {
        OneIndirect(sb, im, owner, i, i');
      }
      EntrySlot(im, i, j, b, i', l);
    }
  }

  lemma EntryBytes(sb: Super, im: Image, owner: map<int, (int, int)>, i: int, j: int, b: int)
    requires Tree(sb, im, owner) && 0 <= i < |im.inodes| && 0 <= j < NINDIRECT && 0 < im.inodes[i].addrs[NDIRECT] < sb.size
    requires 0 < b < sb.size && b != im.inodes[i].addrs[NDIRECT] && im.store[b] == ZeroBlock
    requires OnlySlot(im, SetEntry(im, i, j, b), i, NDIRECT + 1 + j, b) && Slot(im, i, NDIRECT + 1 + j) == 0
    ensures SameBytes(im, SetEntry(im, i, j, b))
  {
    hide Slot, SetEntry, ByteAt, OnlySlot;
    var im' := SetEntry(im, i, j, b);
    forall i', o | 0 <= o ensures ByteAt(im', i', o) == ByteAt(im, i', o) {
      NotIndirect(sb, im, owner, i, i', FileSlot(o / 1024));
      EntryByte(im, i, j, b, i', o);
    }
  }

  lemma NotIndirect(sb: Super, im: Image, owner: map<int, (int, int)>, i: int, i': int, k: int)
    requires Tree(sb, im, owner) && 0 <= i < |im.inodes| && im.inodes[i].addrs[NDIRECT] != 0 && k != NDIRECT
    ensures Slot(im, i', k) != im.inodes[i].addrs[NDIRECT]
  {
    assert SlotRange(im, i, NDIRECT) && Slot(im, i, NDIRECT) == im.inodes[i].addrs[NDIRECT];
    assert !SlotRange(im, i', k) ==> Slot(im, i', k) == 0;
    hide Slot;
  }

  lemma OneIndirect(sb: Super, im: Image, owner: map<int, (int, int)>, i: int, j: int)
    requires Tree(sb, im, owner) && 0 <= i < |im.inodes| && 0 <= j < |im.inodes| && i != j
    requires im.inodes[i].addrs[NDIRECT] != 0
    ensures im.inodes[i].addrs[NDIRECT] != im.inodes[j].addrs[NDIRECT]
  {
    assert SlotRange(im, i, NDIRECT) && Slot(im, i, NDIRECT) == im.inodes[i].addrs[NDIRECT];
    assert SlotRange(im, j, NDIRECT) && Slot(im, j, NDIRECT) == im.inodes[j].addrs[NDIRECT];
  }

  /** itrunc's ip->addrs[k] = 0 for a direct block. */
  lemma UnlinkAddr(sb: Super, im: Image, owner: map<int, (int, int)>, i: int, k: int)
    requires Tree(sb, im, owner) && 0 <= i < |im.inodes| && 0 <= k < NDIRECT && im.inodes[i].addrs[k] != 0
    ensures im.inodes[i].addrs[k] in owner && sb.datastart <= im.inodes[i].addrs[k] < sb.size
    ensures OnlySlot(im, SetAddr(im, i, k, 0), i, k, 0)
    ensures Tree(sb, SetAddr(im, i, k, 0), owner - {im.inodes[i].addrs[k]})
  {
    var b := im.inodes[i].addrs[k];
    var im' := SetAddr(im, i, k, 0);
    assert SlotRange(im, i, k) && Slot(im, i, k) == b;
    hide Tree;
    forall j, l | SlotRange(im, j, l)
      ensures Slot(im', j, l) == if j == i && l == k then 0 else Slot(im, j, l)
    {
    }
    TreeLoses(sb, im, im', owner, i, k);
  }

  lemma TreeLoses(sb: Super, im: Image, im': Image, owner: map<int, (int, int)>, i: int, k: int)
    requires Tree(sb, im, owner) && Sized(sb, im') && OnlySlot(im, im', i, k, 0) && SlotRange(im, i, k)
    ensures Tree(sb, im', owner - {Slot(im, i, k)})
  {
    hide Slot, Sized;
    assert forall j, l :: SlotRange(im', j, l) ==> SlotRange(im, j, l);
  }

  /** The slots of inode i behind its indirect block, and that block. */
  ghost function Without(owner: map<int, (int, int)>, i: int): map<int, (int, int)> {
    map b | b in owner && !(owner[b].0 == i && owner[b].1 >= NDIRECT) :: owner[b]
  }

  lemma UnlinkIndirect(sb: Super, im: Image, owner: map<int, (int, int)>, i: int)
    requires Tree(sb, im, owner) && 0 <= i < |im.inodes|
    ensures var im' := SetAddr(im, i, NDIRECT, 0);
            Tree(sb, im', Without(owner, i)) && |im'.inodes| == |im.inodes| &&
            forall j, l :: SlotRange(im, j, l) ==>
              Slot(im', j, l) == if j == i && l >= NDIRECT then 0 else Slot(im, j, l)
  {
    var im' := SetAddr(im, i, NDIRECT, 0);
    forall j, l | SlotRange(im, j, l)
      ensures Slot(im', j, l) == if j == i && l >= NDIRECT then 0 else Slot(im, j, l)
    {
    }
    hide Slot;
    assert forall j, l :: SlotRange(im', j, l) ==> SlotRange(im, j, l);
  }

  lemma TreeIgnoresSize(sb: Super, im: Image, owner: map<int, (int, int)>, i: int, n: int)
    requires Tree(sb, im, owner) && 0 <= i < |im.inodes| && 0 <= n <= MAXFILE * 1024
    ensures Tree(sb, SetSize(im, i, n), owner) && SameBytes(im, SetSize(im, i, n))
    ensures forall j, k :: Slot(SetSize(im, i, n), j, k) == Slot(im, j, k)
  {
    var im' := SetSize(im, i, n);
    forall j, k ensures Slot(im', j, k) == Slot(im, j, k) {
    }
    hide Slot;
  }
}
