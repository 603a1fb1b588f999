/** itrunc and bfree of kernel/fs.c: every block of the file is given back, and nothing else. */
module FsTrunc {
  import opened FsBlocks
  import opened FsImage
  import opened Fs

  ghost predicate OthersRead(im: Image, im': Image, ip: int) {
    forall i, o :: i != ip && 0 <= o ==> ByteAt(im', i, o) == ByteAt(im, i, o)
  }

  /** The slots of inode ip below k are cut; every other slot, inode and file is as in s0. */
  ghost predicate Cut(sb: Super, s0: Snap, s: Snap, ip: int, k: int) {
    && Sound(sb, s) && 0 <= ip < |s0.inodes| == |s.inodes|
    && s.inodes == s0.inodes[ip := s.inodes[ip]]
    && (forall i, l :: Slot(ImageOf(s), i, l) == if i == ip && l < k then 0 else Slot(ImageOf(s0), i, l))
    && OthersRead(ImageOf(s0), ImageOf(s), ip)
    && OnlyMapLogged(sb, s0.logged, s.logged)
  }

  /** Between l and l' only blocks of the free map were logged. */
  ghost predicate OnlyMapLogged(sb: Super, l: set<int>, l': set<int>) {
    l <= l' && forall b :: b in l' ==> b in l || sb.bmapstart <= b <= sb.bmapstart + (sb.size - 1) / 8192
  }

  /** What bfree makes of s. */
  ghost function FreedSnap(sb: Super, s: Snap, b: int): Snap
    requires sb.Valid() && |s.store| == sb.size && 0 <= b < sb.size
  {
    s.(store := UnmarkIn(sb, s.store, b), marked := s.marked - {b}, logged := s.logged + {BBlock(sb, b)})
  }

  /** addrs[k] = 0. */
  ghost function CutSnap(s: Snap, ip: int, k: int): Snap
    requires 0 <= ip < |s.inodes| && 0 <= k < |s.inodes[ip].addrs|
  {
    s.(inodes := SetAddr(ImageOf(s), ip, k, 0).inodes)
  }

  lemma BlockOfMap(sb: Super, b: int)
    requires sb.Valid() && 0 <= b < sb.size
    ensures sb.bmapstart <= BBlock(sb, b) <= sb.bmapstart + (sb.size - 1) / 8192
    ensures 0 <= BBlock(sb, b) < sb.datastart
  {
  }

  lemma CutStart(sb: Super, s: Snap, ip: int)
    requires Sound(sb, s) && 0 <= ip < |s.inodes|
    ensures Cut(sb, s, s, ip, 0)
  {
    assert forall i, l :: Slot(ImageOf(s), i, l) != 0 ==> l >= 0;
    hide Slot, ByteAt, Sound;
  }

  /** No direct block to free. */
  lemma CutNone(sb: Super, s0: Snap, s: Snap, ip: int, k: int)
    requires Cut(sb, s0, s, ip, k) && Slot(ImageOf(s), ip, k) == 0
    ensures Cut(sb, s0, s, ip, k + 1)
  {
    hide Slot, ByteAt, Sound;
  }

  lemma SlotOwned(sb: Super, s: Snap, ip: int, k: int)
    requires Sound(sb, s) && Slot(ImageOf(s), ip, k) != 0
    ensures var b := Slot(ImageOf(s), ip, k);
            b in s.marked && b in s.owner && s.owner[b] == (ip, k) && sb.datastart <= b < sb.size && SlotRange(ImageOf(s), ip, k)
  {
    assert SlotRange(ImageOf(s), ip, k);
    hide Slot;
  }

  /** bfree(ip->addrs[k]); ip->addrs[k] = 0. */
  lemma CutAddr(sb: Super, s0: Snap, s: Snap, ip: int, k: int)
    requires Cut(sb, s0, s, ip, k) && 0 <= k < NDIRECT && Slot(ImageOf(s), ip, k) != 0
    ensures sb.Valid() && |s.store| == sb.size && |s.inodes[ip].addrs| == NDIRECT + 1
    ensures var b := s.inodes[ip].addrs[k];
            0 <= b < sb.size && b == Slot(ImageOf(s), ip, k) && b in s.marked &&
            Cut(sb, s0, CutSnap(FreedSnap(sb, s, b), ip, k).(owner := s.owner - {b}), ip, k + 1)
  {
    SlotOwned(sb, s, ip, k);
    var b := s.inodes[ip].addrs[k];
    assert b == Slot(ImageOf(s), ip, k);
    var m := FreedSnap(sb, s, b);
    BfreeImage(sb, ImageOf(s), s.owner, s.marked, b);
    BlockOfMap(sb, b);
    var im := ImageOf(s).(store := UnmarkIn(sb, s.store, b));
    assert ImageOf(m) == im;
    UnlinkAddr(sb, im, s.owner, ip, k);
    var t := CutSnap(m, ip, k).(owner := s.owner - {b});
    assert ImageOf(t) == SetAddr(im, ip, k, 0);
    hide Tree, MapShows, UnmarkIn;
    CutSlots(s0, s, m, t, ip, k);
    CutBytes(ImageOf(s0), ImageOf(s), ImageOf(m), ImageOf(t), ip);
    hide Slot, ByteAt;
  }

  lemma CutSlots(s0: Snap, s: Snap, m: Snap, t: Snap, ip: int, k: int)
    requires forall i, l :: Slot(ImageOf(s), i, l) == if i == ip && l < k then 0 else Slot(ImageOf(s0), i, l)
    requires SameSlots(ImageOf(s), ImageOf(m)) && OnlySlot(ImageOf(m), ImageOf(t), ip, k, 0)
    requires |t.inodes| == |m.inodes|
    ensures forall i, l :: Slot(ImageOf(t), i, l) == if i == ip && l < k + 1 then 0 else Slot(ImageOf(s0), i, l)
  {
    forall i, l
      ensures Slot(ImageOf(t), i, l) == if i == ip && l < k + 1 then 0 else Slot(ImageOf(s0), i, l)
    {
      assert Slot(ImageOf(m), i, l) == Slot(ImageOf(s), i, l);
      assert !SlotRange(ImageOf(m), i, l) ==> Slot(ImageOf(m), i, l) == 0 == Slot(ImageOf(t), i, l);
      hide Slot, SlotRange;
    }
  }

  /** Nothing but slots of ip changed since m, so the other files read as in im. */
  lemma CutBytes(im0: Image, im: Image, mid: Image, im': Image, ip: int)
    requires OthersRead(im0, im, ip) && SameBytes(im, mid) && im'.store == mid.store
    requires forall i, l :: i != ip ==> Slot(im', i, l) == Slot(mid, i, l)
    ensures OthersRead(im0, im', ip)
  {
    hide Slot;
    forall i, o | i != ip && 0 <= o ensures ByteAt(im', i, o) == ByteAt(im0, i, o) {
      assert ByteAt(im', i, o) == ByteAt(mid, i, o);
      hide ByteAt;
    }
  }

  // ----- The indirect block -----

  predicate Behind(o: (int, int), ip: int, j: int) { o.0 == ip && NDIRECT < o.1 < NDIRECT + 1 + j }

  /** Marked: the owned blocks except those behind the first j entries of ip's indirect block. */
  ghost predicate MarkedBut(owner: map<int, (int, int)>, marked: set<int>, ip: int, j: int) {
    forall b :: b in marked <==> b in owner && !Behind(owner[b], ip, j)
  }

  /** The blocks behind the first j entries of ip's indirect block are free, though the entries still name them. */
  ghost predicate EntriesFreed(sb: Super, s0: Snap, s: Snap, ip: int, j: int) {
    && Tree(sb, ImageOf(s), s.owner) && MapShows(sb, s.store, s.marked)
    && s.inodes == s0.inodes && s.owner == s0.owner && 0 <= ip < |s0.inodes|
    && SameSlots(ImageOf(s0), ImageOf(s)) && SameBytes(ImageOf(s0), ImageOf(s))
    && MarkedBut(s.owner, s.marked, ip, j)
    && OnlyMapLogged(sb, s0.logged, s.logged)
  }

  lemma EntriesStart(sb: Super, s: Snap, ip: int)
    requires Sound(sb, s) && 0 <= ip < |s.inodes|
    ensures EntriesFreed(sb, s, s, ip, 0)
  {
    Unmoved(ImageOf(s));
    hide Tree, MapShows, SameSlots, SameBytes;
  }

  lemma EntryAt(sb: Super, s0: Snap, s: Snap, ip: int, j: int)
    requires EntriesFreed(sb, s0, s, ip, j) && 0 <= j < NINDIRECT && Slot(ImageOf(s0), ip, NDIRECT) != 0
    ensures |s.inodes[ip].addrs| == NDIRECT + 1 && 0 < s.inodes[ip].addrs[NDIRECT] < |s.store|
    ensures Word(s.store[s.inodes[ip].addrs[NDIRECT]], j) == Slot(ImageOf(s), ip, NDIRECT + 1 + j)
  {
    assert Slot(ImageOf(s), ip, NDIRECT) == Slot(ImageOf(s0), ip, NDIRECT);
    assert SlotRange(ImageOf(s), ip, NDIRECT);
    hide Word, SameSlots, SameBytes, MapShows;
  }

  lemma EntryOwned(sb: Super, im: Image, owner: map<int, (int, int)>, ip: int, j: int, k: int, a: int)
    requires Tree(sb, im, owner) && 0 <= ip < |im.inodes| && 0 <= j < NINDIRECT && k == NDIRECT + 1 + j
    requires a == Slot(im, ip, k)
    ensures a != 0 ==> a in owner && !Behind(owner[a], ip, j) && sb.Valid() && |im.store| == sb.size && 0 <= a < sb.size
    ensures forall b :: b in owner ==> (Behind(owner[b], ip, j + 1) <==> Behind(owner[b], ip, j) || (a != 0 && b == a))
  {
    assert SlotRange(im, ip, k);
    hide Slot, SlotRange;
    forall b | b in owner ensures Behind(owner[b], ip, j + 1) <==> Behind(owner[b], ip, j) || (a != 0 && b == a) {
      assert Slot(im, owner[b].0, owner[b].1) == b && b != 0;
      assert Behind(owner[b], ip, j + 1) <==> Behind(owner[b], ip, j) || owner[b] == (ip, k);
    }
  }

  lemma MarkedNext(sb: Super, s: Snap, ip: int, j: int, a: int)
    requires Tree(sb, ImageOf(s), s.owner) && 0 <= ip < |s.inodes| && 0 <= j < NINDIRECT
    requires a == Slot(ImageOf(s), ip, NDIRECT + 1 + j) && MarkedBut(s.owner, s.marked, ip, j)
    ensures a == 0 ==> MarkedBut(s.owner, s.marked, ip, j + 1)
    ensures a != 0 ==> a in s.marked && MarkedBut(s.owner, s.marked - {a}, ip, j + 1)
    ensures a != 0 ==> sb.Valid() && |s.store| == sb.size && 0 <= a < sb.size
  {
    EntryOwned(sb, ImageOf(s), s.owner, ip, j, NDIRECT + 1 + j, a);
    hide Slot, Behind, Tree;
  }

  lemma EntryFree(sb: Super, s0: Snap, s: Snap, ip: int, j: int)
    requires EntriesFreed(sb, s0, s, ip, j) && 0 <= j < NINDIRECT && Slot(ImageOf(s), ip, NDIRECT + 1 + j) == 0
    ensures EntriesFreed(sb, s0, s, ip, j + 1)
  {
    hide Slot, Tree, MapShows, SameSlots, SameBytes, MarkedBut;
    MarkedNext(sb, s, ip, j, 0);
  }

  lemma EntryFreed(sb: Super, s0: Snap, s: Snap, ip: int, j: int, a: int)
    requires EntriesFreed(sb, s0, s, ip, j) && 0 <= j < NINDIRECT && a == Slot(ImageOf(s), ip, NDIRECT + 1 + j) && a != 0
    ensures a in s.marked && sb.Valid() && |s.store| == sb.size && 0 <= a < sb.size
    ensures EntriesFreed(sb, s0, FreedSnap(sb, s, a), ip, j + 1)
  {
    hide Slot, Tree, MapShows, SameSlots, SameBytes, MarkedBut, UnmarkIn;
    MarkedNext(sb, s, ip, j, a);
    BfreeImage(sb, ImageOf(s), s.owner, s.marked, a);
    BlockOfMap(sb, a);
    var t := FreedSnap(sb, s, a);
    assert ImageOf(t) == ImageOf(s).(store := UnmarkIn(sb, s.store, a));
    SameThen(ImageOf(s0), ImageOf(s), ImageOf(t));
  }

  lemma SameThen(im: Image, mid: Image, im': Image)
    requires SameSlots(im, mid) && SameSlots(mid, im') && SameBytes(im, mid) && SameBytes(mid, im')
    ensures SameSlots(im, im') && SameBytes(im, im')
  {
    hide Slot, ByteAt;
  }

  /** bfree(ip->addrs[NDIRECT]); ip->addrs[NDIRECT] = 0. */
  lemma CutIndirect(sb: Super, s0: Snap, s: Snap, ip: int)
    requires Sound(sb, s0) && EntriesFreed(sb, s0, s, ip, NINDIRECT) && Slot(ImageOf(s0), ip, NDIRECT) != 0
    ensures sb.Valid() && |s.store| == sb.size && |s.inodes[ip].addrs| == NDIRECT + 1
    ensures var b := s.inodes[ip].addrs[NDIRECT];
            0 <= b < sb.size && b in s.marked &&
            var t := CutSnap(FreedSnap(sb, s, b), ip, NDIRECT).(owner := Without(s.owner, ip));
            Sound(sb, t) && OthersRead(ImageOf(s0), ImageOf(t), ip) && OnlyMapLogged(sb, s0.logged, t.logged) &&
            forall i, l :: Slot(ImageOf(t), i, l) == if i == ip && l >= NDIRECT then 0 else Slot(ImageOf(s0), i, l)
  {
    assert ImageOf(s).inodes[ip].addrs[NDIRECT] == Slot(ImageOf(s), ip, NDIRECT) == Slot(ImageOf(s0), ip, NDIRECT);
    var b := s.inodes[ip].addrs[NDIRECT];
    assert SlotRange(ImageOf(s), ip, NDIRECT);
    assert b in s.owner && s.owner[b] == (ip, NDIRECT);
    hide Slot, ByteAt;
    BfreeImage(sb, ImageOf(s), s.owner, s.marked, b);
    BlockOfMap(sb, b);
    var m := FreedSnap(sb, s, b);
    var im := ImageOf(s).(store := UnmarkIn(sb, s.store, b));
    assert ImageOf(m) == im;
    UnlinkIndirect(sb, im, s.owner, ip);
    var t := CutSnap(m, ip, NDIRECT).(owner := Without(s.owner, ip));
    assert ImageOf(t) == SetAddr(im, ip, NDIRECT, 0);
    assert m.marked == Without(s.owner, ip).Keys by {
      IndirectKeys(sb, s, ip, b);
    }
    hide Tree, MapShows, UnmarkIn, Without, Behind;
    IndirectSlots(s0, s, m, t, ip);
    assert OthersRead(ImageOf(s0), ImageOf(s), ip);
    CutBytes(ImageOf(s0), ImageOf(s), ImageOf(m), ImageOf(t), ip);
  }

  lemma IndirectKeys(sb: Super, s: Snap, ip: int, b: int)
    requires Tree(sb, ImageOf(s), s.owner) && b in s.owner && s.owner[b] == (ip, NDIRECT)
    requires MarkedBut(s.owner, s.marked, ip, NINDIRECT)
    ensures s.marked - {b} == Without(s.owner, ip).Keys
  {
    var im := ImageOf(s);
    assert Slot(im, ip, NDIRECT) == b;
    forall c ensures c in s.marked - {b} <==> c in Without(s.owner, ip).Keys {
      if c in s.owner {
        assert Slot(im, s.owner[c].0, s.owner[c].1) == c && SlotRange(im, s.owner[c].0, s.owner[c].1);
      }
      hide Slot;
    }
  }

  lemma IndirectSlots(s0: Snap, s: Snap, m: Snap, t: Snap, ip: int)
    requires SameSlots(ImageOf(s0), ImageOf(s)) && SameSlots(ImageOf(s), ImageOf(m)) && |t.inodes| == |m.inodes|
    requires forall i, l :: SlotRange(ImageOf(m), i, l) ==>
      Slot(ImageOf(t), i, l) == if i == ip && l >= NDIRECT then 0 else Slot(ImageOf(m), i, l)
    ensures forall i, l :: Slot(ImageOf(t), i, l) == if i == ip && l >= NDIRECT then 0 else Slot(ImageOf(s0), i, l)
    ensures forall i, l :: i != ip ==> Slot(ImageOf(t), i, l) == Slot(ImageOf(m), i, l)
  {
    forall i, l
      ensures Slot(ImageOf(t), i, l) == if i == ip && l >= NDIRECT then 0 else Slot(ImageOf(s0), i, l)
      ensures i != ip ==> Slot(ImageOf(t), i, l) == Slot(ImageOf(m), i, l)
    {
      assert Slot(ImageOf(m), i, l) == Slot(ImageOf(s0), i, l);
      assert !SlotRange(ImageOf(m), i, l) ==> Slot(ImageOf(m), i, l) == 0 == Slot(ImageOf(t), i, l);
      hide Slot, SlotRange;
    }
  }

  // ----- All of it -----

  lemma CutAll(sb: Super, s0: Snap, m: Snap, t: Snap, ip: int)
    requires Cut(sb, s0, m, ip, NDIRECT)
    requires Sound(sb, t) && OthersRead(ImageOf(m), ImageOf(t), ip) && OnlyMapLogged(sb, m.logged, t.logged)
    requires |t.inodes| == |m.inodes| && t.inodes == m.inodes[ip := t.inodes[ip]]
    requires forall i, l :: Slot(ImageOf(t), i, l) == if i == ip && l >= NDIRECT then 0 else Slot(ImageOf(m), i, l)
    ensures Cut(sb, s0, t, ip, NSLOTS)
  {
    OthersThen(ImageOf(s0), ImageOf(m), ImageOf(t), ip);
    hide Sound, OthersRead, ByteAt, Slot;
    assert forall i, l :: i == ip && l >= NSLOTS ==> Slot(ImageOf(s0), i, l) == 0 by {
      BeyondSlots(ImageOf(s0));
    }
  }

  lemma BeyondSlots(im: Image)
    ensures forall i, l :: l >= NSLOTS ==> Slot(im, i, l) == 0
  {
  }

  lemma OthersThen(im: Image, mid: Image, im': Image, ip: int)
    requires OthersRead(im, mid, ip) && OthersRead(mid, im', ip)
    ensures OthersRead(im, im', ip)
  {
    hide ByteAt;
  }

  /** No indirect block: nothing behind it either. */
  lemma CutNoIndirect(sb: Super, s0: Snap, s: Snap, ip: int)
    requires Cut(sb, s0, s, ip, NDIRECT) && Slot(ImageOf(s), ip, NDIRECT) == 0
    ensures Cut(sb, s0, s, ip, NSLOTS)
  {
    forall l | l >= NDIRECT ensures Slot(ImageOf(s), ip, l) == 0 {
      assert SlotRange(ImageOf(s), ip, NDIRECT);
      hide Word;
    }
    hide Slot, Word, ByteAt;
    CutAll(sb, s0, s, s, ip);
  }

  /** itrunc as a whole: the file is empty, its blocks and only its blocks are free again. */
  ghost predicate Emptied(sb: Super, s0: Snap, t: Snap, ip: int) {
    && Sound(sb, t) && 0 <= ip < |s0.inodes| == |t.inodes|
    && t.inodes == s0.inodes[ip := t.inodes[ip]] && t.inodes[ip].size == 0
    && (forall k :: 0 <= k < |t.inodes[ip].addrs| ==> t.inodes[ip].addrs[k] == 0)
    && (forall i, l :: Slot(ImageOf(t), i, l) == if i == ip then 0 else Slot(ImageOf(s0), i, l))
    && OthersRead(ImageOf(s0), ImageOf(t), ip)
    && (forall b :: b in t.marked <==> b in s0.marked && b in s0.owner && s0.owner[b].0 != ip)
  }

  lemma CutEmpties(sb: Super, s0: Snap, s: Snap, ip: int)
    requires Sound(sb, s0) && Cut(sb, s0, s, ip, NSLOTS)
    ensures Emptied(sb, s0, s.(inodes := SetSize(ImageOf(s), ip, 0).inodes), ip) && OnlyMapLogged(sb, s0.logged, s.logged)
  {
    var t := s.(inodes := SetSize(ImageOf(s), ip, 0).inodes);
    assert ImageOf(t) == SetSize(ImageOf(s), ip, 0);
    TreeIgnoresSize(sb, ImageOf(s), s.owner, ip, 0);
    AddrsEmpty(sb, s0, s, ip);
    BeyondSlots(ImageOf(s));
    OwnersLeft(sb, s0, s, ip);
    hide Tree, MapShows, Slot;
    CutBytes(ImageOf(s0), ImageOf(s), ImageOf(s), ImageOf(t), ip);
    hide ByteAt;
  }

  lemma EmptiedValid(sb: Super, s0: Snap, t: Snap, ip: int, logged: set<int>)
    requires Emptied(sb, s0, t, ip) && NoHoles(ImageOf(s0))
    ensures Emptied(sb, s0, t.(logged := logged), ip) && NoHoles(ImageOf(t)) && Sound(sb, t.(logged := logged))
    ensures |t.inodes| == |s0.inodes| && t.inodes == s0.inodes[ip := t.inodes[ip]]
  {
    assert ImageOf(t.(logged := logged)) == ImageOf(t);
    hide Tree, MapShows, Slot, OthersRead;
  }

  lemma AddrsEmpty(sb: Super, s0: Snap, s: Snap, ip: int)
    requires Cut(sb, s0, s, ip, NSLOTS)
    ensures forall k :: 0 <= k < |s.inodes[ip].addrs| ==> s.inodes[ip].addrs[k] == 0
  {
    forall k | 0 <= k < |s.inodes[ip].addrs| ensures s.inodes[ip].addrs[k] == 0 {
      assert Slot(ImageOf(s), ip, k) == 0;
    }
  }

  lemma OwnersLeft(sb: Super, s0: Snap, s: Snap, ip: int)
    requires Sound(sb, s0) && Cut(sb, s0, s, ip, NSLOTS)
    ensures forall b :: b in s.owner <==> b in s0.owner && s0.owner[b].0 != ip
  {
    forall b ensures b in s.owner <==> b in s0.owner && s0.owner[b].0 != ip {
      if b in s.owner {
        assert Slot(ImageOf(s), s.owner[b].0, s.owner[b].1) == b;
        assert SlotRange(ImageOf(s0), s.owner[b].0, s.owner[b].1);
      }
      if b in s0.owner && s0.owner[b].0 != ip {
        assert Slot(ImageOf(s0), s0.owner[b].0, s0.owner[b].1) == b;
        assert SlotRange(ImageOf(s), s0.owner[b].0, s0.owner[b].1);
      }
      hide Slot, MapShows;
    }
  }

  // ----- The code -----

  lemma FreedLogged(sb: Super, s: Snap, b: int)
    requires sb.Valid() && |s.store| == sb.size && 0 <= b < sb.size
    ensures ChangesLogged(s, FreedSnap(sb, s, b), {})
  {
    hide ClearBit;
  }

  /** bfree.  Callers own b, so the block is marked and the panic cannot happen. */
  method Bfree(fs: FileSystem, b: int)
    requires fs.sb.Valid() && |fs.store| == fs.sb.size && 0 <= b < fs.sb.size && Marked(fs.sb, fs.store, b)
    modifies fs`store, fs`marked, fs`logged
    ensures fs.Now() == FreedSnap(fs.sb, old(fs.Now()), b)
    ensures ChangesLogged(old(fs.Now()), fs.Now(), {})
  {
    hide UnmarkIn, ChangesLogged, Marked;
    FreedLogged(fs.sb, fs.Now(), b);
    ClearMark(fs, b);
    fs.marked := fs.marked - {b};
  }

  /** What bfree does to the bitmap block. */
  method ClearMark(fs: FileSystem, b: int)
    requires fs.sb.Valid() && |fs.store| == fs.sb.size && 0 <= b < fs.sb.size && Marked(fs.sb, fs.store, b)
    modifies fs`store, fs`logged
    ensures fs.store == UnmarkIn(fs.sb, old(fs.store), b) && fs.logged == old(fs.logged) + {BBlock(fs.sb, b)}
  {
    hide Bit, ClearBit;
    var bi := b % 8192;
    var bp := fs.store[BBlock(fs.sb, b)];
    var isSet := fs.TestAndMask(bp, bi);
    if !isSet {
      assert false;
    }
    fs.store := fs.store[BBlock(fs.sb, b) := ClearBit(bp, bi)];
    fs.LogWrite(BBlock(fs.sb, b));
  }

  lemma MarkedIsMarked(sb: Super, s: Snap, b: int)
    requires Tree(sb, ImageOf(s), s.owner) && MapShows(sb, s.store, s.marked) && b in s.marked
    ensures sb.Valid() && |s.store| == sb.size && 0 <= b < sb.size && Marked(sb, s.store, b)
  {
    hide Slot, Marked;
  }

  lemma AddrIsSlot(sb: Super, s: Snap, ip: int, k: int)
    requires Sound(sb, s) && 0 <= ip < |s.inodes| && 0 <= k <= NDIRECT
    ensures |s.inodes[ip].addrs| == NDIRECT + 1 && s.inodes[ip].addrs[k] == Slot(ImageOf(s), ip, k)
    ensures s.inodes[ip].addrs[k] != 0 ==> s.inodes[ip].addrs[k] in s.marked
  {
    assert SlotRange(ImageOf(s), ip, k);
    hide Word;
  }

  /** The first loop of itrunc. */
  method FreeDirect(fs: FileSystem, ip: int)
    requires fs.Working() && 0 <= ip < |fs.inodes|
    modifies fs`inodes, fs`store, fs`owner, fs`marked, fs`logged
    ensures Cut(fs.sb, old(fs.Now()), fs.Now(), ip, NDIRECT)
    ensures ChangesLogged(old(fs.Now()), fs.Now(), {})
  {
    ghost var s0 := fs.Now();
    CutStart(fs.sb, s0, ip);
    NoChanges(s0);
    hide Cut, Sound, Slot, Tree, MapShows, Marked, UnmarkIn, ChangesLogged;
    for i := 0 to NDIRECT
      invariant Cut(fs.sb, s0, fs.Now(), ip, i) && 0 <= ip < |fs.inodes| && ChangesLogged(s0, fs.Now(), {})
    {
      ghost var s := fs.Now();
      FreeAddr(fs, s0, ip, i);
      ChangesThen(s0, s, fs.Now(), {});
    }
  }

  method FreeAddr(fs: FileSystem, ghost s0: Snap, ip: int, i: int)
    requires Cut(fs.sb, s0, fs.Now(), ip, i) && 0 <= ip < |fs.inodes| && 0 <= i < NDIRECT
    modifies fs`inodes, fs`store, fs`owner, fs`marked, fs`logged
    ensures Cut(fs.sb, s0, fs.Now(), ip, i + 1) && |fs.inodes| == old(|fs.inodes|)
    ensures ChangesLogged(old(fs.Now()), fs.Now(), {})
  {
    ghost var s := fs.Now();
    CutSound(fs.sb, s0, s, ip, i);
    AddrIsSlot(fs.sb, s, ip, i);
    hide Cut, Sound, Slot, Tree, MapShows, Marked, UnmarkIn;
    var addr := fs.inodes[ip].addrs[i];
    if addr != 0 {
      MarkedIsMarked(fs.sb, s, addr);
      CutAddr(fs.sb, s0, s, ip, i);
      Bfree(fs, addr);
      fs.inodes := fs.inodes[ip := fs.inodes[ip].(addrs := fs.inodes[ip].addrs[i := 0])];
      fs.owner := fs.owner - {addr};
      assert fs.Now() == CutSnap(FreedSnap(fs.sb, s, addr), ip, i).(owner := s.owner - {addr});
    } else {
      CutNone(fs.sb, s0, s, ip, i);
    }
  }

  lemma CutSound(sb: Super, s0: Snap, s: Snap, ip: int, k: int)
    requires Cut(sb, s0, s, ip, k)
    ensures Sound(sb, s) && Tree(sb, ImageOf(s), s.owner) && MapShows(sb, s.store, s.marked) && |s.inodes| == |s0.inodes|
  {
    hide Tree, MapShows, Slot;
  }

  lemma EntriesGist(sb: Super, s0: Snap, s: Snap, ip: int, j: int)
    requires EntriesFreed(sb, s0, s, ip, j)
    ensures Tree(sb, ImageOf(s), s.owner) && MapShows(sb, s.store, s.marked) && s.inodes == s0.inodes && 0 <= ip < |s.inodes|
    ensures s.owner == s0.owner
  {
    hide Tree, MapShows, SameSlots, SameBytes;
  }

  /** if(a[j]) bfree(ip->dev, a[j]). */
  method FreeEntry(fs: FileSystem, ghost s0: Snap, ip: int, j: int)
    requires EntriesFreed(fs.sb, s0, fs.Now(), ip, j) && 0 <= j < NINDIRECT && 0 <= ip < |fs.inodes|
    requires Slot(ImageOf(s0), ip, NDIRECT) != 0
    modifies fs`store, fs`marked, fs`logged
    ensures EntriesFreed(fs.sb, s0, fs.Now(), ip, j + 1)
    ensures ChangesLogged(old(fs.Now()), fs.Now(), {})
  {
    ghost var s := fs.Now();
    EntryAt(fs.sb, s0, s, ip, j);
    EntriesGist(fs.sb, s0, s, ip, j);
    hide EntriesFreed, Slot, Tree, MapShows, Marked, UnmarkIn, Word;
    var a := Word(fs.store[fs.inodes[ip].addrs[NDIRECT]], j);
    if a != 0 {
      EntryFreed(fs.sb, s0, s, ip, j, a);
      MarkedIsMarked(fs.sb, s, a);
      Bfree(fs, a);
    } else {
      EntryFree(fs.sb, s0, s, ip, j);
    }
  }

  /** The part of itrunc for the indirect block. */
  method FreeIndirect(fs: FileSystem, ip: int)
    requires fs.Working() && 0 <= ip < |fs.inodes| && Slot(fs.Im(), ip, NDIRECT) != 0
    modifies fs`inodes, fs`store, fs`owner, fs`marked, fs`logged
    ensures Sound(fs.sb, fs.Now()) && OthersRead(old(fs.Im()), fs.Im(), ip)
    ensures OnlyMapLogged(fs.sb, old(fs.logged), fs.logged)
    ensures |fs.inodes| == old(|fs.inodes|) && fs.inodes == old(fs.inodes)[ip := fs.inodes[ip]]
    ensures forall i, l :: Slot(fs.Im(), i, l) == if i == ip && l >= NDIRECT then 0 else Slot(old(fs.Im()), i, l)
    ensures ChangesLogged(old(fs.Now()), fs.Now(), {})
  {
    ghost var s0 := fs.Now();
    EntriesStart(fs.sb, s0, ip);
    NoChanges(s0);
    hide Sound, EntriesFreed, Slot, Tree, MapShows, Marked, UnmarkIn, Word, OthersRead, OnlyMapLogged, ChangesLogged;
    for j := 0 to NINDIRECT
      invariant EntriesFreed(fs.sb, s0, fs.Now(), ip, j) && fs.inodes == s0.inodes && fs.owner == s0.owner
      invariant ChangesLogged(s0, fs.Now(), {})
    {
      ghost var s := fs.Now();
      FreeEntry(fs, s0, ip, j);
      ChangesThen(s0, s, fs.Now(), {});
    }
    ghost var m := fs.Now();
    CutIndirectCode(fs, s0, ip);
    ChangesThen(s0, m, fs.Now(), {});
  }

  method CutIndirectCode(fs: FileSystem, ghost s0: Snap, ip: int)
    requires Sound(fs.sb, s0) && EntriesFreed(fs.sb, s0, fs.Now(), ip, NINDIRECT) && Slot(ImageOf(s0), ip, NDIRECT) != 0
    requires 0 <= ip < |fs.inodes|
    modifies fs`inodes, fs`store, fs`owner, fs`marked, fs`logged
    ensures Sound(fs.sb, fs.Now()) && OthersRead(ImageOf(s0), ImageOf(fs.Now()), ip)
    ensures OnlyMapLogged(fs.sb, s0.logged, fs.logged)
    ensures |fs.inodes| == old(|fs.inodes|) && fs.inodes == old(fs.inodes)[ip := fs.inodes[ip]]
    ensures forall i, l :: Slot(ImageOf(fs.Now()), i, l) == if i == ip && l >= NDIRECT then 0 else Slot(ImageOf(s0), i, l)
    ensures ChangesLogged(old(fs.Now()), fs.Now(), {})
  {
    ghost var s := fs.Now();
    EntriesGist(fs.sb, s0, s, ip, NINDIRECT);
    CutIndirect(fs.sb, s0, s, ip);
    hide EntriesFreed, Sound, Slot, Tree, MapShows, Marked, UnmarkIn, OthersRead, OnlyMapLogged, Without;
    var b := fs.inodes[ip].addrs[NDIRECT];
    MarkedIsMarked(fs.sb, s, b);
    Bfree(fs, b);
    fs.inodes := fs.inodes[ip := fs.inodes[ip].(addrs := fs.inodes[ip].addrs[NDIRECT := 0])];
    fs.owner := Without(fs.owner, ip);
    assert fs.Now() == CutSnap(FreedSnap(fs.sb, s, b), ip, NDIRECT).(owner := Without(s.owner, ip));
  }

  /** itrunc. */
  method Itrunc(fs: FileSystem, ip: int)
    requires fs.Valid() && 0 <= ip < |fs.inodes|
    modifies fs`inodes, fs`dinodes, fs`store, fs`owner, fs`marked, fs`logged
    ensures fs.Valid()
    ensures Emptied(fs.sb, old(fs.Now()), fs.Now(), ip)
    ensures |fs.inodes| == |fs.dinodes| == |old(fs.dinodes)| && fs.dinodes == old(fs.dinodes)[ip := fs.inodes[ip]]
    ensures exists l :: OnlyMapLogged(fs.sb, old(fs.logged), l) && fs.logged == l + {IBlock(fs.sb, ip)}
    ensures ChangesLogged(old(fs.Now()), fs.Now(), {})
  {
    ghost var s0 := fs.Now();
    FreeDirect(fs, ip);
    ghost var m := fs.Now();
    CutSound(fs.sb, s0, m, ip, NDIRECT);
    AddrIsSlot(fs.sb, m, ip, NDIRECT);
    hide Cut, Sound, Slot, Tree, MapShows, Emptied, OnlyMapLogged, ChangesLogged;
    if fs.inodes[ip].addrs[NDIRECT] != 0 {
      FreeIndirect(fs, ip);
      CutAll(fs.sb, s0, m, fs.Now(), ip);
      ChangesThen(s0, m, fs.Now(), {});
    } else {
      CutNoIndirect(fs.sb, s0, m, ip);
    }
    CutEmpties(fs.sb, s0, fs.Now(), ip);
    ghost var u := fs.Now();
    fs.inodes := fs.inodes[ip := fs.inodes[ip].(size := 0)];
    ghost var t := fs.Now();
    fs.Iupdate(ip);
    ChangesStay(s0, u, fs.Now(), IBlock(fs.sb, ip), {});
    EmptiedValid(fs.sb, s0, t, ip, fs.logged);
  }
}
