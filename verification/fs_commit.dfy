/** The file system as a crash finds it: a disk that takes over the logged blocks of one transaction after another
    stays consistent, although changes that were not logged never reach it. */
module FsCommit {
  import opened FsBlocks
  import opened FsImage
  import opened Fs
  import opened FsFile
  import opened FsSpace
  import opened FsTrunc

  /** The block is one whose contents mean nothing to the free map or to a block map. */
  ghost predicate Plain(sb: Super, s: Snap, b: int) { sb.datastart <= b && (b in s.owner ==> s.owner[b].1 != NDIRECT) }

  ghost predicate AllPlain(sb: Super, s: Snap, blocks: set<int>) { forall b :: b in blocks ==> Plain(sb, s, b) }

  /** The disk differs from what readers see in such blocks only. */
  ghost predicate Behind(sb: Super, s: Snap, disk: seq<Block>) {
    |disk| == |s.store| && forall b :: 0 <= b < |disk| && disk[b] != s.store[b] ==> Plain(sb, s, b)
  }

  /** The disk after the commit of a transaction. */
  function Committed(disk: seq<Block>, store: seq<Block>, txn: set<int>): (r: seq<Block>)
    requires |disk| == |store|
    ensures |r| == |disk| && forall b :: 0 <= b < |r| ==> r[b] == if b in txn then store[b] else disk[b]
  {
    seq(|disk|, b requires 0 <= b < |disk| => if b in txn then store[b] else disk[b])
  }

  lemma BehindSlots(sb: Super, s: Snap, disk: seq<Block>)
    requires Sound(sb, s) && Behind(sb, s, disk)
    ensures forall i, k :: Slot(Image(s.inodes, disk), i, k) == Slot(ImageOf(s), i, k)
  {
    forall i, k ensures Slot(Image(s.inodes, disk), i, k) == Slot(ImageOf(s), i, k) {
      if SlotRange(ImageOf(s), i, k) && k > NDIRECT {
        assert SlotRange(ImageOf(s), i, NDIRECT);
        assert Slot(ImageOf(s), i, NDIRECT) == s.inodes[i].addrs[NDIRECT];
        hide Word;
      }
    }
  }

  /** Such a disk is consistent, with the same blocks in the same places of the same files. */
  lemma BehindConsistent(sb: Super, s: Snap, disk: seq<Block>)
    requires Sound(sb, s) && Behind(sb, s, disk)
    ensures Consistent(sb, Image(s.inodes, disk), s.owner) && (NoHoles(ImageOf(s)) ==> NoHoles(Image(s.inodes, disk)))
  {
    BehindSlots(sb, s, disk);
    BehindMap(sb, s, disk);
    hide Slot, Bit;
  }

  lemma BehindMap(sb: Super, s: Snap, disk: seq<Block>)
    requires Sound(sb, s) && Behind(sb, s, disk)
    ensures MapShows(sb, disk, s.owner.Keys)
  {
    assert Sized(sb, ImageOf(s));
    hide Slot, Bit, Tree, Sized;
    forall b | 0 <= b < sb.size ensures Marked(sb, disk, b) <==> Marked(sb, s.store, b) {
      assert BBlock(sb, b) < sb.datastart;
    }
  }

  /** The indirect blocks of t are those of s, or in the transaction. */
  ghost predicate IndirectsKnown(s: Snap, t: Snap, txn: set<int>) {
    forall i :: Slot(ImageOf(t), i, NDIRECT) != 0 ==> Slot(ImageOf(s), i, NDIRECT) == Slot(ImageOf(t), i, NDIRECT) || Slot(ImageOf(t), i, NDIRECT) in txn
  }

  /** One transaction more. */
  lemma CommitBehind(sb: Super, s: Snap, t: Snap, disk: seq<Block>, txn: set<int>, but: set<int>)
    requires Sound(sb, s) && Sound(sb, t) && Behind(sb, s, disk) && Durable(s.store, t.store, [txn], but) && IndirectsKnown(s, t, txn)
    requires AllPlain(sb, t, but)
    ensures Behind(sb, t, Committed(disk, t.store, txn))
  {
    var after := Committed(disk, t.store, txn);
    forall b | 0 <= b < |after| && after[b] != t.store[b] ensures Plain(sb, t, b) {
      if b !in txn && b !in but {
        OneDurable(s.store, t.store, txn, but, b);
        StillPlain(sb, s, t, txn, b);
      }
    }
  }

  lemma OneDurable(s: seq<Block>, t: seq<Block>, txn: set<int>, but: set<int>, b: int)
    requires Durable(s, t, [txn], but) && 0 <= b < |s| && b !in txn && b !in but
    ensures |t| == |s| && t[b] == s[b]
  {
  }

  lemma StillPlain(sb: Super, s: Snap, t: Snap, txn: set<int>, b: int)
    requires Sound(sb, s) && Sound(sb, t) && IndirectsKnown(s, t, txn) && b !in txn
    ensures Plain(sb, s, b) ==> Plain(sb, t, b)
  {
    if b in t.owner && t.owner[b].1 == NDIRECT {
      var i := t.owner[b].0;
      assert Slot(ImageOf(t), i, NDIRECT) == b;
      assert SlotRange(ImageOf(s), i, NDIRECT) && Slot(ImageOf(s), i, NDIRECT) == b;
      hide Slot;
    }
  }

  // ----- The transactions of filewrite and of itrunc -----

  lemma DataPlain(sb: Super, t: Snap, ip: int, o: int)
    requires Sound(sb, t) && 0 <= o && BlockAt(ImageOf(t), ip, o) != 0
    ensures Plain(sb, t, BlockAt(ImageOf(t), ip, o))
  {
    assert SlotRange(ImageOf(t), ip, FileSlot(o / 1024));
    OtherSlots(o / 1024);
    hide Slot;
  }

  lemma ChunkIndirects(sb: Super, s: Snap, t: Snap, ip: int, off: int, src: seq<bv8>, avail: int, i: int, n1: int, r: int, w: int, txn: set<int>)
    requires ChunkDone(sb, s, t, ip, off, src, avail, i, n1, r, w, txn)
    ensures IndirectsKnown(s, t, txn)
  {
    hide Landed, Outcome, Leftover, Durable, BlockAt;
    forall j | Slot(ImageOf(t), j, NDIRECT) != 0
      ensures Slot(ImageOf(s), j, NDIRECT) == Slot(ImageOf(t), j, NDIRECT) || Slot(ImageOf(t), j, NDIRECT) in txn
    {
      if j != ip {
        assert 0 <= j < |t.inodes| ==> t.inodes[j] == s.inodes[j];
      } else if r == -1 {
        assert ImageOf(t) == ImageOf(s);
      } else if Slot(ImageOf(s), ip, NDIRECT) == 0 {
        assert Slot(ImageOf(t), ip, NDIRECT) in IndirectOf(t, ip);
      }
    }
  }

  /** A transaction of filewrite, whatever faults and shortages it meets. */
  lemma ChunkIsTransaction(sb: Super, s: Snap, t: Snap, ip: int, off: int, src: seq<bv8>, avail: int, i: int, n1: int, r: int, w: int, txn: set<int>)
    requires Sound(sb, s) && Sound(sb, t) && NoHoles(ImageOf(t)) && 0 <= off
    requires ChunkDone(sb, s, t, ip, off, src, avail, i, n1, r, w, txn)
    ensures Transaction(sb, s, t, txn)
  {
    hide Sound, NoHoles, BlockAt, IndirectsKnown, Plain, Durable, ChunkDone;
    ChunkIndirects(sb, s, t, ip, off, src, avail, i, n1, r, w, txn);
    var o := off + Max(r, 0);
    var but := Only(w > Max(r, 0), BlockAt(ImageOf(t), ip, o));
    ChunkChanges(sb, s, t, ip, off, src, avail, i, n1, r, w, txn, o);
    if w > Max(r, 0) {
      DataPlain(sb, t, ip, o);
    }
    assert Durable(s.store, t.store, [txn], but) && AllPlain(sb, t, but);
  }

  lemma ChunkChanges(sb: Super, s: Snap, t: Snap, ip: int, off: int, src: seq<bv8>, avail: int, i: int, n1: int, r: int, w: int, txn: set<int>, o: int)
    requires ChunkDone(sb, s, t, ip, off, src, avail, i, n1, r, w, txn) && o == off + Max(r, 0)
    ensures Durable(s.store, t.store, [txn], Only(w > Max(r, 0), BlockAt(ImageOf(t), ip, o)))
    ensures w > Max(r, 0) ==> BlockAt(ImageOf(t), ip, o) != 0
  {
    hide Landed, Outcome, Leftover, SlotsStay, BlockAt, Durable, Slot, Only;
  }

  /** itrunc, as a transaction. */
  lemma TruncIsTransaction(sb: Super, s: Snap, t: Snap, ip: int)
    requires Sound(sb, s) && NoHoles(ImageOf(t)) && s.logged == {} && Emptied(sb, s, t, ip) && ChangesLogged(s, t, {})
    ensures Transaction(sb, s, t, t.logged)
  {
    OneTransaction(s, t, {});
    hide Slot, Sound, NoHoles, ChangesLogged, Durable, OthersRead;
    assert IndirectsKnown(s, t, t.logged);
    assert Durable(s.store, t.store, [t.logged], {}) && AllPlain(sb, t, {});
  }

  // ----- Any number of them -----

  /** From s to t, with what is logged: whatever else has changed is plain. */
  ghost predicate Transaction(sb: Super, s: Snap, t: Snap, txn: set<int>) {
    && Sound(sb, s) && Sound(sb, t) && NoHoles(ImageOf(t)) && IndirectsKnown(s, t, txn)
    && exists but: set<int> :: Durable(s.store, t.store, [txn], but) && AllPlain(sb, t, but)
  }

  lemma CommitOne(sb: Super, s: Snap, t: Snap, disk: seq<Block>, txn: set<int>)
    requires Transaction(sb, s, t, txn) && Behind(sb, s, disk)
    ensures |disk| == |t.store| && Behind(sb, t, Committed(disk, t.store, txn))
  {
    hide Sound, NoHoles, IndirectsKnown, Plain, Durable, Behind;
    var but: set<int> :| Durable(s.store, t.store, [txn], but) && AllPlain(sb, t, but);
    SameLength(sb, s, t, disk, txn, but);
    CommitBehind(sb, s, t, disk, txn, but);
  }

  lemma SameLength(sb: Super, s: Snap, t: Snap, disk: seq<Block>, txn: set<int>, but: set<int>)
    requires Behind(sb, s, disk) && Durable(s.store, t.store, [txn], but)
    ensures |disk| == |t.store|
  {
  }

  /** The states of the file system between one transaction and the next. */
  ghost predicate Transactions(sb: Super, ss: seq<Snap>, txns: seq<set<int>>) {
    |ss| == |txns| + 1 && forall i :: 0 <= i < |txns| ==> Transaction(sb, ss[i], ss[i + 1], txns[i])
  }

  /** The disk after the first n of them have been committed. */
  ghost function DiskAfter(disk: seq<Block>, ss: seq<Snap>, txns: seq<set<int>>, n: nat): (d: seq<Block>)
    requires n <= |txns| && |ss| == |txns| + 1
    decreases n
  {
    if n == 0 then disk
    else
      var d := DiskAfter(disk, ss, txns, n - 1);
      if |d| == |ss[n].store| then Committed(d, ss[n].store, txns[n - 1]) else d
  }

  /** However many transactions have reached the disk when the crash comes, it is the disk of a consistent file
      system without holes, with the block maps of the file system at that point. */
  lemma {:induction false} CrashConsistent(sb: Super, ss: seq<Snap>, txns: seq<set<int>>, n: nat)
    requires Transactions(sb, ss, txns) && n <= |txns| && Sound(sb, ss[0]) && NoHoles(ImageOf(ss[0]))
    ensures var d := DiskAfter(ss[0].store, ss, txns, n);
            Behind(sb, ss[n], d) && Consistent(sb, Image(ss[n].inodes, d), ss[n].owner) && NoHoles(Image(ss[n].inodes, d))
    decreases n
  {
    hide Sound, NoHoles, Transaction;
    if n == 0 {
      NotBehind(sb, ss[0]);
      BehindConsistent(sb, ss[0], ss[0].store);
    } else {
      CrashConsistent(sb, ss, txns, n - 1);
      assert Transaction(sb, ss[n - 1], ss[n], txns[n - 1]);
      CommitOne(sb, ss[n - 1], ss[n], DiskAfter(ss[0].store, ss, txns, n - 1), txns[n - 1]);
      TransactionSound(sb, ss[n - 1], ss[n], txns[n - 1]);
      BehindConsistent(sb, ss[n], DiskAfter(ss[0].store, ss, txns, n));
    }
  }

  lemma NotBehind(sb: Super, s: Snap)
    ensures Behind(sb, s, s.store)
  {
    hide Plain;
  }

  lemma TransactionSound(sb: Super, s: Snap, t: Snap, txn: set<int>)
    requires Transaction(sb, s, t, txn)
    ensures Sound(sb, t) && NoHoles(ImageOf(t))
  {
    hide Sound, NoHoles, IndirectsKnown;
  }
}
