/** A write that leaves a byte behind: from an empty disk, through the code. */
module FsLeftover {
  import opened FsBlocks
  import opened FsImage
  import opened FsSpace
  import opened Fs

  /** Two bytes for an empty file, of which the user's memory yields one: that one is left in a new block. */
  lemma FirstByte(sb: Super, s: Snap)
    requires Blank(sb, s) && sb.datastart < sb.size
    ensures EnoughFor(sb, s, 0, 0) && Leftover(sb, s, 0, 0, 2, 1) && FileBlock(s, 0, 0) == 0
  {
    BlankSlots(sb, s);
    hide Slot, Marked;
    assert Missing(ImageOf(s), 0, 1) == 1;
    assert sb.datastart in FreeBlocks(sb, s.marked);
  }

  /** The same for a file of one byte: no block is needed. */
  lemma SecondByte(sb: Super, s: Snap)
    requires Sound(sb, s) && NoHoles(ImageOf(s)) && 0 < |s.inodes| && s.inodes[0].size == 1
    ensures Leftover(sb, s, 0, 0, 2, 1) && FileBlock(s, 0, 0) != 0
  {
    hide Slot, Sound;
    HasAll(sb, ImageOf(s), s.marked, 0, 0);
  }

  /** The byte at the start of the file is another one, so its block has changed. */
  lemma BlockChanged(sb: Super, s: Snap, t: Snap, src: seq<bv8>)
    requires Sound(sb, s) && FileBlock(s, 0, 0) != 0 && SlotsStay(ImageOf(s), ImageOf(t)) && |src| == 2
    requires Landed(ImageOf(s), ImageOf(t), 0, 0, src, 1) && ByteAt(ImageOf(s), 0, 0) != src[0] && |t.store| == |s.store|
    ensures BlockAt(ImageOf(t), 0, 0) == FileBlock(s, 0, 0) && 0 <= FileBlock(s, 0, 0) < |s.store|
    ensures t.store[FileBlock(s, 0, 0)] != s.store[FileBlock(s, 0, 0)]
  {
    hide Slot;
    DataBlockAlone(sb, s, 0, 0, FileBlock(s, 0, 0), 0, 0);
    assert ByteAt(ImageOf(t), 0, 0) == src[0];
  }

  /** A disk with a file of one byte, which is 1. */
  method OneByte(sb: Super) returns (fs: FileSystem)
    requires sb.Valid() && sb.datastart < sb.size
    ensures fresh(fs) && fs.sb == sb && fs.Valid() && 0 < |fs.inodes| && fs.inodes[0].size == 1 && ByteAt(fs.Im(), 0, 0) == 1
  {
    fs := new FileSystem(sb);
    FirstByte(sb, fs.Now());
    BlankShape(sb, fs.Now());
    WholeAll(0, 1);
    hide Sound, NoHoles, ByteAt, EnoughFor, Leftover, SlotsStay, ChangesLogged, InLogThen, Blank, NoneFree, SpareKept, Whole;
    var r; ghost var w;
    r, w := fs.Writei(0, [1], 1, 0);
    assert LastBlock(0, 1, 1) == 0;
  }

  lemma BlankShape(sb: Super, s: Snap)
    requires Blank(sb, s)
    ensures 0 < |s.inodes| && s.inodes[0].size == 0
  {
  }

  /** It is written over by two bytes, of which one can be read, in a transaction of its own.  writei reports 0 and
      leaves the size; but the byte is another one, and its block is not in the log. */
  method WriteOver(fs: FileSystem) returns (r: int)
    requires fs.Valid() && 0 < |fs.inodes| && fs.inodes[0].size == 1 && ByteAt(fs.Im(), 0, 0) == 1
    modifies fs`inodes, fs`dinodes, fs`store, fs`owner, fs`marked, fs`logged
    ensures fs.Valid() && r == 0 && 0 < |fs.inodes| && fs.inodes[0].size == 1 && ByteAt(fs.Im(), 0, 0) == 7
    ensures var b := BlockAt(fs.Im(), 0, 0);
            0 <= b < |fs.store| == |old(fs.store)| && fs.store[b] != old(fs.store)[b] && b !in fs.logged
  {
    fs.logged := {};
    ghost var s := fs.Now();
    SoundIgnoresLog(fs.sb, old(fs.Now()), {});
    SecondByte(fs.sb, s);
    hide Sound, NoHoles, ByteAt, EnoughFor, Leftover, SlotsStay, Landed, NoneFree, SpareKept, Slot;
    ghost var w;
    r, w := fs.Writei(0, [7, 7], 1, 0);
    assert LastBlock(0, 2, 1) == 0 && Whole(0, 2, 1) == 0;
    BlockChanged(fs.sb, s, fs.Now(), [7, 7]);
  }
}
