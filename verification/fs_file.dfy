/** readi of kernel/fs.c, and filewrite of kernel/file.c, which cuts a write into transactions. */
module FsFile {
  import opened FsBlocks
  import opened FsImage
  import opened Fs
  import opened FsSpace

  /** out holds the bytes of the file of ip from off on. */
  ghost predicate Reads(im: Image, ip: int, off: int, out: seq<bv8>) {
    0 <= off && forall k :: 0 <= k < |out| ==> out[k] == ByteAt(im, ip, off + k)
  }

  lemma BlockThere(sb: Super, s: Snap, t: Snap, ip: int, bn: int, addr: int, maps: set<int>)
    requires Provided(sb, s, t, ip, FileSlot(bn), addr, maps) && NoHoles(ImageOf(s))
    requires 0 <= ip < |s.inodes| && 0 <= bn && bn * 1024 < s.inodes[ip].size
    ensures t == s && addr == Slot(ImageOf(s), ip, FileSlot(bn)) && 0 < addr < |s.store|
  {
    hide Slot, SameBytes, SlotsStay;
    DataBlockAlone(sb, s, ip, bn, addr, ip, bn);
  }

  lemma ReadsMore(im: Image, ip: int, off: int, out: seq<bv8>, bn: int, x: int, p: int, addr: int)
    requires Reads(im, ip, off, out) && 0 <= bn && 0 <= x && 0 <= p && x + p <= 1024
    requires off + |out| == bn * 1024 + x && addr == Slot(im, ip, FileSlot(bn)) && 0 < addr < |im.store|
    ensures Reads(im, ip, off, out + im.store[addr][x..x + p])
  {
    hide Slot;
    var more := im.store[addr][x..x + p];
    forall k | 0 <= k < |out + more| ensures (out + more)[k] == ByteAt(im, ip, off + k) {
      if k >= |out| {
        var o := off + k;
        assert o / 1024 == bn && o % 1024 == x + (k - |out|);
      }
    }
  }

  /** either_copyout: the user's memory takes the bytes before `room`. */
  method CopyOut(out: seq<bv8>, bytes: seq<bv8>, room: int) returns (r: seq<bv8>, ok: bool)
    requires |out| <= room
    ensures ok <==> |out| + |bytes| <= room
    ensures |r| == Min(|out| + |bytes|, room) && r == out + bytes[..|r| - |out|]
  {
    ok := |out| + |bytes| <= room;
    r := if ok then out + bytes else out + bytes[..room - |out|];
  }

  /** One turn of the loop of readi. */
  method ReadTurn(fs: FileSystem, ip: int, off0: int, n: int, off: int, out: seq<bv8>, room: int) returns (r: seq<bv8>, m: int, ok: bool)
    requires fs.Valid() && 0 <= ip < |fs.inodes| && Reads(fs.Im(), ip, off0, out)
    requires off == off0 + |out| && |out| < n && off0 + n <= fs.inodes[ip].size && |out| <= room
    modifies fs`inodes, fs`store, fs`owner, fs`marked, fs`logged
    ensures fs.Now() == old(fs.Now()) && Reads(fs.Im(), ip, off0, r)
    ensures 0 < m <= n - |out| && (ok <==> |out| + m <= room) && |r| == Min(|out| + m, room)
  {
    ghost var s := fs.Now();
    fs.Shape();
    hide Sound, NoHoles, Slot, Reads, ByteAt, Provided;
    var bn := off / 1024;
    var x := off % 1024;
    assert bn * 1024 <= off && off == bn * 1024 + x;
    var addr; ghost var maps;
    addr, maps := fs.Bmap(ip, bn);
    BlockThere(fs.sb, s, fs.Now(), ip, bn, addr, maps);
    m := Min(n - |out|, 1024 - x);
    r, ok := CopyOut(out, fs.store[addr][x..x + m], room);
    var p := |r| - |out|;
    assert r == out + fs.store[addr][x..x + p];
    ReadsMore(fs.Im(), ip, off0, out, bn, x, p, addr);
  }

  /** readi.  The bytes of the file from off on, up to its end, and nothing else changes: bmap never
      allocates below the size.  -1 when the user's memory takes fewer bytes than asked for. */
  method Readi(fs: FileSystem, ip: int, off0: int, n0: int, room: int) returns (tot: int, out: seq<bv8>)
    requires fs.Valid() && 0 <= ip < |fs.inodes| && 0 <= off0 < UINT && 0 <= n0 < UINT && 0 <= room
    modifies fs`inodes, fs`store, fs`owner, fs`marked, fs`logged
    ensures fs.Now() == old(fs.Now()) && Reads(fs.Im(), ip, off0, out)
    ensures off0 > fs.inodes[ip].size || off0 + n0 >= UINT ==> tot == 0 && out == []
    ensures off0 <= fs.inodes[ip].size && off0 + n0 < UINT ==>
      var n := Min(n0, fs.inodes[ip].size - off0); |out| == Min(n, room) && tot == if room < n then -1 else n
  {
    out := [];
    assert Reads(fs.Im(), ip, off0, out) && 0 <= fs.inodes[ip].size;
    if off0 > fs.inodes[ip].size || (off0 + n0) % 0x1_0000_0000 < off0 {
      return 0, [];
    }
    var n := n0;
    if off0 + n > fs.inodes[ip].size {
      n := fs.inodes[ip].size - off0;
    }
    hide Sound, NoHoles, Slot, Reads, ByteAt;
    ghost var s := fs.Now();
    tot := 0;
    var off := off0;
    while tot < n
      invariant fs.Now() == s && fs.Valid() && Reads(fs.Im(), ip, off0, out)
      invariant 0 <= tot <= n && tot == |out| <= room && off == off0 + tot
    {
      var m, ok;
      out, m, ok := ReadTurn(fs, ip, off0, n, off, out, room);
      if !ok {
        tot := -1;
        break;
      }
      tot := tot + m;
      off := off + m;
    }
  }

  // ----- filewrite -----

  /** Two writes, one after the other, are one write of both pieces. */
  lemma LandedThen(im: Image, mid: Image, im': Image, ip: int, off: int, src: seq<bv8>, i: int, n1: int, w: int)
    requires 0 <= i && 0 <= w <= n1 && i + n1 <= |src| && 0 <= off
    requires Landed(im, mid, ip, off, src, i) && Landed(mid, im', ip, off + i, src[i..i + n1], w)
    ensures Landed(im, im', ip, off, src, i + w)
  {
    hide ByteAt;
  }

  /** struct file, for an inode. */
  datatype File = File(writable: bool, ip: int, off: int)

  /** How many bytes of a chunk the user's memory yields. */
  function Avail(avail: int, i: int, n1: int): (a: int)
    requires 0 <= n1
    ensures 0 <= a <= n1
  {
    if avail <= i then 0 else Min(avail - i, n1)
  }

  /** Blocks that differ are in one of the transactions or in `but`. */
  ghost predicate Durable(store: seq<Block>, store': seq<Block>, txns: seq<set<int>>, but: set<int>) {
    |store'| == |store| && forall b :: 0 <= b < |store| && store'[b] != store[b] ==> b in but || InSome(txns, b)
  }

  ghost predicate InSome(txns: seq<set<int>>, b: int) { exists k :: 0 <= k < |txns| && b in txns[k] }

  /** What one transaction of filewrite does, for the n1 bytes from byte i on, at position `off` of the file: w bytes
      get into the buffers, r are reported, and `txn` is logged. */
  ghost predicate ChunkDone(sb: Super, s: Snap, t: Snap, ip: int, off: int, src: seq<bv8>, avail: int, i: int, n1: int, r: int, w: int, txn: set<int>) {
    && 0 <= ip < |s.inodes| == |t.inodes| && t.inodes == s.inodes[ip := t.inodes[ip]]
    && 0 <= i && 0 < n1 && i + n1 <= |src| && 0 <= w <= n1 && Max(r, 0) <= w
    && Landed(ImageOf(s), ImageOf(t), ip, off, src[i..i + n1], w) && SlotsStay(ImageOf(s), ImageOf(t))
    && (r == -1 <==> off > s.inodes[ip].size || off + n1 > MAXFILE * 1024)
    && (r != -1 ==> Outcome(sb, s, t, ip, off, n1, Avail(avail, i, n1), r, w))
    && (r == n1 ==> i + n1 <= avail && t.inodes[ip].size >= off + n1)
    // Every block that it changed is logged, but the one in which the user's memory gave out.
    && |txn| <= MAXOPBLOCKS && Durable(s.store, t.store, [txn], Only(w > Max(r, 0), BlockAt(ImageOf(t), ip, off + Max(r, 0))))
    // That happens exactly in this case, and the block is in the log only if it is new.
    && (w > Max(r, 0) <==> Leftover(sb, s, ip, off, n1, Avail(avail, i, n1)))
    && (w > Max(r, 0) ==> i + w == avail && r != n1 && BlockAt(ImageOf(t), ip, off + Max(r, 0)) != 0)
    && (r != -1 && Slot(ImageOf(s), ip, NDIRECT) == 0 ==> IndirectOf(t, ip) <= txn) && (r == -1 ==> t == s.(logged := {}))
    && (w > Max(r, 0) ==> (BlockAt(ImageOf(t), ip, off + Max(r, 0)) in txn <==> BlockAt(ImageOf(s), ip, off + Avail(avail, i, n1)) == 0))
  }

  /** One transaction of filewrite: begin_op, writei, end_op. */
  method WriteChunk(fs: FileSystem, f: File, src: seq<bv8>, i: int, n1: int, avail: int)
    returns (r: int, f': File, ghost w: int, ghost txn: set<int>)
    requires fs.Valid() && 0 <= f.ip < |fs.inodes| && 0 <= f.off < UINT
    requires 0 <= i && 0 < n1 <= 3 * 1024 && i + n1 <= |src| && 0 <= avail <= |src| && i <= avail
    modifies fs`inodes, fs`dinodes, fs`store, fs`owner, fs`marked, fs`logged
    ensures fs.Valid() && f' == f.(off := f.off + Max(r, 0)) && f'.off < UINT
    ensures ChunkDone(fs.sb, old(fs.Now()), fs.Now(), f.ip, f.off, src, avail, i, n1, r, w, txn)
  {
    hide Sound, NoHoles, Landed, NoneFree, Outcome, Leftover, SlotsStay, ChangesLogged, Durable, BlockAt, InLogThen, Only, IndirectLogged, IndirectOf;
    fs.logged := {};
    ghost var s := fs.Now();
    LogIgnored(fs, old(fs.Now()), s);
    r, w := fs.Writei(f.ip, src[i..i + n1], Avail(avail, i, n1), f.off);
    txn := fs.logged;
    RoomIgnoresLog(fs.sb, old(fs.Now()), s, fs.Now(), f.ip, f.off, n1, Avail(avail, i, n1), r, w);
    OneTransaction(s, fs.Now(), Only(w > Max(r, 0), BlockAt(fs.Im(), f.ip, f.off + Max(r, 0))));
    f' := f;
    if r > 0 {
      f' := f.(off := f.off + r);
    }
  }

  lemma OneTransaction(s: Snap, t: Snap, but: set<int>)
    requires ChangesLogged(s, t, but)
    ensures Durable(s.store, t.store, [t.logged], but)
  {
    assert [t.logged][0] == t.logged;
  }

  lemma DurableThen(s: seq<Block>, m: seq<Block>, t: seq<Block>, txns: seq<set<int>>, txn: set<int>, but: set<int>)
    requires Durable(s, m, txns, {}) && Durable(m, t, [txn], but)
    ensures Durable(s, t, txns + [txn], but)
  {
    var all := txns + [txn];
    assert all[|txns|] == txn && all[..|txns|] == txns;
    forall b | 0 <= b < |s| && t[b] != s[b] ensures b in but || InSome(all, b) {
      if m[b] != s[b] {
        var k :| 0 <= k < |txns| && b in txns[k];
        assert b in all[k];
      }
    }
  }

  lemma LogIgnored(fs: FileSystem, s: Snap, t: Snap)
    requires Sound(fs.sb, s) && t == s.(logged := {})
    ensures Sound(fs.sb, t) && ImageOf(t) == ImageOf(s)
  {
    SoundIgnoresLog(fs.sb, s, {});
  }

  lemma RoomIgnoresLog(sb: Super, s: Snap, s': Snap, t: Snap, ip: int, off: int, n: int, avail: int, tot: int, w: int)
    requires s' == s.(logged := {})
    ensures Outcome(sb, s', t, ip, off, n, avail, tot, w) <==> Outcome(sb, s, t, ip, off, n, avail, tot, w)
    ensures Leftover(sb, s', ip, off, n, avail) <==> Leftover(sb, s, ip, off, n, avail)
    ensures InLogThen(s', ip, (off + avail) / 1024) <==> BlockAt(ImageOf(s), ip, off + avail) == 0
    ensures IndirectLogged(s', t, ip) ==> Slot(ImageOf(s), ip, NDIRECT) == 0 ==> IndirectOf(t, ip) <= t.logged
  {
    assert ImageOf(s') == ImageOf(s);
    hide Slot, Spare, NoneFree, Whole, LastBlock;
  }

  // ----- When the user's memory gives out in filewrite -----

  /** Where the chunk ends in which the user's memory gives out. */
  function ChunkEnd(n: int, avail: int): int { Min(n, avail / 3072 * 3072 + 3072) }

  /** When filewrite leaves bytes in a buffer that it does not count: as for writei, but the request has to fit the
      file only up to the end of the chunk, and nothing is left when what can be read ends with a chunk. */
  ghost predicate FileLeftover(sb: Super, s: Snap, ip: int, off: int, n: int, avail: int) {
    && 0 <= ip < |s.inodes| && off <= s.inodes[ip].size && 0 <= avail < n && off + ChunkEnd(n, avail) <= MAXFILE * 1024
    && avail % 3072 != 0 && (off + avail) % 1024 != 0 && EnoughFor(sb, s, ip, (off + avail) / 1024)
  }

  /** i bytes have been written, in full chunks. */
  ghost predicate Chunked(sb: Super, s0: Snap, s: Snap, ip: int, off: int, n: int, avail: int, i: int) {
    && 0 <= ip < |s0.inodes| == |s.inodes| && 0 <= off && 0 <= i <= avail <= n && (i % 3072 == 0 || i == n)
    && SpareKept(sb, s0, s, ip, LastBlock(off, n, avail)) && SlotsStay(ImageOf(s0), ImageOf(s))
    && (if i == 0 then s.inodes == s0.inodes
        else off <= s0.inodes[ip].size && off + i <= MAXFILE * 1024 && s.inodes[ip].size >= off + i)
    && (0 < i == n ==> EnoughFor(sb, s0, ip, LastBlock(off, n, avail)))
  }

  lemma ChunkedStart(sb: Super, s: Snap, ip: int, off: int, n: int, avail: int)
    requires 0 <= ip < |s.inodes| && 0 <= off && 0 <= avail <= n
    ensures Chunked(sb, s, s, ip, off, n, avail, 0)
  {
    Unmoved(ImageOf(s));
    BeforeStart(sb, s, ip, LastBlock(off, n, avail));
    hide SpareOf, SlotsStay, FileBlock;
  }

  lemma DivGrows(x: int, y: int)
    requires x <= y
    ensures x / 1024 <= y / 1024
  {
  }

  lemma ChunkParts(q: int, x: int, o: int)
    requires 0 <= x < 3072 && o == q * 3072 + x
    ensures o / 3072 == q && o % 3072 == x
  {
  }

  lemma ChunkBlocks(off: int, n: int, avail: int, i: int, n1: int)
    requires 0 <= off && 0 <= i < n && i <= avail <= n && 0 < n1 <= n - i
    ensures var a := Avail(avail, i, n1); var last := LastBlock(off, n, avail);
            && LastBlock(off + i, n1, a) <= last
            && (i + n1 <= avail ==> a == n1 && (i + n1 == n ==> LastBlock(off + i, n1, a) == last))
            && (avail < i + n1 ==> a == avail - i && avail < n && LastBlock(off + i, n1, a) == last == (off + avail) / 1024)
            && (i + n1 <= avail < n ==> last == (off + avail) / 1024)
  {
    DivGrows(off + i + Min(Avail(avail, i, n1), n1 - 1), off + Min(avail, n - 1));
  }

  lemma ChunkEnds(n: int, avail: int, i: int, n1: int)
    requires 0 <= i < n && i <= avail <= n && i % 3072 == 0 && n1 == Min(n - i, 3072)
    ensures i + n1 == n || (i + n1) % 3072 == 0
    ensures avail < i + n1 ==> ChunkEnd(n, avail) == i + n1 && (avail % 3072 != 0 <==> avail > i)
    ensures i + n1 <= avail < n ==> i + n1 <= ChunkEnd(n, avail)
  {
    var q, p := i / 3072, avail / 3072;
    assert i == q * 3072;
    if avail < i + n1 {
      ChunkParts(q, avail - i, avail);
    }
    if i + n1 < n {
      ChunkParts(q + 1, 0, i + n1);
    }
  }

  /** Where the chunk of n1 bytes from byte i on lies. */
  lemma ChunkPlace(off: int, n: int, avail: int, i: int, n1: int)
    requires 0 <= off && 0 <= i < n && i <= avail <= n && i % 3072 == 0 && n1 == Min(n - i, 3072)
    ensures var a := Avail(avail, i, n1); var last := LastBlock(off, n, avail);
            && LastBlock(off + i, n1, a) <= last
            && (i + n1 <= avail ==> a == n1 && (i + n1 == n ==> LastBlock(off + i, n1, a) == last))
            && (avail < i + n1 ==> a == avail - i && avail < n && LastBlock(off + i, n1, a) == last == (off + avail) / 1024)
    ensures i + n1 == n || (i + n1) % 3072 == 0
    ensures avail < i + n1 ==> ChunkEnd(n, avail) == i + n1 && (avail % 3072 != 0 <==> avail > i)
    ensures i + n1 <= avail < n ==> i + n1 <= ChunkEnd(n, avail) && LastBlock(off, n, avail) == (off + avail) / 1024
  {
    hide LastBlock, ChunkEnd;
    ChunkBlocks(off, n, avail, i, n1);
    ChunkEnds(n, avail, i, n1);
  }

  lemma RoomLater(sb: Super, s0: Snap, s: Snap, ip: int, b: int, last: int)
    requires SpareKept(sb, s0, s, ip, last) && b <= last
    ensures EnoughFor(sb, s0, ip, last) ==> EnoughFor(sb, s, ip, b)
    ensures b == last ==> (EnoughFor(sb, s0, ip, last) <==> EnoughFor(sb, s, ip, b))
  {
    NeededGrows(ImageOf(s), ip, b, last);
    assert SpareOf(sb, s, ip, last) == SpareOf(sb, s0, ip, last);
    hide Needed, FreeBlocks;
  }

  /** A chunk written in full. */
  lemma ChunkedMore(sb: Super, s0: Snap, s: Snap, t: Snap, ip: int, off: int, n: int, avail: int, i: int, n1: int, w: int)
    requires Chunked(sb, s0, s, ip, off, n, avail, i) && i < n && n1 == Min(n - i, 3072) && i + n1 <= avail
    requires Outcome(sb, s, t, ip, off + i, n1, Avail(avail, i, n1), n1, w) && SlotsStay(ImageOf(s), ImageOf(t))
    requires |t.inodes| == |s.inodes| && off + i <= s.inodes[ip].size && off + i + n1 <= MAXFILE * 1024 && t.inodes[ip].size >= off + i + n1
    ensures Chunked(sb, s0, t, ip, off, n, avail, i + n1)
  {
    ChunkPlace(off, n, avail, i, n1);
    var b, last := LastBlock(off + i, n1, n1), LastBlock(off, n, avail);
    RoomLater(sb, s0, s, ip, b, last);
    hide LastBlock, EnoughFor, SpareOf, Whole, NoneFree, Slot;
  }

  /** The chunk at which filewrite gives up. */
  lemma ChunkFails(sb: Super, s0: Snap, s: Snap, t: Snap, ip: int, off: int, n: int, avail: int, i: int, n1: int, r: int, w: int)
    requires Chunked(sb, s0, s, ip, off, n, avail, i) && i < n && n1 == Min(n - i, 3072) && r != n1
    requires r == -1 <==> off + i > s.inodes[ip].size || off + i + n1 > MAXFILE * 1024
    requires r != -1 ==> Outcome(sb, s, t, ip, off + i, n1, Avail(avail, i, n1), r, w)
    ensures Leftover(sb, s, ip, off + i, n1, Avail(avail, i, n1)) <==> FileLeftover(sb, s0, ip, off, n, avail)
    ensures !(avail == n && off <= s0.inodes[ip].size && off + n <= MAXFILE * 1024 && EnoughFor(sb, s0, ip, LastBlock(off, n, avail)))
  {
    ChunkPlace(off, n, avail, i, n1);
    var a, last := Avail(avail, i, n1), LastBlock(off, n, avail);
    RoomLater(sb, s0, s, ip, LastBlock(off + i, n1, a), last);
    WholeAll(off + i, n1);
    hide LastBlock, EnoughFor, SpareKept, Whole, NoneFree, SlotsStay;
    if avail < i + n1 {
      assert off + i + a == off + avail;
    }
  }

  /** What the loop of filewrite keeps: the first i bytes are in the file, and all changes are in the transactions. */
  ghost predicate Progress(sb: Super, s0: Snap, s: Snap, ip: int, off: int, src: seq<bv8>, avail: int, i: int, txns: seq<set<int>>) {
    && 0 <= ip < |s0.inodes| == |s.inodes| && s.inodes == s0.inodes[ip := s.inodes[ip]]
    && Chunked(sb, s0, s, ip, off, |src|, avail, i)
    && 0 <= off && Landed(ImageOf(s0), ImageOf(s), ip, off, src, i)
    && (forall k :: 0 <= k < |txns| ==> |txns[k]| <= MAXOPBLOCKS) && Durable(s0.store, s.store, txns, {})
  }

  lemma ProgressStart(sb: Super, s: Snap, ip: int, off: int, src: seq<bv8>, avail: int)
    requires 0 <= ip < |s.inodes| && 0 <= off && 0 <= avail <= |src|
    ensures Progress(sb, s, s, ip, off, src, avail, 0, [])
  {
    ChunkedStart(sb, s, ip, off, |src|, avail);
    LandedNothing(ImageOf(s), ip, off, src);
    hide Chunked, Landed;
  }

  lemma ProgressMore(sb: Super, s0: Snap, s: Snap, t: Snap, ip: int, off: int, src: seq<bv8>, avail: int, i: int, txns: seq<set<int>>,
                     n1: int, w: int, txn: set<int>)
    requires Progress(sb, s0, s, ip, off, src, avail, i, txns) && ChunkDone(sb, s, t, ip, off + i, src, avail, i, n1, n1, w, txn)
    requires i < |src| && n1 == Min(|src| - i, 3072)
    ensures Progress(sb, s0, t, ip, off, src, avail, i + n1, txns + [txn]) && w == n1 && i + n1 <= avail && |t.inodes| == |s0.inodes|
  {
    hide Landed, Leftover, Outcome, Chunked, SlotsStay, Durable, BlockAt;
    assert w == n1;
    assert t.inodes == s0.inodes[ip := t.inodes[ip]];
    ChunkedMore(sb, s0, s, t, ip, off, |src|, avail, i, n1, w);
    LandedThen(ImageOf(s0), ImageOf(s), ImageOf(t), ip, off, src, i, n1, n1);
    assert Only(false, BlockAt(ImageOf(t), ip, off + i + n1)) == {};
    DurableThen(s0.store, s.store, t.store, txns, txn, {});
  }

  lemma ProgressGist(sb: Super, s0: Snap, s: Snap, ip: int, off: int, src: seq<bv8>, avail: int, i: int, txns: seq<set<int>>)
    requires Progress(sb, s0, s, ip, off, src, avail, i, txns)
    ensures 0 <= ip < |s0.inodes| == |s.inodes| && s.inodes == s0.inodes[ip := s.inodes[ip]] && 0 <= i <= avail <= |src|
    ensures Landed(ImageOf(s0), ImageOf(s), ip, off, src, i) && Durable(s0.store, s.store, txns, {})
    ensures forall k :: 0 <= k < |txns| ==> |txns[k]| <= MAXOPBLOCKS
  {
    hide Landed, Durable, SpareKept, SlotsStay, EnoughFor;
  }

  lemma NothingLeft(sb: Super, s0: Snap, s: Snap, ip: int, off: int, src: seq<bv8>, avail: int, n: int, txns: seq<set<int>>)
    requires Progress(sb, s0, s, ip, off, src, avail, |src|, txns) && |src| == Max(n, 0)
    ensures !FileLeftover(sb, s0, ip, off, n, avail) && (n > 0 ==> WritesAll(sb, s0, ip, off, n, avail))
  {
    hide Landed, Durable, SpareKept, SlotsStay, EnoughFor;
  }

  /** What filewrite comes to when it gives up at a chunk. */
  lemma ProgressFails(sb: Super, s0: Snap, s: Snap, t: Snap, ip: int, off: int, src: seq<bv8>, avail: int, i: int, txns: seq<set<int>>,
                      n1: int, r: int, w: int, txn: set<int>)
    requires Progress(sb, s0, s, ip, off, src, avail, i, txns) && ChunkDone(sb, s, t, ip, off + i, src, avail, i, n1, r, w, txn)
    requires i < |src| && n1 == Min(|src| - i, 3072) && r != n1
    ensures t.inodes == s0.inodes[ip := t.inodes[ip]] && 0 <= i + w <= |src| && Landed(ImageOf(s0), ImageOf(t), ip, off, src, i + w)
    ensures Durable(s0.store, t.store, txns + [txn], Only(w > Max(r, 0), BlockAt(ImageOf(t), ip, off + i + Max(r, 0))))
    ensures forall k :: 0 <= k < |txns + [txn]| ==> |(txns + [txn])[k]| <= MAXOPBLOCKS
    ensures w > Max(r, 0) <==> FileLeftover(sb, s0, ip, off, |src|, avail)
    ensures Max(r, 0) <= w && (w > Max(r, 0) ==> i + w == avail)
    ensures w > Max(r, 0) && BlockAt(ImageOf(s0), ip, off + avail) != 0 ==> BlockAt(ImageOf(t), ip, off + i + Max(r, 0)) !in txn
    ensures !WritesAll(sb, s0, ip, off, |src|, avail)
  {
    hide Landed, Leftover, Outcome, SlotsStay, Durable, BlockAt, FileLeftover, IndirectLogged, SpareKept, EnoughFor, LastBlock, Only, ChunkEnd, Slot;
    LandedThen(ImageOf(s0), ImageOf(s), ImageOf(t), ip, off, src, i, n1, w);
    DurableThen(s0.store, s.store, t.store, txns, txn, Only(w > Max(r, 0), BlockAt(ImageOf(t), ip, off + i + Max(r, 0))));
    ChunkFails(sb, s0, s, t, ip, off, |src|, avail, i, n1, r, w);
    StaysThere(s0, s, ip, off + avail);
  }

  lemma StaysThere(s0: Snap, s: Snap, ip: int, o: int)
    requires SlotsStay(ImageOf(s0), ImageOf(s))
    ensures BlockAt(ImageOf(s0), ip, o) != 0 ==> BlockAt(ImageOf(s), ip, o) != 0
  {
    hide Slot;
  }

  /** When filewrite writes all that is asked for. */
  ghost predicate WritesAll(sb: Super, s: Snap, ip: int, off: int, n: int, avail: int) {
    && 0 <= ip < |s.inodes| && avail == n && off <= s.inodes[ip].size && off + n <= MAXFILE * 1024
    && EnoughFor(sb, s, ip, LastBlock(off, n, avail))
  }

  /** filewrite on an inode.  n exactly when everything is readable, fits and has room, -1 otherwise; either way the
      file holds a prefix of the data from the old offset on, every transaction logs at most MAXOPBLOCKS blocks, and
      bytes are left in a buffer uncounted exactly when FileLeftover says so; a block of the file that was there
      before is then not in the last transaction. */
  method FileWrite(fs: FileSystem, f0: File, src: seq<bv8>, n: int, avail: int)
    returns (ret: int, f: File, ghost w: int, ghost txns: seq<set<int>>)
    requires fs.Valid() && 0 <= f0.ip < |fs.inodes| && 0 <= f0.off < UINT
    requires |src| == Max(n, 0) && n < 0x8000_0000 && 0 <= avail <= |src|
    modifies fs`inodes, fs`dinodes, fs`store, fs`owner, fs`marked, fs`logged
    ensures fs.Valid() && |fs.inodes| == |old(fs.inodes)| && fs.inodes == old(fs.inodes)[f0.ip := fs.inodes[f0.ip]]
    ensures forall k :: 0 <= k < |txns| ==> |txns[k]| <= MAXOPBLOCKS
    ensures Durable(old(fs.store), fs.store, txns, Only(f.off < f0.off + w, BlockAt(fs.Im(), f0.ip, f.off)))
    ensures 0 <= w <= |src| && Landed(old(fs.Im()), fs.Im(), f0.ip, f0.off, src, w)
    ensures f == f0.(off := f.off) && f0.off <= f.off <= f0.off + w && (f.off < f0.off + w ==> ret == -1 && w == avail)
    ensures n < 0 || !f0.writable ==> ret == -1 && w == 0 && txns == []
    ensures ret != -1 ==> ret == n && w == n && f.off == f0.off + n
    ensures ret != -1 <==> f0.writable && n >= 0 && (n > 0 ==> WritesAll(fs.sb, old(fs.Now()), f0.ip, f0.off, n, avail))
    ensures f.off < f0.off + w <==> f0.writable && FileLeftover(fs.sb, old(fs.Now()), f0.ip, f0.off, n, avail)
    ensures f.off < f0.off + w && BlockAt(old(fs.Im()), f0.ip, f0.off + avail) != 0 ==>
      |txns| > 0 && BlockAt(fs.Im(), f0.ip, f.off) !in txns[|txns| - 1]
  {
    hide Sound, NoHoles, Landed, NoneFree, BlockAt, FileLeftover, WritesAll, Progress, ChunkDone, Durable;
    ghost var s0 := fs.Now();
    LandedNothing(fs.Im(), f0.ip, f0.off, src);
    ProgressStart(fs.sb, s0, f0.ip, f0.off, src, avail);
    ProgressGist(fs.sb, s0, s0, f0.ip, f0.off, src, avail, 0, []);
    f, w, txns := f0, 0, [];
    if !f0.writable {
      return -1, f, w, txns;
    }
    var max := ((MAXOPBLOCKS - 1 - 1 - 2) / 2) * BSIZE;
    var i := 0;
    while i < n
      invariant 0 <= i <= |src| && i <= avail && f == f0.(off := f0.off + i) && f.off < UINT && w == i
      invariant fs.Valid() && |fs.inodes| == |s0.inodes|
      invariant Progress(fs.sb, s0, fs.Now(), f0.ip, f0.off, src, avail, i, txns)
      invariant n < 0 ==> txns == []
    {
      var n1 := n - i;
      if n1 > max {
        n1 := max;
      }
      ghost var s := fs.Now();
      var r; ghost var w1, txn;
      r, f, w1, txn := WriteChunk(fs, f, src, i, n1, avail);
      w := i + w1;
      if r != n1 {
        ProgressFails(fs.sb, s0, s, fs.Now(), f0.ip, f0.off, src, avail, i, txns, n1, r, w1, txn);
        txns := txns + [txn];
        return -1, f, w, txns;
      }
      ProgressMore(fs.sb, s0, s, fs.Now(), f0.ip, f0.off, src, avail, i, txns, n1, w1, txn);
      txns := txns + [txn];
      i := i + r;
      w := i;
    }
    ProgressGist(fs.sb, s0, fs.Now(), f0.ip, f0.off, src, avail, i, txns);
    NothingLeft(fs.sb, s0, fs.Now(), f0.ip, f0.off, src, avail, n, txns);
    ret := if i == n then n else -1;
  }
}
