/** fat_table.c and fat_file.c of lab 3: reading, writing, truncating and freeing files on a FAT volume. */
module Fat {
  import opened FatChain
  import opened Scaling

  function Min(a: int, b: int): int { if a < b then a else b }

  function Max(a: int, b: int): int { if a < b then b else a }

  /** fat_table_get_clusters_for_size. */
  function ClustersFor(g: Geometry, size: int): int
    requires 0 < g.cs
  {
    (size + (g.cs - 1)) / g.cs
  }

  // ----- What a write may do -----

  /** The clusters added to file f were free and are so no more; no other cluster changed in this respect. */
  ghost predicate TakenFrom(v0: Vol, v: Vol, f: int)
    requires f in v0.files && f in v.files
  {
    && |v.fat| == |v0.fat|
    && forall c :: 0 <= c < |v.fat| ==>
         (v.fat[c] == 0 <==> v0.fat[c] == 0 && !InRange(v.files[f], |v0.files[f]|, |v.files[f]|, c))
  }

  /** The first w bytes of src stand in file f from off on; every other byte of every file is as before. */
  ghost predicate Landed(g: Geometry, v0: Vol, v: Vol, f: int, off: int, src: seq<bv8>, w: int)
    requires 0 < g.cs && 0 <= w <= |src|
  {
    forall h, o :: InFile(g, v, h, o) && (InFile(g, v0, h, o) || (h == f && off <= o < off + w)) ==>
      FileByte(g, v, h, o) == if h == f && off <= o < off + w then src[o - off] else FileByte(g, v0, h, o)
  }

  /** Where on the disk byte o of a chain lies. */
  function PlaceOf(g: Geometry, ch: seq<int>, o: int): int
    requires 0 < g.cs
  {
    if 0 <= o && o / g.cs < |ch| && 0 <= o / g.cs then Off(g, ch[o / g.cs]) + o % g.cs else -1
  }

  ghost predicate Reaches(g: Geometry, ch: seq<int>, a: int, b: int, i: int)
    requires 0 < g.cs
  {
    exists o :: a <= o < b && PlaceOf(g, ch, o) == i
  }

  predicate IsLast(ch: seq<int>, c: int) { |ch| >= 1 && ch[|ch| - 1] == c }

  /** The disk differs at the bytes [off, off + w) of file f only, and the FAT at its new clusters and at the
      one that was its last. */
  ghost predicate OnlyThere(g: Geometry, v0: Vol, v: Vol, f: int, off: int, w: int)
    requires 0 < g.cs && f in v0.files && f in v.files
  {
    && |v.disk| == |v0.disk| && |v.fat| == |v0.fat|
    && (forall i :: 0 <= i < |v0.disk| && v.disk[i] != v0.disk[i] ==> Reaches(g, v.files[f], off, off + w, i))
    && forall c :: 0 <= c < |v0.fat| && v.fat[c] != v0.fat[c] ==>
         IsLast(v0.files[f], c) || InRange(v.files[f], |v0.files[f]|, |v.files[f]|, c)
  }

  lemma ReachesMore(g: Geometry, ch: seq<int>, ch': seq<int>, a: int, b: int, b': int, i: int)
    requires 0 < g.cs && ch <= ch' && b <= b' && 0 <= i && Reaches(g, ch, a, b, i)
    ensures Reaches(g, ch', a, b', i)
  {
    var o :| a <= o < b && PlaceOf(g, ch, o) == i;
    hide Off;
    assert PlaceOf(g, ch', o) == i;
  }

  lemma AppendThere(g: Geometry, v0: Vol, v: Vol, v': Vol, f: int, off: int, w: int, c: int)
    requires 0 < g.cs && f in v0.files && f in v.files && v0.files[f] <= v.files[f] && OnlyThere(g, v0, v, f, off, w) && |v.files[f]| >= 1
    requires 0 <= Last(v.files[f]) < |v.fat| && 0 <= c < |v.fat| && v' == AppendVol(v, f, c)
    ensures OnlyThere(g, v0, v', f, off, w)
  {
    var ch, n0 := v.files[f], |v0.files[f]|;
    hide PlaceOf, Reaches;
    forall i | 0 <= i < |v0.disk| && v'.disk[i] != v0.disk[i] ensures Reaches(g, ch + [c], off, off + w, i) {
      ReachesMore(g, ch, ch + [c], off, off + w, off + w, i);
    }
    forall d | 0 <= d < |v0.fat| && v'.fat[d] != v0.fat[d]
      ensures IsLast(v0.files[f], d) || InRange(ch + [c], n0, |ch| + 1, d)
    {
      assert (ch + [c])[|ch|] == c;
      if d == Last(ch) && |ch| > n0 {
        assert (ch + [c])[|ch| - 1] == d;
      } else if d != c && d != Last(ch) && !IsLast(v0.files[f], d) {
        var k :| n0 <= k < |ch| && 0 <= k < |ch| && ch[k] == d;
        assert (ch + [c])[k] == d;
      }
    }
  }

  lemma ChunkThere(g: Geometry, v0: Vol, v: Vol, v': Vol, f: int, off: int, w: int, q: int, x: int, bytes: seq<bv8>)
    requires 0 < g.cs && f in v0.files && f in v.files && OnlyThere(g, v0, v, f, off, w) && 0 <= w && 0 <= off
    requires 0 <= q < |v.files[f]| && 0 <= x && x + |bytes| <= g.cs && off + w == q * g.cs + x
    requires 0 <= Off(g, v.files[f][q]) + x && Off(g, v.files[f][q]) + x + |bytes| <= |v.disk|
    requires v' == v.(disk := Splice(v.disk, Off(g, v.files[f][q]) + x, bytes))
    ensures OnlyThere(g, v0, v', f, off, w + |bytes|)
  {
    var ch := v.files[f];
    var at := Off(g, ch[q]) + x;
    var o0 := off + w;
    hide InRange;
    forall i | 0 <= i < |v0.disk| && v'.disk[i] != v0.disk[i] ensures Reaches(g, ch, off, o0 + |bytes|, i) {
      if at <= i < at + |bytes| {
        var o := o0 + (i - at);
        Position(g.cs, q, x + (i - at), o);
        hide Off, Splice;
        assert PlaceOf(g, ch, o) == i;
      } else {
        hide Off;
        assert v'.disk[i] == v.disk[i];
        ReachesMore(g, ch, ch, off, o0, o0 + |bytes|, i);
      }
    }
  }

  ghost predicate Writing(g: Geometry, v0: Vol, v: Vol, f: int, off: int, src: seq<bv8>, w: int) {
    && GeometryOk(g) && Sound(g, v) && f in v0.files && f in v.files && v.files == v0.files[f := v.files[f]] && v0.files[f] <= v.files[f]
    && 0 <= w <= |src| && 0 <= off && TakenFrom(v0, v, f) && Landed(g, v0, v, f, off, src, w) && OnlyThere(g, v0, v, f, off, w)
    && (w == 0 || off + w <= |v.files[f]| * g.cs)
  }

  lemma WritingStart(g: Geometry, v: Vol, f: int, off: int, src: seq<bv8>)
    requires Sound(g, v) && f in v.files && 0 <= off
    ensures Writing(g, v, v, f, off, src, 0)
  {
    hide FileByte, Owned, ChainOk;
  }

  ghost function AppendVol(v: Vol, f: int, c: int): Vol
    requires f in v.files && |v.files[f]| >= 1 && 0 <= Last(v.files[f]) < |v.fat| && 0 <= c < |v.fat|
  {
    v.(fat := Append(v.fat, Last(v.files[f]), c), files := v.files[f := v.files[f] + [c]], owner := v.owner[c := (f, |v.files[f]|)])
  }

  lemma WritingAppend(g: Geometry, v0: Vol, v: Vol, f: int, off: int, src: seq<bv8>, w: int, c: int)
    requires Writing(g, v0, v, f, off, src, w) && IsData(g, c) && c < |v.fat| && v.fat[c] == 0
    ensures |v.files[f]| >= 1 && 0 <= Last(v.files[f]) < |v.fat|
    ensures Writing(g, v0, AppendVol(v, f, c), f, off, src, w)
  {
    AppendChains(g, v.fat, v.files, v.owner, f, c);
    LastBusy(g, v, f);
    var v' := AppendVol(v, f, c);
    AppendTaken(v0, v, v', f, c);
    AppendLanded(g, v0, v, v', f, off, src, w, c);
    AppendThere(g, v0, v, v', f, off, w, c);
    ScaledOrder(g.cs, |v.files[f]|, |v.files[f]| + 1);
    hide Chains, Landed, TakenFrom, Append, OnlyThere;
  }

  lemma LastBusy(g: Geometry, v: Vol, f: int)
    requires Sound(g, v) && f in v.files
    ensures |v.files[f]| >= 1 && 0 <= Last(v.files[f]) < |v.fat| && v.fat[Last(v.files[f])] != 0
  {
    assert ChainOk(g, v.fat, v.files[f]) && LinkOk(g, v.fat, v.files[f], |v.files[f]| - 1);
  }

  lemma AppendTaken(v0: Vol, v: Vol, v': Vol, f: int, c: int)
    requires f in v0.files && f in v.files && v0.files[f] <= v.files[f] && TakenFrom(v0, v, f) && |v.files[f]| >= 1
    requires 0 <= Last(v.files[f]) < |v.fat| && 0 < c < |v.fat| && v.fat[c] == 0 && v.fat[Last(v.files[f])] != 0 && v' == AppendVol(v, f, c)
    ensures TakenFrom(v0, v', f)
  {
    var ch, n0 := v.files[f], |v0.files[f]|;
    forall d | 0 <= d < |v'.fat|
      ensures v'.fat[d] == 0 <==> v0.fat[d] == 0 && !InRange(ch + [c], n0, |ch| + 1, d)
    {
      InRangeNext(ch + [c], n0, |ch|, d);
      assert InRange(ch + [c], n0, |ch|, d) <==> InRange(ch, n0, |ch|, d) by {
        if InRange(ch, n0, |ch|, d) {
          var k :| n0 <= k < |ch| && 0 <= k < |ch| && ch[k] == d;
          assert (ch + [c])[k] == d;
        }
      }
      hide InRange;
    }
  }

  lemma AppendLanded(g: Geometry, v0: Vol, v: Vol, v': Vol, f: int, off: int, src: seq<bv8>, w: int, c: int)
    requires Writing(g, v0, v, f, off, src, w) && |v.files[f]| >= 1
    requires v'.disk == v.disk && v'.files == v.files[f := v.files[f] + [c]]
    ensures Landed(g, v0, v', f, off, src, w)
  {
    hide Chains, TakenFrom, FileByte, InFile, OnlyThere;
    forall h, o | InFile(g, v', h, o) && (InFile(g, v0, h, o) || (h == f && off <= o < off + w))
      ensures FileByte(g, v', h, o) == if h == f && off <= o < off + w then src[o - off] else FileByte(g, v0, h, o)
    {
      AppendByte(g, v0, v, v', f, c, h, o, off + w);
    }
  }

  lemma Inside(cs: int, o: int, len: int)
    requires 0 < cs && 0 <= o < len * cs
    ensures 0 <= o / cs < len
  {
    Parts(cs, o);
    if o / cs > len {
      ScaledOrder(cs, len, o / cs);
    }
  }

  /** Bytes of the clusters that were there are where they were. */
  lemma AppendByte(g: Geometry, v0: Vol, v: Vol, v': Vol, f: int, c: int, h: int, o: int, end: int)
    requires 0 < g.cs && f in v.files && f in v0.files && v.files == v0.files[f := v.files[f]] && v0.files[f] <= v.files[f]
    requires v'.disk == v.disk && v'.files == v.files[f := v.files[f] + [c]]
    requires InFile(g, v', h, o) && (InFile(g, v0, h, o) || (h == f && o < end <= |v.files[f]| * g.cs))
    ensures InFile(g, v, h, o) && FileByte(g, v', h, o) == FileByte(g, v, h, o)
  {
    if !InFile(g, v0, h, o) {
      Inside(g.cs, o, |v.files[f]|);
    }
  }

  lemma WritingChunk(g: Geometry, v0: Vol, v: Vol, f: int, off: int, src: seq<bv8>, w: int, q: int, x: int, n: int)
    requires Writing(g, v0, v, f, off, src, w) && 0 <= q < |v.files[f]| && 0 <= x && 0 <= n && x + n <= g.cs
    requires off + w == q * g.cs + x && w + n <= |src|
    ensures var c := v.files[f][q]; IsData(g, c) && 0 <= Off(g, c) + x && Off(g, c) + x + n <= |v.disk|
    ensures Writing(g, v0, v.(disk := Splice(v.disk, Off(g, v.files[f][q]) + x, src[w..w + n])), f, off, src, w + n)
  {
    var base := q * g.cs + x;
    ChunkWritten(g, v, f, q, x, src[w..w + n], base);
    var v' := v.(disk := Splice(v.disk, Off(g, v.files[f][q]) + x, src[w..w + n]));
    ChunkLanded(g, v0, v, v', f, off, src, w, n);
    ChunkThere(g, v0, v, v', f, off, w, q, x, src[w..w + n]);
    if q + 1 < |v.files[f]| {
      ScaledOrder(g.cs, q, |v.files[f]|);
    } else {
      ScaledMore(g.cs, q);
    }
    hide Chains, Landed, TakenFrom, Splice, Off, FileByte, InFile, OnlyThere;
  }

  lemma ChunkLanded(g: Geometry, v0: Vol, v: Vol, v': Vol, f: int, off: int, src: seq<bv8>, w: int, n: int)
    requires Writing(g, v0, v, f, off, src, w) && 0 <= n && w + n <= |src| && v'.files == v.files
    requires forall h, o :: InFile(g, v, h, o) ==>
      FileByte(g, v', h, o) == if h == f && off + w <= o < off + w + n then src[w..w + n][o - (off + w)] else FileByte(g, v, h, o)
    ensures Landed(g, v0, v', f, off, src, w + n)
  {
    hide FileByte, TakenFrom, ChainOk, Owned, OnlyThere;
    assert forall h, o :: InFile(g, v', h, o) <==> InFile(g, v, h, o);
    hide InFile;
  }

  lemma WritingGist(g: Geometry, v0: Vol, v: Vol, f: int, off: int, src: seq<bv8>, w: int)
    requires Writing(g, v0, v, f, off, src, w)
    ensures Sound(g, v) && GeometryOk(g) && f in v.files && 1 <= |v.files[f]| && |v.fat| == |v0.fat|
    ensures v.files == v0.files[f := v.files[f]] && v0.files[f] <= v.files[f]
    ensures forall k :: 0 <= k < |v.files[f]| ==> IsData(g, v.files[f][k]) && v.files[f][k] < |v.fat|
    ensures w > 0 ==> off + w <= |v.files[f]| * g.cs
  {
    forall k | 0 <= k < |v.files[f]| ensures IsData(g, v.files[f][k]) && v.files[f][k] < |v.fat| {
      assert ChainOk(g, v.fat, v.files[f]) && LinkOk(g, v.fat, v.files[f], k);
    }
    hide Owned, Landed, TakenFrom, LinkOk, OnlyThere;
  }

  predicate FileOk(g: Geometry, ch: seq<int>, size: int, start: int) {
    |ch| >= 1 && start == ch[0] && 0 <= size < 0x1_0000_0000 && size <= |ch| * g.cs
  }

  /** Each directory entry names the first cluster of its file, whose chain is long enough for its size. */
  ghost predicate FilesOk(g: Geometry, files: map<int, seq<int>>, sizes: map<int, int>, starts: map<int, int>) {
    sizes.Keys == starts.Keys == files.Keys && forall f :: f in files ==> FileOk(g, files[f], sizes[f], starts[f])
  }

  /** The file_size stored after a write up to end: it has 32 bits. */
  function SizeAfter(size: int, end: int): int {
    if end > size then end % 0x1_0000_0000 else size
  }

  /** One byte written at the last place that the size can name: the file has size 0 afterwards. */
  lemma LastByte()
    ensures SizeAfter(0xFFFF_FFFF, 0xFFFF_FFFF + 1) == 0
  {
  }

  lemma Resized(g: Geometry, v0: Vol, v: Vol, f: int, off: int, src: seq<bv8>, w: int,
                sizes0: map<int, int>, sizes: map<int, int>, starts: map<int, int>)
    requires Writing(g, v0, v, f, off, src, w) && FilesOk(g, v0.files, sizes0, starts) && 0 <= off
    requires sizes == sizes0[f := SizeAfter(sizes0[f], if w > 0 then off + w else 0)]
    ensures FilesOk(g, v.files, sizes, starts)
  {
    WritingGist(g, v0, v, f, off, src, w);
    hide Writing, Sound;
    assert FileOk(g, v0.files[f], sizes0[f], starts[f]);
    var a, b := |v0.files[f]|, |v.files[f]|;
    if a < b {
      ScaledOrder(g.cs, a, b);
    }
    assert v.files[f][0] == v0.files[f][0];
  }

  /** Byte o of a file is byte x of its q-th cluster. */
  predicate AtPlace(cs: int, q: int, x: int, o: int) { 0 < cs && 0 <= q && 0 <= x < cs && o == q * cs + x }

  lemma PlaceOfByte(cs: int, q: int, x: int, o: int)
    requires AtPlace(cs, q, x, o)
    ensures 0 < cs && o / cs == q && o % cs == x
  {
    Position(cs, q, x, o);
  }

  lemma NextPlace(cs: int, q: int, x: int, o: int)
    requires AtPlace(cs, q, x, o)
    ensures AtPlace(cs, q + 1, 0, o + (cs - x))
  {
    ScaledMore(cs, q);
  }

  // ----- How much there is room for -----

  ghost function FreeSet(g: Geometry, fat: seq<int>): set<int> { set c | 2 <= c < g.n + 2 && c < |fat| && fat[c] == 0 }

  /** The clusters that file f can come to have: its own and the free ones. */
  ghost function Reach(g: Geometry, v: Vol, f: int): int
    requires f in v.files
  {
    |v.files[f]| + |FreeSet(g, v.fat)|
  }

  lemma AppendFree(g: Geometry, v: Vol, f: int, c: int)
    requires f in v.files && |v.files[f]| >= 1 && 0 <= Last(v.files[f]) < |v.fat| && v.fat[Last(v.files[f])] != 0
    requires IsData(g, c) && c < |v.fat| && v.fat[c] == 0
    ensures Reach(g, AppendVol(v, f, c), f) == Reach(g, v, f)
  {
    assert FreeSet(g, AppendVol(v, f, c).fat) == FreeSet(g, v.fat) - {c};
  }

  /** A chain of n0 clusters has n after w bytes were written at off: none was added beyond the one of the last byte,
      or of the first when there is none. */
  predicate Lengthened(cs: int, n0: int, n: int, off: int, w: int) {
    n0 <= n && off + w <= n * cs && (n > n0 ==> (n - 1) * cs < off + Max(w, 1))
  }

  /** A write of m bytes at off ends after w: all of them, or the end of the last cluster to be had. */
  predicate Stopped(cs: int, total: int, off: int, m: int, w: int) { w == Min(m, total * cs - off) }

  lemma ScaledLess(cs: int, a: int, b: int)
    requires 0 < cs && a <= b
    ensures a * cs <= b * cs
  {
    if a < b {
      ScaledOrder(cs, a, b);
    }
  }

  /** The loop of fat_file_pwrite with w bytes written: byte x of the q-th cluster comes next. */
  ghost predicate WriteAt(g: Geometry, v0: Vol, v: Vol, f: int, off: int, buf: seq<bv8>, n0: int, total: int, w: int,
                          cluster: int, q: int, x: int)
  {
    && Writing(g, v0, v, f, off, buf, w) && f in v.files && Reach(g, v, f) == total && n0 <= |v.files[f]|
    && (w == 0 ==> |v.files[f]| == n0) && (w == 0 || w == |buf| ==> Lengthened(g.cs, n0, |v.files[f]|, off, w))
    && (w < |buf| ==> 0 <= q < |v.files[f]| && cluster == v.files[f][q] && AtPlace(g.cs, q, x, off + w)
                      && (|v.files[f]| == n0 || q == |v.files[f]| - 1))
  }

  lemma PlaceInside(cs: int, q: int, x: int, o: int, n: int)
    requires AtPlace(cs, q, x, o) && q < n
    ensures Lengthened(cs, n, n, o, 0)
  {
    ScaledOrder(cs, q, n);
  }

  /** After a chunk of k > 0 bytes in cluster q. */
  lemma ChunkEnd(cs: int, q: int, x: int, o: int, k: int, n0: int, n: int, off: int, w: int)
    requires AtPlace(cs, q, x, o) && 0 < k && x + k <= cs && 0 <= q < n && o + k == off + w && 0 < w && n0 <= n
    requires n == n0 || q == n - 1
    ensures Lengthened(cs, n0, n, off, w)
  {
    ScaledOrder(cs, q, n);
  }

  lemma WriteAtGist(g: Geometry, v0: Vol, v: Vol, f: int, off: int, buf: seq<bv8>, n0: int, total: int, w: int,
                    cluster: int, q: int, x: int)
    requires WriteAt(g, v0, v, f, off, buf, n0, total, w, cluster, q, x) && w < |buf|
    ensures Writing(g, v0, v, f, off, buf, w) && f in v.files && Reach(g, v, f) == total && n0 <= |v.files[f]| && GeometryOk(g)
    ensures 0 <= q < |v.files[f]| && cluster == v.files[f][q] && AtPlace(g.cs, q, x, off + w)
    ensures |v.files[f]| == n0 || q == |v.files[f]| - 1
  {
    WritingGist(g, v0, v, f, off, buf, w);
    hide Writing, Reach, Lengthened, AtPlace;
  }

  lemma WriteAtNext(g: Geometry, v0: Vol, v: Vol, f: int, off: int, buf: seq<bv8>, n0: int, total: int, w: int,
                    cluster: int, q: int, x: int)
    requires Writing(g, v0, v, f, off, buf, w) && f in v.files && Reach(g, v, f) == total && n0 <= |v.files[f]| && w > 0
    requires w == |buf| ==> Lengthened(g.cs, n0, |v.files[f]|, off, w)
    requires w < |buf| ==> 0 <= q < |v.files[f]| && cluster == v.files[f][q] && AtPlace(g.cs, q, x, off + w)
    requires w < |buf| ==> |v.files[f]| == n0 || q == |v.files[f]| - 1
    ensures WriteAt(g, v0, v, f, off, buf, n0, total, w, cluster, q, x)
  {
    hide Writing, Reach, Lengthened, AtPlace;
  }

  lemma WroteAll(g: Geometry, v0: Vol, v: Vol, f: int, off: int, buf: seq<bv8>, n0: int, total: int, cluster: int, q: int, x: int)
    requires WriteAt(g, v0, v, f, off, buf, n0, total, |buf|, cluster, q, x)
    ensures Writing(g, v0, v, f, off, buf, |buf|) && f in v.files && Reach(g, v, f) == total
    ensures Lengthened(g.cs, n0, |v.files[f]|, off, |buf|) && Stopped(g.cs, total, off, |buf|, |buf|)
  {
    WritingGist(g, v0, v, f, off, buf, |buf|);
    hide Writing, Reach, Lengthened, AtPlace, Stopped;
    StoppedFull(g, v, f, n0, off, |buf|);
  }

  lemma StoppedShort(g: Geometry, v: Vol, f: int, q: int, off: int, m: int, w: int)
    requires f in v.files && 0 < g.cs && q == |v.files[f]| == Reach(g, v, f) && AtPlace(g.cs, q, 0, off + w) && w <= m
    ensures Stopped(g.cs, Reach(g, v, f), off, m, w)
  {
    hide Reach;
  }

  lemma StoppedFull(g: Geometry, v: Vol, f: int, n0: int, off: int, m: int)
    requires f in v.files && 0 < g.cs && Lengthened(g.cs, n0, |v.files[f]|, off, m)
    ensures Stopped(g.cs, Reach(g, v, f), off, m, m)
  {
    ScaledLess(g.cs, |v.files[f]|, Reach(g, v, f));
  }

  /** How a write of m bytes at off ends, in a file whose chain of n0 clusters can grow to `total`: w is all of the
      bytes or as many as there is room for, and the chain of n clusters has none beyond the last byte written.  At the
      end of the chain a cluster is added even for no byte. */
  predicate Ended(cs: int, n0: int, n: int, total: int, off: int, m: int, w: int) {
    && Stopped(cs, total, off, m, w) && Lengthened(cs, n0, n, off, w)
    && (off == n0 * cs && n0 < total ==> n > n0)
  }

  lemma NothingFits(cs: int, n: int, off: int, m: int)
    requires 0 < cs && off == n * cs && 0 <= m
    ensures Ended(cs, n, n, n, off, m, 0)
  {
  }

  /** A cluster was added for the first byte, at the end of the chain of n0. */
  lemma EndedFirst(cs: int, n0: int, n1: int, n: int, total: int, off: int, m: int, w: int)
    requires 0 < cs && 0 <= w && Stopped(cs, total, off, m, w) && Lengthened(cs, n1, n, off, w)
    requires if off == n0 * cs then n1 == n0 + 1 else n1 == n0
    ensures Ended(cs, n0, n, total, off, m, w)
  {
  }

  class Volume {
    const g: Geometry
    /** fat_map, which may be longer than the entries of the data clusters. */
    var fat: seq<int>
    var disk: seq<bv8>
    /** dentry->file_size and start_cluster of each file. */
    var sizes: map<int, int>
    var starts: map<int, int>
    ghost var files: map<int, seq<int>>
    ghost var owner: map<int, (int, int)>

    ghost function Now(): Vol
      reads this
    {
      Vol(fat, disk, files, owner)
    }

    /** A volume with one empty file, whose cluster is the first. */
    constructor (g0: Geometry, f: int)
      requires GeometryOk(g0) && 1 <= g0.n
      ensures g == g0 && Valid() && files == map[f := [2]] && sizes == map[f := 0] && starts == map[f := 2]
      ensures forall c :: 2 < c < |fat| ==> fat[c] == 0
    {
      g := g0;
      fat := seq(g0.n + 3, c => if c < 3 then EOC_MAX else 0);
      ScaledMore(g0.cs, g0.n);
      disk := seq(g0.start + g0.n * g0.cs, _ => 0);
      sizes, starts := map[f := 0], map[f := 2];
      files, owner := map[f := [2]], map[2 := (f, 0)];
      new;
      assert fat[g.n + 2] == 0;
      assert ChainOk(g, fat, [2]) by {
        assert LinkOk(g, fat, [2], 0);
      }
    }

    /** A zero beyond the last cluster's entry stops the scan for a free one. */
    ghost predicate Padded()
      reads this`fat
    {
      exists z :: 0 <= z && g.n + 2 <= z < |fat| && fat[z] == 0
    }

    ghost predicate Valid()
      reads this
    {
      GeometryOk(g) && Sound(g, Now()) && Padded() && FilesOk(g, files, sizes, starts)
    }

    /** No data cluster is free. */
    ghost predicate NoneFree()
      reads this`fat
    {
      forall c :: 2 <= c < g.n + 2 && c < |fat| ==> fat[c] != 0
    }

    /** fat_table_get_next_free_cluster: the lowest free cluster. */
    method NextFree() returns (c: int)
      requires GeometryOk(g) && g.n + 2 < |fat| && Padded()
      ensures if IsData(g, c) then fat[c] == 0 && forall d :: 2 <= d < c ==> fat[d] != 0 else c == EOC_MAX && NoneFree()
    {
      ghost var pad :| 0 <= pad && g.n + 2 <= pad < |fat| && fat[pad] == 0;
      c := 2;
      while fat[c] != 0
        invariant 2 <= c <= pad && forall d :: 2 <= d < c ==> fat[d] != 0
        decreases pad - c
      {
        c := c + 1;
      }
      if !IsNumber(g, c) {
        c := EOC_MAX;
      }
    }

    /** fat_table_set_next_cluster. */
    method SetNext(c: int, next: int)
      requires 0 <= c < |fat|
      modifies this`fat
      ensures fat == old(fat)[c := next]
    {
      fat := fat[c := next];
    }

    lemma ChainAt(f: int, k: int)
      requires Sound(g, Now()) && f in files && 0 <= k < |files[f]|
      ensures IsData(g, files[f][k]) && files[f][k] < |fat|
      ensures Next(g, fat, files[f][k]) == if k + 1 < |files[f]| then files[f][k + 1] else EOC_MAX
      ensures k + 1 < |files[f]| ==> IsData(g, files[f][k + 1])
    {
      assert ChainOk(g, fat, files[f]) && LinkOk(g, fat, files[f], k);
      assert k + 1 < |files[f]| ==> LinkOk(g, fat, files[f], k + 1);
    }

    /** fat_table_seek_cluster on a chain: the cluster of byte `offset`, EOC just past the end, 0 further on. */
    method Seek(ghost f: int, startCluster: int, offset: int) returns (c: int)
      requires GeometryOk(g) && Sound(g, Now()) && f in files && |files[f]| >= 1 && startCluster == files[f][0] && 0 <= offset
      ensures var p := offset / g.cs;
              c == if p < |files[f]| then files[f][p] else if p == |files[f]| then EOC_MAX else 0
    {
      hide Sound;
      Parts(g.cs, offset);
      var positions := offset / g.cs;
      c := startCluster;
      for i := 0 to positions
        invariant i <= |files[f]| && c == if i < |files[f]| then files[f][i] else EOC_MAX
      {
        if i < |files[f]| {
          ChainAt(f, i);
        }
        if c == EOC_MAX {
          return 0;
        }
        c := Next(g, fat, c);
      }
    }

    /** next_or_new_cluster, after the q-th cluster of file f. */
    method NextOrNew(f: int, last: int, ghost q: int, ghost v0: Vol, ghost off: int, ghost src: seq<bv8>, ghost w: int) returns (next: int)
      requires Writing(g, v0, Now(), f, off, src, w) && Padded() && 0 <= q < |files[f]| && last == files[f][q]
      modifies this`fat, this`files, this`owner
      ensures Writing(g, v0, Now(), f, off, src, w) && Padded() && f in files
      ensures next == 0 ==> NoneFree() && Now() == old(Now()) && q + 1 == |files[f]| == Reach(g, Now(), f)
      ensures next != 0 ==> q + 1 < |files[f]| && next == files[f][q + 1] && IsData(g, next)
      ensures Reach(g, Now(), f) == old(Reach(g, Now(), f))
      ensures |files[f]| == if next != 0 && q + 1 == |old(files)[f]| then q + 2 else |old(files)[f]|
    {
      WritingGist(g, v0, Now(), f, off, src, w);
      ChainAt(f, q);
      ghost var v := Now();
      hide Writing, Sound, Off;
      next := Next(g, fat, last);
      if IsEOC(next) {
        assert q + 1 == |files[f]|;
        MapLength(f);
        next := NextFree();
        if IsEOC(next) {
          assert FreeSet(g, fat) == {};
          return 0;
        }
        WritingAppend(g, v0, v, f, off, src, w, next);
        LastBusy(g, v, f);
        AppendFree(g, v, f, next);
        Extend(f, last, next, q);
      }
    }

    /** The two writes to the FAT that put the free cluster `next` behind the last one of file f. */
    method Extend(f: int, last: int, next: int, ghost q: int)
      requires f in files && 0 <= q && q + 1 == |files[f]| && last == files[f][q] && 0 <= last < |fat| && 0 <= next < g.n + 2 <= |fat|
      requires Padded() && last < g.n + 2
      modifies this`fat, this`files, this`owner
      ensures Now() == AppendVol(old(Now()), f, next) && Padded()
      ensures f in files && |files[f]| == q + 2 && files[f][q + 1] == next
    {
      ghost var pad :| 0 <= pad && g.n + 2 <= pad < |fat| && fat[pad] == 0;
      SetNext(last, next);
      SetNext(next, EOC_MAX);
      assert fat[pad] == 0;
      files := files[f := files[f] + [next]];
      owner := owner[next := (f, q + 1)];
    }

    lemma MapLength(f: int)
      requires Sound(g, Now()) && f in files
      ensures g.n + 2 < |fat|
    {
    }

    /** full_pwrite of one chunk. */
    method WriteChunk(f: int, c: int, offset: int, n: int, ghost q: int, x: int, ghost v0: Vol, ghost off: int, src: seq<bv8>, w: int)
      requires Writing(g, v0, Now(), f, off, src, w) && 0 <= q < |files[f]| && c == files[f][q]
      requires offset == off + w && AtPlace(g.cs, q, x, offset) && 0 <= n && x + n <= g.cs && w + n <= |src|
      modifies this`disk
      ensures Writing(g, v0, Now(), f, off, src, w + n) && Reach(g, Now(), f) == old(Reach(g, Now(), f))
    {
      WritingChunk(g, v0, Now(), f, off, src, w, q, x, n);
      hide Writing, Splice, Off;
      disk := Splice(disk, Off(g, c) + x, src[w..w + n]);
    }

    /** The loop of fat_file_pwrite, from the q-th cluster of file f on. */
    method WriteLoop(f: int, buf: seq<bv8>, offset0: int, cluster0: int, ghost q0: int, ghost x0: int, ghost v0: Vol) returns (w: int)
      requires Writing(g, v0, Now(), f, offset0, buf, 0) && Padded() && 0 <= offset0
      requires 0 <= q0 < |files[f]| && cluster0 == files[f][q0] && AtPlace(g.cs, q0, x0, offset0)
      modifies this`fat, this`disk, this`files, this`owner
      ensures Writing(g, v0, Now(), f, offset0, buf, w) && Padded() && f in files
      ensures w < |buf| ==> NoneFree()
      ensures Reach(g, Now(), f) == old(Reach(g, Now(), f)) && Stopped(g.cs, Reach(g, Now(), f), offset0, |buf|, w)
      ensures Lengthened(g.cs, |old(files)[f]|, |files[f]|, offset0, w)
    {
      WritingGist(g, v0, Now(), f, offset0, buf, 0);
      PlaceInside(g.cs, q0, x0, offset0, |files[f]|);
      ghost var n0, total := |files[f]|, Reach(g, Now(), f);
      hide Writing, Off, AtPlace, NoneFree, Padded, Reach, Lengthened, Stopped;
      var cluster, offset, remaining := cluster0, offset0, |buf|;
      ghost var q, x := q0, x0;
      w := 0;
      assert WriteAt(g, v0, Now(), f, offset0, buf, n0, total, w, cluster, q, x);
      hide WriteAt;
      while remaining > 0
        invariant 0 <= remaining == |buf| - w && 0 <= w && offset == offset0 + w && Padded()
        invariant WriteAt(g, v0, Now(), f, offset0, buf, n0, total, w, cluster, q, x)
        decreases remaining
      {
        var n, stop;
        n, cluster, q, stop := WriteTurn(f, buf, cluster, offset, remaining, w, q, x, v0, offset0, n0, total);
        remaining := remaining - n;
        w := w + n;
        offset := offset + n;
        if stop {
          return;
        }
        x := 0;
      }
      WroteAll(g, v0, Now(), f, offset0, buf, n0, total, cluster, q, x);
    }

    /** The body of that loop: one chunk, and the next cluster if there is more to write. */
    method WriteTurn(f: int, buf: seq<bv8>, cluster0: int, offset: int, remaining0: int, w: int, ghost q0: int, ghost x: int,
                     ghost v0: Vol, ghost off: int, ghost n0: int, ghost total: int)
      returns (n: int, cluster: int, ghost q: int, stop: bool)
      requires WriteAt(g, v0, Now(), f, off, buf, n0, total, w, cluster0, q0, x) && Padded()
      requires 0 <= w < |buf| && offset == off + w && remaining0 == |buf| - w
      modifies this`fat, this`disk, this`files, this`owner
      ensures 0 < n <= remaining0 && Padded()
      ensures !stop ==> WriteAt(g, v0, Now(), f, off, buf, n0, total, w + n, cluster, q, 0)
      ensures stop ==> n < remaining0 && NoneFree() && Writing(g, v0, Now(), f, off, buf, w + n) && f in files
      ensures stop ==> Reach(g, Now(), f) == total && Stopped(g.cs, total, off, |buf|, w + n) && Lengthened(g.cs, n0, |files[f]|, off, w + n)
    {
      WriteAtGist(g, v0, Now(), f, off, buf, n0, total, w, cluster0, q0, x);
      hide WriteAt, Writing, Off, AtPlace, NoneFree, Padded, Reach, Lengthened, Stopped;
      cluster, q, stop := cluster0, q0, false;
      PlaceOfByte(g.cs, q, x, offset);
      NextPlace(g.cs, q, x, offset);
      n := Min(g.cs - offset % g.cs, remaining0);
      WriteChunk(f, cluster, offset, n, q, offset % g.cs, v0, off, buf, w);
      ChunkEnd(g.cs, q, x, offset, n, n0, |files[f]|, off, w + n);
      if remaining0 - n > 0 {
        cluster := NextOrNew(f, cluster, q, v0, off, buf, w + n);
        if cluster == 0 || !IsValid(cluster) {
          StoppedShort(g, Now(), f, q + 1, off, |buf|, w + n);
          stop := true;
          return;
        }
        q := q + 1;
      }
      WriteAtNext(g, v0, Now(), f, off, buf, n0, total, w + n, cluster, q, 0);
    }

    /** A write begins behind the last cluster exactly when it begins at its end. */
    lemma StartAtEnd(cs: int, offset: int, n: int)
      requires 0 < cs && 1 <= n && 0 <= offset <= n * cs
      ensures offset > 0 ==> (offset == n * cs <==> offset % cs == 0 && (offset - 1) / cs + 1 == n)
      ensures offset == 0 ==> offset != n * cs
    {
      ScaledLess(cs, 1, n);
      if offset > 0 {
        Parts(cs, offset - 1);
        var p, y := (offset - 1) / cs, (offset - 1) % cs;
        ScaledMore(cs, p);
        if offset % cs == 0 {
          Parts(cs, offset);
          if y + 1 < cs {
            Position(cs, p, y + 1, offset);
          }
        }
        if offset == n * cs {
          Position(cs, n, 0, offset);
          ScaledMore(cs, n - 1);
          Position(cs, n - 1, cs - 1, offset - 1);
        }
      }
    }

    /** Where a write at `offset` begins: the cluster of the byte before it, or the one after that. */
    lemma StartPosition(offset: int, len: int)
      requires GeometryOk(g) && 0 < offset <= len * g.cs
      ensures 0 <= (offset - 1) / g.cs < len && 0 <= offset % g.cs < g.cs
      ensures var p := (offset - 1) / g.cs;
              if offset % g.cs == 0 then offset == (p + 1) * g.cs else offset == p * g.cs + offset % g.cs
    {
      Inside(g.cs, offset - 1, len);
      Parts(g.cs, offset - 1);
      var p, y := (offset - 1) / g.cs, (offset - 1) % g.cs;
      ScaledMore(g.cs, p);
      if y + 1 == g.cs {
        Position(g.cs, p + 1, 0, offset);
      } else {
        Position(g.cs, p, y + 1, offset);
      }
    }

    lemma ValidFile(f: int)
      requires Valid() && f in files
      ensures f in sizes && f in starts && |files[f]| >= 1 && starts[f] == files[f][0] && 0 <= sizes[f] <= |files[f]| * g.cs
      ensures sizes[f] < 0x1_0000_0000
      ensures IsData(g, starts[f]) && starts[f] != 0 && Sound(g, Now()) && 0 <= g.n + 2 < |fat|
    {
      assert FileOk(g, files[f], sizes[f], starts[f]);
      ChainAt(f, 0);
      MapLength(f);
      hide Sound;
    }

    /** The cluster a write at `offset` begins with, its place in the chain, and the byte in it; 0 when the
        chain has to grow and cannot. */
    method FindStart(f: int, offset: int, ghost buf: seq<bv8>, ghost v0: Vol) returns (cluster: int, ghost q: int, ghost x: int)
      requires Valid() && f in files && 0 <= offset <= sizes[f] && v0 == Now()
      modifies this`fat, this`files, this`owner
      ensures Writing(g, v0, Now(), f, offset, buf, 0) && Padded() && f in files
      ensures cluster == 0 ==> NoneFree() && Now() == v0 && |files[f]| == Reach(g, Now(), f) && offset == |files[f]| * g.cs
      ensures cluster != 0 ==> 0 <= q < |files[f]| && cluster == files[f][q] && AtPlace(g.cs, q, x, offset)
      ensures Reach(g, Now(), f) == old(Reach(g, Now(), f))
      ensures cluster != 0 ==> if offset == |old(files)[f]| * g.cs then |files[f]| == |old(files)[f]| + 1 else |files[f]| == |old(files)[f]|
    {
      ValidFile(f);
      WritingStart(g, v0, f, offset, buf);
      hide Writing, Sound, Off, Reach;
      var start := if offset != 0 then offset - 1 else 0;
      Parts(g.cs, start);
      q, x := start / g.cs, 0;
      if offset != 0 {
        StartPosition(offset, |files[f]|);
        x := offset % g.cs;
      } else {
        Position(g.cs, 0, 0, 0);
      }
      cluster := Seek(f, starts[f], start);
      ChainAt(f, q);
      if offset % g.cs == 0 && cluster != 0 && offset != 0 {
        cluster := NextOrNew(f, cluster, q, v0, offset, buf, 0);
        q := q + 1;
        x := 0;
      }
      StartAtEnd(g.cs, offset, |v0.files[f]|);
    }

    /** fat_file_pwrite.  w bytes are written: all of them, or as many as the free clusters allow. */
    method Pwrite(f: int, buf: seq<bv8>, offset: int) returns (w: int)
      requires Valid() && f in files && 0 <= offset
      modifies this`fat, this`disk, this`sizes, this`files, this`owner
      ensures Valid() && f in files && sizes.Keys == old(sizes.Keys)
      ensures Writing(g, old(Now()), Now(), f, offset, buf, w)
      ensures offset > old(sizes)[f] ==> w == 0 && Now() == old(Now())
      ensures offset <= old(sizes)[f] && w < |buf| ==> NoneFree()
      ensures Reach(g, Now(), f) == old(Reach(g, Now(), f))
      ensures offset <= old(sizes)[f] ==> Ended(g.cs, |old(files)[f]|, |files[f]|, Reach(g, Now(), f), offset, |buf|, w)
      ensures sizes == old(sizes)[f := SizeAfter(old(sizes)[f], if w > 0 then offset + w else 0)]
      ensures w > 0 ==> (sizes[f] == Max(old(sizes)[f], offset + w) <==> offset + w < 0x1_0000_0000)
    {
      hide Writing, Sound, Off, FilesOk, Padded, NoneFree, AtPlace, SizeAfter, Reach, Ended;
      ghost var v0 := Now();
      ValidFile(f);
      WritingStart(g, v0, f, offset, buf);
      SizeExact(sizes[f], 0, 0);
      w := 0;
      if offset > sizes[f] {
        return 0;
      }
      w := WriteWithin(f, buf, offset, v0);
    }

    /** The same for an offset that the file reaches. */
    method WriteWithin(f: int, buf: seq<bv8>, offset: int, ghost v0: Vol) returns (w: int)
      requires Valid() && f in files && 0 <= offset <= sizes[f] && v0 == Now()
      modifies this`fat, this`disk, this`sizes, this`files, this`owner
      ensures Valid() && f in files && Writing(g, v0, Now(), f, offset, buf, w) && 0 <= w
      ensures w < |buf| ==> NoneFree()
      ensures f in v0.files && Reach(g, Now(), f) == Reach(g, v0, f) && Ended(g.cs, |v0.files[f]|, |files[f]|, Reach(g, v0, f), offset, |buf|, w)
      ensures f in old(sizes) && sizes == old(sizes)[f := SizeAfter(old(sizes)[f], if w > 0 then offset + w else 0)]
      ensures w > 0 ==> (sizes[f] == Max(old(sizes)[f], offset + w) <==> offset + w < 0x1_0000_0000)
    {
      hide Writing, Sound, Off, FilesOk, Padded, NoneFree, AtPlace, SizeAfter, Reach, Stopped, Lengthened, Ended;
      ValidFile(f);
      SizeExact(sizes[f], 0, 0);
      var cluster; ghost var q, x;
      cluster, q, x := FindStart(f, offset, buf, v0);
      ghost var n1 := |files[f]|;
      if cluster == 0 {
        NothingFits(g.cs, n1, offset, |buf|);
        return 0;
      }
      w := WriteFrom(f, buf, offset, cluster, q, x, v0);
      WritingGist(g, v0, Now(), f, offset, buf, w);
      WrittenLength(g, v0, Now(), f, offset, buf, w);
      EndedFirst(g.cs, |v0.files[f]|, n1, |files[f]|, Reach(g, v0, f), offset, |buf|, w);
    }

    /** The rest of it, with a cluster to begin with. */
    method WriteFrom(f: int, buf: seq<bv8>, offset: int, cluster: int, ghost q: int, ghost x: int, ghost v0: Vol) returns (w: int)
      requires Writing(g, v0, Now(), f, offset, buf, 0) && Padded() && FilesOk(g, v0.files, sizes, starts) && f in sizes
      requires 0 <= q < |files[f]| && cluster == files[f][q] && AtPlace(g.cs, q, x, offset) && 0 <= offset <= sizes[f] < 0x1_0000_0000
      modifies this`fat, this`disk, this`sizes, this`files, this`owner
      ensures Writing(g, v0, Now(), f, offset, buf, w) && Padded() && FilesOk(g, files, sizes, starts) && f in sizes
      ensures w < |buf| ==> NoneFree()
      ensures sizes == old(sizes)[f := SizeAfter(old(sizes)[f], if w > 0 then offset + w else 0)]
      ensures w > 0 ==> (sizes[f] == Max(old(sizes)[f], offset + w) <==> offset + w < 0x1_0000_0000)
      ensures f in files && Reach(g, Now(), f) == old(Reach(g, Now(), f)) && Stopped(g.cs, Reach(g, Now(), f), offset, |buf|, w)
      ensures Lengthened(g.cs, |old(files)[f]|, |files[f]|, offset, w)
    {
      hide Writing, Sound, Off, FilesOk, Padded, NoneFree, AtPlace, SizeAfter, Reach, Stopped, Lengthened;
      ghost var sizes0 := sizes;
      w := WriteLoop(f, buf, offset, cluster, q, x, v0);
      StoreSize(f, offset + w);
      WrittenLength(g, v0, Now(), f, offset, buf, w);
      SizeExact(sizes0[f], offset, w);
      Resized(g, v0, Now(), f, offset, buf, w, sizes0, sizes, starts);
    }

    /** The new file_size, if it grows. */
    method StoreSize(f: int, end: int)
      requires f in sizes
      modifies this`sizes
      ensures sizes == old(sizes)[f := SizeAfter(old(sizes)[f], end)]
    {
      if end > sizes[f] {
        sizes := sizes[f := end % 0x1_0000_0000];
      }
    }
  }

  lemma SizeExact(size: int, offset: int, w: int)
    requires 0 <= offset <= size < 0x1_0000_0000 && 0 <= w
    ensures SizeAfter(size, 0) == size
    ensures w > 0 ==> (SizeAfter(size, offset + w) == Max(size, offset + w) <==> offset + w < 0x1_0000_0000)
    ensures w == 0 ==> SizeAfter(size, offset + w) == SizeAfter(size, 0)
  {
  }

  lemma WrittenLength(g: Geometry, v0: Vol, v: Vol, f: int, off: int, src: seq<bv8>, w: int)
    requires Writing(g, v0, v, f, off, src, w)
    ensures 0 <= w <= |src|
  {
    hide Sound, Landed, TakenFrom;
  }
}
