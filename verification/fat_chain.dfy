/** The FAT as chains of clusters: Microsoft FAT32 File System Specification 1.03, "FAT Data Structure".
    A volume is its FAT, its data bytes, and (for the proofs) the chain of each file. */
module FatChain {
  import opened Scaling

  const EOC_MIN: int := 0x0FFF_FFF8
  const EOC_MAX: int := 0x0FFF_FFFF
  const BAD: int := 0x0FFF_FFF7

  /** cs bytes to a cluster, n data clusters numbered from 2, cluster 2 at byte `start` of the volume. */
  datatype Geometry = Geometry(cs: int, n: int, start: int)

  predicate GeometryOk(g: Geometry) { 0 < g.cs && 0 <= g.n && g.n + 2 <= BAD && 0 <= g.start }

  /** fat_table_is_valid_cluster_number. */
  predicate IsNumber(g: Geometry, c: int) { 1 <= c < g.n + 2 }

  /** fat_table_get_next_cluster: whatever is out of range ends the chain. */
  function Next(g: Geometry, fat: seq<int>, c: int): int
    requires 0 <= c < |fat|
  {
    if IsNumber(g, fat[c]) then fat[c] else EOC_MAX
  }

  predicate IsEOC(c: int) { EOC_MIN <= c <= EOC_MAX }

  /** fat_table_cluster_is_valid. */
  predicate IsValid(c: int) { !IsEOC(c) && c != BAD }

  predicate IsData(g: Geometry, c: int) { 2 <= c < g.n + 2 }

  predicate LinkOk(g: Geometry, fat: seq<int>, ch: seq<int>, k: int)
    requires 0 <= k < |ch| && g.n + 2 <= |fat|
  {
    IsData(g, ch[k]) && fat[ch[k]] != 0 && Next(g, fat, ch[k]) == if k + 1 < |ch| then ch[k + 1] else EOC_MAX
  }

  ghost predicate ChainOk(g: Geometry, fat: seq<int>, ch: seq<int>) {
    |ch| >= 1 && g.n + 2 <= |fat| && forall k :: 0 <= k < |ch| ==> LinkOk(g, fat, ch, k)
  }

  /** Every cluster of every chain knows its file and position, so chains are acyclic and disjoint. */
  ghost predicate Owned(files: map<int, seq<int>>, owner: map<int, (int, int)>) {
    forall f, k :: f in files && 0 <= k < |files[f]| ==> files[f][k] in owner && owner[files[f][k]] == (f, k)
  }

  ghost predicate Chains(g: Geometry, fat: seq<int>, files: map<int, seq<int>>, owner: map<int, (int, int)>) {
    GeometryOk(g) && g.n + 2 < |fat| && Owned(files, owner) && forall f :: f in files ==> ChainOk(g, fat, files[f])
  }

  lemma ChainsApart(g: Geometry, fat: seq<int>, files: map<int, seq<int>>, owner: map<int, (int, int)>, f: int, k: int, h: int, l: int)
    requires Chains(g, fat, files, owner) && f in files && 0 <= k < |files[f]| && h in files && 0 <= l < |files[h]|
    ensures files[f][k] == files[h][l] <==> f == h && k == l
  {
  }

  // ----- Growing a chain -----

  function Last(ch: seq<int>): int
    requires |ch| >= 1
  {
    ch[|ch| - 1]
  }

  /** next_or_new_cluster's two writes. */
  function Append(fat: seq<int>, last: int, c: int): seq<int>
    requires 0 <= last < |fat| && 0 <= c < |fat|
  {
    fat[last := c][c := EOC_MAX]
  }

  lemma FreeNotOwned(g: Geometry, fat: seq<int>, files: map<int, seq<int>>, owner: map<int, (int, int)>, c: int, f: int, k: int)
    requires Chains(g, fat, files, owner) && 0 <= c < |fat| && fat[c] == 0 && f in files && 0 <= k < |files[f]|
    ensures files[f][k] != c
  {
    assert ChainOk(g, fat, files[f]) && LinkOk(g, fat, files[f], k);
  }

  lemma AppendChain(g: Geometry, fat: seq<int>, ch: seq<int>, c: int)
    requires GeometryOk(g) && ChainOk(g, fat, ch) && IsData(g, c) && fat[c] == 0
    requires forall k, l :: 0 <= k < l < |ch| ==> ch[k] != ch[l]
    ensures 0 <= Last(ch) < |fat| && ChainOk(g, Append(fat, Last(ch), c), ch + [c])
  {
    assert LinkOk(g, fat, ch, |ch| - 1);
    var fat', ch' := Append(fat, Last(ch), c), ch + [c];
    forall k | 0 <= k < |ch'| ensures LinkOk(g, fat', ch', k) {
      if k < |ch| {
        assert LinkOk(g, fat, ch, k);
      }
    }
  }

  lemma Distinct(g: Geometry, fat: seq<int>, files: map<int, seq<int>>, owner: map<int, (int, int)>, f: int)
    requires Chains(g, fat, files, owner) && f in files
    ensures forall k, l :: 0 <= k < l < |files[f]| ==> files[f][k] != files[f][l]
  {
  }

  lemma ChainKept(g: Geometry, fat: seq<int>, fat': seq<int>, ch: seq<int>)
    requires ChainOk(g, fat, ch) && |fat'| == |fat| && forall k :: 0 <= k < |ch| && 0 <= ch[k] < |fat| ==> fat'[ch[k]] == fat[ch[k]]
    ensures ChainOk(g, fat', ch)
  {
    forall k | 0 <= k < |ch| ensures LinkOk(g, fat', ch, k) {
      assert LinkOk(g, fat, ch, k);
    }
  }

  lemma AppendChains(g: Geometry, fat: seq<int>, files: map<int, seq<int>>, owner: map<int, (int, int)>, f: int, c: int)
    requires Chains(g, fat, files, owner) && f in files && IsData(g, c) && fat[c] == 0
    ensures |files[f]| >= 1 && IsData(g, Last(files[f]))
    ensures Chains(g, Append(fat, Last(files[f]), c), files[f := files[f] + [c]], owner[c := (f, |files[f]|)])
  {
    var ch := files[f];
    assert ChainOk(g, fat, ch) && LinkOk(g, fat, ch, |ch| - 1);
    var fat', files', owner' := Append(fat, Last(ch), c), files[f := ch + [c]], owner[c := (f, |ch|)];
    Distinct(g, fat, files, owner, f);
    AppendChain(g, fat, ch, c);
    forall h, k | h in files' && 0 <= k < |files'[h]| ensures files'[h][k] in owner' && owner'[files'[h][k]] == (h, k) {
      if h != f || k < |ch| {
        assert files'[h][k] == files[h][k];
        FreeNotOwned(g, fat, files, owner, c, h, k);
      }
    }
    forall h | h in files' ensures ChainOk(g, fat', files'[h]) {
      if h != f {
        forall k | 0 <= k < |files[h]| ensures files[h][k] != c && files[h][k] != Last(ch) {
          FreeNotOwned(g, fat, files, owner, c, h, k);
          ChainsApart(g, fat, files, owner, h, k, f, |ch| - 1);
        }
        ChainKept(g, fat, fat', files[h]);
      }
    }
  }

  // ----- Cutting a chain -----

  /** Clusters ch[a], ..., ch[b-1] marked free. */
  ghost predicate FreedRange(fat: seq<int>, fat': seq<int>, ch: seq<int>, a: int, b: int) {
    && |fat'| == |fat|
    && forall c :: 0 <= c < |fat| ==> fat'[c] == if InRange(ch, a, b, c) then 0 else fat[c]
  }

  ghost predicate InRange(ch: seq<int>, a: int, b: int, c: int) { exists k :: a <= k < b && 0 <= k < |ch| && ch[k] == c }

  lemma InRangeNext(ch: seq<int>, a: int, b: int, c: int)
    requires 0 <= a <= b < |ch|
    ensures InRange(ch, a, b + 1, c) <==> InRange(ch, a, b, c) || c == ch[b]
  {
    if InRange(ch, a, b + 1, c) && c != ch[b] {
      var k :| a <= k < b + 1 && 0 <= k < |ch| && ch[k] == c;
      assert a <= k < b;
    }
  }

  /** The file keeps its first k + 1 clusters and the others are free. */
  lemma CutChains(g: Geometry, fat: seq<int>, fat': seq<int>, files: map<int, seq<int>>, owner: map<int, (int, int)>, f: int, k: int)
    requires Chains(g, fat, files, owner) && f in files && 0 <= k < |files[f]| && IsData(g, files[f][k])
    requires FreedRange(fat[files[f][k] := EOC_MAX], fat', files[f], k + 1, |files[f]|)
    ensures Chains(g, fat', files[f := files[f][..k + 1]], owner)
  {
    var ch := files[f];
    var files' := files[f := ch[..k + 1]];
    forall h | h in files' ensures ChainOk(g, fat', files'[h]) {
      forall l | 0 <= l < |files'[h]| ensures LinkOk(g, fat', files'[h], l) {
        CutLink(g, fat, fat', files, owner, f, k, h, l);
      }
    }
  }

  lemma CutLink(g: Geometry, fat: seq<int>, fat': seq<int>, files: map<int, seq<int>>, owner: map<int, (int, int)>, f: int, k: int, h: int, l: int)
    requires Chains(g, fat, files, owner) && f in files && 0 <= k < |files[f]| && IsData(g, files[f][k])
    requires FreedRange(fat[files[f][k] := EOC_MAX], fat', files[f], k + 1, |files[f]|)
    requires h in files && 0 <= l < |files[h]| && (h == f ==> l <= k)
    ensures LinkOk(g, fat', if h == f then files[f][..k + 1] else files[h], l)
  {
    assert ChainOk(g, fat, files[h]) && LinkOk(g, fat, files[h], l);
    var c := files[h][l];
    assert !InRange(files[f], k + 1, |files[f]|, c);
    ChainsApart(g, fat, files, owner, h, l, f, k);
    hide InRange, Chains;
  }

  // ----- Freed clusters end every walk -----

  /** The clusters that are not marked free, as far as the walk can reach. */
  ghost function Busy(g: Geometry, fat: seq<int>): set<int>
    requires g.n + 2 <= |fat|
  {
    set c | 1 <= c < g.n + 2 && fat[c] != 0
  }

  lemma BusyLess(g: Geometry, fat: seq<int>, c: int)
    requires g.n + 2 <= |fat| && 1 <= c < g.n + 2
    ensures fat[c] != 0 ==> |Busy(g, fat[c := 0])| < |Busy(g, fat)|
    ensures fat[c] == 0 ==> fat[c := 0] == fat
  {
    assert Busy(g, fat[c := 0]) == Busy(g, fat) - {c};
    assert fat[c] != 0 ==> c in Busy(g, fat);
  }

  // ----- Data -----

  /** fat_table_cluster_offset. */
  function Off(g: Geometry, c: int): int { g.start + (c - 2) * g.cs }

  predicate DiskOk(g: Geometry, disk: seq<bv8>) { g.start + g.n * g.cs <= |disk| }

  lemma OffRange(g: Geometry, c: int)
    requires GeometryOk(g) && IsData(g, c)
    ensures g.start <= Off(g, c) && Off(g, c) + g.cs <= g.start + g.n * g.cs
  {
    ScaledMore(g.cs, c - 2);
    ScaledOrder(g.cs, c - 2, g.n);
  }

  /** Byte x of cluster c. */
  function ByteOf(g: Geometry, disk: seq<bv8>, c: int, x: int): bv8 {
    if 0 <= Off(g, c) + x < |disk| then disk[Off(g, c) + x] else 0
  }

  function Splice(disk: seq<bv8>, at: int, bytes: seq<bv8>): (d: seq<bv8>)
    requires 0 <= at && at + |bytes| <= |disk|
    ensures |d| == |disk|
  {
    disk[..at] + bytes + disk[at + |bytes|..]
  }

  lemma SpliceByte(g: Geometry, disk: seq<bv8>, c: int, x: int, bytes: seq<bv8>, d: int, y: int)
    requires GeometryOk(g) && DiskOk(g, disk) && IsData(g, c) && 0 <= x && x + |bytes| <= g.cs
    requires IsData(g, d) && 0 <= y < g.cs
    ensures 0 <= Off(g, c) + x && Off(g, c) + x + |bytes| <= |disk|
    ensures ByteOf(g, Splice(disk, Off(g, c) + x, bytes), d, y) ==
            if d == c && x <= y < x + |bytes| then bytes[y - x] else ByteOf(g, disk, d, y)
  {
    OffRange(g, c);
    OffRange(g, d);
    if d < c {
      ScaledOrder(g.cs, d - 2, c - 2);
    } else if c < d {
      ScaledOrder(g.cs, c - 2, d - 2);
    }
    var a, b := Off(g, c), Off(g, d);
    assert d == c ==> a == b;
    assert d < c ==> b + g.cs <= a;
    assert c < d ==> a + g.cs <= b;
    hide Off;
  }

  // ----- Files -----

  datatype Vol = Vol(fat: seq<int>, disk: seq<bv8>, files: map<int, seq<int>>, owner: map<int, (int, int)>)

  ghost predicate Sound(g: Geometry, v: Vol) { Chains(g, v.fat, v.files, v.owner) && DiskOk(g, v.disk) }

  predicate InFile(g: Geometry, v: Vol, h: int, o: int)
    requires 0 < g.cs
  {
    h in v.files && 0 <= o && o / g.cs < |v.files[h]|
  }

  /** Byte o of file h. */
  function FileByte(g: Geometry, v: Vol, h: int, o: int): bv8
    requires 0 < g.cs
  {
    if InFile(g, v, h, o) && 0 <= o / g.cs then ByteOf(g, v.disk, v.files[h][o / g.cs], o % g.cs) else 0
  }

  /** One chunk written into byte x of the q-th cluster of file f, seen by every file. */
  lemma ChunkWritten(g: Geometry, v: Vol, f: int, q: int, x: int, bytes: seq<bv8>, base: int)
    requires Sound(g, v) && f in v.files && 0 <= q < |v.files[f]| && 0 <= x && x + |bytes| <= g.cs && base == q * g.cs + x
    ensures var c := v.files[f][q]; IsData(g, c) && 0 <= Off(g, c) + x && Off(g, c) + x + |bytes| <= |v.disk|
    ensures var v' := v.(disk := Splice(v.disk, Off(g, v.files[f][q]) + x, bytes));
            Sound(g, v') && forall h, o :: InFile(g, v, h, o) ==>
              FileByte(g, v', h, o) == if h == f && base <= o < base + |bytes| then bytes[o - base] else FileByte(g, v, h, o)
  {
    var c := v.files[f][q];
    assert ChainOk(g, v.fat, v.files[f]) && LinkOk(g, v.fat, v.files[f], q);
    OffRange(g, c);
    var v' := v.(disk := Splice(v.disk, Off(g, c) + x, bytes));
    forall h, o | InFile(g, v, h, o)
      ensures FileByte(g, v', h, o) == if h == f && base <= o < base + |bytes| then bytes[o - base] else FileByte(g, v, h, o)
    {
      OneByte(g, v, f, q, x, bytes, base, h, o);
    }
  }

  lemma OneByte(g: Geometry, v: Vol, f: int, q: int, x: int, bytes: seq<bv8>, base: int, h: int, o: int)
    requires Sound(g, v) && f in v.files && 0 <= q < |v.files[f]| && 0 <= x && x + |bytes| <= g.cs && base == q * g.cs + x
    requires var c := v.files[f][q]; IsData(g, c) && 0 <= Off(g, c) + x && Off(g, c) + x + |bytes| <= |v.disk|
    requires InFile(g, v, h, o)
    ensures FileByte(g, v.(disk := Splice(v.disk, Off(g, v.files[f][q]) + x, bytes)), h, o) ==
            if h == f && base <= o < base + |bytes| then bytes[o - base] else FileByte(g, v, h, o)
  {
    Parts(g.cs, o);
    var l, y := o / g.cs, o % g.cs;
    assert ChainOk(g, v.fat, v.files[h]) && LinkOk(g, v.fat, v.files[h], l);
    ChainsApart(g, v.fat, v.files, v.owner, f, q, h, l);
    SpliceByte(g, v.disk, v.files[f][q], x, bytes, v.files[h][l], y);
    if l < q {
      ScaledOrder(g.cs, l, q);
    } else if q < l {
      ScaledOrder(g.cs, q, l);
    }
    var lc, qc := l * g.cs, q * g.cs;
    assert o == lc + y && base == qc + x;
    assert l == q ==> lc == qc;
    hide ByteOf, Splice, Off, Chains, ChainOk, LinkOk;
  }
}
