/** fat_file_pread, fat_file_truncate and fat_file_free_clusters. */
module FatFile {
  import opened FatChain
  import opened Scaling
  import opened Fat

  // ----- fat_file_pread -----

  /** out holds the bytes of file f from off on. */
  ghost predicate Reads(g: Geometry, v: Vol, f: int, off: int, out: seq<bv8>)
    requires 0 < g.cs
  {
    forall o :: off <= o < off + |out| ==> InFile(g, v, f, o) && out[o - off] == FileByte(g, v, f, o)
  }

  lemma ChunkRead(g: Geometry, v: Vol, f: int, off: int, out: seq<bv8>, q: int, x: int, n: int)
    requires Sound(g, v) && GeometryOk(g) && f in v.files && 0 <= q < |v.files[f]| && 0 <= x && 0 <= n && x + n <= g.cs
    requires 0 <= off && off + |out| == q * g.cs + x && Reads(g, v, f, off, out)
    ensures var at := Off(g, v.files[f][q]) + x; 0 <= at && at + n <= |v.disk|
    ensures Reads(g, v, f, off, out + v.disk[Off(g, v.files[f][q]) + x..Off(g, v.files[f][q]) + x + n])
  {
    var c := v.files[f][q];
    assert ChainOk(g, v.fat, v.files[f]) && LinkOk(g, v.fat, v.files[f], q);
    OffRange(g, c);
    var at := Off(g, c) + x;
    var more := v.disk[at..at + n];
    var base := q * g.cs;
    hide Sound, Off;
    forall o | off <= o < off + |out + more|
      ensures InFile(g, v, f, o) && (out + more)[o - off] == FileByte(g, v, f, o)
    {
      if o >= off + |out| {
        Position(g.cs, q, o - base, o);
        assert more[o - off - |out|] == v.disk[at + (o - off - |out|)];
      }
    }
  }

  /** fat_file_pread: the bytes of the file from offset on, up to its end. */
  method Pread(vol: Volume, f: int, size0: int, offset0: int) returns (buf: seq<bv8>)
    requires vol.Valid() && f in vol.files && 0 <= offset0 && 0 <= size0
    ensures Reads(vol.g, vol.Now(), f, offset0, buf)
    ensures |buf| == if offset0 > vol.sizes[f] then 0 else Min(size0, vol.sizes[f] - offset0)
  {
    vol.ValidFile(f);
    hide Sound, Off, FilesOk;
    buf := [];
    if offset0 > vol.sizes[f] {
      return;
    }
    var size := Min(size0, vol.sizes[f] - offset0);
    if size == 0 {
      return;
    }
    Inside(vol.g.cs, offset0, |vol.files[f]|);
    Parts(vol.g.cs, offset0);
    ghost var q, x := offset0 / vol.g.cs, offset0 % vol.g.cs;
    var cluster := vol.Seek(f, vol.starts[f], offset0);
    vol.ChainAt(f, q);
    var offset, remaining := offset0, size;
    while remaining > 0
      invariant 0 <= remaining == size - |buf| && offset == offset0 + |buf| && Reads(vol.g, vol.Now(), f, offset0, buf)
      invariant remaining > 0 ==> 0 <= q < |vol.files[f]| && cluster == vol.files[f][q]
      invariant remaining > 0 ==> 0 <= x < vol.g.cs && offset == q * vol.g.cs + x
      decreases remaining
    {
      vol.ChainAt(f, q);
      if !IsValid(cluster) {
        break;
      }
      Position(vol.g.cs, q, x, offset);
      var n := Min(vol.g.cs - offset % vol.g.cs, remaining);
      var at := Off(vol.g, cluster) + offset % vol.g.cs;
      ChunkRead(vol.g, vol.Now(), f, offset0, buf, q, x, n);
      buf := buf + vol.disk[at..at + n];
      offset := offset + n;
      remaining := remaining - n;
      cluster := Next(vol.g, vol.fat, cluster);
      if remaining > 0 {
        ScaledMore(vol.g.cs, q);
        NotLast(vol.g.cs, q + 1, |vol.files[f]|, offset);
      }
      q, x := q + 1, 0;
    }
  }

  lemma NotLast(cs: int, q: int, len: int, o: int)
    requires 0 < cs && o == q * cs && o < len * cs
    ensures q < len
  {
    if q > len {
      ScaledOrder(cs, len, q);
    }
  }

  // ----- The two loops that free clusters -----

  /** The clusters that a walk from start meets in fat before it ends or comes back to one it has met. */
  ghost predicate Walk(g: Geometry, fat: seq<int>, start: int, visited: seq<int>) {
    && g.n + 2 <= |fat|
    && (visited != [] ==> visited[0] == start)
    && (forall k :: 0 <= k < |visited| ==> IsNumber(g, visited[k]))
    && (forall k, l :: 0 <= k < l < |visited| ==> visited[k] != visited[l])
    && forall k {:trigger visited[k]} :: 0 < k < |visited| ==> visited[k] == Next(g, fat, visited[k - 1])
  }

  /** Where a walk stops: at a value that is no cluster, or at a cluster met before. */
  ghost predicate Ended(g: Geometry, fat: seq<int>, visited: seq<int>)
    requires visited != []
  {
    var c := visited[|visited| - 1];
    0 <= c < |fat| ==> !IsNumber(g, Next(g, fat, c)) || Next(g, fat, c) in visited
  }

  /** The loop that frees clusters, at `cluster`. */
  ghost predicate Walking(g: Geometry, fat0: seq<int>, fat: seq<int>, start: int, visited: seq<int>, cluster: int) {
    && GeometryOk(g) && |fat| == |fat0| && (IsNumber(g, cluster) || !IsValid(cluster))
    && Walk(g, fat0, start, visited) && FreedRange(fat0, fat, visited, 0, |visited|)
    && (visited == [] ==> cluster == start)
    && (visited != [] && IsValid(cluster) ==> cluster == Next(g, fat0, visited[|visited| - 1]))
    && (visited != [] && !IsValid(cluster) ==> Ended(g, fat0, visited))
  }

  lemma WalkStart(g: Geometry, fat: seq<int>, start: int)
    requires GeometryOk(g) && g.n + 2 < |fat| && (IsNumber(g, start) || !IsValid(start))
    ensures Walking(g, fat, fat, start, [], start)
  {
  }

  /** A cluster met for the first time. */
  lemma WalkNew(g: Geometry, fat0: seq<int>, fat: seq<int>, start: int, visited: seq<int>, c: int)
    requires Walking(g, fat0, fat, start, visited, c) && IsValid(c) && c !in visited
    ensures 0 <= c < |fat| && IsNumber(g, c)
    ensures Walking(g, fat0, fat[c := 0], start, visited + [c], Next(g, fat, c))
  {
    FreedOne(fat0, fat, visited, c);
    hide FreedRange;
    WalkMore(g, fat0, start, visited, c);
    hide Walk;
    assert Next(g, fat, c) == Next(g, fat0, c);
  }

  lemma WalkMore(g: Geometry, fat: seq<int>, start: int, visited: seq<int>, c: int)
    requires Walk(g, fat, start, visited) && IsNumber(g, c) && c !in visited
    requires if visited == [] then c == start else c == Next(g, fat, visited[|visited| - 1])
    ensures Walk(g, fat, start, visited + [c])
  {
    var visited' := visited + [c];
    forall k | 0 < k < |visited'| ensures visited'[k] == Next(g, fat, visited'[k - 1]) {
      if k < |visited| {
        assert visited[k] == Next(g, fat, visited[k - 1]);
      }
    }
  }

  /** A cluster met again. */
  lemma WalkAgain(g: Geometry, fat0: seq<int>, fat: seq<int>, start: int, visited: seq<int>, c: int)
    requires Walking(g, fat0, fat, start, visited, c) && IsValid(c) && c in visited
    ensures 0 <= c < |fat| && IsNumber(g, c) && !IsValid(Next(g, fat, c))
    ensures Walking(g, fat0, fat[c := 0], start, visited, Next(g, fat, c))
  {
    FreedOne(fat0, fat, visited, c);
    hide FreedRange, Walk;
  }

  lemma WalkOn(g: Geometry, fat0: seq<int>, fat: seq<int>, start: int, visited: seq<int>, c: int)
    requires Walking(g, fat0, fat, start, visited, c) && IsValid(c)
    ensures 0 <= c < |fat| && IsNumber(g, c)
    ensures Walking(g, fat0, fat[c := 0], start, if c in visited then visited else visited + [c], Next(g, fat, c))
  {
    hide Walking;
    if c in visited {
      WalkAgain(g, fat0, fat, start, visited, c);
    } else {
      WalkNew(g, fat0, fat, start, visited, c);
    }
  }

  lemma WalkDone(g: Geometry, fat0: seq<int>, fat: seq<int>, start: int, visited: seq<int>, c: int)
    requires Walking(g, fat0, fat, start, visited, c) && !IsValid(c)
    ensures Walk(g, fat0, start, visited) && FreedRange(fat0, fat, visited, 0, |visited|)
    ensures if visited == [] then !IsValid(start) else Ended(g, fat0, visited)
  {
    hide FreedRange;
  }

  /** `while valid(cluster): next = next(cluster); mark cluster free; cluster = next`, as in fat_file_truncate
      and fat_file_free_clusters.  It ends on every FAT, cyclic ones too, and frees exactly what it meets. */
  method FreeFrom(vol: Volume, start: int) returns (ghost visited: seq<int>)
    requires GeometryOk(vol.g) && vol.g.n + 2 < |vol.fat| && (IsNumber(vol.g, start) || !IsValid(start))
    modifies vol`fat
    ensures Walk(vol.g, old(vol.fat), start, visited) && FreedRange(old(vol.fat), vol.fat, visited, 0, |visited|)
    ensures if visited == [] then !IsValid(start) else Ended(vol.g, old(vol.fat), visited)
  {
    hide Walking, Walk, FreedRange, Ended, Busy;
    ghost var fat0 := vol.fat;
    WalkStart(vol.g, fat0, start);
    var cluster := start;
    visited := [];
    while IsValid(cluster)
      invariant |vol.fat| == |fat0| && Walking(vol.g, fat0, vol.fat, start, visited, cluster)
      decreases |Busy(vol.g, vol.fat)|, if IsValid(cluster) then 1 else 0
    {
      WalkOn(vol.g, fat0, vol.fat, start, visited, cluster);
      BusyLess(vol.g, vol.fat, cluster);
      var next := Next(vol.g, vol.fat, cluster);
      if cluster !in visited {
        visited := visited + [cluster];
      }
      FreedNext(vol.g, vol.fat, cluster);
      vol.SetNext(cluster, 0);
      cluster := next;
    }
    WalkDone(vol.g, fat0, vol.fat, start, visited, cluster);
  }

  /** A freed entry reads as end of chain. */
  lemma FreedNext(g: Geometry, fat: seq<int>, c: int)
    requires 0 <= c < |fat|
    ensures fat[c] == 0 ==> Next(g, fat, c) == EOC_MAX && !IsValid(Next(g, fat, c))
  {
  }

  /** Freeing cluster c, met for the first time or again. */
  lemma FreedOne(fat0: seq<int>, fat: seq<int>, visited: seq<int>, c: int)
    requires FreedRange(fat0, fat, visited, 0, |visited|) && 0 <= c < |fat|
    ensures c in visited ==> fat[c] == 0 && FreedRange(fat0, fat[c := 0], visited, 0, |visited|)
    ensures c !in visited ==> fat[c] == fat0[c] && FreedRange(fat0, fat[c := 0], visited + [c], 0, |visited| + 1)
  {
    forall d ensures InRange(visited, 0, |visited|, d) <==> d in visited {
    }
    forall d ensures InRange(visited + [c], 0, |visited| + 1, d) <==> d in visited || d == c {
      if d == c {
        assert (visited + [c])[|visited|] == c;
      } else if d in visited {
        var k :| 0 <= k < |visited| && visited[k] == d;
        assert (visited + [c])[k] == d;
      }
    }
    hide InRange;
  }

  predicate TailLink(g: Geometry, fat: seq<int>, ch: seq<int>, k: int)
    requires 0 <= k < |ch| && g.n + 2 <= |fat|
  {
    IsData(g, ch[k]) && Next(g, fat, ch[k]) == if k + 1 < |ch| then ch[k + 1] else EOC_MAX
  }

  /** The links of a chain from j on. */
  ghost predicate TailOk(g: Geometry, fat: seq<int>, ch: seq<int>, j: int) {
    g.n + 2 <= |fat| && 0 <= j && forall k :: j <= k < |ch| ==> TailLink(g, fat, ch, k)
  }

  lemma {:induction false} WalkFollows(g: Geometry, fat: seq<int>, ch: seq<int>, j: int, visited: seq<int>, k: nat)
    requires GeometryOk(g) && TailOk(g, fat, ch, j) && j < |ch| && Walk(g, fat, ch[j], visited) && k < |visited|
    ensures j + k < |ch| && visited[k] == ch[j + k]
  {
    if k > 0 {
      WalkFollows(g, fat, ch, j, visited, k - 1);
      var p := j + k - 1;
      assert IsNumber(g, visited[k]) && TailLink(g, fat, ch, p);
      assert visited[k] == Next(g, fat, visited[k - 1]) == Next(g, fat, ch[p]);
    }
  }

  /** A walk that has not reached the end of the chain has an unvisited cluster ahead. */
  lemma WalkAhead(g: Geometry, fat: seq<int>, ch: seq<int>, j: int, visited: seq<int>)
    requires GeometryOk(g) && TailOk(g, fat, ch, j) && j < |ch| && Walk(g, fat, ch[j], visited) && visited != []
    requires forall k, l :: 0 <= k < l < |ch| ==> ch[k] != ch[l]
    ensures j + |visited| <= |ch| && visited == ch[j..j + |visited|]
    ensures j + |visited| < |ch| ==>
              var e := Next(g, fat, visited[|visited| - 1]); IsNumber(g, e) && e !in visited
  {
    forall k | 0 <= k < |visited| ensures j + k < |ch| && visited[k] == ch[j + k] {
      WalkFollows(g, fat, ch, j, visited, k);
    }
    var q := j + |visited|;
    assert visited[|visited| - 1] == ch[q - 1];
    if q < |ch| {
      assert TailLink(g, fat, ch, q - 1) && TailLink(g, fat, ch, q);
      forall k | 0 <= k < |visited| ensures visited[k] != ch[q] {
        assert visited[k] == ch[j + k];
      }
    }
  }

  /** On a chain, the walk is the rest of the chain. */
  lemma WalkIsChain(g: Geometry, fat: seq<int>, ch: seq<int>, j: int, visited: seq<int>)
    requires GeometryOk(g) && TailOk(g, fat, ch, j) && j < |ch| && Walk(g, fat, ch[j], visited) && visited != []
    requires forall k, l :: 0 <= k < l < |ch| ==> ch[k] != ch[l]
    requires Ended(g, fat, visited)
    ensures visited == ch[j..]
  {
    WalkAhead(g, fat, ch, j, visited);
  }

  // ----- fat_file_truncate and fat_file_free_clusters -----

  /** The condition under which fat_file_truncate does anything. */
  predicate Cuts(g: Geometry, size: int, offset: int)
    requires 0 < g.cs
  {
    offset <= size && Max(1, ClustersFor(g, offset)) < Max(1, ClustersFor(g, size))
  }

  lemma CutPlace(g: Geometry, size: int, offset: int, len: int)
    requires 0 < g.cs && 0 <= offset && Cuts(g, size, offset) && size <= len * g.cs
    ensures 0 <= offset / g.cs < len && offset < (offset / g.cs + 1) * g.cs
  {
    Inside(g.cs, offset, len);
    Parts(g.cs, offset);
    ScaledMore(g.cs, offset / g.cs);
  }

  /** A cut keeps the clusters that the new size needs, and one more when it falls on a cluster boundary. */
  lemma SpareCluster(g: Geometry, size: int, offset: int)
    requires 0 < g.cs && 0 <= offset && Cuts(g, size, offset)
    ensures offset / g.cs + 1 == Max(1, ClustersFor(g, offset)) + if offset > 0 && offset % g.cs == 0 then 1 else 0
  {
    Parts(g.cs, offset);
    var q, x := offset / g.cs, offset % g.cs;
    ScaledMore(g.cs, q);
    if x == 0 {
      Position(g.cs, q, g.cs - 1, offset + (g.cs - 1));
    } else {
      Position(g.cs, q + 1, x - 1, offset + (g.cs - 1));
    }
    if q == 0 {
      assert offset == x;
    }
  }

  lemma TailAfterCut(g: Geometry, fat: seq<int>, files: map<int, seq<int>>, owner: map<int, (int, int)>, f: int, k: int)
    requires Chains(g, fat, files, owner) && f in files && 0 <= k < |files[f]| && 0 <= files[f][k] < |fat|
    ensures TailOk(g, fat[files[f][k] := EOC_MAX], files[f], k + 1)
    ensures k == 0 ==> TailOk(g, fat, files[f], 0)
  {
    MapSize(g, fat, files, owner);
    forall l | 0 <= l < |files[f]| ensures TailLink(g, fat, files[f], l) {
      LinkAfterCut(g, fat, files, owner, f, k, l);
    }
    var fat1, j := fat[files[f][k] := EOC_MAX], k + 1;
    forall l | j <= l < |files[f]| ensures TailLink(g, fat1, files[f], l) {
      LinkAfterCut(g, fat, files, owner, f, k, l);
    }
  }

  lemma TailFirst(g: Geometry, fat: seq<int>, ch: seq<int>, j: int)
    requires GeometryOk(g) && TailOk(g, fat, ch, j) && j < |ch|
    ensures IsNumber(g, ch[j]) && IsValid(ch[j])
  {
    assert TailLink(g, fat, ch, j);
  }

  lemma LinkAfterCut(g: Geometry, fat: seq<int>, files: map<int, seq<int>>, owner: map<int, (int, int)>, f: int, k: int, l: int)
    requires Chains(g, fat, files, owner) && f in files && 0 <= k < |files[f]| && 0 <= files[f][k] < |fat| && 0 <= l < |files[f]|
    ensures var ch := files[f];
            IsData(g, ch[l]) && ch[l] < |fat| && Next(g, fat, ch[l]) == (if l + 1 < |ch| then ch[l + 1] else EOC_MAX) &&
            (l > k ==> Next(g, fat[ch[k] := EOC_MAX], ch[l]) == Next(g, fat, ch[l]))
  {
    assert ChainOk(g, fat, files[f]) && LinkOk(g, fat, files[f], l);
    ChainsApart(g, fat, files, owner, f, l, f, k);
    hide Chains, ChainOk;
  }

  /** Freed in the order of the walk, freed as a range of the chain. */
  lemma SameFreed(fat: seq<int>, fat': seq<int>, ch: seq<int>, j: int, visited: seq<int>)
    requires 0 <= j <= |ch| && visited == ch[j..] && FreedRange(fat, fat', visited, 0, |visited|)
    ensures FreedRange(fat, fat', ch, j, |ch|)
  {
    forall c ensures InRange(visited, 0, |visited|, c) <==> InRange(ch, j, |ch|, c) {
      if InRange(ch, j, |ch|, c) {
        var k :| j <= k < |ch| && 0 <= k < |ch| && ch[k] == c;
        assert visited[k - j] == c;
      }
    }
    hide InRange;
  }

  /** The loop on what follows the k-th cluster of f, once that one ends the chain. */
  method FreeTail(vol: Volume, f: int, ghost fat0: seq<int>, ghost k: int, next: int)
    requires Chains(vol.g, fat0, vol.files, vol.owner) && f in vol.files && 0 <= k < |vol.files[f]| && IsData(vol.g, vol.files[f][k])
    requires vol.fat == fat0[vol.files[f][k] := EOC_MAX]
    requires next == if k + 1 < |vol.files[f]| then vol.files[f][k + 1] else EOC_MAX
    modifies vol`fat
    ensures FreedRange(fat0[vol.files[f][k] := EOC_MAX], vol.fat, vol.files[f], k + 1, |vol.files[f]|)
    ensures Chains(vol.g, vol.fat, vol.files[f := vol.files[f][..k + 1]], vol.owner)
  {
    hide Chains, Walk, FreedRange, Ended;
    ghost var fat1 := vol.fat;
    TailStart(vol.g, fat0, vol.files, vol.owner, f, k, next);
    ghost var visited := FreeFrom(vol, next);
    TailFreed(vol.g, fat0, vol.fat, vol.files, vol.owner, f, k, next, visited);
  }

  lemma TailStart(g: Geometry, fat0: seq<int>, files: map<int, seq<int>>, owner: map<int, (int, int)>, f: int, k: int, next: int)
    requires Chains(g, fat0, files, owner) && f in files && 0 <= k < |files[f]| && IsData(g, files[f][k])
    requires next == if k + 1 < |files[f]| then files[f][k + 1] else EOC_MAX
    ensures GeometryOk(g) && g.n + 2 < |fat0| && (IsNumber(g, next) || !IsValid(next))
    ensures IsValid(next) <==> k + 1 < |files[f]|
  {
    MapSize(g, fat0, files, owner);
    TailAfterCut(g, fat0, files, owner, f, k);
    hide Chains, TailOk;
    if k + 1 < |files[f]| {
      TailFirst(g, fat0[files[f][k] := EOC_MAX], files[f], k + 1);
    }
  }

  lemma TailFreed(g: Geometry, fat0: seq<int>, fat: seq<int>, files: map<int, seq<int>>, owner: map<int, (int, int)>,
                  f: int, k: int, next: int, visited: seq<int>)
    requires Chains(g, fat0, files, owner) && f in files && 0 <= k < |files[f]| && IsData(g, files[f][k]) && g.n + 2 < |fat0|
    requires next == if k + 1 < |files[f]| then files[f][k + 1] else EOC_MAX
    requires var fat1 := fat0[files[f][k] := EOC_MAX];
             && Walk(g, fat1, next, visited) && FreedRange(fat1, fat, visited, 0, |visited|)
             && if visited == [] then !IsValid(next) else Ended(g, fat1, visited)
    ensures FreedRange(fat0[files[f][k] := EOC_MAX], fat, files[f], k + 1, |files[f]|)
    ensures Chains(g, fat, files[f := files[f][..k + 1]], owner)
  {
    hide Chains, Walk, FreedRange, Ended, TailOk;
    var fat1, ch := fat0[files[f][k] := EOC_MAX], files[f];
    TailStart(g, fat0, files, owner, f, k, next);
    TailAfterCut(g, fat0, files, owner, f, k);
    Distinct(g, fat0, files, owner, f);
    if k + 1 < |ch| {
      WalkIsChain(g, fat1, ch, k + 1, visited);
    } else {
      NothingVisited(g, fat1, visited);
    }
    SameFreed(fat1, fat, ch, k + 1, visited);
    CutChains(g, fat0, fat, files, owner, f, k);
  }

  lemma MapSize(g: Geometry, fat: seq<int>, files: map<int, seq<int>>, owner: map<int, (int, int)>)
    requires Chains(g, fat, files, owner)
    ensures GeometryOk(g) && g.n + 2 < |fat|
  {
    hide Owned;
  }

  lemma NothingVisited(g: Geometry, fat: seq<int>, visited: seq<int>)
    requires GeometryOk(g) && Walk(g, fat, EOC_MAX, visited)
    ensures visited == []
  {
    assert visited != [] ==> IsNumber(g, visited[0]);
  }

  lemma PadKept(g: Geometry, fat0: seq<int>, fat: seq<int>, ch: seq<int>, c: int, j: int, z: int)
    requires 0 <= c < g.n + 2 <= z < |fat0| && FreedRange(fat0[c := EOC_MAX], fat, ch, j, |ch|)
    ensures z < |fat| && (fat0[z] == 0 ==> fat[z] == 0)
  {
    hide InRange;
  }

  lemma CutFilesOk(g: Geometry, files: map<int, seq<int>>, sizes: map<int, int>, starts: map<int, int>, f: int, k: int, offset: int)
    requires FilesOk(g, files, sizes, starts) && f in files && 0 <= k < |files[f]| && 0 <= offset <= sizes[f] && offset < (k + 1) * g.cs
    ensures FilesOk(g, files[f := files[f][..k + 1]], sizes[f := offset], starts)
  {
    assert FileOk(g, files[f], sizes[f], starts[f]);
  }

  /** fat_file_truncate.  `errno` is the value the library's error variable has when the file's clusters have
      been looked up.  Nothing happens, not even to the size, unless the new size needs fewer clusters;
      otherwise the chain is cut after the cluster of byte `offset` and exactly the clusters behind it are free. */
  method Truncate(vol: Volume, f: int, offset: int, errno: int)
    requires vol.Valid() && f in vol.files && 0 <= offset
    modifies vol`fat, vol`sizes, vol`files
    ensures vol.Valid() && vol.sizes.Keys == old(vol.sizes.Keys)
    ensures !Cuts(vol.g, old(vol.sizes)[f], offset) || errno != 0 ==> vol.Now() == old(vol.Now()) && vol.sizes == old(vol.sizes)
    ensures Cuts(vol.g, old(vol.sizes)[f], offset) && errno == 0 ==>
      var ch, k := old(vol.files)[f], offset / vol.g.cs;
      && 0 <= k < |ch| && 0 <= ch[k] < |old(vol.fat)|
      && FreedRange(old(vol.fat)[ch[k] := EOC_MAX], vol.fat, ch, k + 1, |ch|)
      && vol.files == old(vol.files)[f := ch[..k + 1]] && vol.sizes == old(vol.sizes)[f := offset]
  {
    vol.ValidFile(f);
    hide Sound, FilesOk, FreedRange, Off, Volume.Padded;
    var current := Max(1, ClustersFor(vol.g, vol.sizes[f]));
    var needed := Max(1, ClustersFor(vol.g, offset));
    if offset > vol.sizes[f] || needed >= current {
      return;
    }
    CutPlace(vol.g, vol.sizes[f], offset, |vol.files[f]|);
    var last := vol.Seek(f, vol.starts[f], offset);
    if errno != 0 {
      return;
    }
    CutAt(vol, f, offset / vol.g.cs, last);
    CutSize(vol, f, offset);
  }

  /** The part of fat_file_truncate that changes the FAT. */
  method CutAt(vol: Volume, f: int, ghost k: int, last: int)
    requires vol.Valid() && f in vol.files && 0 <= k < |vol.files[f]| && last == vol.files[f][k]
    modifies vol`fat
    ensures GeometryOk(vol.g) && vol.Padded() && Sound(vol.g, vol.Now().(files := vol.files[f := vol.files[f][..k + 1]]))
    ensures 0 <= last < |old(vol.fat)|
    ensures FreedRange(old(vol.fat)[last := EOC_MAX], vol.fat, vol.files[f], k + 1, |vol.files[f]|)
  {
    vol.ChainAt(f, k);
    ghost var fat0 := vol.fat;
    ghost var pad :| 0 <= pad && vol.g.n + 2 <= pad < |fat0| && fat0[pad] == 0;
    hide FilesOk, FreedRange, Chains;
    var next := Next(vol.g, vol.fat, last);
    vol.SetNext(last, EOC_MAX);
    FreeTail(vol, f, fat0, k, next);
    PadKept(vol.g, fat0, vol.fat, vol.files[f], last, k + 1, pad);
  }

  method CutSize(vol: Volume, f: int, offset: int)
    requires GeometryOk(vol.g) && vol.Padded() && f in vol.files && f in vol.sizes && FilesOk(vol.g, vol.files, vol.sizes, vol.starts)
    requires 0 <= offset <= vol.sizes[f] && 0 <= offset / vol.g.cs < |vol.files[f]| && offset < (offset / vol.g.cs + 1) * vol.g.cs
    requires Sound(vol.g, vol.Now().(files := vol.files[f := vol.files[f][..offset / vol.g.cs + 1]]))
    modifies vol`sizes, vol`files
    ensures vol.Valid() && vol.sizes == old(vol.sizes)[f := offset]
    ensures vol.files == old(vol.files)[f := old(vol.files)[f][..offset / vol.g.cs + 1]]
  {
    hide Sound, FilesOk;
    CutFilesOk(vol.g, vol.files, vol.sizes, vol.starts, f, offset / vol.g.cs, offset);
    vol.sizes := vol.sizes[f := offset];
    vol.files := vol.files[f := vol.files[f][..offset / vol.g.cs + 1]];
  }

  // ----- fat_file_free_clusters -----

  lemma DropChain(g: Geometry, fat: seq<int>, fat': seq<int>, files: map<int, seq<int>>, owner: map<int, (int, int)>, f: int)
    requires Chains(g, fat, files, owner) && f in files && FreedRange(fat, fat', files[f], 0, |files[f]|)
    ensures Chains(g, fat', files - {f}, owner)
  {
    forall h | h in files && h != f ensures ChainOk(g, fat', files[h]) {
      forall k | 0 <= k < |files[h]| && 0 <= files[h][k] < |fat| ensures fat'[files[h][k]] == fat[files[h][k]] {
        forall l | 0 <= l < |files[f]| ensures files[f][l] != files[h][k] {
          ChainsApart(g, fat, files, owner, h, k, f, l);
        }
      }
      ChainKept(g, fat, fat', files[h]);
    }
  }

  /** fat_file_free_clusters: exactly the file's clusters become free, and the file has none. */
  method FreeClusters(vol: Volume, f: int)
    requires vol.Valid() && f in vol.files
    modifies vol`fat, vol`files, vol`sizes, vol`starts
    ensures vol.Valid() && vol.files == old(vol.files) - {f}
    ensures vol.sizes == old(vol.sizes) - {f} && vol.starts == old(vol.starts) - {f}
    ensures FreedRange(old(vol.fat), vol.fat, old(vol.files)[f], 0, |old(vol.files)[f]|)
  {
    vol.ValidFile(f);
    vol.ChainAt(f, 0);
    ghost var fat0, ch := vol.fat, vol.files[f];
    ghost var pad :| 0 <= pad && vol.g.n + 2 <= pad < |fat0| && fat0[pad] == 0;
    TailAfterCut(vol.g, fat0, vol.files, vol.owner, f, 0);
    Distinct(vol.g, fat0, vol.files, vol.owner, f);
    hide FreedRange, Chains, Walk, Ended;
    ghost var visited := FreeFrom(vol, vol.starts[f]);
    WalkIsChain(vol.g, fat0, ch, 0, visited);
    SameFreed(fat0, vol.fat, ch, 0, visited);
    DropChain(vol.g, fat0, vol.fat, vol.files, vol.owner, f);
    PadLeft(vol.g, fat0, vol.fat, ch, pad, vol.files, vol.owner, f);
    vol.files, vol.sizes, vol.starts := vol.files - {f}, vol.sizes - {f}, vol.starts - {f};
  }

  lemma PadLeft(g: Geometry, fat0: seq<int>, fat: seq<int>, ch: seq<int>, z: int, files: map<int, seq<int>>, owner: map<int, (int, int)>, f: int)
    requires Chains(g, fat0, files, owner) && f in files && ch == files[f]
    requires FreedRange(fat0, fat, ch, 0, |ch|) && 0 <= z && g.n + 2 <= z < |fat0| && fat0[z] == 0
    ensures z < |fat| && fat[z] == 0
  {
    hide InRange, Chains;
  }
}
