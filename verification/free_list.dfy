/** Address-sorted free lists of user/umalloc.c, as values.  Addresses and sizes count header-sized
    units; the static header `base` has address 0 and size 0 and lies below the heap. */
module FreeList {

  datatype Blk = Blk(addr: int, size: int)

  predicate Has(b: Blk, u: int) { b.addr <= u < b.addr + b.size }

  /** One turn of the circular list, from base upwards: sorted, and no two blocks touch. */
  ghost predicate Sorted(fl: seq<Blk>) {
    && |fl| >= 1 && fl[0] == Blk(0, 0)
    && (forall i :: 1 <= i < |fl| ==> fl[i].size >= 1)
    && (forall i, j :: 0 <= i < j < |fl| ==> fl[i].addr + fl[i].size < fl[j].addr)
  }

  ghost predicate Covers(fl: seq<Blk>, u: int) { exists i :: 0 <= i < |fl| && Has(fl[i], u) }

  ghost predicate LiveCovers(live: map<int, int>, u: int) { exists a :: a in live && Has(Blk(a, live[a]), u) }

  /** Every unit obtained from sbrk lies in exactly one block, free or live. */
  ghost predicate Partition(fl: seq<Blk>, live: map<int, int>, owned: set<int>) {
    && Sorted(fl)
    && Apart(live)
    && (forall u :: u in owned <==> Covers(fl, u) || LiveCovers(live, u))
    && (forall u :: !(Covers(fl, u) && LiveCovers(live, u)))
  }

  function Next(fl: seq<Blk>, i: int): int
    requires 0 <= i < |fl|
  {
    if i + 1 < |fl| then i + 1 else 0
  }

  /** The place of address a: the last block below it. */
  ghost predicate IsPred(fl: seq<Blk>, i: int, a: int) {
    0 <= i < |fl| && fl[i].addr < a && (i + 1 < |fl| ==> a <= fl[i + 1].addr)
  }

  lemma {:induction false} PredExists(fl: seq<Blk>, a: int) returns (i: int)
    requires Sorted(fl) && a > 0
    ensures IsPred(fl, i, a)
  {
    i := 0;
    while i + 1 < |fl| && fl[i + 1].addr < a
      invariant 0 <= i < |fl| && fl[i].addr < a
    {
      i := i + 1;
    }
  }

  /** A block freed after position i, joined with either neighbour that it touches. */
  function Insert(fl: seq<Blk>, i: int, b: Blk): seq<Blk>
    requires 0 <= i < |fl|
  {
    var right := i + 1 < |fl| && b.addr + b.size == fl[i + 1].addr;
    var joined := if right then Blk(b.addr, b.size + fl[i + 1].size) else b;
    var rest := if right then fl[i + 2..] else fl[i + 1..];
    if fl[i].addr + fl[i].size == b.addr then fl[..i] + [Blk(fl[i].addr, fl[i].size + joined.size)] + rest
    else fl[..i + 1] + [joined] + rest
  }

  /** The list without the last n units of block j. */
  function Carve(fl: seq<Blk>, j: int, n: int): seq<Blk>
    requires 0 <= j < |fl|
  {
    if fl[j].size == n then fl[..j] + fl[j + 1..]
    else fl[j := Blk(fl[j].addr, fl[j].size - n)]
  }

  // Where the block lands, and how far the later blocks move.
  function Spot(fl: seq<Blk>, i: int, b: Blk): int
    requires 0 <= i < |fl|
  {
    if fl[i].addr + fl[i].size == b.addr then i else i + 1
  }

  function Shift(fl: seq<Blk>, i: int, b: Blk): int
    requires 0 <= i < |fl|
  {
    (if fl[i].addr + fl[i].size == b.addr then 0 else 1)
    - (if i + 1 < |fl| && b.addr + b.size == fl[i + 1].addr then 1 else 0)
  }

  lemma InsertAt(fl: seq<Blk>, i: int, b: Blk, k: int)
    requires 0 <= i < |fl| && 0 <= k < |fl| + Shift(fl, i, b)
    ensures var g := Insert(fl, i, b); var at := Spot(fl, i, b); var off := Shift(fl, i, b);
            && |g| == |fl| + off
            && (k < at ==> g[k] == fl[k])
            && (k > at ==> i + 1 <= k - off < |fl| && g[k] == fl[k - off])
            && (k == at ==>
                  g[k].addr == (if at == i then fl[i].addr else b.addr) &&
                  g[k].addr + g[k].size == (if off == at - i then b.addr + b.size else fl[i + 1].addr + fl[i + 1].size))
            && (k > at && off != at - i ==> i + 2 <= k - off)
  {
  }

  ghost predicate Fits(fl: seq<Blk>, i: int, b: Blk) {
    && 0 <= i < |fl| && b.size >= 1 && b.addr > 0
    && fl[i].addr + fl[i].size <= b.addr && (i + 1 < |fl| ==> b.addr + b.size <= fl[i + 1].addr)
  }

  lemma InsertSorted(fl: seq<Blk>, i: int, b: Blk)
    requires Sorted(fl) && Fits(fl, i, b)
    ensures Sorted(Insert(fl, i, b))
  {
    var g := Insert(fl, i, b);
    InsertAt(fl, i, b, 0);
    forall x | 1 <= x < |g| ensures g[x].size >= 1 {
      InsertAt(fl, i, b, x);
    }
    forall x, y | 0 <= x < y < |g| ensures g[x].addr + g[x].size < g[y].addr {
      InsertAt(fl, i, b, x);
      InsertAt(fl, i, b, y);
      hide Insert;
    }
  }

  lemma InsertKeepsUnits(fl: seq<Blk>, i: int, b: Blk, k: int, u: int)
    requires Sorted(fl) && Fits(fl, i, b) && 0 <= k < |fl| && Has(fl[k], u)
    ensures Covers(Insert(fl, i, b), u)
  {
    assert i + 1 < |fl| ==> fl[i + 1].size >= 1;
    hide Insert, Sorted, Covers;
    var at, off := Spot(fl, i, b), Shift(fl, i, b);
    var k' := if k < at then k else if k == i || (k == i + 1 && off != at - i) then at else k + off;
    InsertAt(fl, i, b, k');
    assert Has(Insert(fl, i, b)[k'], u);
    CoversAt(Insert(fl, i, b), k', u);
  }

  lemma CoversAt(fl: seq<Blk>, k: int, u: int)
    requires 0 <= k < |fl| && Has(fl[k], u)
    ensures Covers(fl, u)
  {
  }

  lemma InsertAddsOnly(fl: seq<Blk>, i: int, b: Blk, k: int, u: int)
    requires Sorted(fl) && Fits(fl, i, b) && 0 <= k < |Insert(fl, i, b)| && Has(Insert(fl, i, b)[k], u)
    ensures Covers(fl, u) || Has(b, u)
  {
    hide Insert, Sorted, Covers;
    InsertAt(fl, i, b, 0);
    InsertAt(fl, i, b, k);
    var at, off := Spot(fl, i, b), Shift(fl, i, b);
    if k < at {
      CoversAt(fl, k, u);
    } else if k > at {
      CoversAt(fl, k - off, u);
    } else if !Has(b, u) {
      CoversAt(fl, if u < b.addr then i else i + 1, u);
    }
  }

  lemma InsertCovers(fl: seq<Blk>, i: int, b: Blk, u: int)
    requires Sorted(fl) && Fits(fl, i, b)
    ensures Covers(Insert(fl, i, b), u) <==> Covers(fl, u) || Has(b, u)
  {
    var g := Insert(fl, i, b);
    if Covers(fl, u) {
      var k :| 0 <= k < |fl| && Has(fl[k], u);
      InsertKeepsUnits(fl, i, b, k, u);
    }
    if Has(b, u) {
      assert i + 1 < |fl| ==> fl[i + 1].size >= 1;
      hide Insert, Sorted;
      InsertAt(fl, i, b, Spot(fl, i, b));
      CoversAt(g, Spot(fl, i, b), u);
    }
    if Covers(g, u) {
      var k :| 0 <= k < |g| && Has(g[k], u);
      InsertAddsOnly(fl, i, b, k, u);
    }
  }

  lemma CarveAt(fl: seq<Blk>, j: int, n: int, k: int)
    requires 0 <= j < |fl| && 0 <= k < |Carve(fl, j, n)|
    ensures |Carve(fl, j, n)| == if fl[j].size == n then |fl| - 1 else |fl|
    ensures Carve(fl, j, n)[k] ==
            if fl[j].size == n && k >= j then fl[k + 1]
            else if k == j then Blk(fl[j].addr, fl[j].size - n) else fl[k]
  {
  }

  lemma CarveSorted(fl: seq<Blk>, j: int, n: int)
    requires Sorted(fl) && 1 <= j < |fl| && 1 <= n <= fl[j].size
    ensures Sorted(Carve(fl, j, n))
  {
    var g := Carve(fl, j, n);
    CarveAt(fl, j, n, 0);
    forall x | 1 <= x < |g| ensures g[x].size >= 1 {
      CarveAt(fl, j, n, x);
    }
    forall x, y | 0 <= x < y < |g| ensures g[x].addr + g[x].size < g[y].addr {
      CarveAt(fl, j, n, x);
      CarveAt(fl, j, n, y);
      hide Carve;
    }
  }

  lemma CarveCovers(fl: seq<Blk>, j: int, n: int, u: int)
    requires Sorted(fl) && 1 <= j < |fl| && 1 <= n <= fl[j].size
    ensures Covers(Carve(fl, j, n), u) <==> Covers(fl, u) && !Has(Blk(fl[j].addr + fl[j].size - n, n), u)
  {
    var g := Carve(fl, j, n);
    CarveAt(fl, j, n, 0);
    if Covers(g, u) {
      var k :| 0 <= k < |g| && Has(g[k], u);
      CarveAt(fl, j, n, k);
      hide Carve;
      assert Has(fl[if fl[j].size == n && k >= j then k + 1 else k], u);
    }
    if Covers(fl, u) && !Has(Blk(fl[j].addr + fl[j].size - n, n), u) {
      var k :| 0 <= k < |fl| && Has(fl[k], u);
      var k' := if fl[j].size == n && k > j then k - 1 else k;
      CarveAt(fl, j, n, k');
      hide Carve;
      assert Has(g[k'], u);
    }
  }

  /** A block that is not free finds room between its neighbours. */
  lemma RoomFor(fl: seq<Blk>, i: int, b: Blk)
    requires Sorted(fl) && IsPred(fl, i, b.addr) && b.size >= 1
    requires forall u :: Has(b, u) ==> !Covers(fl, u)
    ensures fl[i].addr + fl[i].size <= b.addr && (i + 1 < |fl| ==> b.addr + b.size <= fl[i + 1].addr)
  {
    assert Has(b, b.addr);
    if fl[i].addr + fl[i].size > b.addr {
      assert Has(fl[i], b.addr);
    }
    if i + 1 < |fl| && b.addr + b.size > fl[i + 1].addr {
      assert Has(fl[i + 1], fl[i + 1].addr) && Has(b, fl[i + 1].addr);
    }
  }

  // ----- Live blocks -----

  ghost predicate Apart(live: map<int, int>) {
    && (forall a :: a in live ==> a > 0 && live[a] >= 1)
    && (forall a, b :: a in live && b in live && a < b ==> a + live[a] <= b)
  }

  lemma LiveWithout(live: map<int, int>, a: int, u: int)
    requires Apart(live) && a in live
    ensures LiveCovers(live, u) <==> LiveCovers(live - {a}, u) || Has(Blk(a, live[a]), u)
    ensures !(LiveCovers(live - {a}, u) && Has(Blk(a, live[a]), u))
  {
    if LiveCovers(live, u) {
      var c :| c in live && Has(Blk(c, live[c]), u);
      if c != a {
        assert Has(Blk(c, (live - {a})[c]), u);
      }
    }
    if LiveCovers(live - {a}, u) {
      var c :| c in live - {a} && Has(Blk(c, (live - {a})[c]), u);
      assert Has(Blk(c, live[c]), u);
    }
  }

  lemma LiveWith(live: map<int, int>, b: Blk)
    requires Apart(live) && b.addr > 0 && b.size >= 1
    requires forall u :: Has(b, u) ==> !LiveCovers(live, u)
    ensures b.addr !in live && Apart(live[b.addr := b.size])
    ensures forall u :: LiveCovers(live[b.addr := b.size], u) <==> LiveCovers(live, u) || Has(b, u)
  {
    var live' := live[b.addr := b.size];
    assert Has(b, b.addr);
    if b.addr in live {
      assert Has(Blk(b.addr, live[b.addr]), b.addr);
    }
    forall c | c in live ensures c + live[c] <= b.addr || b.addr + b.size <= c {
      assert Has(Blk(c, live[c]), c);
      assert LiveCovers(live, c) && !Has(b, c);
      assert !Has(Blk(c, live[c]), b.addr);
    }
    forall u ensures LiveCovers(live', u) <==> LiveCovers(live, u) || Has(b, u) {
      if Has(b, u) {
        assert Has(Blk(b.addr, live'[b.addr]), u);
      }
      if LiveCovers(live, u) {
        var c :| c in live && Has(Blk(c, live[c]), u);
        assert Has(Blk(c, live'[c]), u);
      }
      if LiveCovers(live', u) {
        var c :| c in live' && Has(Blk(c, live'[c]), u);
        assert c != b.addr ==> Has(Blk(c, live[c]), u);
      }
    }
  }

  lemma FreeNotLive(fl: seq<Blk>, live: map<int, int>, owned: set<int>, i: int, a: int)
    requires Partition(fl, live, owned) && 0 <= i < |fl| && a in live
    ensures fl[i].addr != a
  {
    LiveWithout(live, a, a);
    assert i > 0 ==> Has(fl[i], fl[i].addr);
  }

  /** Freeing a live block keeps the partition. */
  lemma FreePartition(fl: seq<Blk>, live: map<int, int>, owned: set<int>, i: int, a: int)
    requires Partition(fl, live, owned) && a in live && IsPred(fl, i, a)
    ensures Fits(fl, i, Blk(a, live[a]))
    ensures Partition(Insert(fl, i, Blk(a, live[a])), live - {a}, owned)
  {
    var b := Blk(a, live[a]);
    forall u | Has(b, u) ensures !Covers(fl, u) {
      LiveWithout(live, a, u);
    }
    RoomFor(fl, i, b);
    InsertSorted(fl, i, b);
    forall u
      ensures Covers(Insert(fl, i, b), u) <==> Covers(fl, u) || Has(b, u)
      ensures LiveCovers(live, u) <==> LiveCovers(live - {a}, u) || Has(b, u)
      ensures !(LiveCovers(live - {a}, u) && Has(b, u))
    {
      InsertCovers(fl, i, b, u);
      LiveWithout(live, a, u);
    }
    hide Sorted, Covers, LiveCovers, Insert;
  }

  /** Handing out the tail of a free block keeps the partition. */
  lemma MallocPartition(fl: seq<Blk>, live: map<int, int>, owned: set<int>, j: int, n: int)
    requires Partition(fl, live, owned) && 1 <= j < |fl| && 1 <= n <= fl[j].size
    ensures var a := fl[j].addr + fl[j].size - n;
            a !in live && a > 0 && Partition(Carve(fl, j, n), live[a := n], owned)
  {
    var b := Blk(fl[j].addr + fl[j].size - n, n);
    assert fl[0].addr + fl[0].size < fl[j].addr;
    forall u | Has(b, u) ensures Covers(fl, u) {
      assert Has(fl[j], u);
    }
    CarveSorted(fl, j, n);
    forall u ensures Covers(Carve(fl, j, n), u) <==> Covers(fl, u) && !Has(b, u) {
      CarveCovers(fl, j, n, u);
    }
    hide Sorted, Covers, LiveCovers, Carve;
    LiveWith(live, b);
  }

  ghost function Span(b: Blk): set<int> { set u | b.addr <= u < b.addr + b.size && Has(b, u) }

  /** Memory fresh from sbrk enters as a live block, which free then adds to the list. */
  lemma GrowPartition(fl: seq<Blk>, live: map<int, int>, owned: set<int>, b: Blk)
    requires Partition(fl, live, owned) && b.size >= 1 && b.addr > 0
    requires forall u :: Has(b, u) ==> u !in owned
    ensures b.addr !in live && Partition(fl, live[b.addr := b.size], owned + Span(b))
  {
    hide Sorted, Covers, LiveCovers;
    LiveWith(live, b);
  }

  // ----- The free list is a function of the set of free units -----

  lemma SameBlock(f: seq<Blk>, g: seq<Blk>, k: nat)
    requires Sorted(f) && Sorted(g) && (forall u :: Covers(f, u) <==> Covers(g, u))
    requires 1 <= k <= |g| && k < |f| && f[..k] == g[..k]
    ensures k < |g| && g[k].addr <= f[k].addr
  {
    var u := f[k].addr;
    assert forall j :: 0 <= j < k ==> f[..k][j] == f[j] && g[..k][j] == g[j];
    assert Has(f[k], u);
    assert Covers(f, u);
    var j :| 0 <= j < |g| && Has(g[j], u);
    if j < k {
      assert false;
    }
  }

  lemma SameEnd(f: seq<Blk>, g: seq<Blk>, k: nat)
    requires Sorted(f) && Sorted(g) && (forall u :: Covers(f, u) <==> Covers(g, u))
    requires 1 <= k < |f| && k < |g| && f[k].addr == g[k].addr
    ensures f[k].size >= g[k].size
  {
    if f[k].size < g[k].size {
      var u := f[k].addr + f[k].size;
      assert Has(g[k], u);
      assert Covers(g, u);
      var j :| 0 <= j < |f| && Has(f[j], u);
      assert false;
    }
  }

  /** Coalescing leaves no choice: whatever sequence of calls led here, the same free units are
      kept as the same list. */
  lemma {:induction false} Canonical(f: seq<Blk>, g: seq<Blk>)
    requires Sorted(f) && Sorted(g) && (forall u :: Covers(f, u) <==> Covers(g, u))
    ensures f == g
  {
    var k := 1;
    while k < |f|
      invariant 1 <= k <= |f| && k <= |g| && f[..k] == g[..k]
    {
      SameBlock(f, g, k);
      SameBlock(g, f, k);
      SameEnd(f, g, k);
      SameEnd(g, f, k);
      assert f[..k + 1] == f[..k] + [f[k]] && g[..k + 1] == g[..k] + [g[k]];
      k := k + 1;
    }
    if k < |g| {
      SameBlock(g, f, k);
    }
    assert f == f[..k] && g == g[..k];
  }

  /** free undoes malloc: the block goes back and the list is what it was. */
  lemma FreeUndoesMalloc(fl: seq<Blk>, live: map<int, int>, owned: set<int>, j: int, n: int, i: int)
    requires Partition(fl, live, owned) && 1 <= j < |fl| && 1 <= n <= fl[j].size
    requires IsPred(Carve(fl, j, n), i, fl[j].addr + fl[j].size - n)
    ensures Insert(Carve(fl, j, n), i, Blk(fl[j].addr + fl[j].size - n, n)) == fl
  {
    var a := fl[j].addr + fl[j].size - n;
    var b := Blk(a, n);
    var mid := Carve(fl, j, n);
    MallocPartition(fl, live, owned, j, n);
    FreePartition(mid, live[a := n], owned, i, a);
    forall u ensures Covers(Insert(mid, i, b), u) <==> Covers(fl, u) {
      CarveCovers(fl, j, n, u);
      InsertCovers(mid, i, b, u);
      if Has(b, u) {
        assert Has(fl[j], u);
      }
    }
    Canonical(Insert(mid, i, b), fl);
  }
}
