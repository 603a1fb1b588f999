/** malloc and free of user/umalloc.c over memory addressed in header-sized units.
    `ptr[a]` and `size[a]` are the two fields of the header at address a. */
module Umalloc {
  import opened FreeList

  const NULL: int := -1
  const UNIT: int := 16
  const MINUNITS: int := 4096
  const UINT: int := 0x1_0000_0000

  /** malloc's rounding: payload units plus the header. */
  function Units(nbytes: int): int
    requires 0 <= nbytes
  {
    (nbytes + UNIT - 1) / UNIT + 1
  }

  /** The byte count of morecore on its way through sbrk's int parameter. */
  function SbrkArgument(nu: int): int {
    var low := nu * UNIT % UINT;
    if low < UINT / 2 then low else low - UINT
  }

  /** How far index `to` lies ahead of `at` on a ring of m. */
  function Ahead(m: int, at: int, to: int): int { if at <= to then to - at else m - at + to }

  /** Header fields, read off the two arrays, agree with the list. */
  ghost predicate Linked(fl: seq<Blk>, ptr: seq<int>, size: seq<int>) {
    |ptr| == |size| && forall i :: 0 <= i < |fl| ==> LinkedAt(fl, ptr, size, i)
  }

  ghost predicate LinkedAt(fl: seq<Blk>, ptr: seq<int>, size: seq<int>, i: int)
    requires |ptr| == |size| && 0 <= i < |fl|
  {
    0 <= fl[i].addr < |ptr| && size[fl[i].addr] == fl[i].size && ptr[fl[i].addr] == fl[Next(fl, i)].addr
  }

  ghost predicate SameBut(s: seq<int>, t: seq<int>, x: int, y: int) {
    |s| == |t| && forall a :: 0 <= a < |s| && a != x && a != y ==> t[a] == s[a]
  }

  /** What the header writes of free leave behind. */
  ghost predicate Joined(fl: seq<Blk>, i: int, b: Blk, ptr: seq<int>, size: seq<int>, ptr': seq<int>, size': seq<int>)
    requires 0 <= i < |fl| && |ptr| == |size| && 0 <= fl[i].addr < |ptr| && 0 <= b.addr < |ptr|
    requires 0 <= fl[Next(fl, i)].addr < |ptr|
  {
    var p, n := fl[i].addr, fl[Next(fl, i)].addr;
    var right := b.addr + b.size == n;
    var joined := if right then b.size + size[n] else b.size;
    var link := if right then ptr[n] else n;
    && SameBut(ptr, ptr', p, b.addr) && SameBut(size, size', p, b.addr)
    && if p + size[p] == b.addr then ptr'[p] == link && size'[p] == size[p] + joined
       else ptr'[p] == b.addr && size'[p] == size[p] && ptr'[b.addr] == link && size'[b.addr] == joined
  }

  lemma Elsewhere(fl: seq<Blk>, i: int, b: Blk, k: int)
    requires Sorted(fl) && Fits(fl, i, b) && 0 <= k < |fl| && k != i
    ensures fl[k].addr != fl[i].addr && fl[k].addr != b.addr
    ensures fl[0].addr == 0 && (fl[i].addr + fl[i].size == b.addr ==> i > 0)
    ensures k > i ==> fl[i].addr < fl[k].addr && b.addr < fl[k].addr
  {
    assert k > i + 1 ==> fl[i + 1].addr + fl[i + 1].size < fl[k].addr;
  }

  lemma JoinedLinksAt(fl: seq<Blk>, i: int, b: Blk, ptr: seq<int>, size: seq<int>, ptr': seq<int>, size': seq<int>, k: int)
    requires Sorted(fl) && Linked(fl, ptr, size) && Fits(fl, i, b) && b.addr < |ptr|
    requires LinkedAt(fl, ptr, size, i) && LinkedAt(fl, ptr, size, Next(fl, i))
    requires Joined(fl, i, b, ptr, size, ptr', size')
    requires 0 <= k < |fl| + Shift(fl, i, b) == |Insert(fl, i, b)|
    ensures LinkedAt(Insert(fl, i, b), ptr', size', k)
  {
    assert |ptr| == |size|;
    hide Insert, Linked;
    var at, off := Spot(fl, i, b), Shift(fl, i, b);
    if k < at && k != i {
      UntouchedLinks(fl, i, b, ptr, size, ptr', size', k, k);
    } else if k > at {
      UntouchedLinks(fl, i, b, ptr, size, ptr', size', k, k - off);
    } else {
      TouchedLinks(fl, i, b, ptr, size, ptr', size', k);
    }
  }

  lemma InsertNeighbour(fl: seq<Blk>, i: int, b: Blk, k: int, m: int)
    requires Sorted(fl) && Fits(fl, i, b) && 0 <= k < |fl| + Shift(fl, i, b) == |Insert(fl, i, b)|
    requires if k < Spot(fl, i, b) then k != i && m == k else k > Spot(fl, i, b) && m == k - Shift(fl, i, b)
    ensures var g := Insert(fl, i, b);
            0 <= m < |fl| && m != i && g[k] == fl[m] && g[Next(g, k)].addr == fl[Next(fl, m)].addr
  {
    hide Insert, Sorted, Next;
    if k < Spot(fl, i, b) {
      BeforeSpot(fl, i, b, k);
      NextBefore(fl, i, b, k);
    } else {
      NextAfter(fl, i, b, k);
    }
  }

  lemma BeforeSpot(fl: seq<Blk>, i: int, b: Blk, k: int)
    requires 0 <= i < |fl| && k < Spot(fl, i, b) && k != i
    ensures k < i
  {
    hide Insert;
  }

  lemma NextBefore(fl: seq<Blk>, i: int, b: Blk, k: int)
    requires Sorted(fl) && Fits(fl, i, b) && 0 <= k < i
    ensures var g := Insert(fl, i, b);
            k < |fl| && k < |g| && g[k] == fl[k] && g[Next(g, k)].addr == fl[Next(fl, k)].addr
  {
    hide Insert, Sorted;
    InsertAt(fl, i, b, k);
    InsertAt(fl, i, b, k + 1);
  }

  lemma NextAfter(fl: seq<Blk>, i: int, b: Blk, k: int)
    requires Sorted(fl) && Fits(fl, i, b) && Spot(fl, i, b) < k < |fl| + Shift(fl, i, b)
    ensures var g := Insert(fl, i, b);
            var m := k - Shift(fl, i, b);
            && |g| == |fl| + Shift(fl, i, b) && i < m < |fl|
            && g[k] == fl[m] && g[Next(g, k)].addr == fl[Next(fl, m)].addr
  {
    InsertAfter(fl, i, b, k);
    FirstStays(fl, i, b);
    if k + 1 < |fl| + Shift(fl, i, b) {
      InsertAfter(fl, i, b, k + 1);
    }
    hide Sorted, Insert, Spot, Shift, Fits;
  }

  lemma InsertAfter(fl: seq<Blk>, i: int, b: Blk, k: int)
    requires 0 <= i < |fl| && Spot(fl, i, b) < k < |fl| + Shift(fl, i, b)
    ensures |Insert(fl, i, b)| == |fl| + Shift(fl, i, b)
    ensures i < k - Shift(fl, i, b) < |fl| && Insert(fl, i, b)[k] == fl[k - Shift(fl, i, b)]
  {
    InsertAt(fl, i, b, k);
  }

  lemma FirstStays(fl: seq<Blk>, i: int, b: Blk)
    requires Sorted(fl) && Fits(fl, i, b)
    ensures |Insert(fl, i, b)| > 0 && Insert(fl, i, b)[0].addr == fl[0].addr
  {
    InsertAt(fl, i, b, 0);
    assert fl[0].addr + fl[0].size == 0;
    hide Insert, Sorted;
  }

  /** Position k of the new list holds block m of the old one, which neither header write hits. */
  lemma UntouchedLinks(fl: seq<Blk>, i: int, b: Blk, ptr: seq<int>, size: seq<int>, ptr': seq<int>, size': seq<int>,
                       k: int, m: int)
    requires Sorted(fl) && Linked(fl, ptr, size) && Fits(fl, i, b) && b.addr < |ptr| == |ptr'| == |size'|
    requires SameBut(ptr, ptr', fl[i].addr, b.addr) && SameBut(size, size', fl[i].addr, b.addr)
    requires 0 <= k < |fl| + Shift(fl, i, b) == |Insert(fl, i, b)|
    requires if k < Spot(fl, i, b) then k != i && m == k else k > Spot(fl, i, b) && m == k - Shift(fl, i, b)
    ensures LinkedAt(Insert(fl, i, b), ptr', size', k)
  {
    var g := Insert(fl, i, b);
    InsertNeighbour(fl, i, b, k, m);
    Elsewhere(fl, i, b, m);
    assert LinkedAt(fl, ptr, size, m);
    hide Insert, Linked, Sorted, Spot, Shift, Fits;
  }

  /** The block that free made, and the one before it when they do not touch. */
  lemma TouchedShape(fl: seq<Blk>, i: int, b: Blk, k: int)
    requires Sorted(fl) && Fits(fl, i, b) && 0 <= k < |fl| + Shift(fl, i, b) == |Insert(fl, i, b)| && i <= k <= Spot(fl, i, b)
    ensures var g, n := Insert(fl, i, b), Next(fl, i);
            var left, right := fl[i].addr + fl[i].size == b.addr, b.addr + b.size == fl[n].addr;
            if k == i && !left then g[k] == fl[i] && g[Next(g, k)].addr == b.addr
            else g[k].addr == (if left then fl[i].addr else b.addr) &&
                 g[k].addr + g[k].size == (if right then fl[n].addr + fl[n].size else b.addr + b.size) &&
                 g[Next(g, k)].addr == (if right then fl[Next(fl, n)].addr else fl[n].addr)
  {
    var g := Insert(fl, i, b);
    InsertAt(fl, i, b, k);
    InsertAt(fl, i, b, Next(g, k));
    assert fl[0].addr == 0 && (i > 0 ==> fl[0].addr + fl[0].size < fl[i].addr);
    hide Insert, Sorted;
  }

  lemma TouchedLinks(fl: seq<Blk>, i: int, b: Blk, ptr: seq<int>, size: seq<int>, ptr': seq<int>, size': seq<int>, k: int)
    requires Sorted(fl) && Fits(fl, i, b) && b.addr < |ptr| == |size|
    requires LinkedAt(fl, ptr, size, i) && LinkedAt(fl, ptr, size, Next(fl, i))
    requires Joined(fl, i, b, ptr, size, ptr', size')
    requires 0 <= k < |fl| + Shift(fl, i, b) == |Insert(fl, i, b)|
    requires i <= k <= Spot(fl, i, b)
    ensures LinkedAt(Insert(fl, i, b), ptr', size', k)
  {
    TouchedShape(fl, i, b, k);
    hide Insert, Sorted, Spot, Shift;
  }

  /** The two exits of free's search loop are met at the predecessor only. */
  lemma StopsAtPred(fl: seq<Blk>, i: int, b: Blk, k: int)
    requires Sorted(fl) && IsPred(fl, i, b.addr) && Fits(fl, i, b) && 0 <= k < |fl|
    ensures var p, n := fl[k].addr, fl[Next(fl, k)].addr;
            (b.addr > p && b.addr < n) || (p >= n && (b.addr > p || b.addr < n)) <==> k == i
  {
    if k != i {
      Elsewhere(fl, i, b, k);
      assert k + 1 < |fl| && k + 1 < i ==> fl[k + 1].addr + fl[k + 1].size < fl[i].addr;
      assert k < i ==> fl[k].addr + fl[k].size < fl[i].addr;
    }
    assert k + 1 < |fl| ==> fl[k].addr + fl[k].size < fl[k + 1].addr;
    assert k > 0 ==> fl[k].size >= 1 && fl[0].addr + fl[0].size < fl[k].addr;
  }

  lemma JoinedLinks(fl: seq<Blk>, i: int, b: Blk, ptr: seq<int>, size: seq<int>, ptr': seq<int>, size': seq<int>)
    requires Sorted(fl) && Linked(fl, ptr, size) && Fits(fl, i, b) && b.addr < |ptr|
    requires LinkedAt(fl, ptr, size, i) && LinkedAt(fl, ptr, size, Next(fl, i))
    requires Joined(fl, i, b, ptr, size, ptr', size')
    ensures Linked(Insert(fl, i, b), ptr', size')
  {
    InsertAt(fl, i, b, 0);
    hide Insert, Sorted;
    forall k | 0 <= k < |Insert(fl, i, b)| ensures LinkedAt(Insert(fl, i, b), ptr', size', k) {
      JoinedLinksAt(fl, i, b, ptr, size, ptr', size', k);
    }
  }

  // ----- malloc's round: position j on the ring, the round ending at position f -----

  /** Every block passed on the way to j is too small. */
  ghost predicate PassedTooSmall(fl: seq<Blk>, j: int, f: int, n: int) {
    forall t :: 0 <= t < |fl| && Ahead(|fl|, t, f) > Ahead(|fl|, j, f) ==> fl[t].size < n
  }

  /** A large enough block lies between j and the end of the round. */
  ghost predicate FitsAhead(fl: seq<Blk>, j: int, f: int, n: int) {
    exists t :: 0 <= t < |fl| && Ahead(|fl|, t, f) <= Ahead(|fl|, j, f) && fl[t].size >= n
  }

  /** Some free block is large enough. */
  ghost predicate HasRoom(fl: seq<Blk>, n: int) { exists i :: 0 <= i < |fl| && fl[i].size >= n }

  lemma RoundStart(fl: seq<Blk>, f: int, n: int)
    requires 0 <= f < |fl|
    ensures PassedTooSmall(fl, Next(fl, f), f, n)
    ensures fl[f].size >= n || fl[Next(fl, f)].size >= n ==> FitsAhead(fl, Next(fl, f), f, n)
  {
    if fl[Next(fl, f)].size >= n {
      assert Ahead(|fl|, Next(fl, f), f) <= Ahead(|fl|, Next(fl, f), f);
    }
    if fl[f].size >= n {
      assert Ahead(|fl|, f, f) <= Ahead(|fl|, Next(fl, f), f);
    }
  }

  lemma RoundStep(fl: seq<Blk>, j: int, f: int, n: int)
    requires 0 <= f < |fl| && 0 <= j < |fl| && j != f && fl[j].size < n
    ensures PassedTooSmall(fl, j, f, n) ==> PassedTooSmall(fl, Next(fl, j), f, n)
    ensures FitsAhead(fl, j, f, n) ==> FitsAhead(fl, Next(fl, j), f, n)
    ensures 0 <= Ahead(|fl|, Next(fl, j), f) < Ahead(|fl|, j, f)
  {
    if FitsAhead(fl, j, f, n) {
      var t :| 0 <= t < |fl| && Ahead(|fl|, t, f) <= Ahead(|fl|, j, f) && fl[t].size >= n;
      assert Ahead(|fl|, t, f) <= Ahead(|fl|, Next(fl, j), f);
    }
  }

  lemma RoundEnd(fl: seq<Blk>, f: int, n: int)
    requires 0 <= f < |fl| && fl[f].size < n
    ensures !FitsAhead(fl, f, f, n)
    ensures PassedTooSmall(fl, f, f, n) ==> !HasRoom(fl, n)
  {
    assert forall t :: 0 <= t < |fl| && t != f ==> Ahead(|fl|, t, f) > Ahead(|fl|, f, f);
  }

  // ----- The state between calls -----

  ghost predicate HeadersOk(live: map<int, int>, size: seq<int>) {
    forall a :: a in live ==> 0 < a < |size| && size[a] == live[a]
  }

  ghost predicate OnRing(fl: seq<Blk>, p: int) { exists i :: 0 <= i < |fl| && fl[i].addr == p }

  ghost predicate Consistent(freep: int, brk: int, top: int, fl: seq<Blk>, live: map<int, int>, owned: set<int>,
                             ptr: seq<int>, size: seq<int>)
  {
    && |ptr| == |size| == top <= UINT && 1 <= brk <= top
    && (forall u :: u in owned ==> 1 <= u < brk)
    && if freep == NULL then fl == [] && live == map[] && owned == {}
       else Partition(fl, live, owned) && Linked(fl, ptr, size) && HeadersOk(live, size) && OnRing(fl, freep)
  }

  /** No word of a live block differs. */
  ghost predicate LiveKept(live: map<int, int>, ptr: seq<int>, size: seq<int>, ptr': seq<int>, size': seq<int>) {
    && |ptr'| == |ptr| && |size'| == |size|
    && (forall u :: LiveCovers(live, u) && 0 <= u < |ptr| ==> ptr'[u] == ptr[u])
    && forall u :: LiveCovers(live, u) && 0 <= u < |size| ==> size'[u] == size[u]
  }

  lemma LiveKeptSame(live: map<int, int>, ptr: seq<int>, size: seq<int>)
    ensures LiveKept(live, ptr, size, ptr, size)
  {
  }

  lemma LiveKeptThen(live: map<int, int>, p: seq<int>, s: seq<int>, p1: seq<int>, s1: seq<int>, p2: seq<int>, s2: seq<int>)
    requires LiveKept(live, p, s, p1, s1) && LiveKept(live, p1, s1, p2, s2)
    ensures LiveKept(live, p, s, p2, s2)
  {
    hide LiveCovers;
  }

  /** The headers that free writes belong to no other live block. */
  lemma FreeKeepsLive(fl: seq<Blk>, live: map<int, int>, owned: set<int>, ptr: seq<int>, size: seq<int>, i: int, a: int,
                      ptr': seq<int>, size': seq<int>)
    requires Partition(fl, live, owned) && a in live && IsPred(fl, i, a)
    requires SameBut(ptr, ptr', fl[i].addr, a) && SameBut(size, size', fl[i].addr, a)
    ensures LiveKept(live - {a}, ptr, size, ptr', size')
  {
    if i > 0 {
      CoversAt(fl, i, fl[i].addr);
    }
    forall u | LiveCovers(live - {a}, u) ensures u != a && u != fl[i].addr {
      LiveWithout(live, a, u);
      assert Has(Blk(a, live[a]), a);
    }
    hide Partition;
  }

  /** And neither do those that malloc writes. */
  lemma CarveKeepsLive(fl: seq<Blk>, live: map<int, int>, owned: set<int>, ptr: seq<int>, size: seq<int>, j: int, n: int,
                       ptr': seq<int>, size': seq<int>)
    requires Partition(fl, live, owned) && 1 <= j < |fl| && 1 <= n <= fl[j].size
    requires |ptr| == |size| && 0 <= fl[j].addr < |ptr| && 0 <= fl[j - 1].addr < |ptr| && 0 <= fl[j].addr + fl[j].size - n < |ptr|
    requires Carved(fl, j, n, ptr, size, ptr', size')
    ensures LiveKept(live, ptr, size, ptr', size')
  {
    forall u | LiveCovers(live, u) ensures u != fl[j].addr && u != fl[j - 1].addr && u != fl[j].addr + fl[j].size - n {
      if Has(fl[j], u) {
        CoversAt(fl, j, u);
      }
      if j > 1 && Has(fl[j - 1], u) {
        CoversAt(fl, j - 1, u);
      }
    }
    hide Partition;
  }

  lemma GrowKeepsLive(fl: seq<Blk>, live: map<int, int>, owned: set<int>, ptr: seq<int>, size: seq<int>, hp: int, n: int)
    requires Partition(fl, live, owned) && hp !in owned && 0 <= hp < |size|
    ensures LiveKept(live, ptr, size, ptr, size[hp := n])
  {
    hide Sorted, Apart, Covers;
  }

  lemma FreeConsistent(freep: int, brk: int, top: int, fl: seq<Blk>, live: map<int, int>, owned: set<int>,
                       ptr: seq<int>, size: seq<int>, i: int, a: int, ptr': seq<int>, size': seq<int>)
    requires Consistent(freep, brk, top, fl, live, owned, ptr, size) && freep != NULL
    requires a in live && IsPred(fl, i, a)
    requires Linked(Insert(fl, i, Blk(a, live[a])), ptr', size')
    requires SameBut(ptr, ptr', fl[i].addr, a) && SameBut(size, size', fl[i].addr, a)
    ensures fl[i].addr != NULL
    ensures Consistent(fl[i].addr, brk, top, Insert(fl, i, Blk(a, live[a])), live - {a}, owned, ptr', size')
  {
    var b := Blk(a, live[a]);
    FreePartition(fl, live, owned, i, a);
    assert fl[0].addr == 0 && (i > 0 ==> fl[0].addr + fl[0].size < fl[i].addr);
    forall c | c in live ensures c != fl[i].addr {
      FreeNotLive(fl, live, owned, i, c);
    }
    InsertAt(fl, i, b, i);
    assert Insert(fl, i, b)[i].addr == fl[i].addr;
    hide Partition, Linked, Insert;
  }

  /** What the header writes of malloc leave behind when block j gives up n units. */
  ghost predicate Carved(fl: seq<Blk>, j: int, n: int, ptr: seq<int>, size: seq<int>, ptr': seq<int>, size': seq<int>)
    requires 1 <= j < |fl| && |ptr| == |size| && 0 <= fl[j].addr < |ptr| && 0 <= fl[j - 1].addr < |ptr|
    requires 0 <= fl[j].addr + fl[j].size - n < |ptr|
  {
    var p, a := fl[j].addr, fl[j].addr + fl[j].size - n;
    if fl[j].size == n then ptr' == ptr[fl[j - 1].addr := ptr[p]] && size' == size
    else ptr' == ptr && size' == size[p := fl[j].size - n][a := n]
  }

  lemma CarvedLinksAt(fl: seq<Blk>, j: int, n: int, ptr: seq<int>, size: seq<int>, ptr': seq<int>, size': seq<int>, k: int)
    requires Sorted(fl) && Linked(fl, ptr, size) && 1 <= j < |fl| && 1 <= n <= fl[j].size
    requires LinkedAt(fl, ptr, size, j) && LinkedAt(fl, ptr, size, j - 1) && fl[j].addr + fl[j].size <= |ptr|
    requires Carved(fl, j, n, ptr, size, ptr', size') && 0 <= k < |Carve(fl, j, n)|
    ensures LinkedAt(Carve(fl, j, n), ptr', size', k)
  {
    hide Carve, Sorted, Next;
    var m := if fl[j].size == n && k >= j then k + 1 else k;
    CarveNeighbour(fl, j, n, k);
    assert LinkedAt(fl, ptr, size, m);
    Apart3(fl, j, m);
    hide Linked;
  }

  lemma CarveNeighbour(fl: seq<Blk>, j: int, n: int, k: int)
    requires Sorted(fl) && 1 <= j < |fl| && 1 <= n <= fl[j].size && 0 <= k < |Carve(fl, j, n)|
    ensures var g := Carve(fl, j, n);
            var m := if fl[j].size == n && k >= j then k + 1 else k;
            && m < |fl| && g[k].addr == fl[m].addr && g[k].size == (if m == j then fl[j].size - n else fl[m].size)
            && g[Next(g, k)].addr == (if fl[j].size == n && m == j - 1 then fl[Next(fl, j)].addr else fl[Next(fl, m)].addr)
            && (fl[j].size == n ==> m != j)
  {
    hide Carve, Sorted;
    CarveAt(fl, j, n, k);
    if k + 1 < |Carve(fl, j, n)| {
      CarveAt(fl, j, n, k + 1);
    } else {
      CarveAt(fl, j, n, 0);
    }
  }

  lemma Apart3(fl: seq<Blk>, j: int, m: int)
    requires Sorted(fl) && 1 <= j < |fl| && 0 <= m < |fl|
    ensures m != j - 1 ==> fl[m].addr != fl[j - 1].addr
    ensures m != j ==> fl[m].addr < fl[j].addr || fl[j].addr + fl[j].size < fl[m].addr
    ensures fl[j - 1].addr < fl[j].addr
  {
    assert m < j - 1 ==> fl[m].addr + fl[m].size < fl[j - 1].addr;
    assert m > j - 1 ==> fl[j - 1].addr + fl[j - 1].size < fl[m].addr;
    assert fl[m].size >= 0 && fl[j - 1].size >= 0 && fl[0].size == 0;
  }

  lemma CarvedConsistent(freep: int, brk: int, top: int, fl: seq<Blk>, live: map<int, int>, owned: set<int>,
                         ptr: seq<int>, size: seq<int>, j: int, n: int, ptr': seq<int>, size': seq<int>)
    requires Consistent(freep, brk, top, fl, live, owned, ptr, size) && freep != NULL
    requires 1 <= j < |fl| && 1 <= n <= fl[j].size && 0 <= fl[j].addr && fl[j].addr + fl[j].size <= top
    requires 0 <= fl[j - 1].addr < top
    requires Carved(fl, j, n, ptr, size, ptr', size')
    ensures var a := fl[j].addr + fl[j].size - n;
            a !in live && Consistent(fl[j - 1].addr, brk, top, Carve(fl, j, n), live[a := n], owned, ptr', size')
  {
    var a := fl[j].addr + fl[j].size - n;
    var g := Carve(fl, j, n);
    MallocPartition(fl, live, owned, j, n);
    assert LinkedAt(fl, ptr, size, j) && LinkedAt(fl, ptr, size, j - 1);
    CarveAt(fl, j, n, j - 1);
    assert g[j - 1].addr == fl[j - 1].addr;
    forall k | 0 <= k < |g| ensures LinkedAt(g, ptr', size', k) {
      CarvedLinksAt(fl, j, n, ptr, size, ptr', size', k);
    }
    forall c | c in live ensures c != fl[j].addr {
      FreeNotLive(fl, live, owned, j, c);
    }
    hide Partition, Carve;
  }

  lemma GrowConsistent(freep: int, brk: int, top: int, fl: seq<Blk>, live: map<int, int>, owned: set<int>,
                       ptr: seq<int>, size: seq<int>, n: int)
    requires Consistent(freep, brk, top, fl, live, owned, ptr, size) && freep != NULL
    requires n >= 1 && brk + n <= top
    ensures brk !in live && live[brk := n] - {brk} == live
    ensures Consistent(freep, brk + n, top, fl, live[brk := n], owned + Span(Blk(brk, n)), ptr, size[brk := n])
  {
    GrowPartition(fl, live, owned, Blk(brk, n));
    var size' := size[brk := n];
    forall i | 0 <= i < |fl| ensures LinkedAt(fl, ptr, size', i) {
      assert LinkedAt(fl, ptr, size, i);
      if i > 0 {
        assert Has(fl[i], fl[i].addr);
        assert Covers(fl, fl[i].addr);
      }
    }
    hide Partition;
  }

  /** The block just freed is where malloc's loop looks next, or where it ends its round. */
  lemma NewBlockNear(fl: seq<Blk>, i: int, b: Blk)
    requires Sorted(fl) && Fits(fl, i, b)
    ensures var g := Insert(fl, i, b);
            i < |g| && g[i].addr == fl[i].addr &&
            (g[i].size >= b.size || (i + 1 < |g| && g[i + 1].size >= b.size))
  {
    InsertAt(fl, i, b, 0);
    InsertAt(fl, i, b, i);
    InsertAt(fl, i, b, Spot(fl, i, b));
    assert i + 1 < |fl| ==> fl[i + 1].size >= 1;
    assert i > 0 ==> fl[i].size >= 1;
    hide Insert, Sorted;
  }

  /** sbrk gets the bytes that morecore means exactly for requests below two gigabytes. */
  lemma SbrkArgumentExact(nu: int)
    requires 0 <= nu <= Units(UINT - 1)
    ensures SbrkArgument(nu) == nu * UNIT <==> nu * UNIT < UINT / 2
    ensures SbrkArgument(nu) <= nu * UNIT
    ensures -(UINT / 2) <= SbrkArgument(nu) < UINT / 2 && SbrkArgument(nu) % UNIT == 0
  {
  }

  /** Where sys_sbrk and growproc leave the break of a process with `low` units below base.  A negative count
      shrinks the process, unless the new size wraps below zero: uvmdealloc takes it for a larger one then. */
  function BreakAfter(low: int, brk: int, bytes: int): int {
    if bytes >= 0 || 0 <= low + brk + bytes / UNIT then brk + bytes / UNIT else brk
  }

  /** The first unit past the last page that is mapped. */
  function MappedEnd(low: int, brk: int): int { (low + brk + 255) / 256 * 256 - low }

  /** After sbrk the break covers the units that morecore takes for its own, if and only if less than two
      gigabytes were asked for. */
  lemma BreakCovers(low: int, brk: int, nu: int)
    requires 0 <= low && 0 <= brk && 1 <= nu <= Units(UINT - 1)
    ensures brk + nu <= BreakAfter(low, brk, SbrkArgument(nu)) <==> nu * UNIT < UINT / 2
    ensures nu * UNIT < UINT / 2 ==> BreakAfter(low, brk, SbrkArgument(nu)) == brk + nu
    ensures brk < MappedEnd(low, brk + nu)
  {
    SbrkArgumentExact(nu);
  }

  /** The largest request: morecore wants more than four gigabytes, sbrk is asked for 16 bytes, and the break
      moves up one unit. */
  lemma LargestRequest(low: int, brk: int)
    requires 0 <= low && 0 <= brk
    ensures Units(UINT - 1) * UNIT == UINT + UNIT && SbrkArgument(Units(UINT - 1)) == UNIT
    ensures BreakAfter(low, brk, SbrkArgument(Units(UINT - 1))) == brk + 1
  {
  }

  /** How many units morecore takes for a request of nu. */
  function MoreUnits(nu: int): int { if nu < 4096 then 4096 else nu }

  /** sbrk is asked for more than brings the break to `grant`, and the kernel grants no more than that. */
  predicate Refused(brk: int, nu: int, grant: int) {
    var bytes := SbrkArgument(MoreUnits(nu));
    bytes > 0 && brk + bytes / UNIT > grant
  }

  /** sbrk succeeds, and the first header of the new memory lies on a page that is not there. */
  predicate Faults(low: int, brk: int, nu: int, grant: int) {
    !Refused(brk, nu, grant) && brk >= MappedEnd(low, BreakAfter(low, brk, SbrkArgument(MoreUnits(nu))))
  }

  /** Below two gigabytes sbrk is refused exactly when the units wanted do not fit below `grant`, and never
      faults. */
  lemma RefusedMeans(low: int, brk: int, nu: int, grant: int)
    requires 0 <= low && 0 <= brk && 1 <= nu && nu * UNIT < UINT / 2
    ensures Refused(brk, nu, grant) <==> brk + MoreUnits(nu) > grant
    ensures !Faults(low, brk, nu, grant)
  {
    BreakCovers(low, brk, MoreUnits(nu));
    SbrkArgumentExact(MoreUnits(nu));
  }

  /** Blocks of n units and more end at `end`. */
  ghost predicate LargeEndAt(fl: seq<Blk>, n: int, end: int) {
    forall k :: 0 <= k < |fl| && fl[k].size >= n ==> fl[k].addr + fl[k].size == end
  }

  /** A block freed above all smaller ones is the only large one. */
  lemma OnlyLarge(fl: seq<Blk>, i: int, b: Blk, n: int)
    requires Sorted(fl) && Fits(fl, i, b) && IsPred(fl, i, b.addr) && !HasRoom(fl, n) && n <= b.size
    requires forall k :: 0 <= k < |fl| ==> fl[k].addr < b.addr
    ensures LargeEndAt(Insert(fl, i, b), n, b.addr + b.size)
  {
    var g := Insert(fl, i, b);
    assert i + 1 == |fl|;
    InsertAt(fl, i, b, 0);
    forall k | 0 <= k < |g| && g[k].size >= n ensures g[k].addr + g[k].size == b.addr + b.size {
      InsertAt(fl, i, b, k);
      assert k < |fl| ==> fl[k].size < n;
      hide Insert, Sorted, HasRoom;
    }
  }

  /** The heap has grown by what lies between the two breaks, and by nothing else. */
  ghost predicate Grown(owned: set<int>, brk: int, owned': set<int>, brk': int) {
    brk <= brk' && owned' == if brk' == brk then owned else owned + Span(Blk(brk, brk' - brk))
  }

  lemma RequestInRange(nbytes: int)
    requires 0 <= nbytes < UINT
    ensures Units(nbytes) * UNIT < UINT / 2 <==> nbytes <= UINT / 2 - 2 * UNIT
    ensures nbytes <= (Units(nbytes) - 1) * UNIT < nbytes + UNIT
  {
  }

  class Allocator {
    /** Header fields of every unit from base on that the process may come to name. */
    const ptr: array<int>
    const size: array<int>
    const space: int
    /** Units of the process below base, and the highest break that the kernel grants. */
    const low: int
    const top: int
    var freep: int
    var brk: int
    ghost var fl: seq<Blk>
    ghost var live: map<int, int>
    ghost var owned: set<int>
    /** The end of what the allocator takes for its own. */
    ghost var reach: int

    /** The books are in order: blocks are apart and the ring of headers is sound. */
    ghost predicate Booked()
      reads this, ptr, size
    {
      && ptr != size && ptr.Length == size.Length == space
      && Consistent(freep, reach, space, fl, live, owned, ptr[..], size[..])
    }

    /** And all of it lies below the break. */
    ghost predicate Valid()
      reads this, ptr, size
    {
      Booked() && reach == brk <= top && 0 <= low && top + Units(UINT - 1) <= space
    }

    /** base has `low` units below it, and the heap begins at `heap`. */
    constructor (low: int, top: int, heap: int)
      requires 0 <= low && 1 <= heap <= top && top + Units(UINT - 1) <= UINT
      ensures Valid() && fresh(ptr) && fresh(size) && freep == NULL && brk == heap
    {
      this.low, this.top, this.brk, this.freep := low, top, heap, NULL;
      space := top + Units(UINT - 1);
      ptr := new int[top + Units(UINT - 1)];
      size := new int[top + Units(UINT - 1)];
      fl, live, owned, reach := [], map[], {}, heap;
    }

    /** free: find the neighbours, then join or link. */
    method Free(ap: int)
      requires Booked() && ap - 1 in live
      modifies this`freep, this`fl, this`live, ptr, size
      ensures Booked() && (old(Valid()) ==> Valid()) && freep != NULL && live == old(live) - {ap - 1}
      ensures exists i :: IsPred(old(fl), i, ap - 1) && freep == old(fl)[i].addr &&
                fl == Insert(old(fl), i, Blk(ap - 1, old(live)[ap - 1]))
      ensures LiveKept(live, old(ptr[..]), old(size[..]), ptr[..], size[..])
    {
      var bp := ap - 1;
      ghost var i := PredExists(fl, bp);
      FreePartition(fl, live, owned, i, bp);
      ghost var ps, ss := ptr[..], size[..];
      var p := FindPlace(bp, Blk(bp, live[bp]), i);
      hide Partition, Insert, OnRing, Sorted;
      Join(p, bp, i);
      FreeConsistent(freep, reach, space, fl, live, owned, ps, ss, i, bp, ptr[..], size[..]);
      FreeKeepsLive(fl, live, owned, ps, ss, i, bp, ptr[..], size[..]);
      hide Consistent, Linked, LiveKept;
      freep := p;
      fl := Insert(fl, i, Blk(bp, live[bp]));
      live := live - {bp};
    }

    /** The search loop of free: round the ring from freep to the block's place. */
    method FindPlace(bp: int, ghost b: Blk, ghost i: int) returns (p: int)
      requires ptr != size && ptr.Length == size.Length == space
      requires Sorted(fl) && Linked(fl, ptr[..], size[..]) && OnRing(fl, freep)
      requires b.addr == bp && IsPred(fl, i, bp) && Fits(fl, i, b)
      ensures p == fl[i].addr
    {
      ghost var k :| 0 <= k < |fl| && fl[k].addr == freep;
      hide Sorted;
      p := freep;
      while true
        invariant 0 <= k < |fl| && p == fl[k].addr
        decreases Ahead(|fl|, k, i)
      {
        assert LinkedAt(fl, ptr[..], size[..], k);
        StopsAtPred(fl, i, b, k);
        if bp > p && bp < ptr[p] {
          break;
        }
        if p >= ptr[p] && (bp > p || bp < ptr[p]) {
          break;
        }
        p := ptr[p];
        k := Next(fl, k);
      }
    }

    /** The second half of free, on headers. */
    method Join(p: int, bp: int, ghost i: int)
      requires ptr != size && ptr.Length == size.Length == space
      requires Sorted(fl) && Linked(fl, ptr[..], size[..]) && 0 <= i < |fl| && p == fl[i].addr
      requires 0 < bp < space && Fits(fl, i, Blk(bp, size[bp]))
      modifies ptr, size
      ensures Linked(Insert(fl, i, Blk(bp, old(size[bp]))), ptr[..], size[..])
      ensures SameBut(old(ptr[..]), ptr[..], p, bp) && SameBut(old(size[..]), size[..], p, bp)
    {
      ghost var b := Blk(bp, size[bp]);
      ghost var ps, ss := ptr[..], size[..];
      assert LinkedAt(fl, ps, ss, i) && LinkedAt(fl, ps, ss, Next(fl, i));
      hide Sorted, Linked;
      if bp + size[bp] == ptr[p] {
        size[bp] := size[bp] + size[ptr[p]];
        ptr[bp] := ptr[ptr[p]];
      } else {
        ptr[bp] := ptr[p];
      }
      if p + size[p] == bp {
        size[p] := size[p] + size[bp];
        ptr[p] := ptr[bp];
      } else {
        ptr[p] := bp;
      }
      assert Joined(fl, i, b, ps, ss, ptr[..], size[..]);
      JoinedLinks(fl, i, b, ps, ss, ptr[..], size[..]);
    }

    /** sbrk: the old break, or NULL when the kernel's memory does not reach beyond the break `grant`. */
    method Sbrk(bytes: int, grant: int) returns (p: int)
      requires -(UINT / 2) <= bytes < UINT / 2 && bytes % UNIT == 0
      requires 1 <= brk <= top && 0 <= low && grant <= top
      modifies this`brk
      ensures p == NULL <==> bytes > 0 && old(brk) + bytes / UNIT > grant
      ensures p == NULL ==> brk == old(brk)
      ensures p != NULL ==> p == old(brk) && brk == BreakAfter(low, old(brk), bytes) <= top
    {
      p := brk;
      if bytes > 0 {
        if brk + bytes / UNIT <= grant {
          brk := brk + bytes / UNIT;
        } else {
          p := NULL;
        }
      } else if bytes < 0 && 0 <= low + brk + bytes / UNIT {
        brk := brk + bytes / UNIT;
      }
    }

    /** The program's own sbrk may move the break between calls. */
    method ProgramSbrk(units: nat)
      requires Valid() && brk + units <= top
      modifies this`brk, this`reach
      ensures Valid() && brk == old(brk) + units
    {
      brk := brk + units;
      reach := brk;
    }

    lemma Bounds()
      requires Valid()
      ensures Booked() && 1 <= brk == reach <= top && 0 <= low && top + Units(UINT - 1) <= space && ptr.Length == size.Length == space
    {
    }

    /** morecore: at least 4096 units from sbrk, handed to free.  The store to the header is the first to touch
        the new memory, and kills the process if that is not there. */
    method MoreCore(nu: int, grant: int) returns (p: int, killed: bool)
      requires Valid() && freep != NULL && 1 <= nu <= Units(UINT - 1) && grant <= top
      modifies this`freep, this`brk, this`fl, this`live, this`owned, this`reach, ptr, size
      ensures killed ==> p == NULL && UINT / 2 <= nu * UNIT
      ensures p == NULL && !killed <==> Refused(old(brk), nu, grant)
      ensures killed <==> Faults(low, old(brk), nu, grant)
      ensures !killed ==> Booked() && freep != NULL && live == old(live) && LiveKept(live, old(ptr[..]), old(size[..]), ptr[..], size[..])
      ensures !killed && p == NULL ==> Valid() && owned == old(owned) && brk == reach == old(brk) && fl == old(fl) && freep == old(freep)
      ensures p != NULL ==> reach == old(brk) + MoreUnits(nu) && brk == BreakAfter(low, old(brk), SbrkArgument(MoreUnits(nu)))
      ensures p != NULL ==> p == freep && reach > old(brk) && Grown(old(owned), old(brk), owned, reach)
      ensures p != NULL ==> exists f :: 0 <= f < |fl| && fl[f].addr == freep && (fl[f].size >= nu || fl[Next(fl, f)].size >= nu)
      ensures p != NULL && nu * UNIT < UINT / 2 ==> Valid()
      ensures p != NULL && UINT / 2 <= nu * UNIT ==> brk < old(brk) + nu <= reach
      ensures p != NULL && !HasRoom(old(fl), nu) ==> LargeEndAt(fl, nu, reach)
    {
      Bounds();
      hide Consistent, Partition, Sorted, Insert, Linked, SbrkArgument, LiveKept, HasRoom, LargeEndAt, BreakAfter, MappedEnd, Valid, Grown;
      LiveKeptSame(live, ptr[..], size[..]);
      killed := false;
      var n := if nu < MINUNITS then MINUNITS else nu;
      SbrkArgumentExact(n);
      BreakCovers(low, brk, n);
      ghost var was := brk;
      assert n == MoreUnits(nu);
      var hp := Sbrk(SbrkArgument(n), grant);
      if hp == NULL {
        StillValid();
        return NULL, false;
      }
      if hp >= MappedEnd(low, brk) {
        return NULL, true;
      }
      TakeOver(hp, n, was, nu);
      NowValid(was, n);
      GrownBy(old(owned), was, n);
      p := freep;
    }

    lemma StillValid()
      requires Booked() && reach == brk <= top && 0 <= low && top + Units(UINT - 1) <= space
      ensures Valid()
    {
    }

    lemma NotValid()
      ensures reach != brk ==> !Valid()
    {
    }

    lemma NowValid(was: int, n: int)
      requires Booked() && 0 <= low && top + Units(UINT - 1) <= space && 1 <= was && 1 <= n <= Units(UINT - 1)
      requires reach == was + n && brk == BreakAfter(low, was, SbrkArgument(n)) <= top
      ensures n * UNIT < UINT / 2 ==> Valid()
      ensures UINT / 2 <= n * UNIT ==> brk < was + n
    {
      BreakCovers(low, was, n);
    }

    lemma GrownBy(owned0: set<int>, was: int, n: int)
      requires n >= 1 && owned == owned0 + Span(Blk(was, n)) && reach == was + n
      ensures Grown(owned0, was, owned, reach)
    {
    }

    /** hp->s.size = nu; free((void*)(hp + 1)). */
    method TakeOver(hp: int, n: int, ghost was: int, ghost nu: int)
      requires Booked() && freep != NULL && hp == was == reach && 1 <= n && hp + n <= space && nu <= n
      modifies this`freep, this`fl, this`live, this`owned, this`reach, ptr, size
      ensures Booked() && freep != NULL && live == old(live) && LiveKept(live, old(ptr[..]), old(size[..]), ptr[..], size[..])
      ensures owned == old(owned) + Span(Blk(was, n)) && reach == was + n
      ensures exists f :: 0 <= f < |fl| && fl[f].addr == freep && (fl[f].size >= n || fl[Next(fl, f)].size >= n)
      ensures !HasRoom(old(fl), nu) ==> LargeEndAt(fl, nu, was + n)
    {
      BreakNotOwned(was);
      hide Consistent, Partition, Sorted, Insert, Linked, LiveKept, HasRoom, LargeEndAt;
      ghost var b := Blk(hp, n);
      GrowConsistent(freep, was, space, fl, live, owned, ptr[..], size[..], n);
      ghost var ps, ss, live0 := ptr[..], size[..], live;
      GrowKeepsLive(fl, live, owned, ps, ss, hp, n);
      size[hp] := n;
      ghost var ss1 := size[..];
      owned := owned + Span(b);
      live := live[hp := n];
      reach := hp + n;
      FreeFresh(hp, nu);
      assert live == live0;
      LiveKeptThen(live0, ps, ss, ps, ss1, ptr[..], size[..]);
    }

    lemma BreakNotOwned(was: int)
      requires Consistent(freep, was, space, fl, live, owned, ptr[..], size[..]) && freep != NULL
      ensures 1 <= was && was !in owned && Partition(fl, live, owned) && forall k :: 0 <= k < |fl| ==> fl[k].addr < was
    {
      forall k | 0 < k < |fl| ensures fl[k].addr < was {
        CoversAt(fl, k, fl[k].addr);
      }
    }

    /** The call of free in morecore. */
    method FreeFresh(hp: int, ghost nu: int)
      requires Booked() && freep != NULL && hp in live && nu <= live[hp] && forall k :: 0 <= k < |fl| ==> fl[k].addr < hp
      modifies this`freep, this`fl, this`live, ptr, size
      ensures Booked() && freep != NULL && live == old(live) - {hp}
      ensures !HasRoom(old(fl), nu) ==> LargeEndAt(fl, nu, hp + old(live)[hp])
      ensures exists f :: 0 <= f < |fl| && fl[f].addr == freep &&
                (fl[f].size >= old(live)[hp] || fl[Next(fl, f)].size >= old(live)[hp])
      ensures LiveKept(live, old(ptr[..]), old(size[..]), ptr[..], size[..])
    {
      hide Booked, Valid, Insert, LiveKept, HasRoom, LargeEndAt;
      FreeNearby(hp);
      FreshLarge(hp, nu);
      Free(hp + 1);
      ghost var i :| IsPred(old(fl), i, hp) && freep == old(fl)[i].addr &&
                fl == Insert(old(fl), i, Blk(hp, old(live)[hp]));
      assert fl[i].addr == freep;
    }

    lemma FreshLarge(a: int, n: int)
      requires Booked() && freep != NULL && a in live && n <= live[a] && forall k :: 0 <= k < |fl| ==> fl[k].addr < a
      ensures !HasRoom(fl, n) ==>
        forall i :: IsPred(fl, i, a) ==> LargeEndAt(Insert(fl, i, Blk(a, live[a])), n, a + live[a])
    {
      if !HasRoom(fl, n) {
        forall i | IsPred(fl, i, a) ensures LargeEndAt(Insert(fl, i, Blk(a, live[a])), n, a + live[a]) {
          FreePartition(fl, live, owned, i, a);
          OnlyLarge(fl, i, Blk(a, live[a]), n);
        }
      }
    }

    /** Wherever free puts the block at a, malloc's loop meets enough memory within one round. */
    lemma FreeNearby(a: int)
      requires Booked() && freep != NULL && a in live
      ensures forall i :: IsPred(fl, i, a) ==>
        var g := Insert(fl, i, Blk(a, live[a]));
        i < |g| && g[i].addr == fl[i].addr && (g[i].size >= live[a] || g[Next(g, i)].size >= live[a])
    {
      forall i | IsPred(fl, i, a)
        ensures var g := Insert(fl, i, Blk(a, live[a]));
          i < |g| && g[i].addr == fl[i].addr && (g[i].size >= live[a] || g[Next(g, i)].size >= live[a])
      {
        FreePartition(fl, live, owned, i, a);
        NewBlockNear(fl, i, Blk(a, live[a]));
      }
    }

    lemma LinkAt(j: int)
      requires Booked() && freep != NULL && 0 <= j < |fl|
      ensures ptr.Length == size.Length == space
      ensures 0 <= fl[j].addr < space && size[fl[j].addr] == fl[j].size && ptr[fl[j].addr] == fl[Next(fl, j)].addr
      ensures j == 0 ==> fl[j].size == 0
    {
      assert LinkedAt(fl, ptr[..], size[..], j);
    }

    lemma RingIndex() returns (f: int)
      requires Booked() && freep != NULL
      ensures 0 <= f < |fl| && fl[f].addr == freep
    {
      f :| 0 <= f < |fl| && fl[f].addr == freep;
    }

    lemma SameIndex(j: int, f: int)
      requires Booked() && freep != NULL && 0 <= j < |fl| && 0 <= f < |fl| && fl[j].addr == fl[f].addr
      ensures j == f
    {
      assert fl[j].size >= 0 && fl[f].size >= 0;
    }

    lemma NothingYet(n: int)
      requires Booked() && freep == NULL
      ensures !HasRoom(fl, n)
    {
    }

    /** The first call of malloc: base alone on the ring. */
    method InitBase()
      requires Booked() && freep == NULL
      modifies this`freep, this`fl, ptr, size
      ensures Booked() && (old(Valid()) ==> Valid()) && freep == 0 && fl == [Blk(0, 0)] && live == old(live) && owned == old(owned)
      ensures LiveKept(live, old(ptr[..]), old(size[..]), ptr[..], size[..])
    {
      ptr[0] := 0;
      freep := 0;
      size[0] := 0;
      fl := [Blk(0, 0)];
      assert fl[0].addr == freep;
      assert LinkedAt(fl, ptr[..], size[..], 0);
      assert forall u :: !Covers(fl, u) && !LiveCovers(live, u);
    }

    /** The body of malloc's loop when block p is large enough. */
    method TakeFrom(p: int, prevp: int, nunits: int, ghost j: int) returns (r: int)
      requires Booked() && freep != NULL && 1 <= j < |fl| && p == fl[j].addr && prevp == fl[j - 1].addr
      requires 1 <= nunits <= fl[j].size
      modifies this`freep, this`fl, this`live, ptr, size
      ensures Booked() && (old(Valid()) ==> Valid()) && freep == prevp != NULL && fl == Carve(old(fl), j, nunits)
      ensures r - 1 == old(fl)[j].addr + old(fl)[j].size - nunits
      ensures r != NULL && r - 1 !in old(live) && live == old(live)[r - 1 := nunits]
      ensures owned == old(owned)
      ensures LiveKept(old(live), old(ptr[..]), old(size[..]), ptr[..], size[..])
    {
      hide Consistent, Carve, LiveKept;
      RingPartition();
      LinkAt(j);
      LinkAt(j - 1);
      BlockBelowBreak(j);
      hide Partition, Linked, OnRing, Sorted, HeadersOk, Carved;
      ghost var ps, ss := ptr[..], size[..];
      r := CutTail(p, prevp, nunits, j);
      CarvedConsistent(freep, reach, space, fl, live, owned, ps, ss, j, nunits, ptr[..], size[..]);
      CarveKeepsLive(fl, live, owned, ps, ss, j, nunits, ptr[..], size[..]);
      freep := prevp;
      live := live[r - 1 := nunits];
      fl := Carve(fl, j, nunits);
    }

    lemma RingPartition()
      requires Booked() && freep != NULL
      ensures Partition(fl, live, owned)
    {
    }

    /** Unlink block p when it fits exactly, else take its tail. */
    method CutTail(p: int, prevp: int, nunits: int, ghost j: int) returns (r: int)
      requires ptr != size && ptr.Length == size.Length == space
      requires 1 <= j < |fl| && p == fl[j].addr && prevp == fl[j - 1].addr && 0 <= prevp < space && 0 <= p < space
      requires size[p] == fl[j].size && 1 <= nunits <= fl[j].size && p + fl[j].size <= space
      modifies ptr, size
      ensures Carved(fl, j, nunits, old(ptr[..]), old(size[..]), ptr[..], size[..])
      ensures r - 1 == p + fl[j].size - nunits
    {
      var q := p;
      if size[q] == nunits {
        ptr[prevp] := ptr[q];
      } else {
        size[q] := size[q] - nunits;
        q := q + size[q];
        size[q] := nunits;
      }
      r := q + 1;
    }

    lemma BlockBelowBreak(j: int)
      requires Booked() && freep != NULL && 1 <= j < |fl|
      ensures 0 < fl[j].addr && fl[j].size >= 1 && fl[j].addr + fl[j].size <= reach <= space
    {
      var u := fl[j].addr + fl[j].size - 1;
      assert Has(fl[j], u);
      assert Covers(fl, u) && u in owned;
      assert fl[0].addr + fl[0].size < fl[j].addr;
    }

    /** morecore, as malloc calls it: its loop then has a large enough block within one round. */
    method Refill(nunits: int, grant: int) returns (p: int, killed: bool, ghost f: int)
      requires Valid() && freep != NULL && 1 <= nunits <= Units(UINT - 1) && !HasRoom(fl, nunits) && grant <= top
      modifies this`freep, this`brk, this`fl, this`live, this`owned, this`reach, ptr, size
      ensures killed ==> p == NULL && UINT / 2 <= nunits * UNIT
      ensures p == NULL && !killed <==> Refused(old(brk), nunits, grant)
      ensures killed <==> Faults(low, old(brk), nunits, grant)
      ensures p != NULL ==> NewEnd(old(brk), nunits)
      ensures !killed ==> Booked() && freep != NULL && live == old(live) && LiveKept(live, old(ptr[..]), old(size[..]), ptr[..], size[..])
      ensures !killed && p == NULL ==> Valid() && owned == old(owned) && brk == reach == old(brk) && fl == old(fl)
      ensures p != NULL ==> reach > old(brk) && Grown(old(owned), old(brk), owned, reach)
      ensures p != NULL ==> 0 <= f < |fl| && p == freep == fl[f].addr && FitsAhead(fl, Next(fl, f), f, nunits)
      ensures p != NULL ==> if nunits * UNIT < UINT / 2 then Valid() else Torn(old(brk), nunits)
    {
      hide Booked, Valid, Grown, LiveKept, HasRoom, Refused, Faults, BreakAfter, SbrkArgument;
      p, killed := MoreCore(nunits, grant);
      f := 0;
      if p != NULL {
        f :| 0 <= f < |fl| && fl[f].addr == freep && (fl[f].size >= nunits || fl[Next(fl, f)].size >= nunits);
        RoundStart(fl, f, nunits);
      }
    }

    /** The break lies below the end of the one block that is large enough, which is to start at `was`. */
    ghost predicate Torn(was: int, n: int)
      reads this
    {
      brk < was + n <= reach && LargeEndAt(fl, n, was + n)
    }

    /** Where morecore has brought the heap and the break, and the only blocks that are large enough end there. */
    ghost predicate NewEnd(was: int, n: int)
      reads this
    {
      reach == was + MoreUnits(n) && brk == BreakAfter(low, was, SbrkArgument(MoreUnits(n))) && LargeEndAt(fl, n, reach)
    }

    /** The first block from freep0 on, round the ring, that holds n units gives its tail. */
    ghost predicate NextFit(r: int, n: int, freep0: int, fl0: seq<Blk>)
      reads this
    {
      exists f, j :: 0 <= f < |fl0| && fl0[f].addr == freep0 && FitAt(r, n, fl0, f, j)
    }

    ghost predicate FitAt(r: int, n: int, fl0: seq<Blk>, f: int, j: int)
      requires 0 <= f < |fl0|
      reads this
    {
      && 1 <= j < |fl0| && 1 <= n <= fl0[j].size && PassedTooSmall(fl0, j, f, n)
      && fl == Carve(fl0, j, n) && freep == fl0[j - 1].addr && r - 1 == fl0[j].addr + fl0[j].size - n
    }

    /** How malloc's loop ends: `was` is the break and `fl0` the free list at its start. */
    ghost predicate Served(r: int, killed: bool, n: int, was: int, fl0: seq<Blk>, live0: map<int, int>, owned0: set<int>,
                           freep0: int, grant: int)
      reads this, ptr, size
    {
      && (if HasRoom(fl0, n) then NextFit(r, n, freep0, fl0) else Asked(r, killed, n, was, grant))
      && (!killed && Valid() <==> HasRoom(fl0, n) || n * UNIT < UINT / 2 || (!killed && r == NULL))
      && (!killed ==> Booked() && freep != NULL && Grown(owned0, was, owned, reach))
      && (HasRoom(fl0, n) ==> r != NULL && reach == was == brk)
      && (r == NULL && !killed ==> live == live0 && brk == was && !HasRoom(fl, n))
      && (r != NULL ==> !killed && r - 1 !in live0 && live == live0[r - 1 := n])
      && (r != NULL && !Valid() ==> r - 1 == was && brk < r - 1 + n)
    }

    /** sbrk was called: what came of it, and where the new block is when there is one. */
    ghost predicate Asked(r: int, killed: bool, n: int, was: int, grant: int)
      reads this
    {
      && (r == NULL && !killed <==> Refused(was, n, grant)) && (killed <==> Faults(low, was, n, grant))
      && (r != NULL ==> reach == was + MoreUnits(n) && r - 1 + n == reach && brk == BreakAfter(low, was, SbrkArgument(MoreUnits(n))))
    }

    lemma ServedFit(r: int, n: int, was: int, fl0: seq<Blk>, live0: map<int, int>, owned0: set<int>, grown: bool,
                    freep0: int, grant: int)
      requires Booked() && freep != NULL && r != NULL && r - 1 !in live0 && live == live0[r - 1 := n]
      requires if grown then reach > was && Grown(owned0, was, owned, reach) else reach == brk == was && owned == owned0
      requires !grown || n * UNIT < UINT / 2 ==> Valid()
      requires grown && UINT / 2 <= n * UNIT ==> brk < was + n <= reach && r - 1 == was
      requires if grown then !HasRoom(fl0, n) else HasRoom(fl0, n)
      requires if grown then Asked(r, false, n, was, grant) else NextFit(r, n, freep0, fl0)
      ensures Served(r, false, n, was, fl0, live0, owned0, freep0, grant)
    {
      hide Booked, HasRoom, NextFit, Asked;
      NotValid();
    }

    lemma ServedNot(killed: bool, n: int, was: int, fl0: seq<Blk>, live0: map<int, int>, owned0: set<int>, freep0: int, grant: int)
      requires !HasRoom(fl0, n) && (killed ==> UINT / 2 <= n * UNIT)
      requires (!killed <==> Refused(was, n, grant)) && (killed <==> Faults(low, was, n, grant))
      requires !killed ==> Valid() && freep != NULL && live == live0 && owned == owned0 && brk == reach == was && fl == fl0
      ensures Served(NULL, killed, n, was, fl0, live0, owned0, freep0, grant)
    {
      hide Consistent, HasRoom, NextFit, Refused, Faults;
    }

    lemma FitsSomewhere(j: int, n: int)
      requires 0 <= j < |fl| && fl[j].size >= n
      ensures HasRoom(fl, n)
    {
    }

    /** What the loop of malloc keeps, before and after the heap has grown. */
    ghost predicate Round(grown: bool, n: int, was: int, fl0: seq<Blk>, live0: map<int, int>, owned0: set<int>, freep0: int, grant: int)
      reads this, ptr, size
    {
      && (if grown then NewEnd(was, n) && !Refused(was, n, grant) && !Faults(low, was, n, grant) else freep == freep0)
      && Booked() && freep != NULL && live == live0
      && (if grown then reach > was && Grown(owned0, was, owned, reach) else reach == brk == was && owned == owned0)
      && (!grown || n * UNIT < UINT / 2 ==> Valid())
      && (grown && UINT / 2 <= n * UNIT ==> Torn(was, n))
      && (if grown then !HasRoom(fl0, n) else fl == fl0)
    }

    lemma RoundGist(grown: bool, n: int, was: int, fl0: seq<Blk>, live0: map<int, int>, owned0: set<int>, freep0: int, grant: int)
      requires Round(grown, n, was, fl0, live0, owned0, freep0, grant)
      ensures Booked() && freep != NULL && (!grown ==> Valid() && fl == fl0 && freep == freep0)
    {
    }

    /** The body of the loop at a block that is large enough. */
    method TakeHere(p: int, prevp: int, n: int, ghost j: int, ghost grown: bool, ghost was: int,
                    ghost fl0: seq<Blk>, ghost live0: map<int, int>, ghost owned0: set<int>, ghost freep0: int, ghost grant: int, ghost f: int)
      returns (r: int)
      requires Round(grown, n, was, fl0, live0, owned0, freep0, grant) && 1 <= j < |fl| && p == fl[j].addr && prevp == fl[j - 1].addr
      requires 1 <= n <= fl[j].size && 0 <= f < |fl| && fl[f].addr == freep && (!grown ==> PassedTooSmall(fl, j, f, n))
      modifies this`freep, this`fl, this`live, ptr, size
      ensures Served(r, false, n, was, fl0, live0, owned0, freep0, grant)
      ensures LiveKept(live0, old(ptr[..]), old(size[..]), ptr[..], size[..])
    {
      FitsSomewhere(j, n);
      hide Booked, Valid, Carve, HasRoom, LiveKept, Grown, Served, PassedTooSmall, Refused, Faults, BreakAfter, SbrkArgument;
      r := TakeFrom(p, prevp, n, j);
      if !grown {
        assert FitAt(r, n, fl0, f, j);
      }
      ServedFit(r, n, was, fl0, live0, owned0, grown, freep0, grant);
    }

    /** The end of a round without success. */
    method GrowRound(n: int, grant: int, ghost was: int, ghost fl0: seq<Blk>, ghost live0: map<int, int>, ghost owned0: set<int>, ghost freep0: int)
      returns (p: int, killed: bool, ghost f: int)
      requires Round(false, n, was, fl0, live0, owned0, freep0, grant) && !HasRoom(fl0, n) && 1 <= n <= Units(UINT - 1) && grant <= top
      modifies this`freep, this`brk, this`fl, this`live, this`owned, this`reach, ptr, size
      ensures p == NULL ==> Served(NULL, killed, n, was, fl0, live0, owned0, freep0, grant)
      ensures p != NULL ==> !killed && Round(true, n, was, fl0, live0, owned0, freep0, grant)
      ensures p != NULL ==> 0 <= f < |fl| && p == freep == fl[f].addr && FitsAhead(fl, Next(fl, f), f, n)
      ensures !killed ==> LiveKept(live0, old(ptr[..]), old(size[..]), ptr[..], size[..])
    {
      hide Booked, Valid, HasRoom, LiveKept, Grown, Served, FitsAhead, Torn, NewEnd, Refused, Faults;
      p, killed, f := Refill(n, grant);
      if p == NULL {
        ServedNot(killed, n, was, fl0, live0, owned0, freep0, grant);
      }
    }

    /** The loop of malloc. */
    method FirstFit(nunits: int, grant: int) returns (r: int, killed: bool)
      requires Valid() && freep != NULL && 1 <= nunits <= Units(UINT - 1) && grant <= top
      modifies this`freep, this`brk, this`fl, this`live, this`owned, this`reach, ptr, size
      ensures Served(r, killed, nunits, old(brk), old(fl), old(live), old(owned), old(freep), grant)
      ensures !killed ==> LiveKept(old(live), old(ptr[..]), old(size[..]), ptr[..], size[..])
    {
      hide Booked, Valid, HasRoom, LiveKept, Grown, Served, Ahead, PassedTooSmall, FitsAhead;
      ghost var live0, p0, s0, fl0, was, owned0, freep0 := live, ptr[..], size[..], fl, brk, owned, freep;
      LiveKeptSame(live, p0, s0);
      Bounds();
      killed := false;
      var prevp := freep;
      ghost var f := RingIndex();
      ghost var j := f;
      ghost var grown := false;
      LinkAt(j);
      RoundStart(fl, f, nunits);
      var p := ptr[prevp];
      j := Next(fl, j);
      assert Round(false, nunits, was, fl0, live0, owned0, freep0, grant);
      hide Round;
      while true
        invariant Round(grown, nunits, was, fl0, live0, owned0, freep0, grant) && !killed
        invariant LiveKept(live0, p0, s0, ptr[..], size[..])
        invariant 0 <= f < |fl| && fl[f].addr == freep && 0 <= j < |fl|
        invariant p == fl[j].addr && prevp == fl[if j > 0 then j - 1 else |fl| - 1].addr
        invariant if grown then FitsAhead(fl, j, f, nunits) else PassedTooSmall(fl, j, f, nunits)
        decreases !grown, Ahead(|fl|, j, f)
      {
        RoundGist(grown, nunits, was, fl0, live0, owned0, freep0, grant);
        LinkAt(j);
        ghost var p1, s1 := ptr[..], size[..];
        if size[p] >= nunits {
          r := TakeHere(p, prevp, nunits, j, grown, was, fl0, live0, owned0, freep0, grant, f);
          LiveKeptThen(live0, p0, s0, p1, s1, ptr[..], size[..]);
          return;
        }
        if p == freep {
          SameIndex(j, f);
          RoundEnd(fl, f, nunits);
          p, killed, f := GrowRound(nunits, grant, was, fl0, live0, owned0, freep0);
          if !killed {
            LiveKeptThen(live0, p0, s0, p1, s1, ptr[..], size[..]);
          }
          if p == NULL {
            return NULL, killed;
          }
          grown := true;
          j := f;
          RoundGist(grown, nunits, was, fl0, live0, owned0, freep0, grant);
          LinkAt(j);
        } else {
          RoundStep(fl, j, f, nunits);
        }
        prevp := p;
        p := ptr[p];
        j := Next(fl, j);
      }
    }

    /** malloc: first fit after freep, round the ring, with one call to morecore if nothing fits.  All is well
        exactly when a free block fits, or less than two gigabytes have to come from sbrk, or sbrk refuses;
        otherwise the process is killed, or the new block starts at the old break and ends above the new one. */
    method Malloc(nbytes: int, grant: int) returns (r: int, killed: bool)
      requires Valid() && 0 <= nbytes < UINT && grant <= top
      modifies this`freep, this`brk, this`fl, this`live, this`owned, this`reach, ptr, size
      ensures !killed && Valid() <==>
        HasRoom(old(fl), Units(nbytes)) || Units(nbytes) * UNIT < UINT / 2 || (!killed && r == NULL)
      ensures !killed ==> Booked() && freep != NULL && Grown(old(owned), old(brk), owned, reach)
      ensures HasRoom(old(fl), Units(nbytes)) ==> r != NULL && reach == old(brk) == brk
      ensures r == NULL && !killed ==> live == old(live) && brk == old(brk) && !HasRoom(fl, Units(nbytes))
      ensures r != NULL ==> !killed && r - 1 !in old(live) && live == old(live)[r - 1 := Units(nbytes)]
      ensures r != NULL && !Valid() ==> r - 1 == old(brk) && brk < r - 1 + Units(nbytes)
      ensures if HasRoom(old(fl), Units(nbytes)) then NextFit(r, Units(nbytes), old(freep), old(fl))
              else Asked(r, killed, Units(nbytes), old(brk), grant)
      ensures !killed ==> LiveKept(old(live), old(ptr[..]), old(size[..]), ptr[..], size[..])
    {
      hide Booked, Valid, HasRoom, LiveKept, Grown, NextFit, Asked;
      ghost var live0, p0, s0 := live, ptr[..], size[..];
      LiveKeptSame(live, p0, s0);
      RequestInRange(nbytes);
      Bounds();
      var nunits := (nbytes + UNIT - 1) / UNIT + 1;
      if freep == NULL {
        NothingYet(nunits);
        InitBase();
        BaseAlone(nunits);
      }
      ghost var p1, s1 := ptr[..], size[..];
      r, killed := FirstFit(nunits, grant);
      if !killed {
        LiveKeptThen(live0, p0, s0, p1, s1, ptr[..], size[..]);
      }
    }

    lemma BaseAlone(n: int)
      requires fl == [Blk(0, 0)] && 1 <= n
      ensures !HasRoom(fl, n)
    {
    }
  }
}
