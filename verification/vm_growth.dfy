/** What a run of page-table code may do to memory, and how such steps add up. */
module PageGrowth {
  import opened PageTree
  import opened PageMemory

  function Count(x: int): int { if x == -1 then 0 else 1 }

  /** Page p has kept its use, has become a table of r or a user page of r in [a, b), or is the spare page x. */
  ghost predicate UseGrown(m0: Mem, m: Mem, r: int, a: int, b: int, x: int, p: int)
    requires InRange(m0, p) && InRange(m, p)
  {
    if p == x then m0.use[p].Free? && m.use[p].Held?
    else
      || (m.use[p] == m0.use[p] && (m0.use[p].Held? || m0.use[p].User? ==> m.fs[p] == m0.fs[p]))
      || (m0.use[p].Free? && m.use[p].Node? && m.use[p].root == r && m.use[p].level < 2)
      || (m0.use[p].Free? && m.use[p].User? && m.use[p].root == r && a <= m.use[p].vpn < b)
  }

  ghost predicate UsesGrown(m0: Mem, m: Mem, r: int, a: int, b: int, x: int)
    requires |m.use| == |m0.use| == |m.fs| == |m0.fs|
  {
    forall p :: InRange(m0, p) ==> UseGrown(m0, m, r, a, b, x, p)
  }

  /** Flat maps are as before outside pages [a, b) of r. */
  ghost predicate MapsBut(m0: Mem, m: Mem, r: int, a: int, b: int) {
    forall r', v' :: IsRoot(m0.use, r') && 0 <= v' < 0x400_0000 && !(r' == r && a <= v' < b) ==>
      Leaf(m.fs, r', v') == Leaf(m0.fs, r', v')
  }

  ghost predicate Unmapped(m: Mem, r: int, a: int, b: int) {
    forall v :: a <= v < b ==> Leaf(m.fs, r, v) == 0
  }

  /** From m0 to m, tables of r and its user pages in [a, b) were made from free pages, page x was taken
      off the free list, and nothing else happened. */
  ghost predicate Grown(lo: int, m0: Mem, m: Mem, r: int, a: int, b: int, x: int) {
    && Inv(lo, m) && SameRoots(m0, m) && IsRoot(m0.use, r)
    && |m.use| == |m0.use| == |m.fs| == |m0.fs| && -1 <= x < |m.use|
    && 0 <= a <= b <= USERTOP && |m.chain| + (b - a) + Count(x) <= |m0.chain|
    && UsesGrown(m0, m, r, a, b, x) && MapsBut(m0, m, r, a, b) && Unmapped(m0, r, a, b)
  }

  lemma InvSizes(lo: int, m: Mem)
    requires Inv(lo, m)
    ensures |m.use| == |m.fs| && 0 < lo <= |m.use|
  {
    hide Threaded, UsersOk, MapsOk, FreeOk;
  }

  lemma GrownStart(lo: int, m: Mem, r: int, a: int)
    requires Inv(lo, m) && IsRoot(m.use, r) && 0 <= a <= USERTOP
    ensures Grown(lo, m, m, r, a, a, -1)
  {
    InvSizes(lo, m);
    hide Inv, Leaf;
  }

  lemma GrownInv(lo: int, m0: Mem, m: Mem, r: int, a: int, b: int, x: int)
    requires Grown(lo, m0, m, r, a, b, x)
    ensures Inv(lo, m) && IsRoot(m.use, r)
  {
    hide Inv, UsesGrown, MapsBut, Unmapped;
  }

  /** One growth after another: first [a, b), then [b, c). */
  lemma GrownThen(lo: int, m0: Mem, m: Mem, m': Mem, r: int, a: int, b: int, c: int, x: int, y: int)
    requires Grown(lo, m0, m, r, a, b, x) && Grown(lo, m, m', r, b, c, y) && (x == -1 || y == -1)
    ensures Grown(lo, m0, m', r, a, c, if x == -1 then y else x)
  {
    hide Inv, Leaf;
    assert SameRoots(m0, m');
    var z := if x == -1 then y else x;
    forall p | InRange(m0, p) ensures UseGrown(m0, m', r, a, c, z, p) {
      assert UseGrown(m0, m, r, a, b, x, p) && UseGrown(m, m', r, b, c, y, p);
      hide SameRoots, UsesGrown, MapsBut, Unmapped;
    }
    hide UseGrown, UsesGrown;
    MapsThen(m0, m, m', r, a, b, c);
  }

  lemma MapsThen(m0: Mem, m: Mem, m': Mem, r: int, a: int, b: int, c: int)
    requires MapsBut(m0, m, r, a, b) && MapsBut(m, m', r, b, c) && SameRoots(m0, m) && 0 <= a <= b <= c <= USERTOP
    requires Unmapped(m0, r, a, b) && Unmapped(m, r, b, c) && IsRoot(m0.use, r)
    ensures MapsBut(m0, m', r, a, c) && Unmapped(m0, r, a, c)
  {
    hide Leaf;
  }

  /** The same growth, told from one page further on. */
  lemma GrownEmpty(lo: int, m0: Mem, m: Mem, r: int, a: int, x: int, b: int)
    requires Grown(lo, m0, m, r, a, a, x) && 0 <= b <= USERTOP
    ensures Grown(lo, m0, m, r, b, b, x)
  {
    hide Inv, Leaf;
  }

  lemma GrownKalloc(lo: int, m0: Mem, m: Mem, r: int, a: int, b: int)
    requires Grown(lo, m0, m, r, a, b, -1) && m.chain != []
    ensures InRange(m, m.chain[0]) && lo <= m.chain[0] && Grown(lo, m0, KallocMem(m), r, a, b, m.chain[0])
    ensures KallocMem(m).use[m.chain[0]].Held? && SameRoots(m, KallocMem(m)) && SameMaps(m, KallocMem(m))
  {
    KallocInv(lo, m);
    InvSizes(lo, m);
    hide Inv, Leaf, Filled;
    var m' := KallocMem(m);
    forall p | InRange(m0, p) ensures UseGrown(m0, m', r, a, b, m.chain[0], p) {
      assert UseGrown(m0, m, r, a, b, -1, p);
    }
  }

  lemma GrownKfree(lo: int, m0: Mem, m: Mem, r: int, a: int, b: int, x: int)
    requires Grown(lo, m0, m, r, a, b, x) && x != -1 && lo <= x
    ensures InRange(m, x) && x !in m.chain && Grown(lo, m0, KfreeMem(m, x), r, a, b, -1)
  {
    assert UseGrown(m0, m, r, a, b, x, x);
    KfreeInv(lo, m, x);
    assert x !in m.chain;
    hide Inv, Leaf, Filled;
    var m' := KfreeMem(m, x);
    forall p | InRange(m0, p) ensures UseGrown(m0, m', r, a, b, -1, p) {
      assert UseGrown(m0, m, r, a, b, x, p);
    }
  }

  lemma GrownFill(lo: int, m0: Mem, m: Mem, r: int, a: int, b: int, x: int, f: Frame)
    requires Grown(lo, m0, m, r, a, b, x) && x != -1
    ensures InRange(m, x) && Grown(lo, m0, Fill(m, x, f), r, a, b, x)
    ensures m.use[x].Held? && SameMaps(m, Fill(m, x, f)) && SameRoots(m, Fill(m, x, f))
  {
    assert UseGrown(m0, m, r, a, b, x, x);
    FillInv(lo, m, x, f);
    hide Inv, Leaf, Filled;
    var m' := Fill(m, x, f);
    forall p | InRange(m0, p) ensures UseGrown(m0, m', r, a, b, x, p) {
      assert UseGrown(m0, m, r, a, b, x, p);
    }
  }

  lemma GrownTable(lo: int, m0: Mem, m: Mem, r: int, a: int, b: int, n: int, i: int, x: int)
    requires Grown(lo, m0, m, r, a, b, x) && x != -1 && lo <= x && Zeros(m.fs[x])
    requires InRange(m, n) && m.use[n].Node? && m.use[n].root == r && m.use[n].level > 0 && 0 <= i < 512 && Entry(m.fs, n, i) == 0
    requires m.use[n].level == 2 ==> i < 256
    ensures m.fs[n].Table? && |m.fs[n].ptes| == 512 && InRange(m, x) && Grown(lo, m0, AddTable(m, n, i, x), r, a, b, -1)
  {
    assert UseGrown(m0, m, r, a, b, x, x);
    AddTableInv(lo, m, n, i, x);
    hide Inv, Leaf, Filled, Zeros;
    var m' := AddTable(m, n, i, x);
    forall p | InRange(m0, p) ensures UseGrown(m0, m', r, a, b, -1, p) {
      assert UseGrown(m0, m, r, a, b, x, p);
    }
  }

  // ----- Mapping a range -----

  /** PTE_FLAGS of `perm | PTE_V`. */
  function WithV(perm: int): int { if V(perm) then perm else perm + 1 }

  predicate Perm(perm: int) { 0 <= perm < 1024 && RWX(perm) }

  function EntryFor(ppn: int, perm: int): int { ppn * 1024 + WithV(perm) }

  lemma EntryForOk(ppn: int, perm: int)
    requires Perm(perm) && 0 <= ppn
    ensures LeafOk(EntryFor(ppn, perm)) && Ppn(EntryFor(ppn, perm)) == ppn
    ensures WithV(perm) < 1024 && EntryFor(ppn, perm) % 1024 == WithV(perm)
  {
    WithVFlags(perm);
    hide V, RWX, WithV, Ppn;
    EntryFlags(ppn, WithV(perm), EntryFor(ppn, perm));
  }

  lemma WithVFlags(perm: int)
    requires Perm(perm)
    ensures 0 < WithV(perm) < 1024 && V(WithV(perm)) && RWX(WithV(perm))
  {
    var half := perm / 2;
    assert perm == 2 * half + perm % 2;
    assert WithV(perm) == 2 * half + 1;
    HalfOf(half, 1);
  }

  /** Page p has gone to r at v0 + (p - p0), has become a table of r, or is as before. */
  ghost predicate UseMapped(m0: Mem, m: Mem, r: int, v0: int, k: int, p0: int, p: int)
    requires InRange(m0, p) && InRange(m, p)
  {
    if p0 <= p < p0 + k && v0 + (p - p0) < USERTOP then m0.use[p].Held? && m.use[p] == User(r, v0 + (p - p0)) && m.fs[p] == m0.fs[p]
    else
      || (m.use[p] == m0.use[p] && (m0.use[p].Held? || m0.use[p].User? ==> m.fs[p] == m0.fs[p]))
      || (m0.use[p].Free? && m.use[p].Node? && m.use[p].root == r && m.use[p].level < 2)
  }

  ghost predicate UsesMapped(m0: Mem, m: Mem, r: int, v0: int, k: int, p0: int)
    requires |m.use| == |m0.use| == |m.fs| == |m0.fs|
  {
    forall p :: InRange(m0, p) ==> UseMapped(m0, m, r, v0, k, p0, p)
  }

  ghost predicate MapsAdded(m0: Mem, m: Mem, r: int, v0: int, k: int, p0: int, perm: int) {
    forall r', v' :: IsRoot(m0.use, r') && 0 <= v' < 0x400_0000 ==>
      Leaf(m.fs, r', v') == if r' == r && v0 <= v' < v0 + k then EntryFor(p0 + (v' - v0), perm) else Leaf(m0.fs, r', v')
  }

  /** Pages v0 .. v0 + k of r are mapped to the physical pages from p0 on, and nothing else changed but new tables. */
  ghost predicate Mapped(lo: int, m0: Mem, m: Mem, r: int, v0: int, k: int, p0: int, perm: int) {
    && Inv(lo, m) && SameRoots(m0, m) && IsRoot(m0.use, r)
    && |m.use| == |m0.use| == |m.fs| == |m0.fs| && 0 <= k && |m.chain| <= |m0.chain|
    && UsesMapped(m0, m, r, v0, k, p0) && MapsAdded(m0, m, r, v0, k, p0, perm)
  }

  lemma MappedStart(lo: int, m: Mem, r: int, v0: int, p0: int, perm: int)
    requires Inv(lo, m) && IsRoot(m.use, r)
    ensures Mapped(lo, m, m, r, v0, 0, p0, perm)
  {
    InvSizes(lo, m);
    hide Inv, Leaf;
  }

  lemma MappedGrown(lo: int, m0: Mem, m: Mem, m': Mem, r: int, v0: int, k: int, p0: int, perm: int)
    requires Mapped(lo, m0, m, r, v0, k, p0, perm) && Grown(lo, m, m', r, 0, 0, -1)
    ensures Mapped(lo, m0, m', r, v0, k, p0, perm)
  {
    hide Inv, Leaf, EntryFor;
    forall p | InRange(m0, p) ensures UseMapped(m0, m', r, v0, k, p0, p) {
      assert UseMapped(m0, m, r, v0, k, p0, p) && UseGrown(m, m', r, 0, 0, -1, p);
      hide SameRoots, UsesGrown, UsesMapped, MapsBut, MapsAdded, Unmapped;
    }
    hide UseMapped, UseGrown, UsesGrown;
  }

  lemma MappedMore(lo: int, m0: Mem, m: Mem, r: int, v0: int, k: int, p0: int, perm: int, v: int, n: int, q: int)
    requires Mapped(lo, m0, m, r, v0, k, p0, perm) && Perm(perm) && v == v0 + k && q == p0 + k && 0 <= q && 0 <= v0
    requires 0 <= v < 0x400_0000 && EntryOf(m, n, r, v) && Leaf(m.fs, r, v) == 0
    requires v < USERTOP ==> InRange(m0, q) && lo <= q && m0.use[q].Held? && IsPage(m0.fs[q])
    ensures m.fs[n].Table? && |m.fs[n].ptes| == 512
    ensures v < USERTOP ==>
              Mapped(lo, m0, SetPage(m, n, v % 512, EntryFor(q, perm), q, User(r, v)), r, v0, k + 1, p0, perm)
    ensures v >= USERTOP ==>
              Mapped(lo, m0, SetPage(m, n, v % 512, EntryFor(q, perm), -1, Held), r, v0, k + 1, p0, perm)
  {
    EntryForOk(q, perm);
    if v < USERTOP {
      assert UseMapped(m0, m, r, v0, k, p0, q);
      MapUserInv(lo, m, n, r, v, EntryFor(q, perm));
      SetMapped(lo, m0, m, SetPage(m, n, v % 512, EntryFor(q, perm), q, User(r, v)), r, v0, k, p0, perm, v, n, q);
    } else {
      MapTopInv(lo, m, n, r, v, EntryFor(q, perm));
      SetMapped(lo, m0, m, SetPage(m, n, v % 512, EntryFor(q, perm), -1, Held), r, v0, k, p0, perm, v, n, q);
    }
  }

  lemma SetMapped(lo: int, m0: Mem, m: Mem, m': Mem, r: int, v0: int, k: int, p0: int, perm: int, v: int, n: int, q: int)
    requires Mapped(lo, m0, m, r, v0, k, p0, perm) && v == v0 + k && q == p0 + k && 0 <= v0
    requires Inv(lo, m') && SameRoots(m, m') && LeafSet(m.fs, m'.fs, m.use, r, v, EntryFor(q, perm))
    requires InRange(m, n) && m.use[n].Node? && |m'.fs| == |m.fs| && m'.chain == m.chain
    requires forall p :: InRange(m, p) && p != n ==> m'.fs[p] == m.fs[p]
    requires v < USERTOP ==> InRange(m, q) && m'.use == m.use[q := User(r, v)] && m0.use[q].Held?
    requires v >= USERTOP ==> m'.use == m.use
    ensures Mapped(lo, m0, m', r, v0, k + 1, p0, perm)
  {
    hide Inv, Leaf, EntryFor;
    assert SameRoots(m0, m');
    forall p | InRange(m0, p) ensures UseMapped(m0, m', r, v0, k + 1, p0, p) {
      assert UseMapped(m0, m, r, v0, k, p0, p);
      hide SameRoots, UsesMapped, MapsAdded;
    }
    hide UseMapped, UsesMapped;
  }

  lemma MappedNothing(lo: int, m: Mem, m': Mem, r: int, v0: int, p0: int, perm: int)
    requires Mapped(lo, m, m', r, v0, 0, p0, perm)
    ensures Grown(lo, m, m', r, 0, 0, -1)
  {
    hide Inv, Leaf, EntryFor;
    forall p | InRange(m, p) ensures UseGrown(m, m', r, 0, 0, -1, p) {
      assert UseMapped(m, m', r, v0, 0, p0, p);
    }
  }

  /** The spare page x is mapped at b. */
  lemma GrownMapped(lo: int, m0: Mem, m: Mem, m': Mem, r: int, a: int, b: int, x: int, perm: int)
    requires Grown(lo, m0, m, r, a, b, x) && x != -1 && Mapped(lo, m, m', r, b, 1, x, perm)
    requires b < USERTOP && Leaf(m0.fs, r, b) == 0
    ensures Grown(lo, m0, m', r, a, b + 1, -1)
  {
    hide Inv, Leaf, EntryFor;
    assert SameRoots(m0, m');
    forall p | InRange(m0, p) ensures UseGrown(m0, m', r, a, b + 1, -1, p) {
      assert UseGrown(m0, m, r, a, b, x, p) && UseMapped(m, m', r, b, 1, x, p);
      hide SameRoots, UsesGrown, UsesMapped, MapsBut, MapsAdded, Unmapped;
    }
    hide UseGrown, UseMapped, UsesMapped;
  }

  // ----- Unmapping a range -----

  predicate IsUser(u: Use, r: int, a: int, b: int) { u.User? && u.root == r && a <= u.vpn < b }

  ghost predicate UseCleared(m0: Mem, m: Mem, r: int, a: int, b: int, p: int)
    requires InRange(m0, p) && InRange(m, p)
  {
    if IsUser(m0.use[p], r, a, b) then m.use[p].Free?
    else m.use[p] == m0.use[p] && (m0.use[p].Held? || m0.use[p].User? ==> m.fs[p] == m0.fs[p])
  }

  ghost predicate UsesCleared(m0: Mem, m: Mem, r: int, a: int, b: int)
    requires |m.use| == |m0.use| == |m.fs| == |m0.fs|
  {
    forall p :: InRange(m0, p) ==> UseCleared(m0, m, r, a, b, p)
  }

  /** Pages [a, b) of r are unmapped, their user pages free, and nothing else changed. */
  ghost predicate Cleared(lo: int, m0: Mem, m: Mem, r: int, a: int, b: int) {
    && Inv(lo, m) && SameRoots(m0, m) && IsRoot(m0.use, r)
    && |m.use| == |m0.use| == |m.fs| == |m0.fs| && 0 <= a <= b <= VPAGES
    && |m.chain| == |m0.chain| + (if b <= USERTOP then b - a else 0)
    && UsesCleared(m0, m, r, a, b) && MapsBut(m0, m, r, a, b) && Unmapped(m, r, a, b)
  }

  lemma ClearedStart(lo: int, m: Mem, r: int, a: int)
    requires Inv(lo, m) && IsRoot(m.use, r) && 0 <= a <= VPAGES
    ensures Cleared(lo, m, m, r, a, a)
  {
    InvSizes(lo, m);
    hide Inv, Leaf;
  }

  /** kfree(PTE2PA(*pte)); *pte = 0. */
  ghost function ClearPage(m: Mem, n: int, i: int, q: int): Mem
    requires InRange(m, n) && InRange(m, q) && n != q && m.fs[n].Table? && 0 <= i < |m.fs[n].ptes|
  {
    var f := KfreeMem(m, q);
    f.(fs := SetEntry(f.fs, n, i, 0))
  }

  lemma ClearedMore(lo: int, m0: Mem, m: Mem, r: int, a: int, b: int, n: int)
    requires Cleared(lo, m0, m, r, a, b) && b < USERTOP && EntryOf(m, n, r, b) && Leaf(m.fs, r, b) != 0
    ensures m.fs[n].Table? && |m.fs[n].ptes| == 512
    ensures var q := Ppn(Leaf(m.fs, r, b));
            InRange(m, q) && lo <= q && q != n && q !in m.chain && Cleared(lo, m0, ClearPage(m, n, b % 512, q), r, a, b + 1)
  {
    hide Cleared, Inv, Leaf;
    ClearedInv(lo, m0, m, r, a, b);
    PageFreed(lo, m, n, r, b);
    ClearedOne(lo, m0, m, ClearPage(m, n, b % 512, Ppn(Leaf(m.fs, r, b))), r, a, b, Ppn(Leaf(m.fs, r, b)), n);
  }

  lemma ClearedInv(lo: int, m0: Mem, m: Mem, r: int, a: int, b: int)
    requires Cleared(lo, m0, m, r, a, b)
    ensures Inv(lo, m) && 0 <= a <= b
  {
    hide Inv, Leaf;
  }

  /** One user page of r goes back to the free list. */
  lemma PageFreed(lo: int, m: Mem, n: int, r: int, b: int)
    requires Inv(lo, m) && 0 <= b < USERTOP && EntryOf(m, n, r, b) && Leaf(m.fs, r, b) != 0
    ensures m.fs[n].Table? && |m.fs[n].ptes| == 512 && InRange(m, n) && m.use[n].Node?
    ensures var q := Ppn(Leaf(m.fs, r, b));
            && InRange(m, q) && lo <= q && q != n && q !in m.chain && m.use[q] == User(r, b)
            && var m' := ClearPage(m, n, b % 512, q);
            && Inv(lo, m') && SameRoots(m, m') && m'.use == m.use[q := Free] && |m'.fs| == |m.fs| && |m'.chain| == |m.chain| + 1
            && (forall p :: InRange(m, p) && p != n && p != q ==> m'.fs[p] == m.fs[p])
            && (forall r', v' :: IsRoot(m.use, r') && 0 <= v' < 0x400_0000 ==>
                 Leaf(m'.fs, r', v') == if r' == r && v' == b then 0 else Leaf(m.fs, r', v'))
    ensures forall p :: InRange(m, p) && m.use[p] == User(r, b) ==> p == Ppn(Leaf(m.fs, r, b))
  {
    UserPlaces(lo, m, r, b);
    UnmapUserInv(lo, m, n, r, b);
    var q := Ppn(Leaf(m.fs, r, b));
    var mid := SetPage(m, n, b % 512, 0, q, Held);
    InvSizes(lo, m);
    hide Inv, Leaf;
    KfreeInv(lo, mid, q);
    NotListed(lo, mid, q);
    var m' := KfreeMem(mid, q);
    assert m' == ClearPage(m, n, b % 512, q) by {
      assert m'.fs == ClearPage(m, n, b % 512, q).fs;
    }
  }

  lemma UserPlaces(lo: int, m: Mem, r: int, b: int)
    requires Inv(lo, m) && 0 <= b < USERTOP
    ensures forall p :: InRange(m, p) && m.use[p] == User(r, b) ==> p == Ppn(Leaf(m.fs, r, b))
  {
    forall p | InRange(m, p) && m.use[p] == User(r, b) ensures p == Ppn(Leaf(m.fs, r, b)) {
      assert UserOk(m, p);
    }
    hide Leaf, Tree, Threaded;
  }

  lemma NotListed(lo: int, m: Mem, q: int)
    requires Inv(lo, m) && InRange(m, q) && !m.use[q].Free?
    ensures q !in m.chain
  {
    hide Leaf, Tree, Threaded, MapsOk, UsersOk;
  }

  lemma ClearedOne(lo: int, m0: Mem, m: Mem, m': Mem, r: int, a: int, b: int, q: int, n: int)
    requires Cleared(lo, m0, m, r, a, b) && b < USERTOP && InRange(m, q) && m.use[q] == User(r, b) && InRange(m, n) && m.use[n].Node?
    requires Inv(lo, m') && SameRoots(m, m') && m'.use == m.use[q := Free] && |m'.fs| == |m.fs| && |m'.chain| == |m.chain| + 1
    requires forall p :: InRange(m, p) && p != n && p != q ==> m'.fs[p] == m.fs[p]
    requires forall r', v' :: IsRoot(m.use, r') && 0 <= v' < 0x400_0000 ==>
      Leaf(m'.fs, r', v') == if r' == r && v' == b then 0 else Leaf(m.fs, r', v')
    requires forall p :: InRange(m, p) && m.use[p] == User(r, b) ==> p == q
    ensures Cleared(lo, m0, m', r, a, b + 1)
  {
    hide Inv, Leaf;
    assert SameRoots(m0, m');
    forall p | InRange(m0, p) ensures UseCleared(m0, m', r, a, b + 1, p) {
      assert UseCleared(m0, m, r, a, b, p);
      hide SameRoots, UsesCleared, MapsBut, Unmapped;
    }
    hide UseCleared, UsesCleared;
  }

  lemma ClearedTop(lo: int, m0: Mem, m: Mem, r: int, a: int, b: int, n: int)
    requires Cleared(lo, m0, m, r, a, b) && USERTOP <= a && b < VPAGES && EntryOf(m, n, r, b)
    ensures m.fs[n].Table? && |m.fs[n].ptes| == 512
    ensures Cleared(lo, m0, SetPage(m, n, b % 512, 0, -1, Held), r, a, b + 1)
  {
    MapTopInv(lo, m, n, r, b, 0);
    var m' := SetPage(m, n, b % 512, 0, -1, Held);
    hide Inv, Leaf;
    assert SameRoots(m0, m');
    forall p | InRange(m0, p) ensures UseCleared(m0, m', r, a, b + 1, p) {
      assert UseCleared(m0, m, r, a, b, p);
    }
  }

  /** Unmapping all the new pages again leaves nothing but new tables. */
  lemma GrownCleared(lo: int, m0: Mem, m: Mem, m': Mem, r: int, a: int, b: int)
    requires Inv(lo, m0) && Grown(lo, m0, m, r, a, b, -1) && Cleared(lo, m, m', r, a, b)
    ensures Grown(lo, m0, m', r, a, a, -1)
  {
    forall p | InRange(m0, p) && m0.use[p].User? ensures !IsUser(m0.use[p], r, a, b) {
      assert UserOk(m0, p);
      hide Leaf;
    }
    hide Inv, Leaf;
    assert SameRoots(m0, m');
    forall p | InRange(m0, p) ensures UseGrown(m0, m', r, a, a, -1, p) {
      assert UseGrown(m0, m, r, a, b, -1, p) && UseCleared(m, m', r, a, b, p);
    }
    hide UseGrown, UseCleared, UsesCleared;
  }
}
