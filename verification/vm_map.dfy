/** Mapping and unmapping ranges, and growing, shrinking and copying user memory: the loops of kernel/vm.c. */
module VmMap {
  import opened PageTree
  import opened PageMemory
  import opened PageGrowth
  import opened PageCount
  import opened Vm

  /** The physical pages [p0, p0 + n) may be mapped from v0 on: those that become user memory are whole
      pages held by the kernel. */
  ghost predicate Giveable(lo: int, m: Mem, v0: int, n: int, p0: int) {
    0 <= p0 && forall q :: p0 <= q < p0 + n && v0 + (q - p0) < USERTOP ==> HeldPage(lo, m, q)
  }

  ghost predicate HeldPage(lo: int, m: Mem, p: int) {
    InRange(m, p) && lo <= p && m.use[p].Held? && IsPage(m.fs[p])
  }

  /** One turn of the loop of mappages. */
  method MapOne(mc: Machine, ghost m0: Mem, r: int, ghost v0: int, ghost k: int, ghost p0: int, perm: int, v: int, q: int)
    returns (ok: bool)
    requires mc.Valid() && Mapped(mc.lo, m0, mc.Now(), r, v0, k, p0, perm) && Perm(perm)
    requires 0 <= v0 && v == v0 + k && q == p0 + k && 0 <= q && 0 <= v < VPAGES && Leaf(m0.fs, r, v) == 0
    requires v < USERTOP ==> HeldPage(mc.lo, m0, q)
    modifies mc`frames, mc`freelist, mc`use, mc`chain
    ensures mc.Valid() && Mapped(mc.lo, m0, mc.Now(), r, v0, if ok then k + 1 else k, p0, perm)
    ensures !ok ==> mc.chain == []
    ensures Afforded(old(mc.Now()), mc.Now(), r, v, v + 1, 0, ok)
  {
    hide Inv, Mapped, Grown, Leaf, EntryFor, Afforded, SameNodes, Perm, HeldPage, EntryOf;
    ghost var m := mc.Now();
    MappedLeaf(mc.lo, m0, m, r, v0, k, p0, perm, v);
    PageBytes(v);
    var n, i;
    ok, n, i := mc.Walk(r, v * 4096, true);
    MappedGrown(mc.lo, m0, m, mc.Now(), r, v0, k, p0, perm);
    if !ok {
      return;
    }
    ghost var m1 := mc.Now();
    WriteEntry(mc, m0, r, v0, k, p0, perm, v, q, n, i);
    AffordedSame(m, m1, mc.Now(), r, v, v + 1, 0, true);
  }

  /** *pte = PA2PTE(pa) | perm | PTE_V. */
  method WriteEntry(mc: Machine, ghost m0: Mem, r: int, ghost v0: int, ghost k: int, ghost p0: int, perm: int, v: int, q: int, n: int, i: int)
    requires mc.Valid() && Mapped(mc.lo, m0, mc.Now(), r, v0, k, p0, perm) && Perm(perm)
    requires 0 <= v0 && v == v0 + k && q == p0 + k && 0 <= q && 0 <= v < VPAGES && Leaf(m0.fs, r, v) == 0
    requires v < USERTOP ==> HeldPage(mc.lo, m0, q)
    requires EntryOf(mc.Now(), n, r, v) && i == v % 512
    modifies mc`frames, mc`use
    ensures mc.Valid() && Mapped(mc.lo, m0, mc.Now(), r, v0, k + 1, p0, perm) && SameNodes(old(mc.use), mc.use)
  {
    hide Inv, Grown, Leaf, EntryFor, PageGrowth.Mapped, Perm, SameNodes, LeafOk;
    ghost var m := mc.Now();
    MappedLeaf(mc.lo, m0, m, r, v0, k, p0, perm, v);
    MappedMore(mc.lo, m0, m, r, v0, k, p0, perm, v, n, q);
    EntryNotV(mc.lo, m, r, v, n);
    MappedSize(mc.lo, m0, m, r, v0, k, p0, perm);
    HeldStill(mc.lo, m0, m, r, v0, k, p0, perm, v, q);
    assert !V(mc.frames[n].ptes[i]);
    mc.frames := SetEntry(mc.frames, n, i, EntryFor(q, perm));
    if v < USERTOP {
      mc.use := mc.use[q := User(r, v)];
    }
    MappedInv(mc.lo, m0, mc.Now(), r, v0, k + 1, p0, perm);
  }

  /** The page to be mapped next is not a table. */
  lemma HeldStill(lo: int, m0: Mem, m: Mem, r: int, v0: int, k: int, p0: int, perm: int, v: int, q: int)
    requires Mapped(lo, m0, m, r, v0, k, p0, perm) && v == v0 + k && q == p0 + k && (v < USERTOP ==> HeldPage(lo, m0, q))
    ensures SameNodes(m.use, m.use) && (v < USERTOP ==> InRange(m, q) && SameNodes(m.use, m.use[q := User(r, v)]))
  {
    if v < USERTOP {
      assert UseMapped(m0, m, r, v0, k, p0, q);
    }
    hide Inv, MapsAdded;
  }

  lemma MappedInv(lo: int, m0: Mem, m: Mem, r: int, v0: int, k: int, p0: int, perm: int)
    requires Mapped(lo, m0, m, r, v0, k, p0, perm)
    ensures Inv(lo, m)
  {
  }

  /** The "remap" panic cannot happen. */
  lemma EntryNotV(lo: int, m: Mem, r: int, v: int, n: int)
    requires Inv(lo, m) && 0 <= v < VPAGES && EntryOf(m, n, r, v) && Leaf(m.fs, r, v) == 0
    ensures m.fs[n].Table? && |m.fs[n].ptes| == 512 && m.fs[n].ptes[v % 512] == 0
  {
    LowestReached(m.fs, m.use, n, v);
    assert NodeOk(m.fs, m.use, n);
    hide Tree, Threaded, FreeOk, UsersOk, MapsOk;
  }

  lemma MappedLeaf(lo: int, m0: Mem, m: Mem, r: int, v0: int, k: int, p0: int, perm: int, v: int)
    requires Mapped(lo, m0, m, r, v0, k, p0, perm) && v == v0 + k && 0 <= v < VPAGES
    ensures Leaf(m.fs, r, v) == Leaf(m0.fs, r, v) && IsRoot(m.use, r)
  {
    hide Inv, UsesMapped, Leaf, EntryFor;
  }

  lemma MappedSize(lo: int, m0: Mem, m: Mem, r: int, v0: int, k: int, p0: int, perm: int)
    requires Mapped(lo, m0, m, r, v0, k, p0, perm)
    ensures |m.use| == |m0.use| == |m.fs|
  {
    hide Inv, UsesMapped, MapsAdded;
  }

  /** mappages: pages va .. va + size to the physical pages from pa on; a failure leaves the first k mapped. */
  method Mappages(mc: Machine, r: int, va: int, size: int, pa: int, perm: int) returns (ret: int, ghost k: int)
    requires mc.Valid() && IsRoot(mc.use, r) && 0 <= va && 0 < size && va + size <= MAXVA && Perm(perm) && 0 <= pa
    requires forall v :: va / 4096 <= v <= (va + size - 1) / 4096 ==> Leaf(mc.frames, r, v) == 0
    requires Giveable(mc.lo, mc.Now(), va / 4096, (va + size - 1) / 4096 - va / 4096 + 1, pa / 4096)
    modifies mc`frames, mc`freelist, mc`use, mc`chain
    ensures mc.Valid() && Mapped(mc.lo, old(mc.Now()), mc.Now(), r, va / 4096, k, pa / 4096, perm)
    ensures ret == 0 || ret == -1
    ensures ret == 0 ==> k == (va + size - 1) / 4096 - va / 4096 + 1
    ensures ret == -1 ==> 0 <= k <= (va + size - 1) / 4096 - va / 4096 && mc.chain == []
    ensures Afforded(old(mc.Now()), mc.Now(), r, va / 4096, (va + size - 1) / 4096 + 1, 0, ret == 0)
  {
    hide Inv, Mapped, Leaf, Billed, Tables, Afforded, Perm, HeldPage;
    ghost var m0 := mc.Now();
    var a := va / 4096;
    var last := (va + size - 1) / 4096;
    var q := pa / 4096;
    ghost var v0, p0, n := a, q, last - a + 1;
    assert 0 <= a <= last < VPAGES;
    MappedStart(mc.lo, m0, r, v0, p0, perm);
    BilledStart(m0, r, v0);
    k := 0;
    while true
      invariant mc.Valid() && Mapped(mc.lo, m0, mc.Now(), r, v0, k, p0, perm)
      invariant 0 <= k < n && a == v0 + k && q == p0 + k && Billed(m0, mc.Now(), r, v0, a, 0)
      decreases n - k
    {
      ghost var m := mc.Now();
      var ok := MapOne(mc, m0, r, v0, k, p0, perm, a, q);
      AffordedThen(m0, m, mc.Now(), r, v0, a, last + 1, 0, 0, 0, ok);
      if !ok {
        return -1, k;
      }
      k := k + 1;
      if a == last {
        break;
      }
      a := a + 1;
      q := q + 1;
    }
    AffordedAll(m0, mc.Now(), r, v0, last + 1, 0);
    ret := 0;
  }

  lemma PageBytes(v: int)
    ensures v * 4096 / 4096 == v && v * 4096 % 4096 == 0 && (v * 4096 + 4096 - 1) / 4096 == v
  {
  }

  /** mappages of one page. */
  method MapPage(mc: Machine, r: int, v: int, p: int, perm: int) returns (ret: int, ghost k: int)
    requires mc.Valid() && IsRoot(mc.use, r) && 0 <= v < VPAGES && 0 <= p && Perm(perm) && Leaf(mc.frames, r, v) == 0
    requires Giveable(mc.lo, mc.Now(), v, 1, p)
    modifies mc`frames, mc`freelist, mc`use, mc`chain
    ensures mc.Valid() && Mapped(mc.lo, old(mc.Now()), mc.Now(), r, v, k, p, perm)
    ensures (ret == 0 && k == 1) || (ret == -1 && k == 0 && mc.chain == [])
    ensures Afforded(old(mc.Now()), mc.Now(), r, v, v + 1, 0, ret == 0)
  {
    hide Inv, Mapped, Leaf, Afforded, Giveable, Perm;
    PageBytes(v);
    PageBytes(p);
    ret, k := Mappages(mc, r, v * 4096, 4096, p * 4096, perm);
  }

  // ----- uvmunmap and uvmdealloc -----

  /** One turn of the loop of uvmunmap. */
  method UnmapOne(mc: Machine, ghost m0: Mem, r: int, ghost a0: int, a: int, doFree: bool)
    requires mc.Valid() && Cleared(mc.lo, m0, mc.Now(), r, a0, a) && 0 <= a < VPAGES
    requires if doFree then a < USERTOP else USERTOP <= a0
    requires Leaf(mc.frames, r, a) != 0 && IsRoot(mc.use, r)
    modifies mc`frames, mc`freelist, mc`use, mc`chain
    ensures mc.Valid() && Cleared(mc.lo, m0, mc.Now(), r, a0, a + 1)
  {
    ghost var m := mc.Now();
    hide Inv, Grown, Leaf, Cleared;
    var ok, n, i := mc.Walk(r, a * 4096, false);
    assert a * 4096 / 4096 == a;
    assert ok;
    EntryThere(mc.lo, m, r, a, n);
    var pte := mc.frames[n].ptes[i];
    assert V(pte) && pte % 1024 != 1;
    if doFree {
      ClearedMore(mc.lo, m0, m, r, a0, a, n);
      var pa := Ppn(pte) * 4096;
      assert pa / 4096 == Ppn(pte) && pa % 4096 == 0;
      InvSizes(mc.lo, m);
      mc.Kfree(pa);
      mc.frames := SetEntry(mc.frames, n, i, 0);
    } else {
      ClearedTop(mc.lo, m0, m, r, a0, a, n);
      mc.frames := SetEntry(mc.frames, n, i, 0);
    }
  }

  /** None of the panics "walk", "not mapped" and "not a leaf" can happen. */
  lemma EntryThere(lo: int, m: Mem, r: int, v: int, n: int)
    requires Inv(lo, m) && 0 <= v < VPAGES && EntryOf(m, n, r, v) && Leaf(m.fs, r, v) != 0
    ensures m.fs[n].Table? && |m.fs[n].ptes| == 512 && m.fs[n].ptes[v % 512] == Leaf(m.fs, r, v)
    ensures V(Leaf(m.fs, r, v)) && Leaf(m.fs, r, v) % 1024 != 1
  {
    LowestReached(m.fs, m.use, n, v);
    assert NodeOk(m.fs, m.use, n) && EntryOk(m.fs, m.use, n, v % 512);
    NotPlainV(Leaf(m.fs, r, v));
    hide Tree, Threaded, FreeOk, UsersOk, MapsOk;
  }

  lemma NotPlainV(e: int)
    requires LeafOk(e)
    ensures V(e) && e % 1024 != 1
  {
  }

  lemma ClearedLeaf(lo: int, m0: Mem, m: Mem, r: int, a0: int, a: int)
    requires Cleared(lo, m0, m, r, a0, a) && 0 <= a < VPAGES
    ensures Leaf(m.fs, r, a) == Leaf(m0.fs, r, a) && IsRoot(m.use, r)
  {
    hide Inv, UsesCleared, Leaf;
  }

  /** uvmunmap. */
  method Uvmunmap(mc: Machine, r: int, va: int, npages: int, doFree: bool)
    requires mc.Valid() && IsRoot(mc.use, r) && 0 <= va && va % 4096 == 0 && 0 <= npages
    requires if doFree then va / 4096 + npages <= USERTOP else USERTOP <= va / 4096 && va / 4096 + npages <= VPAGES
    requires forall v :: va / 4096 <= v < va / 4096 + npages ==> Leaf(mc.frames, r, v) != 0
    modifies mc`frames, mc`freelist, mc`use, mc`chain
    ensures mc.Valid() && Cleared(mc.lo, old(mc.Now()), mc.Now(), r, va / 4096, va / 4096 + npages)
  {
    ghost var m0 := mc.Now();
    ClearedStart(mc.lo, m0, r, va / 4096);
    hide Inv, Cleared, Leaf;
    var a := va / 4096;
    while a < va / 4096 + npages
      invariant va / 4096 <= a <= va / 4096 + npages
      invariant mc.Valid() && Cleared(mc.lo, m0, mc.Now(), r, va / 4096, a)
    {
      ClearedLeaf(mc.lo, m0, mc.Now(), r, va / 4096, a);
      UnmapOne(mc, m0, r, va / 4096, a, doFree);
      a := a + 1;
    }
  }

  /** uvmdealloc. */
  method Uvmdealloc(mc: Machine, r: int, oldsz: int, newsz: int) returns (sz: int)
    requires mc.Valid() && IsRoot(mc.use, r) && 0 <= newsz
    requires newsz < oldsz ==> PagesOf(oldsz) <= USERTOP
    requires newsz < oldsz ==> forall v :: PagesOf(newsz) <= v < PagesOf(oldsz) ==> Leaf(mc.frames, r, v) != 0
    modifies mc`frames, mc`freelist, mc`use, mc`chain
    ensures mc.Valid() && sz == if newsz < oldsz then newsz else oldsz
    ensures newsz < oldsz ==> Cleared(mc.lo, old(mc.Now()), mc.Now(), r, PagesOf(newsz), PagesOf(oldsz))
    ensures newsz >= oldsz ==> mc.Now() == old(mc.Now())
  {
    if newsz >= oldsz {
      return oldsz;
    }
    ClearedStart(mc.lo, mc.Now(), r, PagesOf(newsz));
    hide Inv, Cleared, Leaf;
    if PagesOf(newsz) < PagesOf(oldsz) {
      var npages := PagesOf(oldsz) - PagesOf(newsz);
      assert PagesOf(newsz) * 4096 / 4096 == PagesOf(newsz) && PagesOf(newsz) * 4096 % 4096 == 0;
      Uvmunmap(mc, r, PagesOf(newsz) * 4096, npages, true);
    }
    sz := newsz;
  }

  // ----- uvmalloc and uvmcopy -----

  /** Page v of r is mapped with these flags and holds these bytes. */
  ghost predicate PageIs(m: Mem, r: int, v: int, flags: int, bytes: seq<bv8>) {
    var e := Leaf(m.fs, r, v);
    e != 0 && e % 1024 == flags && 0 <= Ppn(e) < |m.fs| && m.fs[Ppn(e)] == Data(bytes)
  }

  lemma SpareHeld(lo: int, m0: Mem, m: Mem, r: int, a: int, b: int, x: int)
    requires Inv(lo, m0) && Grown(lo, m0, m, r, a, b, x) && x != -1
    ensures InRange(m, x) && lo <= x && m.use[x].Held? && |m.fs| == |m.use| == |m0.use| && IsRoot(m.use, r)
    ensures b < USERTOP ==> Leaf(m.fs, r, b) == Leaf(m0.fs, r, b)
  {
    assert UseGrown(m0, m, r, a, b, x, x);
    hide Leaf, UsesMapped, Tree, Threaded, FreeOk, UsersOk, MapsOk;
  }

  lemma MappedPage(lo: int, m: Mem, m': Mem, r: int, v: int, x: int, perm: int, bytes: seq<bv8>)
    requires Mapped(lo, m, m', r, v, 1, x, perm) && Perm(perm) && InRange(m, x) && m.fs[x] == Data(bytes) && 0 <= v < USERTOP
    ensures PageIs(m', r, v, WithV(perm), bytes)
  {
    EntryForOk(x, perm);
    assert UseMapped(m, m', r, v, 1, x, x);
    hide Inv, Leaf, EntryFor, WithV;
  }

  /** The end of a turn of both loops: the new page x is mapped at v, or given back. */
  method MapNew(mc: Machine, ghost m0: Mem, r: int, v: int, x: int, perm: int, ghost bytes: seq<bv8>) returns (ok: bool)
    requires Inv(mc.lo, m0) && Grown(mc.lo, m0, mc.Now(), r, v, v, x) && x != -1 && mc.Valid() && Perm(perm)
    requires 0 <= v < USERTOP && Leaf(m0.fs, r, v) == 0 && InRange(mc.Now(), x) && mc.frames[x] == Data(bytes) && |bytes| == 4096
    modifies mc`frames, mc`freelist, mc`use, mc`chain
    ensures mc.Valid() && Grown(mc.lo, m0, mc.Now(), r, v, if ok then v + 1 else v, -1)
    ensures ok ==> PageIs(mc.Now(), r, v, WithV(perm), bytes)
    ensures Afforded(old(mc.Now()), mc.Now(), r, v, v + 1, 0, ok)
  {
    ghost var m := mc.Now();
    SpareHeld(mc.lo, m0, m, r, v, v, x);
    hide Inv, Grown, Mapped, Leaf, WithV, PageIs, Afforded, Perm;
    var ret; ghost var k;
    ret, k := MapPage(mc, r, v, x, perm);
    if ret != 0 {
      PageBytes(x);
      NotMapped(mc.lo, m0, m, mc.Now(), r, v, x, perm);
      GrownKfree(mc.lo, m0, mc.Now(), r, v, v, x);
      mc.Kfree(x * 4096);
      return false;
    }
    MappedPage(mc.lo, m, mc.Now(), r, v, x, perm, bytes);
    GrownMapped(mc.lo, m0, m, mc.Now(), r, v, v, x, perm);
    ok := true;
  }

  lemma NotMapped(lo: int, m0: Mem, m: Mem, m': Mem, r: int, v: int, x: int, perm: int)
    requires Grown(lo, m0, m, r, v, v, x) && x != -1 && Mapped(lo, m, m', r, v, 0, x, perm) && lo <= x
    ensures Grown(lo, m0, m', r, v, v, x) && lo <= x < |m'.fs| == |m'.use| && 0 < lo
  {
    MappedNothing(lo, m, m', r, v, x, perm);
    GrownEmpty(lo, m, m', r, 0, -1, v);
    GrownThen(lo, m0, m, m', r, v, v, v, x, -1);
    InvSizes(lo, m');
    hide Inv;
  }

  /** One turn of the loop of uvmalloc. */
  method AllocPage(mc: Machine, r: int, v: int, perm: int) returns (ok: bool)
    requires mc.Valid() && IsRoot(mc.use, r) && 0 <= v < USERTOP && Leaf(mc.frames, r, v) == 0 && Perm(perm)
    modifies mc`frames, mc`freelist, mc`use, mc`chain
    ensures mc.Valid() && Grown(mc.lo, old(mc.Now()), mc.Now(), r, v, if ok then v + 1 else v, -1)
    ensures ok ==> PageIs(mc.Now(), r, v, WithV(perm), Filled(4096, 0))
    ensures old(mc.chain) == [] ==> !ok
    ensures Afforded(old(mc.Now()), mc.Now(), r, v, v + 1, 1, ok)
  {
    ghost var m0 := mc.Now();
    GrownStart(mc.lo, m0, r, v);
    hide Inv, Grown, Leaf, WithV, PageIs, Filled, Billed, Tables;
    var mem := mc.Kalloc();
    if mem == 0 {
      return false;
    }
    GrownKalloc(mc.lo, m0, m0, r, v, v);
    FillPage(mc, m0, r, v, mem, Filled(4096, 0));
    ghost var m := mc.Now();
    ok := MapNew(mc, m0, r, v, mem, perm, Filled(4096, 0));
    KallocNodes(mc.lo, m0, m);
    AffordedAfter(m0, m, mc.Now(), r, v, v + 1, 0, ok);
  }

  lemma KallocNodes(lo: int, m0: Mem, m: Mem)
    requires Inv(lo, m0) && m0.chain != [] && InRange(m0, m0.chain[0]) && m.use == KallocMem(m0).use && m.chain == KallocMem(m0).chain
    ensures SameNodes(m0.use, m.use) && |m.chain| + 1 == |m0.chain|
  {
    KallocInv(lo, m0);
    hide Inv, Filled;
  }

  /** memset or memmove into a new page. */
  method FillPage(mc: Machine, ghost m0: Mem, r: int, ghost v: int, x: int, bytes: seq<bv8>)
    requires mc.Valid() && Grown(mc.lo, m0, mc.Now(), r, v, v, x) && x != -1
    modifies mc`frames
    ensures mc.Valid() && Grown(mc.lo, m0, mc.Now(), r, v, v, x)
    ensures InRange(mc.Now(), x) && mc.frames[x] == Data(bytes) && mc.use == old(mc.use) && mc.chain == old(mc.chain)
  {
    GrownFill(mc.lo, m0, mc.Now(), r, v, v, x, Data(bytes));
    InvSizes(mc.lo, mc.Now());
    hide Inv;
    mc.frames := mc.frames[x := Data(bytes)];
  }

  /** All pages [a, b) of r are new, zeroed and have these flags. */
  ghost predicate ZeroPages(m: Mem, r: int, a: int, b: int, flags: int) {
    forall v :: a <= v < b ==> PageIs(m, r, v, flags, Filled(4096, 0))
  }

  /** Pages mapped before stay what they are. */
  lemma PageKept(lo: int, m: Mem, m': Mem, r: int, v: int, flags: int, bytes: seq<bv8>, s: int, a: int, b: int)
    requires Inv(lo, m) && Grown(lo, m, m', s, a, b, -1) && !(r == s && a <= v < b) && IsRoot(m.use, r) && 0 <= v < USERTOP
    requires PageIs(m, r, v, flags, bytes)
    ensures PageIs(m', r, v, flags, bytes)
  {
    var e := Leaf(m.fs, r, v);
    assert MapOk(m, r, v);
    assert UseGrown(m, m', s, a, b, -1, Ppn(e));
    hide Inv, Leaf;
  }

  /** uvmalloc's permissions: PTE_R|PTE_U|xperm. */
  function UserPerm(xperm: int): int { if xperm == 4 then 22 else if xperm == 8 then 26 else if xperm == 12 then 30 else 18 }

  predicate XPerm(xperm: int) { xperm == 0 || xperm == 4 || xperm == 8 || xperm == 12 }

  lemma GrownRoom(lo: int, m0: Mem, m: Mem, r: int, a: int, b: int)
    requires Grown(lo, m0, m, r, a, b, -1)
    ensures IsRoot(m.use, r) && |m.chain| + (b - a) <= |m0.chain| && 0 <= a <= b <= USERTOP
    ensures b < USERTOP ==> Leaf(m.fs, r, b) == Leaf(m0.fs, r, b)
  {
    hide Inv, Leaf, UsesGrown, Unmapped;
  }

  lemma ZeroPagesMore(lo: int, m: Mem, m': Mem, r: int, a: int, b: int, c: int, flags: int)
    requires Inv(lo, m) && Grown(lo, m, m', r, b, c, -1) && 0 <= a <= b && c <= b + 1 && IsRoot(m.use, r)
    requires ZeroPages(m, r, a, b, flags) && (c == b + 1 ==> PageIs(m', r, b, flags, Filled(4096, 0)))
    ensures ZeroPages(m', r, a, c, flags)
  {
    hide Inv, PageIs, Filled;
    forall v | a <= v < c ensures PageIs(m', r, v, flags, Filled(4096, 0)) {
      if v < b {
        PageKept(lo, m, m', r, v, flags, Filled(4096, 0), r, b, c);
      }
    }
  }

  /** The pages that uvmalloc finds unmapped, as far as it can get. */
  ghost predicate Room(m: Mem, r: int, oldsz: int, newsz: int) {
    && (PagesOf(oldsz) + |m.chain| < USERTOP || PagesOf(newsz) <= USERTOP)
    && forall v :: PagesOf(oldsz) <= v < PagesOf(newsz) && v < USERTOP ==> Leaf(m.fs, r, v) == 0
  }

  /** One turn of the loop of uvmalloc, with what follows on a failure. */
  method GrowTurn(mc: Machine, ghost m0: Mem, r: int, a0: int, a: int, ghost b: int, perm: int, ghost flags: int) returns (ok: bool)
    requires mc.Valid() && Inv(mc.lo, m0) && Grown(mc.lo, m0, mc.Now(), r, a0, a, -1) && ZeroPages(mc.Now(), r, a0, a, flags)
    requires Billed(m0, mc.Now(), r, a0, a, a - a0) && 0 <= a0 <= a < b && Perm(perm) && flags == WithV(perm)
    requires a0 + |m0.chain| < USERTOP || b <= USERTOP
    requires forall v :: a0 <= v < b && v < USERTOP ==> Leaf(m0.fs, r, v) == 0
    modifies mc`frames, mc`freelist, mc`use, mc`chain
    ensures mc.Valid() && Grown(mc.lo, m0, mc.Now(), r, a0, if ok then a + 1 else a0, -1)
    ensures ok ==> ZeroPages(mc.Now(), r, a0, a + 1, flags) && Billed(m0, mc.Now(), r, a0, a + 1, a + 1 - a0)
    ensures !ok ==> Afforded(m0, mc.Now(), r, a0, b, b - a0, false)
  {
    hide Inv, Grown, Leaf, WithV, ZeroPages, Filled, Billed, Tables, Afforded, Perm;
    ghost var m := mc.Now();
    GrownRoom(mc.lo, m0, m, r, a0, a);
    ok := AllocPage(mc, r, a, perm);
    GrownThen(mc.lo, m0, m, mc.Now(), r, a0, a, if ok then a + 1 else a, -1, -1);
    ZeroPagesMore(mc.lo, m, mc.Now(), r, a0, a, if ok then a + 1 else a, flags);
    AffordedThen(m0, m, mc.Now(), r, a0, a, b, a - a0, 1, b - a0, ok);
    if !ok {
      ghost var m1 := mc.Now();
      GiveBack(mc, m0, r, a0, a, flags);
      NotAfforded(m0, m1, mc.Now(), r, a0, b, b - a0);
    }
  }

  /** uvmalloc.  A failure leaves no user page of what it had begun. */
  method Uvmalloc(mc: Machine, r: int, oldsz: int, newsz: int, xperm: int) returns (sz: int)
    requires mc.Valid() && IsRoot(mc.use, r) && 0 <= oldsz && 0 <= newsz && XPerm(xperm)
    requires newsz >= oldsz ==> PagesOf(oldsz) <= USERTOP && Room(mc.Now(), r, oldsz, newsz)
    modifies mc`frames, mc`freelist, mc`use, mc`chain
    ensures mc.Valid() && (sz == 0 || sz == if newsz < oldsz then oldsz else newsz)
    ensures newsz < oldsz ==> sz == oldsz && mc.Now() == old(mc.Now())
    ensures newsz >= oldsz && newsz > 0 && sz == 0 ==>
      Grown(mc.lo, old(mc.Now()), mc.Now(), r, PagesOf(oldsz), PagesOf(oldsz), -1)
    ensures newsz >= oldsz && sz != 0 ==>
      Grown(mc.lo, old(mc.Now()), mc.Now(), r, PagesOf(oldsz), PagesOf(newsz), -1) &&
      ZeroPages(mc.Now(), r, PagesOf(oldsz), PagesOf(newsz), WithV(UserPerm(xperm)))
    ensures newsz >= oldsz ==> Afforded(old(mc.Now()), mc.Now(), r, PagesOf(oldsz), PagesOf(newsz), PagesOf(newsz) - PagesOf(oldsz), sz == newsz)
  {
    if newsz < oldsz {
      return oldsz;
    }
    hide Inv, Grown, Leaf, WithV, ZeroPages, Billed, Tables, Afforded, UserPerm, PagesOf;
    var a0 := PagesOf(oldsz);
    var perm := UserPerm(xperm);
    ghost var m0, flags, b := mc.Now(), WithV(perm), PagesOf(newsz);
    UserPermOk(xperm);
    PagesBound(a0, newsz);
    PagesBound(a0, oldsz);
    GrownStart(mc.lo, m0, r, a0);
    BilledStart(m0, r, a0);
    ZeroPagesNone(m0, r, a0, flags);
    var a := a0;
    while a * 4096 < newsz
      invariant a0 <= a <= b
      invariant mc.Valid() && Grown(mc.lo, m0, mc.Now(), r, a0, a, -1) && ZeroPages(mc.Now(), r, a0, a, flags)
      invariant Billed(m0, mc.Now(), r, a0, a, a - a0)
      decreases newsz - a * 4096
    {
      PagesBound(a, newsz);
      var ok := GrowTurn(mc, m0, r, a0, a, b, perm, flags);
      if !ok {
        return 0;
      }
      a := a + 1;
    }
    PagesBound(a, newsz);
    AffordedAll(m0, mc.Now(), r, a0, a, a - a0);
    sz := newsz;
  }

  lemma PagesBound(a: int, sz: int)
    requires 0 <= sz
    ensures (a * 4096 < sz <==> a < PagesOf(sz)) && 0 <= PagesOf(sz) && PagesOf(sz) * 4096 < sz + 4096 && PagesOf(0) == 0
  {
  }

  lemma UserPermOk(xperm: int)
    requires XPerm(xperm)
    ensures Perm(UserPerm(xperm))
  {
  }

  lemma ZeroPagesNone(m: Mem, r: int, a: int, flags: int)
    ensures ZeroPages(m, r, a, a, flags)
  {
  }

  lemma ZeroMapped(m: Mem, r: int, a: int, b: int, flags: int)
    requires ZeroPages(m, r, a, b, flags)
    ensures forall v :: a <= v < b ==> Leaf(m.fs, r, v) != 0
  {
    forall v | a <= v < b ensures Leaf(m.fs, r, v) != 0 {
      assert PageIs(m, r, v, flags, Filled(4096, 0));
      hide Leaf, Filled;
    }
  }

  /** uvmdealloc(pagetable, a, oldsz) after a failure. */
  method GiveBack(mc: Machine, ghost m0: Mem, r: int, a0: int, a: int, ghost flags: int)
    requires Inv(mc.lo, m0) && mc.Valid() && Grown(mc.lo, m0, mc.Now(), r, a0, a, -1) && ZeroPages(mc.Now(), r, a0, a, flags)
    modifies mc`frames, mc`freelist, mc`use, mc`chain
    ensures mc.Valid() && Grown(mc.lo, m0, mc.Now(), r, a0, a0, -1)
  {
    ghost var m := mc.Now();
    GrownRoom(mc.lo, m0, m, r, a0, a);
    assert PagesOf(a * 4096) == a && PagesOf(a0 * 4096) == a0;
    ZeroMapped(m, r, a0, a, flags);
    hide Inv, Grown, Leaf, WithV, PageIs, Filled, Cleared, ZeroPages, PagesOf;
    var sz := Uvmdealloc(mc, r, a * 4096, a0 * 4096);
    if a0 < a {
      GrownCleared(mc.lo, m0, m, mc.Now(), r, a0, a);
    }
  }

  // ----- uvmcopy -----

  /** Page v of root `to` has the flags and bytes that page v of `from` has. */
  ghost predicate CopiedPage(m: Mem, from: int, to: int, v: int) {
    var e := Leaf(m.fs, from, v);
    0 <= Ppn(e) < |m.fs| && m.fs[Ppn(e)].Data? && PageIs(m, to, v, e % 1024, m.fs[Ppn(e)].bytes)
  }

  ghost predicate Copied(m: Mem, from: int, to: int, n: int) { forall v :: 0 <= v < n ==> CopiedPage(m, from, to, v) }

  lemma LeafFlags(e: int)
    requires LeafOk(e)
    ensures Perm(e % 1024) && WithV(e % 1024) == e % 1024
  {
    var q, f := e / 1024, e % 1024;
    assert e == 1024 * q + f;
    EntryFlags(q, f, e);
  }

  /** The page that is mapped at v of r, as walk finds it. */
  lemma PageThere(lo: int, m: Mem, r: int, v: int)
    requires Inv(lo, m) && IsRoot(m.use, r) && 0 <= v < USERTOP && Leaf(m.fs, r, v) != 0
    ensures var e := Leaf(m.fs, r, v);
            LeafOk(e) && InRange(m, Ppn(e)) && m.use[Ppn(e)] == User(r, v) && IsPage(m.fs[Ppn(e)])
  {
    assert MapOk(m, r, v);
    assert UserOk(m, Ppn(Leaf(m.fs, r, v)));
    hide Tree, Leaf, Threaded, FreeOk, Kernel;
  }

  /** *walk(pagetable, i, 0), for a page that is mapped. */
  method ReadEntry(mc: Machine, r: int, v: int) returns (pte: int)
    requires mc.Valid() && IsRoot(mc.use, r) && 0 <= v < USERTOP && Leaf(mc.frames, r, v) != 0
    modifies mc`frames, mc`freelist, mc`use, mc`chain
    ensures mc.Now() == old(mc.Now()) && mc.Valid() && pte == Leaf(mc.frames, r, v)
  {
    hide Inv, Grown, Leaf;
    ghost var m := mc.Now();
    var there, n, i := mc.Walk(r, v * 4096, false);
    assert v * 4096 / 4096 == v;
    EntryThere(mc.lo, m, r, v, n);
    pte := mc.frames[n].ptes[i];
  }

  /** One turn of the loop of uvmcopy. */
  method CopyPage(mc: Machine, from: int, to: int, v: int) returns (ok: bool)
    requires mc.Valid() && IsRoot(mc.use, from) && IsRoot(mc.use, to) && from != to && 0 <= v < USERTOP
    requires Leaf(mc.frames, from, v) != 0 && Leaf(mc.frames, to, v) == 0
    modifies mc`frames, mc`freelist, mc`use, mc`chain
    ensures mc.Valid() && Grown(mc.lo, old(mc.Now()), mc.Now(), to, v, if ok then v + 1 else v, -1)
    ensures ok ==> CopiedPage(mc.Now(), from, to, v)
    ensures Afforded(old(mc.Now()), mc.Now(), to, v, v + 1, 1, ok)
  {
    ghost var m := mc.Now();
    GrownStart(mc.lo, m, to, v);
    PageThere(mc.lo, m, from, v);
    LeafFlags(Leaf(mc.frames, from, v));
    hide Inv, Grown, Leaf, WithV, PageIs, Filled, LeafOk, Perm, Billed, Tables;
    var pte := ReadEntry(mc, from, v);
    var pa := Ppn(pte);
    var flags := pte % 1024;
    var mem := mc.Kalloc();
    if mem == 0 {
      return false;
    }
    GrownKalloc(mc.lo, m, m, to, v, v);
    assert mc.frames[pa] == m.fs[pa];
    FillPage(mc, m, to, v, mem, mc.frames[pa].bytes);
    ghost var m1 := mc.Now();
    ok := MapNew(mc, m, to, v, mem, flags, mc.frames[pa].bytes);
    KallocNodes(mc.lo, m, m1);
    AffordedAfter(m, m1, mc.Now(), to, v, v + 1, 0, ok);
    if ok {
      CopyMade(mc.lo, m, mc.Now(), from, to, v, v + 1);
    }
  }

  /** The page copied from is what it was. */
  lemma CopyMade(lo: int, m: Mem, m': Mem, from: int, to: int, v: int, w: int)
    requires Inv(lo, m) && Grown(lo, m, m', to, v, w, -1) && from != to && IsRoot(m.use, from) && 0 <= v < USERTOP
    requires var e := Leaf(m.fs, from, v); e != 0 && InRange(m, Ppn(e)) && m.fs[Ppn(e)].Data? && PageIs(m', to, v, e % 1024, m.fs[Ppn(e)].bytes)
    ensures CopiedPage(m', from, to, v)
  {
    var e := Leaf(m.fs, from, v);
    PageThere(lo, m, from, v);
    assert UseGrown(m, m', to, v, w, -1, Ppn(e));
    hide Inv, Leaf, PageIs, UsesGrown;
  }

  lemma CopiedMore(lo: int, m: Mem, m': Mem, from: int, to: int, b: int, c: int)
    requires Inv(lo, m) && Grown(lo, m, m', to, b, c, -1) && from != to && IsRoot(m.use, from) && IsRoot(m.use, to)
    requires Copied(m, from, to, b) && c <= b + 1 && (c == b + 1 ==> CopiedPage(m', from, to, b))
    requires forall v :: 0 <= v < b ==> Leaf(m.fs, from, v) != 0
    ensures Copied(m', from, to, c)
  {
    hide Inv, PageIs, Leaf, Grown;
    forall v | 0 <= v < c ensures CopiedPage(m', from, to, v) {
      if v < b {
        assert CopiedPage(m, from, to, v);
        CopyKept(lo, m, m', from, to, v, b, c);
      }
    }
  }

  lemma CopyKept(lo: int, m: Mem, m': Mem, from: int, to: int, v: int, b: int, c: int)
    requires Inv(lo, m) && Grown(lo, m, m', to, b, c, -1) && from != to && IsRoot(m.use, from) && IsRoot(m.use, to)
    requires 0 <= v < b && CopiedPage(m, from, to, v) && Leaf(m.fs, from, v) != 0
    ensures CopiedPage(m', from, to, v)
  {
    var e := Leaf(m.fs, from, v);
    assert b <= USERTOP by {
      hide Inv;
    }
    PageThere(lo, m, from, v);
    PageKept(lo, m, m', to, v, e % 1024, m.fs[Ppn(e)].bytes, to, b, c);
    assert UseGrown(m, m', to, b, c, -1, Ppn(e));
    hide Inv, Leaf, PageIs, UsesGrown;
  }

  lemma FromKept(lo: int, m0: Mem, m: Mem, from: int, to: int, a: int, b: int, n: int)
    requires Grown(lo, m0, m, to, a, b, -1) && from != to && IsRoot(m0.use, from) && n <= USERTOP
    requires forall v :: 0 <= v < n ==> Leaf(m0.fs, from, v) != 0
    ensures forall v :: 0 <= v < n ==> Leaf(m.fs, from, v) != 0
    ensures IsRoot(m.use, from) && IsRoot(m.use, to)
  {
    hide Inv, Leaf, UsesGrown;
  }

  /** uvmcopy.  The child gets equal pages with equal flags; a failure leaves no user page of the child. */
  method Uvmcopy(mc: Machine, from: int, to: int, sz: int) returns (ret: int)
    requires mc.Valid() && IsRoot(mc.use, from) && IsRoot(mc.use, to) && from != to && 0 <= sz && PagesOf(sz) <= USERTOP
    requires forall v :: 0 <= v < PagesOf(sz) ==> Leaf(mc.frames, from, v) != 0
    requires forall v :: 0 <= v < PagesOf(sz) ==> Leaf(mc.frames, to, v) == 0
    modifies mc`frames, mc`freelist, mc`use, mc`chain
    ensures mc.Valid() && (ret == 0 || ret == -1)
    ensures ret == 0 ==> Grown(mc.lo, old(mc.Now()), mc.Now(), to, 0, PagesOf(sz), -1) && Copied(mc.Now(), from, to, PagesOf(sz))
    ensures ret == -1 ==> Grown(mc.lo, old(mc.Now()), mc.Now(), to, 0, 0, -1)
    ensures Afforded(old(mc.Now()), mc.Now(), to, 0, PagesOf(sz), PagesOf(sz), ret == 0)
  {
    ghost var m0 := mc.Now();
    GrownStart(mc.lo, m0, to, 0);
    BilledStart(m0, to, 0);
    hide Inv, Grown, Leaf, Filled, CopiedPage, Billed, Tables, Afforded;
    var i := 0;
    while i * 4096 < sz
      invariant 0 <= i <= PagesOf(sz)
      invariant mc.Valid() && Grown(mc.lo, m0, mc.Now(), to, 0, i, -1) && Copied(mc.Now(), from, to, i)
      invariant Billed(m0, mc.Now(), to, 0, i, i)
      decreases sz - i * 4096
    {
      ghost var m := mc.Now();
      GrownRoom(mc.lo, m0, m, to, 0, i);
      FromKept(mc.lo, m0, m, from, to, 0, i, PagesOf(sz));
      var ok := CopyPage(mc, from, to, i);
      GrownThen(mc.lo, m0, m, mc.Now(), to, 0, i, if ok then i + 1 else i, -1, -1);
      CopiedMore(mc.lo, m, mc.Now(), from, to, i, if ok then i + 1 else i);
      AffordedThen(m0, m, mc.Now(), to, 0, i, PagesOf(sz), i, 1, PagesOf(sz), ok);
      if !ok {
        ghost var m1 := mc.Now();
        UndoCopy(mc, m0, from, to, i);
        NotAfforded(m0, m1, mc.Now(), to, 0, PagesOf(sz), PagesOf(sz));
        return -1;
      }
      i := i + 1;
    }
    AffordedAll(m0, mc.Now(), to, 0, i, i);
    ret := 0;
  }

  /** uvmunmap(new, 0, i / PGSIZE, 1). */
  method UndoCopy(mc: Machine, ghost m0: Mem, ghost from: int, to: int, i: int)
    requires Inv(mc.lo, m0) && mc.Valid() && Grown(mc.lo, m0, mc.Now(), to, 0, i, -1) && Copied(mc.Now(), from, to, i)
    modifies mc`frames, mc`freelist, mc`use, mc`chain
    ensures mc.Valid() && Grown(mc.lo, m0, mc.Now(), to, 0, 0, -1)
  {
    ghost var m := mc.Now();
    GrownRoom(mc.lo, m0, m, to, 0, i);
    CopiedMapped(m, from, to, i);
    hide Inv, Grown, Leaf, Cleared, Copied;
    Uvmunmap(mc, to, 0, i, true);
    GrownCleared(mc.lo, m0, m, mc.Now(), to, 0, i);
  }

  lemma CopiedMapped(m: Mem, from: int, to: int, n: int)
    requires Copied(m, from, to, n)
    ensures forall v :: 0 <= v < n ==> Leaf(m.fs, to, v) != 0
  {
    forall v | 0 <= v < n ensures Leaf(m.fs, to, v) != 0 {
      assert CopiedPage(m, from, to, v);
      hide Leaf;
    }
  }
}
