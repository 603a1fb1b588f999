/** Page tables as kernel/proc.c makes, copies and frees them: no page is lost, on success or failure. */
module VmProcess {
  import opened PageTree
  import opened PageMemory
  import opened PageGrowth
  import opened PageCount
  import opened Vm
  import opened VmMap
  import opened VmFree

  const TRAMPOLINE: int := 0x3FF_FFFF
  const TRAPFRAME: int := 0x3FF_FFFE

  predicate Of(u: Use, r: int) { (u.Node? && u.root == r) || (u.User? && u.root == r) }

  /** The flat maps of all roots but r. */
  ghost predicate OthersSame(m0: Mem, m: Mem, r: int) {
    forall r', v :: IsRoot(m0.use, r') && r' != r && 0 <= v < 0x400_0000 ==> Leaf(m.fs, r', v) == Leaf(m0.fs, r', v)
  }

  ghost predicate RootsBut(m0: Mem, m: Mem, r: int) { forall r' :: r' != r ==> (IsRoot(m.use, r') <==> IsRoot(m0.use, r')) }

  predicate Sizes(m0: Mem, m: Mem) { |m.use| == |m.fs| == |m0.use| == |m0.fs| }

  /** The page has its use, and its contents where those are data. */
  predicate KeptPage(m0: Mem, m: Mem, p: int)
    requires InRange(m0, p) && InRange(m, p)
  {
    m.use[p] == m0.use[p] && (m0.use[p].Held? || m0.use[p].User? ==> m.fs[p] == m0.fs[p])
  }

  /** Root r and all it held are gone; everything else is as before. */
  ghost predicate Torn(lo: int, m0: Mem, m: Mem, r: int) {
    && Inv(lo, m) && Sizes(m0, m) && !IsRoot(m.use, r) && RootsBut(m0, m, r) && OthersSame(m0, m, r)
    && forall p :: 0 <= p < |m.use| ==> if Of(m0.use[p], r) then m.use[p].Free? else KeptPage(m0, m, p)
  }

  // ----- After freewalk -----

  lemma RootVia(lo: int, m: Mem, r: int, q: int)
    requires Inv(lo, m) && IsRoot(m.use, r) && 0 <= q < |m.use|
    ensures (q == r || Via(m.use, r, 512, q)) <==> (m.use[q].Node? && m.use[q].root == r)
  {
    LevelUp(lo, m, r);
    if m.use[q].Node? {
      LevelUp(lo, m, q);
      LevelUp(lo, m, m.use[q].up);
    }
    hide Inv;
  }

  lemma RootBare(lo: int, m: Mem, r: int)
    requires Inv(lo, m) && IsRoot(m.use, r) && NoLeaves(m, r)
    ensures Bare(m, r)
  {
    forall q, i | (q == r || Via(m.use, r, 512, q)) && IsNode(m.use, q) && m.use[q].level == 0 && 0 <= i < 512
      ensures Entry(m.fs, q, i) == 0
    {
      RootVia(lo, m, r, q);
      assert NodeOk(m.fs, m.use, q);
      var v := m.use[q].prefix * 512 + i;
      assert v / 512 == m.use[q].prefix && v % 512 == i;
      LowestReached(m.fs, m.use, q, v);
      assert Leaf(m.fs, r, v) == 0;
    }
  }

  /** Trees other than r's do not notice that r's is gone. */
  lemma OtherTrees(lo: int, m0: Mem, m: Mem, r: int)
    requires Inv(lo, m0) && IsRoot(m0.use, r) && Sizes(m0, m)
    requires forall p :: 0 <= p < |m.use| ==> if m0.use[p].Node? && m0.use[p].root == r then m.use[p].Free? else SamePage(m0, m, p)
    ensures Tree(m.fs, m.use) && !IsRoot(m.use, r) && RootsBut(m0, m, r) && OthersSame(m0, m, r)
  {
    forall p | IsNode(m0.use, p) ensures m0.use[p].level == 2 ==> m0.use[p].root == p {
      LevelUp(lo, m0, p);
    }
    forall p | 0 <= p < |m.use| && m.use[p].Node? ensures NodeOk(m.fs, m.use, p) {
      OtherNode(lo, m0, m, r, p);
    }
    forall r', v | IsRoot(m0.use, r') && r' != r && 0 <= v < 0x400_0000 ensures Leaf(m.fs, r', v) == Leaf(m0.fs, r', v) {
      LowestPlace(m0.fs, m0.use, r', v);
      hide Inv;
    }
  }

  lemma OtherNode(lo: int, m0: Mem, m: Mem, r: int, p: int)
    requires Inv(lo, m0) && IsRoot(m0.use, r) && Sizes(m0, m)
    requires forall p :: 0 <= p < |m.use| ==> if m0.use[p].Node? && m0.use[p].root == r then m.use[p].Free? else SamePage(m0, m, p)
    requires 0 <= p < |m.use| && m.use[p].Node?
    ensures NodeOk(m.fs, m.use, p)
  {
    assert NodeOk(m0.fs, m0.use, p);
    LevelUp(lo, m0, m0.use[p].root);
    assert m0.use[p].level < 2 ==> UpOk(m0.fs, m0.use, p) && UpOk(m.fs, m.use, p);
    forall i | 0 <= i < 512 ensures EntryOk(m.fs, m.use, p, i) {
      assert EntryOk(m0.fs, m0.use, p, i);
    }
  }

  lemma DropRoot(lo: int, m0: Mem, m: Mem, r: int)
    requires Inv(lo, m0) && IsRoot(m0.use, r) && NoLeaves(m0, r) && Dead(lo, m0, m0, m, r)
    ensures Torn(lo, m0, m, r)
  {
    forall q | 0 <= q < |m.use|
      ensures if m0.use[q].Node? && m0.use[q].root == r then m.use[q].Free? else SamePage(m0, m, q)
    {
      RootVia(lo, m0, r, q);
      hide Inv, Via;
    }
    OtherTrees(lo, m0, m, r);
    OtherUsers(lo, m0, m, r);
    hide Inv, Via, Leaf, Tree, Threaded, FreeOk, UsersOk, MapsOk;
  }

  lemma OtherUsers(lo: int, m0: Mem, m: Mem, r: int)
    requires Inv(lo, m0) && IsRoot(m0.use, r) && NoLeaves(m0, r) && Sizes(m0, m)
    requires forall p :: 0 <= p < |m.use| ==> if m0.use[p].Node? && m0.use[p].root == r then m.use[p].Free? else SamePage(m0, m, p)
    requires !IsRoot(m.use, r) && RootsBut(m0, m, r) && OthersSame(m0, m, r)
    ensures UsersOk(m) && MapsOk(m) && forall p :: 0 <= p < |m0.use| ==> !(m0.use[p].User? && m0.use[p].root == r)
  {
    hide Tree, Leaf, Threaded, FreeOk, Kernel;
    forall p | 0 <= p < |m0.use| && m0.use[p].User? ensures m0.use[p].root != r {
      assert UserOk(m0, p);
    }
    forall p | InRange(m, p) && m.use[p].User? ensures UserOk(m, p) {
      assert UserOk(m0, p);
    }
    forall r', v | IsRoot(m.use, r') && 0 <= v < USERTOP ensures MapOk(m, r', v) {
      assert IsRoot(m0.use, r') && MapOk(m0, r', v);
    }
  }

  // ----- uvmfree -----

  /** Below the trapframe, exactly the pages [0, n) are mapped. */
  ghost predicate MappedTo(m: Mem, r: int, n: int) {
    && (forall v :: 0 <= v < n ==> Leaf(m.fs, r, v) != 0)
    && (forall v :: n <= v < USERTOP ==> Leaf(m.fs, r, v) == 0)
  }

  ghost predicate TopEmpty(m: Mem, r: int) { Leaf(m.fs, r, TRAPFRAME) == 0 && Leaf(m.fs, r, TRAMPOLINE) == 0 }

  lemma ClearedTorn(lo: int, m0: Mem, m: Mem, m': Mem, r: int, n: int)
    requires Inv(lo, m0) && Cleared(lo, m0, m, r, 0, n) && n <= USERTOP && MappedTo(m0, r, n) && Torn(lo, m, m', r)
    ensures Torn(lo, m0, m', r)
  {
    forall p | 0 <= p < |m0.use| && m0.use[p].User? && m0.use[p].root == r ensures IsUser(m0.use[p], r, 0, n) {
      assert UserOk(m0, p);
      hide Leaf;
    }
    hide Inv, Leaf;
    forall p | 0 <= p < |m'.use| ensures if Of(m0.use[p], r) then m'.use[p].Free? else KeptPage(m0, m', p) {
      assert UseCleared(m0, m, r, 0, n, p);
      assert if Of(m.use[p], r) then m'.use[p].Free? else KeptPage(m, m', p);
    }
    hide UsesCleared;
  }

  lemma ClearedNone(lo: int, m0: Mem, m: Mem, r: int, n: int)
    requires Cleared(lo, m0, m, r, 0, n) && n <= USERTOP && MappedTo(m0, r, n) && TopEmpty(m0, r)
    ensures NoLeaves(m, r) && Inv(lo, m) && IsRoot(m.use, r)
  {
    hide Inv, Leaf, UsesCleared;
  }

  /** uvmfree. */
  method Uvmfree(mc: Machine, r: int, sz: int)
    requires mc.Valid() && IsRoot(mc.use, r) && 0 <= sz && PagesOf(sz) <= USERTOP
    requires MappedTo(mc.Now(), r, PagesOf(sz)) && TopEmpty(mc.Now(), r)
    modifies mc`frames, mc`freelist, mc`use, mc`chain
    ensures mc.Valid() && Torn(mc.lo, old(mc.Now()), mc.Now(), r)
  {
    hide Inv, Leaf, NoLeaves, Cleared, Dead, Bare, Via, Below, Torn, Listed;
    ghost var m0 := mc.Now();
    ClearedStart(mc.lo, m0, r, 0);
    if sz > 0 {
      Uvmunmap(mc, r, 0, PagesOf(sz), true);
    }
    ghost var m := mc.Now();
    ClearedNone(mc.lo, m0, m, r, PagesOf(sz));
    RootBare(mc.lo, m, r);
    FreewalkStart(mc.lo, m, r);
    Freewalk(mc, m, 2, r);
    DropRoot(mc.lo, m, mc.Now(), r);
    TornInv(mc.lo, m, mc.Now(), r);
    ClearedTorn(mc.lo, m0, m, mc.Now(), r, PagesOf(sz));
  }

  lemma FreewalkStart(lo: int, m: Mem, r: int)
    requires Inv(lo, m) && IsRoot(m.use, r)
    ensures Listed(lo, m) && Intact(m, m, r)
  {
    InvSizes(lo, m);
    hide Tree, Threaded, FreeOk, UsersOk, MapsOk, Kernel, Via;
  }

  lemma TornInv(lo: int, m0: Mem, m: Mem, r: int)
    requires Torn(lo, m0, m, r)
    ensures Inv(lo, m)
  {
    hide Inv, OthersSame, RootsBut;
  }

  // ----- A new root -----

  /** From m0 to m, root r has come with its tables and user pages, from free pages; x is a page taken besides. */
  ghost predicate Extended(lo: int, m0: Mem, m: Mem, r: int, x: int) {
    && Inv(lo, m) && Sizes(m0, m) && !IsRoot(m0.use, r) && IsRoot(m.use, r) && RootsBut(m0, m, r) && OthersSame(m0, m, r)
    && -1 <= x < |m.use| && UsesExtended(m0, m, r, x)
  }

  ghost predicate UseExtended(m0: Mem, m: Mem, r: int, x: int, p: int)
    requires InRange(m0, p) && InRange(m, p)
  {
    if p == x then m0.use[p].Free? && m.use[p].Held?
    else if Of(m.use[p], r) then m0.use[p].Free?
    else KeptPage(m0, m, p)
  }

  ghost predicate UsesExtended(m0: Mem, m: Mem, r: int, x: int)
    requires Sizes(m0, m)
  {
    forall p :: InRange(m0, p) ==> UseExtended(m0, m, r, x, p)
  }

  lemma NewRootTree(lo: int, m: Mem, c: int)
    requires Inv(lo, m) && InRange(m, c) && lo <= c && m.use[c].Held? && Zeros(m.fs[c])
    ensures var m' := m.(use := m.use[c := Node(c, 2, 0, c)]);
            Tree(m'.fs, m'.use) && SameMaps(m, m') && NoLeaves(m', c)
  {
    var m' := m.(use := m.use[c := Node(c, 2, 0, c)]);
    forall p | 0 <= p < |m'.use| && m'.use[p].Node? ensures NodeOk(m'.fs, m'.use, p) {
      if p == c {
        forall i | 0 <= i < 512 ensures EntryOk(m'.fs, m'.use, c, i) {
        }
      } else {
        OlderNode(lo, m, m', c, p);
      }
    }
    forall v | 0 <= v < 0x400_0000 ensures Leaf(m'.fs, c, v) == 0 {
      NoWay(m'.fs, v / 512 % 512, v % 512);
      Split(v);
    }
  }

  lemma OlderNode(lo: int, m: Mem, m': Mem, c: int, p: int)
    requires Inv(lo, m) && InRange(m, c) && m.use[c].Held? && m' == m.(use := m.use[c := Node(c, 2, 0, c)])
    requires InRange(m, p) && m.use[p].Node?
    ensures NodeOk(m'.fs, m'.use, p)
  {
    assert NodeOk(m.fs, m.use, p);
    assert m.use[p].level < 2 ==> UpOk(m.fs, m.use, p) && UpOk(m'.fs, m'.use, p);
    forall i | 0 <= i < 512 ensures EntryOk(m'.fs, m'.use, p, i) {
      assert EntryOk(m.fs, m.use, p, i);
    }
  }

  lemma NewRoot(lo: int, m: Mem, c: int)
    requires Inv(lo, m) && InRange(m, c) && lo <= c && m.use[c].Held? && Zeros(m.fs[c])
    ensures var m' := m.(use := m.use[c := Node(c, 2, 0, c)]); Inv(lo, m') && IsRoot(m'.use, c) && NoLeaves(m', c) && SameMaps(m, m')
    ensures !IsRoot(m.use, c)
  {
    var m' := m.(use := m.use[c := Node(c, 2, 0, c)]);
    NewRootTree(lo, m, c);
    ListKept(lo, m, m');
    hide Tree, Leaf, Threaded, FreeOk, Kernel, Zeros;
    forall p | InRange(m', p) && m'.use[p].User? ensures UserOk(m', p) {
      assert UserOk(m, p);
    }
    forall r', v | IsRoot(m'.use, r') && 0 <= v < USERTOP ensures MapOk(m', r', v) {
      if r' != c {
        assert IsRoot(m.use, r') && MapOk(m, r', v);
      }
    }
  }

  /** uvmcreate, as far as memory goes: page c taken, zeroed and made a root. */
  lemma CreatedExtends(lo: int, m0: Mem, c: int, f: Frame)
    requires Inv(lo, m0) && m0.chain != [] && c == m0.chain[0] && Zeros(f)
    ensures InRange(m0, c) && InRange(KallocMem(m0), c)
    ensures var m := Fill(KallocMem(m0), c, f).(use := KallocMem(m0).use[c := Node(c, 2, 0, c)]);
            Extended(lo, m0, m, c, -1) && NoLeaves(m, c)
  {
    hide Zeros, Filled;
    KallocInv(lo, m0);
    InvSizes(lo, m0);
    var k := KallocMem(m0);
    FillInv(lo, k, c, f);
    NewRoot(lo, Fill(k, c, f), c);
    hide Inv, Leaf;
    var m := Fill(k, c, f).(use := k.use[c := Node(c, 2, 0, c)]);
    assert m == Fill(k, c, f).(use := Fill(k, c, f).use[c := Node(c, 2, 0, c)]);
  }

  lemma ExtendedGrown(lo: int, m0: Mem, m: Mem, m': Mem, r: int, x: int, a: int, b: int)
    requires Extended(lo, m0, m, r, x) && Grown(lo, m, m', r, a, b, -1)
    ensures Extended(lo, m0, m', r, x)
  {
    hide Inv, Leaf;
    forall p | InRange(m0, p) ensures UseExtended(m0, m', r, x, p) {
      assert UseExtended(m0, m, r, x, p) && UseGrown(m, m', r, a, b, -1, p);
    }
    hide UseExtended, UseGrown, UsesGrown;
  }

  lemma ExtendedMapped(lo: int, m0: Mem, m: Mem, m': Mem, r: int, x: int, v: int, k: int, p0: int, perm: int)
    requires Extended(lo, m0, m, r, x) && Mapped(lo, m, m', r, v, k, p0, perm) && USERTOP <= v
    ensures Extended(lo, m0, m', r, x)
  {
    hide Inv, Leaf, EntryFor;
    forall p | InRange(m0, p) ensures UseExtended(m0, m', r, x, p) {
      assert UseExtended(m0, m, r, x, p) && UseMapped(m, m', r, v, k, p0, p);
    }
    hide UseExtended, UseMapped, UsesMapped;
  }

  lemma ExtendedCleared(lo: int, m0: Mem, m: Mem, m': Mem, r: int, x: int, a: int, b: int)
    requires Extended(lo, m0, m, r, x) && Cleared(lo, m, m', r, a, b)
    ensures Extended(lo, m0, m', r, x)
  {
    hide Inv, Leaf;
    forall p | InRange(m0, p) ensures UseExtended(m0, m', r, x, p) {
      assert UseExtended(m0, m, r, x, p) && UseCleared(m, m', r, a, b, p);
    }
    hide UseExtended, UseCleared, UsesCleared;
  }

  /** The page taken before the root is the spare page. */
  lemma ExtendedAfter(lo: int, m0: Mem, m: Mem, r: int)
    requires Inv(lo, m0) && m0.chain != [] && InRange(m0, m0.chain[0]) && Extended(lo, KallocMem(m0), m, r, -1)
    ensures Extended(lo, m0, m, r, m0.chain[0])
  {
    KallocInv(lo, m0);
    hide Inv, Leaf, Filled;
    var x := m0.chain[0];
    forall p | InRange(m0, p) ensures UseExtended(m0, m, r, x, p) {
      assert UseExtended(KallocMem(m0), m, r, -1, p);
    }
  }

  /** Every page has the use it had, all data is as it was, and so is every flat map. */
  ghost predicate Restored(lo: int, m0: Mem, m: Mem) {
    Inv(lo, m) && Sizes(m0, m) && SameRoots(m0, m) && SameMaps(m0, m) && forall p :: 0 <= p < |m.use| ==> KeptPage(m0, m, p)
  }

  lemma ExtendedTorn(lo: int, m0: Mem, m: Mem, m': Mem, r: int)
    requires Extended(lo, m0, m, r, -1) && Torn(lo, m, m', r)
    ensures Restored(lo, m0, m')
  {
    hide Inv, Leaf;
    forall p | 0 <= p < |m'.use| ensures KeptPage(m0, m', p) {
      assert UseExtended(m0, m, r, -1, p);
    }
    hide UsesExtended;
  }

  lemma RestoredStart(lo: int, m: Mem)
    requires Inv(lo, m)
    ensures Restored(lo, m, m)
  {
    InvSizes(lo, m);
    hide Inv, Leaf;
  }

  lemma RestoredKfree(lo: int, m0: Mem, m: Mem)
    requires Inv(lo, m0) && m0.chain != [] && InRange(m0, m0.chain[0]) && Restored(lo, KallocMem(m0), m)
    ensures lo <= m0.chain[0] && InRange(m, m0.chain[0]) && Restored(lo, m0, KfreeMem(m, m0.chain[0]))
  {
    KallocInv(lo, m0);
    var x := m0.chain[0];
    assert KeptPage(KallocMem(m0), m, x);
    KfreeInv(lo, m, x);
    hide Inv, Leaf, Filled;
    var m' := KfreeMem(m, x);
    forall p | 0 <= p < |m'.use| ensures KeptPage(m0, m', p) {
      assert KeptPage(KallocMem(m0), m, p);
    }
  }

  // ----- uvmcreate, proc_pagetable, proc_freepagetable -----

  /** uvmcreate. */
  method Uvmcreate(mc: Machine) returns (r: int)
    requires mc.Valid()
    modifies mc`frames, mc`freelist, mc`use, mc`chain
    ensures mc.Valid()
    ensures r == 0 <==> old(mc.chain) == []
    ensures r == 0 ==> mc.Now() == old(mc.Now())
    ensures r != 0 ==> Extended(mc.lo, old(mc.Now()), mc.Now(), r, -1) && NoLeaves(mc.Now(), r)
    ensures r != 0 ==> NoTables(mc.use, r) && |mc.chain| + 1 == old(|mc.chain|)
  {
    hide Inv, Zeros, Extended, NoLeaves, NoTables, Filled;
    ghost var m0 := mc.Now();
    r := mc.Kalloc();
    if r == 0 {
      return;
    }
    var zeros := ZeroTable();
    CreatedExtends(mc.lo, m0, r, zeros);
    mc.frames := mc.frames[r := zeros];
    mc.use := mc.use[r := Node(r, 2, 0, r)];
    ExtendedInv(mc.lo, m0, mc.Now(), r, -1);
    FirstFree(mc.lo, m0);
    NewRootBare(mc.lo, m0, mc.Now(), r);
  }

  lemma FirstFree(lo: int, m: Mem)
    requires Inv(lo, m) && m.chain != []
    ensures InRange(m, m.chain[0]) && m.use[m.chain[0]].Free?
  {
    KallocInv(lo, m);
    hide Inv, Filled;
  }

  lemma ExtendedInv(lo: int, m0: Mem, m: Mem, r: int, x: int)
    requires Extended(lo, m0, m, r, x)
    ensures Inv(lo, m) && IsRoot(m.use, r) && !IsRoot(m0.use, r) && Sizes(m0, m)
  {
    hide Inv, RootsBut, OthersSame, UsesExtended;
  }

  /** PTE_R | PTE_X for the trampoline, PTE_R | PTE_W for the trapframe t; no user memory. */
  ghost predicate TopPages(m: Mem, r: int, t: int, tramp: int) {
    Leaf(m.fs, r, TRAMPOLINE) == EntryFor(tramp, 10) && Leaf(m.fs, r, TRAPFRAME) == EntryFor(t, 6)
  }

  lemma TopMapped(lo: int, m0: Mem, m: Mem, m': Mem, r: int, t: int, tramp: int)
    requires NoLeaves(m0, r) && Mapped(lo, m0, m, r, TRAMPOLINE, 1, tramp, 10) && Mapped(lo, m, m', r, TRAPFRAME, 1, t, 6)
    requires 0 <= t && 0 <= tramp
    ensures TopPages(m', r, t, tramp) && MappedTo(m', r, 0)
  {
    hide Inv, Leaf, EntryFor, UsesMapped;
  }

  lemma TrampMapped(lo: int, m0: Mem, m: Mem, r: int, k: int, tramp: int)
    requires NoLeaves(m0, r) && Mapped(lo, m0, m, r, TRAMPOLINE, k, tramp, 10) && 0 <= k <= 1 && 0 <= tramp
    ensures MappedTo(m, r, 0) && Leaf(m.fs, r, TRAPFRAME) == 0 && IsRoot(m.use, r) && Inv(lo, m)
    ensures if k == 1 then Leaf(m.fs, r, TRAMPOLINE) != 0 else TopEmpty(m, r)
  {
    EntryForOk(tramp, 10);
    hide Inv, Leaf, EntryFor, UsesMapped;
  }

  lemma TopGiveable(lo: int, m: Mem, v: int, p: int)
    requires USERTOP <= v && 0 <= p
    ensures Giveable(lo, m, v, 1, p)
  {
  }

  /** The failure paths of proc_pagetable: uvmunmap of the trampoline if it is mapped, then uvmfree. */
  method DropPagetable(mc: Machine, ghost m0: Mem, r: int, unmap: bool)
    requires mc.Valid() && Extended(mc.lo, m0, mc.Now(), r, -1) && MappedTo(mc.Now(), r, 0) && Leaf(mc.frames, r, TRAPFRAME) == 0
    requires if unmap then Leaf(mc.frames, r, TRAMPOLINE) != 0 else Leaf(mc.frames, r, TRAMPOLINE) == 0
    modifies mc`frames, mc`freelist, mc`use, mc`chain
    ensures mc.Valid() && Restored(mc.lo, m0, mc.Now())
  {
    hide Inv, Extended, Restored, Torn, Cleared, Leaf;
    ghost var m := mc.Now();
    ExtendedInv(mc.lo, m0, m, r, -1);
    if unmap {
      assert TRAMPOLINE * 4096 / 4096 == TRAMPOLINE && TRAMPOLINE * 4096 % 4096 == 0;
      Uvmunmap(mc, r, TRAMPOLINE * 4096, 1, false);
      ExtendedCleared(mc.lo, m0, m, mc.Now(), r, -1, TRAMPOLINE, TRAMPOLINE + 1);
      TopCleared(mc.lo, m, mc.Now(), r);
    }
    ghost var m1 := mc.Now();
    Uvmfree(mc, r, 0);
    ExtendedTorn(mc.lo, m0, m1, mc.Now(), r);
  }

  lemma TopCleared(lo: int, m: Mem, m': Mem, r: int)
    requires Cleared(lo, m, m', r, TRAMPOLINE, TRAMPOLINE + 1) && Leaf(m.fs, r, TRAPFRAME) == 0 && MappedTo(m, r, 0)
    ensures TopEmpty(m', r) && MappedTo(m', r, 0) && IsRoot(m'.use, r)
  {
    hide Inv, Leaf, UsesCleared;
  }

  /** proc_pagetable, for trapframe page t; the trampoline is physical page tramp.  It takes the root and two tables;
      the second mappages finds both there and cannot fail. */
  method ProcPagetable(mc: Machine, t: int, tramp: int) returns (r: int)
    requires mc.Valid() && 0 <= t && 0 <= tramp
    modifies mc`frames, mc`freelist, mc`use, mc`chain
    ensures mc.Valid()
    ensures r == 0 ==> Restored(mc.lo, old(mc.Now()), mc.Now())
    ensures r != 0 ==> Extended(mc.lo, old(mc.Now()), mc.Now(), r, -1) && TopPages(mc.Now(), r, t, tramp) && MappedTo(mc.Now(), r, 0)
    ensures r != 0 <==> old(|mc.chain|) >= 3
    ensures r != 0 ==> TopTables(mc.use, r) && |mc.chain| + 3 == old(|mc.chain|)
  {
    hide Inv, Extended, Restored, Leaf, PageGrowth.Mapped, EntryFor, MappedTo, TopTables, NoTables, Afforded;
    ghost var m0 := mc.Now();
    RestoredStart(mc.lo, m0);
    r := Uvmcreate(mc);
    if r == 0 {
      return;
    }
    ghost var m1 := mc.Now();
    ExtendedInv(mc.lo, m0, m1, r, -1);
    TopGiveable(mc.lo, m1, TRAMPOLINE, tramp);
    var ret; ghost var k;
    ret, k := MapTop(mc, r, TRAMPOLINE, tramp, 10);
    ghost var m2 := mc.Now();
    ExtendedMapped(mc.lo, m0, m1, m2, r, -1, TRAMPOLINE, k, tramp, 10);
    TrampMapped(mc.lo, m1, m2, r, k, tramp);
    FirstTop(m1, m2, r, ret == 0);
    if ret < 0 {
      DropPagetable(mc, m0, r, false);
      return 0;
    }
    ret, k := MapTop(mc, r, TRAPFRAME, t, 6);
    ExtendedMapped(mc.lo, m0, m2, mc.Now(), r, -1, TRAPFRAME, k, t, 6);
    if ret < 0 {
      FrameNotMapped(mc.lo, m2, mc.Now(), r, t);
      ghost var m3 := mc.Now();
      DropPagetable(mc, m0, r, true);
      SecondTop(m2, m3, r, false);
      return 0;
    }
    SecondTop(m2, mc.Now(), r, true);
    TopMapped(mc.lo, m1, m2, mc.Now(), r, t, tramp);
  }

  lemma FrameNotMapped(lo: int, m: Mem, m': Mem, r: int, t: int)
    requires Mapped(lo, m, m', r, TRAPFRAME, 0, t, 6) && MappedTo(m, r, 0)
    ensures MappedTo(m', r, 0)
    ensures Leaf(m'.fs, r, TRAPFRAME) == Leaf(m.fs, r, TRAPFRAME) && Leaf(m'.fs, r, TRAMPOLINE) == Leaf(m.fs, r, TRAMPOLINE)
  {
    hide Inv, Leaf, EntryFor, UsesMapped;
  }

  /** mappages of one of the top pages. */
  method MapTop(mc: Machine, r: int, v: int, p: int, perm: int) returns (ret: int, ghost k: int)
    requires mc.Valid() && IsRoot(mc.use, r) && USERTOP <= v < VPAGES && 0 <= p && (perm == 6 || perm == 10) && Leaf(mc.frames, r, v) == 0
    modifies mc`frames, mc`freelist, mc`use, mc`chain
    ensures mc.Valid() && Mapped(mc.lo, old(mc.Now()), mc.Now(), r, v, k, p, perm)
    ensures (ret == 0 && k == 1) || (ret == -1 && k == 0)
    ensures Afforded(old(mc.Now()), mc.Now(), r, v, v + 1, 0, ret == 0)
  {
    hide Inv, Leaf, PageGrowth.Mapped, EntryFor, Afforded;
    TopGiveable(mc.lo, mc.Now(), v, p);
    ret, k := MapPage(mc, r, v, p, perm);
  }

  lemma BothCleared(lo: int, m: Mem, m1: Mem, m2: Mem, r: int, n: int)
    requires Cleared(lo, m, m1, r, TRAMPOLINE, TRAMPOLINE + 1) && Cleared(lo, m1, m2, r, TRAPFRAME, TRAPFRAME + 1)
    requires MappedTo(m, r, n) && 0 <= n <= USERTOP
    ensures MappedTo(m2, r, n) && TopEmpty(m2, r) && IsRoot(m2.use, r)
  {
    hide Inv, Leaf, UsesCleared, MappedTo;
    BelowKept(lo, m, m1, r, n, TRAMPOLINE);
    BelowKept(lo, m1, m2, r, n, TRAPFRAME);
  }

  lemma BelowKept(lo: int, m: Mem, m': Mem, r: int, n: int, a: int)
    requires Cleared(lo, m, m', r, a, a + 1) && MappedTo(m, r, n) && 0 <= n <= USERTOP <= a
    ensures MappedTo(m', r, n) && IsRoot(m'.use, r) && IsRoot(m.use, r)
  {
    hide Inv, Leaf, UsesCleared;
  }

  lemma TrapframeLeft(lo: int, m: Mem, m': Mem, r: int)
    requires Cleared(lo, m, m', r, TRAMPOLINE, TRAMPOLINE + 1) && Leaf(m.fs, r, TRAPFRAME) != 0
    ensures Leaf(m'.fs, r, TRAPFRAME) != 0 && IsRoot(m'.use, r)
  {
    hide Inv, Leaf, UsesCleared;
  }

  /** Nothing but entries of r's tables changed, so taking r apart says it all. */
  lemma TornAfterTop(lo: int, m: Mem, m1: Mem, m': Mem, r: int, a: int, b: int)
    requires Cleared(lo, m, m1, r, a, b) && USERTOP <= a && Inv(lo, m) && Torn(lo, m1, m', r)
    ensures Torn(lo, m, m', r)
  {
    forall p | 0 <= p < |m.use| && m.use[p].User? ensures !IsUser(m.use[p], r, a, b) {
      assert UserOk(m, p);
      hide Leaf;
    }
    hide Inv, Leaf;
    forall p | 0 <= p < |m'.use| ensures if Of(m.use[p], r) then m'.use[p].Free? else KeptPage(m, m', p) {
      assert UseCleared(m, m1, r, a, b, p);
    }
    hide UsesCleared;
  }

  /** proc_freepagetable. */
  method ProcFreepagetable(mc: Machine, r: int, sz: int)
    requires mc.Valid() && IsRoot(mc.use, r) && 0 <= sz && PagesOf(sz) <= USERTOP && MappedTo(mc.Now(), r, PagesOf(sz))
    requires Leaf(mc.frames, r, TRAMPOLINE) != 0 && Leaf(mc.frames, r, TRAPFRAME) != 0
    modifies mc`frames, mc`freelist, mc`use, mc`chain
    ensures mc.Valid() && Torn(mc.lo, old(mc.Now()), mc.Now(), r)
  {
    hide Inv, Leaf, MappedTo, Cleared, Torn;
    ghost var m := mc.Now();
    assert TRAMPOLINE * 4096 / 4096 == TRAMPOLINE && TRAMPOLINE * 4096 % 4096 == 0;
    assert TRAPFRAME * 4096 / 4096 == TRAPFRAME && TRAPFRAME * 4096 % 4096 == 0;
    Uvmunmap(mc, r, TRAMPOLINE * 4096, 1, false);
    ghost var m1 := mc.Now();
    TrapframeLeft(mc.lo, m, m1, r);
    Uvmunmap(mc, r, TRAPFRAME * 4096, 1, false);
    ghost var m2 := mc.Now();
    BothCleared(mc.lo, m, m1, m2, r, PagesOf(sz));
    Uvmfree(mc, r, sz);
    TornAfterTop(mc.lo, m1, m2, mc.Now(), r, TRAPFRAME, TRAPFRAME + 1);
    TornAfterTop(mc.lo, m, m1, mc.Now(), r, TRAMPOLINE, TRAMPOLINE + 1);
  }

  // ----- The memory side of fork -----

  /** allocproc: a trapframe page t and a page table with the two top pages; on failure nothing is kept. */
  method AllocProc(mc: Machine, tramp: int) returns (t: int, r: int)
    requires mc.Valid() && 0 <= tramp
    modifies mc`frames, mc`freelist, mc`use, mc`chain
    ensures mc.Valid()
    ensures r == 0 ==> Restored(mc.lo, old(mc.Now()), mc.Now())
    ensures r != 0 ==> mc.lo <= t && Extended(mc.lo, old(mc.Now()), mc.Now(), r, t)
    ensures r != 0 ==> TopPages(mc.Now(), r, t, tramp) && MappedTo(mc.Now(), r, 0)
    ensures r != 0 <==> old(|mc.chain|) >= 4
    ensures r != 0 ==> TopTables(mc.use, r) && |mc.chain| + 4 == old(|mc.chain|)
  {
    hide Inv, Extended, Restored, Leaf, MappedTo, TopPages, TopTables, Filled;
    ghost var m0 := mc.Now();
    RestoredStart(mc.lo, m0);
    t := mc.Kalloc();
    if t == 0 {
      return 0, 0;
    }
    KallocInv(mc.lo, m0);
    r := ProcPagetable(mc, t, tramp);
    if r == 0 {
      RestoredKfree(mc.lo, m0, mc.Now());
      assert t * 4096 / 4096 == t && t * 4096 % 4096 == 0;
      InvSizes(mc.lo, mc.Now());
      mc.Kfree(t * 4096);
      RestoredInv(mc.lo, m0, mc.Now());
      return 0, 0;
    }
    ExtendedAfter(mc.lo, m0, mc.Now(), r);
  }

  lemma RestoredInv(lo: int, m0: Mem, m: Mem)
    requires Restored(lo, m0, m)
    ensures Inv(lo, m)
  {
    hide Inv, SameRoots, SameMaps;
  }

  /** Root r with all it held and trapframe page t, where they are not 0, are free; everything else is as before. */
  ghost predicate Released(lo: int, m0: Mem, m: Mem, t: int, r: int) {
    && Inv(lo, m) && Sizes(m0, m) && (r != 0 ==> !IsRoot(m.use, r)) && RootsBut(m0, m, r) && OthersSame(m0, m, r)
    && forall p :: 0 <= p < |m.use| ==>
         if (t != 0 && p == t) || (r != 0 && Of(m0.use[p], r)) then m.use[p].Free? else KeptPage(m0, m, p)
  }

  lemma ReleasedNothing(lo: int, m: Mem)
    requires Inv(lo, m)
    ensures Released(lo, m, m, 0, 0)
  {
    InvSizes(lo, m);
    hide Inv, Leaf;
  }

  lemma ReleasedFrame(lo: int, m: Mem, t: int)
    requires Inv(lo, m) && InRange(m, t) && lo <= t && m.use[t].Held? && t != 0
    ensures Released(lo, m, KfreeMem(m, t), t, 0)
  {
    KfreeInv(lo, m, t);
    InvSizes(lo, m);
    hide Inv, Leaf;
  }

  lemma ReleasedTable(lo: int, m0: Mem, m: Mem, m': Mem, t: int, r: int)
    requires Released(lo, m0, m, t, 0) && Torn(lo, m, m', r) && r != 0 && (t != 0 ==> InRange(m0, t) && m0.use[t].Held?)
    requires IsRoot(m0.use, r) && !IsRoot(m0.use, 0)
    ensures Released(lo, m0, m', t, r)
  {
    hide Inv, Leaf;
  }

  lemma ReleasedInv(lo: int, m0: Mem, m: Mem, t: int, r: int)
    requires Released(lo, m0, m, t, r)
    ensures Inv(lo, m)
  {
  }

  /** The memory of process r with sz bytes is as trapframe and page table of a process are. */
  ghost predicate ProcMemory(lo: int, m: Mem, t: int, r: int, sz: int) {
    && (t != 0 ==> InRange(m, t) && lo <= t && m.use[t].Held?)
    && (r != 0 ==> IsRoot(m.use, r) && MappedTo(m, r, PagesOf(sz)) && Leaf(m.fs, r, TRAMPOLINE) != 0 && Leaf(m.fs, r, TRAPFRAME) != 0)
  }

  lemma FrameGone(lo: int, m: Mem, t: int, r: int, sz: int)
    requires Inv(lo, m) && ProcMemory(lo, m, t, r, sz) && t != 0 && 0 <= sz && PagesOf(sz) <= USERTOP
    ensures InRange(m, t) && ProcMemory(lo, KfreeMem(m, t), 0, r, sz)
  {
    KfreeInv(lo, m, t);
    hide Inv, Leaf, PagesOf;
  }

  lemma RootNotZero(lo: int, m: Mem)
    requires Inv(lo, m)
    ensures !IsRoot(m.use, 0) && 0 < lo <= |m.use| == |m.fs|
  {
    hide Leaf;
  }

  /** freeproc, as far as memory goes; t and r are 0 for what the process does not have. */
  method FreeProc(mc: Machine, t: int, r: int, sz: int)
    requires mc.Valid() && 0 <= sz && PagesOf(sz) <= USERTOP && ProcMemory(mc.lo, mc.Now(), t, r, sz)
    modifies mc`frames, mc`freelist, mc`use, mc`chain
    ensures mc.Valid() && Released(mc.lo, old(mc.Now()), mc.Now(), t, r)
  {
    hide Inv, Released, Leaf, MappedTo, Torn, SameMaps, PagesOf;
    ghost var m0 := mc.Now();
    RootNotZero(mc.lo, m0);
    if t != 0 {
      ReleasedFrame(mc.lo, m0, t);
      ReleasedInv(mc.lo, m0, KfreeMem(m0, t), t, 0);
      FrameGone(mc.lo, m0, t, r, sz);
      assert t * 4096 / 4096 == t && t * 4096 % 4096 == 0;
      mc.Kfree(t * 4096);
    } else {
      ReleasedNothing(mc.lo, m0);
    }
    if r != 0 {
      ghost var m1 := mc.Now();
      ProcFreepagetable(mc, r, sz);
      ReleasedTable(mc.lo, m0, m1, mc.Now(), t, r);
    }
  }

  /** A child that is freed again leaves no trace. */
  lemma ExtendedReleased(lo: int, m0: Mem, m: Mem, m': Mem, t: int, r: int)
    requires Extended(lo, m0, m, r, t) && lo <= t && 0 < t && r != 0 && Released(lo, m, m', t, r)
    ensures Restored(lo, m0, m')
  {
    hide Inv, Leaf;
    forall p | 0 <= p < |m'.use| ensures KeptPage(m0, m', p) {
      assert UseExtended(m0, m, r, t, p);
    }
    hide UsesExtended;
  }

  lemma ChildMemory(lo: int, m0: Mem, m: Mem, t: int, r: int, tramp: int)
    requires Extended(lo, m0, m, r, t) && lo <= t && 0 <= tramp && TopPages(m, r, t, tramp) && MappedTo(m, r, 0) && 0 < lo
    ensures ProcMemory(lo, m, t, r, 0)
  {
    assert UseExtended(m0, m, r, t, t);
    EntryForOk(tramp, 10);
    EntryForOk(t, 6);
    hide Inv, Leaf, EntryFor;
  }

  lemma TopKeptGrown(lo: int, m: Mem, m': Mem, r: int, t: int, tramp: int, n: int)
    requires Grown(lo, m, m', r, 0, n, -1) && TopPages(m, r, t, tramp)
    ensures TopPages(m', r, t, tramp) && (n == 0 && MappedTo(m, r, 0) ==> MappedTo(m', r, 0))
    ensures MappedTo(m, r, 0) ==> forall v :: n <= v < USERTOP ==> Leaf(m'.fs, r, v) == 0
  {
    hide Inv, Leaf, EntryFor, UsesGrown;
  }

  /** The parent p keeps its memory while a child root comes. */
  lemma ParentKept(lo: int, m0: Mem, m: Mem, p: int, r: int, t: int, n: int)
    requires Extended(lo, m0, m, r, t) && IsRoot(m0.use, p) && 0 <= n <= USERTOP
    requires forall v :: 0 <= v < n ==> Leaf(m0.fs, p, v) != 0
    ensures p != r && IsRoot(m.use, p) && forall v :: 0 <= v < n ==> Leaf(m.fs, p, v) != 0
  {
    hide Inv, Leaf, UsesExtended;
  }

  /** fork, as far as memory goes.  Failure: every page is back where it was and every process sees the
      memory it saw.  Success: the child has equal pages of its own, and the rest is as before.  It succeeds
      when there are as many free pages as it takes. */
  method Fork(mc: Machine, p: int, sz: int, tramp: int) returns (ok: bool, t: int, r: int)
    requires mc.Valid() && IsRoot(mc.use, p) && 0 <= sz && PagesOf(sz) <= USERTOP && 0 <= tramp
    requires forall v :: 0 <= v < PagesOf(sz) ==> Leaf(mc.frames, p, v) != 0
    modifies mc`frames, mc`freelist, mc`use, mc`chain
    ensures mc.Valid()
    ensures !ok ==> Restored(mc.lo, old(mc.Now()), mc.Now())
    ensures ok ==> Extended(mc.lo, old(mc.Now()), mc.Now(), r, t) && TopPages(mc.Now(), r, t, tramp)
    ensures ok ==> Copied(mc.Now(), p, r, PagesOf(sz)) && MappedTo(mc.Now(), r, PagesOf(sz))
    ensures ok <==> old(|mc.chain|) >= ForkPages(PagesOf(sz))
    ensures ok ==> |mc.chain| + ForkPages(PagesOf(sz)) == old(|mc.chain|)
  {
    hide Inv, Extended, Restored, Leaf, MappedTo, TopPages, Grown, Copied, TopTables, Afforded, PagesOf, ChildTables;
    PagesBound(0, sz);
    ChildTablesNat(PagesOf(sz));
    ghost var m0 := mc.Now();
    t, r := AllocProc(mc, tramp);
    if r == 0 {
      return false, t, r;
    }
    ghost var m := mc.Now();
    ParentKept(mc.lo, m0, m, p, r, t, PagesOf(sz));
    ExtendedInv(mc.lo, m0, m, r, t);
    EmptyChild(m, r, PagesOf(sz));
    var ret := Uvmcopy(mc, p, r, sz);
    ok := ret == 0;
    ChildAfforded(m, mc.Now(), r, PagesOf(sz), ok);
    ghost var n := if ok then PagesOf(sz) else 0;
    ExtendedGrown(mc.lo, m0, m, mc.Now(), r, t, 0, n);
    TopKeptGrown(mc.lo, m, mc.Now(), r, t, tramp, n);
    if ok {
      ChildMapped(mc.Now(), p, r, n);
    } else {
      ghost var m1 := mc.Now();
      RootNotZero(mc.lo, m1);
      ExtendedInv(mc.lo, m0, m1, r, t);
      ChildMemory(mc.lo, m0, m1, t, r, tramp);
      FreeProc(mc, t, r, 0);
      ExtendedReleased(mc.lo, m0, m1, mc.Now(), t, r);
    }
  }

  lemma ChildAfforded(m: Mem, m': Mem, r: int, n: int, ok: bool)
    requires TopTables(m.use, r) && 0 <= n <= USERTOP && Afforded(m, m', r, 0, n, n, ok)
    ensures ok <==> |m.chain| >= n + ChildTables(n)
    ensures ok ==> |m'.chain| + n + ChildTables(n) == |m.chain|
  {
    hide TopTables, ChildTables, Tables, Tabled;
    ChildNeeds(m.use, r, n);
  }

  lemma ChildMapped(m: Mem, p: int, r: int, n: int)
    requires Copied(m, p, r, n) && forall v :: n <= v < USERTOP ==> Leaf(m.fs, r, v) == 0
    ensures MappedTo(m, r, n)
  {
    CopiedMapped(m, p, r, n);
    hide Leaf, CopiedPage;
  }

  lemma EmptyChild(m: Mem, r: int, n: int)
    requires MappedTo(m, r, 0) && n <= USERTOP
    ensures forall v :: 0 <= v < n ==> Leaf(m.fs, r, v) == 0
  {
    hide Leaf;
  }
}
