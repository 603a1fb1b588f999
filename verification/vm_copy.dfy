/** copyout, copyin and copyinstr of kernel/vm.c: page by page in the code, byte by byte in their meaning. */
module VmCopy {
  import opened PageTree
  import opened PageMemory
  import opened PageGrowth
  import opened Vm
  import opened VmMap

  /** The trampoline and the trapframe are mapped without PTE_U. */
  ghost predicate TopPrivate(m: Mem, r: int) {
    forall v :: USERTOP <= v < VPAGES ==> Leaf(m.fs, r, v) == 0 || !U(Leaf(m.fs, r, v))
  }

  /** Virtual page v of r is valid user memory, as walkaddr tests it. */
  predicate Open(m: Mem, r: int, v: int) { 0 <= v < VPAGES && V(Leaf(m.fs, r, v)) && U(Leaf(m.fs, r, v)) }

  /** Byte va lies in such a page. */
  predicate Accessible(m: Mem, r: int, va: int) { 0 <= va && Open(m, r, va / 4096) }

  /** PTE_W. */
  predicate W(e: int) { e / 4 % 2 == 1 }

  predicate R(e: int) { e / 2 % 2 == 1 }

  predicate X(e: int) { e / 8 % 2 == 1 }

  /** A store by user code at va does not fault. */
  predicate Storable(m: Mem, r: int, va: int) { Accessible(m, r, va) && W(Leaf(m.fs, r, va / 4096)) }

  function ByteIn(f: Frame, x: int): bv8 { if f.Data? && 0 <= x < |f.bytes| then f.bytes[x] else 0 }

  /** The byte of r's memory at va. */
  function UserByte(m: Mem, r: int, va: int): bv8 {
    var p := Ppn(Leaf(m.fs, r, va / 4096));
    if 0 <= p < |m.fs| then ByteIn(m.fs[p], va % 4096) else 0
  }

  lemma OpenPage(lo: int, m: Mem, r: int, v: int)
    requires Inv(lo, m) && IsRoot(m.use, r) && TopPrivate(m, r) && Open(m, r, v)
    ensures v < USERTOP
    ensures var p := Ppn(Leaf(m.fs, r, v)); InRange(m, p) && 0 < p && m.use[p] == User(r, v) && IsPage(m.fs[p])
  {
    assert Leaf(m.fs, r, v) != 0;
    assert v < USERTOP;
    PageThere(lo, m, r, v);
    hide Tree, Leaf, Threaded, FreeOk, UsersOk, MapsOk;
  }

  /** walkaddr. */
  method Walkaddr(mc: Machine, r: int, va: int) returns (pa: int)
    requires mc.Valid() && IsRoot(mc.use, r) && 0 <= va && TopPrivate(mc.Now(), r)
    modifies mc`frames, mc`freelist, mc`use, mc`chain
    ensures mc.Valid() && mc.Now() == old(mc.Now())
    ensures pa == 0 <==> !Open(mc.Now(), r, va / 4096)
    ensures pa != 0 ==> pa == Ppn(Leaf(mc.frames, r, va / 4096)) * 4096 && 0 < pa
  {
    if va >= MAXVA {
      return 0;
    }
    ghost var m := mc.Now();
    hide Inv, Grown, Leaf, TopPrivate;
    var ok, n, i := mc.Walk(r, va, false);
    if !ok {
      return 0;
    }
    EntryIs(mc.lo, m, r, va / 4096, n);
    var pte := mc.frames[n].ptes[i];
    if !V(pte) {
      return 0;
    }
    if !U(pte) {
      return 0;
    }
    OpenPage(mc.lo, m, r, va / 4096);
    pa := Ppn(pte) * 4096;
  }

  lemma EntryIs(lo: int, m: Mem, r: int, v: int, n: int)
    requires Inv(lo, m) && 0 <= v < VPAGES && EntryOf(m, n, r, v)
    ensures m.fs[n].Table? && |m.fs[n].ptes| == 512 && m.fs[n].ptes[v % 512] == Leaf(m.fs, r, v)
  {
    LowestReached(m.fs, m.use, n, v);
    assert NodeOk(m.fs, m.use, n);
    hide Tree, Threaded, FreeOk, UsersOk, MapsOk;
  }

  // ----- Writing user memory -----

  /** New contents for a user page. */
  lemma UserFillInv(lo: int, m: Mem, p: int, f: Frame)
    requires Inv(lo, m) && InRange(m, p) && m.use[p].User? && IsPage(f)
    ensures Inv(lo, Fill(m, p, f)) && SameMaps(m, Fill(m, p, f))
  {
    var m' := Fill(m, p, f);
    TreeIgnores(m.fs, m'.fs, m.use, m'.use);
    ListKept(lo, m, m');
    hide Tree, Leaf, Threaded, FreeOk, Kernel;
    forall q | InRange(m', q) && m'.use[q].User? ensures UserOk(m', q) {
      assert UserOk(m, q);
    }
    forall r, v | IsRoot(m'.use, r) && 0 <= v < USERTOP ensures MapOk(m', r, v) {
      assert IsRoot(m.use, r) && MapOk(m, r, v);
    }
  }

  /** The first w bytes of src stand at dst in r's memory; every other byte of every process is as before. */
  ghost predicate Landed(m0: Mem, m: Mem, r: int, dst: int, src: seq<bv8>, w: int)
    requires 0 <= w <= |src|
  {
    forall r', va :: IsRoot(m0.use, r') && TopPrivate(m0, r') && Accessible(m0, r', va) ==>
      UserByte(m, r', va) == if r' == r && dst <= va < dst + w then src[va - dst] else UserByte(m0, r', va)
  }

  /** Same page tables, uses and free list. */
  ghost predicate SameLayout(m0: Mem, m: Mem) {
    && m.use == m0.use && m.chain == m0.chain && |m.fs| == |m0.fs| && SameMaps(m0, m)
    && forall p :: InRange(m0, p) && !m0.use[p].User? ==> m.fs[p] == m0.fs[p]
  }

  ghost predicate Copying(lo: int, m0: Mem, m: Mem, r: int, dst: int, src: seq<bv8>, w: int) {
    && Inv(lo, m) && SameLayout(m0, m) && 0 <= w <= |src| && Landed(m0, m, r, dst, src, w)
  }

  lemma CopyingStart(lo: int, m: Mem, r: int, dst: int, src: seq<bv8>)
    requires Inv(lo, m)
    ensures Copying(lo, m, m, r, dst, src, 0) && AllAccessible(m, r, dst, dst)
  {
    hide Inv, Leaf, TopPrivate, UserByte;
  }

  /** bytes put at offset x of a page. */
  function Splice(f: Frame, x: int, bytes: seq<bv8>): Frame
    requires IsPage(f) && 0 <= x && x + |bytes| <= 4096
  {
    Data(f.bytes[..x] + bytes + f.bytes[x + |bytes|..])
  }

  lemma SpliceAt(f: Frame, x: int, bytes: seq<bv8>, y: int)
    requires IsPage(f) && 0 <= x && x + |bytes| <= 4096 && 0 <= y < 4096
    ensures IsPage(Splice(f, x, bytes))
    ensures ByteIn(Splice(f, x, bytes), y) == if x <= y < x + |bytes| then bytes[y - x] else ByteIn(f, y)
  {
  }

  /** One chunk: n bytes from cur = dst + w on, inside page v. */
  lemma CopyingMore(lo: int, m0: Mem, m: Mem, r: int, dst: int, src: seq<bv8>, w: int, v: int, x: int, n: int, p: int)
    requires Inv(lo, m0) && Copying(lo, m0, m, r, dst, src, w) && IsRoot(m0.use, r) && TopPrivate(m0, r)
    requires 0 <= dst && dst + w == v * 4096 + x && 0 <= x && 0 <= n && x + n <= 4096 && w + n <= |src|
    requires Open(m, r, v) && p == Ppn(Leaf(m.fs, r, v))
    ensures InRange(m, p) && IsPage(m.fs[p])
    ensures Copying(lo, m0, Fill(m, p, Splice(m.fs[p], x, src[w..w + n])), r, dst, src, w + n)
  {
    TopKept(m0, m, r);
    OpenPage(lo, m, r, v);
    var f := Splice(m.fs[p], x, src[w..w + n]);
    SpliceAt(m.fs[p], x, src[w..w + n], 0);
    UserFillInv(lo, m, p, f);
    hide Inv, Leaf, Splice, TopPrivate, Landed;
    LandedMore(lo, m0, m, r, dst, src, w, v, x, n, p, f);
    assert SameLayout(m0, Fill(m, p, f));
  }

  lemma LandedMore(lo: int, m0: Mem, m: Mem, r: int, dst: int, src: seq<bv8>, w: int, v: int, x: int, n: int, p: int, f: Frame)
    requires Inv(lo, m) && SameLayout(m0, m)
    requires 0 <= w && 0 <= dst && dst + w == v * 4096 + x && 0 <= x && 0 <= n && x + n <= 4096 && w + n <= |src|
    requires Landed(m0, m, r, dst, src, w)
    requires p == Ppn(Leaf(m.fs, r, v)) && InRange(m, p) && m.use[p] == User(r, v) && IsPage(m.fs[p])
    requires f == Splice(m.fs[p], x, src[w..w + n]) && SameMaps(m, Fill(m, p, f))
    ensures Landed(m0, Fill(m, p, f), r, dst, src, w + n)
  {
    hide Inv, Leaf, Splice, TopPrivate, UserByte, SameLayout, IsPage, Accessible, SameMaps, IsRoot, Fill;
    forall r', va | IsRoot(m0.use, r') && TopPrivate(m0, r') && Accessible(m0, r', va)
      ensures UserByte(Fill(m, p, f), r', va) ==
              if r' == r && dst <= va < dst + (w + n) then src[va - dst] else UserByte(m0, r', va)
    {
      LandedByte(lo, m0, m, r, dst, src, w, v, x, n, p, f, r', va);
    }
  }

  lemma LandedByte(lo: int, m0: Mem, m: Mem, r: int, dst: int, src: seq<bv8>, w: int, v: int, x: int, n: int, p: int, f: Frame, r': int, va: int)
    requires Inv(lo, m) && SameLayout(m0, m)
    requires 0 <= w && 0 <= dst && dst + w == v * 4096 + x && 0 <= x && 0 <= n && x + n <= 4096 && w + n <= |src|
    requires UserByte(m, r', va) == if r' == r && dst <= va < dst + w then src[va - dst] else UserByte(m0, r', va)
    requires p == Ppn(Leaf(m.fs, r, v)) && InRange(m, p) && m.use[p] == User(r, v) && IsPage(m.fs[p])
    requires f == Splice(m.fs[p], x, src[w..w + n]) && SameMaps(m, Fill(m, p, f))
    requires IsRoot(m0.use, r') && TopPrivate(m0, r') && Accessible(m0, r', va)
    ensures UserByte(Fill(m, p, f), r', va) ==
            if r' == r && dst <= va < dst + (w + n) then src[va - dst] else UserByte(m0, r', va)
  {
    hide Inv, Leaf, Splice, TopPrivate, UserByte, SameLayout, IsPage, Open, SameMaps, IsRoot, Fill;
    TopKept(m0, m, r');
    ChunkByte(lo, m, r, src[w..w + n], v, x, p, f, r', va, dst + w);
  }

  /** One byte after a chunk is put into page p, that is, page v of r. */
  lemma ChunkByte(lo: int, m: Mem, r: int, bytes: seq<bv8>, v: int, x: int, p: int, f: Frame, r': int, va: int, base: int)
    requires Inv(lo, m) && IsRoot(m.use, r') && TopPrivate(m, r') && Accessible(m, r', va) && base == v * 4096 + x
    requires InRange(m, p) && m.use[p] == User(r, v) && IsPage(m.fs[p]) && 0 <= x && x + |bytes| <= 4096
    requires f == Splice(m.fs[p], x, bytes) && SameMaps(m, Fill(m, p, f)) && (r' == r && va / 4096 == v ==> Ppn(Leaf(m.fs, r, v)) == p)
    ensures UserByte(Fill(m, p, f), r', va) ==
            if r' == r && base <= va < base + |bytes| then bytes[va - base] else UserByte(m, r', va)
  {
    OpenPage(lo, m, r', va / 4096);
    SpliceAt(m.fs[p], x, bytes, va % 4096);
    hide Inv, Leaf, Splice, TopPrivate;
  }

  lemma TopKept(m0: Mem, m: Mem, r: int)
    requires SameLayout(m0, m) && IsRoot(m0.use, r)
    ensures IsRoot(m.use, r) && (TopPrivate(m0, r) ==> TopPrivate(m, r))
    ensures forall v :: Open(m, r, v) <==> Open(m0, r, v)
  {
    hide Leaf;
  }

  /** How far copyout gets. */
  ghost predicate CopiedTo(m: Mem, r: int, dst: int, src: seq<bv8>, w: int) {
    && 0 <= w <= |src| && AllAccessible(m, r, dst, dst + w)
    && (w < |src| ==> !Accessible(m, r, dst + w))
  }

  ghost predicate AllStorable(m: Mem, r: int, a: int, b: int) { forall va :: a <= va < b ==> Storable(m, r, va) }

  /** How far a user program gets that stores the bytes one after the other. */
  ghost predicate StoredTo(m: Mem, r: int, dst: int, src: seq<bv8>, w: int) {
    && 0 <= w <= |src| && AllStorable(m, r, dst, dst + w)
    && (w < |src| ==> !Storable(m, r, dst + w))
  }

  /** walkaddr does not look at PTE_W.  So copyout writes what the program's own stores would write if and only
      if every page that it writes to has PTE_W; otherwise it writes more. */
  lemma StoresAgree(m: Mem, r: int, dst: int, src: seq<bv8>, w: int, v: int)
    requires CopiedTo(m, r, dst, src, w) && StoredTo(m, r, dst, src, v)
    ensures v <= w && (v == w <==> AllStorable(m, r, dst, dst + w))
  {
    hide Leaf;
    assert w < v ==> Storable(m, r, dst + w);
    assert v < w ==> !Storable(m, r, dst + v);
  }

  /** Memory that uvmalloc has made can be stored to exactly when PTE_W was asked for. */
  lemma GrownStorable(m: Mem, r: int, a: int, b: int, xperm: int, va: int)
    requires ZeroPages(m, r, a, b, WithV(UserPerm(xperm))) && XPerm(xperm) && 0 <= a && b <= USERTOP
    requires a <= va / 4096 < b && 0 <= va
    ensures Accessible(m, r, va) && (Storable(m, r, va) <==> xperm == 4 || xperm == 12)
  {
    var e := Leaf(m.fs, r, va / 4096);
    assert PageIs(m, r, va / 4096, WithV(UserPerm(xperm)), Filled(4096, 0));
    FlagBits(e, WithV(UserPerm(xperm)));
    hide Leaf;
  }

  /** Its permissions: read always, write and execute as asked for, and nothing else. */
  lemma GrownFlags(m: Mem, r: int, a: int, b: int, xperm: int, v: int)
    requires ZeroPages(m, r, a, b, WithV(UserPerm(xperm))) && XPerm(xperm) && 0 <= a <= v < b <= USERTOP
    ensures var e := Leaf(m.fs, r, v);
            V(e) && R(e) && U(e) && (W(e) <==> xperm == 4 || xperm == 12) && (X(e) <==> xperm == 8 || xperm == 12) && e / 32 % 32 == 0
  {
    var e := Leaf(m.fs, r, v);
    assert PageIs(m, r, v, WithV(UserPerm(xperm)), Filled(4096, 0));
    hide Leaf;
    FlagBits(e, WithV(UserPerm(xperm)));
    var q := e / 1024;
    assert e / 32 == 32 * q + WithV(UserPerm(xperm)) / 32;
    ThirtyTwo(q, WithV(UserPerm(xperm)) / 32);
  }

  lemma ThirtyTwo(k: int, x: int)
    ensures (32 * k + x) % 32 == x % 32
  {
  }

  lemma FlagBits(e: int, flags: int)
    requires e % 1024 == flags
    ensures (V(e) <==> V(flags)) && (U(e) <==> U(flags)) && (W(e) <==> W(flags)) && (R(e) <==> R(flags)) && (X(e) <==> X(flags))
  {
    var q := e / 1024;
    assert e == 2 * (512 * q) + flags;
    assert e / 4 == 2 * (128 * q) + flags / 4 && e / 16 == 2 * (32 * q) + flags / 16;
    assert e / 2 == 2 * (256 * q) + flags / 2 && e / 8 == 2 * (64 * q) + flags / 8;
    Parity(512 * q, flags);
    Parity(256 * q, flags / 2);
    Parity(128 * q, flags / 4);
    Parity(64 * q, flags / 8);
    Parity(32 * q, flags / 16);
  }

  lemma Parity(k: int, x: int)
    ensures (2 * k + x) % 2 == x % 2
  {
  }

  /** On a page of a text segment, which exec maps with PTE_X alone, copyout writes a byte where a store faults. */
  lemma TextIsWritten(m: Mem, r: int, a: int, b: int, va: int, c: bv8, w: int, v: int)
    requires ZeroPages(m, r, a, b, WithV(UserPerm(8))) && 0 <= a && b <= USERTOP && a <= va / 4096 < b && 0 <= va
    requires CopiedTo(m, r, va, [c], w) && StoredTo(m, r, va, [c], v)
    ensures w == 1 && v == 0
  {
    GrownStorable(m, r, a, b, 8, va);
    hide Storable, Accessible;
  }

  /** copyout.  `w` bytes arrive: all of them, or those before the first byte that is not valid user memory. */
  method Copyout(mc: Machine, r: int, dst0: int, src: seq<bv8>) returns (ret: int, ghost w: int)
    requires mc.Valid() && IsRoot(mc.use, r) && TopPrivate(mc.Now(), r) && 0 <= dst0
    modifies mc`frames, mc`freelist, mc`use, mc`chain
    ensures mc.Valid() && Copying(mc.lo, old(mc.Now()), mc.Now(), r, dst0, src, w)
    ensures ret == if w == |src| then 0 else -1
    ensures CopiedTo(old(mc.Now()), r, dst0, src, w)
  {
    hide Copying, TopPrivate, Accessible, Inv, AllAccessible;
    ghost var m0 := mc.Now();
    CopyingStart(mc.lo, m0, r, dst0, src);
    var dstva := dst0;
    var done := 0;
    w := 0;
    while done < |src|
      invariant 0 <= done <= |src| && w == done && 0 <= dstva && (done < |src| ==> dstva == dst0 + done)
      invariant mc.Valid() && IsRoot(mc.use, r) && Copying(mc.lo, m0, mc.Now(), r, dst0, src, w)
      invariant AllAccessible(m0, r, dst0, dst0 + w)
    {
      var ok, n, next := CopyoutChunk(mc, m0, r, dst0, src, done, dstva);
      if !ok {
        return -1, w;
      }
      AccessibleThen(m0, r, dst0, dstva, dstva + n);
      done := done + n;
      w := w + n;
      dstva := next;
    }
    ret := 0;
  }

  /** One turn of the loop of copyout: as much as fits the page of dstva. */
  method CopyoutChunk(mc: Machine, ghost m0: Mem, r: int, ghost dst0: int, src: seq<bv8>, done: int, dstva: int)
    returns (ok: bool, n: int, next: int)
    requires mc.Valid() && Inv(mc.lo, m0) && IsRoot(m0.use, r) && TopPrivate(m0, r) && 0 <= dst0
    requires 0 <= done < |src| && dstva == dst0 + done && Copying(mc.lo, m0, mc.Now(), r, dst0, src, done)
    modifies mc`frames, mc`freelist, mc`use, mc`chain
    ensures mc.Valid() && IsRoot(mc.use, r)
    ensures if ok then 0 < n <= |src| - done && Copying(mc.lo, m0, mc.Now(), r, dst0, src, done + n)
            else Copying(mc.lo, m0, mc.Now(), r, dst0, src, done) && !Accessible(m0, r, dst0 + done)
    ensures ok ==> AllAccessible(m0, r, dstva, dstva + n) && 0 <= next
    ensures ok && n < |src| - done ==> dstva + n == next
  {
    hide Inv, Leaf, TopPrivate, Splice, IsPage, Copying, Accessible, Open, AllAccessible, PageDown;
    ghost var m := mc.Now();
    ChunkStart(mc.lo, m0, m, r, dst0, src, done, dstva);
    ghost var v := dstva / 4096;
    var va0 := PageDown(dstva);
    var pa0 := Walkaddr(mc, r, va0);
    if pa0 == 0 {
      return false, 0, 0;
    }
    n := Min(4096 - (dstva - va0), |src| - done);
    SamePage(m0, r, dstva, n);
    PutChunk(mc, m0, r, dst0, src, done, v, dstva - va0, n, pa0 / 4096);
    ok := true;
    next := va0 + 4096;
  }

  function Min(a: int, b: int): int { if a < b then a else b }

  /** PGROUNDDOWN. */
  function PageDown(va: int): (base: int)
    requires 0 <= va
    ensures 0 <= base <= va < base + 4096 && base % 4096 == 0 && base / 4096 == va / 4096 && base == va / 4096 * 4096
    ensures va - base == va % 4096
  {
    va / 4096 * 4096
  }

  /** memmove((void *)(pa0 + (dstva - va0)), src, n). */
  method PutChunk(mc: Machine, ghost m0: Mem, r: int, ghost dst0: int, src: seq<bv8>, done: int, ghost v: int, x: int, n: int, p: int)
    requires mc.Valid() && Inv(mc.lo, m0) && IsRoot(m0.use, r) && TopPrivate(m0, r) && Copying(mc.lo, m0, mc.Now(), r, dst0, src, done)
    requires 0 <= dst0 && 0 <= done && dst0 + done == v * 4096 + x && 0 <= x && 0 <= n && x + n <= 4096 && done + n <= |src|
    requires Open(mc.Now(), r, v) && p == Ppn(Leaf(mc.frames, r, v))
    modifies mc`frames
    ensures mc.Valid() && IsRoot(mc.use, r) && Copying(mc.lo, m0, mc.Now(), r, dst0, src, done + n)
  {
    ghost var m := mc.Now();
    CopyingMore(mc.lo, m0, m, r, dst0, src, done, v, x, n, p);
    CopyingInv(mc.lo, m0, m, r, dst0, src, done);
    hide Inv, Leaf, TopPrivate, Splice, Copying;
    mc.frames := mc.frames[p := Splice(mc.frames[p], x, src[done..done + n])];
    CopyingInv(mc.lo, m0, mc.Now(), r, dst0, src, done + n);
  }

  lemma ChunkStart(lo: int, m0: Mem, m: Mem, r: int, dst: int, src: seq<bv8>, w: int, dstva: int)
    requires Copying(lo, m0, m, r, dst, src, w) && IsRoot(m0.use, r) && TopPrivate(m0, r) && 0 <= dstva == dst + w
    ensures IsRoot(m.use, r) && TopPrivate(m, r)
    ensures Open(m, r, dstva / 4096) == Open(m0, r, dstva / 4096) == Accessible(m0, r, dstva)
  {
    TopKept(m0, m, r);
    hide Inv, Leaf, TopPrivate, Landed, SameLayout;
  }

  lemma CopyingInv(lo: int, m0: Mem, m: Mem, r: int, dst: int, src: seq<bv8>, w: int)
    requires Copying(lo, m0, m, r, dst, src, w)
    ensures Inv(lo, m) && m.use == m0.use
  {
    hide Inv, Landed, SameMaps;
  }

  ghost predicate AllAccessible(m: Mem, r: int, a: int, b: int) { forall va :: a <= va < b ==> Accessible(m, r, va) }

  lemma AccessibleThen(m: Mem, r: int, a: int, b: int, c: int)
    requires AllAccessible(m, r, a, b) && AllAccessible(m, r, b, c)
    ensures AllAccessible(m, r, a, c)
  {
    hide Accessible;
  }

  lemma SamePage(m: Mem, r: int, va: int, n: int)
    requires Open(m, r, va / 4096) && 0 <= va && 0 <= n && va % 4096 + n <= 4096
    ensures AllAccessible(m, r, va, va + n)
  {
    forall b | va <= b < va + n ensures Accessible(m, r, b) {
      assert b / 4096 == va / 4096;
    }
  }

  // ----- Reading user memory -----

  /** out holds the valid user memory of r from va on. */
  ghost predicate Seen(m: Mem, r: int, va: int, out: seq<bv8>) {
    forall b :: va <= b < va + |out| ==> Accessible(m, r, b) && out[b - va] == UserByte(m, r, b)
  }

  lemma SeenPage(lo: int, m: Mem, r: int, va: int, v: int, x: int, n: int, p: int)
    requires Inv(lo, m) && IsRoot(m.use, r) && TopPrivate(m, r) && Open(m, r, v) && p == Ppn(Leaf(m.fs, r, v))
    requires 0 <= va == v * 4096 + x && 0 <= x && 0 <= n && x + n <= 4096
    ensures InRange(m, p) && IsPage(m.fs[p]) && Seen(m, r, va, m.fs[p].bytes[x..x + n])
  {
    OpenPage(lo, m, r, v);
    hide Inv, Leaf, TopPrivate;
    forall b | va <= b < va + n
      ensures Accessible(m, r, b) && m.fs[p].bytes[x..x + n][b - va] == UserByte(m, r, b)
    {
      assert b / 4096 == v && b % 4096 == x + (b - va);
    }
  }

  lemma SeenThen(m: Mem, r: int, va: int, out: seq<bv8>, more: seq<bv8>)
    requires Seen(m, r, va, out) && Seen(m, r, va + |out|, more)
    ensures Seen(m, r, va, out + more)
  {
    hide Accessible, UserByte;
  }

  /** The part of one page that copyin and copyinstr read in a turn: up to `limit` bytes from srcva on. */
  method ReadChunk(mc: Machine, r: int, srcva: int, limit: int) returns (ok: bool, chunk: seq<bv8>, next: int)
    requires mc.Valid() && IsRoot(mc.use, r) && TopPrivate(mc.Now(), r) && 0 <= srcva && 0 < limit
    modifies mc`frames, mc`freelist, mc`use, mc`chain
    ensures mc.Valid() && mc.Now() == old(mc.Now()) && Seen(mc.Now(), r, srcva, chunk)
    ensures if ok then 0 < |chunk| <= limit && 0 <= next && (|chunk| < limit ==> srcva + |chunk| == next)
            else chunk == [] && !Accessible(mc.Now(), r, srcva)
  {
    ghost var m := mc.Now();
    assert Seen(m, r, srcva, []) && Accessible(m, r, srcva) == Open(m, r, srcva / 4096);
    hide Inv, Leaf, TopPrivate, UserByte, Open, Accessible, Seen;
    var va0 := srcva / 4096 * 4096;
    assert va0 / 4096 == srcva / 4096 && srcva - va0 == srcva % 4096;
    var pa0 := Walkaddr(mc, r, va0);
    if pa0 == 0 {
      return false, [], 0;
    }
    var n := 4096 - (srcva - va0);
    if n > limit {
      n := limit;
    }
    var p, x := pa0 / 4096, srcva - va0;
    SeenPage(mc.lo, m, r, srcva, srcva / 4096, x, n, p);
    ok := true;
    chunk := mc.frames[p].bytes[x..x + n];
    next := va0 + 4096;
  }

  /** copyin. */
  method Copyin(mc: Machine, r: int, src0: int, len0: int) returns (ret: int, dst: seq<bv8>)
    requires mc.Valid() && IsRoot(mc.use, r) && TopPrivate(mc.Now(), r) && 0 <= src0 && 0 <= len0
    modifies mc`frames, mc`freelist, mc`use, mc`chain
    ensures mc.Valid() && mc.Now() == old(mc.Now()) && Seen(mc.Now(), r, src0, dst) && |dst| <= len0
    ensures ret == if |dst| == len0 then 0 else -1
    ensures |dst| < len0 ==> !Accessible(mc.Now(), r, src0 + |dst|)
  {
    ghost var m := mc.Now();
    assert Seen(m, r, src0, []);
    hide Inv, Leaf, TopPrivate, UserByte, Accessible, Seen;
    dst := [];
    var srcva := src0;
    var len := len0;
    while len > 0
      invariant 0 <= len && |dst| + len == len0 && 0 <= srcva && (len > 0 ==> srcva == src0 + |dst|)
      invariant mc.Valid() && mc.Now() == m && Seen(m, r, src0, dst)
    {
      var ok, chunk, next := ReadChunk(mc, r, srcva, len);
      if !ok {
        return -1, dst;
      }
      SeenThen(m, r, src0, dst, chunk);
      dst := dst + chunk;
      len := len - |chunk|;
      srcva := next;
    }
    ret := 0;
  }

  /** A string from va on with its NUL at z. */
  ghost predicate StringAt(m: Mem, r: int, va: int, z: int) {
    && va <= z && (forall b :: va <= b <= z ==> Accessible(m, r, b))
    && (forall b :: va <= b < z ==> UserByte(m, r, b) != 0) && UserByte(m, r, z) == 0
  }

  predicate NoNul(s: seq<bv8>) { forall k :: 0 <= k < |s| ==> s[k] != 0 }

  /** The inner loop of copyinstr: bytes of one page up to a NUL. */
  method TakeString(bytes: seq<bv8>) returns (got: bool, k: int)
    ensures 0 <= k <= |bytes| && NoNul(bytes[..k])
    ensures if got then k < |bytes| && bytes[k] == 0 else k == |bytes|
  {
    got := false;
    k := 0;
    var n := |bytes|;
    while n > 0
      invariant 0 <= n && k + n == |bytes| && NoNul(bytes[..k])
    {
      if bytes[k] == 0 {
        return true, k;
      }
      n := n - 1;
      k := k + 1;
    }
  }

  /** copyinstr: 0 exactly when a string ends within max bytes of accessible memory, and then that string. */
  method Copyinstr(mc: Machine, r: int, src0: int, max0: int) returns (ret: int, dst: seq<bv8>)
    requires mc.Valid() && IsRoot(mc.use, r) && TopPrivate(mc.Now(), r) && 0 <= src0 && 0 <= max0
    modifies mc`frames, mc`freelist, mc`use, mc`chain
    ensures mc.Valid() && mc.Now() == old(mc.Now()) && Seen(mc.Now(), r, src0, dst) && |dst| <= max0
    ensures ret == 0 || ret == -1
    ensures ret == 0 ==> 0 < |dst| && StringAt(mc.Now(), r, src0, src0 + |dst| - 1)
    ensures ret == -1 ==> forall z :: src0 <= z < src0 + max0 ==> !StringAt(mc.Now(), r, src0, z)
  {
    hide Inv, Leaf, TopPrivate, UserByte, Accessible, Seen, StringAt, NoNul;
    ghost var m := mc.Now();
    SeenNothing(m, r, src0);
    dst := [];
    var srcva := src0;
    var max := max0;
    while max > 0
      invariant 0 <= max && |dst| + max == max0 && 0 <= srcva && (max > 0 ==> srcva == src0 + |dst|)
      invariant mc.Valid() && mc.Now() == m && Seen(m, r, src0, dst) && NoNul(dst)
    {
      var ok, chunk, next := ReadChunk(mc, r, srcva, max);
      if !ok {
        NoString(m, r, src0, dst, max0);
        return -1, dst;
      }
      SeenThen(m, r, src0, dst, chunk);
      var got, k := TakeString(chunk);
      if got {
        StringFound(m, r, src0, dst, chunk, k);
        return 0, dst + chunk[..k + 1];
      }
      assert chunk[..k] == chunk;
      NoNulMore(dst, chunk);
      dst := dst + chunk;
      max := max - k;
      srcva := next;
    }
    NoString(m, r, src0, dst, max0);
    ret := -1;
  }

  lemma SeenNothing(m: Mem, r: int, va: int)
    ensures Seen(m, r, va, []) && NoNul([])
  {
  }

  lemma NoNulMore(a: seq<bv8>, b: seq<bv8>)
    requires NoNul(a) && NoNul(b)
    ensures NoNul(a + b)
  {
  }

  lemma StringFound(m: Mem, r: int, va: int, dst: seq<bv8>, chunk: seq<bv8>, k: int)
    requires Seen(m, r, va, dst + chunk) && NoNul(dst) && 0 <= k < |chunk| && NoNul(chunk[..k]) && chunk[k] == 0
    ensures Seen(m, r, va, dst + chunk[..k + 1]) && StringAt(m, r, va, va + |dst| + k)
  {
    hide Accessible, UserByte;
    var all, taken := dst + chunk, dst + chunk[..k + 1];
    var z := va + |dst| + k;
    assert all[z - va] == 0;
    forall b | va <= b <= z
      ensures Accessible(m, r, b) && UserByte(m, r, b) == taken[b - va] && (b < z ==> taken[b - va] != 0)
    {
      assert Accessible(m, r, b) && all[b - va] == UserByte(m, r, b) && taken[b - va] == all[b - va];
      if va + |dst| <= b < z {
        assert chunk[..k][b - va - |dst|] != 0;
      }
    }
  }

  lemma NoString(m: Mem, r: int, va: int, dst: seq<bv8>, max: int)
    requires Seen(m, r, va, dst) && NoNul(dst) && (|dst| == max || !Accessible(m, r, va + |dst|))
    ensures forall z :: va <= z < va + max ==> !StringAt(m, r, va, z)
  {
    hide Accessible, UserByte;
    forall z | va <= z < va + max ensures !StringAt(m, r, va, z) {
      if z < va + |dst| {
        assert dst[z - va] == UserByte(m, r, z);
      }
    }
  }
}
