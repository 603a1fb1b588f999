/** kernel/kalloc.c and kernel/vm.c on physical memory.  Addresses are page numbers where the code only
    looks at pages, and byte addresses where it takes them. */
module Vm {
  import opened PageTree
  import opened PageMemory
  import opened PageGrowth
  import opened PageCount

  const PGSIZE: int := 4096
  const MAXVA: int := 0x40_0000_0000

  /** PGROUNDUP(sz) / PGSIZE. */
  function PagesOf(sz: int): int { (sz + 4095) / 4096 }

  class Machine {
    const lo: int
    var frames: seq<Frame>
    var freelist: int
    ghost var use: seq<Use>
    ghost var chain: seq<int>

    ghost function Now(): Mem
      reads this
    {
      Mem(frames, use, chain)
    }

    ghost predicate Valid()
      reads this
    {
      Inv(lo, Now()) && freelist == Head(chain)
    }

    // ----- kalloc.c -----

    /** Memory before kinit: every page is the kernel's. */
    constructor (firstFree: int, memory: seq<Frame>)
      requires 0 < firstFree <= |memory|
      ensures Valid() && lo == firstFree && frames == memory && chain == [] && |use| == |memory|
      ensures forall p :: 0 <= p < |use| ==> use[p].Held?
    {
      lo := firstFree;
      frames := memory;
      freelist := 0;
      use := seq(|memory|, i => Held);
      chain := [];
    }

    /** kinit's freerange: all pages from the end of the kernel to PHYSTOP become free. */
    method Freerange()
      requires Valid() && forall p :: lo <= p < |use| ==> use[p].Held?
      modifies this`frames, this`freelist, this`use, this`chain
      ensures Valid() && |use| == old(|use|) && forall p :: lo <= p < |use| ==> use[p].Free?
      ensures |chain| == old(|chain|) + (|use| - lo)
    {
      InvSizes(lo, Now());
      hide Inv;
      var p := lo;
      while p < |frames|
        invariant lo <= p <= |frames| == |use| == old(|use|) && Valid() && 0 < lo
        invariant |chain| == old(|chain|) + (p - lo)
        invariant forall q :: lo <= q < p ==> use[q].Free?
        invariant forall q :: p <= q < |use| ==> use[q].Held?
      {
        KfreeInv(lo, Now(), p);
        assert p * 4096 / 4096 == p && p * 4096 % 4096 == 0;
        Kfree(p * 4096);
        p := p + 1;
      }
    }

    /** kfree.  Fills the page with 1s in the original; what counts is the link it then holds. */
    method Kfree(pa: int)
      requires pa % 4096 == 0 && lo <= pa / 4096 < |frames| == |use| && 0 < lo
      requires freelist == Head(chain)
      modifies this`frames, this`freelist, this`use, this`chain
      ensures Now() == KfreeMem(old(Now()), pa / 4096) && freelist == Head(chain)
    {
      var r := pa / 4096;
      frames := frames[r := Link(freelist)];
      freelist := r;
      use := use[r := Free];
      chain := [r] + chain;
    }

    /** kalloc: the page number of a free page, or 0 when there is none. */
    method Kalloc() returns (r: int)
      requires Valid()
      modifies this`frames, this`freelist, this`use, this`chain
      ensures Valid()
      ensures r == 0 <==> old(chain) == []
      ensures r == 0 ==> Now() == old(Now())
      ensures r != 0 ==> r == old(chain[0]) && InRange(old(Now()), r) && Now() == KallocMem(old(Now()))
    {
      r := freelist;
      if r != 0 {
        ghost var m := Now();
        KallocInv(lo, m);
        assert LinkAt(frames, chain, 0);
        InvSizes(lo, m);
        hide Inv, Filled;
        freelist := frames[r].next;
        frames := frames[r := Data(Filled(4096, 5))];
        use := use[r := Held];
        chain := chain[1..];
      } else {
        assert chain != [] ==> LinkAt(frames, chain, 0);
      }
    }

    // ----- walk -----

    lemma LevelDown(r: int, n: int, level: int, v: int, i: int)
      requires Inv(lo, Now()) && 0 <= v < 0x400_0000 && InRange(Now(), n) && 1 <= level <= 2
      requires use[n].Node? && use[n].root == r && use[n].level == level && use[n].prefix == Above(level, v) && i == PX(level, v)
      ensures frames[n].Table? && |frames[n].ptes| == 512 && 0 <= i < 512
      ensures Entry(frames, n, i) == frames[n].ptes[i] && (V(frames[n].ptes[i]) <==> frames[n].ptes[i] != 0)
      ensures V(frames[n].ptes[i]) ==> var c := Ppn(frames[n].ptes[i]);
                InRange(Now(), c) && use[c].Node? && use[c].root == r && use[c].level == level - 1 && use[c].prefix == Above(level - 1, v)
      ensures use[n].prefix * 512 + i == Above(level - 1, v) && (level == 2 ==> i < 256)
    {
      Split(v);
      DownPlace(frames, use, n, i);
      assert NodeOk(frames, use, n);
      hide Threaded, FreeOk, UsersOk, MapsOk, Kernel;
    }

    /** One level of walk: the table below entry PX(level, v) of table n, made if asked for. */
    method WalkLevel(r: int, n: int, level: int, v: int, alloc: bool) returns (c: int)
      requires Valid() && IsRoot(use, r) && 0 <= v < 0x400_0000 && InRange(Now(), n) && 1 <= level <= 2
      requires use[n].Node? && use[n].root == r && use[n].level == level && use[n].prefix == Above(level, v)
      modifies this`frames, this`freelist, this`use, this`chain
      ensures Valid() && Grown(lo, old(Now()), Now(), r, 0, 0, -1) && |use| == old(|use|)
      ensures !alloc ==> Now() == old(Now()) && (c == 0 <==> Entry(frames, n, PX(level, v)) == 0)
      ensures !alloc && c != 0 ==> c == Down(frames, n, PX(level, v))
      ensures c != 0 ==> InRange(Now(), c) && use[c].Node? && use[c].root == r && use[c].level == level - 1 && use[c].prefix == Above(level - 1, v)
      ensures alloc && c != 0 ==> Levelled(old(Now()), Now(), r, level - 1, Above(level - 1, v))
      ensures alloc && c == 0 ==> old(chain) == chain == [] && !HasTable(old(use), r, level - 1, Above(level - 1, v))
    {
      hide HasTable, Levelled;
      ghost var m := Now();
      GrownStart(lo, m, r, 0);
      var i := PX(level, v);
      LevelDown(r, n, level, v, i);
      IndexOf(level, v);
      hide Inv, Filled, PX, Above, Grown;
      var pte := frames[n].ptes[i];
      if V(pte) {
        c := Ppn(pte);
        NodePage(m, c);
        FoundTable(m, r, level - 1, Above(level - 1, v), c);
      } else if !alloc {
        c := 0;
      } else {
        NoTable(lo, m, r, n, level, v);
        c := Kalloc();
        if c != 0 {
          GrownKalloc(lo, m, m, r, 0, 0);
          EntryKept(m, n, i, c);
          NewTable(m, r, n, i, c, v, level);
          MadeTable(m, Now(), r, level - 1, Above(level - 1, v), c);
        }
      }
    }

    /** A node is never page 0. */
    lemma NodePage(m: Mem, c: int)
      requires Inv(lo, m) && InRange(m, c) && m.use[c].Node?
      ensures c != 0
    {
      hide Tree, Threaded, FreeOk, UsersOk, MapsOk;
    }

    lemma EntryKept(m: Mem, n: int, i: int, c: int)
      requires InRange(m, n) && m.use[n].Node? && m.chain != [] && c == m.chain[0] && InRange(m, c) && Now() == KallocMem(m)
      requires Entry(m.fs, n, i) == 0 && m.use[c].Free?
      ensures Entry(frames, n, i) == 0 && InRange(Now(), n) && use[n] == m.use[n]
    {
      hide Filled;
    }

    /** memset(pagetable, 0, PGSIZE); *pte = PA2PTE(pagetable) | PTE_V. */
    method NewTable(ghost m: Mem, r: int, n: int, i: int, c: int, ghost v: int, ghost level: int)
      requires Grown(lo, m, Now(), r, 0, 0, c) && c != -1 && lo <= c && Valid()
      requires InRange(Now(), n) && use[n].Node? && use[n].root == r && use[n].level > 0 && 0 <= i < 512 && Entry(frames, n, i) == 0
      requires use[n].level == level && use[n].prefix * 512 + i == Above(level - 1, v) && (level == 2 ==> i < 256)
      modifies this`frames, this`use
      ensures Valid() && Grown(lo, m, Now(), r, 0, 0, -1) && InRange(Now(), c)
      ensures use[c].Node? && use[c].root == r && use[c].level == level - 1 && use[c].prefix == Above(level - 1, v)
      ensures use == old(use)[c := use[c]]
    {
      hide Above, Inv, Zeros, Grown;
      var zeros := ZeroTable();
      GrownFill(lo, m, Now(), r, 0, 0, c, zeros);
      frames := frames[c := zeros];
      GrownTable(lo, m, Now(), r, 0, 0, n, i, c);
      frames := SetEntry(frames, n, i, c * 1024 + 1);
      use := use[c := Node(use[n].root, use[n].level - 1, use[n].prefix * 512 + i, n)];
      GrownInv(lo, m, Now(), r, 0, 0, -1);
    }

    /** walk: where the entry for va is kept.  ok is false when the original returns 0. */
    method Walk(r: int, va: int, alloc: bool) returns (ok: bool, n: int, i: int)
      requires Valid() && IsRoot(use, r) && 0 <= va < MAXVA
      modifies this`frames, this`freelist, this`use, this`chain
      ensures Valid() && Grown(lo, old(Now()), Now(), r, 0, 0, -1) && |use| == old(|use|)
      ensures ok ==> EntryOf(Now(), n, r, va / 4096) && i == va / 4096 % 512
      ensures !alloc ==> Now() == old(Now())
      ensures !ok ==> if alloc then chain == [] else Leaf(frames, r, va / 4096) == 0
      ensures alloc ==> Afforded(old(Now()), Now(), r, va / 4096, va / 4096 + 1, 0, ok)
    {
      hide Levelled, Billed, HasTable, Tables;
      ghost var m := Now();
      var v := va / 4096;
      GrownStart(lo, m, r, 0);
      Split(v);
      RootPlace(r);
      hide Inv;
      n := r;
      i := v % 512;
      var level := 2;
      while level > 0
        invariant 0 <= level <= 2 && Valid() && Grown(lo, m, Now(), r, 0, 0, -1) && |use| == old(|use|) && IsRoot(use, r)
        invariant InRange(Now(), n) && use[n].Node? && use[n].root == r && use[n].level == level && use[n].prefix == Above(level, v)
        invariant !alloc ==> Now() == m
        invariant level == 2 ==> n == r
        invariant level == 1 && !alloc ==> n == Down(frames, r, v / 262144)
        invariant alloc ==> OnTheWay(m, Now(), r, level, v)
      {
        ghost var mid := Now();
        var c := WalkLevel(r, n, level, v, alloc);
        GrownThen(lo, m, mid, Now(), r, 0, 0, 0, -1, -1);
        if c == 0 {
          NotThere(frames, r, v);
          if alloc {
            NoWayOn(m, mid, r, level, v);
          }
          return false, n, i;
        }
        if alloc {
          WayOn(m, mid, Now(), r, level, v);
        }
        n := c;
        level := level - 1;
      }
      ok := true;
    }

    lemma RootPlace(r: int)
      requires Inv(lo, Now()) && IsRoot(use, r)
      ensures InRange(Now(), r) && use[r].root == r && use[r].prefix == 0
    {
      assert NodeOk(frames, use, r);
      hide Threaded, FreeOk, UsersOk, MapsOk, Kernel;
    }
  }

  /** What walk has taken from the free pages when it has come down to a level. */
  ghost predicate OnTheWay(m0: Mem, m: Mem, r: int, level: int, v: int) {
    if level == 2 then m == m0 else if level == 1 then Levelled(m0, m, r, 1, v / 262144) else Billed(m0, m, r, v, v + 1, 0)
  }

  lemma WayOn(m0: Mem, m: Mem, m': Mem, r: int, level: int, v: int)
    requires OnTheWay(m0, m, r, level, v) && 1 <= level <= 2 && Levelled(m, m', r, level - 1, Above(level - 1, v))
    ensures OnTheWay(m0, m', r, level - 1, v)
  {
    hide Levelled, Billed;
    if level == 1 {
      BothLevels(m0, m, m', r, v);
    }
  }

  lemma NoWayOn(m0: Mem, m: Mem, r: int, level: int, v: int)
    requires OnTheWay(m0, m, r, level, v) && 1 <= level <= 2 && m.chain == [] && !HasTable(m.use, r, level - 1, Above(level - 1, v))
    ensures |m0.chain| < Tables(m0.use, r, v, v + 1)
  {
    hide Levelled, Billed, Tables, HasTable;
    if level == 1 {
      NoLower(m0, m, r, v);
    } else {
      NoUpper(m0, r, v);
    }
  }

  lemma IndexOf(level: int, v: int)
    requires 1 <= level <= 2 && 0 <= v < 0x400_0000
    ensures PX(level, v) == Above(level - 1, v) % 512
  {
    Split(v);
  }

  /** PX(level, va). */
  function PX(level: int, v: int): int { if level == 2 then v / 262144 else if level == 1 then v / 512 % 512 else v % 512 }

  lemma NotThere(fs: seq<Frame>, r: int, v: int)
    ensures Entry(fs, r, v / 262144) == 0 ==> Leaf(fs, r, v) == 0
    ensures Entry(fs, Down(fs, r, v / 262144), v / 512 % 512) == 0 ==> Leaf(fs, r, v) == 0
  {
  }

  /** A page of 512 zero entries. */
  function ZeroEntries(n: nat): (s: seq<int>)
    ensures |s| == n && forall i :: 0 <= i < n ==> s[i] == 0
  {
    if n == 0 then [] else ZeroEntries(n - 1) + [0]
  }

  method ZeroTable() returns (f: Frame)
    ensures Zeros(f)
  {
    f := Table(ZeroEntries(512));
  }
}
