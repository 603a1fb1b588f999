/** freewalk of kernel/vm.c: taking a page table apart, page by page. */
module VmFree {
  import opened PageTree
  import opened PageMemory
  import opened PageGrowth
  import opened Vm

  ghost predicate Listed(lo: int, m: Mem) { |m.fs| == |m.use| && Threaded(m.fs, m.chain) && FreeOk(m) && Kernel(lo, m) }

  predicate IsNode(use: seq<Use>, q: int) { 0 <= q < |use| && use[q].Node? }

  /** c is the node below one of the entries [0, i) of p. */
  predicate Below(use: seq<Use>, p: int, i: int, c: int) {
    IsNode(use, c) && c != p && use[c].up == p && use[c].prefix % 512 < i
  }

  /** q is such a node, or lies below one. */
  predicate Via(use: seq<Use>, p: int, i: int, q: int) {
    Below(use, p, i, q) || (IsNode(use, q) && q != use[q].up && Below(use, p, i, use[q].up))
  }

  /** In m0, the node at p has no mapping below it. */
  ghost predicate NoLeaves(m: Mem, r: int) { forall v :: 0 <= v < 0x400_0000 ==> Leaf(m.fs, r, v) == 0 }

  lemma LevelUp(lo: int, m: Mem, q: int)
    requires Inv(lo, m) && IsNode(m.use, q)
    ensures 0 <= m.use[q].level <= 2 && 0 <= m.use[q].prefix && |m.fs| == |m.use|
    ensures m.use[q].level == 2 ==> m.use[q].up == q && m.use[q].root == q
    ensures m.use[q].level < 2 ==> IsNode(m.use, m.use[q].up) && m.use[m.use[q].up].level == m.use[q].level + 1
    ensures m.use[q].level < 2 ==> m.use[m.use[q].up].root == m.use[q].root
    ensures m.use[q].level < 2 ==> Entry(m.fs, m.use[q].up, m.use[q].prefix % 512) == q * 1024 + 1
  {
    assert NodeOk(m.fs, m.use, q);
    hide Threaded, FreeOk, UsersOk, MapsOk, Kernel, EntryOk;
  }

  /** What entry i of p adds. */
  lemma ViaNext(lo: int, m: Mem, p: int, i: int, q: int)
    requires Inv(lo, m) && IsNode(m.use, p) && 0 <= i < 512
    ensures Entry(m.fs, p, i) == 0 ==> (Via(m.use, p, i + 1, q) <==> Via(m.use, p, i, q))
    ensures Entry(m.fs, p, i) != 0 && m.use[p].level > 0 ==>
              var c := Ppn(Entry(m.fs, p, i));
              Below(m.use, p, i + 1, c) && c != p && m.use[c].level == m.use[p].level - 1 && m.use[c].root == m.use[p].root &&
              !Via(m.use, p, i, c) && (Via(m.use, c, 512, q) ==> !Via(m.use, p, i, q)) &&
              (Via(m.use, p, i + 1, q) <==> Via(m.use, p, i, q) || q == c || Via(m.use, c, 512, q))
  {
    hide Inv, Entry, Ppn;
    LevelUp(lo, m, p);
    if m.use[p].level > 0 && Entry(m.fs, p, i) != 0 {
      ChildAt(lo, m, p, i);
      LevelUp(lo, m, Ppn(Entry(m.fs, p, i)));
    }
    if IsNode(m.use, q) {
      LevelUp(lo, m, q);
      OnlyChild(lo, m, p, i, q);
      var u := m.use[q].up;
      LevelUp(lo, m, u);
      OnlyChild(lo, m, p, i, u);
    }
  }

  lemma ChildAt(lo: int, m: Mem, p: int, i: int)
    requires Inv(lo, m) && IsNode(m.use, p) && 0 <= i < 512 && m.use[p].level > 0 && Entry(m.fs, p, i) != 0
    ensures var c := Ppn(Entry(m.fs, p, i));
            IsNode(m.use, c) && m.use[c] == Node(m.use[p].root, m.use[p].level - 1, m.use[p].prefix * 512 + i, p) && m.use[c].prefix % 512 == i
  {
    DownPlace(m.fs, m.use, p, i);
    hide Threaded, FreeOk, UsersOk, MapsOk, Kernel, Tree;
    var x := m.use[p].prefix;
    assert (x * 512 + i) % 512 == i;
  }

  /** A node that names entry i of p as its place is the one that entry refers to. */
  lemma OnlyChild(lo: int, m: Mem, p: int, i: int, q: int)
    requires Inv(lo, m) && IsNode(m.use, q)
    ensures m.use[q].up == p && q != p && m.use[q].prefix % 512 == i ==>
              Entry(m.fs, p, i) == q * 1024 + 1 && Entry(m.fs, p, i) != 0 && Ppn(Entry(m.fs, p, i)) == q
  {
    LevelUp(lo, m, q);
    TableEntry(q);
  }

  /** The lowest tables below p hold no entry. */
  ghost predicate Bare(m: Mem, p: int) {
    forall q, i :: (q == p || Via(m.use, p, 512, q)) && IsNode(m.use, q) && m.use[q].level == 0 && 0 <= i < 512 ==> Entry(m.fs, q, i) == 0
  }

  /** The tables of p's subtree are in m as they were in m0. */
  ghost predicate Intact(m0: Mem, m: Mem, p: int) {
    && |m.use| == |m.fs| == |m0.use| == |m0.fs|
    && forall q :: 0 <= q < |m.use| && (q == p || Via(m0.use, p, 512, q)) ==> m.use[q] == m0.use[q] && m.fs[q] == m0.fs[q]
  }

  predicate Emptied(f0: Frame, f: Frame, i: int) {
    f.Table? && f0.Table? && |f.ptes| == |f0.ptes| == 512 && forall j :: 0 <= j < 512 ==> f.ptes[j] == if j < i then 0 else f0.ptes[j]
  }

  predicate SamePage(m1: Mem, m: Mem, q: int)
    requires InRange(m1, q) && InRange(m, q)
  {
    m.use[q] == m1.use[q] && (m1.use[q].Free? || m.fs[q] == m1.fs[q])
  }

  /** freewalk(p) after i turns: what hung below the first i entries is free. */
  ghost predicate Pruned(lo: int, m0: Mem, m1: Mem, m: Mem, p: int, i: int) {
    && Listed(lo, m) && |m.use| == |m.fs| == |m1.use| == |m1.fs| == |m0.use| == |m0.fs| && 0 <= p < |m.use|
    && m.use[p] == m1.use[p] && Emptied(m0.fs[p], m.fs[p], i)
    && forall q :: 0 <= q < |m.use| && q != p ==> if Via(m0.use, p, i, q) then m.use[q].Free? else SamePage(m1, m, q)
  }

  /** freewalk(p) is done. */
  ghost predicate Dead(lo: int, m0: Mem, m1: Mem, m: Mem, p: int) {
    && Listed(lo, m) && |m.use| == |m.fs| == |m1.use| == |m1.fs| == |m0.use|
    && forall q :: 0 <= q < |m.use| ==> if q == p || Via(m0.use, p, 512, q) then m.use[q].Free? else SamePage(m1, m, q)
  }

  lemma PrunedStart(lo: int, m0: Mem, m1: Mem, p: int)
    requires Inv(lo, m0) && IsNode(m0.use, p) && Listed(lo, m1) && Intact(m0, m1, p)
    ensures Pruned(lo, m0, m1, m1, p, 0)
  {
    assert NodeOk(m0.fs, m0.use, p);
    forall q ensures !Via(m0.use, p, 0, q) {
      LevelUps(lo, m0);
    }
    hide Inv, Listed;
  }

  lemma LevelUps(lo: int, m: Mem)
    requires Inv(lo, m)
    ensures forall q :: IsNode(m.use, q) ==> 0 <= m.use[q].prefix
  {
    forall q | IsNode(m.use, q) ensures 0 <= m.use[q].prefix {
      LevelUp(lo, m, q);
    }
  }

  /** An empty entry. */
  lemma PrunedEmpty(lo: int, m0: Mem, m1: Mem, m: Mem, p: int, i: int)
    requires Inv(lo, m0) && IsNode(m0.use, p) && Pruned(lo, m0, m1, m, p, i) && 0 <= i < 512 && Entry(m0.fs, p, i) == 0
    ensures Pruned(lo, m0, m1, m, p, i + 1)
  {
    hide Inv, Listed, Via;
    forall q | 0 <= q < |m.use| && q != p ensures Via(m0.use, p, i + 1, q) <==> Via(m0.use, p, i, q) {
      ViaNext(lo, m0, p, i, q);
    }
  }

  /** Before the recursive call for child c. */
  lemma ChildIntact(lo: int, m0: Mem, m1: Mem, m: Mem, p: int, i: int, c: int)
    requires Inv(lo, m0) && IsNode(m0.use, p) && Intact(m0, m1, p) && Pruned(lo, m0, m1, m, p, i) && 0 <= i < 512 && m0.use[p].level > 0
    requires Entry(m0.fs, p, i) != 0 && c == Ppn(Entry(m0.fs, p, i)) && Bare(m0, p)
    ensures IsNode(m0.use, c) && m0.use[c].level < m0.use[p].level && c != p && Intact(m0, m, c) && Bare(m0, c)
  {
    hide Inv, Listed, Via, Below, Entry;
    ChildAt(lo, m0, p, i);
    forall q | q == c || Via(m0.use, c, 512, q)
      ensures !Via(m0.use, p, i, q) && Via(m0.use, p, 512, q) && q != p && IsNode(m0.use, q)
    {
      ViaNext(lo, m0, p, i, q);
      ViaNext(lo, m0, p, i, c);
      ViaMore(m0.use, p, i + 1, q);
      ViaNotSelf(lo, m0, p, q);
    }
  }

  lemma ViaMore(use: seq<Use>, p: int, i: int, q: int)
    requires i <= 512 && Via(use, p, i, q)
    ensures Via(use, p, 512, q) && IsNode(use, q)
  {
  }

  lemma ViaNotSelf(lo: int, m: Mem, p: int, q: int)
    requires Inv(lo, m) && Via(m.use, p, 512, q)
    ensures q != p
  {
    LevelUp(lo, m, q);
    LevelUp(lo, m, m.use[q].up);
    hide Inv;
  }

  /** After it, with pagetable[i] = 0. */
  lemma PrunedChild(lo: int, m0: Mem, m1: Mem, m: Mem, m': Mem, p: int, i: int, c: int)
    requires Inv(lo, m0) && IsNode(m0.use, p) && Intact(m0, m1, p) && Pruned(lo, m0, m1, m, p, i) && 0 <= i < 512 && m0.use[p].level > 0
    requires Entry(m0.fs, p, i) != 0 && c == Ppn(Entry(m0.fs, p, i)) && Dead(lo, m0, m, m', c)
    ensures InRange(m', p) && m'.fs[p].Table? && |m'.fs[p].ptes| == 512
    ensures Pruned(lo, m0, m1, m'.(fs := SetEntry(m'.fs, p, i, 0)), p, i + 1)
  {
    hide Inv, Via, Below, Entry, Listed, Emptied, SamePage;
    ChildAt(lo, m0, p, i);
    assert !Via(m0.use, c, 512, p) && c != p by {
      ViaNext(lo, m0, p, i, p);
      UpNotVia(lo, m0, p, c);
    }
    ParentKept(m0, m1, m, m', p, i);
    var t := m'.(fs := SetEntry(m'.fs, p, i, 0));
    ListSet(lo, m', p, i);
    forall q | 0 <= q < |t.use| && q != p ensures if Via(m0.use, p, i + 1, q) then t.use[q].Free? else SamePage(m1, t, q) {
      ViaNext(lo, m0, p, i, q);
      PageAfter(m1, m, m', t, q);
    }
  }

  /** The parent's page is as it was before the call. */
  lemma ParentKept(m0: Mem, m1: Mem, m: Mem, m': Mem, p: int, i: int)
    requires |m.use| == |m.fs| == |m'.use| == |m'.fs| && 0 <= p < |m.use| && SamePage(m, m', p)
    requires 0 <= p < |m0.fs| && 0 <= p < |m1.use| && m.use[p] == m1.use[p] && m1.use[p].Node? && Emptied(m0.fs[p], m.fs[p], i) && 0 <= i < 512
    ensures m'.use[p] == m1.use[p] && m'.fs[p].Table? && |m'.fs[p].ptes| == 512
    ensures Emptied(m0.fs[p], SetEntry(m'.fs, p, i, 0)[p], i + 1)
  {
  }

  lemma ListSet(lo: int, m: Mem, p: int, i: int)
    requires Listed(lo, m) && InRange(m, p) && m.use[p].Node? && m.fs[p].Table? && |m.fs[p].ptes| == 512 && 0 <= i < 512
    ensures Listed(lo, m.(fs := SetEntry(m.fs, p, i, 0)))
  {
    hide Threaded;
    ListKept(lo, m, m.(fs := SetEntry(m.fs, p, i, 0)));
  }

  /** Two steps that a page has gone through. */
  lemma PageAfter(m1: Mem, m: Mem, m': Mem, t: Mem, q: int)
    requires InRange(m1, q) && InRange(m, q) && InRange(m', q) && InRange(t, q) && t.use[q] == m'.use[q] && t.fs[q] == m'.fs[q]
    ensures SamePage(m, m', q) && m.use[q].Free? ==> t.use[q].Free?
    ensures SamePage(m, m', q) && SamePage(m1, m, q) ==> SamePage(m1, t, q)
  {
  }

  lemma UpNotVia(lo: int, m: Mem, p: int, c: int)
    requires Inv(lo, m) && IsNode(m.use, p) && IsNode(m.use, c) && c != p && m.use[c].up == p
    ensures !Via(m.use, c, 512, p)
  {
    LevelUp(lo, m, c);
    LevelUp(lo, m, p);
    LevelUp(lo, m, m.use[p].up);
    hide Inv;
  }

  lemma PrunedDead(lo: int, m0: Mem, m1: Mem, m: Mem, p: int)
    requires Inv(lo, m0) && Pruned(lo, m0, m1, m, p, 512) && IsNode(m.use, p) && lo <= p
    ensures InRange(m, p) && Dead(lo, m0, m1, KfreeMem(m, p), p)
  {
    hide Inv, Via;
    assert p !in m.chain;
    FreedThreaded(m.fs, m.chain, p);
    hide Threaded;
    forall q ensures q in [p] + m.chain <==> q == p || q in m.chain {
    }
  }

  /** freewalk.  "leaf" cannot happen on a bare table. */
  method Freewalk(mc: Machine, ghost m0: Mem, ghost lv: nat, p: int)
    requires Inv(mc.lo, m0) && IsNode(m0.use, p) && Bare(m0, p) && lv == m0.use[p].level
    requires Listed(mc.lo, mc.Now()) && mc.freelist == Head(mc.chain) && Intact(m0, mc.Now(), p)
    modifies mc`frames, mc`freelist, mc`use, mc`chain
    ensures Dead(mc.lo, m0, old(mc.Now()), mc.Now(), p) && mc.freelist == Head(mc.chain)
    decreases lv
  {
    ghost var m1 := mc.Now();
    PrunedStart(mc.lo, m0, m1, p);
    hide Inv, Listed, Via, Below, Intact, Bare, Pruned, Dead;
    for i := 0 to 512
      invariant Pruned(mc.lo, m0, m1, mc.Now(), p, i) && mc.freelist == Head(mc.chain)
    {
      WalkEntry(mc, m0, m1, lv, p, i);
    }
    PrunedNode(mc.lo, m0, m1, mc.Now(), p, 512);
    PrunedDead(mc.lo, m0, m1, mc.Now(), p);
    assert p * 4096 / 4096 == p && p * 4096 % 4096 == 0;
    mc.Kfree(p * 4096);
  }

  lemma PrunedNode(lo: int, m0: Mem, m1: Mem, m: Mem, p: int, i: int)
    requires Inv(lo, m0) && IsNode(m0.use, p) && Intact(m0, m1, p) && Pruned(lo, m0, m1, m, p, i)
    ensures IsNode(m.use, p) && InRange(m, p) && m.fs[p].Table? && |m.fs[p].ptes| == 512 && 0 < lo <= p && Listed(lo, m)
    ensures 0 <= i < 512 ==> m.fs[p].ptes[i] == Entry(m0.fs, p, i)
  {
    hide Tree, Threaded, UsersOk, MapsOk, FreeOk;
  }

  /** One turn of the loop of freewalk. */
  method WalkEntry(mc: Machine, ghost m0: Mem, ghost m1: Mem, ghost lv: nat, p: int, i: int)
    requires Inv(mc.lo, m0) && IsNode(m0.use, p) && Bare(m0, p) && lv == m0.use[p].level && Intact(m0, m1, p)
    requires Pruned(mc.lo, m0, m1, mc.Now(), p, i) && 0 <= i < 512 && mc.freelist == Head(mc.chain)
    modifies mc`frames, mc`freelist, mc`use, mc`chain
    ensures Pruned(mc.lo, m0, m1, mc.Now(), p, i + 1) && mc.freelist == Head(mc.chain)
    decreases lv, 0
  {
    ghost var m := mc.Now();
    PrunedNode(mc.lo, m0, m1, m, p, i);
    TableOrNothing(mc.lo, m0, p, i);
    hide Inv, Listed, Via, Below, Intact, Bare, Pruned, Dead;
    var pte := mc.frames[p].ptes[i];
    if V(pte) && !RWX(pte) {
      var child := Ppn(pte);
      ChildIntact(mc.lo, m0, m1, m, p, i, child);
      Freewalk(mc, m0, m0.use[child].level, child);
      PrunedChild(mc.lo, m0, m1, m, mc.Now(), p, i, child);
      mc.frames := SetEntry(mc.frames, p, i, 0);
    } else {
      assert !V(pte);
      PrunedEmpty(mc.lo, m0, m1, m, p, i);
    }
  }

  lemma TableOrNothing(lo: int, m: Mem, p: int, i: int)
    requires Inv(lo, m) && IsNode(m.use, p) && Bare(m, p) && 0 <= i < 512
    ensures 0 <= m.use[p].level
    ensures var e := Entry(m.fs, p, i); e == 0 || (m.use[p].level > 0 && V(e) && !RWX(e))
  {
    LevelUp(lo, m, p);
    if m.use[p].level > 0 && Entry(m.fs, p, i) != 0 {
      assert NodeOk(m.fs, m.use, p) && EntryOk(m.fs, m.use, p, i);
      PlainTable(Ppn(Entry(m.fs, p, i)));
    }
  }

  lemma PlainTable(c: int)
    ensures V(c * 1024 + 1) && !RWX(c * 1024 + 1)
  {
    TableEntry(c);
    var half := c * 512;
    assert (c * 1024 + 1) / 2 == half;
    var part := c * 64;
    assert half % 8 == 8 * part % 8 == 0;
  }
}
