/** Physical memory with its page tables: who uses each page, and what one step of the code does to that. */
module PageMemory {
  import opened PageTree

  /** Page contents, page uses, and the free list in order. */
  datatype Mem = Mem(fs: seq<Frame>, use: seq<Use>, chain: seq<int>)

  predicate IsPage(f: Frame) { f.Data? && |f.bytes| == 4096 }

  predicate InRange(m: Mem, p: int) { 0 <= p < |m.use| && |m.fs| == |m.use| }

  /** The list is threaded through the free pages themselves; 0 ends it. */
  predicate LinkAt(fs: seq<Frame>, chain: seq<int>, k: int)
    requires 0 <= k < |chain|
  {
    0 < chain[k] < |fs| && fs[chain[k]] == Link(if k + 1 < |chain| then chain[k + 1] else 0)
  }

  ghost predicate Threaded(fs: seq<Frame>, chain: seq<int>) {
    && (forall k :: 0 <= k < |chain| ==> LinkAt(fs, chain, k))
    && (forall k, l :: 0 <= k < l < |chain| ==> chain[k] != chain[l])
  }

  function Head(chain: seq<int>): int { if chain == [] then 0 else chain[0] }

  ghost predicate FreeOk(m: Mem) {
    forall p :: p in m.chain <==> InRange(m, p) && m.use[p].Free?
  }

  /** A user page is mapped where its use says. */
  ghost predicate UserOk(m: Mem, p: int)
    requires InRange(m, p) && m.use[p].User?
  {
    var u := m.use[p];
    IsRoot(m.use, u.root) && 0 <= u.vpn < USERTOP && LeafOk(Leaf(m.fs, u.root, u.vpn)) && Ppn(Leaf(m.fs, u.root, u.vpn)) == p && IsPage(m.fs[p])
  }

  /** And whatever is mapped below the trapframe is a user page of that address. */
  ghost predicate MapOk(m: Mem, r: int, v: int) {
    var e := Leaf(m.fs, r, v);
    e == 0 || (LeafOk(e) && InRange(m, Ppn(e)) && m.use[Ppn(e)] == User(r, v))
  }

  ghost predicate UsersOk(m: Mem) { forall p :: InRange(m, p) && m.use[p].User? ==> UserOk(m, p) }

  ghost predicate MapsOk(m: Mem) { forall r, v :: IsRoot(m.use, r) && 0 <= v < USERTOP ==> MapOk(m, r, v) }

  /** The pages from lo on, the first page after the kernel, are the ones kalloc manages. */
  ghost predicate Kernel(lo: int, m: Mem) { 0 < lo <= |m.use| && forall p :: 0 <= p < lo ==> m.use[p].Held? }

  /** Every page has exactly one use, and the free list, the page tables and the flat maps agree with it. */
  ghost predicate Inv(lo: int, m: Mem) {
    && Tree(m.fs, m.use) && Threaded(m.fs, m.chain) && FreeOk(m) && UsersOk(m) && MapsOk(m) && Kernel(lo, m)
  }

  /** Page conservation: a page kalloc manages is on the free list, or is a table of one tree, or is mapped at
      one address of one process, or is held by the kernel, and only one of these. */
  lemma OnePlace(lo: int, m: Mem, p: int, r: int, v: int)
    requires Inv(lo, m) && lo <= p < |m.use| && IsRoot(m.use, r) && 0 <= v < USERTOP
    ensures p in m.chain <==> m.use[p].Free?
    ensures Leaf(m.fs, r, v) != 0 && Ppn(Leaf(m.fs, r, v)) == p <==> m.use[p] == User(r, v)
    ensures m.use[p].Node? ==> m.fs[p].Table? && (p == m.use[p].root || UpOk(m.fs, m.use, p))
  {
    assert m.use[p].User? ==> UserOk(m, p);
    assert MapOk(m, r, v);
    assert m.use[p].Node? ==> NodeOk(m.fs, m.use, p);
    hide Leaf, Threaded, EntryOk;
  }

  // ----- Pages that no tree and no list needs -----

  /** Flat maps of all roots are the same in both. */
  ghost predicate SameMaps(m: Mem, m': Mem) {
    forall r, v :: IsRoot(m.use, r) && 0 <= v < 0x400_0000 ==> Leaf(m'.fs, r, v) == Leaf(m.fs, r, v)
  }

  ghost predicate SameRoots(m: Mem, m': Mem) { forall r :: IsRoot(m'.use, r) <==> IsRoot(m.use, r) }

  /** Nodes and user pages are as before. */
  ghost predicate NodesKept(m: Mem, m': Mem) {
    && |m'.use| == |m.use| == |m.fs| == |m'.fs|
    && forall p :: 0 <= p < |m.use| ==>
         && (m.use[p].Node? <==> m'.use[p].Node?) && (m.use[p].User? <==> m'.use[p].User?)
         && (m.use[p].Node? || m.use[p].User? ==> m'.use[p] == m.use[p] && m'.fs[p] == m.fs[p])
  }

  lemma OthersKept(lo: int, m: Mem, m': Mem)
    requires Tree(m.fs, m.use) && UsersOk(m) && MapsOk(m) && NodesKept(m, m')
    ensures Tree(m'.fs, m'.use) && UsersOk(m') && MapsOk(m') && SameMaps(m, m') && SameRoots(m, m')
  {
    TreeIgnores(m.fs, m'.fs, m.use, m'.use);
    hide Tree, Leaf;
    forall p | InRange(m', p) && m'.use[p].User? ensures UserOk(m', p) {
      assert UserOk(m, p);
    }
    forall r, v | IsRoot(m'.use, r) && 0 <= v < USERTOP ensures MapOk(m', r, v) {
      assert IsRoot(m.use, r) && MapOk(m, r, v);
    }
  }

  /** The free list is as before when the free pages are. */
  lemma ListKept(lo: int, m: Mem, m': Mem)
    requires Threaded(m.fs, m.chain) && FreeOk(m) && Kernel(lo, m)
    requires |m'.use| == |m.use| == |m.fs| == |m'.fs| && m'.chain == m.chain
    requires forall p :: 0 <= p < |m.use| ==> (m.use[p].Free? <==> m'.use[p].Free?) && (m.use[p].Free? ==> m'.fs[p] == m.fs[p])
    requires forall p :: 0 <= p < lo ==> m'.use[p].Held?
    ensures Threaded(m'.fs, m'.chain) && FreeOk(m') && Kernel(lo, m')
  {
    forall k | 0 <= k < |m.chain| ensures LinkAt(m'.fs, m'.chain, k) {
      assert LinkAt(m.fs, m.chain, k) && m.chain[k] in m.chain;
    }
  }

  // ----- kalloc and kfree -----

  /** memset. */
  function Filled(n: nat, b: bv8): (s: seq<bv8>)
    ensures |s| == n && forall i :: 0 <= i < n ==> s[i] == b
  {
    if n == 0 then [] else Filled(n - 1, b) + [b]
  }

  /** The first free page leaves the list. */
  ghost function KallocMem(m: Mem): Mem
    requires m.chain != [] && InRange(m, m.chain[0])
  {
    Mem(m.fs[m.chain[0] := Data(Filled(4096, 5))], m.use[m.chain[0] := Held], m.chain[1..])
  }

  ghost function KfreeMem(m: Mem, p: int): Mem
    requires InRange(m, p)
  {
    Mem(m.fs[p := Link(Head(m.chain))], m.use[p := Free], [p] + m.chain)
  }

  lemma KallocInv(lo: int, m: Mem)
    requires Inv(lo, m) && m.chain != []
    ensures InRange(m, m.chain[0]) && lo <= m.chain[0] && m.use[m.chain[0]].Free?
    ensures Inv(lo, KallocMem(m)) && SameMaps(m, KallocMem(m)) && SameRoots(m, KallocMem(m))
  {
    assert m.chain[0] in m.chain;
    hide Tree, UsersOk, MapsOk, SameMaps, SameRoots, Filled;
    var m' := KallocMem(m);
    assert NodesKept(m, m') by {
      assert |m.fs| == |m.use|;
    }
    hide NodesKept;
    OthersKept(lo, m, m');
    TakenThreaded(m.fs, m.chain, Data(Filled(4096, 5)));
    hide Threaded;
  }

  lemma TakenThreaded(fs: seq<Frame>, chain: seq<int>, f: Frame)
    requires Threaded(fs, chain) && chain != [] && 0 <= chain[0] < |fs|
    ensures Threaded(fs[chain[0] := f], chain[1..]) && forall p :: p in chain[1..] <==> p in chain && p != chain[0]
  {
    var fs', chain' := fs[chain[0] := f], chain[1..];
    forall k | 0 <= k < |chain'| ensures LinkAt(fs', chain', k) {
      var l := k + 1;
      assert LinkAt(fs, chain, l) && chain'[k] == chain[l] && chain[0] != chain[l];
      assert l < |chain'| ==> chain'[l] == chain[l + 1];
    }
    forall p ensures p in chain' <==> p in chain && p != chain[0] {
      if p in chain && p != chain[0] {
        var k :| 0 <= k < |chain| && chain[k] == p;
        assert chain'[k - 1] == p;
      }
    }
  }

  /** Freeing a page that nothing refers to. */
  lemma KfreeInv(lo: int, m: Mem, p: int)
    requires Inv(lo, m) && InRange(m, p) && lo <= p && m.use[p].Held?
    ensures Inv(lo, KfreeMem(m, p)) && SameMaps(m, KfreeMem(m, p)) && SameRoots(m, KfreeMem(m, p))
  {
    hide Tree, UsersOk, MapsOk, SameMaps, SameRoots;
    assert p !in m.chain;
    var m' := KfreeMem(m, p);
    assert NodesKept(m, m');
    hide NodesKept;
    OthersKept(lo, m, m');
    forall q ensures q in m'.chain <==> q == p || q in m.chain {
    }
    FreedThreaded(m.fs, m.chain, p);
  }

  lemma FreedThreaded(fs: seq<Frame>, chain: seq<int>, p: int)
    requires Threaded(fs, chain) && 0 < p < |fs| && p !in chain
    ensures Threaded(fs[p := Link(Head(chain))], [p] + chain)
  {
    var fs', chain' := fs[p := Link(Head(chain))], [p] + chain;
    forall k | 0 <= k < |chain'| ensures LinkAt(fs', chain', k) {
      if k > 0 {
        var l := k - 1;
        assert LinkAt(fs, chain, l) && chain'[k] == chain[l] && chain[l] in chain;
        assert k + 1 < |chain'| ==> chain'[k + 1] == chain[k];
      }
    }
  }

  /** New contents for a page held by the kernel. */
  ghost function Fill(m: Mem, p: int, f: Frame): Mem
    requires InRange(m, p)
  {
    m.(fs := m.fs[p := f])
  }

  lemma FillInv(lo: int, m: Mem, p: int, f: Frame)
    requires Inv(lo, m) && InRange(m, p) && m.use[p].Held?
    ensures Inv(lo, Fill(m, p, f)) && SameMaps(m, Fill(m, p, f)) && SameRoots(m, Fill(m, p, f))
  {
    hide Tree, UsersOk, MapsOk, SameMaps, SameRoots;
    var m' := Fill(m, p, f);
    assert NodesKept(m, m');
    hide NodesKept;
    OthersKept(lo, m, m');
    ListKept(lo, m, m');
  }

  // ----- Page tables and user pages -----

  /** A page held by the kernel and filled with zeros becomes the table below entry i of node p. */
  ghost function AddTable(m: Mem, p: int, i: int, c: int): Mem
    requires InRange(m, p) && m.fs[p].Table? && 0 <= i < |m.fs[p].ptes| && m.use[p].Node? && InRange(m, c)
  {
    m.(fs := SetEntry(m.fs, p, i, c * 1024 + 1),
       use := m.use[c := Node(m.use[p].root, m.use[p].level - 1, m.use[p].prefix * 512 + i, p)])
  }

  lemma AddTableInv(lo: int, m: Mem, p: int, i: int, c: int)
    requires Inv(lo, m) && InRange(m, p) && m.use[p].Node? && m.use[p].level > 0 && 0 <= i < 512 && Entry(m.fs, p, i) == 0
    requires InRange(m, c) && lo <= c && m.use[c].Held? && Zeros(m.fs[c]) && (m.use[p].level == 2 ==> i < 256)
    ensures m.fs[p].Table? && |m.fs[p].ptes| == 512 && m.use[p].level <= 2
    ensures Inv(lo, AddTable(m, p, i, c)) && SameMaps(m, AddTable(m, p, i, c)) && SameRoots(m, AddTable(m, p, i, c))
  {
    assert NodeOk(m.fs, m.use, p);
    AddNodeTree(m.fs, m.use, p, i, c);
    AddNodeMap(m.fs, m.use, p, i, c);
    var m' := AddTable(m, p, i, c);
    hide Tree, Leaf, Zeros;
    assert SameRoots(m, m');
    NewUses(m, m', c);
    ListKept(lo, m, m');
  }

  /** User pages are not touched when only node frames and the use of c change. */
  lemma NewUses(m: Mem, m': Mem, c: int)
    requires UsersOk(m) && MapsOk(m) && SameMaps(m, m') && SameRoots(m, m') && InRange(m, c) && m.use[c].Held?
    requires |m.fs| == |m.use| == |m'.fs| == |m'.use| && m'.use == m.use[c := m'.use[c]] && m'.use[c].Node?
    requires forall p :: InRange(m, p) && m.use[p].User? ==> m'.fs[p] == m.fs[p]
    ensures UsersOk(m') && MapsOk(m')
  {
    hide Leaf;
    forall p | InRange(m', p) && m'.use[p].User? ensures UserOk(m', p) {
      assert UserOk(m, p);
    }
    forall r, v | IsRoot(m'.use, r) && 0 <= v < USERTOP ensures MapOk(m', r, v) {
      assert IsRoot(m.use, r) && MapOk(m, r, v);
    }
  }

  /** *pte = e for page v of r; a user page changes hands with it. */
  ghost function SetPage(m: Mem, n: int, i: int, e: int, q: int, u: Use): Mem
    requires InRange(m, n) && m.fs[n].Table? && 0 <= i < |m.fs[n].ptes|
  {
    m.(fs := SetEntry(m.fs, n, i, e), use := if InRange(m, q) then m.use[q := u] else m.use)
  }

  /** Node n holds the entry of page v of root r. */
  predicate EntryOf(m: Mem, n: int, r: int, v: int) {
    InRange(m, n) && m.use[n].Node? && m.use[n].root == r && m.use[n].level == 0 && m.use[n].prefix == v / 512
  }

  /** Mapping page q, held by the kernel so far, at an address below the trapframe. */
  lemma MapUserInv(lo: int, m: Mem, n: int, r: int, v: int, e: int)
    requires Inv(lo, m) && 0 <= v < USERTOP && EntryOf(m, n, r, v) && LeafOk(e) && Leaf(m.fs, r, v) == 0
    requires var q := Ppn(e); InRange(m, q) && lo <= q && m.use[q].Held? && IsPage(m.fs[q])
    ensures m.fs[n].Table? && |m.fs[n].ptes| == 512 && IsRoot(m.use, r)
    ensures var m' := SetPage(m, n, v % 512, e, Ppn(e), User(r, v));
            Inv(lo, m') && SameRoots(m, m') && LeafSet(m.fs, m'.fs, m.use, r, v, e)
  {
    var m' := PlainSet(lo, m, n, r, v, e, Ppn(e), User(r, v));
    hide Tree, Leaf;
    forall p | InRange(m', p) && m'.use[p].User? ensures UserOk(m', p) {
      if p != Ppn(e) {
        assert UserOk(m, p);
        assert !(m.use[p].root == r && m.use[p].vpn == v);
      }
    }
    forall r', v' | IsRoot(m'.use, r') && 0 <= v' < USERTOP ensures MapOk(m', r', v') {
      assert IsRoot(m.use, r') && MapOk(m, r', v');
    }
  }

  /** Entries written at node n: trees, free list and kernel pages stay in order. */
  lemma PlainSet(lo: int, m: Mem, n: int, r: int, v: int, e: int, q: int, u: Use) returns (m': Mem)
    requires Inv(lo, m) && 0 <= v < 0x400_0000 && EntryOf(m, n, r, v) && (e == 0 || LeafOk(e))
    requires InRange(m, q) ==> lo <= q && !m.use[q].Node? && !m.use[q].Free? && !u.Node? && !u.Free?
    ensures m.fs[n].Table? && |m.fs[n].ptes| == 512 && IsRoot(m.use, r)
    ensures m' == SetPage(m, n, v % 512, e, q, u)
    ensures Tree(m'.fs, m'.use) && Threaded(m'.fs, m'.chain) && FreeOk(m') && Kernel(lo, m')
    ensures SameRoots(m, m') && LeafSet(m.fs, m'.fs, m.use, r, v, e)
  {
    hide Tree, Leaf, Threaded, LeafSet, FreeOk, UsersOk, MapsOk, LeafOk;
    m' := PlainTree(m, n, r, v, e, q, u);
    PlainList(lo, m, n, v % 512, e, q, u);
  }

  lemma PlainTree(m: Mem, n: int, r: int, v: int, e: int, q: int, u: Use) returns (m': Mem)
    requires Tree(m.fs, m.use) && 0 <= v < 0x400_0000 && EntryOf(m, n, r, v) && (e == 0 || LeafOk(e))
    requires InRange(m, q) ==> !m.use[q].Node? && !u.Node?
    ensures m.fs[n].Table? && |m.fs[n].ptes| == 512 && IsRoot(m.use, r) && m.use[n].Node?
    ensures m' == SetPage(m, n, v % 512, e, q, u) && |m.use| == |m.fs|
    ensures Tree(m'.fs, m'.use) && SameRoots(m, m') && LeafSet(m.fs, m'.fs, m.use, r, v, e)
  {
    SetLeafTree(m.fs, m.use, n, v % 512, e);
    SetLeafMap(m.fs, m.use, n, v % 512, v, e);
    LowestReached(m.fs, m.use, n, v);
    m' := SetPage(m, n, v % 512, e, q, u);
    var fs1 := SetEntry(m.fs, n, v % 512, e);
    TreeIgnores(fs1, m'.fs, m.use, m'.use);
    hide Tree, Leaf;
  }

  lemma PlainList(lo: int, m: Mem, n: int, i: int, e: int, q: int, u: Use)
    requires Threaded(m.fs, m.chain) && FreeOk(m) && Kernel(lo, m) && |m.use| == |m.fs|
    requires 0 <= n < |m.use| && m.use[n].Node? && m.fs[n].Table? && |m.fs[n].ptes| == 512 && 0 <= i < 512
    requires InRange(m, q) ==> lo <= q && !m.use[q].Free? && !u.Free?
    ensures var m' := SetPage(m, n, i, e, q, u); Threaded(m'.fs, m'.chain) && FreeOk(m') && Kernel(lo, m')
  {
    ListKept(lo, m, SetPage(m, n, i, e, q, u));
    hide Threaded, FreeOk;
  }

  /** Mapping or unmapping one of the two pages at the top, which own nothing. */
  lemma MapTopInv(lo: int, m: Mem, n: int, r: int, v: int, e: int)
    requires Inv(lo, m) && USERTOP <= v < 0x400_0000 && EntryOf(m, n, r, v) && (e == 0 || LeafOk(e))
    ensures m.fs[n].Table? && |m.fs[n].ptes| == 512 && IsRoot(m.use, r)
    ensures var m' := SetPage(m, n, v % 512, e, -1, Held);
            Inv(lo, m') && SameRoots(m, m') && LeafSet(m.fs, m'.fs, m.use, r, v, e)
  {
    var m' := PlainSet(lo, m, n, r, v, e, -1, Held);
    hide Tree, Leaf;
    forall p | InRange(m', p) && m'.use[p].User? ensures UserOk(m', p) {
      assert UserOk(m, p);
    }
    forall r', v' | IsRoot(m'.use, r') && 0 <= v' < USERTOP ensures MapOk(m', r', v') {
      assert IsRoot(m.use, r') && MapOk(m, r', v');
    }
  }

  /** Unmapping user page v, which goes back to the kernel. */
  lemma UnmapUserInv(lo: int, m: Mem, n: int, r: int, v: int)
    requires Inv(lo, m) && 0 <= v < USERTOP && EntryOf(m, n, r, v) && Leaf(m.fs, r, v) != 0
    ensures m.fs[n].Table? && |m.fs[n].ptes| == 512 && IsRoot(m.use, r)
    ensures var q := Ppn(Leaf(m.fs, r, v)); InRange(m, q) && lo <= q && m.use[q] == User(r, v)
    ensures var m' := SetPage(m, n, v % 512, 0, Ppn(Leaf(m.fs, r, v)), Held);
            Inv(lo, m') && SameRoots(m, m') && LeafSet(m.fs, m'.fs, m.use, r, v, 0)
  {
    var q := Ppn(Leaf(m.fs, r, v));
    LowestReached(m.fs, m.use, n, v);
    assert MapOk(m, r, v);
    hide Tree, Leaf, Threaded, FreeOk;
    var m' := PlainSet(lo, m, n, r, v, 0, q, Held);
    UnmapUsers(m, n, r, v, q);
    UnmapMaps(m, n, r, v, q);
    hide UsersOk, MapsOk, LeafSet;
  }

  lemma UnmapUsers(m: Mem, n: int, r: int, v: int, q: int)
    requires UsersOk(m) && EntryOf(m, n, r, v) && m.fs[n].Table? && |m.fs[n].ptes| == 512 && InRange(m, q) && m.use[q] == User(r, v)
    requires var m' := SetPage(m, n, v % 512, 0, q, Held); SameRoots(m, m') && LeafSet(m.fs, m'.fs, m.use, r, v, 0)
    ensures UsersOk(SetPage(m, n, v % 512, 0, q, Held))
  {
    var m' := SetPage(m, n, v % 512, 0, q, Held);
    hide Leaf;
    forall p | InRange(m', p) && m'.use[p].User? ensures UserOk(m', p) {
      assert UserOk(m, p) && p != q;
      assert Ppn(Leaf(m.fs, r, v)) == q by {
        assert UserOk(m, q);
      }
    }
  }

  lemma UnmapMaps(m: Mem, n: int, r: int, v: int, q: int)
    requires MapsOk(m) && EntryOf(m, n, r, v) && m.fs[n].Table? && |m.fs[n].ptes| == 512 && InRange(m, q) && m.use[q] == User(r, v)
    requires var m' := SetPage(m, n, v % 512, 0, q, Held); SameRoots(m, m') && LeafSet(m.fs, m'.fs, m.use, r, v, 0)
    ensures MapsOk(SetPage(m, n, v % 512, 0, q, Held))
  {
    var m' := SetPage(m, n, v % 512, 0, q, Held);
    hide Leaf;
    forall r', v' | IsRoot(m'.use, r') && 0 <= v' < USERTOP ensures MapOk(m', r', v') {
      assert IsRoot(m.use, r') && MapOk(m, r', v');
    }
  }
}
