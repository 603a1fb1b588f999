/** The three-level page table of Sv39 (RISC-V Privileged Architecture, section 4.4), held in physical
    pages, and the flat map from virtual page numbers to entries that it stands for. */
module PageTree {
  /** 2^26 virtual pages below MAXVA; the two topmost hold the trampoline and the trapframe. */
  const VPAGES: int := 0x400_0000
  const USERTOP: int := 0x3FF_FFFE

  /** A physical page: a link of the free list, a table of 512 entries, or plain bytes. */
  datatype Frame = Link(next: int) | Table(ptes: seq<int>) | Data(bytes: seq<bv8>)

  /** What a physical page is used for: `up` is the node holding the entry that refers to this one, and
      `prefix` the virtual page numbers it translates, cut to the bits above its level. */
  datatype Use = Free | Node(root: int, level: int, prefix: int, up: int) | User(root: int, vpn: int) | Held

  // ----- Entries: page number * 1024 + flags -----

  predicate V(e: int) { e % 2 == 1 }

  predicate U(e: int) { e / 16 % 2 == 1 }

  /** One of PTE_R, PTE_W and PTE_X. */
  predicate RWX(e: int) { e / 2 % 8 != 0 }

  /** PTE2PA, as a page number. */
  function Ppn(e: int): int { e / 1024 }

  predicate LeafOk(e: int) { 0 < e && V(e) && RWX(e) }

  lemma HalfOf(k: int, x: int)
    ensures (2 * k + x) / 2 == k + x / 2 && (2 * k + x) % 2 == x % 2
  {
  }

  lemma EighthOf(k: int, x: int)
    ensures (8 * k + x) % 8 == x % 8
  {
  }

  lemma PageParts(q: int, x: int)
    requires 0 <= x < 1024
    ensures (1024 * q + x) / 1024 == q && (1024 * q + x) % 1024 == x
  {
  }

  /** The entry for page q with the flags f. */
  lemma EntryFlags(q: int, f: int, e: int)
    requires 0 <= f < 1024 && e == 1024 * q + f
    ensures (V(e) <==> V(f)) && (RWX(e) <==> RWX(f)) && Ppn(e) == q && e % 1024 == f
  {
    PageParts(q, f);
    var k, l := 512 * q, 64 * q;
    HalfOf(k, f);
    EighthOf(l, f / 2);
    assert e == 2 * k + f && k + f / 2 == 8 * l + f / 2;
  }

  function Entry(fs: seq<Frame>, p: int, i: int): int {
    if 0 <= p < |fs| && fs[p].Table? && 0 <= i < |fs[p].ptes| then fs[p].ptes[i] else 0
  }

  /** The table an entry leads to, or -1. */
  function Down(fs: seq<Frame>, p: int, i: int): int {
    if V(Entry(fs, p, i)) then Ppn(Entry(fs, p, i)) else -1
  }

  /** The lowest table on the way to v, or -1. */
  function Lowest(fs: seq<Frame>, r: int, v: int): int { Down(fs, Down(fs, r, v / 262144), v / 512 % 512) }

  /** The flat map: the entry that translates virtual page v, or 0. */
  function Leaf(fs: seq<Frame>, r: int, v: int): int { Entry(fs, Lowest(fs, r, v), v % 512) }

  // ----- The tree -----

  predicate IsRoot(use: seq<Use>, r: int) { 0 <= r < |use| && use[r].Node? && use[r].level == 2 }

  ghost predicate EntryOk(fs: seq<Frame>, use: seq<Use>, p: int, i: int)
    requires 0 <= p < |use| && use[p].Node?
  {
    var e := Entry(fs, p, i);
    e == 0 || if use[p].level > 0 then ChildOk(use, p, i, e) else LeafOk(e)
  }

  predicate ChildOk(use: seq<Use>, p: int, i: int, e: int)
    requires 0 <= p < |use| && use[p].Node?
  {
    e == Ppn(e) * 1024 + 1 && 0 <= Ppn(e) < |use| &&
    use[Ppn(e)] == Node(use[p].root, use[p].level - 1, use[p].prefix * 512 + i, p)
  }

  /** The entry above p. */
  predicate UpOk(fs: seq<Frame>, use: seq<Use>, p: int)
    requires 0 <= p < |use| && use[p].Node?
  {
    var n := use[p];
    && 0 <= n.up < |use| && use[n.up].Node? && use[n.up].root == n.root && use[n.up].level == n.level + 1
    && use[n.up].prefix == n.prefix / 512 && Entry(fs, n.up, n.prefix % 512) == p * 1024 + 1
  }

  ghost predicate NodeOk(fs: seq<Frame>, use: seq<Use>, p: int)
    requires |fs| == |use| && 0 <= p < |use| && use[p].Node?
  {
    var n := use[p];
    && fs[p].Table? && |fs[p].ptes| == 512 && 0 <= n.level <= 2 && IsRoot(use, n.root)
    && 0 <= n.prefix && (n.level == 1 ==> n.prefix < 256) && (n.level == 0 ==> n.prefix < 131072)
    && (n.level == 2 ==> n.root == p && n.prefix == 0 && n.up == p)
    && (n.level < 2 ==> UpOk(fs, use, p))
    && forall i :: 0 <= i < 512 ==> EntryOk(fs, use, p, i)
  }

  ghost predicate Tree(fs: seq<Frame>, use: seq<Use>) {
    |fs| == |use| && forall p :: 0 <= p < |use| && use[p].Node? ==> NodeOk(fs, use, p)
  }

  lemma Split(v: int)
    requires 0 <= v < 0x400_0000
    ensures 0 <= v / 262144 < 512 && 0 <= v / 512 % 512 < 512 && v / 262144 * 512 + v / 512 % 512 == v / 512
    ensures v / 512 * 512 + v % 512 == v && v / 512 / 512 == v / 262144
  {
  }

  /** A valid entry above the lowest level leads to the node below it. */
  lemma DownPlace(fs: seq<Frame>, use: seq<Use>, p: int, i: int)
    requires Tree(fs, use) && 0 <= p < |use| && use[p].Node? && use[p].level > 0 && 0 <= i < 512
    ensures Entry(fs, p, i) == 0 || (V(Entry(fs, p, i)) && Down(fs, p, i) != -1)
    ensures var c := Down(fs, p, i); c != -1 ==>
              0 <= c < |use| && use[c] == Node(use[p].root, use[p].level - 1, use[p].prefix * 512 + i, p)
  {
    assert NodeOk(fs, use, p) && EntryOk(fs, use, p, i);
  }

  /** Going down from a root, walk meets the nodes for v. */
  lemma LowestPlace(fs: seq<Frame>, use: seq<Use>, r: int, v: int)
    requires Tree(fs, use) && IsRoot(use, r) && 0 <= v < 0x400_0000
    ensures var m := Down(fs, r, v / 262144); m != -1 ==>
              0 <= m < |use| && use[m] == Node(r, 1, v / 262144, r)
    ensures var n := Lowest(fs, r, v); n != -1 ==>
              0 <= n < |use| && use[n].Node? && use[n].root == r && use[n].level == 0 && use[n].prefix == v / 512
  {
    Split(v);
    assert NodeOk(fs, use, r);
    DownPlace(fs, use, r, v / 262144);
    var m := Down(fs, r, v / 262144);
    hide NodeOk, Entry;
    if m != -1 {
      DownPlace(fs, use, m, v / 512 % 512);
    }
  }

  lemma UpDown(fs: seq<Frame>, use: seq<Use>, p: int)
    requires Tree(fs, use) && 0 <= p < |use| && use[p].Node? && use[p].level < 2
    ensures var n := use[p];
            && 0 <= n.level && 0 <= n.up < |use| && use[n.up].Node? && use[n.up].root == n.root
            && use[n.up].level == n.level + 1 && use[n.up].prefix == n.prefix / 512
            && Down(fs, n.up, n.prefix % 512) == p && (n.level == 1 ==> n.up == n.root) && IsRoot(use, n.root)
  {
    NodeGist(fs, use, p);
    hide Tree, V, Ppn;
    NodeGist(fs, use, use[p].up);
    TableEntry(p);
  }

  lemma NodeGist(fs: seq<Frame>, use: seq<Use>, p: int)
    requires Tree(fs, use) && 0 <= p < |use| && use[p].Node?
    ensures 0 <= use[p].level <= 2 && IsRoot(use, use[p].root) && (use[p].level == 2 ==> use[p].root == p)
    ensures use[p].level < 2 ==> UpOk(fs, use, p)
  {
    assert NodeOk(fs, use, p);
    hide EntryOk, UpOk;
  }

  lemma TableEntry(p: int)
    ensures V(p * 1024 + 1) && Ppn(p * 1024 + 1) == p
  {
    var e := p * 1024 + 1;
    var half := p * 512;
    assert e == 2 * half + 1 && e % 2 == 1;
    assert e / 1024 == p;
  }

  /** And every lowest node is met on the way to the pages it translates. */
  lemma LowestReached(fs: seq<Frame>, use: seq<Use>, p: int, v: int)
    requires Tree(fs, use) && 0 <= p < |use| && use[p].Node? && use[p].level == 0
    requires 0 <= v < 0x400_0000 && use[p].prefix == v / 512
    ensures IsRoot(use, use[p].root) && Lowest(fs, use[p].root, v) == p
  {
    Split(v);
    hide Tree, Down;
    UpDown(fs, use, p);
    UpDown(fs, use, use[p].up);
    assert v / 512 / 512 % 512 == v / 262144;
  }

  /** What two memories agree on when only pages outside every tree differ. */
  lemma TreeIgnores(fs: seq<Frame>, fs': seq<Frame>, use: seq<Use>, use': seq<Use>)
    requires Tree(fs, use) && |fs'| == |use'| == |use|
    requires forall p :: 0 <= p < |use| ==> (use[p].Node? <==> use'[p].Node?) && (use[p].Node? ==> use'[p] == use[p] && fs'[p] == fs[p])
    ensures Tree(fs', use')
    ensures forall r, v :: IsRoot(use, r) && 0 <= v < 0x400_0000 ==> Leaf(fs', r, v) == Leaf(fs, r, v)
  {
    forall p | 0 <= p < |use'| && use'[p].Node? ensures NodeOk(fs', use', p) {
      assert NodeOk(fs, use, p);
      assert use[p].level < 2 ==> UpOk(fs', use', p);
      forall i | 0 <= i < 512 ensures EntryOk(fs', use', p, i) {
        assert EntryOk(fs, use, p, i);
      }
    }
    forall r, v | IsRoot(use, r) && 0 <= v < 0x400_0000 ensures Leaf(fs', r, v) == Leaf(fs, r, v) {
      LowestPlace(fs, use, r, v);
      hide Tree;
    }
  }

  // ----- Writing an entry of a lowest table -----

  function SetEntry(fs: seq<Frame>, p: int, i: int, e: int): seq<Frame>
    requires 0 <= p < |fs| && fs[p].Table? && 0 <= i < |fs[p].ptes|
  {
    fs[p := Table(fs[p].ptes[i := e])]
  }

  lemma EntrySet(fs: seq<Frame>, p: int, i: int, e: int, q: int, j: int)
    requires 0 <= p < |fs| && fs[p].Table? && 0 <= i < |fs[p].ptes|
    ensures Entry(SetEntry(fs, p, i, e), q, j) == if q == p && j == i then e else Entry(fs, q, j)
  {
  }

  /** The flat map changes at one page. */
  ghost predicate LeafSet(fs: seq<Frame>, fs': seq<Frame>, use: seq<Use>, r: int, v: int, e: int) {
    forall r', v' :: IsRoot(use, r') && 0 <= v' < 0x400_0000 ==>
      Leaf(fs', r', v') == if r' == r && v' == v then e else Leaf(fs, r', v')
  }

  lemma SetLeafTree(fs: seq<Frame>, use: seq<Use>, p: int, i: int, e: int)
    requires Tree(fs, use) && 0 <= p < |use| && use[p].Node? && use[p].level == 0 && 0 <= i < 512
    requires e == 0 || LeafOk(e)
    ensures fs[p].Table? && |fs[p].ptes| == 512 && Tree(SetEntry(fs, p, i, e), use)
  {
    assert NodeOk(fs, use, p);
    var fs' := SetEntry(fs, p, i, e);
    forall q | 0 <= q < |use| && use[q].Node? ensures NodeOk(fs', use, q) {
      assert NodeOk(fs, use, q);
      if use[q].level < 2 {
        assert UpOk(fs, use, q);
        EntrySet(fs, p, i, e, use[q].up, use[q].prefix % 512);
        assert UpOk(fs', use, q);
      }
      forall j | 0 <= j < 512 ensures EntryOk(fs', use, q, j) {
        assert EntryOk(fs, use, q, j);
        EntrySet(fs, p, i, e, q, j);
      }
    }
  }

  lemma SetLeafMap(fs: seq<Frame>, use: seq<Use>, p: int, i: int, v: int, e: int)
    requires Tree(fs, use) && 0 <= p < |use| && use[p].Node? && use[p].level == 0 && 0 <= v < 0x400_0000
    requires use[p].prefix == v / 512 && i == v % 512 && fs[p].Table? && |fs[p].ptes| == 512
    ensures LeafSet(fs, SetEntry(fs, p, i, e), use, use[p].root, v, e) && Leaf(fs, use[p].root, v) == Entry(fs, p, i)
  {
    LowestReached(fs, use, p, v);
    var fs' := SetEntry(fs, p, i, e);
    forall r', v' | IsRoot(use, r') && 0 <= v' < 0x400_0000
      ensures Leaf(fs', r', v') == if r' == use[p].root && v' == v then e else Leaf(fs, r', v')
    {
      LowestPlace(fs, use, r', v');
      hide Tree;
      var m := Down(fs, r', v' / 262144);
      EntrySet(fs, p, i, e, r', v' / 262144);
      EntrySet(fs, p, i, e, m, v' / 512 % 512);
      EntrySet(fs, p, i, e, Lowest(fs, r', v'), v' % 512);
      Split(v');
      Split(v);
      hide Entry, SetEntry;
    }
  }

  // ----- Adding a table -----

  predicate Zeros(f: Frame) { f.Table? && |f.ptes| == 512 && forall i :: 0 <= i < 512 ==> f.ptes[i] == 0 }

  /** *pte = PA2PTE(c) | PTE_V at entry i of p, with c filled with zeros. */
  lemma AddNodeTree(fs: seq<Frame>, use: seq<Use>, p: int, i: int, c: int)
    requires Tree(fs, use) && 0 <= p < |use| && use[p].Node? && use[p].level > 0 && 0 <= i < 512 && Entry(fs, p, i) == 0
    requires 0 <= c < |use| && !use[c].Node? && Zeros(fs[c]) && (use[p].level == 2 ==> i < 256)
    ensures fs[p].Table? && |fs[p].ptes| == 512
    ensures Tree(SetEntry(fs, p, i, c * 1024 + 1), use[c := Node(use[p].root, use[p].level - 1, use[p].prefix * 512 + i, p)])
  {
    assert NodeOk(fs, use, p);
    var e := c * 1024 + 1;
    var n := Node(use[p].root, use[p].level - 1, use[p].prefix * 512 + i, p);
    var fs', use' := SetEntry(fs, p, i, e), use[c := n];
    forall q | 0 <= q < |use'| && use'[q].Node? ensures NodeOk(fs', use', q) {
      if q == c {
        assert n.prefix / 512 == use[p].prefix && n.prefix % 512 == i;
        EntrySet(fs, p, i, e, p, i);
        assert UpOk(fs', use', c);
        forall j | 0 <= j < 512 ensures EntryOk(fs', use', c, j) {
        }
      } else {
        OldNode(fs, use, p, i, c, e, n, q);
      }
    }
  }

  lemma OldNode(fs: seq<Frame>, use: seq<Use>, p: int, i: int, c: int, e: int, n: Use, q: int)
    requires Tree(fs, use) && 0 <= p < |use| && use[p].Node? && use[p].level > 0 && 0 <= i < 512 && Entry(fs, p, i) == 0
    requires 0 <= c < |use| && !use[c].Node? && e == c * 1024 + 1 && fs[p].Table? && |fs[p].ptes| == 512
    requires n == Node(use[p].root, use[p].level - 1, use[p].prefix * 512 + i, p)
    requires 0 <= q < |use| && use[q].Node?
    ensures NodeOk(SetEntry(fs, p, i, e), use[c := n], q)
  {
    var fs', use' := SetEntry(fs, p, i, e), use[c := n];
    assert NodeOk(fs, use, q);
    hide Tree;
    if use[q].level < 2 {
      assert UpOk(fs, use, q);
      EntrySet(fs, p, i, e, use[q].up, use[q].prefix % 512);
      assert UpOk(fs', use', q);
    }
    forall j | 0 <= j < 512 ensures EntryOk(fs', use', q, j) {
      assert EntryOk(fs, use, q, j);
      EntrySet(fs, p, i, e, q, j);
      hide Entry;
    }
  }

  lemma AddNodeMap(fs: seq<Frame>, use: seq<Use>, p: int, i: int, c: int)
    requires Tree(fs, use) && 0 <= p < |use| && use[p].Node? && use[p].level > 0 && 0 <= i < 512 && Entry(fs, p, i) == 0
    requires 0 <= c < |use| && !use[c].Node? && Zeros(fs[c]) && fs[p].Table? && |fs[p].ptes| == 512
    ensures forall r, v :: IsRoot(use, r) && 0 <= v < 0x400_0000 ==> Leaf(SetEntry(fs, p, i, c * 1024 + 1), r, v) == Leaf(fs, r, v)
  {
    var e := c * 1024 + 1;
    var fs' := SetEntry(fs, p, i, e);
    forall r, v | IsRoot(use, r) && 0 <= v < 0x400_0000 ensures Leaf(fs', r, v) == Leaf(fs, r, v) {
      LowestPlace(fs, use, r, v);
      hide Tree;
      var m := Down(fs, r, v / 262144);
      EntrySet(fs, p, i, e, r, v / 262144);
      EntrySet(fs, p, i, e, m, v / 512 % 512);
      EntrySet(fs, p, i, e, c, v / 512 % 512);
      EntrySet(fs, p, i, e, Lowest(fs, r, v), v % 512);
      EntrySet(fs, p, i, e, c, v % 512);
      NoWay(fs, v / 512 % 512, v % 512);
      Split(v);
      hide SetEntry;
    }
  }

  lemma NoWay(fs: seq<Frame>, i: int, j: int)
    ensures Down(fs, -1, i) == -1 && Entry(fs, -1, j) == 0
  {
  }
}
