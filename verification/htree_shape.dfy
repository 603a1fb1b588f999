/** The nodes of hierarchy_tree.c as records that point to each other, and the search tree and the sibling
    lists that they stand for. */
module HTreeShape {
  const NULL: int := -1

  /** struct h_tree_s; pointers are places in the heap. */
  datatype Rec = Rec(data: int, left: int, right: int, size: int, hparent: int, hnext: int, hchildren: int)

  datatype Tree = Nil | Fork(l: Tree, n: int, r: Tree)

  function Size(t: Tree): nat {
    match t
    case Nil => 0
    case Fork(l, _, r) => 1 + Size(l) + Size(r)
  }

  function Nodes(t: Tree): set<int> {
    match t
    case Nil => {}
    case Fork(l, n, r) => Nodes(l) + {n} + Nodes(r)
  }

  /** No node twice. */
  predicate Apart(t: Tree) {
    match t
    case Nil => true
    case Fork(l, n, r) => Apart(l) && Apart(r) && n !in Nodes(l) && n !in Nodes(r) && Nodes(l) !! Nodes(r)
  }

  /** p points to t. */
  predicate Linked(h: seq<Rec>, t: Tree, p: int) {
    match t
    case Nil => p == NULL
    case Fork(l, n, r) => p == n && 0 <= n < |h| && Linked(h, l, h[n].left) && Linked(h, r, h[n].right)
  }

  predicate Sized(h: seq<Rec>, t: Tree) {
    match t
    case Nil => true
    case Fork(l, n, r) => 0 <= n < |h| && h[n].size == Size(t) && Sized(h, l) && Sized(h, r)
  }

  function Data(h: seq<Rec>, n: int): int { if 0 <= n < |h| then h[n].data else 0 }

  function Inorder(h: seq<Rec>, t: Tree): seq<int> {
    match t
    case Nil => []
    case Fork(l, n, r) => Inorder(h, l) + [Data(h, n)] + Inorder(h, r)
  }

  function Preorder(h: seq<Rec>, t: Tree): (s: seq<int>)
    ensures |s| == Size(t)
  {
    match t
    case Nil => []
    case Fork(l, n, r) => [Data(h, n)] + Preorder(h, l) + Preorder(h, r)
  }

  // ----- What preorder means -----

  /** The nodes in the order in which Preorder has their keys. */
  function PreNodes(t: Tree): (s: seq<int>)
    ensures |s| == Size(t)
  {
    match t
    case Nil => []
    case Fork(l, n, r) => [n] + PreNodes(l) + PreNodes(r)
  }

  predicate IsSub(s: Tree, t: Tree) { s == t || (t.Fork? && (IsSub(s, t.l) || IsSub(s, t.r))) }

  lemma {:induction false} PreKeys(h: seq<Rec>, t: Tree, i: int)
    requires 0 <= i < Size(t)
    ensures Preorder(h, t)[i] == Data(h, PreNodes(t)[i]) && PreNodes(t)[i] in Nodes(t)
  {
    if i == 0 {
      assert PreNodes(t)[0] == t.n && Preorder(h, t)[0] == Data(h, t.n);
    } else if i <= Size(t.l) {
      PreKeys(h, t.l, i - 1);
      assert PreNodes(t)[i] == PreNodes(t.l)[i - 1] && Preorder(h, t)[i] == Preorder(h, t.l)[i - 1];
    } else {
      var j := i - 1 - Size(t.l);
      PreKeys(h, t.r, j);
      assert PreNodes(t)[i] == PreNodes(t.r)[j] && Preorder(h, t)[i] == Preorder(h, t.r)[j];
    }
  }

  lemma {:induction false} SubNodes(s: Tree, t: Tree)
    requires IsSub(s, t)
    ensures Nodes(s) <= Nodes(t)
  {
    if s != t {
      if IsSub(s, t.l) {
        SubNodes(s, t.l);
      } else {
        SubNodes(s, t.r);
      }
    }
  }

  lemma PreAt(t: Tree, i: int)
    requires t.Fork? && 0 <= i < Size(t)
    ensures i == 0 ==> PreNodes(t)[i] == t.n
    ensures 1 <= i <= Size(t.l) ==> PreNodes(t)[i] == PreNodes(t.l)[i - 1]
    ensures i > Size(t.l) ==> PreNodes(t)[i] == PreNodes(t.r)[i - 1 - Size(t.l)]
  {
    var a, b := PreNodes(t.l), PreNodes(t.r);
    assert PreNodes(t) == [t.n] + a + b && |a| == Size(t.l);
    hide PreNodes;
  }

  /** Where in the sequence a node of a subtree stands. */
  lemma PrePart(t: Tree, i: int)
    requires t.Fork? && Apart(t) && 0 <= i < Size(t)
    ensures PreNodes(t)[i] == t.n <==> i == 0
    ensures PreNodes(t)[i] in Nodes(t.l) <==> 1 <= i <= Size(t.l)
    ensures PreNodes(t)[i] in Nodes(t.r) <==> i > Size(t.l)
    ensures 1 <= i <= Size(t.l) ==> PreNodes(t)[i] == PreNodes(t.l)[i - 1]
    ensures i > Size(t.l) ==> PreNodes(t)[i] == PreNodes(t.r)[i - 1 - Size(t.l)]
  {
    hide PreNodes, Nodes;
    PreAt(t, i);
    if i == 0 {
    } else if i <= Size(t.l) {
      PreKeys([], t.l, i - 1);
    } else {
      PreKeys([], t.r, i - 1 - Size(t.l));
    }
  }

  /** Preorder: a node comes before all nodes of its subtrees, and those of its left subtree before those of its right. */
  lemma {:induction false} PreorderMeans(s: Tree, t: Tree, i: int, j: int)
    requires Apart(t) && IsSub(s, t) && s.Fork? && 0 <= i < Size(t) && 0 <= j < Size(t)
    ensures PreNodes(t)[i] == s.n && PreNodes(t)[j] in Nodes(s.l) + Nodes(s.r) ==> i < j
    ensures PreNodes(t)[i] in Nodes(s.l) && PreNodes(t)[j] in Nodes(s.r) ==> i < j
    decreases t
  {
    hide PreNodes, Nodes;
    PrePart(t, i);
    PrePart(t, j);
    if s != t {
      OwnParts(s);
      if PreNodes(t)[i] in Nodes(s) && PreNodes(t)[j] in Nodes(s) {
        if IsSub(s, t.l) {
          SubNodes(s, t.l);
          PreorderMeans(s, t.l, i - 1, j - 1);
        } else {
          SubNodes(s, t.r);
          PreorderMeans(s, t.r, i - 1 - Size(t.l), j - 1 - Size(t.l));
        }
      }
    }
  }

  lemma OwnParts(s: Tree)
    requires s.Fork?
    ensures s.n in Nodes(s) && Nodes(s.l) <= Nodes(s) && Nodes(s.r) <= Nodes(s)
  {
  }

  lemma {:induction false} PreApart(t: Tree, i: int, j: int)
    requires Apart(t) && 0 <= i < j < Size(t)
    ensures PreNodes(t)[i] != PreNodes(t)[j]
    decreases t
  {
    hide PreNodes, Nodes;
    PrePart(t, i);
    PrePart(t, j);
    if 1 <= i && j <= Size(t.l) {
      PreApart(t.l, i - 1, j - 1);
    } else if i > Size(t.l) {
      PreApart(t.r, i - 1 - Size(t.l), j - 1 - Size(t.l));
    }
  }

  /** And every node is there once. */
  lemma {:induction false} PreOnce(t: Tree, x: int) returns (i: int)
    requires Apart(t) && x in Nodes(t)
    ensures 0 <= i < Size(t) && PreNodes(t)[i] == x && forall j :: 0 <= j < Size(t) && j != i ==> PreNodes(t)[j] != x
    decreases t
  {
    if x == t.n {
      i := 0;
    } else if x in Nodes(t.l) {
      i := PreOnce(t.l, x);
      i := i + 1;
    } else {
      i := PreOnce(t.r, x);
      i := i + 1 + Size(t.l);
    }
    PrePart(t, i);
    forall j | 0 <= j < Size(t) && j != i ensures PreNodes(t)[j] != x {
      PreApart(t, if i < j then i else j, if i < j then j else i);
    }
  }

  predicate Rising(s: seq<int>) { forall i, j :: 0 <= i < j < |s| ==> s[i] < s[j] }

  /** A search tree with exact sizes, at p. */
  ghost predicate TreeAt(h: seq<Rec>, t: Tree, p: int) {
    Linked(h, t, p) && Apart(t) && Sized(h, t) && Rising(Inorder(h, t))
  }

  lemma Parted(a: seq<int>, x: int, b: seq<int>)
    requires Rising(a + [x] + b)
    ensures Rising(a) && Rising(b) && (forall k :: k in a ==> k < x) && forall k :: k in b ==> x < k
  {
    var s := a + [x] + b;
    assert forall i :: 0 <= i < |a| ==> s[i] == a[i];
    assert s[|a|] == x;
    forall i, j | 0 <= i < j < |b| ensures b[i] < b[j] {
      Behind(a, x, b, i);
      Behind(a, x, b, j);
    }
    forall k | k in b ensures x < k {
      var i :| 0 <= i < |b| && b[i] == k;
      Behind(a, x, b, i);
    }
  }

  lemma Behind(a: seq<int>, x: int, b: seq<int>, i: int)
    requires 0 <= i < |b|
    ensures (a + [x] + b)[|a| + 1 + i] == b[i]
  {
  }

  /** Keys left of the root are smaller, keys right of it greater. */
  lemma Sides(h: seq<Rec>, t: Tree)
    requires t.Fork? && Rising(Inorder(h, t))
    ensures Rising(Inorder(h, t.l)) && Rising(Inorder(h, t.r))
    ensures forall k :: k in Inorder(h, t.l) ==> k < Data(h, t.n)
    ensures forall k :: k in Inorder(h, t.r) ==> Data(h, t.n) < k
  {
    Parted(Inorder(h, t.l), Data(h, t.n), Inorder(h, t.r));
  }

  /** And the other way round. */
  lemma Join(a: seq<int>, x: int, b: seq<int>)
    requires Rising(a) && Rising(b) && (forall k :: k in a ==> k < x) && (forall k :: k in b ==> x < k)
    ensures Rising(a + [x] + b)
  {
    var s := a + [x] + b;
    forall i, j | 0 <= i < j < |s| ensures s[i] < s[j] {
      assert i < |a| ==> s[i] == a[i] && a[i] in a;
      assert i > |a| ==> s[i] == b[i - |a| - 1];
      assert j < |a| ==> s[j] == a[j];
      assert j > |a| ==> s[j] == b[j - |a| - 1] && b[j - |a| - 1] in b;
    }
  }

  /** The same nodes elsewhere. */
  ghost predicate SameOn(h: seq<Rec>, h': seq<Rec>, s: set<int>) {
    |h| <= |h'| && forall n :: n in s && 0 <= n < |h| ==>
      h'[n].left == h[n].left && h'[n].right == h[n].right && h'[n].size == h[n].size && h'[n].data == h[n].data
  }

  lemma {:induction false} LinkedNodes(h: seq<Rec>, t: Tree, p: int)
    requires Linked(h, t, p)
    ensures forall n :: n in Nodes(t) ==> 0 <= n < |h|
  {
    if t.Fork? {
      LinkedNodes(h, t.l, h[t.n].left);
      LinkedNodes(h, t.r, h[t.n].right);
    }
  }

  lemma {:induction false} TreeKept(h: seq<Rec>, h': seq<Rec>, t: Tree, p: int)
    requires SameOn(h, h', Nodes(t)) && Linked(h, t, p)
    ensures Linked(h', t, p) && Inorder(h', t) == Inorder(h, t) && Preorder(h', t) == Preorder(h, t)
    ensures Sized(h, t) ==> Sized(h', t)
  {
    if t.Fork? {
      TreeKept(h, h', t.l, h[t.n].left);
      TreeKept(h, h', t.r, h[t.n].right);
    }
  }

  /** Pointers determine the tree. */
  lemma {:induction false} OneTree(h: seq<Rec>, t: Tree, u: Tree, p: int)
    requires Linked(h, t, p) && Linked(h, u, p)
    ensures t == u
  {
    if t.Fork? && u.Fork? {
      OneTree(h, t.l, u.l, h[t.n].left);
      OneTree(h, t.r, u.r, h[t.n].right);
    }
  }

  // ----- Insertion -----

  /** The tree with node c for a key it does not have. */
  function InsertTree(h: seq<Rec>, t: Tree, key: int, c: int): Tree {
    match t
    case Nil => Fork(Nil, c, Nil)
    case Fork(l, n, r) =>
      if key > Data(h, n) then Fork(l, n, InsertTree(h, r, key, c))
      else if key < Data(h, n) then Fork(InsertTree(h, l, key, c), n, r)
      else t
  }

  predicate Has(h: seq<Rec>, t: Tree, key: int) { key in Inorder(h, t) }

  lemma {:induction false} InsertKeys(h: seq<Rec>, t: Tree, key: int, c: int)
    requires Rising(Inorder(h, t)) && Data(h, c) == key
    ensures Rising(Inorder(h, InsertTree(h, t, key, c)))
    ensures forall k :: k in Inorder(h, InsertTree(h, t, key, c)) <==> k in Inorder(h, t) || k == key
    ensures Has(h, t, key) ==> InsertTree(h, t, key, c) == t
    ensures !Has(h, t, key) ==> Nodes(InsertTree(h, t, key, c)) == Nodes(t) + {c} && Size(InsertTree(h, t, key, c)) == Size(t) + 1
  {
    if t.Fork? {
      Sides(h, t);
      InsertKeys(h, t.l, key, c);
      InsertKeys(h, t.r, key, c);
      var d := Data(h, t.n);
      if key > d {
        Join(Inorder(h, t.l), d, Inorder(h, InsertTree(h, t.r, key, c)));
      } else if key < d {
        Join(Inorder(h, InsertTree(h, t.l, key, c)), d, Inorder(h, t.r));
      }
    }
  }

  lemma {:induction false} InsertApart(h: seq<Rec>, t: Tree, key: int, c: int)
    requires Apart(t) && c !in Nodes(t)
    ensures Apart(InsertTree(h, t, key, c)) && Nodes(InsertTree(h, t, key, c)) <= Nodes(t) + {c}
  {
    if t.Fork? {
      InsertApart(h, t.l, key, c);
      InsertApart(h, t.r, key, c);
    }
  }

  /** The data of the tree's nodes decide where a key goes. */
  lemma {:induction false} InsertSame(h: seq<Rec>, h': seq<Rec>, t: Tree, key: int, c: int)
    requires forall n :: n in Nodes(t) ==> Data(h', n) == Data(h, n)
    ensures InsertTree(h', t, key, c) == InsertTree(h, t, key, c) && Inorder(h', t) == Inorder(h, t)
  {
    if t.Fork? {
      InsertSame(h, h', t.l, key, c);
      InsertSame(h, h', t.r, key, c);
    }
  }

  /** Node n gets a new child on one side and a new size. */
  function Rehung(h: seq<Rec>, n: int, right: bool, q: int, size: int): seq<Rec>
    requires 0 <= n < |h|
  {
    h[n := if right then h[n].(right := q, size := size) else h[n].(left := q, size := size)]
  }

  function Side(t: Tree, right: bool): Tree
    requires t.Fork?
  {
    if right then t.r else t.l
  }

  function WithSide(t: Tree, right: bool, v: Tree): Tree
    requires t.Fork?
  {
    if right then Fork(t.l, t.n, v) else Fork(v, t.n, t.r)
  }

  /** v has only nodes of u and new ones. */
  ghost predicate OwnNodes(t: Tree, right: bool, v: Tree)
    requires t.Fork?
  {
    forall n :: n in Nodes(v) ==> n in Nodes(Side(t, right)) || n !in Nodes(t)
  }

  lemma SideApart(t: Tree, right: bool, v: Tree)
    requires t.Fork? && Apart(t) && Apart(v) && OwnNodes(t, right, v)
    ensures Apart(WithSide(t, right, v)) && t.n !in Nodes(v) && t.n !in Nodes(Side(t, !right))
    ensures Nodes(Side(t, !right)) !! Nodes(Side(t, right))
  {
    var o, u, t' := Side(t, !right), Side(t, right), WithSide(t, right, v);
    assert Nodes(t) == Nodes(u) + {t.n} + Nodes(o) && Nodes(t') == Nodes(v) + {t.n} + Nodes(o);
    assert Apart(o) && t.n !in Nodes(o) && t.n !in Nodes(u) && Nodes(o) !! Nodes(u);
    NewApart(Nodes(o), Nodes(u), Nodes(v), t.n, Nodes(t));
    hide Nodes;
  }

  lemma NewApart(o: set<int>, u: set<int>, v: set<int>, n: int, all: set<int>)
    requires all == u + {n} + o && n !in u && o !! u && forall x :: x in v ==> x in u || x !in all
    ensures o !! v && n !in v
  {
    forall x | x in o + {n} ensures x !in v {
      assert x in all && x !in u;
    }
  }

  /** Subtree Side(t, right) has become v, at q, by changes to its own nodes and new ones only. */
  lemma Replaced(h: seq<Rec>, h': seq<Rec>, t: Tree, p: int, v: Tree, q: int, right: bool)
    requires t.Fork? && Linked(h, t, p) && Apart(t) && Sized(h, t) && Linked(h', v, q) && Apart(v) && Sized(h', v)
    requires SameOn(h, h', Nodes(t) - Nodes(Side(t, right))) && OwnNodes(t, right, v)
    ensures 0 <= t.n < |h'|
    ensures var t' := WithSide(t, right, v);
            var h2 := Rehung(h', t.n, right, q, Size(t'));
            Linked(h2, t', p) && Apart(t') && Sized(h2, t')
  {
    SideApart(t, right, v);
    hide Apart;
    var n := t.n;
    var t' := WithSide(t, right, v);
    var h2 := Rehung(h', n, right, q, Size(t'));
    assert h'[n].left == h[n].left && h'[n].right == h[n].right;
    assert SameOn(h', h2, Nodes(v));
    TreeKept(h', h2, v, q);
    assert SameOn(h, h2, Nodes(Side(t, !right)));
    TreeKept(h, h2, Side(t, !right), if right then h[n].left else h[n].right);
  }

  lemma SameRoot(h: seq<Rec>, t: Tree, p: int, q: int)
    requires Linked(h, t, p) && Linked(h, t, q)
    ensures p == q
  {
  }

  // ----- Sibling lists -----

  /** From p on, h_next_sibling runs through list. */
  predicate KidList(h: seq<Rec>, p: int, list: seq<int>)
    decreases |list|
  {
    if list == [] then p == NULL else p == list[0] && 0 <= p < |h| && KidList(h, h[p].hnext, list[1..])
  }

  predicate Distinct(list: seq<int>) { forall i, j :: 0 <= i < j < |list| ==> list[i] != list[j] }

  /** The h_children list of p is kids[p], and names exactly the nodes whose h_parent is p. */
  ghost predicate KidsOf(h: seq<Rec>, nodes: set<int>, kids: map<int, seq<int>>, p: int) {
    && 0 <= p < |h| && p in kids && KidList(h, h[p].hchildren, kids[p]) && Distinct(kids[p])
    && forall c :: c in kids[p] <==> c in nodes && 0 <= c < |h| && h[c].hparent == p
  }

  ghost predicate Family(h: seq<Rec>, nodes: set<int>, kids: map<int, seq<int>>) {
    && (forall p :: p in nodes ==> KidsOf(h, nodes, kids, p))
    && forall c :: c in nodes && 0 <= c < |h| ==> h[c].hparent == NULL || h[c].hparent in nodes
  }

  lemma {:induction false} KidListKept(h: seq<Rec>, h': seq<Rec>, p: int, list: seq<int>)
    requires KidList(h, p, list) && |h| <= |h'| && forall c :: c in list && 0 <= c < |h| ==> h'[c].hnext == h[c].hnext
    ensures KidList(h', p, list)
    decreases |list|
  {
    if list != [] {
      assert list == [list[0]] + list[1..];
      KidListKept(h, h', h[p].hnext, list[1..]);
    }
  }

  /** What h_node_init makes of the heap; hp may be NULL. */
  function NewNode(h: seq<Rec>, key: int, hp: int): seq<Rec>
    requires hp == NULL || 0 <= hp < |h|
  {
    if hp == NULL then h + [Rec(key, NULL, NULL, 1, NULL, NULL, NULL)]
    else (h + [Rec(key, NULL, NULL, 1, hp, h[hp].hchildren, NULL)])[hp := h[hp].(hchildren := |h|)]
  }

  /** From h to h', a node for key was added below h_parent hp and hung into the tree with nodes s. */
  ghost predicate Hung(h: seq<Rec>, h': seq<Rec>, s: set<int>, key: int, hp: int) {
    && (hp == NULL || 0 <= hp < |h|) && |h'| == |h| + 1
    && forall n :: 0 <= n < |h'| ==>
         var x := NewNode(h, key, hp)[n];
         h'[n] == if n in s then x.(left := h'[n].left, right := h'[n].right, size := h'[n].size) else x
  }

  lemma SizeAt(h: seq<Rec>, t: Tree, p: int)
    requires Linked(h, t, p) && Sized(h, t)
    ensures if t.Nil? then p == NULL && Size(t) == 0 else 0 <= p < |h| && h[p].size == Size(t) && p == t.n && p in Nodes(t)
  {
  }

  lemma {:induction false} InsertKnown(h: seq<Rec>, t: Tree, key: int, c: int)
    requires Rising(Inorder(h, t)) && Has(h, t, key)
    ensures InsertTree(h, t, key, c) == t
  {
    Sides(h, t);
    if key > Data(h, t.n) {
      InsertKnown(h, t.r, key, c);
    } else if key < Data(h, t.n) {
      InsertKnown(h, t.l, key, c);
    }
  }

  lemma HasSide(h: seq<Rec>, t: Tree, key: int)
    requires t.Fork? && Rising(Inorder(h, t)) && key != Data(h, t.n)
    ensures Has(h, t, key) <==> Has(h, Side(t, key > Data(h, t.n)), key)
  {
    Sides(h, t);
  }

  /** Nothing new below p: the assignments on the way up change nothing. */
  lemma NothingHung(h: seq<Rec>, t: Tree, p: int, q: int, right: bool)
    requires t.Fork? && Linked(h, t, p) && Sized(h, t) && Linked(h, Side(t, right), q)
    ensures Rehung(h, t.n, right, q, Size(t)) == h
  {
    SameRoot(h, Side(t, right), q, if right then h[t.n].right else h[t.n].left);
  }

  /** One level up after a new node was hung in on one side. */
  lemma HungAbove(h: seq<Rec>, h1: seq<Rec>, t: Tree, p: int, key: int, hp: int, q: int, right: bool)
    requires t.Fork? && TreeAt(h, t, p) && !Has(h, t, key) && key != Data(h, t.n) && (right <==> key > Data(h, t.n))
    requires TreeAt(h1, InsertTree(h, Side(t, right), key, |h|), q) && Hung(h, h1, Nodes(Side(t, right)), key, hp)
    ensures var t' := InsertTree(h, t, key, |h|);
            && t' == WithSide(t, right, InsertTree(h, Side(t, right), key, |h|)) && 0 <= t.n < |h1|
            && var h2 := Rehung(h1, t.n, right, q, Size(t')); TreeAt(h2, t', p) && Hung(h, h2, Nodes(t), key, hp)
  {
    var c, v := |h|, InsertTree(h, Side(t, right), key, |h|);
    LinkedNodes(h, t, p);
    assert c !in Nodes(t) && Nodes(Side(t, right)) <= Nodes(t);
    InsertApart(h, Side(t, right), key, c);
    HungSame(h, h1, t, right, key, hp);
    Replaced(h, h1, t, p, v, q, right);
    var h2 := Rehung(h1, t.n, right, q, Size(WithSide(t, right, v)));
    HungData(h, h2, h1, t, right, key, hp, q);
    InsertSame(h, h2, t, key, c);
    InsertKeys(h2, t, key, c);
  }

  lemma HungSame(h: seq<Rec>, h1: seq<Rec>, t: Tree, right: bool, key: int, hp: int)
    requires t.Fork? && Hung(h, h1, Nodes(Side(t, right)), key, hp) && forall n :: n in Nodes(t) ==> 0 <= n < |h|
    ensures SameOn(h, h1, Nodes(t) - Nodes(Side(t, right)))
  {
    hide Nodes;
  }

  lemma HungData(h: seq<Rec>, h2: seq<Rec>, h1: seq<Rec>, t: Tree, right: bool, key: int, hp: int, q: int)
    requires t.Fork? && Hung(h, h1, Nodes(Side(t, right)), key, hp) && 0 <= t.n < |h| && Nodes(Side(t, right)) <= Nodes(t)
    requires |h2| == |h1| && h2 == Rehung(h1, t.n, right, q, h2[t.n].size)
    ensures Data(h2, |h|) == key && (forall n :: 0 <= n < |h| ==> Data(h2, n) == Data(h, n)) && Hung(h, h2, Nodes(t), key, hp)
  {
    assert t.n in Nodes(t);
    hide Nodes;
  }

  lemma FamilyGrows(h: seq<Rec>, h': seq<Rec>, s: set<int>, kids: map<int, seq<int>>, key: int, hp: int)
    requires Family(h, s, kids) && Hung(h, h', s, key, hp) && (hp == NULL || hp in s) && forall n :: n in s ==> 0 <= n < |h|
    ensures var c := |h|;
            Family(h', s + {c}, (if hp == NULL then kids else kids[hp := [c] + kids[hp]])[c := []])
  {
    var c := |h|;
    var kids' := (if hp == NULL then kids else kids[hp := [c] + kids[hp]])[c := []];
    forall p | p in s + {c} ensures KidsOf(h', s + {c}, kids', p) {
      if p == c {
        forall d | d in s + {c} ensures h'[d].hparent != c {
        }
      } else {
        GrownKids(h, h', s, kids, key, hp, p);
      }
    }
  }

  lemma GrownKids(h: seq<Rec>, h': seq<Rec>, s: set<int>, kids: map<int, seq<int>>, key: int, hp: int, p: int)
    requires Family(h, s, kids) && Hung(h, h', s, key, hp) && (hp == NULL || hp in s) && p in s && forall n :: n in s ==> 0 <= n < |h|
    ensures var c := |h|;
            KidsOf(h', s + {c}, (if hp == NULL then kids else kids[hp := [c] + kids[hp]])[c := []], p)
  {
    hide Hung, KidList, Distinct;
    assert KidsOf(h, s, kids, p);
    HungLinks(h, h', s, key, hp);
    KidListKept(h, h', h[p].hchildren, kids[p]);
    if p == hp {
      GrownList(h, h', kids[p], hp);
    }
  }

  lemma HungLinks(h: seq<Rec>, h': seq<Rec>, s: set<int>, key: int, hp: int)
    requires Hung(h, h', s, key, hp)
    ensures |h'| == |h| + 1 && h'[|h|].hparent == hp && h'[|h|].hnext == if hp == NULL then NULL else h[hp].hchildren
    ensures forall n :: 0 <= n < |h| ==> h'[n].hparent == h[n].hparent && h'[n].hnext == h[n].hnext
    ensures forall n :: 0 <= n < |h| ==> h'[n].hchildren == if n == hp then |h| else h[n].hchildren
  {
  }

  lemma GrownList(h: seq<Rec>, h': seq<Rec>, kids: seq<int>, hp: int)
    requires 0 <= hp < |h| && |h'| == |h| + 1 && h'[hp].hchildren == |h| && h'[|h|].hnext == h[hp].hchildren
    requires KidList(h', h[hp].hchildren, kids) && (forall d :: d in kids ==> d < |h|) && Distinct(kids)
    ensures KidList(h', h'[hp].hchildren, [|h|] + kids) && Distinct([|h|] + kids)
  {
    var list := [|h|] + kids;
    assert list[1..] == kids;
    assert KidList(h', |h|, list);
    assert |h| !in kids;
  }

  // ----- remove_child_from_h -----

  /** The heap without c in its h_parent's list, for the place i of c in that list. */
  function Unhung(h: seq<Rec>, c: int, list: seq<int>, i: int): seq<Rec>
    requires 0 <= c < |h| && 0 <= h[c].hparent < |h| && 0 <= i < |list|
  {
    if i == 0 then h[h[c].hparent := h[h[c].hparent].(hchildren := h[c].hnext)]
    else if 0 <= list[i - 1] < |h| then h[list[i - 1] := h[list[i - 1]].(hnext := h[c].hnext)]
    else h
  }

  lemma {:induction false} KidAt(h: seq<Rec>, p: int, list: seq<int>, i: nat)
    requires KidList(h, p, list) && i < |list|
    ensures 0 <= list[i] < |h| && h[list[i]].hnext == if i + 1 < |list| then list[i + 1] else NULL
    ensures KidList(h, list[i], list[i..])
    decreases i
  {
    if i > 0 {
      KidAt(h, h[p].hnext, list[1..], i - 1);
      assert list[1..][i - 1..] == list[i..];
    }
  }

  lemma {:induction false} KidCut(h: seq<Rec>, h': seq<Rec>, p: int, list: seq<int>, i: nat)
    requires KidList(h, p, list) && Distinct(list) && 0 < i < |list| && 0 <= list[i] < |h| && 0 <= list[i - 1] < |h|
    requires h' == h[list[i - 1] := h[list[i - 1]].(hnext := h[list[i]].hnext)]
    ensures KidList(h', p, list[..i] + list[i + 1..])
    decreases i
  {
    KidAt(h, p, list, i);
    KidAt(h, p, list, i - 1);
    var cut := list[..i] + list[i + 1..];
    assert forall j, k :: 0 <= j < k < |list| ==> list[j] != list[k];
    if i == 1 {
      assert list[1..][1..] == list[2..];
      KidAt(h, p, list, 0);
      KidListKept(h, h', h[list[1]].hnext, list[2..]);
      assert cut[1..] == list[2..];
    } else {
      var rest := list[1..];
      KidCut(h, h', h[p].hnext, rest, i - 1);
      assert cut[1..] == rest[..i - 1] + rest[i..];
    }
  }

  /** Unhung takes c, which has no children, out of the family. */
  lemma FamilyShrinks(h: seq<Rec>, h': seq<Rec>, s: set<int>, kids: map<int, seq<int>>, c: int, i: int)
    requires Family(h, s, kids) && c in s && (forall n :: n in s ==> 0 <= n < |h|) && h[c].hparent != NULL && h[c].hchildren == NULL
    requires var list := kids[h[c].hparent]; 0 <= i < |list| && list[i] == c && h' == Unhung(h, c, list, i)
    ensures var hp := h[c].hparent;
            Family(h', s - {c}, kids[hp := kids[hp][..i] + kids[hp][i + 1..]])
  {
    var hp := h[c].hparent;
    var list := kids[hp];
    var cut := list[..i] + list[i + 1..];
    assert KidsOf(h, s, kids, hp) && KidsOf(h, s, kids, c);
    assert kids[c] == [];
    forall p | p in s - {c} ensures KidsOf(h', s - {c}, kids[hp := cut], p) {
      assert KidsOf(h, s, kids, p);
      if p == hp {
        CutKids(h, h', s, kids, c, i);
      } else {
        OtherKids(h, h', s, kids, c, i, p);
      }
    }
    hide KidsOf;
    forall d | d in s - {c} ensures h'[d].hparent == NULL || h'[d].hparent in s - {c} {
      assert d !in kids[c];
    }
  }

  /** The other lists are as they were. */
  lemma OtherKids(h: seq<Rec>, h': seq<Rec>, s: set<int>, kids: map<int, seq<int>>, c: int, i: int, p: int)
    requires 0 <= c < |h| && 0 <= h[c].hparent < |h| && p != h[c].hparent && p != c && KidsOf(h, s, kids, p) && KidsOf(h, s, kids, h[c].hparent)
    requires var list := kids[h[c].hparent]; 0 <= i < |list| && list[i] == c && h' == Unhung(h, c, list, i)
    ensures KidsOf(h', s - {c}, kids, p) && kids[h[c].hparent := kids[h[c].hparent][..i] + kids[h[c].hparent][i + 1..]][p] == kids[p]
  {
    var list := kids[h[c].hparent];
    forall d | d in kids[p] ensures h'[d].hnext == h[d].hnext {
      if i > 0 {
        assert list[i - 1] in list;
      }
    }
    KidListKept(h, h', h[p].hchildren, kids[p]);
  }

  lemma CutKids(h: seq<Rec>, h': seq<Rec>, s: set<int>, kids: map<int, seq<int>>, c: int, i: int)
    requires Family(h, s, kids) && c in s && (forall n :: n in s ==> 0 <= n < |h|) && 0 <= h[c].hparent < |h| && h[c].hparent in s - {c}
    requires var list := kids[h[c].hparent]; 0 <= i < |list| && list[i] == c && h' == Unhung(h, c, list, i)
    ensures var hp := h[c].hparent; KidsOf(h', s - {c}, kids[hp := kids[hp][..i] + kids[hp][i + 1..]], hp)
  {
    var hp := h[c].hparent;
    var list := kids[hp];
    var cut := list[..i] + list[i + 1..];
    assert KidsOf(h, s, kids, hp);
    CutElems(list, i);
    CutList(h, h', h[hp].hchildren, list, i, c);
    assert h'[hp].hchildren == if i == 0 then h[c].hnext else h[hp].hchildren;
  }

  lemma CutElems(list: seq<int>, i: int)
    requires 0 <= i < |list| && Distinct(list)
    ensures var cut := list[..i] + list[i + 1..];
            Distinct(cut) && forall d :: d in cut <==> d in list && d != list[i]
  {
    var cut := list[..i] + list[i + 1..];
    forall d ensures d in cut <==> d in list && d != list[i] {
      if d in list && d != list[i] {
        var j :| 0 <= j < |list| && list[j] == d;
        assert j != i;
        assert d == if j < i then cut[j] else cut[j - 1];
      }
    }
  }

  lemma CutList(h: seq<Rec>, h': seq<Rec>, p: int, list: seq<int>, i: int, c: int)
    requires KidList(h, p, list) && Distinct(list) && 0 <= i < |list| && list[i] == c && 0 <= c < |h| && 0 <= h[c].hparent < |h|
    requires h' == Unhung(h, c, list, i)
    ensures KidList(h', if i == 0 then h[c].hnext else p, list[..i] + list[i + 1..])
  {
    KidAt(h, p, list, i);
    var cut := list[..i] + list[i + 1..];
    if i == 0 {
      assert cut == list[1..];
      KidListKept(h, h', h[c].hnext, list[1..]);
    } else {
      KidAt(h, p, list, i - 1);
      KidCut(h, h', p, list, i);
    }
  }

  // ----- The successor -----

  /** What delete_root can handle: at most one left step below the right child. */
  predicate Shallow(t: Tree) {
    t.Fork? ==> t.l.Nil? || t.r.Nil? || t.r.l.Nil? || t.r.l.l.Nil?
  }

  /** The tree without its root. */
  function DropRoot(t: Tree): Tree
    requires t.Fork? && Shallow(t)
  {
    if t.l.Nil? then t.r
    else if t.r.Nil? then t.l
    else if t.r.l.Nil? then Fork(t.l, t.r.n, t.r.r)
    else Fork(t.l, t.r.l.n, Fork(t.r.l.r, t.r.n, t.r.r))
  }

  lemma DropKeys(h: seq<Rec>, t: Tree)
    requires t.Fork? && Shallow(t)
    ensures Inorder(h, DropRoot(t)) == Inorder(h, t.l) + Inorder(h, t.r)
    ensures Apart(t) ==> Apart(DropRoot(t)) && Nodes(DropRoot(t)) == Nodes(t) - {t.n}
    ensures Size(DropRoot(t)) == Size(t) - 1
  {
    hide Inorder, Nodes, Apart, Size, DropRoot, Data;
    if t.l.Nil? || t.r.Nil? {
      DropEasy(h, t);
    } else if t.r.l.Nil? {
      DropNext(h, t);
    } else {
      DropDeep(h, t);
    }
  }

  /** A subtree is empty. */
  lemma DropEasy(h: seq<Rec>, t: Tree)
    requires t.Fork? && (t.l.Nil? || t.r.Nil?)
    ensures Inorder(h, DropRoot(t)) == Inorder(h, t.l) + Inorder(h, t.r) && Size(DropRoot(t)) == Size(t) - 1
    ensures Apart(t) ==> Apart(DropRoot(t)) && Nodes(DropRoot(t)) == Nodes(t) - {t.n}
  {
  }

  /** The right child is the successor. */
  lemma DropNext(h: seq<Rec>, t: Tree)
    requires t.Fork? && t.l.Fork? && t.r.Fork? && t.r.l.Nil?
    ensures Inorder(h, DropRoot(t)) == Inorder(h, t.l) + Inorder(h, t.r) && Size(DropRoot(t)) == Size(t) - 1
    ensures Apart(t) ==> Apart(DropRoot(t)) && Nodes(DropRoot(t)) == Nodes(t) - {t.n}
  {
    DropNextNodes(t);
    hide Nodes, Apart;
    assert Size(t) == 1 + Size(t.l) + Size(t.r) && Size(t.r) == 1 + Size(t.r.r);
    assert Inorder(h, t.r) == [Data(h, t.r.n)] + Inorder(h, t.r.r);
  }

  lemma DropNextNodes(t: Tree)
    requires t.Fork? && t.l.Fork? && t.r.Fork? && t.r.l.Nil?
    ensures Apart(t) ==> Apart(DropRoot(t)) && Nodes(DropRoot(t)) == Nodes(t) - {t.n}
  {
    var l, r := t.l, t.r;
    assert Nodes(r) == {r.n} + Nodes(r.r) && Nodes(t) == Nodes(l) + {t.n} + Nodes(r);
    assert Nodes(Fork(l, r.n, r.r)) == Nodes(l) + {r.n} + Nodes(r.r);
    if Apart(t) {
      assert Apart(l) && Apart(r) && Apart(r.r) && r.n !in Nodes(r.r);
      assert Apart(Fork(l, r.n, r.r));
    }
  }

  /** The case with the successor one step to the left. */
  lemma DropDeep(h: seq<Rec>, t: Tree)
    requires t.Fork? && t.l.Fork? && t.r.Fork? && t.r.l.Fork? && t.r.l.l.Nil?
    ensures Inorder(h, DropRoot(t)) == Inorder(h, t.l) + Inorder(h, t.r)
    ensures Apart(t) ==> Apart(DropRoot(t)) && Nodes(DropRoot(t)) == Nodes(t) - {t.n}
    ensures Size(DropRoot(t)) == Size(t) - 1
  {
    DropDeepNodes(h, t);
    DropDeepSize(t);
    hide Nodes, Apart, Size;
    Regroup(Inorder(h, t.l), Data(h, t.r.l.n), Inorder(h, t.r.l.r), Data(h, t.r.n), Inorder(h, t.r.r));
    assert Inorder(h, t.r.l) == [Data(h, t.r.l.n)] + Inorder(h, t.r.l.r);
  }

  lemma DropDeepSize(t: Tree)
    requires t.Fork? && t.l.Fork? && t.r.Fork? && t.r.l.Fork? && t.r.l.l.Nil?
    ensures Size(DropRoot(t)) == Size(t) - 1
  {
    assert Size(t) == 1 + Size(t.l) + Size(t.r) && Size(t.r) == 1 + Size(t.r.l) + Size(t.r.r);
    assert Size(t.r.l) == 1 + Size(t.r.l.r);
    assert Size(Fork(t.r.l.r, t.r.n, t.r.r)) == 1 + Size(t.r.l.r) + Size(t.r.r);
  }

  lemma Regroup(a: seq<int>, m: int, b: seq<int>, r: int, c: seq<int>)
    ensures a + [m] + (b + [r] + c) == a + ([m] + b + [r] + c)
  {
  }

  lemma DropDeepNodes(h: seq<Rec>, t: Tree)
    requires t.Fork? && t.l.Fork? && t.r.Fork? && t.r.l.Fork? && t.r.l.l.Nil?
    ensures Apart(t) ==> Apart(DropRoot(t)) && Nodes(DropRoot(t)) == Nodes(t) - {t.n}
  {
    var r, m := t.r, t.r.l;
    var below := Fork(m.r, r.n, r.r);
    assert Nodes(m) == {m.n} + Nodes(m.r) && Nodes(r) == Nodes(m) + {r.n} + Nodes(r.r);
    assert Nodes(below) == Nodes(m.r) + {r.n} + Nodes(r.r);
    if Apart(t) {
      assert Apart(r) && Apart(m) && Apart(m.r) && Apart(r.r);
      assert Apart(below);
    }
  }

  lemma DropRising(a: seq<int>, x: int, b: seq<int>)
    requires Rising(a + [x] + b)
    ensures Rising(a + b) && forall k :: k in a + b <==> k in a + [x] + b && k != x
  {
    Parted(a, x, b);
    forall i, j | 0 <= i < j < |a + b| ensures (a + b)[i] < (a + b)[j] {
      assert i < |a| ==> a[i] in a;
      assert j >= |a| ==> b[j - |a|] in b;
    }
  }

  /** The tree without a key. */
  function DeleteTree(h: seq<Rec>, t: Tree, key: int): Tree
    requires Handled(h, t, key)
  {
    match t
    case Nil => Nil
    case Fork(l, n, r) =>
      if Data(h, n) == key then DropRoot(t)
      else if Data(h, n) < key then Fork(l, n, DeleteTree(h, r, key))
      else Fork(DeleteTree(h, l, key), n, r)
  }

  /** The node of the key, if any, is shallow. */
  predicate Handled(h: seq<Rec>, t: Tree, key: int) {
    match t
    case Nil => true
    case Fork(l, n, r) =>
      if Data(h, n) == key then Shallow(t) else if Data(h, n) < key then Handled(h, r, key) else Handled(h, l, key)
  }

  /** The node of the key, or NULL. */
  function Find(h: seq<Rec>, t: Tree, key: int): int {
    match t
    case Nil => NULL
    case Fork(l, n, r) => if Data(h, n) == key then n else if Data(h, n) < key then Find(h, r, key) else Find(h, l, key)
  }

  lemma {:induction false} FindKey(h: seq<Rec>, t: Tree, key: int, p: int)
    requires Linked(h, t, p) && Rising(Inorder(h, t))
    ensures Find(h, t, key) != NULL <==> Has(h, t, key)
    ensures Find(h, t, key) != NULL ==> Find(h, t, key) in Nodes(t) && Data(h, Find(h, t, key)) == key && 0 <= Find(h, t, key) < |h|
  {
    if t.Fork? {
      Sides(h, t);
      FindKey(h, t.l, key, h[t.n].left);
      FindKey(h, t.r, key, h[t.n].right);
    }
  }

  /** What deleting a key comes to. */
  ghost predicate Deleted(h: seq<Rec>, t: Tree, u: Tree, key: int) {
    && Rising(Inorder(h, u)) && (forall k :: k in Inorder(h, u) <==> k in Inorder(h, t) && k != key)
    && DeletedNodes(h, t, u, key)
  }

  ghost predicate DeletedNodes(h: seq<Rec>, t: Tree, u: Tree, key: int) {
    Apart(u) && Nodes(u) == Nodes(t) - {Find(h, t, key)} && Size(u) == Size(t) - if Has(h, t, key) then 1 else 0
  }

  lemma DeleteHere(h: seq<Rec>, t: Tree, p: int)
    requires t.Fork? && Linked(h, t, p) && Rising(Inorder(h, t)) && Apart(t) && Shallow(t)
    ensures Deleted(h, t, DropRoot(t), Data(h, t.n))
  {
    hide Rising, DropRoot, Shallow, Linked, Apart, Nodes, Size;
    FindKey(h, t, Data(h, t.n), p);
    DropKeys(h, t);
    DropRising(Inorder(h, t.l), Data(h, t.n), Inorder(h, t.r));
  }

  /** The key is on one side of the root: as far as the keys go. */
  lemma DeleteRight(a: seq<int>, d: int, b: seq<int>, v: seq<int>, key: int)
    requires Rising(a + [d] + b) && Rising(v) && d < key && forall k :: k in v <==> k in b && k != key
    ensures Rising(a + [d] + v) && forall k :: k in a + [d] + v <==> k in a + [d] + b && k != key
  {
    Parted(a, d, b);
    Join(a, d, v);
  }

  lemma DeleteLeft(a: seq<int>, d: int, b: seq<int>, v: seq<int>, key: int)
    requires Rising(a + [d] + b) && Rising(v) && key < d && forall k :: k in v <==> k in a && k != key
    ensures Rising(v + [d] + b) && forall k :: k in v + [d] + b <==> k in a + [d] + b && k != key
  {
    Parted(a, d, b);
    Join(v, d, b);
  }

  lemma DeleteSide(h: seq<Rec>, t: Tree, v: Tree, key: int, p: int, right: bool)
    requires t.Fork? && Linked(h, t, p) && Rising(Inorder(h, t)) && Apart(t) && Data(h, t.n) != key && (right <==> Data(h, t.n) < key)
    requires Deleted(h, Side(t, right), v, key)
    ensures Deleted(h, t, WithSide(t, right, v), key)
  {
    hide Rising, Linked, DeletedNodes, Apart;
    DeleteSideNodes(h, t, v, key, p, right);
    if right {
      DeleteRight(Inorder(h, t.l), Data(h, t.n), Inorder(h, t.r), Inorder(h, v), key);
    } else {
      DeleteLeft(Inorder(h, t.l), Data(h, t.n), Inorder(h, t.r), Inorder(h, v), key);
    }
  }

  lemma DeleteSideNodes(h: seq<Rec>, t: Tree, v: Tree, key: int, p: int, right: bool)
    requires t.Fork? && Linked(h, t, p) && Rising(Inorder(h, t)) && Apart(t) && Data(h, t.n) != key && (right <==> Data(h, t.n) < key)
    requires DeletedNodes(h, Side(t, right), v, key)
    ensures DeletedNodes(h, t, WithSide(t, right, v), key)
  {
    hide Rising, Linked, Has, Find;
    SideFacts(h, t, key, p);
    SideApart(t, right, v);
    assert NULL !in Nodes(Side(t, true)) && NULL !in Nodes(Side(t, false));
  }

  lemma SideFacts(h: seq<Rec>, t: Tree, key: int, p: int)
    requires t.Fork? && Linked(h, t, p) && Rising(Inorder(h, t)) && Data(h, t.n) != key
    ensures Find(h, t, key) == Find(h, if Data(h, t.n) < key then t.r else t.l, key)
    ensures Has(h, t, key) <==> Has(h, if Data(h, t.n) < key then t.r else t.l, key)
    ensures var s := if Data(h, t.n) < key then t.r else t.l; Find(h, s, key) != NULL ==> Find(h, s, key) in Nodes(s)
    ensures NULL !in Nodes(t)
  {
    FindKey(h, t, key, p);
    LinkedNodes(h, t, p);
    Sides(h, t);
    FindKey(h, t.l, key, h[t.n].left);
    FindKey(h, t.r, key, h[t.n].right);
  }

  lemma {:induction false} DeleteKeys(h: seq<Rec>, t: Tree, key: int, p: int)
    requires Linked(h, t, p) && Rising(Inorder(h, t)) && Handled(h, t, key) && Apart(t)
    ensures Deleted(h, t, DeleteTree(h, t, key), key)
  {
    if t.Fork? {
      Sides(h, t);
      hide Rising, Deleted;
      if Data(h, t.n) == key {
        DeleteHere(h, t, p);
      } else if Data(h, t.n) < key {
        DeleteKeys(h, t.r, key, h[t.n].right);
        DeleteSide(h, t, DeleteTree(h, t.r, key), key, p, true);
      } else {
        DeleteKeys(h, t.l, key, h[t.n].left);
        DeleteSide(h, t, DeleteTree(h, t.l, key), key, p, false);
      }
    }
  }

  // ----- Why a deeper successor goes wrong -----

  /** The node k left steps below p, or NULL. */
  function LeftOf(h: seq<Rec>, p: int, k: nat): int {
    if k == 0 then p else var q := LeftOf(h, p, k - 1); if 0 <= q < |h| then h[q].left else NULL
  }

  lemma {:induction false} LeftSub(h: seq<Rec>, t: Tree, p: int, k: nat) returns (u: Tree)
    requires Linked(h, t, p)
    ensures Linked(h, u, LeftOf(h, p, k)) && Size(u) <= Size(t) && Nodes(u) <= Nodes(t)
    decreases k
  {
    u := t;
    if k > 0 {
      u := LeftSub(h, t, p, k - 1);
      if u.Fork? {
        u := u.l;
      }
    }
  }

  /** A node whose right child leads back to it by left steps is the root of no tree at all. */
  lemma CycleNoTree(h: seq<Rec>, b: int, k: nat, u: Tree)
    requires 0 <= b < |h| && LeftOf(h, h[b].right, k) == b
    ensures !Linked(h, u, b)
  {
    if Linked(h, u, b) {
      var w := LeftSub(h, u.r, h[b].right, k);
      OneTree(h, u, w, b);
    }
  }

  /** Left steps before the last node do not notice that other nodes change. */
  lemma {:induction false} LeftKept(h: seq<Rec>, h': seq<Rec>, p: int, k: nat)
    requires |h'| == |h| && forall j :: 0 <= j < k ==> var q := LeftOf(h, p, j); 0 <= q < |h| && h'[q].left == h[q].left
    ensures LeftOf(h', p, k) == LeftOf(h, p, k)
    decreases k
  {
    if k > 0 {
      LeftKept(h, h', p, k - 1);
      assert 0 <= LeftOf(h, p, k - 1) < |h|;
    }
  }

  /** Only sizes differ. */
  ghost predicate SameLinks(h: seq<Rec>, h': seq<Rec>) {
    |h'| == |h| && forall n :: 0 <= n < |h| ==> h'[n] == h[n].(size := h'[n].size)
  }

  /** Outside `nodes` the heap is as before, and nowhere do data or the hierarchy change. */
  ghost predicate OnlyLinks(h: seq<Rec>, h': seq<Rec>, nodes: set<int>) {
    |h'| == |h| && forall n :: 0 <= n < |h| ==>
      h'[n] == if n in nodes then h[n].(left := h'[n].left, right := h'[n].right, size := h'[n].size) else h[n]
  }

  /** delete_root when the right child has no left child: it takes over the left subtree. */
  lemma DropFirst(h: seq<Rec>, h': seq<Rec>, t: Tree, p: int)
    requires t.Fork? && t.l.Fork? && t.r.Fork? && t.r.l.Nil? && Linked(h, t, p) && Apart(t) && Sized(h, t)
    requires 0 <= t.n < |h| && 0 <= t.r.n < |h| && h' == h[t.r.n := h[t.r.n].(left := h[t.n].left, size := 1 + Size(t.l) + Size(t.r.r))]
    ensures Linked(h', DropRoot(t), t.r.n) && Sized(h', DropRoot(t)) && OnlyLinks(h, h', Nodes(t))
  {
    var n := t.r.n;
    assert n !in Nodes(t.l) && n !in Nodes(t.r.r);
    TreeKept(h, h', t.l, h[t.n].left);
    TreeKept(h, h', t.r.r, h[n].right);
  }

  /** delete_root when the successor is the right child's left child. */
  lemma DropSecond(h: seq<Rec>, h': seq<Rec>, t: Tree, p: int)
    requires t.Fork? && t.l.Fork? && t.r.Fork? && t.r.l.Fork? && t.r.l.l.Nil? && Linked(h, t, p) && Apart(t) && Sized(h, t)
    requires |h'| == |h| && OnlyLinks(h, h', {t.n, t.r.n, t.r.l.n})
    requires var m, n := t.r.l.n, t.r.n;
             && 0 <= m < |h| && 0 <= n < |h|
             && h'[m].left == h[t.n].left && h'[m].right == n && h'[m].size == Size(t) - 1
             && h'[n].left == h[m].right && h'[n].right == h[n].right && h'[n].size == Size(t.r) - 1
    ensures Linked(h', DropRoot(t), t.r.l.n) && Sized(h', DropRoot(t)) && OnlyLinks(h, h', Nodes(t))
  {
    var m, n := t.r.l.n, t.r.n;
    hide Linked, Sized, Apart, Nodes, Size, DropRoot, OnlyLinks;
    SecondApart(t);
    SecondParts(h, t, p);
    OnlyThree(h, h', t);
    TreeKept(h, h', t.l, h[t.n].left);
    TreeKept(h, h', t.r.l.r, h[m].right);
    TreeKept(h, h', t.r.r, h[n].right);
    SecondLinked(h', t, h[t.n].left, h[m].right, h[n].right);
  }

  lemma SecondParts(h: seq<Rec>, t: Tree, p: int)
    requires t.Fork? && t.r.Fork? && t.r.l.Fork? && Linked(h, t, p) && Sized(h, t)
    ensures 0 <= t.n < |h| && 0 <= t.r.n < |h| && 0 <= t.r.l.n < |h|
    ensures Linked(h, t.l, h[t.n].left) && Linked(h, t.r.l.r, h[t.r.l.n].right) && Linked(h, t.r.r, h[t.r.n].right)
    ensures Sized(h, t.l) && Sized(h, t.r.l.r) && Sized(h, t.r.r)
  {
    assert Linked(h, t.r, h[t.n].right) && Sized(h, t.r);
    assert Linked(h, t.r.l, h[t.r.n].left) && Sized(h, t.r.l);
  }

  lemma OnlyThree(h: seq<Rec>, h': seq<Rec>, t: Tree)
    requires t.Fork? && t.r.Fork? && t.r.l.Fork? && OnlyLinks(h, h', {t.n, t.r.n, t.r.l.n})
    requires forall s :: s in {t.n, t.r.n, t.r.l.n} ==> s !in Nodes(t.l) && s !in Nodes(t.r.l.r) && s !in Nodes(t.r.r) && s in Nodes(t)
    ensures SameOn(h, h', Nodes(t.l)) && SameOn(h, h', Nodes(t.r.l.r)) && SameOn(h, h', Nodes(t.r.r)) && OnlyLinks(h, h', Nodes(t))
  {
    hide Nodes;
  }

  lemma SecondLinked(h: seq<Rec>, t: Tree, l: int, ml: int, rr: int)
    requires t.Fork? && t.l.Fork? && t.r.Fork? && t.r.l.Fork? && t.r.l.l.Nil?
    requires Linked(h, t.l, l) && Linked(h, t.r.l.r, ml) && Linked(h, t.r.r, rr) && Sized(h, t.l) && Sized(h, t.r.l.r) && Sized(h, t.r.r)
    requires var m, n := t.r.l.n, t.r.n;
             && 0 <= m < |h| && 0 <= n < |h| && h[m].left == l && h[m].right == n && h[m].size == Size(t) - 1
             && h[n].left == ml && h[n].right == rr && h[n].size == Size(t.r) - 1
    ensures Linked(h, DropRoot(t), t.r.l.n) && Sized(h, DropRoot(t))
  {
    var below := Fork(t.r.l.r, t.r.n, t.r.r);
    assert Size(t.r.l) == 1 + Size(t.r.l.r);
    assert Linked(h, below, t.r.n) && Sized(h, below);
  }

  lemma SecondApart(t: Tree)
    requires t.Fork? && t.r.Fork? && t.r.l.Fork? && Apart(t)
    ensures var m, n := t.r.l.n, t.r.n;
            && m != n && m != t.n && n != t.n
            && (forall s :: s in {t.n, n, m} ==> s !in Nodes(t.l) && s !in Nodes(t.r.l.r) && s !in Nodes(t.r.r) && s in Nodes(t))
  {
    assert Apart(t.r) && Apart(t.r.l);
  }

  /** delete_root when the successor b is deeper: b's new right child leads back to b. */
  lemma DropThird(h: seq<Rec>, h': seq<Rec>, t: Tree, p: int, b: int, k: nat)
    requires t.Fork? && t.r.Fork? && Linked(h, t, p) && Apart(t) && LeftOf(h, t.r.n, k) == b && 0 <= b < |h| && h[b].left == NULL
    requires |h'| == |h| && h'[b].right == t.r.n && forall n :: 0 <= n < |h| && n != b && n != t.n ==> h'[n].left == h[n].left
    ensures forall u :: !Linked(h', u, b)
  {
    forall j | 0 <= j < k ensures var q := LeftOf(h, t.r.n, j); 0 <= q < |h| && h'[q].left == h[q].left {
      BeforeLast(h, t, p, b, k, j);
    }
    LeftKept(h, h', t.r.n, k);
    forall u ensures !Linked(h', u, b) {
      CycleNoTree(h', b, k, u);
    }
  }

  lemma {:induction false} BeforeLast(h: seq<Rec>, t: Tree, p: int, b: int, k: nat, j: nat)
    requires t.Fork? && t.r.Fork? && Linked(h, t, p) && Apart(t) && LeftOf(h, t.r.n, k) == b && 0 <= b < |h| && h[b].left == NULL && j < k
    ensures var q := LeftOf(h, t.r.n, j); 0 <= q < |h| && q != b && q != t.n && h[q].left != NULL
    decreases k - j
  {
    var u := LeftSub(h, t.r, h[t.n].right, j);
    LinkedNodes(h, t, p);
    if j + 1 < k {
      BeforeLast(h, t, p, b, k, j + 1);
    }
    assert LeftOf(h, t.r.n, j + 1) != NULL;
    assert u.Fork?;
    assert u.n in Nodes(t.r);
  }

  lemma {:induction false} InorderSame(h: seq<Rec>, h': seq<Rec>, t: Tree)
    requires forall n :: n in Nodes(t) ==> Data(h', n) == Data(h, n)
    ensures Inorder(h', t) == Inorder(h, t)
  {
    if t.Fork? {
      InorderSame(h, h', t.l);
      InorderSame(h, h', t.r);
    }
  }

  /** Links of the search tree do not matter to the hierarchy. */
  lemma FamilyLinks(h: seq<Rec>, h': seq<Rec>, nodes: set<int>, s: set<int>, kids: map<int, seq<int>>)
    requires Family(h, s, kids) && OnlyLinks(h, h', nodes)
    ensures Family(h', s, kids)
  {
    forall p | p in s ensures KidsOf(h', s, kids, p) {
      assert KidsOf(h, s, kids, p);
      KidListKept(h, h', h[p].hchildren, kids[p]);
    }
  }

  /** A node without parent and children leaves no trace. */
  lemma FamilyDrops(h: seq<Rec>, s: set<int>, kids: map<int, seq<int>>, c: int)
    requires Family(h, s, kids) && c in s && 0 <= c < |h| && h[c].hparent == NULL && h[c].hchildren == NULL
    ensures Family(h, s - {c}, kids)
  {
    assert KidsOf(h, s, kids, c);
    assert kids[c] == [];
    forall p | p in s - {c} ensures KidsOf(h, s - {c}, kids, p) {
      assert KidsOf(h, s, kids, p);
    }
    forall d | d in s - {c} && 0 <= d < |h| ensures h[d].hparent == NULL || h[d].hparent in s - {c} {
      assert d !in kids[c];
    }
  }

  /** Data are as before everywhere, and the tree's links outside `nodes`. */
  ghost predicate SameBut(h: seq<Rec>, h': seq<Rec>, nodes: set<int>) {
    && |h'| == |h| && (forall n :: 0 <= n < |h| ==> h'[n].data == h[n].data)
    && forall n :: 0 <= n < |h| && n !in nodes ==> h'[n].left == h[n].left && h'[n].right == h[n].right && h'[n].size == h[n].size
  }

  lemma {:induction false} DeleteUnknown(h: seq<Rec>, t: Tree, key: int)
    requires Handled(h, t, key) && Find(h, t, key) == NULL && forall n :: n in Nodes(t) ==> 0 <= n
    ensures DeleteTree(h, t, key) == t
  {
    if t.Fork? {
      assert t.n in Nodes(t);
      if Data(h, t.n) < key {
        DeleteUnknown(h, t.r, key);
      } else {
        DeleteUnknown(h, t.l, key);
      }
    }
  }

  lemma DeletedHere(h: seq<Rec>, h': seq<Rec>, t: Tree, p: int, r: int)
    requires TreeAt(h, t, p) && t.Fork? && Shallow(t) && SameBut(h, h', Nodes(t))
    requires Linked(h', DropRoot(t), r) && Sized(h', DropRoot(t))
    ensures TreeAt(h', DeleteTree(h, t, Data(h, t.n)), r)
  {
    DeleteHere(h, t, p);
    InorderSame(h, h', DropRoot(t));
  }

  /** One level above a deletion. */
  lemma DeletedAbove(h: seq<Rec>, h': seq<Rec>, t: Tree, p: int, key: int, q: int, right: bool)
    requires t.Fork? && TreeAt(h, t, p) && Handled(h, t, key) && key != Data(h, t.n) && (right <==> Data(h, t.n) < key)
    requires SameBut(h, h', Nodes(Side(t, right))) && TreeAt(h', DeleteTree(h, Side(t, right), key), q)
    ensures 0 <= t.n < |h'| && DeleteTree(h, t, key) == WithSide(t, right, DeleteTree(h, Side(t, right), key))
    ensures var v := DeleteTree(h, Side(t, right), key);
            TreeAt(Rehung(h', t.n, right, q, Size(WithSide(t, right, v))), DeleteTree(h, t, key), p)
  {
    var v := DeleteTree(h, Side(t, right), key);
    var child := if right then h[t.n].right else h[t.n].left;
    Sides(h, t);
    DeleteKeys(h, Side(t, right), key, child);
    OwnSide(t, right, v);
    SameOutside(h, h', t, right);
    Replaced(h, h', t, p, v, q, right);
    DeleteSide(h, t, v, key, p, right);
    InorderSame(h, Rehung(h', t.n, right, q, Size(WithSide(t, right, v))), WithSide(t, right, v));
  }

  lemma OwnSide(t: Tree, right: bool, v: Tree)
    requires t.Fork? && Nodes(v) <= Nodes(Side(t, right))
    ensures OwnNodes(t, right, v)
  {
  }

  lemma SameOutside(h: seq<Rec>, h': seq<Rec>, t: Tree, right: bool)
    requires t.Fork? && SameBut(h, h', Nodes(Side(t, right)))
    ensures SameOn(h, h', Nodes(t) - Nodes(Side(t, right)))
  {
    hide Nodes;
  }
}
