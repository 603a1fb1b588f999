/** hierarchy_tree.c of lab 3.  malloc adds a record to the heap; keys are compared as numbers, where the original
    calls data_cmp. */
module HTree {
  import opened HTreeShape

  /** An element of the arrays that the flatten functions fill. */
  datatype Slot = Null | Elem(data: int)

  /** c was the i-th child of its h_parent and is out of that list. */
  ghost predicate WasUnhung(h: seq<Rec>, h': seq<Rec>, kids: map<int, seq<int>>, c: int, i: int)
    requires 0 <= c < |h| && 0 <= h[c].hparent < |h|
  {
    h[c].hparent in kids && 0 <= i < |kids[h[c].hparent]| && kids[h[c].hparent][i] == c && h' == Unhung(h, c, kids[h[c].hparent], i)
  }

  /** What becomes of the heap's hierarchy when key is deleted below t; i is the place of its node among its siblings. */
  ghost predicate KeyGone(h: seq<Rec>, h': seq<Rec>, t: Tree, key: int, kids: map<int, seq<int>>, i: int) {
    var c := Find(h, t, key);
    if c == NULL then h' == h
    else 0 <= c < |h| &&
         if h[c].hparent == NULL then OnlyLinks(h, h', Nodes(t))
         else 0 <= h[c].hparent < |h| && exists h1 :: WasUnhung(h, h1, kids, c, i) && OnlyLinks(h1, h', Nodes(t))
  }

  /** The data that delete destroys for key: its node's, and that twice when the successor is a left step away. */
  function Doomed(h: seq<Rec>, t: Tree, key: int): seq<int> {
    match t
    case Nil => []
    case Fork(l, n, r) =>
      if key > Data(h, n) then Doomed(h, r, key)
      else if key < Data(h, n) then Doomed(h, l, key)
      else if l.Fork? && r.Fork? && r.l.Fork? then [key, key] else [key]
  }

  class Heap {
    var heap: seq<Rec>
    /** The data that data_destroy has been called on. */
    var destroyed: seq<int>

    /** h_tree_size. */
    function TreeSize(p: int): int
      reads this
    {
      if 0 <= p < |heap| then heap[p].size else 0
    }

    lemma SizeIs(t: Tree, p: int)
      requires Linked(heap, t, p) && Sized(heap, t)
      ensures TreeSize(p) == Size(t)
    {
    }

    /** h_tree_search. */
    method Search(p: int, key: int, ghost t: Tree) returns (q: int)
      requires TreeAt(heap, t, p)
      ensures q == Find(heap, t, key)
      ensures q != NULL <==> Has(heap, t, key)
      ensures q != NULL ==> q in Nodes(t) && Data(heap, q) == key
      decreases t
    {
      FindKey(heap, t, key, p);
      if p == NULL {
        return NULL;
      }
      Sides(heap, t);
      if heap[p].data < key {
        q := Search(heap[p].right, key, t.r);
      } else if heap[p].data > key {
        q := Search(heap[p].left, key, t.l);
      } else {
        q := p;
      }
    }

    /** h_node_init. */
    method NodeInit(key: int, hp: int) returns (c: int)
      requires hp == NULL || 0 <= hp < |heap|
      modifies this`heap
      ensures c == |old(heap)| && heap == NewNode(old(heap), key, hp)
    {
      c := |heap|;
      if hp != NULL {
        heap := heap + [Rec(key, NULL, NULL, 1, hp, heap[hp].hchildren, NULL)];
        heap := heap[hp := heap[hp].(hchildren := c)];
      } else {
        heap := heap + [Rec(key, NULL, NULL, 1, NULL, NULL, NULL)];
      }
    }

    /** h_tree_insert on the subtree at p: a node for a new key is hung in at its place; a known key changes
        nothing. */
    method Insert(p: int, key: int, hp: int, ghost t: Tree) returns (r: int)
      requires TreeAt(heap, t, p) && (hp == NULL || 0 <= hp < |heap|)
      modifies this`heap
      ensures TreeAt(heap, InsertTree(old(heap), t, key, |old(heap)|), r)
      ensures if Has(old(heap), t, key) then heap == old(heap) else Hung(old(heap), heap, Nodes(t), key, hp)
      decreases t
    {
      ghost var h, c := heap, |heap|;
      LinkedNodes(h, t, p);
      if p == NULL {
        r := NodeInit(key, hp);
        return;
      }
      Sides(h, t);
      if key > heap[p].data {
        var q := Insert(heap[p].right, key, hp, t.r);
        Hang(p, true, q, t, h, key, hp);
      } else if key < heap[p].data {
        var q := Insert(heap[p].left, key, hp, t.l);
        Hang(p, false, q, t, h, key, hp);
      } else {
        SizeAt(h, t.l, h[p].left);
        SizeAt(h, t.r, h[p].right);
        heap := heap[p := heap[p].(size := 1 + TreeSize(heap[p].left) + TreeSize(heap[p].right))];
        assert heap == h;
      }
      r := p;
    }

    /** root->right = ... or root->left = ..., then update_size. */
    method Hang(p: int, right: bool, q: int, ghost t: Tree, ghost h: seq<Rec>, ghost key: int, ghost hp: int)
      requires t.Fork? && TreeAt(h, t, p) && key != Data(h, t.n) && (right <==> key > Data(h, t.n))
      requires TreeAt(heap, InsertTree(h, Side(t, right), key, |h|), q)
      requires if Has(h, Side(t, right), key) then heap == h else Hung(h, heap, Nodes(Side(t, right)), key, hp)
      modifies this`heap
      ensures TreeAt(heap, InsertTree(h, t, key, |h|), p)
      ensures if Has(h, t, key) then heap == h else Hung(h, heap, Nodes(t), key, hp)
    {
      ghost var h1, v := heap, InsertTree(h, Side(t, right), key, |h|);
      HasSide(h, t, key);
      HangSizes(h, t, p, key, hp, q, right);
      hide TreeAt, Hung, Has, InsertTree;
      if right {
        heap := heap[p := heap[p].(right := q)];
      } else {
        heap := heap[p := heap[p].(left := q)];
      }
      heap := heap[p := heap[p].(size := 1 + TreeSize(heap[p].left) + TreeSize(heap[p].right))];
      assert heap == Rehung(h1, p, right, q, Size(WithSide(t, right, v)));
    }

    /** The sizes that update_size reads, and what the whole comes to. */
    lemma HangSizes(h: seq<Rec>, t: Tree, p: int, key: int, hp: int, q: int, right: bool)
      requires t.Fork? && TreeAt(h, t, p) && key != Data(h, t.n) && (right <==> key > Data(h, t.n))
      requires TreeAt(heap, InsertTree(h, Side(t, right), key, |h|), q) && (Has(h, t, key) <==> Has(h, Side(t, right), key))
      requires if Has(h, t, key) then heap == h else Hung(h, heap, Nodes(Side(t, right)), key, hp)
      ensures 0 <= p < |heap| && p == t.n
      ensures var v := InsertTree(h, Side(t, right), key, |h|);
              && q != p && TreeSize(q) == Size(v) && TreeSize(if right then heap[p].left else heap[p].right) == Size(Side(t, !right))
              && (if right then heap[p].left else heap[p].right) != p
              && var h2 := Rehung(heap, p, right, q, Size(WithSide(t, right, v)));
                 TreeAt(h2, InsertTree(h, t, key, |h|), p) && if Has(h, t, key) then h2 == h else Hung(h, h2, Nodes(t), key, hp)
    {
      var v := InsertTree(h, Side(t, right), key, |h|);
      var other := if right then h[p].left else h[p].right;
      SizeAt(heap, v, q);
      SizeAt(h, Side(t, !right), other);
      LinkedNodes(h, t, p);
      if Has(h, t, key) {
        Sides(h, t);
        InsertKnown(h, t, key, |h|);
        InsertKnown(h, Side(t, right), key, |h|);
        NothingHung(h, t, p, q, right);
      } else {
        HungAbove(h, heap, t, p, key, hp, q, right);
        HungSame(h, heap, t, right, key, hp);
        InsertApart(h, Side(t, right), key, |h|);
      }
    }

    // ----- Deletion -----

    /** remove_child_from_h.  The child keeps its own h_parent and h_next_sibling. */
    method RemoveChild(c: int, ghost s: set<int>, ghost kids: map<int, seq<int>>) returns (ghost i: int)
      requires Family(heap, s, kids) && c in s && forall n :: n in s ==> 0 <= n < |heap|
      modifies this`heap
      ensures old(heap)[c].hparent == NULL ==> heap == old(heap)
      ensures old(heap)[c].hparent != NULL ==>
        0 <= old(heap)[c].hparent < |old(heap)| && WasUnhung(old(heap), heap, kids, c, i)
    {
      i := 0;
      if heap[c].hparent == NULL {
        return;
      }
      ghost var h, list := heap, kids[heap[c].hparent];
      assert KidsOf(h, s, kids, heap[c].hparent);
      ghost var k :| 0 <= k < |list| && list[k] == c;
      KidAt(h, h[h[c].hparent].hchildren, list, k);
      var it := heap[heap[c].hparent].hchildren;
      if it == NULL {
        return;
      }
      if it == c {
        heap := heap[heap[c].hparent := heap[heap[c].hparent].(hchildren := heap[c].hnext)];
        return;
      }
      while heap[it].hnext != c && heap[it].hnext != NULL
        invariant 0 <= i < k && it == list[i] && 0 <= it < |heap| && heap == h
        decreases k - i
      {
        KidAt(h, h[h[c].hparent].hchildren, list, i);
        i := i + 1;
        it := heap[it].hnext;
        KidAt(h, h[h[c].hparent].hchildren, list, i);
      }
      KidAt(h, h[h[c].hparent].hchildren, list, i);
      heap := heap[it := heap[it].(hnext := heap[c].hnext)];
      i := i + 1;
    }

    predicate Single(p: int)
      requires 0 <= p < |heap|
      reads this
    {
      heap[p].left == NULL || heap[p].right == NULL
    }

    /** delete_root on the node p, where ghost t is its tree.  With at most one child, that child takes its
        place.  With two, the result is the tree without its root when t is shallow, and no tree at all when it
        is not.  The data is destroyed twice when the right child has a left child. */
    method DeleteRoot(p: int, ghost t: Tree) returns (r: int)
      requires 0 <= p < |heap| && (!Single(p) ==> t.Fork? && Linked(heap, t, p) && Apart(t) && Sized(heap, t))
      modifies this`heap, this`destroyed
      ensures old(Single(p)) ==> heap == old(heap) && r == (if old(heap)[p].left == NULL then old(heap)[p].right else old(heap)[p].left)
      ensures old(!Single(p)) ==> t.Fork? && OnlyLinks(old(heap), heap, Nodes(t))
      ensures old(!Single(p)) && Shallow(t) ==> Linked(heap, DropRoot(t), r) && Sized(heap, DropRoot(t))
      ensures old(!Single(p)) && !Shallow(t) ==> r != NULL && forall u :: !Linked(heap, u, r)
      ensures destroyed == old(destroyed) + [old(heap)[p].data] +
                           if old(!Single(p)) && t.Fork? && t.r.Fork? && t.r.l.Fork? then [old(heap)[p].data] else []
      decreases if Single(p) then 0 else 2
    {
      destroyed := destroyed + [heap[p].data];
      if heap[p].left == NULL || heap[p].right == NULL {
        if heap[p].left == NULL {
          r := heap[p].right;
        } else {
          r := heap[p].left;
        }
        return;
      }
      ghost var h := heap;
      TwoChildren(h, t, p);
      var parent := heap[p].right;
      if heap[parent].left == NULL {
        heap := heap[parent := heap[parent].(left := heap[p].left)];
        heap := heap[parent := heap[parent].(size := 1 + TreeSize(heap[parent].left) + TreeSize(heap[parent].right))];
        FirstSizes(h, t, p);
        assert heap == h[parent := h[parent].(left := h[p].left, size := 1 + Size(t.l) + Size(t.r.r))];
        DropFirst(h, heap, t, p);
        r := parent;
        return;
      }
      r := PullUp(p, t);
    }

    /** The loop that looks for the minimum: it moves `minimum` first and `parent` after it, so that below the
        first left step both are the same node. */
    method FindMinimum(p: int, ghost t: Tree) returns (parent: int, minimum: int, ghost k: nat)
      requires 0 <= p < |heap| && t.Fork? && t.r.Fork? && t.r.l.Fork? && Linked(heap, t, p)
      modifies this`heap
      ensures SameLinks(old(heap), heap) && OnlyLinks(old(heap), heap, Nodes(t.r))
      ensures 0 <= minimum < |heap| && minimum in Nodes(t.r) && minimum == LeftOf(old(heap), t.r.n, k + 1) && heap[minimum].left == NULL
      ensures t.r.l.l.Nil? <==> k == 0
      ensures k == 0 ==> minimum == t.r.l.n && parent == t.r.n && 0 <= parent < |heap|
      ensures k == 0 ==> heap == old(heap)[parent := old(heap)[parent].(size := old(heap)[parent].size - 1)]
      ensures k > 0 ==> parent == minimum
    {
      hide Linked, Nodes, SameLinks, OnlyLinks;
      ghost var h, s := heap, Nodes(t.r);
      RightStep(h, t, p);
      parent := heap[p].right;
      minimum := heap[parent].left;
      Shrunk(h, heap, parent, s);
      heap := heap[parent := heap[parent].(size := heap[parent].size - 1)];
      k := 0;
      ghost var sub := t.r.l;
      LeftStep(h, heap, sub, minimum, s);
      while heap[minimum].left != NULL
        invariant SameLinks(h, heap) && OnlyLinks(h, heap, s) && |heap| == |h|
        invariant sub.Fork? && Linked(h, sub, minimum) && Nodes(sub) <= s && minimum == LeftOf(h, t.r.n, k + 1)
        invariant 0 <= minimum < |heap| && minimum in s && 0 <= parent < |heap|
        invariant heap[minimum].left == h[minimum].left && (h[minimum].left == NULL <==> sub.l.Nil?)
        invariant k == 0 ==> sub == t.r.l && minimum == t.r.l.n && parent == t.r.n && heap == h[parent := h[parent].(size := h[parent].size - 1)]
        invariant k > 0 ==> parent == minimum && t.r.l.l.Fork?
        decreases sub
      {
        LeftStep(h, heap, sub, minimum, s);
        sub := sub.l;
        minimum := heap[minimum].left;
        parent := minimum;
        Shrunk(h, heap, parent, s);
        heap := heap[parent := heap[parent].(size := heap[parent].size - 1)];
        LeftStep(h, heap, sub, minimum, s);
        k := k + 1;
      }
    }

    /** swap_nodes: the two nodes change subtrees, and both sizes are brought up to date. */
    method SwapNodes(a: int, b: int)
      requires 0 <= a < |heap| && 0 <= b < |heap| && a != b
      modifies this`heap
      ensures |heap| == |old(heap)| && OnlyLinks(old(heap), heap, {a, b})
      ensures heap[a].left == old(heap)[b].left && heap[a].right == old(heap)[b].right
      ensures heap[b].left == old(heap)[a].left && heap[b].right == old(heap)[a].right
      ensures old(heap)[a].left != b && old(heap)[a].right != b && old(heap)[a].left != a && old(heap)[a].right != a ==>
        heap[b].size == 1 + old(TreeSize(heap[a].left)) + old(TreeSize(heap[a].right))
    {
      var left, right := heap[a].left, heap[a].right;
      heap := heap[a := heap[a].(left := heap[b].left)];
      heap := heap[a := heap[a].(right := heap[b].right)];
      heap := heap[b := heap[b].(left := left)];
      heap := heap[b := heap[b].(right := right)];
      heap := heap[b := heap[b].(size := 1 + TreeSize(heap[b].left) + TreeSize(heap[b].right))];
      heap := heap[a := heap[a].(size := 1 + TreeSize(heap[a].left) + TreeSize(heap[a].right))];
    }

    /** The rest of delete_root, with a successor to the left of the right child. */
    method PullUp(p: int, ghost t: Tree) returns (r: int)
      requires 0 <= p < |heap| && t.Fork? && t.l.Fork? && t.r.Fork? && t.r.l.Fork? && Linked(heap, t, p) && Apart(t) && Sized(heap, t)
      modifies this`heap, this`destroyed
      ensures OnlyLinks(old(heap), heap, Nodes(t))
      ensures Shallow(t) ==> Linked(heap, DropRoot(t), r) && Sized(heap, DropRoot(t))
      ensures !Shallow(t) ==> r != NULL && forall u :: !Linked(heap, u, r)
      ensures destroyed == old(destroyed) + [old(heap)[p].data]
      decreases 1
    {
      ghost var h := heap;
      PullSizes(h, t, p);
      var parent, minimum; ghost var k;
      parent, minimum, k := FindMinimum(p, t);
      ghost var h1 := heap;
      SwapNodes(p, minimum);
      ghost var h2 := heap;
      var q := DeleteRoot(p, Nil);
      heap := heap[parent := heap[parent].(left := q)];
      r := minimum;
      if k == 0 {
        PulledSecond(h, h1, h2, heap, t, p, minimum);
      } else {
        PulledThird(h, h1, h2, heap, t, p, minimum, k + 1);
      }
    }

    /** h_tree_delete on the subtree at p; s and kids are the whole tree's nodes and sibling lists. */
    method Delete(p: int, key: int, ghost t: Tree, ghost s: set<int>, ghost kids: map<int, seq<int>>) returns (r: int, ghost i: int)
      requires TreeAt(heap, t, p) && Handled(heap, t, key) && Nodes(t) <= s && Family(heap, s, kids) && forall n :: n in s ==> 0 <= n < |heap|
      modifies this`heap, this`destroyed
      ensures TreeAt(heap, DeleteTree(old(heap), t, key), r)
      ensures KeyGone(old(heap), heap, t, key, kids, i)
      ensures destroyed == old(destroyed) + Doomed(old(heap), t, key)
      decreases t
    {
      ghost var h := heap;
      if p == NULL {
        return NULL, 0;
      }
      if heap[p].data == key {
        r, i := DeleteFound(p, t, s, kids);
        return;
      }
      Sides(h, t);
      LinkedNodes(h, t, p);
      if heap[p].data < key {
        var q;
        q, i := Delete(heap[p].right, key, t.r, s, kids);
        Close(p, true, q, t, h, key, kids, i);
      } else {
        var q;
        q, i := Delete(heap[p].left, key, t.l, s, kids);
        Close(p, false, q, t, h, key, kids, i);
      }
      r := p;
    }

    /** The key is at p: out of the hierarchy, then out of the tree. */
    method DeleteFound(p: int, ghost t: Tree, ghost s: set<int>, ghost kids: map<int, seq<int>>) returns (r: int, ghost i: int)
      requires TreeAt(heap, t, p) && t.Fork? && Shallow(t) && Nodes(t) <= s && Family(heap, s, kids) && forall n :: n in s ==> 0 <= n < |heap|
      modifies this`heap, this`destroyed
      ensures TreeAt(heap, DeleteTree(old(heap), t, Data(old(heap), t.n)), r)
      ensures KeyGone(old(heap), heap, t, Data(old(heap), t.n), kids, i)
      ensures destroyed == old(destroyed) + Doomed(old(heap), t, Data(old(heap), t.n))
    {
      hide TreeAt, KeyGone, Linked, Sized, Apart, Nodes, Family, DeleteTree, Doomed, Shallow, DropRoot, WasUnhung, SameBut, OnlyLinks;
      ghost var h := heap;
      RootPlace(h, t, p);
      i := RemoveChild(p, s, kids);
      ghost var h1 := heap;
      Unlisted(h, h1, t, p, kids, i);
      r := DeleteRoot(p, t);
      SingleDropped(h1, t, p);
      DoomedRoot(h, h1, t, p);
      GoneBy(h, h1, heap, t, p, kids, i);
      GoneSame(h, heap, t, Data(h, t.n), kids, i);
      DeletedHere(h, heap, t, p, r);
    }

    /** root->right = ... or root->left = ..., then update_size. */
    method Close(p: int, right: bool, q: int, ghost t: Tree, ghost h: seq<Rec>, ghost key: int, ghost kids: map<int, seq<int>>, ghost i: int)
      requires t.Fork? && TreeAt(h, t, p) && Handled(h, t, key) && key != Data(h, t.n) && (right <==> Data(h, t.n) < key)
      requires TreeAt(heap, DeleteTree(h, Side(t, right), key), q) && KeyGone(h, heap, Side(t, right), key, kids, i)
      modifies this`heap
      ensures TreeAt(heap, DeleteTree(h, t, key), p) && KeyGone(h, heap, t, key, kids, i)
    {
      ghost var h1, v := heap, DeleteTree(h, Side(t, right), key);
      GoneSame(h, h1, Side(t, right), key, kids, i);
      DeletedAbove(h, h1, t, p, key, q, right);
      CloseSizes(h, h1, t, p, key, q, right);
      hide TreeAt, DeleteTree;
      if right {
        heap := heap[p := heap[p].(right := q)];
      } else {
        heap := heap[p := heap[p].(left := q)];
      }
      heap := heap[p := heap[p].(size := 1 + TreeSize(heap[p].left) + TreeSize(heap[p].right))];
      assert heap == Rehung(h1, p, right, q, Size(WithSide(t, right, v)));
      GoneAbove(h, h1, heap, t, p, key, q, right, kids, i);
    }

    // ----- Flattening -----

    /** h_tree_flatten_preorder, from place `at` of the array on. */
    method FlattenPreorder(p: int, elems: array<Slot>, at: int, ghost t: Tree)
      requires Linked(heap, t, p) && Sized(heap, t) && 0 <= at && at + Size(t) <= elems.Length
      modifies elems
      ensures forall i :: 0 <= i < Size(t) ==> elems[at + i] == Elem(Preorder(heap, t)[i])
      ensures forall i :: 0 <= i < elems.Length && !(at <= i < at + Size(t)) ==> elems[i] == old(elems[i])
      decreases t
    {
      if p != NULL {
        elems[at] := Elem(heap[p].data);
        SizeIs(t.l, heap[p].left);
        FlattenPreorder(heap[p].left, elems, at + 1, t.l);
        ghost var left := elems[..];
        FlattenPreorder(heap[p].right, elems, at + 1 + TreeSize(heap[p].left), t.r);
        forall i | 0 <= i < Size(t) ensures elems[at + i] == Elem(Preorder(heap, t)[i]) {
          if 1 <= i <= Size(t.l) {
            assert left[at + 1 + (i - 1)] == Elem(Preorder(heap, t.l)[i - 1]);
          } else if i > Size(t.l) {
            var j := i - 1 - Size(t.l);
            assert elems[at + 1 + Size(t.l) + j] == Elem(Preorder(heap, t.r)[j]);
          }
        }
      }
    }

    /** h_tree_flatten_h_children: the children of p in list order, and a null after them. */
    method FlattenKids(p: int, elems: array<Slot>, ghost list: seq<int>)
      requires 0 <= p < |heap| && KidList(heap, heap[p].hchildren, list) && |list| < elems.Length
      modifies elems
      ensures forall i :: 0 <= i < |list| ==> elems[i] == Elem(Data(heap, list[i]))
      ensures elems[|list|] == Null && forall i :: |list| < i < elems.Length ==> elems[i] == old(elems[i])
    {
      var it := heap[p].hchildren;
      var at := 0;
      while it != NULL
        invariant 0 <= at <= |list| && KidList(heap, it, list[at..])
        invariant forall i :: 0 <= i < at ==> elems[i] == Elem(Data(heap, list[i]))
        invariant forall i :: at <= i < elems.Length ==> elems[i] == old(elems[i])
        decreases |list| - at
      {
        assert list[at..] != [] && list[at..][1..] == list[at + 1..];
        elems[at] := Elem(heap[it].data);
        it := heap[it].hnext;
        at := at + 1;
      }
      assert list[at..] == [];
      elems[at] := Null;
    }
  }

  /** Inserting a new key keeps the hierarchy: the new node is its h_parent's first child. */
  lemma InsertFamily(h: seq<Rec>, h': seq<Rec>, t: Tree, p: int, key: int, hp: int, kids: map<int, seq<int>>)
    requires TreeAt(h, t, p) && !Has(h, t, key) && Hung(h, h', Nodes(t), key, hp)
    requires Family(h, Nodes(t), kids) && (hp == NULL || hp in Nodes(t))
    ensures Nodes(InsertTree(h, t, key, |h|)) == Nodes(t) + {|h|}
    ensures Family(h', Nodes(t) + {|h|}, (if hp == NULL then kids else kids[hp := [|h|] + kids[hp]])[|h| := []])
  {
    LinkedNodes(h, t, p);
    FamilyGrows(h, h', Nodes(t), kids, key, hp);
    assert Data(h', |h|) == key;
    InsertSame(h, h', t, key, |h|);
    InsertKeys(h', t, key, |h|);
  }

  /** Deleting the key of a node without children keeps the hierarchy: the node is out of its h_parent's list,
      and every other list is as before. */
  lemma DeleteFamily(h: seq<Rec>, h': seq<Rec>, t: Tree, p: int, key: int, kids: map<int, seq<int>>, i: int)
    requires TreeAt(h, t, p) && Handled(h, t, key) && Has(h, t, key) && Family(h, Nodes(t), kids)
    requires KeyGone(h, h', t, key, kids, i) && 0 <= Find(h, t, key) < |h| && h[Find(h, t, key)].hchildren == NULL
    ensures Nodes(DeleteTree(h, t, key)) == Nodes(t) - {Find(h, t, key)}
    ensures h[Find(h, t, key)].hparent == NULL ==> Family(h', Nodes(t) - {Find(h, t, key)}, kids)
    ensures var hp := h[Find(h, t, key)].hparent;
      hp != NULL ==> hp in kids && 0 <= i < |kids[hp]| && kids[hp][i] == Find(h, t, key) &&
                     Family(h', Nodes(t) - {Find(h, t, key)}, kids[hp := kids[hp][..i] + kids[hp][i + 1..]])
  {
    var c := Find(h, t, key);
    FindKey(h, t, key, p);
    LinkedNodes(h, t, p);
    DeleteKeys(h, t, key, p);
    if h[c].hparent == NULL {
      FamilyDrops(h, Nodes(t), kids, c);
      FamilyLinks(h, h', Nodes(t), Nodes(t) - {c}, kids);
    } else {
      var hp := h[c].hparent;
      var h1 :| WasUnhung(h, h1, kids, c, i) && OnlyLinks(h1, h', Nodes(t));
      FamilyShrinks(h, h1, Nodes(t), kids, c, i);
      FamilyLinks(h1, h', Nodes(t), Nodes(t) - {c}, kids[hp := kids[hp][..i] + kids[hp][i + 1..]]);
    }
  }

  /** The condition is exact: what is left is a hierarchy, for some lists, exactly when the deleted node had no
      children.  A child keeps naming the node that is gone as its h_parent. */
  lemma FamilyLeftIff(h: seq<Rec>, h': seq<Rec>, t: Tree, p: int, key: int, kids: map<int, seq<int>>, i: int)
    requires TreeAt(h, t, p) && Handled(h, t, key) && Has(h, t, key) && Family(h, Nodes(t), kids)
    requires KeyGone(h, h', t, key, kids, i) && 0 <= Find(h, t, key) < |h| && h[Find(h, t, key)].hparent != Find(h, t, key)
    ensures (exists left :: Family(h', Nodes(t) - {Find(h, t, key)}, left)) <==> h[Find(h, t, key)].hchildren == NULL
  {
    hide Linked, Sized, Apart, Rising, Inorder, Handled, Has, Find, Family, KeyGone, Nodes;
    var c := Find(h, t, key);
    if h[c].hchildren == NULL {
      DeleteFamily(h, h', t, p, key, kids, i);
    } else {
      FindKey(h, t, key, p);
      LinkedNodes(h, t, p);
      forall left ensures !Family(h', Nodes(t) - {c}, left) {
        Orphaned(h, h', t, key, kids, i);
      }
    }
  }

  lemma Orphaned(h: seq<Rec>, h': seq<Rec>, t: Tree, key: int, kids: map<int, seq<int>>, i: int)
    requires KeyGone(h, h', t, key, kids, i) && Find(h, t, key) in Nodes(t) && Family(h, Nodes(t), kids)
    requires var c := Find(h, t, key); 0 <= c < |h| && h[c].hchildren != NULL && h[c].hparent != c
    ensures forall left :: !Family(h', Nodes(t) - {Find(h, t, key)}, left)
  {
    var c := Find(h, t, key);
    assert KidsOf(h, Nodes(t), kids, c);
    var d := kids[c][0];
    assert d in kids[c];
    assert |h'| == |h| && h'[d].hparent == h[d].hparent;
  }

  /** From the root to its right child, which has a left child. */
  lemma RightStep(h: seq<Rec>, t: Tree, p: int)
    requires t.Fork? && t.r.Fork? && t.r.l.Fork? && Linked(h, t, p)
    ensures 0 <= p < |h| && h[p].right == t.r.n && 0 <= t.r.n < |h| && h[t.r.n].left == t.r.l.n == LeftOf(h, t.r.n, 1)
    ensures Linked(h, t.r.l, t.r.l.n) && Nodes(t.r.l) <= Nodes(t.r) && t.r.n in Nodes(t.r)
    ensures SameLinks(h, h) && OnlyLinks(h, h, Nodes(t.r))
  {
    assert Linked(h, t.r, h[p].right) && Linked(h, t.r.l, h[t.r.n].left);
    assert LeftOf(h, t.r.n, 0) == t.r.n;
  }

  /** At node m, whose left child is next. */
  lemma LeftStep(h: seq<Rec>, h': seq<Rec>, sub: Tree, m: int, s: set<int>)
    requires sub.Fork? && Linked(h, sub, m) && SameLinks(h, h') && Nodes(sub) <= s
    ensures 0 <= m < |h| == |h'| && h'[m].left == h[m].left && m in s && (h[m].left == NULL <==> sub.l.Nil?)
    ensures sub.l.Fork? ==> Linked(h, sub.l, h[m].left) && Nodes(sub.l) <= s && 0 <= h[m].left < |h| && h[m].left in s
  {
    assert Linked(h, sub.l, h[m].left);
  }

  lemma Shrunk(h: seq<Rec>, h': seq<Rec>, n: int, s: set<int>)
    requires SameLinks(h, h') && OnlyLinks(h, h', s) && n in s && 0 <= n < |h|
    ensures |h'| == |h|
    ensures var h2 := h'[n := h'[n].(size := h'[n].size - 1)]; SameLinks(h, h2) && OnlyLinks(h, h2, s)
  {
  }

  lemma RootPlace(h: seq<Rec>, t: Tree, p: int)
    requires TreeAt(h, t, p) && t.Fork?
    ensures Linked(h, t, p) && p == t.n && 0 <= p < |h| && p in Nodes(t) && Data(h, p) == h[p].data
  {
  }

  /** What delete_root destroys on t. */
  lemma DoomedRoot(h: seq<Rec>, h1: seq<Rec>, t: Tree, p: int)
    requires t.Fork? && Linked(h1, t, p) && SameBut(h, h1, {})
    ensures p == t.n && 0 <= p < |h| == |h1| && h1[p].data == Data(h, p)
    ensures Doomed(h, t, Data(h, p)) == [Data(h, p)] +
            if h1[p].left != NULL && h1[p].right != NULL && t.r.Fork? && t.r.l.Fork? then [Data(h, p)] else []
  {
    assert Linked(h1, t.l, h1[p].left) && Linked(h1, t.r, h1[p].right);
  }

  /** Taking p out of its sibling list leaves the tree where it was. */
  lemma Unlisted(h: seq<Rec>, h1: seq<Rec>, t: Tree, p: int, kids: map<int, seq<int>>, i: int)
    requires TreeAt(h, t, p) && 0 <= p < |h| && (h[p].hparent == NULL || 0 <= h[p].hparent < |h|)
    requires if h[p].hparent == NULL then h1 == h else WasUnhung(h, h1, kids, p, i)
    ensures Linked(h1, t, p) && Sized(h1, t) && Apart(t) && SameBut(h, h1, {})
  {
    TreeKept(h, h1, t, p);
  }

  /** With at most one child, that child is the tree without its root. */
  lemma SingleDropped(h: seq<Rec>, t: Tree, p: int)
    requires Linked(h, t, p) && Sized(h, t) && t.Fork?
    ensures h[p].left == NULL || h[p].right == NULL ==> Shallow(t) && Sized(h, DropRoot(t))
    ensures h[p].left == NULL || h[p].right == NULL ==>
              Linked(h, DropRoot(t), if h[p].left == NULL then h[p].right else h[p].left)
  {
    assert Linked(h, t.l, h[p].left) && Linked(h, t.r, h[p].right);
  }

  lemma GoneBy(h: seq<Rec>, h1: seq<Rec>, h': seq<Rec>, t: Tree, p: int, kids: map<int, seq<int>>, i: int)
    requires t.Fork? && Linked(h, t, p) && (h[p].hparent == NULL || 0 <= h[p].hparent < |h|) && OnlyLinks(h1, h', Nodes(t))
    requires if h[p].hparent == NULL then h1 == h else WasUnhung(h, h1, kids, p, i)
    ensures KeyGone(h, h', t, Data(h, t.n), kids, i)
  {
  }

  /** The sizes that update_size reads on the way up. */
  lemma CloseSizes(h: seq<Rec>, h1: seq<Rec>, t: Tree, p: int, key: int, q: int, right: bool)
    requires t.Fork? && TreeAt(h, t, p) && Handled(h, t, key) && key != Data(h, t.n) && (right <==> Data(h, t.n) < key)
    requires SameBut(h, h1, Nodes(Side(t, right))) && TreeAt(h1, DeleteTree(h, Side(t, right), key), q)
    ensures p == t.n && 0 <= p < |h1| && q != p
    ensures var other := if right then h1[p].left else h1[p].right;
            && other != p
            && (if 0 <= other < |h1| then h1[other].size else 0) == Size(Side(t, !right))
            && (if 0 <= q < |h1| then h1[q].size else 0) == Size(DeleteTree(h, Side(t, right), key))
  {
    var v := DeleteTree(h, Side(t, right), key);
    SizeAt(h1, v, q);
    SizeAt(h, Side(t, !right), if right then h[p].left else h[p].right);
    Sides(h, t);
    DeleteKeys(h, Side(t, right), key, if right then h[p].right else h[p].left);
  }

  lemma GoneAbove(h: seq<Rec>, h1: seq<Rec>, h2: seq<Rec>, t: Tree, p: int, key: int, q: int, right: bool, kids: map<int, seq<int>>, i: int)
    requires t.Fork? && TreeAt(h, t, p) && Handled(h, t, key) && key != Data(h, t.n) && (right <==> Data(h, t.n) < key)
    requires KeyGone(h, h1, Side(t, right), key, kids, i) && 0 <= t.n < |h1| && TreeAt(h1, DeleteTree(h, Side(t, right), key), q)
    requires h2 == Rehung(h1, t.n, right, q, Size(WithSide(t, right, DeleteTree(h, Side(t, right), key))))
    ensures KeyGone(h, h2, t, key, kids, i)
  {
    var u := Side(t, right);
    var c := Find(h, u, key);
    LinkedNodes(h, t, p);
    assert Nodes(u) <= Nodes(t) && t.n in Nodes(t);
    assert Find(h, t, key) == c;
    if c == NULL {
      DeleteUnknown(h, u, key);
      NothingHung(h, t, p, q, right);
    } else if h[c].hparent != NULL {
      var x :| WasUnhung(h, x, kids, c, i) && OnlyLinks(x, h1, Nodes(u));
      assert OnlyLinks(x, h2, Nodes(t));
    }
  }

  lemma UnhungSame(h: seq<Rec>, h1: seq<Rec>, h': seq<Rec>, c: int, kids: map<int, seq<int>>, i: int, nodes: set<int>)
    requires 0 <= c < |h| && 0 <= h[c].hparent < |h| && WasUnhung(h, h1, kids, c, i) && OnlyLinks(h1, h', nodes)
    ensures SameBut(h, h', nodes)
  {
  }

  /** In either case, outside the tree only the hierarchy's links may differ. */
  lemma GoneSame(h: seq<Rec>, h': seq<Rec>, t: Tree, key: int, kids: map<int, seq<int>>, i: int)
    requires KeyGone(h, h', t, key, kids, i)
    ensures SameBut(h, h', Nodes(t))
  {
    var c := Find(h, t, key);
    if c != NULL && h[c].hparent != NULL {
      var h1 :| WasUnhung(h, h1, kids, c, i) && OnlyLinks(h1, h', Nodes(t));
      UnhungSame(h, h1, h', c, kids, i, Nodes(t));
    }
  }

  /** Case one: what the assignments come to. */
  lemma PulledSecond(h: seq<Rec>, h1: seq<Rec>, h2: seq<Rec>, h3: seq<Rec>, t: Tree, p: int, m: int)
    requires t.Fork? && t.l.Fork? && t.r.Fork? && t.r.l.Fork? && t.r.l.l.Nil? && Linked(h, t, p) && Apart(t) && Sized(h, t)
    requires 0 <= m < |h| && m == t.r.l.n && 0 <= p < |h| && 0 <= t.r.n < |h|
    requires h1 == h[t.r.n := h[t.r.n].(size := h[t.r.n].size - 1)] && OnlyLinks(h1, h2, {p, m})
    requires h2[m].left == h1[p].left && h2[m].right == h1[p].right && h2[p].right == h1[m].right
    requires h2[m].size == Size(t) - 1
    requires h3 == h2[t.r.n := h2[t.r.n].(left := h2[p].right)]
    ensures OnlyLinks(h, h3, Nodes(t)) && Linked(h3, DropRoot(t), m) && Sized(h3, DropRoot(t))
  {
    SecondApart(t);
    assert h[t.r.n].size == Size(t.r);
    hide Apart, Sized, Linked, Nodes, Size;
    assert OnlyLinks(h, h3, {t.n, t.r.n, m});
    DropSecond(h, h3, t, p);
  }

  lemma PulledThird(h: seq<Rec>, h1: seq<Rec>, h2: seq<Rec>, h3: seq<Rec>, t: Tree, p: int, b: int, k: nat)
    requires t.Fork? && t.r.Fork? && Linked(h, t, p) && Apart(t) && 0 <= p < |h|
    requires 0 <= b < |h| && b in Nodes(t.r) && LeftOf(h, t.r.n, k) == b && h[b].left == NULL
    requires SameLinks(h, h1) && OnlyLinks(h, h1, Nodes(t.r)) && OnlyLinks(h1, h2, {p, b}) && h2[b].right == h1[p].right
    requires h3 == h2[b := h2[b].(left := h2[p].right)]
    ensures OnlyLinks(h, h3, Nodes(t)) && forall u :: !Linked(h3, u, b)
  {
    assert p == t.n && h[p].right == t.r.n && p in Nodes(t) && Nodes(t.r) <= Nodes(t);
    DropThird(h, h3, t, p, b, k);
    hide Apart, Linked, Nodes, LeftOf;
  }

  /** The sizes that swap_nodes will read. */
  lemma PullSizes(h: seq<Rec>, t: Tree, p: int)
    requires t.Fork? && t.l.Fork? && t.r.Fork? && t.r.l.Fork? && Linked(h, t, p) && Apart(t) && Sized(h, t) && 0 <= p < |h|
    ensures p == t.n && 0 <= h[p].left < |h| && h[p].left == t.l.n && h[h[p].left].size == Size(t.l)
    ensures h[p].right == t.r.n && 0 <= t.r.n < |h| && h[t.r.n].size == Size(t.r) && h[p].left != t.r.n
    ensures p !in Nodes(t.r) && t.l.n !in Nodes(t.r) && t.l.n != p && t.r.n != p && t.r.n != t.r.l.n && t.r.n in Nodes(t.r)
    ensures Size(t) == 1 + Size(t.l) + Size(t.r)
  {
    assert t.l.n in Nodes(t.l);
    assert Apart(t.r);
  }

  lemma TwoChildren(h: seq<Rec>, t: Tree, p: int)
    requires t.Fork? && Linked(h, t, p) && h[p].left != NULL && h[p].right != NULL
    ensures t.l.Fork? && t.r.Fork? && 0 <= h[p].right < |h| && t.r.n == h[p].right && (t.r.l.Nil? <==> h[t.r.n].left == NULL)
  {
    assert Linked(h, t.r, h[p].right);
    assert Linked(h, t.r.l, h[t.r.n].left);
  }

  lemma FirstSizes(h: seq<Rec>, t: Tree, p: int)
    requires t.Fork? && t.l.Fork? && t.r.Fork? && Linked(h, t, p) && Sized(h, t) && Apart(t)
    ensures var n := t.r.n;
            && 0 <= n < |h| && 0 <= h[t.n].left < |h| && h[h[t.n].left].size == Size(t.l) && h[t.n].left != n && h[n].right != n
            && (if 0 <= h[n].right < |h| then h[h[n].right].size else 0) == Size(t.r.r)
  {
    SizeAt(h, t.l, h[t.n].left);
    SizeAt(h, t.r.r, h[t.r.n].right);
  }

  // ----- The smallest deep tree -----

  function Leaf(key: int): Rec { Rec(key, NULL, NULL, 1, NULL, NULL, NULL) }

  /** The heap after the keys 2, 1, 5, 4, 3. */
  function FiveKeys(): seq<Rec> {
    [Leaf(2).(left := 1, right := 2, size := 5), Leaf(1), Leaf(5).(left := 3, size := 3), Leaf(4).(left := 4, size := 2), Leaf(3)]
  }

  function FiveTree(): Tree { Fork(Fork(Nil, 1, Nil), 0, Fork(Fork(Fork(Nil, 4, Nil), 3, Nil), 2, Nil)) }

  /** t hangs at p, is made of the nodes `own`, and has the keys `keys` in order. */
  ghost predicate Hangs(h: seq<Rec>, t: Tree, p: int, own: set<int>, keys: seq<int>) {
    Linked(h, t, p) && Apart(t) && Sized(h, t) && Nodes(t) == own && Inorder(h, t) == keys && Size(t) == |keys|
  }

  lemma NoneHangs(h: seq<Rec>)
    ensures Hangs(h, Nil, NULL, {}, [])
  {
  }

  lemma NodeHangs(h: seq<Rec>, l: Tree, n: int, r: Tree, a: set<int>, x: seq<int>, b: set<int>, y: seq<int>)
    requires 0 <= n < |h| && Hangs(h, l, h[n].left, a, x) && Hangs(h, r, h[n].right, b, y) && a !! b && n !in a + b
    requires h[n].size == 1 + |x| + |y|
    ensures Hangs(h, Fork(l, n, r), n, a + {n} + b, x + [h[n].data] + y)
  {
  }

  lemma FiveDeep()
    ensures TreeAt(FiveKeys(), FiveTree(), 0) && Inorder(FiveKeys(), FiveTree()) == [1, 2, 3, 4, 5] && !Shallow(FiveTree())
  {
    FiveHangs();
    hide FiveKeys, Hangs, TreeAt, Inorder;
    HangsTree(FiveKeys(), FiveTree(), 0, {1} + {0} + ({4, 3} + {2}), [1, 2, 3, 4, 5]);
  }

  lemma HangsTree(h: seq<Rec>, t: Tree, p: int, own: set<int>, keys: seq<int>)
    requires Hangs(h, t, p, own, keys) && Rising(keys)
    ensures TreeAt(h, t, p) && Inorder(h, t) == keys
  {
  }

  lemma FiveHangs()
    ensures Hangs(FiveKeys(), FiveTree(), 0, {1} + {0} + ({4, 3} + {2}), [1, 2, 3, 4, 5])
  {
    hide Hangs;
    var h := FiveKeys();
    NoneHangs(h);
    NodeHangs(h, Nil, 1, Nil, {}, [], {}, []);
    NodeHangs(h, Nil, 4, Nil, {}, [], {}, []);
    assert {} + {4} + {} == {4} && [] + [3] + [] == [3] && {} + {1} + {} == {1} && [] + [1] + [] == [1];
    NodeHangs(h, Fork(Nil, 4, Nil), 3, Nil, {4}, [3], {}, []);
    assert {4} + {3} + {} == {4, 3} && [3] + [4] + [] == [3, 4];
    NodeHangs(h, Fork(Fork(Nil, 4, Nil), 3, Nil), 2, Nil, {4, 3}, [3, 4], {}, []);
    assert {4, 3} + {2} + {} == {4, 3} + {2} && [3, 4] + [5] + [] == [3, 4, 5];
    NodeHangs(h, Fork(Nil, 1, Nil), 0, Fork(Fork(Fork(Nil, 4, Nil), 3, Nil), 2, Nil), {1}, [1], {4, 3} + {2}, [3, 4, 5]);
    assert [1] + [2] + [3, 4, 5] == [1, 2, 3, 4, 5];
  }

  /** Deleting the root 2 of these five keys destroys its data twice and leaves no tree. */
  method DeleteTwo(x: Heap) returns (r: int)
    requires x.heap == FiveKeys()
    modifies x
    ensures r != NULL && (forall u :: !Linked(x.heap, u, r)) && x.destroyed == old(x.destroyed) + [2, 2]
  {
    FiveDeep();
    hide Linked, Apart, Sized, Nodes, Inorder, Rising, Size;
    r := x.DeleteRoot(0, FiveTree());
  }
}
