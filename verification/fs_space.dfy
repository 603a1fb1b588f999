/** How much room a write needs: the blocks that a file still lacks up to one of its blocks, against the free ones. */
module FsSpace {
  import opened FsBlocks
  import opened FsImage

  /** How many of the first n blocks the file of ip does not have. */
  ghost function Missing(im: Image, ip: int, n: int): (m: int)
    ensures 0 <= m
    decreases n
  {
    if n <= 0 then 0 else Missing(im, ip, n - 1) + if Slot(im, ip, FileSlot(n - 1)) == 0 then 1 else 0
  }

  /** The blocks to be allocated before the file has all blocks up to bn, the indirect one counted. */
  ghost function Needed(im: Image, ip: int, bn: int): (m: int)
    ensures 0 <= m
  {
    Missing(im, ip, bn + 1) + if bn >= NDIRECT && Slot(im, ip, NDIRECT) == 0 then 1 else 0
  }

  ghost function FreeBlocks(sb: Super, marked: set<int>): set<int> { set b | sb.datastart <= b < sb.size && b !in marked }

  /** The free blocks cover what the file needs up to bn. */
  ghost predicate Enough(sb: Super, im: Image, marked: set<int>, ip: int, bn: int) { Spare(sb, im, marked, ip, bn) >= 0 }

  /** The free blocks that are left over then. */
  ghost function Spare(sb: Super, im: Image, marked: set<int>, ip: int, bn: int): int {
    |FreeBlocks(sb, marked)| - Needed(im, ip, bn)
  }

  // ----- Missing blocks -----

  lemma {:induction false} MissingSame(im: Image, im': Image, ip: int, n: int)
    requires forall c :: 0 <= c < n ==> Slot(im', ip, FileSlot(c)) == Slot(im, ip, FileSlot(c))
    ensures Missing(im', ip, n) == Missing(im, ip, n)
    decreases n
  {
    hide Slot, FileSlot;
    if n > 0 {
      MissingSame(im, im', ip, n - 1);
    }
  }

  /** One of them is filled in. */
  lemma {:induction false} MissingOne(im: Image, im': Image, ip: int, n: int, bn: int)
    requires forall c :: 0 <= c < n && c != bn ==> Slot(im', ip, FileSlot(c)) == Slot(im, ip, FileSlot(c))
    requires 0 <= bn < n && Slot(im, ip, FileSlot(bn)) == 0 && Slot(im', ip, FileSlot(bn)) != 0
    ensures Missing(im', ip, n) == Missing(im, ip, n) - 1
    decreases n
  {
    hide Slot, FileSlot;
    if n - 1 == bn {
      MissingSame(im, im', ip, n - 1);
    } else {
      MissingOne(im, im', ip, n - 1, bn);
    }
  }

  lemma {:induction false} MissingNone(im: Image, ip: int, n: int)
    requires forall c :: 0 <= c < n ==> Slot(im, ip, FileSlot(c)) != 0
    ensures Missing(im, ip, n) == 0
    decreases n
  {
    hide Slot, FileSlot;
    if n > 0 {
      MissingNone(im, ip, n - 1);
    }
  }

  lemma {:induction false} MissingSome(im: Image, ip: int, n: int, bn: int)
    requires 0 <= bn < n && Slot(im, ip, FileSlot(bn)) == 0
    ensures Missing(im, ip, n) >= 1
    decreases n
  {
    hide Slot, FileSlot;
    if n - 1 != bn {
      MissingSome(im, ip, n - 1, bn);
    }
  }

  lemma {:induction false} MissingGrows(im: Image, ip: int, n: int, m: int)
    requires n <= m
    ensures Missing(im, ip, n) <= Missing(im, ip, m)
    decreases m - n
  {
    hide Slot, FileSlot;
    if n < m {
      MissingGrows(im, ip, n, m - 1);
    }
  }

  /** A later block needs no less. */
  lemma NeededGrows(im: Image, ip: int, b: int, c: int)
    requires b <= c
    ensures Needed(im, ip, b) <= Needed(im, ip, c)
  {
    hide Slot, Missing, FileSlot;
    MissingGrows(im, ip, b + 1, c + 1);
  }

  // ----- What allocation and writing do to the balance -----

  lemma SpareSame(sb: Super, im: Image, im': Image, marked: set<int>, ip: int, bn: int)
    requires forall k :: Slot(im', ip, k) == Slot(im, ip, k)
    ensures Spare(sb, im', marked, ip, bn) == Spare(sb, im, marked, ip, bn)
  {
    hide Slot, Missing, FreeBlocks, FileSlot;
    MissingSame(im, im', ip, bn + 1);
  }

  lemma OneLess(sb: Super, marked: set<int>, b: int)
    requires sb.datastart <= b < sb.size && b !in marked
    ensures |FreeBlocks(sb, marked + {b})| == |FreeBlocks(sb, marked)| - 1
  {
    var f := FreeBlocks(sb, marked);
    assert FreeBlocks(sb, marked + {b}) == f - {b} && b in f;
  }

  lemma OtherSlots(bn: int)
    requires 0 <= bn
    ensures FileSlot(bn) != NDIRECT && forall c :: 0 <= c && c != bn ==> FileSlot(c) != FileSlot(bn)
  {
  }

  lemma NeverIndirect()
    ensures forall c :: 0 <= c ==> FileSlot(c) != NDIRECT
  {
  }

  lemma NeededFilled(im: Image, im': Image, ip: int, bn: int, c: int)
    requires (forall l :: l != FileSlot(bn) ==> Slot(im', ip, l) == Slot(im, ip, l)) && 0 <= bn <= c
    requires Slot(im, ip, FileSlot(bn)) == 0 && Slot(im', ip, FileSlot(bn)) != 0
    ensures Needed(im', ip, c) == Needed(im, ip, c) - 1
  {
    hide Slot, Missing, FileSlot;
    OtherSlots(bn);
    MissingOne(im, im', ip, c + 1, bn);
  }

  lemma NeededIndirect(im: Image, im': Image, ip: int, c: int)
    requires (forall l :: l != NDIRECT ==> Slot(im', ip, l) == Slot(im, ip, l)) && NDIRECT <= c
    requires Slot(im, ip, NDIRECT) == 0 && Slot(im', ip, NDIRECT) != 0
    ensures Needed(im', ip, c) == Needed(im, ip, c) - 1
  {
    hide Slot, Missing, FileSlot;
    NeverIndirect();
    MissingSame(im, im', ip, c + 1);
  }

  /** A free block fills slot k, which blocks from bn on need. */
  lemma SpareFilled(sb: Super, im: Image, im': Image, marked: set<int>, ip: int, k: int, b: int, bn: int, c: int)
    requires OnlySlot(im, im', ip, k, b) && SlotRange(im, ip, k) && Slot(im, ip, k) == 0
    requires sb.datastart <= b < sb.size && b !in marked && 0 < sb.datastart
    requires 0 <= bn <= c && (k == FileSlot(bn) || (k == NDIRECT && bn >= NDIRECT))
    ensures Spare(sb, im', marked + {b}, ip, c) == Spare(sb, im, marked, ip, c)
  {
    hide Slot, OnlySlot, SlotRange, FreeBlocks, Needed, FileSlot;
    SlotsBut(im, im', ip, k, b);
    OneLess(sb, marked, b);
    if k == FileSlot(bn) {
      NeededFilled(im, im', ip, bn, c);
    } else {
      NeededIndirect(im, im', ip, c);
    }
  }

  lemma SlotsBut(im: Image, im': Image, ip: int, k: int, b: int)
    requires OnlySlot(im, im', ip, k, b) && SlotRange(im, ip, k)
    ensures Slot(im', ip, k) == b && forall l :: l != k ==> Slot(im', ip, l) == Slot(im, ip, l)
  {
    assert forall l :: !SlotRange(im, ip, l) ==> Slot(im, ip, l) == 0 == Slot(im', ip, l) by {
      assert forall l :: SlotRange(im, ip, l) <==> SlotRange(im', ip, l);
    }
    hide Slot, SlotRange;
  }

  /** With no block free, a file that lacks block bn cannot have what it needs. */
  lemma NotEnough(sb: Super, im: Image, marked: set<int>, ip: int, bn: int, c: int)
    requires (forall b :: sb.datastart <= b < sb.size ==> b in marked) && 0 <= bn <= c && Slot(im, ip, FileSlot(bn)) == 0
    ensures !Enough(sb, im, marked, ip, c)
  {
    hide Slot, Missing, FileSlot;
    MissingSome(im, ip, c + 1, bn);
    assert FreeBlocks(sb, marked) == {};
  }

  /** A file that has every block up to bn needs none. */
  lemma HasAll(sb: Super, im: Image, marked: set<int>, ip: int, bn: int)
    requires (forall c :: 0 <= c <= bn ==> Slot(im, ip, FileSlot(c)) != 0) && (bn >= NDIRECT ==> Slot(im, ip, NDIRECT) != 0)
    ensures Needed(im, ip, bn) == 0 && Enough(sb, im, marked, ip, bn)
  {
    hide Slot, Missing, FreeBlocks, FileSlot;
    MissingNone(im, ip, bn + 1);
  }

  /** A block behind the indirect one is reached through it. */
  lemma BehindIndirect(sb: Super, im: Image, owner: map<int, (int, int)>, ip: int, bn: int)
    requires Tree(sb, im, owner) && bn >= NDIRECT && Slot(im, ip, FileSlot(bn)) != 0
    ensures Slot(im, ip, NDIRECT) != 0
  {
    hide Word;
  }
}
