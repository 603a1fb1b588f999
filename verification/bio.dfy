/** kernel/bio.c: the ring of buffers linked through next and prev, and the steps that the code takes on it. */
module BufferCode {
  import opened BufferMachine

  /** Places k and k + 1 of the ring. */
  predicate Linked(next: seq<int>, prev: seq<int>, o: seq<int>, k: int)
    requires 0 <= k && k + 1 < |o|
  {
    0 <= o[k] < |next| && 0 <= o[k + 1] < |prev| && next[o[k]] == o[k + 1] && prev[o[k + 1]] == o[k]
  }

  /** o names the nodes from the head round to the head again. */
  ghost predicate Ring(next: seq<int>, prev: seq<int>, o: seq<int>) {
    && |next| == |prev| && |o| >= 2 && o[|o| - 1] == o[0]
    && (forall k :: 0 <= k && k + 1 < |o| ==> Linked(next, prev, o, k))
    && (forall k, l :: 0 <= k < l < |o| - 1 ==> o[k] != o[l])
  }

  function Around(head: int, lru: seq<int>): seq<int> { [head] + lru + [head] }

  /** Where the link of x leads when b is passed over. */
  function Past(link: seq<int>, x: int, b: int): int
    requires 0 <= x < |link| && 0 <= b < |link|
  {
    if link[x] == b then link[b] else link[x]
  }

  /** b comes right behind the head, and every other node's links are what they were but for b. */
  ghost predicate Fronted(next: seq<int>, prev: seq<int>, next': seq<int>, prev': seq<int>, head: int, b: int) {
    && 0 <= b < head && |next'| == |prev'| == |next| == |prev| == head + 1
    && next'[head] == b && prev'[b] == head && next'[b] == Past(next, head, b)
    && (forall x :: 0 <= x < head && x != b ==> next'[x] == Past(next, x, b))
    && forall x :: 0 <= x <= head && x != b ==> prev'[x] == if x == Past(next, head, b) then b else Past(prev, x, b)
  }

  /** b->next->prev = b->prev; b->prev->next = b->next. */
  lemma Unlinked(next: seq<int>, prev: seq<int>, o: seq<int>, k: int)
    requires Ring(next, prev, o) && 0 < k < |o| - 1
    ensures |next| == |prev| && 0 <= o[k] < |next| && next[o[k]] == o[k + 1] && prev[o[k]] == o[k - 1] && 0 <= o[k + 1] < |next| && 0 <= o[k - 1] < |next|
    ensures Ring(next[o[k - 1] := o[k + 1]], prev[o[k + 1] := o[k - 1]], o[..k] + o[k + 1..])
  {
    assert Linked(next, prev, o, k) && Linked(next, prev, o, k - 1);
    var next', prev', r := next[o[k - 1] := o[k + 1]], prev[o[k + 1] := o[k - 1]], o[..k] + o[k + 1..];
    assert forall i :: 0 <= i < |r| ==> r[i] == if i < k then o[i] else o[i + 1];
    forall i | 0 <= i && i + 1 < |r| ensures Linked(next', prev', r, i) {
      if i < k - 1 {
        assert Linked(next, prev, o, i);
      } else if i >= k {
        assert Linked(next, prev, o, i + 1);
      }
      assert i != k - 1 ==> r[i] != o[k - 1];
    }
  }

  /** b->next = head.next; b->prev = &head; head.next->prev = b; head.next = b. */
  lemma InFront(next: seq<int>, prev: seq<int>, o: seq<int>, b: int)
    requires Ring(next, prev, o) && 0 <= b < |next| && b !in o
    ensures 0 <= o[0] < |next| && next[o[0]] == o[1] && 0 <= o[1] < |next|
    ensures Ring(next[b := o[1]][o[0] := b], prev[b := o[0]][o[1] := b], [o[0], b] + o[1..])
  {
    assert Linked(next, prev, o, 0);
    var next', prev', r := next[b := o[1]][o[0] := b], prev[b := o[0]][o[1] := b], [o[0], b] + o[1..];
    assert forall i :: 2 <= i < |r| ==> r[i] == o[i - 1];
    forall i | 0 <= i && i + 1 < |r| ensures Linked(next', prev', r, i) {
      if i >= 2 {
        assert Linked(next, prev, o, i - 1);
        assert o[i - 1] != o[0];
        assert o[i] in o;
        assert i + 1 < |r| - 1 ==> o[i] != o[1];
      }
    }
    forall k, l | 0 <= k < l < |r| - 1 ensures r[k] != r[l] {
      if l >= 2 {
        assert o[l - 1] in o;
      }
    }
  }

  lemma {:induction false} WithoutAt(lru: seq<int>, b: int, k: int)
    requires 0 <= k < |lru| && lru[k] == b && forall p, q :: 0 <= p < q < |lru| ==> lru[p] != lru[q]
    ensures Without(lru, b) == lru[..k] + lru[k + 1..]
    decreases |lru|
  {
    if k == 0 {
      NotThere(lru[1..], b);
    } else {
      WithoutAt(lru[1..], b, k - 1);
      assert lru == [lru[0]] + lru[1..];
    }
  }

  lemma {:induction false} NotThere(lru: seq<int>, b: int)
    requires b !in lru
    ensures Without(lru, b) == lru
  {
    if lru != [] {
      NotThere(lru[1..], b);
      assert lru == [lru[0]] + lru[1..];
    }
  }

  lemma Downward(lru: seq<int>, n: int)
    requires |lru| == n && forall p :: 0 <= p < n ==> lru[p] == n - 1 - p
    ensures Perm(lru, n) && Falling(lru, seq(n, i => i))
  {
    forall b | 0 <= b < n ensures b in lru {
      assert lru[n - 1 - b] == b;
    }
  }

  /** The six assignments of brelse, taken together. */
  lemma Moved(c: Cache, next: seq<int>, prev: seq<int>, head: int, lru: seq<int>, b: int, p: int)
    requires Inv(c) && c.lru == lru && |c.bufs| == head && 0 <= p < |lru| && lru[p] == b
    requires Ring(next, prev, Around(head, lru)) && |next| == head + 1
    ensures 0 <= b < |next| && 0 <= next[b] < |next| && 0 <= prev[b] < |next|
    ensures var n1, p1 := next[prev[b] := next[b]], prev[next[b] := prev[b]];
            && 0 <= n1[head] < |next|
            && Ring(n1[b := n1[head]][head := b], p1[b := head][n1[head] := b], Around(head, ToFront(lru, b)))
  {
    Removed(c, next, prev, head, lru, b, p);
    var n1, p1 := next[prev[b] := next[b]], prev[next[b] := prev[b]];
    var r := Around(head, Without(lru, b));
    InFront(n1, p1, r, b);
    hide Ring, Inv, Without;
    assert [r[0], b] + r[1..] == Around(head, ToFront(lru, b));
  }

  /** The two directions of the ring agree. */
  lemma LinksMatch(c: Cache, next: seq<int>, prev: seq<int>, head: int, lru: seq<int>)
    requires Inv(c) && c.lru == lru && |c.bufs| == head && Ring(next, prev, Around(head, lru)) && |next| == head + 1
    ensures |prev| == head + 1
    ensures forall x :: 0 <= x <= head ==> 0 <= next[x] <= head && 0 <= prev[x] <= head && prev[next[x]] == x && next[prev[x]] == x
  {
    LruFacts(c);
    var o := Around(head, lru);
    forall x | 0 <= x <= head ensures 0 <= next[x] <= head && 0 <= prev[x] <= head && prev[next[x]] == x && next[prev[x]] == x {
      if x == head {
        assert Linked(next, prev, o, 0) && Linked(next, prev, o, |lru|);
      } else {
        EveryListed(c, x);
        var p :| 0 <= p < |lru| && lru[p] == x;
        assert Linked(next, prev, o, p) && Linked(next, prev, o, p + 1);
      }
      hide Inv;
    }
  }

  lemma EveryListed(c: Cache, x: int)
    requires Inv(c) && 0 <= x < |c.bufs|
    ensures x in c.lru
  {
    hide Unique, DiskOk, Falling, BufOk;
  }

  lemma Removed(c: Cache, next: seq<int>, prev: seq<int>, head: int, lru: seq<int>, b: int, p: int)
    requires Inv(c) && c.lru == lru && |c.bufs| == head && 0 <= p < |lru| && lru[p] == b
    requires Ring(next, prev, Around(head, lru)) && |next| == head + 1
    ensures 0 <= b < |next| == |prev| && 0 <= next[b] < |next| && 0 <= prev[b] < |next|
    ensures var r := Around(head, Without(lru, b));
            b !in r && Ring(next[prev[b] := next[b]], prev[next[b] := prev[b]], r)
  {
    hide Inv, Ring, Around;
    LruFacts(c);
    AroundCut(head, lru, p);
    Unlinked(next, prev, Around(head, lru), p + 1);
    WithoutAt(lru, b, p);
    NotAround(head, lru, b);
  }

  lemma AroundCut(head: int, lru: seq<int>, p: int)
    requires 0 <= p < |lru|
    ensures var o := Around(head, lru);
            && |o| == |lru| + 2 && o[p + 1] == lru[p]
            && o[..p + 1] + o[p + 2..] == Around(head, lru[..p] + lru[p + 1..])
  {
  }

  lemma NotAround(head: int, lru: seq<int>, b: int)
    requires b != head && forall p, q :: 0 <= p < q < |lru| ==> lru[p] != lru[q]
    ensures b !in Around(head, Without(lru, b))
  {
    WithoutElems(lru, b);
  }

  lemma LruFacts(c: Cache)
    requires Inv(c)
    ensures |c.lru| == |c.bufs| && (forall p, q :: 0 <= p < q < |c.lru| ==> c.lru[p] != c.lru[q])
    ensures forall p :: 0 <= p < |c.lru| ==> 0 <= c.lru[p] < |c.bufs|
  {
    hide Unique, DiskOk, Falling, BufOk;
  }

  class BufferCache {
    /** The buffers; node |bufs| of the ring is bcache.head. */
    var bufs: seq<Buf>
    var next: seq<int>
    var prev: seq<int>
    var disk: map<Key, Block>
    ghost var lru: seq<int>
    ghost var history: Ghost

    ghost function Now(): Cache
      reads this
    {
      Cache(bufs, lru, disk, history)
    }

    ghost predicate Valid()
      reads this
    {
      Inv(Now()) && Ring(next, prev, Around(|bufs|, lru)) && |next| == |bufs| + 1
    }

    /** The links of the p-th buffer of the list, and of the head. */
    lemma RingAt(p: int)
      requires Valid() && 0 <= p < |lru|
      ensures |lru| == |bufs| && |next| == |prev| == |bufs| + 1 && 0 <= lru[p] < |bufs|
      ensures next[lru[p]] == if p + 1 < |lru| then lru[p + 1] else |bufs|
      ensures prev[lru[p]] == if p > 0 then lru[p - 1] else |bufs|
    {
      LruFacts(Now());
      hide Inv;
      var o := Around(|bufs|, lru);
      assert Linked(next, prev, o, p) && Linked(next, prev, o, p + 1);
    }

    lemma HeadLinks()
      requires Valid()
      ensures |lru| == |bufs| && |next| == |prev| == |bufs| + 1
      ensures next[|bufs|] == if |lru| > 0 then lru[0] else |bufs|
      ensures prev[|bufs|] == if |lru| > 0 then lru[|lru| - 1] else |bufs|
    {
      LruFacts(Now());
      hide Inv;
      var o := Around(|bufs|, lru);
      assert Linked(next, prev, o, 0) && Linked(next, prev, o, |lru|);
    }

    /** binit: every buffer goes in front of those before it. */
    constructor (n: int, contents: map<Key, Block>)
      requires 0 <= n
      ensures Valid() && |bufs| == n && disk == contents && Booted(Now())
    {
      bufs := seq(n, i => Buf(false, 0, 0, 0, [], NOBODY));
      next := seq(n + 1, i => n);
      prev := seq(n + 1, i => n);
      disk := contents;
      lru := [];
      history := Ghost(contents, {}, seq(n, i => multiset{}), seq(n, i => i), n);
      new;
      ghost var bufs0, history0 := bufs, history;
      assert Around(n, []) == [n, n];
      assert Linked(next, prev, Around(n, []), 0);
      var b := 0;
      while b < n
        invariant 0 <= b <= n == |bufs| && |next| == n + 1 && Ring(next, prev, Around(n, lru)) && |lru| == b
        invariant forall p :: 0 <= p < b ==> lru[p] == b - 1 - p
        invariant bufs == bufs0 && history == history0 && disk == contents
      {
        ghost var o := Around(n, lru);
        assert forall k :: 0 <= k < |o| ==> o[k] != b;
        InFront(next, prev, o, b);
        var head := n;
        next := next[b := next[head]];
        prev := prev[b := head];
        prev := prev[next[head] := b];
        next := next[head := b];
        lru := [b] + lru;
        assert Around(n, lru) == [o[0], b] + o[1..];
        b := b + 1;
      }
      Downward(lru, n);
      BootedInv(Now());
    }

    /** The first loop of bget: the buffer that caches the block, or the head. */
    method Find(dev: int, blockno: int) returns (b: int)
      requires Valid()
      ensures b == |bufs| || (0 <= b < |bufs| && Cached(Now(), b, (dev, blockno)))
      ensures b == |bufs| ==> forall x :: 0 <= x < |bufs| ==> !Cached(Now(), x, (dev, blockno))
    {
      HeadLinks();
      EveryBuffer();
      hide Inv, Ring;
      var head := |bufs|;
      b := next[head];
      ghost var p := 0;
      while b != head
        invariant 0 <= p <= |lru| == |bufs| && |next| == head + 1 && b == if p < |lru| then lru[p] else head
        invariant forall q :: 0 <= q < p ==> 0 <= lru[q] < |bufs| && KeyOf(bufs[lru[q]]) != (dev, blockno)
        decreases |lru| - p
      {
        RingAt(p);
        if bufs[b].dev == dev && bufs[b].blockno == blockno {
          return;
        }
        b := next[b];
        p := p + 1;
      }
      if p < |lru| {
        RingAt(p);
      }
      NotCached(dev, blockno);
    }

    lemma NotCached(dev: int, blockno: int)
      requires forall x :: 0 <= x < |bufs| ==> x in lru
      requires forall q :: 0 <= q < |lru| ==> 0 <= lru[q] < |bufs| && KeyOf(bufs[lru[q]]) != (dev, blockno)
      ensures forall x :: 0 <= x < |bufs| ==> !Cached(Now(), x, (dev, blockno))
    {
      forall x | 0 <= x < |bufs| ensures !Cached(Now(), x, (dev, blockno)) {
        assert x in lru;
        var q :| 0 <= q < |lru| && lru[q] == x;
        assert KeyOf(bufs[lru[q]]) != (dev, blockno);
      }
    }

    lemma EveryBuffer()
      requires Valid()
      ensures forall x :: 0 <= x < |bufs| ==> x in lru
    {
      hide Unique, DiskOk, Falling, BufOk, Ring;
    }

    /** The second loop of bget: the least recently released unused buffer, or the head when all are in use. */
    method FindUnused() returns (b: int)
      requires Valid()
      ensures b == |bufs| <==> forall x :: 0 <= x < |bufs| ==> bufs[x].refcnt != 0
      ensures b != |bufs| ==> 0 <= b < |bufs| && Victim(Now(), b)
    {
      HeadLinks();
      SizesNow();
      EveryBuffer();
      hide Inv, Ring;
      var head := |bufs|;
      b := prev[head];
      ghost var p := |lru| - 1;
      while b != head
        invariant -1 <= p < |lru| == |bufs| && |prev| == head + 1 && b == if p >= 0 then lru[p] else head
        invariant forall q :: p < q < |lru| ==> 0 <= lru[q] < |bufs| && bufs[lru[q]].refcnt != 0
        decreases p
      {
        RingAt(p);
        if bufs[b].refcnt == 0 {
          return;
        }
        b := prev[b];
        p := p - 1;
      }
      if p >= 0 {
        RingAt(p);
      }
      AllInUse();
    }

    lemma AllInUse()
      requires forall x :: 0 <= x < |bufs| ==> x in lru
      requires forall q :: 0 <= q < |lru| ==> 0 <= lru[q] < |bufs| && bufs[lru[q]].refcnt != 0
      ensures forall x :: 0 <= x < |bufs| ==> bufs[x].refcnt != 0
    {
      forall x | 0 <= x < |bufs| ensures bufs[x].refcnt != 0 {
        assert x in lru;
        var q :| 0 <= q < |lru| && lru[q] == x;
        assert bufs[lru[q]].refcnt != 0;
      }
    }

    lemma SizesNow()
      requires Valid()
      ensures Sizes(Now())
    {
    }

    /** No buffer is unused, and none caches the block. */
    ghost predicate NoBuffers(key: Key)
      reads this
    {
      forall x :: 0 <= x < |bufs| ==> bufs[x].refcnt != 0 && !Cached(Now(), x, key)
    }

    /** One reference more to the block's buffer; any other becomes an empty one of the block. */
    static function Taken(x: Buf, cached: bool, dev: int, blockno: int): Buf {
      if cached then x.(refcnt := x.refcnt + 1) else x.(dev := dev, blockno := blockno, valid := false, refcnt := 1)
    }

    /** The part of bget under bcache.lock: the thread gets a reference to the block's buffer.  The result is the
        head when the code panics with "no buffers". */
    method Bget(t: int, dev: int, blockno: int) returns (b: int, ghost s: Step)
      requires Valid() && 0 <= t && dev != 0 && (dev, blockno) in disk
      modifies this`bufs, this`history
      ensures Valid() && (b == |bufs| <==> old(NoBuffers((dev, blockno))))
      ensures b == |bufs| ==> Now() == old(Now())
      ensures b != |bufs| ==> s.t == t && s.b == b && (s == Hit(t, b, (dev, blockno)) || s == Recycle(t, b, (dev, blockno)))
      ensures b != |bufs| ==> Enabled(old(Now()), s) && Now() == After(old(Now()), s)
      ensures b != |bufs| ==> 0 <= b < |old(bufs)| && bufs == old(bufs)[b := Taken(old(bufs)[b], s.Hit?, dev, blockno)]
    {
      ghost var key := (dev, blockno);
      SizesNow();
      hide Inv, Ring, Around, Victim, After, Enabled, Valid, Taken;
      b := Find(dev, blockno);
      s := Hit(t, b, key);
      if b != |bufs| {
        TakeCached(t, b, key);
      } else {
        b := FindUnused();
        if b != |bufs| {
          s := Recycle(t, b, key);
          TakeUnused(t, b, dev, blockno);
        }
      }
    }

    /** One more reference to the buffer that caches the block. */
    method TakeCached(t: int, b: int, ghost key: Key)
      requires Valid() && Enabled(Now(), Hit(t, b, key))
      modifies this`bufs, this`history
      ensures Valid() && |bufs| == old(|bufs|) && Now() == After(old(Now()), Hit(t, b, key))
      ensures 0 <= b < |old(bufs)| && bufs == old(bufs)[b := Taken(old(bufs)[b], true, key.0, key.1)]
    {
      StepKept(Now(), Hit(t, b, key));
      hide Inv, Ring, Around;
      bufs := bufs[b := bufs[b].(refcnt := bufs[b].refcnt + 1)];
      history := history.(refs := history.refs[b := history.refs[b] + multiset{t}]);
    }

    /** The unused buffer is recycled for the block. */
    method TakeUnused(t: int, b: int, dev: int, blockno: int)
      requires Valid() && Enabled(Now(), Recycle(t, b, (dev, blockno)))
      modifies this`bufs, this`history
      ensures Valid() && |bufs| == old(|bufs|) && Now() == After(old(Now()), Recycle(t, b, (dev, blockno)))
      ensures 0 <= b < |old(bufs)| && bufs == old(bufs)[b := Taken(old(bufs)[b], false, dev, blockno)]
    {
      assert IsBuf(Now(), b);
      hide Inv, Ring, Around, Victim, Clean;
      ghost var c, s := Now(), Recycle(t, b, (dev, blockno));
      StepKept(c, s);
      bufs := bufs[b := bufs[b].(dev := dev, blockno := blockno, valid := false, refcnt := 1)];
      assert bufs == c.bufs[b := c.bufs[b].(valid := false)][b := bufs[b]];
      history := After(c, s).ghost_;
      assert Now() == After(c, s);
    }

    /** acquiresleep(&b->lock), when it is free. */
    method AcquireSleep(t: int, b: int)
      requires Valid() && Enabled(Now(), Lock(t, b))
      modifies this`bufs
      ensures Valid() && Now() == After(old(Now()), Lock(t, b)) && bufs == old(bufs)[b := old(bufs)[b].(holder := t)]
    {
      StepKept(Now(), Lock(t, b));
      hide Inv, Ring, Around;
      bufs := bufs[b := bufs[b].(holder := t)];
    }

    /** The rest of bread, for the thread that has the lock: the disk is read when the buffer is empty. */
    method ReadIn(t: int, b: int)
      requires Valid() && Locked(Now(), t, b)
      modifies this`bufs
      ensures Valid() && bufs[b].valid
      ensures old(bufs)[b].valid ==> Now() == old(Now())
      ensures !old(bufs)[b].valid ==> Enabled(old(Now()), Fill(t, b)) && Now() == After(old(Now()), Fill(t, b))
      ensures !old(bufs)[b].valid ==> bufs == old(bufs)[b := old(bufs)[b].(data := disk[KeyOf(old(bufs)[b])], valid := true)]
    {
      LockedKey(t, b);
      if !bufs[b].valid {
        StepKept(Now(), Fill(t, b));
        hide Inv, Ring, Around;
        bufs := bufs[b := bufs[b].(data := disk[KeyOf(bufs[b])], valid := true)];
      }
    }

    lemma LockedKey(t: int, b: int)
      requires Valid() && Locked(Now(), t, b)
      ensures Enabled(Now(), if bufs[b].valid then Bwrite(t, b) else Fill(t, b))
    {
      assert BufOk(Now(), b);
    }

    /** bwrite. */
    method WriteOut(t: int, b: int)
      requires Valid() && Locked(Now(), t, b) && bufs[b].valid
      modifies this`disk
      ensures Valid() && Now() == After(old(Now()), Bwrite(t, b)) && disk == old(disk)[KeyOf(bufs[b]) := bufs[b].data]
    {
      StepKept(Now(), Bwrite(t, b));
      hide Inv, Ring, Around;
      disk := disk[KeyOf(bufs[b]) := bufs[b].data];
    }

    /** releasesleep(&b->lock). */
    method ReleaseSleep(t: int, b: int)
      requires Valid() && Locked(Now(), t, b)
      modifies this`bufs
      ensures Valid() && Now() == After(old(Now()), Unlock(t, b)) && bufs == old(bufs)[b := old(bufs)[b].(holder := NOBODY)]
    {
      StepKept(Now(), Unlock(t, b));
      hide Inv, Ring, Around;
      bufs := bufs[b := bufs[b].(holder := NOBODY)];
    }

    /** The part of brelse under bcache.lock: the last reference given up puts the buffer in front. */
    method DropRef(t: int, b: int)
      requires Valid() && Enabled(Now(), Drop(t, b))
      modifies this`bufs, this`next, this`prev, this`lru, this`history
      ensures Valid() && Now() == After(old(Now()), Drop(t, b))
      ensures if old(bufs)[b].refcnt == 1 then Fronted(old(next), old(prev), next, prev, |bufs|, b)
              else next == old(next) && prev == old(prev) && lru == old(lru)
      ensures bufs == old(bufs)[b := old(bufs)[b].(refcnt := old(bufs)[b].refcnt - 1)] && disk == old(disk)
    {
      ghost var c := Now();
      StepKept(c, Drop(t, b));
      EveryBuffer();
      SizesNow();
      hide Inv, Ring, Around, Clean;
      bufs := bufs[b := bufs[b].(refcnt := bufs[b].refcnt - 1)];
      history := history.(refs := history.refs[b := history.refs[b] - multiset{t}]);
      if bufs[b].refcnt == 0 {
        history := history.(stamp := history.stamp[b := history.clock], clock := history.clock + 1);
        MoveToFront(c, b);
      }
    }

    /** bpin, by the thread that has the buffer locked. */
    method Bpin(t: int, b: int)
      requires Valid() && Locked(Now(), t, b)
      modifies this`bufs, this`history
      ensures Valid() && Now() == After(old(Now()), Pin(t, b))
      ensures bufs == old(bufs)[b := old(bufs)[b].(refcnt := old(bufs)[b].refcnt + 1)]
    {
      StepKept(Now(), Pin(t, b));
      hide Inv, Ring, Around;
      bufs := bufs[b := bufs[b].(refcnt := bufs[b].refcnt + 1)];
      history := history.(refs := history.refs[b := history.refs[b] + multiset{PIN}]);
    }

    /** bunpin: unlike brelse, it leaves the buffer where it is in the list. */
    method Bunpin(t: int, b: int)
      requires Valid() && Enabled(Now(), Unpin(t, b))
      modifies this`bufs, this`history
      ensures Valid() && Now() == After(old(Now()), Unpin(t, b))
      ensures bufs == old(bufs)[b := old(bufs)[b].(refcnt := old(bufs)[b].refcnt - 1)]
    {
      StepKept(Now(), Unpin(t, b));
      hide Inv, Ring, Around;
      bufs := bufs[b := bufs[b].(refcnt := bufs[b].refcnt - 1)];
      history := history.(refs := history.refs[b := history.refs[b] - multiset{PIN}]);
    }

    /** b leaves its place in the ring for the one behind the head. */
    method MoveToFront(ghost c: Cache, b: int)
      requires Inv(c) && c.lru == lru && |c.bufs| == |bufs| && 0 <= b < |bufs| && b in lru
      requires Ring(next, prev, Around(|bufs|, lru)) && |next| == |bufs| + 1
      modifies this`next, this`prev, this`lru
      ensures lru == ToFront(old(lru), b) && Ring(next, prev, Around(|bufs|, lru)) && |next| == |bufs| + 1
      ensures Fronted(old(next), old(prev), next, prev, |bufs|, b)
    {
      var head := |bufs|;
      ghost var p :| 0 <= p < |lru| && lru[p] == b;
      ghost var o, k := Around(head, lru), p + 1;
      Moved(c, next, prev, head, lru, b, p);
      LinksMatch(c, next, prev, head, lru);
      hide Ring, Inv, Around;
      var n, m := next[b], prev[b];
      next := next[m := n];
      prev := prev[n := m];
      next := next[b := next[head]];
      prev := prev[b := head];
      prev := prev[next[head] := b];
      next := next[head := b];
      lru := ToFront(lru, b);
    }
  }
}
