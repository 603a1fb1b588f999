/** The buffer cache of kernel/bio.c as a machine: each step is what one thread does while it holds the lock
    that the code takes there, so a run is any interleaving of any number of threads. */
module BufferMachine {
  type Block = seq<bv8>
  type Key = (int, int)

  const NOBODY: int := -1
  /** The reference that bpin takes. */
  const PIN: int := -2

  datatype Buf = Buf(valid: bool, dev: int, blockno: int, refcnt: int, data: Block, holder: int)

  function KeyOf(b: Buf): Key { (b.dev, b.blockno) }

  /** `lru` lists the buffers from the most recently released on; stamp[b] tells when b got to its front;
      latest[k] is the last contents given to block k; lost has the blocks whose latest contents went with a
      buffer that was recycled before they reached the disk; refs[b] is who holds references to b. */
  datatype Cache = Cache(bufs: seq<Buf>, lru: seq<int>, disk: map<Key, Block>, ghost_: Ghost)

  datatype Ghost = Ghost(latest: map<Key, Block>, lost: set<Key>, refs: seq<multiset<int>>, stamp: seq<int>, clock: int)

  datatype Step =
    | Hit(t: int, b: int, key: Key)
    | Recycle(t: int, b: int, key: Key)
    | Lock(t: int, b: int)
    | Fill(t: int, b: int)
    | Modify(t: int, b: int, data: Block)
    | Bwrite(t: int, b: int)
    | Unlock(t: int, b: int)
    | Drop(t: int, b: int)
    | Pin(t: int, b: int)
    | Unpin(t: int, b: int)

  predicate IsBuf(c: Cache, b: int) { 0 <= b < |c.bufs| == |c.ghost_.refs| == |c.ghost_.stamp| }

  predicate Holds(c: Cache, t: int, b: int) { IsBuf(c, b) && t in c.ghost_.refs[b] }

  predicate Locked(c: Cache, t: int, b: int) { IsBuf(c, b) && t != NOBODY && c.bufs[b].holder == t }

  predicate Cached(c: Cache, b: int, key: Key)
    requires 0 <= b < |c.bufs|
  {
    KeyOf(c.bufs[b]) == key
  }

  /** The buffer holds what the disk holds. */
  predicate Clean(c: Cache, b: int)
    requires 0 <= b < |c.bufs|
  {
    var k := KeyOf(c.bufs[b]);
    c.bufs[b].valid && c.bufs[b].dev != 0 ==> k in c.disk && c.disk[k] == c.bufs[b].data
  }

  /** The last unused buffer of the list. */
  ghost predicate Victim(c: Cache, b: int) {
    exists p :: 0 <= p < |c.lru| && c.lru[p] == b && IsBuf(c, b) && c.bufs[b].refcnt == 0 &&
      forall q :: p < q < |c.lru| && IsBuf(c, c.lru[q]) ==> c.bufs[c.lru[q]].refcnt != 0
  }

  /** b taken out and put in front. */
  function ToFront(lru: seq<int>, b: int): seq<int> { [b] + Without(lru, b) }

  function Without(lru: seq<int>, b: int): (r: seq<int>) {
    if lru == [] then [] else (if lru[0] == b then [] else [lru[0]]) + Without(lru[1..], b)
  }

  /** When a step can be taken.  A thread is a number from 0 on. */
  ghost predicate Enabled(c: Cache, s: Step) {
    match s
    case Hit(t, b, key) => 0 <= t && IsBuf(c, b) && Cached(c, b, key) && key.0 != 0
    case Recycle(t, b, key) =>
      0 <= t && key.0 != 0 && key in c.disk && Victim(c, b) && forall d :: 0 <= d < |c.bufs| ==> !Cached(c, d, key)
    case Lock(t, b) => 0 <= t && Holds(c, t, b) && c.bufs[b].holder == NOBODY
    case Fill(t, b) => Locked(c, t, b) && !c.bufs[b].valid && KeyOf(c.bufs[b]) in c.disk
    case Modify(t, b, data) => Locked(c, t, b) && c.bufs[b].valid
    case Bwrite(t, b) => Locked(c, t, b) && c.bufs[b].valid
    case Unlock(t, b) => Locked(c, t, b)
    case Drop(t, b) => 0 <= t && Holds(c, t, b) && c.bufs[b].holder != t
    case Pin(t, b) => Locked(c, t, b)
    case Unpin(t, b) => Holds(c, PIN, b)
  }

  function SetBuf(c: Cache, b: int, buf: Buf): Cache
    requires 0 <= b < |c.bufs|
  {
    c.(bufs := c.bufs[b := buf])
  }

  function SetRefs(c: Cache, b: int, refs: multiset<int>): Cache
    requires IsBuf(c, b)
  {
    c.(ghost_ := c.ghost_.(refs := c.ghost_.refs[b := refs]))
  }

  function Stamped(c: Cache, b: int): Cache
    requires IsBuf(c, b)
  {
    c.(ghost_ := c.ghost_.(stamp := c.ghost_.stamp[b := c.ghost_.clock], clock := c.ghost_.clock + 1), lru := ToFront(c.lru, b))
  }

  /** bget throws away what an unused buffer holds. */
  function Forget(c: Cache, b: int): Cache
    requires IsBuf(c, b)
  {
    var d := SetBuf(c, b, c.bufs[b].(valid := false));
    if Clean(c, b) then d else d.(ghost_ := d.ghost_.(lost := d.ghost_.lost + {KeyOf(c.bufs[b])}))
  }

  /** The buffer becomes one for another block, with its first reference. */
  function Rekey(c: Cache, b: int, key: Key, t: int): Cache
    requires IsBuf(c, b)
  {
    SetRefs(SetBuf(c, b, c.bufs[b].(dev := key.0, blockno := key.1, refcnt := 1)), b, multiset{t})
  }

  ghost function After(c: Cache, s: Step): Cache
    requires Enabled(c, s)
  {
    var b := s.b;
    var buf := c.bufs[b];
    var k := KeyOf(buf);
    match s
    case Hit(t, _, _) => SetRefs(SetBuf(c, b, buf.(refcnt := buf.refcnt + 1)), b, c.ghost_.refs[b] + multiset{t})
    case Recycle(t, _, key) => Rekey(Forget(c, b), b, key, t)
    case Lock(t, _) => SetBuf(c, b, buf.(holder := t))
    case Fill(_, _) => SetBuf(c, b, buf.(data := c.disk[k], valid := true))
    case Modify(_, _, data) =>
      SetBuf(c, b, buf.(data := data)).(ghost_ := c.ghost_.(latest := c.ghost_.latest[k := data], lost := c.ghost_.lost - {k}))
    case Bwrite(_, _) => c.(disk := c.disk[k := buf.data])
    case Unlock(_, _) => SetBuf(c, b, buf.(holder := NOBODY))
    case Drop(t, _) =>
      var d := SetRefs(SetBuf(c, b, buf.(refcnt := buf.refcnt - 1)), b, c.ghost_.refs[b] - multiset{t});
      if buf.refcnt == 1 then Stamped(d, b) else d
    case Pin(_, _) => SetRefs(SetBuf(c, b, buf.(refcnt := buf.refcnt + 1)), b, c.ghost_.refs[b] + multiset{PIN})
    case Unpin(_, _) => SetRefs(SetBuf(c, b, buf.(refcnt := buf.refcnt - 1)), b, c.ghost_.refs[b] - multiset{PIN})
  }

  // ----- What every run keeps -----

  ghost predicate Perm(lru: seq<int>, n: int) {
    && |lru| == n
    && (forall p :: 0 <= p < |lru| ==> 0 <= lru[p] < n)
    && (forall p, q :: 0 <= p < q < |lru| ==> lru[p] != lru[q])
    && (forall b :: 0 <= b < n ==> b in lru)
  }

  /** What can still be had of a block: its latest contents, or what the disk holds when they are lost. */
  function Current(c: Cache, k: Key): Block
    requires k in c.disk && k in c.ghost_.latest
  {
    if k in c.ghost_.lost then c.disk[k] else c.ghost_.latest[k]
  }

  /** References, lock and contents of one buffer. */
  ghost predicate BufOk(c: Cache, b: int)
    requires IsBuf(c, b)
  {
    var buf, k := c.bufs[b], KeyOf(c.bufs[b]);
    && buf.refcnt == |c.ghost_.refs[b]| && (buf.dev == 0 ==> c.ghost_.refs[b] == multiset{})
    && (buf.holder != NOBODY ==> 0 <= buf.holder && buf.holder in c.ghost_.refs[b])
    && c.ghost_.stamp[b] < c.ghost_.clock
    && (buf.dev != 0 ==> k in c.disk && k in c.ghost_.latest && Current(c, k) == if buf.valid then buf.data else c.disk[k])
  }

  /** At most one buffer for a block of a device other than 0. */
  ghost predicate Unique(c: Cache) {
    forall b, d :: 0 <= b < |c.bufs| && 0 <= d < |c.bufs| && c.bufs[b].dev != 0 && KeyOf(c.bufs[b]) == KeyOf(c.bufs[d]) ==> b == d
  }

  /** The disk has the latest contents of a block that no buffer caches, unless they are lost, and then it has not. */
  ghost predicate DiskOk(c: Cache) {
    && c.disk.Keys == c.ghost_.latest.Keys
    && (forall k :: k in c.disk && c.disk[k] != Current(c, k) ==> k.0 == 0 || exists b :: 0 <= b < |c.bufs| && Cached(c, b, k))
    && forall k :: k in c.ghost_.lost ==> k in c.disk && c.disk[k] != c.ghost_.latest[k]
  }

  ghost predicate Sizes(c: Cache) { |c.bufs| == |c.ghost_.refs| == |c.ghost_.stamp| }

  ghost predicate Inv(c: Cache) {
    && Sizes(c) && Perm(c.lru, |c.bufs|) && Falling(c.lru, c.ghost_.stamp) && Unique(c) && DiskOk(c)
    && forall b :: 0 <= b < |c.bufs| ==> BufOk(c, b)
  }

  /** After binit: every buffer is (0, 0), unused and empty. */
  ghost predicate Booted(c: Cache) {
    && Sizes(c) && Perm(c.lru, |c.bufs|) && Falling(c.lru, c.ghost_.stamp) && c.disk == c.ghost_.latest && c.ghost_.lost == {}
    && forall b :: 0 <= b < |c.bufs| ==>
         !c.bufs[b].valid && c.bufs[b].dev == 0 && c.bufs[b].refcnt == 0 && c.bufs[b].holder == NOBODY &&
         c.ghost_.refs[b] == multiset{} && c.ghost_.stamp[b] < c.ghost_.clock
  }

  lemma BootedInv(c: Cache)
    requires Booted(c)
    ensures Inv(c)
  {
  }

  // ----- Without and ToFront -----

  lemma {:induction false} WithoutElems(lru: seq<int>, b: int)
    requires forall p, q :: 0 <= p < q < |lru| ==> lru[p] != lru[q]
    ensures forall x :: x in Without(lru, b) <==> x in lru && x != b
    ensures |Without(lru, b)| == |lru| - if b in lru then 1 else 0
    ensures forall p, q :: 0 <= p < q < |Without(lru, b)| ==> Without(lru, b)[p] != Without(lru, b)[q]
  {
    if lru != [] {
      WithoutElems(lru[1..], b);
      assert lru == [lru[0]] + lru[1..];
      assert lru[0] !in lru[1..];
    }
  }

  /** Further back in the list means stamped earlier. */
  ghost predicate Falling(lru: seq<int>, stamp: seq<int>) {
    && (forall p :: 0 <= p < |lru| ==> 0 <= lru[p] < |stamp|)
    && forall p, q :: 0 <= p < q < |lru| ==> stamp[lru[q]] < stamp[lru[p]]
  }

  lemma FallingTail(lru: seq<int>, stamp: seq<int>)
    requires Falling(lru, stamp) && lru != []
    ensures Falling(lru[1..], stamp) && 0 <= lru[0] < |stamp|
    ensures forall x :: x in lru[1..] ==> 0 <= x < |stamp| && stamp[x] < stamp[lru[0]]
  {
    forall x | x in lru[1..] ensures 0 <= x < |stamp| && stamp[x] < stamp[lru[0]] {
      var p :| 0 <= p < |lru[1..]| && lru[1..][p] == x;
      assert x == lru[p + 1];
    }
  }

  lemma FallingFront(x: int, lru: seq<int>, stamp: seq<int>)
    requires Falling(lru, stamp) && 0 <= x < |stamp| && forall y :: y in lru ==> 0 <= y < |stamp| && stamp[y] < stamp[x]
    ensures Falling([x] + lru, stamp)
  {
    var r := [x] + lru;
    forall p, q | 0 <= p < q < |r| ensures stamp[r[q]] < stamp[r[p]] {
      assert r[q] == lru[q - 1] && lru[q - 1] in lru;
      assert p > 0 ==> r[p] == lru[p - 1];
    }
  }

  /** The order of the others is kept. */
  lemma {:induction false} WithoutFalling(lru: seq<int>, b: int, stamp: seq<int>)
    requires Falling(lru, stamp)
    ensures Falling(Without(lru, b), stamp)
    ensures forall x :: x in Without(lru, b) ==> x in lru
  {
    if lru != [] {
      FallingTail(lru, stamp);
      WithoutFalling(lru[1..], b, stamp);
      assert lru == [lru[0]] + lru[1..];
      if lru[0] != b {
        FallingFront(lru[0], Without(lru[1..], b), stamp);
      } else {
        assert Without(lru, b) == Without(lru[1..], b);
      }
    }
  }

  lemma FrontFalling(lru: seq<int>, stamp: seq<int>, b: int, now: int)
    requires Falling(lru, stamp) && 0 <= b < |stamp| && (forall x :: 0 <= x < |stamp| ==> stamp[x] < now)
    requires forall p, q :: 0 <= p < q < |lru| ==> lru[p] != lru[q]
    ensures Falling(ToFront(lru, b), stamp[b := now])
  {
    WithoutFalling(lru, b, stamp);
    WithoutElems(lru, b);
    var w := Without(lru, b);
    assert forall p :: 0 <= p < |w| ==> w[p] in w;
    assert Falling(w, stamp[b := now]);
    FallingFront(b, w, stamp[b := now]);
  }

  lemma FrontPerm(lru: seq<int>, n: int, b: int)
    requires Perm(lru, n) && 0 <= b < n
    ensures Perm(ToFront(lru, b), n)
  {
    WithoutElems(lru, b);
    var w, r := Without(lru, b), ToFront(lru, b);
    assert b !in w;
    forall p | 0 <= p < |r| ensures 0 <= r[p] < n {
      assert p > 0 ==> r[p] == w[p - 1] && w[p - 1] in w;
      assert forall x :: x in lru ==> 0 <= x < n;
    }
    forall p, q | 0 <= p < q < |r| ensures r[p] != r[q] {
      assert r[q] == w[q - 1] && w[q - 1] in w;
      assert p > 0 ==> r[p] == w[p - 1];
    }
    forall d | 0 <= d < n ensures d in r {
      if d == b {
        assert r[0] == d;
      } else {
        assert d in w;
        var p :| 0 <= p < |w| && w[p] == d;
        assert r[p + 1] == d;
      }
    }
  }

  // ----- Steps -----

  /** Nothing has happened to block k. */
  predicate SameThere(c: Cache, d: Cache, k: Key)
    requires k in c.disk && k in c.ghost_.latest && k in d.disk && k in d.ghost_.latest
  {
    d.disk[k] == c.disk[k] && d.ghost_.latest[k] == c.ghost_.latest[k] && (k in d.ghost_.lost <==> k in c.ghost_.lost)
  }

  predicate LostHere(d: Cache, k: Key) {
    k in d.ghost_.lost ==> k in d.disk && k in d.ghost_.latest && d.disk[k] != d.ghost_.latest[k]
  }

  /** What a step on buffer b has to bring about for the invariant. */
  lemma OneBuffer(c: Cache, d: Cache, b: int)
    requires Inv(c) && Sizes(d) && |d.bufs| == |c.bufs| && 0 <= b < |c.bufs|
    requires forall x :: 0 <= x < |c.bufs| && x != b ==>
      d.bufs[x] == c.bufs[x] && d.ghost_.refs[x] == c.ghost_.refs[x] && d.ghost_.stamp[x] == c.ghost_.stamp[x]
    requires c.ghost_.clock <= d.ghost_.clock && d.disk.Keys == c.disk.Keys == d.ghost_.latest.Keys
    requires forall k :: k in c.disk && k != KeyOf(d.bufs[b]) ==> SameThere(c, d, k)
    requires KeyOf(d.bufs[b]) == KeyOf(c.bufs[b]) || (!c.bufs[b].valid && forall x :: 0 <= x < |c.bufs| ==> !Cached(c, x, KeyOf(d.bufs[b])))
    requires d.bufs[b].dev == 0 ==> d.disk == c.disk && d.ghost_.latest == c.ghost_.latest && d.ghost_.lost == c.ghost_.lost
    requires LostHere(d, KeyOf(d.bufs[b])) && d.ghost_.lost <= c.ghost_.lost + {KeyOf(d.bufs[b])}
    requires BufOk(d, b) && Perm(d.lru, |d.bufs|) && Falling(d.lru, d.ghost_.stamp)
    ensures Inv(d)
  {
    hide Perm, Falling;
    var key := KeyOf(d.bufs[b]);
    forall x | 0 <= x < |c.bufs| && x != b && c.bufs[x].dev != 0 ensures KeyOf(c.bufs[x]) != key {
      assert Cached(c, x, KeyOf(c.bufs[x]));
      assert KeyOf(c.bufs[x]) == KeyOf(c.bufs[b]) ==> x == b;
    }
    forall x | 0 <= x < |d.bufs| ensures BufOk(d, x) {
      assert BufOk(c, x);
    }
    StaleCached(c, d, b);
    hide BufOk;
  }

  lemma StaleCached(c: Cache, d: Cache, b: int)
    requires Inv(c) && Sizes(d) && |d.bufs| == |c.bufs| && 0 <= b < |c.bufs|
    requires forall x :: 0 <= x < |c.bufs| && x != b ==> d.bufs[x] == c.bufs[x]
    requires d.disk.Keys == c.disk.Keys == d.ghost_.latest.Keys
    requires forall k :: k in c.disk && k != KeyOf(d.bufs[b]) ==> SameThere(c, d, k)
    requires KeyOf(d.bufs[b]) == KeyOf(c.bufs[b]) || !c.bufs[b].valid
    requires LostHere(d, KeyOf(d.bufs[b])) && d.ghost_.lost <= c.ghost_.lost + {KeyOf(d.bufs[b])}
    ensures DiskOk(d)
  {
    hide Perm, Falling;
    assert BufOk(c, b);
    forall k | k in d.disk && d.disk[k] != Current(d, k)
      ensures k.0 == 0 || exists x :: 0 <= x < |d.bufs| && Cached(d, x, k)
    {
      if k == KeyOf(d.bufs[b]) {
        assert Cached(d, b, k);
      } else if k.0 != 0 {
        var x :| 0 <= x < |c.bufs| && Cached(c, x, k);
        assert x != b;
        assert Cached(d, x, k);
      }
    }
  }

  lemma MoreRefs(r: multiset<int>, t: int)
    ensures |r + multiset{t}| == |r| + 1 && t in r + multiset{t}
    ensures forall x :: x in r ==> x in r + multiset{t}
    ensures t in r ==> |r - multiset{t}| == |r| - 1
    ensures forall x :: x in r && x != t ==> x in r - multiset{t}
  {
    if t in r {
      assert r == (r - multiset{t}) + multiset{t};
    }
  }

  /** Steps that take a reference. */
  lemma TakeKept(c: Cache, s: Step)
    requires Inv(c) && Enabled(c, s) && (s.Hit? || s.Pin?)
    ensures Inv(After(c, s))
  {
    hide Inv, BufOk, Taken;
    if s.Pin? {
      HeldByOwner(c, s.t, s.b);
      UsedDev(c, s.t, s.b);
    }
    TakenInv(c, s.b, if s.Hit? then s.t else PIN);
    TakenIs(c, s);
  }

  /** One reference more. */
  function Taken(c: Cache, b: int, t: int): Cache
    requires IsBuf(c, b)
  {
    SetRefs(SetBuf(c, b, c.bufs[b].(refcnt := c.bufs[b].refcnt + 1)), b, c.ghost_.refs[b] + multiset{t})
  }

  lemma TakenIs(c: Cache, s: Step)
    requires Enabled(c, s) && (s.Hit? || s.Pin?)
    ensures IsBuf(c, s.b) && After(c, s) == Taken(c, s.b, if s.Hit? then s.t else PIN)
  {
  }

  lemma TakenInv(c: Cache, b: int, t: int)
    requires Inv(c) && IsBuf(c, b) && c.bufs[b].dev != 0
    ensures Inv(Taken(c, b, t))
  {
    hide Perm, Falling, DiskOk, Unique;
    assert BufOk(c, b);
    var d := Taken(c, b, t);
    TakenBuffer(c, d, b, t);
    InvDisk(c);
    assert LostHere(c, KeyOf(c.bufs[b]));
    OneBuffer(c, d, b);
  }

  lemma TakenBuffer(c: Cache, d: Cache, b: int, t: int)
    requires Sizes(c) && Sizes(d) && 0 <= b < |c.bufs| == |d.bufs| && BufOk(c, b) && c.bufs[b].dev != 0
    requires d.disk == c.disk && d.ghost_.latest == c.ghost_.latest && d.ghost_.lost == c.ghost_.lost && d.bufs[b] == c.bufs[b].(refcnt := c.bufs[b].refcnt + 1)
    requires d.ghost_.refs[b] == c.ghost_.refs[b] + multiset{t} && d.ghost_.stamp[b] == c.ghost_.stamp[b] && d.ghost_.clock == c.ghost_.clock
    ensures BufOk(d, b)
  {
    MoreRefs(c.ghost_.refs[b], t);
  }

  /** A buffer in use has a device. */
  lemma UsedDev(c: Cache, t: int, b: int)
    requires Inv(c) && Holds(c, t, b)
    ensures c.bufs[b].dev != 0
  {
    assert BufOk(c, b);
    hide Perm, Falling, DiskOk, Unique;
  }

  /** One reference given up, without moving the buffer. */
  function Given(c: Cache, b: int, t: int): Cache
    requires IsBuf(c, b)
  {
    SetRefs(SetBuf(c, b, c.bufs[b].(refcnt := c.bufs[b].refcnt - 1)), b, c.ghost_.refs[b] - multiset{t})
  }

  lemma GivenInv(c: Cache, b: int, t: int)
    requires Inv(c) && IsBuf(c, b) && t in c.ghost_.refs[b] && c.bufs[b].holder != t
    ensures Inv(Given(c, b, t))
  {
    hide Perm, Falling, DiskOk, Unique;
    assert BufOk(c, b);
    var d := Given(c, b, t);
    GivenBuffer(c, d, b, t);
    InvDisk(c);
    assert LostHere(c, KeyOf(c.bufs[b]));
    OneBuffer(c, d, b);
  }

  lemma StampedInv(c: Cache, b: int)
    requires Inv(c) && IsBuf(c, b)
    ensures Inv(Stamped(c, b))
  {
    hide Perm, Falling, DiskOk, Unique;
    assert BufOk(c, b);
    var d := Stamped(c, b);
    StampedOk(c, b);
    assert BufOk(d, b);
    InvDisk(c);
    assert LostHere(c, KeyOf(c.bufs[b]));
    OneBuffer(c, d, b);
  }

  /** Steps that give a reference up. */
  lemma GiveKept(c: Cache, s: Step)
    requires Inv(c) && Enabled(c, s) && (s.Unpin? || s.Drop?)
    ensures Inv(After(c, s))
  {
    hide Perm, Falling, DiskOk, Unique, ToFront;
    var b := s.b;
    assert BufOk(c, b);
    hide BufOk;
    var t := if s.Drop? then s.t else PIN;
    GivenInv(c, b, t);
    StampedInv(Given(c, b, t), b);
    hide Inv;
  }

  lemma InvDisk(c: Cache)
    requires Inv(c)
    ensures c.disk.Keys == c.ghost_.latest.Keys && forall k :: LostHere(c, k)
  {
    hide Perm, Falling, Unique, BufOk;
  }

  lemma GivenBuffer(c: Cache, d: Cache, b: int, t: int)
    requires Sizes(c) && Sizes(d) && 0 <= b < |c.bufs| == |d.bufs| && BufOk(c, b) && t in c.ghost_.refs[b] && c.bufs[b].holder != t
    requires d.disk == c.disk && d.ghost_.latest == c.ghost_.latest && d.ghost_.lost == c.ghost_.lost && d.bufs[b] == c.bufs[b].(refcnt := c.bufs[b].refcnt - 1)
    requires d.ghost_.refs[b] == c.ghost_.refs[b] - multiset{t} && d.ghost_.stamp[b] < d.ghost_.clock
    ensures BufOk(d, b)
  {
    MoreRefs(c.ghost_.refs[b], t);
  }

  lemma StampedOk(c: Cache, b: int)
    requires Inv(c) && 0 <= b < |c.bufs|
    ensures Perm(ToFront(c.lru, b), |c.bufs|) && Falling(ToFront(c.lru, b), c.ghost_.stamp[b := c.ghost_.clock])
  {
    FrontPerm(c.lru, |c.bufs|, b);
    forall x | 0 <= x < |c.ghost_.stamp| ensures c.ghost_.stamp[x] < c.ghost_.clock {
      assert BufOk(c, x);
    }
    FrontFalling(c.lru, c.ghost_.stamp, b, c.ghost_.clock);
  }

  lemma RecycleKept(c: Cache, s: Step)
    requires Inv(c) && Enabled(c, s) && s.Recycle?
    ensures Inv(After(c, s))
  {
    var b := s.b;
    ForgetInv(c, b);
    assert forall d :: 0 <= d < |c.bufs| ==> (Cached(Forget(c, b), d, s.key) <==> Cached(c, d, s.key));
    hide Inv, Victim;
    RekeyInv(Forget(c, b), b, s.key, s.t);
  }

  lemma ForgetInv(c: Cache, b: int)
    requires Inv(c) && IsBuf(c, b) && c.bufs[b].refcnt == 0
    ensures Inv(Forget(c, b))
  {
    hide Perm, Falling;
    assert BufOk(c, b);
    OneBuffer(c, Forget(c, b), b);
  }

  lemma RekeyInv(c: Cache, b: int, key: Key, t: int)
    requires Inv(c) && IsBuf(c, b) && !c.bufs[b].valid && c.bufs[b].refcnt == 0 && key.0 != 0 && key in c.disk
    requires forall d :: 0 <= d < |c.bufs| ==> !Cached(c, d, key)
    ensures Inv(Rekey(c, b, key, t))
  {
    hide Perm, Falling;
    assert BufOk(c, b);
    var d := Rekey(c, b, key, t);
    assert c.disk[key] == Current(c, key);
    assert KeyOf(d.bufs[b]) == key;
    assert |multiset{t}| == 1;
    assert |c.ghost_.refs[b]| == 0;
    OneBuffer(c, d, b);
  }

  /** Steps of the thread that has the buffer's lock, and taking that lock. */
  lemma LockStepKept(c: Cache, s: Step)
    requires Inv(c) && Enabled(c, s) && (s.Lock? || s.Fill? || s.Modify? || s.Bwrite? || s.Unlock?)
    ensures Inv(After(c, s))
  {
    hide Inv, Enabled, After;
    if s.Lock? || s.Unlock? {
      HolderKept(c, s);
    } else {
      ContentsKept(c, s);
    }
  }

  lemma HolderKept(c: Cache, s: Step)
    requires Inv(c) && Enabled(c, s) && (s.Lock? || s.Unlock?)
    ensures Inv(After(c, s))
  {
    hide Perm, Falling, DiskOk, Unique;
    var b := s.b;
    assert BufOk(c, b);
    InvDisk(c);
    assert LostHere(c, KeyOf(c.bufs[b]));
    OneBuffer(c, After(c, s), b);
  }

  lemma ContentsKept(c: Cache, s: Step)
    requires Inv(c) && Enabled(c, s) && (s.Fill? || s.Modify? || s.Bwrite?)
    ensures Inv(After(c, s))
  {
    hide Perm, Falling, DiskOk, Unique;
    var b := s.b;
    assert BufOk(c, b);
    InvDisk(c);
    assert LostHere(c, KeyOf(c.bufs[b]));
    OneBuffer(c, After(c, s), b);
  }

  lemma StepKept(c: Cache, s: Step)
    requires Inv(c) && Enabled(c, s)
    ensures Inv(After(c, s))
  {
    hide Inv, After, Enabled;
    if s.Recycle? {
      RecycleKept(c, s);
    } else if s.Hit? || s.Pin? {
      TakeKept(c, s);
    } else if s.Unpin? || s.Drop? {
      GiveKept(c, s);
    } else {
      LockStepKept(c, s);
    }
  }

  // ----- Runs -----

  ghost predicate IsRun(c: Cache, steps: seq<Step>)
    decreases |steps|
  {
    steps == [] || (Enabled(c, steps[0]) && IsRun(After(c, steps[0]), steps[1..]))
  }

  ghost function Run(c: Cache, steps: seq<Step>): Cache
    requires IsRun(c, steps)
    decreases |steps|
  {
    if steps == [] then c else Run(After(c, steps[0]), steps[1..])
  }

  lemma {:induction false} RunKept(c: Cache, steps: seq<Step>)
    requires Inv(c) && IsRun(c, steps)
    ensures Inv(Run(c, steps))
    decreases |steps|
  {
    if steps != [] {
      StepKept(c, steps[0]);
      RunKept(After(c, steps[0]), steps[1..]);
    }
  }

  /** bread: after any run, the thread that has the lock of a filled buffer sees the latest contents of its block
      exactly when they have not been lost, and nobody else has a buffer for that block. */
  lemma BreadLatest(c: Cache, steps: seq<Step>, t: int, b: int)
    requires Booted(c) && IsRun(c, steps)
    requires var d := Run(c, steps); Locked(d, t, b) && d.bufs[b].valid
    ensures var d := Run(c, steps);
            && KeyOf(d.bufs[b]) in d.ghost_.latest
            && (d.bufs[b].data == d.ghost_.latest[KeyOf(d.bufs[b])] <==> KeyOf(d.bufs[b]) !in d.ghost_.lost)
            && Holds(d, t, b) && forall x :: 0 <= x < |d.bufs| && x != b ==> KeyOf(d.bufs[x]) != KeyOf(d.bufs[b])
  {
    BootedInv(c);
    RunKept(c, steps);
    assert BufOk(Run(c, steps), b);
    hide Run, Perm, Falling;
  }

  // ----- When contents are lost -----

  /** The step does not give up the last reference to a buffer whose contents the disk does not have. */
  ghost predicate Careful(c: Cache, s: Step)
    requires Enabled(c, s)
  {
    (s.Drop? || s.Unpin?) && c.bufs[s.b].refcnt == 1 ==> Clean(c, s.b)
  }

  ghost predicate CarefulRun(c: Cache, steps: seq<Step>)
    requires IsRun(c, steps)
    decreases |steps|
  {
    steps == [] || (Careful(c, steps[0]) && CarefulRun(After(c, steps[0]), steps[1..]))
  }

  /** No unused buffer has contents of its own. */
  ghost predicate Tidy(c: Cache) {
    forall b :: 0 <= b < |c.bufs| && c.bufs[b].refcnt == 0 ==> Clean(c, b)
  }

  lemma TidyKept(c: Cache, s: Step)
    requires Inv(c) && Enabled(c, s) && Careful(c, s) && Tidy(c)
    ensures Tidy(After(c, s)) && After(c, s).ghost_.lost <= c.ghost_.lost
  {
    var b, d := s.b, After(c, s);
    OthersTidy(c, s);
    forall x | 0 <= x < |d.bufs| && d.bufs[x].refcnt == 0 ensures Clean(d, x) {
      hide Inv;
      assert Clean(c, x);
    }
  }

  lemma OthersTidy(c: Cache, s: Step)
    requires Inv(c) && Enabled(c, s)
    ensures var d := After(c, s);
            && |d.bufs| == |c.bufs| && (forall x :: 0 <= x < |c.bufs| && x != s.b ==> d.bufs[x] == c.bufs[x])
            && (d.bufs[s.b].refcnt == 0 ==> s.Drop? || s.Unpin?)
            && forall x :: 0 <= x < |c.bufs| && c.bufs[x].dev != 0 && d.disk != c.disk ==> x == s.b || KeyOf(c.bufs[x]) != KeyOf(c.bufs[s.b])
  {
    UniqueAt(c, s.b);
    if Locked(c, s.t, s.b) || Holds(c, s.t, s.b) {
      InUse(c, s.t, s.b);
    }
    hide Inv, Victim, ToFront, Unique;
  }

  lemma UniqueAt(c: Cache, b: int)
    requires Inv(c) && 0 <= b < |c.bufs|
    ensures forall x :: 0 <= x < |c.bufs| && c.bufs[x].dev != 0 ==> x == b || KeyOf(c.bufs[x]) != KeyOf(c.bufs[b])
    ensures c.bufs[b].refcnt >= 0
  {
    assert BufOk(c, b);
    hide Perm, Falling, DiskOk, BufOk;
  }

  lemma InUse(c: Cache, t: int, b: int)
    requires Inv(c) && (Locked(c, t, b) || Holds(c, t, b))
    ensures c.bufs[b].refcnt > 0
  {
    assert BufOk(c, b);
    MoreRefs(c.ghost_.refs[b], t);
    hide Perm, Falling, DiskOk, Unique;
  }

  /** While every thread is careful no contents are lost. */
  lemma {:induction false} NothingLost(c: Cache, steps: seq<Step>)
    requires Inv(c) && Tidy(c) && c.ghost_.lost == {} && IsRun(c, steps) && CarefulRun(c, steps)
    ensures Run(c, steps).ghost_.lost == {}
    decreases |steps|
  {
    if steps != [] {
      StepKept(c, steps[0]);
      TidyKept(c, steps[0]);
      hide Inv, After, Enabled, Careful, Tidy;
      NothingLost(After(c, steps[0]), steps[1..]);
    }
  }

  /** In one step the contents of a block are lost exactly when a buffer that the disk has not got is recycled, and
      only new contents make good for them. */
  lemma LostGrows(c: Cache, s: Step, k: Key)
    requires Inv(c) && Enabled(c, s)
    ensures k !in c.ghost_.lost ==> (k in After(c, s).ghost_.lost <==> s.Recycle? && !Clean(c, s.b) && k == KeyOf(c.bufs[s.b]))
    ensures k in c.ghost_.lost ==> (k !in After(c, s).ghost_.lost <==> s.Modify? && k == KeyOf(c.bufs[s.b]))
  {
    hide Inv, Clean, Victim, ToFront;
  }

  lemma HeldByOwner(c: Cache, t: int, b: int)
    requires Inv(c) && Locked(c, t, b)
    ensures 0 <= t && t in c.ghost_.refs[b] && c.bufs[b].refcnt == |c.ghost_.refs[b]|
    ensures c.bufs[b].valid ==> KeyOf(c.bufs[b]) in c.disk
  {
    assert BufOk(c, b);
    hide Perm, Falling, DiskOk, Unique;
  }

  /** The buffer that bget recycles was released longer ago than every other unused one. */
  lemma VictimIsOldest(c: Cache, b: int, x: int)
    requires Inv(c) && Victim(c, b) && 0 <= x < |c.bufs| && c.bufs[x].refcnt == 0 && x != b
    ensures c.ghost_.stamp[b] < c.ghost_.stamp[x]
  {
    var p :| 0 <= p < |c.lru| && c.lru[p] == b && IsBuf(c, b) && c.bufs[b].refcnt == 0 &&
      forall q :: p < q < |c.lru| && IsBuf(c, c.lru[q]) ==> c.bufs[c.lru[q]].refcnt != 0;
    assert x in c.lru;
    var q :| 0 <= q < |c.lru| && c.lru[q] == x;
    assert q < p;
  }

  /** A pinned buffer stays: until it is unpinned, no run gives it to another block. */
  lemma {:induction false} PinnedStays(c: Cache, steps: seq<Step>, b: int)
    requires Inv(c) && IsRun(c, steps) && IsBuf(c, b) && PIN in c.ghost_.refs[b]
    requires forall i :: 0 <= i < |steps| ==> !(steps[i].Unpin? && steps[i].b == b)
    ensures var d := Run(c, steps); IsBuf(d, b) && PIN in d.ghost_.refs[b] && KeyOf(d.bufs[b]) == KeyOf(c.bufs[b])
    decreases |steps|
  {
    if steps != [] {
      var s := steps[0];
      StepKept(c, s);
      PinKept(c, s, b);
      var d := After(c, s);
      hide Inv, After;
      assert forall i :: 0 <= i < |steps[1..]| ==> steps[1..][i] == steps[i + 1];
      PinnedStays(d, steps[1..], b);
    }
  }

  lemma PinKept(c: Cache, s: Step, b: int)
    requires Inv(c) && Enabled(c, s) && IsBuf(c, b) && PIN in c.ghost_.refs[b] && !(s.Unpin? && s.b == b)
    ensures var d := After(c, s); IsBuf(d, b) && PIN in d.ghost_.refs[b] && KeyOf(d.bufs[b]) == KeyOf(c.bufs[b])
  {
    hide Inv, Enabled, After;
    if s.b == b {
      PinHere(c, s);
    } else {
      OthersStay(c, s, b);
    }
  }

  lemma OthersStay(c: Cache, s: Step, x: int)
    requires Inv(c) && Enabled(c, s) && IsBuf(c, x) && s.b != x
    ensures var d := After(c, s); IsBuf(d, x) && d.bufs[x] == c.bufs[x] && d.ghost_.refs[x] == c.ghost_.refs[x]
  {
    assert IsBuf(c, s.b);
    hide Inv, Victim, ToFront, Clean;
  }

  /** Whoever has the lock of a buffer keeps it, and the buffer its block, until it is given back. */
  lemma LockHeld(c: Cache, s: Step, t: int, b: int)
    requires Inv(c) && Enabled(c, s) && Locked(c, t, b) && s != Unlock(t, b)
    ensures Locked(After(c, s), t, b) && KeyOf(After(c, s).bufs[b]) == KeyOf(c.bufs[b])
  {
    hide Inv, Enabled, After;
    if s.b == b {
      LockHere(c, s, t);
    } else {
      OthersStay(c, s, b);
    }
  }

  lemma LockHere(c: Cache, s: Step, t: int)
    requires Inv(c) && Enabled(c, s) && Locked(c, t, s.b) && s != Unlock(t, s.b)
    ensures Locked(After(c, s), t, s.b) && KeyOf(After(c, s).bufs[s.b]) == KeyOf(c.bufs[s.b])
  {
    InUse(c, t, s.b);
    hide Inv, ToFront, Clean;
  }

  lemma PinHere(c: Cache, s: Step)
    requires Inv(c) && Enabled(c, s) && IsBuf(c, s.b) && PIN in c.ghost_.refs[s.b] && !s.Unpin?
    ensures var d := After(c, s); IsBuf(d, s.b) && PIN in d.ghost_.refs[s.b] && KeyOf(d.bufs[s.b]) == KeyOf(c.bufs[s.b])
  {
    assert BufOk(c, s.b);
    assert c.bufs[s.b].refcnt > 0 by {
      MoreRefs(c.ghost_.refs[s.b], PIN);
    }
    hide Inv, Perm, Falling, Unique, DiskOk, BufOk, ToFront, Clean;
    MoreRefs(c.ghost_.refs[s.b], s.t);
  }
}
